/**
 * The `users` table of the SQLite database: rows kept in rowid order together
 * with the AUTOINCREMENT counter, the constraints the table declares, and the
 * statements the request handlers run against it.
 */
module UserStore {
  import opened Wrappers
  import opened Bcrypt

  /** The largest rowid SQLite can hand out; AUTOINCREMENT never reuses or wraps. */
  const MaxRowId: nat := 0x7FFF_FFFF_FFFF_FFFF

  /**
   * One row. `username`, `email` and `password` are NOT NULL columns, so they are
   * plain values here; `createdAt` is the insertion time in seconds (the column's
   * textual `CURRENT_TIMESTAMP` format is not modelled).
   */
  datatype UserRecord = UserRecord(id: nat, username: string, email: string, password: Digest, createdAt: nat)

  /** The rows in rowid order, and the largest id ever handed out (SQLite's `sqlite_sequence` entry). */
  datatype Table = Table(rows: seq<UserRecord>, lastId: nat)

  /**
   * What the schema guarantees of every state of the table: ids are handed out in
   * increasing order and never above the counter, and emails are UNIQUE. Ids are
   * then a primary key, and there are never more rows than ids handed out.
   */
  predicate Valid(t: Table): (b: bool)
    ensures b ==> forall i, j :: 0 <= i < |t.rows| && 0 <= j < |t.rows| && i != j ==> t.rows[i].id != t.rows[j].id
    ensures b ==> |t.rows| <= t.lastId
  {
    RowsWithinCounter(t.rows, t.lastId);

    && t.lastId <= MaxRowId
    && (forall i :: 0 <= i < |t.rows| ==> 0 < t.rows[i].id <= t.lastId)
    && (forall i, j :: 0 <= i < j < |t.rows| ==> t.rows[i].id < t.rows[j].id)
    && (forall i, j :: 0 <= i < j < |t.rows| ==> t.rows[i].email != t.rows[j].email)
  }

  /** Strictly increasing positive ids put the `i`-th row's id at `i + 1` or above. */
  lemma {:induction false} IdsCountRows(rows: seq<UserRecord>)
    requires forall i :: 0 <= i < |rows| ==> 0 < rows[i].id
    requires forall i, j :: 0 <= i < j < |rows| ==> rows[i].id < rows[j].id
    ensures forall i :: 0 <= i < |rows| ==> rows[i].id >= i + 1
    decreases |rows|
  {
    if |rows| > 0 {
      var last := |rows| - 1;
      var init := rows[..last];
      assert forall i :: 0 <= i < |init| ==> init[i] == rows[i];
      IdsCountRows(init);
      if last > 0 {
        assert rows[last - 1].id < rows[last].id;
      }
    }
  }

  /** Rows whose ids are increasing, positive and at most the counter are no more than the counter. */
  lemma {:induction false} RowsWithinCounter(rows: seq<UserRecord>, lastId: nat)
    ensures (forall i :: 0 <= i < |rows| ==> 0 < rows[i].id <= lastId)
            && (forall i, j :: 0 <= i < j < |rows| ==> rows[i].id < rows[j].id)
            ==> |rows| <= lastId
  {
    if (forall i :: 0 <= i < |rows| ==> 0 < rows[i].id <= lastId)
       && (forall i, j :: 0 <= i < j < |rows| ==> rows[i].id < rows[j].id)
       && |rows| > 0 {
      IdsCountRows(rows);
      assert rows[|rows| - 1].id >= |rows|;
    }
  }

  /** What the application adds on top of the schema: usernames are distinct too. */
  predicate UniqueUsernames(t: Table) {
    forall i, j :: 0 <= i < j < |t.rows| ==> t.rows[i].username != t.rows[j].username
  }

  /** `CREATE TABLE IF NOT EXISTS users (...)`: a fresh empty table only when there was none. */
  function CreateTableIfNotExists(existing: Option<Table>): (t: Table)
    ensures existing.Some? ==> t == existing.value
    ensures existing.None? ==> t.rows == [] && Valid(t)
  {
    match existing
    case Some(table) => table
    case None => Table([], 0)
  }

  /** Running the table creation again leaves the table as the first run left it. */
  lemma CreateTableIdempotent(existing: Option<Table>)
    ensures CreateTableIfNotExists(Some(CreateTableIfNotExists(existing))) == CreateTableIfNotExists(existing)
    ensures existing.Some? ==> CreateTableIfNotExists(existing).rows == existing.value.rows
  {
  }

  /** The first row, in rowid order, that satisfies `matches`; the result of a `SELECT ... .get()`. */
  function FirstWhere(rows: seq<UserRecord>, matches: UserRecord -> bool): (r: Option<UserRecord>)
    ensures r.None? <==> forall i :: 0 <= i < |rows| ==> !matches(rows[i])
    ensures r.Some? ==> exists i :: 0 <= i < |rows| && rows[i] == r.value && matches(rows[i])
                                    && forall j :: 0 <= j < i ==> !matches(rows[j])
  {
    if rows == [] then None
    else if matches(rows[0]) then Some(rows[0])
    else
      var r := FirstWhere(rows[1..], matches);
      assert forall i :: 0 < i < |rows| ==> rows[i] == rows[1..][i - 1];
      r
  }

  /** `SELECT * FROM users WHERE email = ? OR username = ?` */
  function FindByEmailOrUsername(t: Table, email: string, username: string): (r: Option<UserRecord>)
    ensures r.None? <==> forall i :: 0 <= i < |t.rows| ==> t.rows[i].email != email && t.rows[i].username != username
    ensures r.Some? ==> r.value in t.rows && (r.value.email == email || r.value.username == username)
  {
    FirstWhere(t.rows, (row: UserRecord) => row.email == email || row.username == username)
  }

  /** `SELECT * FROM users WHERE email = ?`: with emails unique, the row holding that email if any. */
  function FindByEmail(t: Table, email: string): (r: Option<UserRecord>)
    requires Valid(t)
    ensures r.None? <==> forall i :: 0 <= i < |t.rows| ==> t.rows[i].email != email
    ensures forall i :: 0 <= i < |t.rows| && t.rows[i].email == email ==> r == Some(t.rows[i])
  {
    FirstWhere(t.rows, (row: UserRecord) => row.email == email)
  }

  /** `SELECT * FROM users WHERE id = ?`: with ids unique, the row holding that id if any. */
  function FindById(t: Table, id: nat): (r: Option<UserRecord>)
    requires Valid(t)
    ensures r.None? <==> forall i :: 0 <= i < |t.rows| ==> t.rows[i].id != id
    ensures forall i :: 0 <= i < |t.rows| && t.rows[i].id == id ==> r == Some(t.rows[i])
  {
    FirstWhere(t.rows, (row: UserRecord) => row.id == id)
  }

  datatype InsertError =
    | RowIdExhausted  // SQLITE_FULL: AUTOINCREMENT has used up every rowid
    | EmailTaken      // SQLITE_CONSTRAINT_UNIQUE on `email`

  /** A successful insert: the new table and `lastInsertRowid`. */
  datatype Inserted = Inserted(table: Table, id: nat)

  /**
   * `INSERT INTO users (username, email, password) VALUES (?, ?, ?)` at time `now`:
   * the id comes from the AUTOINCREMENT counter and `createdAt` from the column default.
   */
  function Insert(t: Table, username: string, email: string, password: Digest, now: nat): (r: Result<Inserted, InsertError>)
    requires Valid(t)
    ensures r.Ok? <==> t.lastId < MaxRowId && forall i :: 0 <= i < |t.rows| ==> t.rows[i].email != email
    ensures r.Ok? ==> r.value.table.rows == t.rows + [UserRecord(r.value.id, username, email, password, now)]
    ensures r.Ok? ==> forall i :: 0 <= i < |t.rows| ==> t.rows[i].id < r.value.id
    ensures r.Ok? ==> r.value.id == t.lastId + 1 == r.value.table.lastId
    ensures r.Ok? ==> Valid(r.value.table)
  {
    if t.lastId >= MaxRowId then Err(RowIdExhausted)
    else if exists i :: 0 <= i < |t.rows| && t.rows[i].email == email then Err(EmailTaken)
    else
      var id := t.lastId + 1;
      Ok(Inserted(Table(t.rows + [UserRecord(id, username, email, password, now)], id), id))
  }

  /** The schema does not stop two rows sharing a username: only `email` is declared UNIQUE. */
  lemma SchemaAllowsDuplicateUsername(d: Digest)
    ensures var first := Insert(Table([], 0), "bob", "b1@x.com", d, 0);
            && first.Ok?
            && var second := Insert(first.value.table, "bob", "b2@x.com", d, 0);
            && second.Ok?
            && Valid(second.value.table)
            && !UniqueUsernames(second.value.table)
  {
    var first := Insert(Table([], 0), "bob", "b1@x.com", d, 0);
    assert first.value.table.rows[0].email == "b1@x.com";
    var second := Insert(first.value.table, "bob", "b2@x.com", d, 0);
    assert "b1@x.com" != "b2@x.com";
    assert second.value.table.rows[0].username == second.value.table.rows[1].username;
  }
}
