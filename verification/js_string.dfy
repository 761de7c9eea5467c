/**
 * The JavaScript string operations the request handlers rely on: truthiness of a
 * request-body field, `String.prototype.length` (counted in UTF-16 code units) and
 * `String.prototype.split` with a one-character separator, together with its
 * inverse `Array.prototype.join`.
 */
module JsString {
  import opened Wrappers

  /** `!!field` for a request-body field that is absent or a string: only a non-empty string is truthy. */
  predicate Truthy(field: Option<string>): (b: bool)
    ensures b <==> field.Some? && Utf16Length(field.value) > 0
  {
    field.Some? && field.value != ""
  }

  /** Code points above the Basic Multilingual Plane take a surrogate pair in UTF-16. */
  function Utf16Units(c: char): (n: nat)
    ensures n == 1 || n == 2
    ensures n == 2 <==> c as int >= 0x1_0000
  {
    if c as int < 0x1_0000 then 1 else 2
  }

  /** `s.length` in JavaScript: the number of UTF-16 code units of `s`. */
  function Utf16Length(s: string): (n: nat)
    ensures |s| <= n <= 2 * |s|
    ensures n == 0 <==> s == ""
  {
    if s == [] then 0 else Utf16Units(s[0]) + Utf16Length(s[1..])
  }

  /** A string of Basic Multilingual Plane characters has as many code units as characters. */
  lemma {:induction false} Utf16LengthOfBmp(s: string)
    requires forall i :: 0 <= i < |s| ==> s[i] as int < 0x1_0000
    ensures Utf16Length(s) == |s|
  {
    if s != [] {
      Utf16LengthOfBmp(s[1..]);
    }
  }

  /** `parts.join(sep)`: the parts with one separator between each adjacent pair. */
  function Join(parts: seq<string>, sep: char): (s: string)
    requires |parts| >= 1
    ensures |s| >= |parts| - 1
  {
    if |parts| == 1 then parts[0] else parts[0] + [sep] + Join(parts[1..], sep)
  }

  /**
   * `s.split(sep)` for a one-character separator: the maximal separator-free pieces
   * of `s`, in order, including empty pieces before, between and after separators;
   * the empty string splits into one empty piece.
   */
  function Split(s: string, sep: char): (parts: seq<string>)
    ensures |parts| >= 1
    ensures forall i :: 0 <= i < |parts| ==> sep !in parts[i]
    ensures Join(parts, sep) == s
    decreases |s|
  {
    if |s| == 0 then [""]
    else
      var rest := Split(s[1..], sep);
      if s[0] == sep then
        assert s == [sep] + s[1..];
        [""] + rest
      else
        var parts := [[s[0]] + rest[0]] + rest[1..];
        assert parts[1..] == rest[1..];
        assert s == [s[0]] + s[1..];
        parts
  }

  /** Splitting a string that starts with a separator-free prefix glues the prefix onto the first piece. */
  lemma {:induction false} SplitAfterPrefix(a: string, t: string, sep: char)
    requires sep !in a
    ensures Split(a + t, sep) == [a + Split(t, sep)[0]] + Split(t, sep)[1..]
    decreases |a|
  {
    var st := Split(t, sep);
    if a == [] {
      assert a + t == t;
      assert a + st[0] == st[0];
      assert st == [st[0]] + st[1..];
    } else {
      SplitAfterPrefix(a[1..], t, sep);
      var rest := Split(a[1..] + t, sep);
      assert rest == [a[1..] + st[0]] + st[1..];
      assert (a + t)[0] == a[0] && a[0] != sep;
      assert (a + t)[1..] == a[1..] + t;
      assert Split(a + t, sep) == [[a[0]] + rest[0]] + rest[1..];
      assert [a[0]] + (a[1..] + st[0]) == a + st[0];
    }
  }

  /** A leading separator closes an empty first piece. */
  lemma SplitLeadingSeparator(t: string, sep: char)
    ensures Split([sep] + t, sep) == [""] + Split(t, sep)
  {
    var u := [sep] + t;
    assert u[0] == sep && u[1..] == t;
  }

  /** Splitting `w + [sep] + t` at its first separator: the first piece is `w`, the rest is the split of `t`. */
  lemma SplitFirstSeparator(w: string, t: string, sep: char)
    requires sep !in w
    ensures Split(w + [sep] + t, sep) == [w] + Split(t, sep)
  {
    var u := [sep] + t;
    var su := Split(u, sep);
    SplitLeadingSeparator(t, sep);
    SplitAfterPrefix(w, u, sep);
    assert w + [sep] + t == w + u;
    assert su[1..] == Split(t, sep);
    assert w + su[0] == w;
  }

  /** `join` followed by `split` on the same separator gives back the parts, when no part holds the separator. */
  lemma {:induction false} SplitJoin(parts: seq<string>, sep: char)
    requires |parts| >= 1
    requires forall i :: 0 <= i < |parts| ==> sep !in parts[i]
    ensures Split(Join(parts, sep), sep) == parts
    decreases |parts|
  {
    if |parts| == 1 {
      SplitAfterPrefix(parts[0], "", sep);
      assert parts[0] + "" == parts[0];
    } else {
      var rest := Join(parts[1..], sep);
      SplitJoin(parts[1..], sep);
      SplitFirstSeparator(parts[0], rest, sep);
      assert parts == [parts[0]] + parts[1..];
    }
  }

  /** The first two pieces of `w + [sep] + v + rest` are `w` and `v` when `rest` is empty or starts with the separator. */
  lemma {:induction false} SplitSecondPiece(w: string, v: string, rest: string, sep: char)
    requires sep !in w && sep !in v
    requires rest == "" || rest[0] == sep
    ensures var parts := Split(w + [sep] + v + rest, sep);
            |parts| >= 2 && parts[0] == w && parts[1] == v
  {
    var h := w + [sep] + v + rest;
    if rest == "" {
      assert h == w + [sep] + v;
      SplitJoin([v], sep);
      SplitFirstSeparator(w, v, sep);
    } else {
      var tail := rest[1..];
      var u := v + [sep] + tail;
      assert rest == [sep] + tail;
      assert h == w + [sep] + u;
      SplitFirstSeparator(v, tail, sep);
      SplitFirstSeparator(w, u, sep);
    }
  }
}
