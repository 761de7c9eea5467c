/**
 * The token service (`jwt.sign` / `jwt.verify` with an HS256 secret and
 * `expiresIn: "24h"`). A token is URL-safe text of three dot-separated segments:
 * the algorithm name, the encoded payload, and a signature computed from the
 * secret and the first two segments. Times are whole seconds since the epoch.
 */
module Jwt {
  import opened Wrappers
  import opened JsString
  import opened HexText

  /** `expiresIn: "24h"`, in seconds. */
  const ExpiresIn: nat := 24 * 60 * 60

  const Algorithm: string := "HS256"

  /** The claims the login handler signs. */
  datatype Claims = Claims(id: nat, username: string, email: string)

  /** What `jwt.verify` hands back: the signed claims plus the issued-at and expiry times `jwt.sign` added. */
  datatype Payload = Payload(id: nat, username: string, email: string, iat: nat, exp: nat)

  datatype TokenError = Malformed | InvalidSignature | Expired

  /** Unreserved URL characters (section 2.3 of RFC 3986). */
  predicate UrlSafe(c: char) {
    ('A' <= c <= 'Z') || ('a' <= c <= 'z') || ('0' <= c <= '9') || c == '-' || c == '.' || c == '_' || c == '~'
  }

  const MacModulus: nat := 0x1_0000_0000_0000_0000

  function MacFold(s: string, acc: nat): nat
  {
    if s == [] then acc else MacFold(s[1..], (acc * 257 + s[0] as int) % MacModulus)
  }

  /**
   * Stand-in for HMAC-SHA256: some deterministic function of the secret and the
   * signed text. Nothing in the model depends on which function it is.
   */
  function Mac(secret: string, input: string): nat
  {
    MacFold(secret + "." + input, 0)
  }

  /** The payload segment: five hex fields separated by '~'. */
  function EncodePayload(p: Payload): (t: string)
    ensures forall i :: 0 <= i < |t| ==> IsHexDigit(t[i]) || t[i] == '~'
  {
    var fields := [HexNat(p.id), EncodeText(p.username), EncodeText(p.email), HexNat(p.iat), HexNat(p.exp)];
    JoinKeeps(fields, '~', c => IsHexDigit(c) || c == '~');
    Join(fields, '~')
  }

  function ParsePayload(t: string): (p: Option<Payload>)
  {
    var fields := Split(t, '~');
    if |fields| != 5 then None
    else
      match (ParseHex(fields[0]), ParseText(fields[1]), ParseText(fields[2]), ParseHex(fields[3]), ParseHex(fields[4]))
      case (Some(id), Some(username), Some(email), Some(iat), Some(exp)) => Some(Payload(id, username, email, iat, exp))
      case _ => None
  }

  lemma PayloadRoundTrip(p: Payload)
    ensures ParsePayload(EncodePayload(p)) == Some(p)
  {
    var fields := [HexNat(p.id), EncodeText(p.username), EncodeText(p.email), HexNat(p.iat), HexNat(p.exp)];
    forall i | 0 <= i < |fields|
      ensures '~' !in fields[i]
    {
      assert !IsHexDigit('~');
    }
    SplitJoin(fields, '~');
    HexNatRoundTrip(p.id);
    HexNatRoundTrip(p.iat);
    HexNatRoundTrip(p.exp);
    TextRoundTrip(p.username);
    TextRoundTrip(p.email);
  }

  /** The signature segment for an encoded payload. */
  function Signature(secret: string, payloadText: string): (sig: string)
    ensures |sig| >= 1 && forall i :: 0 <= i < |sig| ==> IsHexDigit(sig[i])
  {
    HexNat(Mac(secret, Algorithm + "." + payloadText))
  }

  /** The token for a full payload, signed with `secret`. */
  function SignPayload(p: Payload, secret: string): (token: string)
  {
    var body := EncodePayload(p);
    Join([Algorithm, body, Signature(secret, body)], '.')
  }

  /** `jwt.sign(claims, secret, { expiresIn: "24h" })` at time `now`. */
  function Sign(claims: Claims, secret: string, now: nat): (token: string)
    ensures forall i :: 0 <= i < |token| ==> UrlSafe(token[i])
    ensures ' ' !in token
  {
    var p := Payload(claims.id, claims.username, claims.email, now, now + ExpiresIn);
    var body := EncodePayload(p);
    var sig := Signature(secret, body);
    JoinKeeps([Algorithm, body, sig], '.', UrlSafe);
    SignPayload(p, secret)
  }

  /**
   * `jwt.verify(token, secret)` at time `now`: parse, then check the signature,
   * then check expiry (a token is expired from the second `now >= exp` on).
   */
  function Verify(token: string, secret: string, now: nat): (r: Result<Payload, TokenError>)
    ensures r.Ok? ==> now < r.value.exp
    ensures r.Ok? ==> exists body :: token == Join([Algorithm, body, Signature(secret, body)], '.')
                                      && ParsePayload(body) == Some(r.value)
  {
    var parts := Split(token, '.');
    if |parts| != 3 || parts[0] != Algorithm then Err(Malformed)
    else
      match ParsePayload(parts[1])
      case None => Err(Malformed)
      case Some(p) =>
        if parts[2] != Signature(secret, parts[1]) then Err(InvalidSignature)
        else if now >= p.exp then Err(Expired)
        else
          assert parts == [Algorithm, parts[1], Signature(secret, parts[1])];
          Ok(p)
  }

  /** A joined string holds only characters of its parts and the separator. */
  lemma JoinKeeps(parts: seq<string>, sep: char, ok: char -> bool)
    requires |parts| >= 1
    requires ok(sep) || |parts| == 1
    requires forall i, j :: 0 <= i < |parts| && 0 <= j < |parts[i]| ==> ok(parts[i][j])
    ensures forall k :: 0 <= k < |Join(parts, sep)| ==> ok(Join(parts, sep)[k])
    decreases |parts|
  {
    if |parts| > 1 {
      JoinKeeps(parts[1..], sep, ok);
    }
  }

  /** A signed token splits back into its three segments. */
  lemma SignedSegments(p: Payload, secret: string)
    ensures Split(SignPayload(p, secret), '.') == [Algorithm, EncodePayload(p), Signature(secret, EncodePayload(p))]
  {
    var body := EncodePayload(p);
    var parts := [Algorithm, body, Signature(secret, body)];
    forall i | 0 <= i < |parts|
      ensures '.' !in parts[i]
    {
      assert !IsHexDigit('.');
    }
    SplitJoin(parts, '.');
  }

  /** Verifying a token with the secret that signed it gives back its payload until the expiry second. */
  lemma {:induction false} VerifySigned(p: Payload, secret: string, now: nat)
    ensures Verify(SignPayload(p, secret), secret, now) == if now >= p.exp then Err(Expired) else Ok(p)
  {
    SignedSegments(p, secret);
    PayloadRoundTrip(p);
  }

  /** A token from `Sign` verifies, with the same secret, to its claims plus issue and expiry times for 24 hours. */
  lemma {:induction false} SignVerifyRoundTrip(claims: Claims, secret: string, issuedAt: nat, now: nat)
    requires now < issuedAt + ExpiresIn
    ensures Verify(Sign(claims, secret, issuedAt), secret, now)
         == Ok(Payload(claims.id, claims.username, claims.email, issuedAt, issuedAt + ExpiresIn))
  {
    VerifySigned(Payload(claims.id, claims.username, claims.email, issuedAt, issuedAt + ExpiresIn), secret, now);
  }

  /** From 24 hours after issue on, the same token is rejected as expired; expiry is absolute, not sliding. */
  lemma {:induction false} SignedTokenExpires(claims: Claims, secret: string, issuedAt: nat, now: nat)
    requires now >= issuedAt + ExpiresIn
    ensures Verify(Sign(claims, secret, issuedAt), secret, now) == Err(Expired)
  {
    VerifySigned(Payload(claims.id, claims.username, claims.email, issuedAt, issuedAt + ExpiresIn), secret, now);
  }

  /** A token checked against a secret that would have signed the same claims differently fails on its signature. */
  lemma {:induction false} OtherSecretRejected(claims: Claims, secret: string, other: string, issuedAt: nat, now: nat)
    requires Sign(claims, other, issuedAt) != Sign(claims, secret, issuedAt)
    ensures Verify(Sign(claims, secret, issuedAt), other, now) == Err(InvalidSignature)
  {
    var p := Payload(claims.id, claims.username, claims.email, issuedAt, issuedAt + ExpiresIn);
    SignedSegments(p, secret);
    PayloadRoundTrip(p);
  }

  /** Replacing the signature segment of a signed token by any other dot-free text makes it fail on its signature. */
  lemma {:induction false} TamperedSignatureRejected(p: Payload, secret: string, forged: string, now: nat)
    requires '.' !in forged
    requires forged != Signature(secret, EncodePayload(p))
    ensures Verify(Join([Algorithm, EncodePayload(p), forged], '.'), secret, now) == Err(InvalidSignature)
  {
    var body := EncodePayload(p);
    var parts := [Algorithm, body, forged];
    forall i | 0 <= i < 2
      ensures '.' !in parts[i]
    {
      assert !IsHexDigit('.');
    }
    SplitJoin(parts, '.');
    PayloadRoundTrip(p);
  }

  /** Text without a dot is not a token at all. */
  lemma {:induction false} DotlessTokenMalformed(token: string, secret: string, now: nat)
    requires '.' !in token
    ensures Verify(token, secret, now) == Err(Malformed)
  {
    SplitJoin([token], '.');
  }
}
