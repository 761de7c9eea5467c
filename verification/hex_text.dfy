/**
 * Lower-case hexadecimal text, used to write numbers and arbitrary strings into
 * the URL-safe alphabet a signed token is made of, and to read them back.
 */
module HexText {
  import opened Wrappers

  /** The value of a lower-case hexadecimal digit, or None for any other character. */
  function DigitValue(c: char): (d: Option<nat>)
    ensures d.Some? ==> d.value < 16
  {
    if '0' <= c <= '9' then Some(c as int - '0' as int)
    else if 'a' <= c <= 'f' then Some(c as int - 'a' as int + 10)
    else None
  }

  predicate IsHexDigit(c: char) {
    DigitValue(c).Some?
  }

  /** The digit that stands for `d`; `DigitValue` reads it back. */
  function HexDigit(d: nat): (c: char)
    requires d < 16
    ensures DigitValue(c) == Some(d)
  {
    if d < 10 then ('0' as int + d) as char else ('a' as int + d - 10) as char
  }

  /** The most-significant-first value of a string of hex digits; None when any character is not one. */
  function ParseDigits(s: string): (v: Option<nat>)
    ensures v.Some? <==> forall i :: 0 <= i < |s| ==> IsHexDigit(s[i])
  {
    if s == [] then Some(0)
    else
      var init := s[..|s| - 1];
      assert forall i :: 0 <= i < |init| ==> init[i] == s[i];
      match (ParseDigits(init), DigitValue(s[|s| - 1]))
      case (Some(high), Some(low)) => Some(high * 16 + low)
      case _ => None
  }

  /** Shortest hexadecimal numeral for `n` (no leading zeros except for zero itself). */
  function HexNat(n: nat): (s: string)
    ensures |s| >= 1
    ensures forall i :: 0 <= i < |s| ==> IsHexDigit(s[i])
  {
    if n < 16 then [HexDigit(n)] else HexNat(n / 16) + [HexDigit(n % 16)]
  }

  /** A non-empty string of hex digits read as a number. */
  function ParseHex(s: string): (v: Option<nat>)
    ensures v.Some? ==> |s| >= 1
  {
    if s == [] then None else ParseDigits(s)
  }

  lemma {:induction false} HexNatRoundTrip(n: nat)
    ensures ParseHex(HexNat(n)) == Some(n)
  {
    var s := HexNat(n);
    if n < 16 {
      assert s[..|s| - 1] == [];
      assert ParseDigits(s[..|s| - 1]) == Some(0);
      assert DigitValue(s[|s| - 1]) == Some(n);
    } else {
      HexNatRoundTrip(n / 16);
      assert s[..|s| - 1] == HexNat(n / 16);
    }
  }

  function Pow16(w: nat): nat
  {
    if w == 0 then 1 else 16 * Pow16(w - 1)
  }

  /** Exactly `w` hex digits: the low `w` digits of `v`, most significant first. */
  function HexFixed(v: nat, w: nat): (s: string)
    ensures |s| == w
    ensures forall i :: 0 <= i < |s| ==> IsHexDigit(s[i])
  {
    if w == 0 then "" else HexFixed(v / 16, w - 1) + [HexDigit(v % 16)]
  }

  lemma {:induction false} HexFixedRoundTrip(v: nat, w: nat)
    requires v < Pow16(w)
    ensures ParseDigits(HexFixed(v, w)) == Some(v)
  {
    if w > 0 {
      var s := HexFixed(v, w);
      HexFixedRoundTrip(v / 16, w - 1);
      assert s[..|s| - 1] == HexFixed(v / 16, w - 1);
    }
  }

  /** Digits per character: every Unicode scalar value is below 16^6. */
  const CharWidth: nat := 6

  predicate IsScalar(v: int) {
    (0 <= v < 0xD800) || (0xE000 <= v < 0x11_0000)
  }

  /** A character as exactly six hex digits of its code point. */
  function EncodeChar(c: char): (s: string)
    ensures |s| == CharWidth
    ensures forall i :: 0 <= i < |s| ==> IsHexDigit(s[i])
  {
    HexFixed(c as int, CharWidth)
  }

  /** A string as the concatenation of its characters' six-digit codes. */
  function EncodeText(s: string): (t: string)
    ensures |t| == CharWidth * |s|
    ensures forall i :: 0 <= i < |t| ==> IsHexDigit(t[i])
  {
    if s == [] then "" else EncodeChar(s[0]) + EncodeText(s[1..])
  }

  /** Reads six-digit character codes back; None when the length or a code is not valid. */
  function ParseText(t: string): (s: Option<string>)
    ensures s.Some? ==> CharWidth * |s.value| == |t|
    decreases |t|
  {
    if t == [] then Some("")
    else if |t| < CharWidth then None
    else
      match (ParseDigits(t[..CharWidth]), ParseText(t[CharWidth..]))
      case (Some(v), Some(rest)) => if IsScalar(v) then Some([v as char] + rest) else None
      case _ => None
  }

  lemma {:induction false} TextRoundTrip(s: string)
    ensures ParseText(EncodeText(s)) == Some(s)
  {
    if s != [] {
      var t := EncodeText(s);
      assert Pow16(CharWidth) == 0x100_0000;
      HexFixedRoundTrip(s[0] as int, CharWidth);
      TextRoundTrip(s[1..]);
      assert t[..CharWidth] == EncodeChar(s[0]);
      assert t[CharWidth..] == EncodeText(s[1..]);
      assert s == [s[0]] + s[1..];
    }
  }
}
