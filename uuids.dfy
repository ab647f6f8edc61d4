/**
  UUIDs as the `uuid` crate renders and parses them: `to_string` gives the hyphenated
  lower-case form, `parse_str` accepts hex digits of either case. Generating a UUID
  (`Uuid::new_v4`) is random, so callers receive fresh ids as parameters.
*/
module Uuids {
  import opened Wrappers

  type Nibble = x: int | 0 <= x < 16

  /** A UUID as its 32 hexadecimal digits, most significant first. */
  type Uuid = s: seq<Nibble> | |s| == 32 witness seq(32, i => 0)

  const HEX_DIGITS: string := "0123456789abcdef"

  function HexDigit(n: Nibble): char {
    HEX_DIGITS[n]
  }

  /** The value of one hex digit, upper or lower case. */
  function HexValue(c: char): (r: Option<Nibble>)
    ensures r.Some? <==> ('0' <= c <= '9' || 'a' <= c <= 'f' || 'A' <= c <= 'F')
    ensures '0' <= c <= '9' ==> r == Some(c as int - '0' as int)
    ensures 'a' <= c <= 'f' ==> r == Some(c as int - 'a' as int + 10)
    ensures 'A' <= c <= 'F' ==> r == Some(c as int - 'A' as int + 10)
  {
    if '0' <= c <= '9' then Some(c as int - '0' as int)
    else if 'a' <= c <= 'f' then Some(c as int - 'a' as int + 10)
    else if 'A' <= c <= 'F' then Some(c as int - 'A' as int + 10)
    else None
  }

  lemma HexValueOfDigit(n: Nibble)
    ensures HexValue(HexDigit(n)) == Some(n)
  {
  }

  function Hex(ns: seq<Nibble>): (t: string)
    ensures |t| == |ns|
  {
    seq(|ns|, i requires 0 <= i < |ns| => HexDigit(ns[i]))
  }

  function DecodeHex(t: string): Option<seq<Nibble>> {
    if forall i :: 0 <= i < |t| ==> HexValue(t[i]).Some? then
      Some(seq(|t|, i requires 0 <= i < |t| && HexValue(t[i]).Some? => HexValue(t[i]).value))
    else None
  }

  /** `Uuid::to_string`: 8-4-4-4-12 lower-case hex digits separated by hyphens. */
  function ToString(u: Uuid): (r: string)
    ensures |r| == 36
    ensures r[8] == '-' && r[13] == '-' && r[18] == '-' && r[23] == '-'
  {
    Hex(u[..8]) + "-" + Hex(u[8..12]) + "-" + Hex(u[12..16]) + "-" + Hex(u[16..20]) + "-" + Hex(u[20..])
  }

  /** The 32 hex digits of a hyphenated rendering, hyphens dropped. */
  function HyphenatedDigits(s: string): string
    requires |s| == 36
  {
    s[..8] + s[9..13] + s[14..18] + s[19..23] + s[24..]
  }

  /** `Uuid::parse_str` for the hyphenated and the simple (32 digits) forms. */
  function Parse(s: string): (r: Option<Uuid>)
    ensures r.Some? ==> |s| == 36 || |s| == 32
  {
    var digits :=
      if |s| == 36 && s[8] == '-' && s[13] == '-' && s[18] == '-' && s[23] == '-'
      then DecodeHex(HyphenatedDigits(s))
      else if |s| == 32 then DecodeHex(s)
      else None;
    if digits.Some? && |digits.value| == 32 then Some(digits.value) else None
  }

  /** What `to_string` renders, `parse_str` reads back. */
  lemma ParseToString(u: Uuid)
    ensures Parse(ToString(u)) == Some(u)
  {
    var s := ToString(u);
    assert HyphenatedDigits(s) == Hex(u) by {
      assert u == u[..8] + u[8..12] + u[12..16] + u[16..20] + u[20..];
    }
    DecodeHexOfHex(u);
  }

  lemma DecodeHexOfHex(ns: seq<Nibble>)
    ensures DecodeHex(Hex(ns)) == Some(ns)
  {
    var t := Hex(ns);
    forall i | 0 <= i < |t| ensures HexValue(t[i]) == Some(ns[i]) {
      HexValueOfDigit(ns[i]);
    }
    var d := seq(|t|, i requires 0 <= i < |t| && HexValue(t[i]).Some? => HexValue(t[i]).value);
    assert d == ns;
  }

  /** Distinct UUIDs render differently. */
  lemma ToStringInjective(a: Uuid, b: Uuid)
    requires ToString(a) == ToString(b)
    ensures a == b
  {
    ParseToString(a);
    ParseToString(b);
  }
}
