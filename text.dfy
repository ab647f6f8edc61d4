/**
  The standard-library string operations the blog code relies on, over Dafny `string`
  (a sequence of Unicode scalar values, which is what a Rust `String` holds).
  `String::len` counts UTF-8 bytes, so lengths that the source checks go through `Utf8Len`.
*/
module Text {
  import opened Wrappers

  /** Number of bytes in the UTF-8 encoding of `c`. */
  function Utf8Width(c: char): (w: nat)
    ensures 1 <= w <= 4
    ensures w == 1 <==> c < '\U{80}'
  {
    if c < '\U{80}' then 1
    else if c < '\U{800}' then 2
    else if c < '\U{10000}' then 3
    else 4
  }

  /** Rust's `str::len`: the UTF-8 byte length. */
  function Utf8Len(s: string): (n: nat)
    ensures |s| <= n <= 4 * |s|
    ensures n == |s| <==> forall i :: 0 <= i < |s| ==> s[i] < '\U{80}'
  {
    if s == [] then 0 else Utf8Width(s[0]) + Utf8Len(s[1..])
  }

  /** Rust's `char::is_whitespace`: the Unicode White_Space property. */
  function IsWhitespace(c: char): (b: bool)
    ensures c < '\U{80}' ==> (b <==> c == ' ' || c == '\t' || c == '\n' || c == '\r' || c == '\U{B}' || c == '\U{C}')
    ensures b ==> c != ','
  {
    ('\U{9}' <= c <= '\U{D}') || c == ' ' || c == '\U{85}' || c == '\U{A0}'
    || c == '\U{1680}' || ('\U{2000}' <= c <= '\U{200A}') || c == '\U{2028}' || c == '\U{2029}'
    || c == '\U{202F}' || c == '\U{205F}' || c == '\U{3000}'
  }

  /** `str::trim_start`: drops the leading whitespace and nothing else. */
  function TrimStart(s: string): (r: string)
    ensures |r| <= |s| && r == s[|s| - |r|..]
    ensures r == [] || !IsWhitespace(r[0])
    ensures forall i :: 0 <= i < |s| - |r| ==> IsWhitespace(s[i])
  {
    if s != [] && IsWhitespace(s[0]) then TrimStart(s[1..]) else s
  }

  /** `str::trim_end`: drops the trailing whitespace and nothing else. */
  function TrimEnd(s: string): (r: string)
    ensures |r| <= |s| && r == s[..|r|]
    ensures r == [] || !IsWhitespace(r[|r| - 1])
    ensures forall i :: |r| <= i < |s| ==> IsWhitespace(s[i])
  {
    if s != [] && IsWhitespace(s[|s| - 1]) then TrimEnd(s[..|s| - 1]) else s
  }

  /** `str::trim` */
  function Trim(s: string): (r: string)
    ensures |r| <= |s|
  {
    TrimEnd(TrimStart(s))
  }

  /** What `str::trim` promises: no whitespace left at either end. */
  lemma TrimIsTight(s: string)
    ensures Trim(s) == [] || Tight(Trim(s))
  {
    var t := TrimStart(s);
    var r := TrimEnd(t);
    assert r == t[..|r|];
    if r != [] {
      assert r[0] == t[0];
    }
  }

  /** Text with no whitespace at either end, which `str::trim` leaves as it is. */
  predicate Tight(s: string) {
    s != [] && !IsWhitespace(s[0]) && !IsWhitespace(s[|s| - 1])
  }

  lemma TightIsTrimmed(s: string)
    requires Tight(s)
    ensures Trim(s) == s
  {
    assert TrimStart(s) == s;
  }

  /** A space in front of clean text is trimmed away. */
  lemma TrimLeadingSpace(t: string)
    requires Tight(t)
    ensures Trim(" " + t) == t
  {
    assert (" " + t)[1..] == t;
    assert TrimStart(t) == t;
    assert TrimStart(" " + t) == t;
  }

  /** A line read from a file loses its final newline. */
  lemma TrimDropsFinalNewline(t: string)
    requires Tight(t)
    ensures Trim(t + "\n") == t
  {
    var s := t + "\n";
    assert s[0] == t[0];
    assert TrimStart(s) == s;
    assert IsWhitespace(s[|s| - 1]) && s[..|s| - 1] == t;
    assert TrimEnd(t) == t;
  }

  /** `str::trim` only removes characters: one absent from `s` is absent from the result. */
  lemma TrimKeepsAbsent(s: string, c: char)
    requires c !in s
    ensures c !in Trim(s)
  {
    var t := TrimStart(s);
    SliceKeepsAbsent(s, |s| - |t|, |s|, c);
    var r := TrimEnd(t);
    SliceKeepsAbsent(t, 0, |r|, c);
  }

  lemma SliceKeepsAbsent(s: string, i: nat, j: nat, c: char)
    requires i <= j <= |s| && c !in s
    ensures c !in s[i..j]
  {
  }

  /** `str::trim_end_matches(c)` for a single character `c`. */
  function TrimEndMatches(s: string, c: char): (r: string)
    ensures |r| <= |s| && r == s[..|r|]
    ensures r == [] || r[|r| - 1] != c
    ensures forall i :: |r| <= i < |s| ==> s[i] == c
  {
    if s != [] && s[|s| - 1] == c then TrimEndMatches(s[..|s| - 1], c) else s
  }

  /** `str::strip_prefix`: the rest of `s` when it starts with `p`, exactly and case-sensitively. */
  function StripPrefix(s: string, p: string): (r: Option<string>)
    ensures r.Some? <==> p <= s
    ensures r.Some? ==> s == p + r.value
  {
    if |p| <= |s| && s[..|p|] == p then Some(s[|p|..]) else None
  }

  lemma StripPrefixOfConcat(p: string, t: string)
    ensures StripPrefix(p + t, p) == Some(t)
  {
    assert (p + t)[..|p|] == p;
    assert (p + t)[|p|..] == t;
  }

  /** `t` occurs in `s` starting at position `i`. */
  predicate OccursAt(s: string, t: string, i: int) {
    0 <= i <= |s| - |t| && s[i..i + |t|] == t
  }

  /** `str::contains` for a string pattern. */
  function ContainsStr(s: string, t: string): (r: bool)
    ensures r <==> exists i :: OccursAt(s, t, i)
  {
    if t <= s then (assert OccursAt(s, t, 0); true)
    else if s == [] then false
    else
      var r := ContainsStr(s[1..], t);
      assert forall i :: OccursAt(s, t, i) <==> OccursAt(s[1..], t, i - 1) by {
        forall i ensures OccursAt(s, t, i) <==> OccursAt(s[1..], t, i - 1) {
          if 1 <= i <= |s| - |t| {
            var a, b := s[i..i + |t|], s[1..][i - 1..i - 1 + |t|];
            assert |a| == |b| && forall k :: 0 <= k < |a| ==> a[k] == b[k];
            assert a == b;
          }
        }
      }
      assert forall j :: OccursAt(s[1..], t, j) ==> OccursAt(s, t, j + 1) by {
        forall j | OccursAt(s[1..], t, j) ensures OccursAt(s, t, j + 1) {
          assert OccursAt(s, t, (j + 1)) <==> OccursAt(s[1..], t, (j + 1) - 1);
        }
      }
      r
  }

  /** Rust's `to_lowercase` on the ASCII letters; every other character is kept. */
  function LowerChar(c: char): char {
    if 'A' <= c <= 'Z' then (c as int + 32) as char else c
  }

  function Lowercase(s: string): (r: string)
    ensures |r| == |s|
    ensures forall i :: 0 <= i < |s| ==> !('A' <= r[i] <= 'Z')
    ensures forall i :: 0 <= i < |s| && !('A' <= s[i] <= 'Z') ==> r[i] == s[i]
  {
    seq(|s|, i requires 0 <= i < |s| => LowerChar(s[i]))
  }

  /** Position of the first `c` in `s`. */
  function FirstIndex(s: string, c: char): (k: nat)
    requires c in s
    ensures k < |s| && s[k] == c && c !in s[..k]
  {
    if s[0] == c then 0 else 1 + FirstIndex(s[1..], c)
  }

  /** `str::split(sep)` for a single character: always at least one piece. */
  function Split(s: string, sep: char): (parts: seq<string>)
    ensures |parts| >= 1
    ensures forall i :: 0 <= i < |parts| ==> sep !in parts[i]
    ensures Join(parts, sep) == s
    decreases |s|
  {
    if sep !in s then [s]
    else
      var k := FirstIndex(s, sep);
      assert s == s[..k] + [sep] + s[k + 1..];
      [s[..k]] + Split(s[k + 1..], sep)
  }

  lemma JoinTwo(a: string, b: string, sep: char)
    ensures Join([a, b], sep) == a + [sep] + b
  {
    assert [a, b][1..] == [b];
  }

  /** The inverse of `Split`: the pieces glued back with the separator between them. */
  function Join(parts: seq<string>, sep: char): string
    requires |parts| >= 1
  {
    if |parts| == 1 then parts[0] else parts[0] + [sep] + Join(parts[1..], sep)
  }

  lemma {:induction false} SplitJoin(parts: seq<string>, sep: char)
    requires |parts| >= 1
    requires forall i :: 0 <= i < |parts| ==> sep !in parts[i]
    ensures Split(Join(parts, sep), sep) == parts
  {
    var s := Join(parts, sep);
    if |parts| == 1 {
    } else {
      var rest := Join(parts[1..], sep);
      assert s == parts[0] + [sep] + rest;
      assert sep in s by { assert s[|parts[0]|] == sep; }
      var k := FirstIndex(s, sep);
      assert s[..|parts[0]|] == parts[0];
      assert forall j :: 0 <= j < |parts[0]| ==> s[j] != sep by {
        forall j | 0 <= j < |parts[0]| ensures s[j] != sep {
          assert s[j] == parts[0][j];
        }
      }
      assert forall j :: 0 <= j < k ==> s[j] != sep by {
        forall j | 0 <= j < k ensures s[j] != sep {
          assert s[j] == s[..k][j];
        }
      }
      assert s[|parts[0]|] == sep;
      assert s[..k] == parts[0];
      assert s[k + 1..] == rest;
      SplitJoin(parts[1..], sep);
    }
  }

  /** Characters `HeaderValue::to_str` accepts: visible ASCII and tab. */
  function IsVisibleAscii(c: char): (b: bool)
    ensures b ==> c < '\U{80}' && Utf8Width(c) == 1
  {
    c == '\t' || (' ' <= c <= '~')
  }

  /** Characters `HeaderValue::from_str` accepts: a byte is refused only when it is a control
      character other than tab, or DEL; every byte of a multi-byte character is accepted. */
  function IsHeaderChar(c: char): (b: bool)
    ensures c >= '\U{80}' ==> b
    ensures c < '\U{80}' ==> (b <==> IsVisibleAscii(c))
  {
    c == '\t' || (c >= ' ' && c != '\U{7F}')
  }

  /** `HeaderValue::to_str`: the value as text when it is all visible ASCII. */
  function HeaderToStr(v: string): (r: Option<string>)
    ensures r.Some? <==> forall i :: 0 <= i < |v| ==> IsVisibleAscii(v[i])
    ensures r.Some? ==> r.value == v
  {
    if forall i :: 0 <= i < |v| ==> IsVisibleAscii(v[i]) then Some(v) else None
  }

  predicate IsDigit(c: char) {
    '0' <= c <= '9'
  }

  function DigitValue(c: char): nat
    requires IsDigit(c)
  {
    c as int - '0' as int
  }

  function DecimalValue(ds: string): nat
    requires forall i :: 0 <= i < |ds| ==> IsDigit(ds[i])
  {
    if ds == [] then 0 else 10 * DecimalValue(ds[..|ds| - 1]) + DigitValue(ds[|ds| - 1])
  }

  /** The leading run of ASCII digits: the characters `from_str_radix` accepts before it meets
      the first one that is not a digit. */
  function DigitPrefix(ds: string): (run: string)
    ensures run <= ds && forall i :: 0 <= i < |run| ==> IsDigit(run[i])
    ensures |run| == |ds| || !IsDigit(ds[|run|])
    ensures (forall i :: 0 <= i < |ds| ==> IsDigit(ds[i])) ==> run == ds
  {
    if ds == [] || !IsDigit(ds[0]) then [] else [ds[0]] + DigitPrefix(ds[1..])
  }

  /** A digit run that starts a string is inside the string's leading digit run. */
  lemma DigitPrefixCovers(run: string, rest: string)
    requires forall i :: 0 <= i < |run| ==> IsDigit(run[i])
    ensures run <= DigitPrefix(run + rest)
  {
  }

  /** More digits never make a smaller number: the value of a digit string is at least the
      value of any of its prefixes. */
  lemma {:induction false} DecimalValueGrows(p: string, q: string)
    requires p <= q && forall i :: 0 <= i < |q| ==> IsDigit(q[i])
    ensures DecimalValue(p) <= DecimalValue(q)
  {
    if |p| < |q| {
      var q' := q[..|q| - 1];
      assert p <= q';
      DecimalValueGrows(p, q');
    } else {
      assert p == q;
    }
  }

  /** The shortest decimal rendering of `n` (Rust's `Display` for an unsigned integer). */
  function Decimal(n: nat): (ds: string)
    ensures |ds| >= 1 && forall i :: 0 <= i < |ds| ==> IsDigit(ds[i])
    ensures |ds| == 1 <==> n < 10
    ensures ds[0] == '0' ==> n == 0
  {
    if n < 10 then [('0' as int + n) as char] else Decimal(n / 10) + [('0' as int + n % 10) as char]
  }

  /** `str::parse::<u16>`: an optional `+`, then one or more ASCII digits, value at most 65535. */
  function ParseU16(s: string): (r: Option<nat>)
    ensures r.Some? ==> r.value < 0x1_0000
  {
    var ds := if s != [] && s[0] == '+' then s[1..] else s;
    if ds == [] || !(forall i :: 0 <= i < |ds| ==> IsDigit(ds[i])) then None
    else if DecimalValue(ds) < 0x1_0000 then Some(DecimalValue(ds))
    else None
  }

  lemma {:induction false} DecimalValueOfDecimal(n: nat)
    ensures DecimalValue(Decimal(n)) == n
  {
    if n >= 10 {
      var ds := Decimal(n);
      assert ds[..|ds| - 1] == Decimal(n / 10);
      DecimalValueOfDecimal(n / 10);
    }
  }

  /** Parsing the decimal rendering of a port number gives the number back. */
  lemma ParseU16OfDecimal(n: nat)
    requires n < 0x1_0000
    ensures ParseU16(Decimal(n)) == Some(n)
  {
    DecimalValueOfDecimal(n);
  }
}
