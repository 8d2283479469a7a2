/**
 * The handful of java.lang.String operations the core relies on, on `string` = `seq<char>`:
 * substring search, ASCII case mapping, trimming, decimal parsing and printing, and the UTF-16
 * code units that `length()` and `substring` count.
 */
module Text {
  import opened Wrappers

  /** `sub` occurs in `s` starting at index `i`. */
  predicate OccursAt(s: string, sub: string, i: int) {
    0 <= i && i + |sub| <= |s| && s[i..i + |sub|] == sub
  }

  /** String.contains. */
  predicate Contains(s: string, sub: string) {
    exists i :: 0 <= i <= |s| - |sub| && OccursAt(s, sub, i)
  }

  /** `s` contains at least one of `keys` (a chain of `||`-ed `contains` tests, or a scan of a keyword array). */
  predicate ContainsAny(s: string, keys: seq<string>) {
    exists k :: 0 <= k < |keys| && Contains(s, keys[k])
  }

  /** String.indexOf(sub, from) for a non-empty `sub`: the first occurrence at or after `from`, or -1. */
  function IndexOfFrom(s: string, sub: string, from: nat): (r: int)
    requires |sub| > 0
    decreases |s| - from
    ensures r == -1 || (from <= r && OccursAt(s, sub, r))
    ensures r == -1 ==> forall i :: from <= i ==> !OccursAt(s, sub, i)
    ensures r >= 0 ==> forall i :: from <= i < r ==> !OccursAt(s, sub, i)
  {
    if from + |sub| > |s| then -1
    else if s[from..from + |sub|] == sub then from
    else IndexOfFrom(s, sub, from + 1)
  }

  /** String.indexOf(sub). */
  function IndexOf(s: string, sub: string): int
    requires |sub| > 0
  {
    IndexOfFrom(s, sub, 0)
  }

  lemma IndexOfFindsContains(s: string, sub: string)
    requires |sub| > 0
    ensures Contains(s, sub) <==> IndexOf(s, sub) >= 0
  {
    var r := IndexOf(s, sub);
    if r >= 0 {
      assert OccursAt(s, sub, r);
    }
  }

  /** An occurrence inside a part is an occurrence inside the whole. */
  lemma ContainsInConcat(a: string, b: string, sub: string)
    ensures Contains(a, sub) ==> Contains(a + b, sub)
    ensures Contains(b, sub) ==> Contains(a + b, sub)
  {
    if Contains(a, sub) {
      var i :| 0 <= i <= |a| - |sub| && OccursAt(a, sub, i);
      assert (a + b)[i..i + |sub|] == a[i..i + |sub|];
      assert OccursAt(a + b, sub, i);
    }
    if Contains(b, sub) {
      var i :| 0 <= i <= |b| - |sub| && OccursAt(b, sub, i);
      assert (a + b)[|a| + i..|a| + i + |sub|] == b[i..i + |sub|];
      assert OccursAt(a + b, sub, |a| + i);
    }
  }

  /** Every character of an occurring substring is a character of the string. */
  lemma ContainsChar(s: string, sub: string, c: char)
    requires Contains(s, sub) && c in sub
    ensures c in s
  {
    var i :| 0 <= i <= |s| - |sub| && OccursAt(s, sub, i);
    var j :| 0 <= j < |sub| && sub[j] == c;
    assert s[i + j] == s[i..i + |sub|][j];
  }

  /** Character.toLowerCase, restricted to the ASCII letters. */
  function LowerChar(c: char): char {
    if 'A' <= c <= 'Z' then (c as int + 32) as char else c
  }

  /** String.toLowerCase, restricted to the ASCII letters. */
  function Lower(s: string): (r: string)
    ensures |r| == |s|
    ensures forall i :: 0 <= i < |s| ==> r[i] == LowerChar(s[i])
  {
    seq(|s|, i requires 0 <= i < |s| => LowerChar(s[i]))
  }

  lemma LowerIdempotent(s: string)
    ensures Lower(Lower(s)) == Lower(s)
  {
  }

  /** String.equalsIgnoreCase, restricted to the ASCII letters. */
  predicate EqualsIgnoreCase(a: string, b: string) {
    Lower(a) == Lower(b)
  }

  /** String.startsWith. */
  predicate StartsWith(s: string, prefix: string) {
    |prefix| <= |s| && s[..|prefix|] == prefix
  }

  /** String.endsWith. */
  predicate EndsWith(s: string, suffix: string) {
    |suffix| <= |s| && s[|s| - |suffix|..] == suffix
  }

  /** The characters String.trim removes: every code point up to and including the space. */
  predicate IsTrimmed(c: char) {
    c <= ' '
  }

  function TrimStart(s: string): (r: string)
    ensures |r| <= |s|
    ensures r == s[|s| - |r|..]
    ensures r == [] || !IsTrimmed(r[0])
    ensures forall i :: 0 <= i < |s| - |r| ==> IsTrimmed(s[i])
  {
    if |s| > 0 && IsTrimmed(s[0]) then TrimStart(s[1..]) else s
  }

  function TrimEnd(s: string): (r: string)
    ensures |r| <= |s|
    ensures r == s[..|r|]
    ensures r == [] || !IsTrimmed(r[|r| - 1])
    ensures forall i :: |r| <= i < |s| ==> IsTrimmed(s[i])
  {
    if |s| > 0 && IsTrimmed(s[|s| - 1]) then TrimEnd(s[..|s| - 1]) else s
  }

  /** String.trim: drops leading and trailing characters up to the space. */
  function Trim(s: string): string {
    TrimEnd(TrimStart(s))
  }

  lemma TrimKeepsBoundedString(s: string)
    requires |s| > 0 && !IsTrimmed(s[0]) && !IsTrimmed(s[|s| - 1])
    ensures Trim(s) == s
  {
  }

  /** Java's `x + s` for a String `s` that may be null. */
  function JavaString(s: Option<string>): string {
    match s
    case None => "null"
    case Some(v) => v
  }

  predicate IsDigit(c: char) {
    '0' <= c <= '9'
  }

  predicate AllDigits(s: string) {
    forall i :: 0 <= i < |s| ==> IsDigit(s[i])
  }

  function DigitChar(d: nat): (c: char)
    requires d < 10
    ensures IsDigit(c)
  {
    ('0' as int + d) as char
  }

  /** The number a string of decimal digits denotes. */
  function DigitsValue(s: string): nat
    requires AllDigits(s)
  {
    if |s| == 0 then 0 else DigitsValue(s[..|s| - 1]) * 10 + (s[|s| - 1] as int - '0' as int)
  }

  /** The decimal representation of a natural number (Integer.toString on non-negative values). */
  function NatToString(n: nat): (r: string)
    ensures |r| > 0 && AllDigits(r)
  {
    if n < 10 then [DigitChar(n)] else NatToString(n / 10) + [DigitChar(n % 10)]
  }

  lemma {:induction false} DigitsValueOfNatToString(n: nat)
    ensures DigitsValue(NatToString(n)) == n
  {
    if n >= 10 {
      var s := NatToString(n);
      assert s[..|s| - 1] == NatToString(n / 10);
      DigitsValueOfNatToString(n / 10);
    }
  }

  const MinInt32: int := -2147483648
  const MaxInt32: int := 2147483647

  /**
   * Integer.parseInt on ASCII digits: an optional sign, at least one digit, nothing else,
   * and a value inside the 32-bit range; `None` where Java throws NumberFormatException.
   */
  function ParseInt(s: string): (r: Option<int>)
    ensures r.Some? ==> MinInt32 <= r.value <= MaxInt32
  {
    if |s| == 0 then None
    else
      var signed := s[0] == '-' || s[0] == '+';
      var digits := if signed then s[1..] else s;
      if |digits| == 0 || !AllDigits(digits) then None
      else
        var magnitude: int := DigitsValue(digits);
        var v := if s[0] == '-' then -magnitude else magnitude;
        if MinInt32 <= v <= MaxInt32 then Some(v) else None
  }

  /** Parsing inverts printing on the non-negative 32-bit range. */
  lemma ParseIntOfNatToString(n: nat)
    requires n <= MaxInt32
    ensures ParseInt(NatToString(n)) == Some(n)
  {
    DigitsValueOfNatToString(n);
  }

  /**
   * The UTF-16 code units Java stores for one character: a code point above U+FFFF becomes a
   * high surrogate followed by a low surrogate, any other code point is one unit.
   */
  function CodeUnits(c: char): (r: seq<nat>)
    ensures |r| == (if c as int >= 0x10000 then 2 else 1)
  {
    if c as int >= 0x10000 then
      [0xD800 + (c as int - 0x10000) / 0x400, 0xDC00 + (c as int - 0x10000) % 0x400]
    else
      [c as int]
  }

  /** A string as java.lang.String holds it: `length()` and `substring` index these units. */
  function Utf16(s: string): seq<nat> {
    if s == [] then [] else CodeUnits(s[0]) + Utf16(s[1..])
  }

  predicate IsHighSurrogate(u: nat) {
    0xD800 <= u < 0xDC00
  }

  predicate IsLowSurrogate(u: nat) {
    0xDC00 <= u < 0xE000
  }

  /** Decoding UTF-16 back into characters; `None` where a surrogate is unpaired, which no `char` can hold. */
  function FromUtf16(u: seq<nat>): Option<string>
    decreases |u|
  {
    if u == [] then Some([])
    else if IsHighSurrogate(u[0]) then
      if |u| >= 2 && IsLowSurrogate(u[1]) then
        match FromUtf16(u[2..])
        case Some(rest) => Some([(0x10000 + (u[0] - 0xD800) * 0x400 + (u[1] - 0xDC00)) as char] + rest)
        case None => None
      else None
    else if u[0] < 0xD800 || 0xE000 <= u[0] < 0x10000 then
      match FromUtf16(u[1..])
      case Some(rest) => Some([u[0] as char] + rest)
      case None => None
    else None
  }

  /** Decoding inverts encoding: every string survives the trip through its code units. */
  lemma {:induction false} FromUtf16OfUtf16(s: string)
    ensures FromUtf16(Utf16(s)) == Some(s)
    decreases |s|
  {
    if s != [] {
      FromUtf16OfUtf16(s[1..]);
      var u := Utf16(s);
      var c := s[0] as int;
      if c >= 0x10000 {
        assert u[2..] == Utf16(s[1..]);
        assert 0x10000 + ((c - 0x10000) / 0x400) * 0x400 + (c - 0x10000) % 0x400 == c;
        assert [s[0]] + s[1..] == s;
      } else {
        assert u[1..] == Utf16(s[1..]);
        assert [s[0]] + s[1..] == s;
      }
    }
  }

  /** Encoding is piecewise: the units of a concatenation are the units of its parts. */
  lemma {:induction false} Utf16Append(a: string, b: string)
    ensures Utf16(a + b) == Utf16(a) + Utf16(b)
    decreases |a|
  {
    if a != [] {
      assert (a + b)[1..] == a[1..] + b;
      Utf16Append(a[1..], b);
    } else {
      assert a + b == b;
    }
  }

  /** Every character is one or two units; a string of characters up to U+FFFF is as many units as characters. */
  lemma {:induction false} Utf16Length(s: string)
    ensures |s| <= |Utf16(s)| <= 2 * |s|
    ensures (forall i :: 0 <= i < |s| ==> s[i] as int < 0x10000) ==> |Utf16(s)| == |s|
    decreases |s|
  {
    if s != [] {
      Utf16Length(s[1..]);
      if forall i :: 0 <= i < |s| ==> s[i] as int < 0x10000 {
        assert forall i :: 0 <= i < |s[1..]| ==> s[1..][i] as int < 0x10000 by {
          forall i | 0 <= i < |s[1..]| ensures s[1..][i] as int < 0x10000 {
            assert s[1..][i] == s[i + 1];
          }
        }
      }
    }
  }

  /** A high surrogate that no low surrogate follows makes the whole sequence undecodable. */
  lemma {:induction false} UnpairedHighSurrogateRefused(u: seq<nat>, i: nat)
    requires i < |u| && IsHighSurrogate(u[i])
    requires i + 1 == |u| || !IsLowSurrogate(u[i + 1])
    ensures FromUtf16(u) == None
    decreases |u|
  {
    if i > 0 {
      if IsHighSurrogate(u[0]) {
        if |u| >= 2 && IsLowSurrogate(u[1]) {
          UnpairedHighSurrogateRefused(u[2..], i - 2);
        }
      } else if u[0] < 0xD800 || 0xE000 <= u[0] < 0x10000 {
        UnpairedHighSurrogateRefused(u[1..], i - 1);
      }
    }
  }
}
