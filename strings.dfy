/**
 * The PHP string builtins the core relies on, over `string` (a sequence of
 * characters): `trim`, ASCII `strtolower`/`strtoupper`, `explode`,
 * `implode`, `strcmp`, `str_contains`/`mb_strpos`, the `(int)` and
 * `(string)` casts of integers, `preg_replace('/\D/', '', ...)`, and PHP's
 * notion of a falsy string.
 */
module Strings {
  import opened Sequences

  // ---------------------------------------------------------------- trim

  /** The characters `trim` strips by default: space, tab, LF, CR, NUL, vertical tab. */
  predicate IsTrimmable(c: char) {
    c == ' ' || c == '\t' || c == '\n' || c == '\r' || c == '\0' || c == '\U{000B}'
  }

  predicate AllTrimmable(s: string) {
    forall i :: 0 <= i < |s| ==> IsTrimmable(s[i])
  }

  /** Number of trimmable characters at the start of `s`. */
  function LeadingTrimmable(s: string): (n: nat)
    ensures n <= |s|
    ensures forall i :: 0 <= i < n ==> IsTrimmable(s[i])
    ensures n < |s| ==> !IsTrimmable(s[n])
  {
    if s != [] && IsTrimmable(s[0]) then 1 + LeadingTrimmable(s[1..]) else 0
  }

  /** Number of trimmable characters at the end of `s`. */
  function TrailingTrimmable(s: string): (n: nat)
    ensures n <= |s|
    ensures forall i :: |s| - n <= i < |s| ==> IsTrimmable(s[i])
    ensures n < |s| ==> !IsTrimmable(s[|s| - n - 1])
  {
    if s != [] && IsTrimmable(s[|s| - 1]) then 1 + TrailingTrimmable(s[..|s| - 1]) else 0
  }

  /**
   * PHP's `trim($s)`: the piece of `s` left once the trimmable characters
   * at both ends are stripped. It starts where the leading run ends, every
   * character outside it is trimmable, and its own ends are not.
   */
  function Trim(s: string): (t: string)
    ensures |t| <= |s|
    ensures LeadingTrimmable(s) + |t| <= |s|
    ensures forall i :: 0 <= i < |t| ==> t[i] == s[LeadingTrimmable(s) + i]
    ensures AllTrimmable(s[LeadingTrimmable(s) + |t|..])
    ensures t == [] || (!IsTrimmable(t[0]) && !IsTrimmable(t[|t| - 1]))
    ensures t == [] <==> AllTrimmable(s)
  {
    var rest := s[LeadingTrimmable(s)..];
    rest[..|rest| - TrailingTrimmable(rest)]
  }

  lemma TrimIdempotent(s: string)
    ensures Trim(Trim(s)) == Trim(s)
  {
    var t := Trim(s);
    assert LeadingTrimmable(t) == 0;
    assert TrailingTrimmable(t[LeadingTrimmable(t)..]) == 0;
  }

  // ------------------------------------------------------------ letter case

  function LowerChar(c: char): char {
    if 'A' <= c <= 'Z' then (c as int + 32) as char else c
  }

  function UpperChar(c: char): char {
    if 'a' <= c <= 'z' then (c as int - 32) as char else c
  }

  /** PHP's `strtolower` (ASCII letters only). */
  function ToLower(s: string): (r: string)
    ensures |r| == |s|
    ensures forall i :: 0 <= i < |s| ==> r[i] == LowerChar(s[i])
    ensures forall i :: 0 <= i < |r| ==> !('A' <= r[i] <= 'Z')
  {
    seq(|s|, i requires 0 <= i < |s| => LowerChar(s[i]))
  }

  /** PHP's `strtoupper` (ASCII letters only). */
  function ToUpper(s: string): (r: string)
    ensures |r| == |s|
    ensures forall i :: 0 <= i < |s| ==> r[i] == UpperChar(s[i])
    ensures forall i :: 0 <= i < |r| ==> !('a' <= r[i] <= 'z')
  {
    seq(|s|, i requires 0 <= i < |s| => UpperChar(s[i]))
  }

  /** `strcasecmp($a, $b) === 0`: equal up to ASCII letter case. */
  predicate EqualsIgnoreCase(a: string, b: string) {
    ToLower(a) == ToLower(b)
  }

  // ------------------------------------------------------------ searching

  predicate OccursAt(hay: string, needle: string, i: nat) {
    i + |needle| <= |hay| && hay[i..i + |needle|] == needle
  }

  /** `mb_strpos($hay, $needle) !== false` / `str_contains($hay, $needle)`. */
  predicate Contains(hay: string, needle: string) {
    exists i: nat :: i <= |hay| && OccursAt(hay, needle, i)
  }

  /**
   * Lexicographic order on character codes: `a` is a proper prefix of `b`,
   * or the first character where they differ is smaller in `a`.
   */
  predicate LexLess(a: string, b: string) {
    (|a| < |b| && a == b[..|a|]) ||
    exists k :: 0 <= k < |a| && k < |b| && a[..k] == b[..k] && a[k] < b[k]
  }

  /** PHP's `strcmp`, reduced to its sign: the order of the character codes. */
  function Strcmp(a: string, b: string): (r: int)
    ensures -1 <= r <= 1
    ensures r == 0 <==> a == b
    ensures r < 0 <==> LexLess(a, b)
  {
    if a == [] then (if b == [] then 0 else -1)
    else if b == [] then 1
    else
      LexLessFirst(a, b);
      if a[0] < b[0] then -1
      else if a[0] > b[0] then 1
      else
        assert a == [a[0]] + a[1..] && b == [b[0]] + b[1..];
        Strcmp(a[1..], b[1..])
  }

  /** Two non-empty strings are in order when their first characters are, or these tie and the rests are. */
  lemma LexLessFirst(a: string, b: string)
    requires a != [] && b != []
    ensures LexLess(a, b) <==> a[0] < b[0] || (a[0] == b[0] && LexLess(a[1..], b[1..]))
  {
    var a', b' := a[1..], b[1..];
    if LexLess(a, b) {
      if |a| < |b| && a == b[..|a|] {
        assert a[0] == b[..|a|][0];
        assert a' == b'[..|a'|];
      } else {
        var k :| 0 <= k < |a| && k < |b| && a[..k] == b[..k] && a[k] < b[k];
        if k > 0 {
          assert a[0] == a[..k][0] == b[..k][0] == b[0];
          assert a'[..k - 1] == a[..k][1..] == b[..k][1..] == b'[..k - 1];
          assert a'[k - 1] < b'[k - 1];
        }
      }
    }
    if a[0] < b[0] {
      assert a[..0] == b[..0];
    } else if a[0] == b[0] && LexLess(a', b') {
      if |a'| < |b'| && a' == b'[..|a'|] {
        assert a == [a[0]] + a' && b[..|a|] == [b[0]] + b'[..|a'|];
      } else {
        var k :| 0 <= k < |a'| && k < |b'| && a'[..k] == b'[..k] && a'[k] < b'[k];
        assert a[..k + 1] == [a[0]] + a'[..k] && b[..k + 1] == [b[0]] + b'[..k];
        assert a[k + 1] < b[k + 1];
      }
    }
  }

  lemma {:induction false} StrcmpAntisymmetric(a: string, b: string)
    ensures Strcmp(a, b) == -Strcmp(b, a)
  {
    if a != [] && b != [] && a[0] == b[0] {
      StrcmpAntisymmetric(a[1..], b[1..]);
    }
  }

  // ------------------------------------------------------------ explode / implode

  /** PHP's `explode($sep, $s)` for a one-character separator. */
  function Explode(sep: char, s: string): (parts: seq<string>)
    ensures |parts| >= 1
    ensures forall i :: 0 <= i < |parts| ==> sep !in parts[i]
    decreases |s|
  {
    if sep in s then
      var k := IndexOf(s, sep);
      [s[..k]] + Explode(sep, s[k + 1..])
    else [s]
  }

  /** PHP's `implode($glue, $parts)`. */
  function Implode(glue: string, parts: seq<string>): string {
    if parts == [] then ""
    else if |parts| == 1 then parts[0]
    else parts[0] + glue + Implode(glue, parts[1..])
  }

  /** Joining the pieces of `explode` with the separator gives the string back. */
  lemma {:induction false} ImplodeExplode(sep: char, s: string)
    ensures Implode([sep], Explode(sep, s)) == s
    decreases |s|
  {
    if sep in s {
      var k := IndexOf(s, sep);
      var rest := Explode(sep, s[k + 1..]);
      assert ([s[..k]] + rest)[1..] == rest;
      assert Implode([sep], Explode(sep, s)) == s[..k] + [sep] + Implode([sep], rest);
      ImplodeExplode(sep, s[k + 1..]);
      assert s == s[..k] + [sep] + s[k + 1..];
    }
  }

  // ------------------------------------------------------------ digits and integers

  predicate IsDigit(c: char) {
    '0' <= c <= '9'
  }

  predicate AllDigits(s: string) {
    forall i :: 0 <= i < |s| ==> IsDigit(s[i])
  }

  /**
   * `preg_replace('/\D/', '', $s)`: the digits of `s`, in order. A string of
   * digits is kept whole, a string without digits becomes empty, and
   * `DigitsOnlyAppend` shows that the pieces of a string are stripped
   * independently, so every digit is kept in its place.
   */
  function DigitsOnly(s: string): (d: string)
    ensures AllDigits(d)
    ensures |d| <= |s|
    ensures AllDigits(s) ==> d == s
    ensures (forall i :: 0 <= i < |s| ==> !IsDigit(s[i])) ==> d == []
  {
    if s == [] then []
    else
      assert s == [s[0]] + s[1..];
      (if IsDigit(s[0]) then [s[0]] else []) + DigitsOnly(s[1..])
  }

  /** Stripping a concatenation strips each part: digits keep their order. */
  lemma {:induction false} DigitsOnlyAppend(a: string, b: string)
    ensures DigitsOnly(a + b) == DigitsOnly(a) + DigitsOnly(b)
  {
    if a != [] {
      assert (a + b)[1..] == a[1..] + b;
      assert (a + b)[0] == a[0];
      DigitsOnlyAppend(a[1..], b);
    } else {
      assert a + b == b;
    }
  }

  function DigitValue(c: char): nat
    requires IsDigit(c)
  {
    c as int - '0' as int
  }

  function DigitChar(d: nat): (c: char)
    requires d < 10
    ensures IsDigit(c) && DigitValue(c) == d
  {
    ('0' as int + d) as char
  }

  /** The value of a string of decimal digits ("" counts as 0). */
  function DecimalValue(s: string): nat
    requires AllDigits(s)
  {
    if s == [] then 0 else DecimalValue(s[..|s| - 1]) * 10 + DigitValue(s[|s| - 1])
  }

  /** Decimal digits of `n`, without leading zeros. */
  function NatToString(n: nat): (s: string)
    ensures |s| >= 1 && AllDigits(s)
    decreases n
  {
    if n < 10 then [DigitChar(n)] else NatToString(n / 10) + [DigitChar(n % 10)]
  }

  lemma {:induction false} NatToStringValue(n: nat)
    ensures DecimalValue(NatToString(n)) == n
    decreases n
  {
    if n >= 10 {
      NatToStringValue(n / 10);
      var s := NatToString(n);
      assert s[..|s| - 1] == NatToString(n / 10);
    }
  }

  /** `(string) $i` for an integer. */
  function IntToString(i: int): (s: string)
    ensures |s| >= 1
  {
    if i < 0 then "-" + NatToString(-i) else NatToString(i)
  }

  /** Length of the longest all-digit prefix of `s`. */
  function DigitPrefix(s: string): (n: nat)
    ensures n <= |s| && AllDigits(s[..n])
    ensures n < |s| ==> !IsDigit(s[n])
  {
    if s != [] && IsDigit(s[0]) then
      var n := 1 + DigitPrefix(s[1..]);
      assert s[..n] == [s[0]] + s[1..][..n - 1];
      n
    else 0
  }

  lemma {:induction false} DigitPrefixOfDigits(s: string)
    requires AllDigits(s)
    ensures DigitPrefix(s) == |s|
  {
    if s != [] {
      DigitPrefixOfDigits(s[1..]);
    }
  }

  /** The whitespace PHP skips before a number in a numeric string. */
  predicate IsNumericSpace(c: char) {
    c == ' ' || c == '\t' || c == '\n' || c == '\r' || c == '\U{000B}' || c == '\U{000C}'
  }

  function LeadingSpace(s: string): (n: nat)
    ensures n <= |s|
    ensures n < |s| ==> !IsNumericSpace(s[n])
  {
    if s != [] && IsNumericSpace(s[0]) then 1 + LeadingSpace(s[1..]) else 0
  }

  /** The range of PHP's 64-bit `int`. */
  const PHP_INT_MAX: int := 0x7FFF_FFFF_FFFF_FFFF
  const PHP_INT_MIN: int := -0x8000_0000_0000_0000

  predicate IsPhpInt(x: int) {
    PHP_INT_MIN <= x <= PHP_INT_MAX
  }

  /** The decimal number `(int)` reads from `s`, before it is brought into range. */
  function NumericPrefix(s: string): int {
    var t := s[LeadingSpace(s)..];
    if t != [] && (t[0] == '-' || t[0] == '+') then
      var u := t[1..];
      var v: int := DecimalValue(u[..DigitPrefix(u)]);
      if t[0] == '-' then -v else v
    else DecimalValue(t[..DigitPrefix(t)])
  }

  /**
   * `(int) $s`: optional leading whitespace, an optional sign, then the
   * longest run of decimal digits; everything after it is ignored and a
   * string without leading digits gives 0. A number outside the `int`
   * range saturates at `PHP_INT_MIN` or `PHP_INT_MAX`.
   */
  function IntCast(s: string): (i: int)
    ensures IsPhpInt(i)
    ensures IsPhpInt(NumericPrefix(s)) ==> i == NumericPrefix(s)
    ensures NumericPrefix(s) > PHP_INT_MAX ==> i == PHP_INT_MAX
    ensures NumericPrefix(s) < PHP_INT_MIN ==> i == PHP_INT_MIN
  {
    var v := NumericPrefix(s);
    if v > PHP_INT_MAX then PHP_INT_MAX else if v < PHP_INT_MIN then PHP_INT_MIN else v
  }

  /** Casting an integer to a string and back gives the integer. */
  lemma IntCastOfIntToString(i: int)
    requires IsPhpInt(i)
    ensures IntCast(IntToString(i)) == i
  {
    NumericPrefixOfIntToString(i);
  }

  lemma NumericPrefixOfIntToString(i: int)
    ensures NumericPrefix(IntToString(i)) == i
  {
    var s := IntToString(i);
    var d := NatToString(if i < 0 then -i else i);
    NatToStringValue(if i < 0 then -i else i);
    DigitPrefixOfDigits(d);
    assert LeadingSpace(s) == 0;
    assert s[LeadingSpace(s)..] == s;
    if i < 0 {
      assert s[1..] == d;
      assert d[..DigitPrefix(d)] == d;
    } else {
      assert s == d;
      assert d[..DigitPrefix(d)] == d;
    }
  }

  /** PHP's falsy strings: `''` and `'0'` (what `empty`, `?:` and `array_filter` test). */
  predicate IsFalsy(s: string) {
    s == "" || s == "0"
  }

  /** Occurrences of character `c` in `s`. */
  function CountChar(s: string, c: char): nat {
    Count(s, c)
  }

  /** Occurrences of `c` in `implode($glue, $parts)`, for a glue without `c`. */
  function CountInParts(parts: seq<string>, c: char): nat {
    if parts == [] then 0 else CountChar(parts[0], c) + CountInParts(parts[1..], c)
  }

  lemma {:induction false} CountImplode(glue: string, parts: seq<string>, c: char)
    requires c !in glue
    ensures CountChar(Implode(glue, parts), c) == CountInParts(parts, c)
  {
    if |parts| == 1 {
      assert CountInParts(parts[1..], c) == 0;
    } else if |parts| > 1 {
      CountImplode(glue, parts[1..], c);
      CountAppend(parts[0] + glue, Implode(glue, parts[1..]), c);
      CountAppend(parts[0], glue, c);
    }
  }
}
