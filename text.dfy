/**
 * The parts of Python's `str` that the system relies on, for ASCII text: character
 * classes, `strip`, `rstrip`, `replace`, `split`, `startswith`, decimal digits and `str(n)`.
 */
module Text {

  predicate IsAscii(s: string) {
    forall i :: 0 <= i < |s| ==> s[i] as int < 128
  }

  predicate IsDigit(c: char) { '0' <= c <= '9' }

  predicate IsLetter(c: char) { 'A' <= c <= 'Z' || 'a' <= c <= 'z' }

  /** Whitespace as `str.isspace()` and the regex class `\s` see it, restricted to ASCII. */
  predicate IsSpace(c: char) {
    c == ' ' || 9 <= c as int <= 13 || 28 <= c as int <= 31
  }

  /** Case folding of an ASCII letter, as `re.IGNORECASE` applies it. */
  function Lower(c: char): (l: char)
    ensures IsLetter(c) <==> 'a' <= l <= 'z'
    ensures !IsLetter(c) ==> l == c
  {
    if 'A' <= c <= 'Z' then (c as int + 32) as char else c
  }

  predicate AllDigits(s: string) {
    forall i :: 0 <= i < |s| ==> IsDigit(s[i])
  }

  function DigitValue(c: char): (d: nat)
    requires IsDigit(c)
    ensures d < 10
  {
    c as int - '0' as int
  }

  function DigitChar(d: nat): (c: char)
    requires d < 10
    ensures IsDigit(c) && DigitValue(c) == d
  {
    ('0' as int + d) as char
  }

  function Pow10(k: nat): (p: nat)
    ensures p >= 1
  {
    if k == 0 then 1 else 10 * Pow10(k - 1)
  }

  /** The value of a string of decimal digits, leading zeros allowed. */
  function DigitsValue(s: string): nat
    requires AllDigits(s)
  {
    if s == [] then 0 else DigitsValue(s[..|s| - 1]) * 10 + DigitValue(s[|s| - 1])
  }

  lemma AllDigitsAppend(a: string, b: string)
    requires AllDigits(a) && AllDigits(b)
    ensures AllDigits(a + b)
  {
    forall i | 0 <= i < |a + b| ensures IsDigit((a + b)[i]) {
      if i < |a| { assert (a + b)[i] == a[i]; } else { assert (a + b)[i] == b[i - |a|]; }
    }
  }

  lemma ShiftDigit(x: nat, y: nat, z: nat, d: nat)
    ensures (x * y + z) * 10 + d == x * (y * 10) + (z * 10 + d)
  {
  }

  /** Reading digits `a + b` is reading `a`, shifting it past `b`, and adding `b`. */
  lemma {:induction false} DigitsValueAppend(a: string, b: string)
    requires AllDigits(a) && AllDigits(b)
    ensures AllDigits(a + b)
    ensures DigitsValue(a + b) == DigitsValue(a) * Pow10(|b|) + DigitsValue(b)
    decreases |b|
  {
    AllDigitsAppend(a, b);
    if b == [] {
      assert a + b == a;
    } else {
      var b' := b[..|b| - 1];
      var d := DigitValue(b[|b| - 1]);
      assert (a + b)[..|a + b| - 1] == a + b';
      assert (a + b)[|a + b| - 1] == b[|b| - 1];
      DigitsValueAppend(a, b');
      assert DigitsValue(a + b) == DigitsValue(a + b') * 10 + d;
      assert DigitsValue(b) == DigitsValue(b') * 10 + d;
      assert Pow10(|b|) == Pow10(|b'|) * 10;
      ShiftDigit(DigitsValue(a), Pow10(|b'|), DigitsValue(b'), d);
    }
  }

  /** `str(n)` for a natural number: its decimal digits, without leading zeros. */
  function NatToString(n: nat): (r: string)
    ensures |r| >= 1 && AllDigits(r)
    ensures DigitsValue(r) == n
    ensures r[0] == '0' ==> n == 0
  {
    if n < 10 then [DigitChar(n)]
    else
      var prefix := NatToString(n / 10);
      assert (prefix + [DigitChar(n % 10)])[..|prefix|] == prefix;
      prefix + [DigitChar(n % 10)]
  }

  lemma NatToStringInjective(m: nat, n: nat)
    requires NatToString(m) == NatToString(n)
    ensures m == n
  {
  }

  /** The last `width` decimal digits of `n`, padded with zeros: `'%0*d' % (width, n)` when `n` fits. */
  function FixedDigits(n: nat, width: nat): (r: string)
    ensures |r| == width && AllDigits(r)
    ensures n < Pow10(width) ==> DigitsValue(r) == n
  {
    if width == 0 then []
    else
      var prefix := FixedDigits(n / 10, width - 1);
      assert (prefix + [DigitChar(n % 10)])[..width - 1] == prefix;
      prefix + [DigitChar(n % 10)]
  }

  /** Printing a digit string's value at the string's own width gives the string back. */
  lemma {:induction false} FixedDigitsOfValue(s: string)
    requires AllDigits(s)
    ensures FixedDigits(DigitsValue(s), |s|) == s
    decreases |s|
  {
    if s != [] {
      var s' := s[..|s| - 1];
      FixedDigitsOfValue(s');
      var v := DigitsValue(s);
      assert v / 10 == DigitsValue(s') && v % 10 == DigitValue(s[|s| - 1]);
      assert s == s' + [s[|s| - 1]];
    }
  }

  predicate StartsWith(s: string, prefix: string) {
    |prefix| <= |s| && s[..|prefix|] == prefix
  }

  predicate EndsWith(s: string, suffix: string) {
    |suffix| <= |s| && s[|s| - |suffix|..] == suffix
  }

  function LeadingSpaces(s: string): (n: nat)
    ensures n <= |s|
    ensures forall i :: 0 <= i < n ==> IsSpace(s[i])
    ensures n < |s| ==> !IsSpace(s[n])
  {
    if s != [] && IsSpace(s[0]) then 1 + LeadingSpaces(s[1..]) else 0
  }

  function TrailingSpaces(s: string): (n: nat)
    ensures n <= |s|
    ensures forall i :: |s| - n <= i < |s| ==> IsSpace(s[i])
    ensures n < |s| ==> !IsSpace(s[|s| - 1 - n])
  {
    if s != [] && IsSpace(s[|s| - 1]) then 1 + TrailingSpaces(s[..|s| - 1]) else 0
  }

  /** `s.strip()`: the infix left after dropping whitespace at both ends. */
  function Strip(s: string): (r: string)
    ensures LeadingSpaces(s) + |r| <= |s|
    ensures r == s[LeadingSpaces(s)..LeadingSpaces(s) + |r|]
    ensures forall i :: 0 <= i < |s| && !(LeadingSpaces(s) <= i < LeadingSpaces(s) + |r|) ==> IsSpace(s[i])
    ensures r == [] || (!IsSpace(r[0]) && !IsSpace(r[|r| - 1]))
  {
    var lead := LeadingSpaces(s);
    if lead == |s| then [] else s[lead..|s| - TrailingSpaces(s)]
  }

  /** Text without whitespace at its ends is its own `strip()`. */
  lemma StripTrimmed(s: string)
    requires s == [] || (!IsSpace(s[0]) && !IsSpace(s[|s| - 1]))
    ensures Strip(s) == s
  {
    if s != [] {
      assert LeadingSpaces(s) == 0;
      assert TrailingSpaces(s) == 0;
    }
  }

  /** `s.rstrip(c)`: the prefix left after dropping every trailing `c`. */
  function RStripChar(s: string, c: char): (r: string)
    ensures |r| <= |s| && r == s[..|r|]
    ensures forall i :: |r| <= i < |s| ==> s[i] == c
    ensures r == [] || r[|r| - 1] != c
  {
    if s != [] && s[|s| - 1] == c then RStripChar(s[..|s| - 1], c) else s
  }

  /** `s.replace(c, '')` */
  function Remove(s: string, c: char): (r: string)
    ensures |r| <= |s|
    ensures c !in r
    ensures c !in s ==> r == s
  {
    if s == [] then []
    else
      assert c !in s ==> s == [s[0]] + s[1..] && c !in s[1..];
      (if s[0] == c then [] else [s[0]]) + Remove(s[1..], c)
  }

  /** What is left after removing a character was there before. */
  lemma {:induction false} RemoveKeeps(s: string, c: char)
    ensures forall i :: 0 <= i < |Remove(s, c)| ==> Remove(s, c)[i] in s
    decreases |s|
  {
    if s != [] {
      RemoveKeeps(s[1..], c);
      var head := if s[0] == c then [] else [s[0]];
      assert Remove(s, c) == head + Remove(s[1..], c);
      forall i | 0 <= i < |Remove(s, c)| ensures Remove(s, c)[i] in s {
        if i >= |head| {
          assert Remove(s, c)[i] == Remove(s[1..], c)[i - |head|];
          assert Remove(s[1..], c)[i - |head|] in s[1..];
        }
      }
    }
  }

  /** Removing a character commutes with concatenation, so the order of what is kept is preserved. */
  lemma {:induction false} RemoveAppend(a: string, b: string, c: char)
    ensures Remove(a + b, c) == Remove(a, c) + Remove(b, c)
    decreases |a|
  {
    if a != [] {
      assert (a + b)[1..] == a[1..] + b;
      RemoveAppend(a[1..], b, c);
    } else {
      assert a + b == b;
    }
  }

  /** The index of the first `c` in `s`, or `|s|`: `s.find(c)` with "not found" as `|s|`. */
  function IndexOf(s: string, c: char): (i: nat)
    ensures i <= |s|
    ensures i < |s| ==> s[i] == c
    ensures forall j :: 0 <= j < i ==> s[j] != c
  {
    if s == [] then 0 else if s[0] == c then 0 else 1 + IndexOf(s[1..], c)
  }

  /** The index of the last `c` in `s`, or `|s|` when there is none: `s.rfind(c)`. */
  function LastIndexOf(s: string, c: char): (k: nat)
    ensures k <= |s|
    ensures k == |s| <==> c !in s
    ensures k < |s| ==> s[k] == c && c !in s[k + 1..]
  {
    if s == [] then 0
    else if s[|s| - 1] == c then |s| - 1
    else
      var k := LastIndexOf(s[..|s| - 1], c);
      assert s == s[..|s| - 1] + [s[|s| - 1]];
      if k == |s| - 1 then |s|
      else
        assert s[k + 1..] == s[..|s| - 1][k + 1..] + [s[|s| - 1]];
        k
  }

  /** `sep.join(parts)` for a one-character separator. */
  function Join(parts: seq<string>, sep: char): string
    requires |parts| >= 1
  {
    if |parts| == 1 then parts[0] else Join(parts[..|parts| - 1], sep) + [sep] + parts[|parts| - 1]
  }

  /**
   * `s.split(sep)` for a one-character separator: every occurrence splits, empty pieces are
   * kept. Written from the right, splitting off the text after the last separator.
   */
  function Split(s: string, sep: char): (parts: seq<string>)
    ensures |parts| >= 1
    ensures forall i :: 0 <= i < |parts| ==> sep !in parts[i]
    ensures Join(parts, sep) == s
    decreases |s|
  {
    var k := LastIndexOf(s, sep);
    if k == |s| then [s]
    else
      var front := Split(s[..k], sep);
      assert (front + [s[k + 1..]])[..|front|] == front;
      assert s == s[..k] + [sep] + s[k + 1..];
      front + [s[k + 1..]]
  }

  /** The text after the last separator is the last piece; the rest splits on its own. */
  lemma SplitLast(a: string, sep: char, b: string)
    requires sep !in b
    ensures Split(a + [sep] + b, sep) == Split(a, sep) + [b]
  {
    var s := a + [sep] + b;
    var k := LastIndexOf(s, sep);
    assert s[|a|] == sep;
    assert s[|a| + 1..] == b;
    assert k == |a|;
    assert s[..k] == a;
  }

  lemma {:induction false} IndexOfPrefix(a: string, b: string, c: char)
    requires |b| > 0 && b[0] == c
    ensures IndexOf(a + b, c) == IndexOf(a, c)
    decreases |a|
  {
    if a == [] {
      assert a + b == b;
    } else if a[0] != c {
      assert (a + b)[1..] == a[1..] + b;
      IndexOfPrefix(a[1..], b, c);
    }
  }

  /** `s.split(sep, 1)`: at most two pieces, split at the first separator. */
  function SplitOnce(s: string, sep: char): (parts: seq<string>)
    ensures 1 <= |parts| <= 2
    ensures |parts| == 1 <==> sep !in s
    ensures |parts| == 1 ==> parts[0] == s
    ensures |parts| == 2 ==> sep !in parts[0] && s == parts[0] + [sep] + parts[1]
  {
    var i := IndexOf(s, sep);
    if i == |s| then [s] else
      assert s == s[..i] + [sep] + s[i + 1..];
      [s[..i], s[i + 1..]]
  }

  /** Text with no separator before the first one splits there. */
  lemma SplitOnceOf(a: string, sep: char, b: string)
    requires sep !in a
    ensures SplitOnce(a + [sep] + b, sep) == [a, b]
  {
    var s := a + [sep] + b;
    assert s == a + ([sep] + b);
    IndexOfPrefix(a, [sep] + b, sep);
    assert IndexOf(a, sep) == |a|;
    assert s[..|a|] == a && s[|a| + 1..] == b;
  }
}
