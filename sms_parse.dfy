/**
 * `parse_sms_body` (dsa/parse_xml.py:16-56): five independent searches over one message
 * body, each followed by one clean-up step, giving five fields that are each absent or
 * present. Amounts are exact decimals; `float` is modelled on the digit-and-dot texts the
 * numeral patterns can capture.
 */
module SmsParse {
  import opened Wrappers
  import opened Text
  import opened SmsPatterns
  import opened SmsDates

  /** The dictionary `parse_sms_body` returns; `None` is `Option.None`. */
  datatype SmsFields = SmsFields(
    transactionId: Option<string>,
    amount: Option<real>,
    sender: Option<string>,
    receiver: Option<string>,
    txTimestamp: Option<string>)

  // ---------------------------------------------------------------------------------------
  // float() on numeral texts

  /** A text made of decimal digits and dots, as the numeral patterns capture once commas are gone. */
  predicate DecimalText(x: string) {
    forall i :: 0 <= i < |x| ==> IsDigit(x[i]) || x[i] == '.'
  }

  predicate HasDigit(x: string) {
    exists i :: 0 <= i < |x| && IsDigit(x[i])
  }

  function Dots(x: string): nat {
    multiset(x)['.']
  }

  /** How many digits follow the first dot (none when there is no dot). */
  function FractionLength(x: string): nat {
    if '.' in x then |x| - 1 - IndexOf(x, '.') else 0
  }

  lemma DecimalPieces(x: string, a: string, b: string)
    requires DecimalText(x) && x == a + "." + b
    ensures AllDigits(a) || '.' in a
    ensures '.' !in a ==> AllDigits(a)
    ensures '.' !in b ==> AllDigits(b)
  {
    assert forall i :: 0 <= i < |a| ==> a[i] == x[i];
    assert forall i :: 0 <= i < |b| ==> b[i] == x[|a| + 1 + i];
  }

  /**
   * `float(x)` on a decimal text: one dot at most, and at least one digit; the value is the
   * digit string read as an integer, shifted right by the number of fraction digits.
   */
  function FloatValue(x: string): (r: Option<real>)
    requires DecimalText(x)
    ensures r.None? <==> Dots(x) >= 2 || !HasDigit(x)
    ensures r.Some? ==> r.value >= 0.0
  {
    var parts := SplitOnce(x, '.');
    if |parts| == 1 then
      NoDot(x);
      if x == [] then None else Some(DigitsValue(x) as real)
    else
      var a, b := parts[0], parts[1];
      FloatParts(x, a, b);
      if '.' in b then None
      else if a == [] && b == [] then None
      else Some(PointValue(a, b))
  }

  lemma NoDot(x: string)
    requires DecimalText(x) && '.' !in x
    ensures AllDigits(x) && Remove(x, '.') == x && FractionLength(x) == 0 && Dots(x) == 0
    ensures HasDigit(x) <==> x != []
  {
    if x != [] {
      assert IsDigit(x[0]);
    }
  }

  lemma DotsOfParts(x: string, a: string, b: string)
    requires x == a + "." + b && '.' !in a
    ensures Dots(x) == 1 + Dots(b)
  {
    assert multiset(x) == multiset(a) + multiset(".") + multiset(b);
    assert multiset(a)['.'] == 0;
  }

  lemma FirstDotOfParts(x: string, a: string, b: string)
    requires x == a + "." + b && '.' !in a
    ensures '.' in x && IndexOf(x, '.') == |a| && FractionLength(x) == |b|
  {
    assert x[|a|] == '.';
    assert x == a + ("." + b);
    IndexOfPrefix(a, "." + b, '.');
    assert IndexOf(a, '.') == |a|;
  }

  lemma DigitOfParts(x: string, a: string, b: string)
    requires DecimalText(x) && x == a + "." + b && '.' !in a
    ensures HasDigit(x) <==> (a != [] || HasDigit(b))
  {
    if a != [] {
      assert x[0] == a[0];
      assert IsDigit(x[0]);
    }
    if HasDigit(b) {
      var i :| 0 <= i < |b| && IsDigit(b[i]);
      assert x[|a| + 1 + i] == b[i];
    }
    if HasDigit(x) {
      var i :| 0 <= i < |x| && IsDigit(x[i]);
      if a == [] {
        assert i > 0 && x[i] == b[i - 1];
      }
    }
  }

  lemma RemoveLeadingDot(b: string)
    requires '.' !in b
    ensures Remove("." + b, '.') == b
  {
    RemoveAppend(".", b, '.');
    assert Remove(".", '.') == [];
  }

  lemma RemoveDotOfParts(x: string, a: string, b: string)
    requires x == a + "." + b && '.' !in a && '.' !in b
    ensures Remove(x, '.') == a + b
  {
    assert x == a + ("." + b);
    RemoveAppend(a, "." + b, '.');
    RemoveLeadingDot(b);
  }

  /** The integer digits `a` and the fraction digits `b` read as one decimal number. */
  function PointValue(a: string, b: string): (v: real)
    requires AllDigits(a) && AllDigits(b)
    ensures v >= 0.0
  {
    NonNegativeQuotient(DigitsValue(b), Pow10(|b|));
    DigitsValue(a) as real + DigitsValue(b) as real / Pow10(|b|) as real
  }

  lemma NonNegativeQuotient(n: nat, d: nat)
    requires d >= 1
    ensures n as real / d as real >= 0.0
  {
  }

  lemma ShiftPoint(n: nat, a: nat, b: nat, p: nat)
    requires p >= 1 && n == a * p + b
    ensures n as real / p as real == a as real + b as real / p as real
  {
  }

  lemma PointShift(a: string, b: string)
    requires AllDigits(a) && AllDigits(b)
    ensures AllDigits(a + b)
    ensures PointValue(a, b) == DigitsValue(a + b) as real / Pow10(|b|) as real
  {
    assert AllDigits(a + b) by {
      assert forall i :: 0 <= i < |a + b| ==> (a + b)[i] == if i < |a| then a[i] else b[i - |a|];
    }
    DigitsValueAppend(a, b);
    ShiftPoint(DigitsValue(a + b), DigitsValue(a), DigitsValue(b), Pow10(|b|));
  }

  /**
   * The value `float` gives is the whole digit string read as an integer and divided by ten
   * to the number of fraction digits.
   */
  lemma FloatValueShift(x: string)
    requires DecimalText(x) && FloatValue(x).Some?
    ensures AllDigits(Remove(x, '.'))
    ensures FloatValue(x).value == DigitsValue(Remove(x, '.')) as real / Pow10(FractionLength(x)) as real
  {
    var parts := SplitOnce(x, '.');
    if |parts| == 1 {
      NoDot(x);
    } else {
      DotShift(x, parts[0], parts[1]);
    }
  }

  lemma DotShift(x: string, a: string, b: string)
    requires DecimalText(x) && x == a + "." + b && '.' !in a && SplitOnce(x, '.') == [a, b]
    requires FloatValue(x).Some?
    ensures AllDigits(Remove(x, '.'))
    ensures FloatValue(x).value == DigitsValue(Remove(x, '.')) as real / Pow10(FractionLength(x)) as real
  {
    FloatParts(x, a, b);
    assert FloatValue(x) == Some(PointValue(a, b));
    PointShift(a, b);
  }

  /** The facts about `x == a + "." + b` that `FloatValue` rests on. */
  lemma FloatParts(x: string, a: string, b: string)
    requires DecimalText(x) && x == a + "." + b && '.' !in a
    ensures Dots(x) == 1 + Dots(b)
    ensures '.' in x && FractionLength(x) == |b|
    ensures HasDigit(x) <==> (a != [] || HasDigit(b))
    ensures '.' !in b ==> Remove(x, '.') == a + b
    ensures '.' !in b ==> AllDigits(a) && AllDigits(b) && AllDigits(a + b)
    ensures '.' !in b ==> DigitsValue(a + b) == DigitsValue(a) * Pow10(|b|) + DigitsValue(b)
  {
    DecimalPieces(x, a, b);
    DotsOfParts(x, a, b);
    FirstDotOfParts(x, a, b);
    DigitOfParts(x, a, b);
    if '.' !in b {
      RemoveDotOfParts(x, a, b);
      DigitsValueAppend(a, b);
    }
  }

  // ---------------------------------------------------------------------------------------
  // The five fields

  /** Characters of `[A-Za-z0-9\-]` only. */
  predicate IdText(x: string) {
    forall i :: 0 <= i < |x| ==> In(x[i], IdChar)
  }

  /** A slice of a run of class `k` characters is all of class `k`. */
  lemma SliceIn(s: string, lo: nat, hi: nat, k: Class)
    requires lo <= hi <= |s| && forall i :: lo <= i < hi ==> In(s[i], k)
    ensures forall i :: 0 <= i < hi - lo ==> In(s[lo..hi][i], k)
  {
    assert forall i :: 0 <= i < hi - lo ==> s[lo..hi][i] == s[lo + i];
  }

  /** Either label is followed by a non-empty run of id characters. */
  lemma IdRun(s: string, p: nat, c: Capture)
    requires IsLabelledId(s, p, c)
    ensures c.lo < c.hi <= |s| && forall i :: c.lo <= i < c.hi ==> In(s[i], IdChar)
  {
    if !(LitAt(s, p, TxIdLabel) && IdAfter(s, p + |TxIdLabel|, c)) {
      assert IdAfter(s, p + |FinancialLabel|, c);
    }
  }

  /** An id run has neither whitespace nor a dot at its ends, so the clean-up leaves it alone. */
  lemma CleanId(s: string, p: nat, c: Capture)
    requires IsLabelledId(s, p, c)
    ensures Group(s, c) == s[c.lo..c.hi] && s[c.lo..c.hi] != [] && IdText(s[c.lo..c.hi])
    ensures RStripChar(Strip(Group(s, c)), '.') == s[c.lo..c.hi]
  {
    var x := s[c.lo..c.hi];
    IdRun(s, p, c);
    SliceIn(s, c.lo, c.hi, IdChar);
    assert In(x[0], IdChar) && In(x[|x| - 1], IdChar);
    StripTrimmed(x);
  }

  /**
   * The transaction id (dsa/parse_xml.py:18-21): the run of id characters after the first
   * label, untouched by `strip().rstrip('.')`, and `None` exactly when no label is followed by one.
   */
  function ExtractTxId(body: string): (r: Option<string>)
    requires IsAscii(body)
    ensures r.Some? ==> r.value != [] && IdText(r.value)
  {
    SearchTxId(body);
    match Search(TxIdRe, body)
    case None => None
    case Some(m) =>
      CleanId(body, m.start, m.group);
      Some(RStripChar(Strip(Group(body, m.group)), '.'))
  }

  /** No id exactly when no label is followed by a run of id characters. */
  lemma ExtractTxIdNone(body: string)
    requires IsAscii(body)
    ensures ExtractTxId(body).None? <==> forall p: nat, c: Capture :: !IsLabelledId(body, p, c)
  {
    SearchTxId(body);
  }

  /** The id found is the whole run after the leftmost label. */
  lemma ExtractTxIdFirst(body: string, p: nat, c: Capture)
    requires IsAscii(body) && FirstLabelledId(body, p, c)
    ensures c.lo < c.hi <= |body| && ExtractTxId(body) == Some(body[c.lo..c.hi])
  {
    SearchTxId(body);
    CleanId(body, p, c);
  }

  /** Digits, commas and dots: what the numeral patterns capture. */
  predicate NumeralCharsText(x: string) {
    forall i :: 0 <= i < |x| ==> IsDigit(x[i]) || x[i] == ',' || x[i] == '.'
  }

  /** Removing the commas from a numeral's text leaves a decimal text. */
  lemma {:induction false} DecimalWithoutCommas(x: string)
    requires NumeralCharsText(x)
    ensures DecimalText(Remove(x, ','))
    decreases |x|
  {
    if x != [] {
      var rest := x[1..];
      assert forall i :: 0 <= i < |rest| ==> rest[i] == x[i + 1];
      DecimalWithoutCommas(rest);
      var head: string := if x[0] == ',' then [] else [x[0]];
      assert Remove(x, ',') == head + Remove(rest, ',');
      assert forall i :: 0 <= i < |head| ==> head[i] == x[0];
    }
  }

  /** `group(1).replace(',', '')` for numeral `n` at `p`: the text `float` is given. */
  function NumeralDigits(t: string, p: nat, n: Numeral, unit: bool): (x: string)
    requires IsNumeral(t, p, n, unit)
    ensures DecimalText(x)
  {
    NumeralChars(t, p, n, unit);
    var g := t[p..NumeralEnd(p, n)];
    assert forall i :: 0 <= i < |g| ==> g[i] == t[p + i];
    DecimalWithoutCommas(g);
    Remove(g, ',')
  }

  /** On the comma-free body, the second `replace(',', '')` changes nothing. */
  lemma SecondReplaceNoOp(t: string, p: nat, n: Numeral, unit: bool)
    requires ',' !in t && IsNumeral(t, p, n, unit)
    ensures p <= NumeralEnd(p, n) <= |t| && NumeralDigits(t, p, n, unit) == t[p..NumeralEnd(p, n)]
  {
    NumeralChars(t, p, n, unit);
    var g := t[p..NumeralEnd(p, n)];
    assert forall i :: 0 <= i < |g| ==> g[i] == t[p + i];
  }

  /**
   * `float(group(1).replace(',', ''))` for the first match of AMOUNT_RE (`unit`) or of the bare
   * numeral pattern in `t`: `None` when nothing matches or `float` raises.
   */
  function FirstAmount(t: string, unit: bool): (r: Option<real>)
    ensures r.Some? ==> r.value >= 0.0
  {
    match Search(NumeralPattern(unit), t)
    case None => None
    case Some(m) =>
      NumeralMatch(t, m.start, unit);
      FloatValue(NumeralDigits(t, m.start, NumeralAt(t, m.start, unit).value, unit))
  }

  /** Nothing to match gives no amount; otherwise the leftmost numeral, the engine's first choice there, is read. */
  lemma FirstAmountFound(t: string, unit: bool)
    ensures (forall p: nat, n: Numeral :: !IsNumeral(t, p, n, unit)) ==> FirstAmount(t, unit).None?
    ensures forall p: nat, n: Numeral :: FirstNumeral(t, p, n, unit) ==>
      FirstAmount(t, unit) == FloatValue(NumeralDigits(t, p, n, unit))
  {
    SearchNumeral(t, unit);
  }

  /**
   * The amount (dsa/parse_xml.py:23-29): `float` of the engine's first numeral before `RWF`
   * in the comma-free body, `None` when there is none or `float` raises.
   */
  function ExtractAmount(body: string): (r: Option<real>)
    ensures r.Some? ==> r.value >= 0.0
  {
    FirstAmount(Remove(body, ','), true)
  }

  lemma ExtractAmountFound(body: string)
    ensures (forall p: nat, n: Numeral :: !IsNumeral(Remove(body, ','), p, n, true)) ==> ExtractAmount(body).None?
    ensures forall p: nat, n: Numeral :: FirstNumeral(Remove(body, ','), p, n, true) ==>
      ExtractAmount(body) == FloatValue(NumeralDigits(Remove(body, ','), p, n, true))
  {
    FirstAmountFound(Remove(body, ','), true);
  }

  /**
   * AMOUNT_RE has no left anchor: before ` RWF`, four digits in a row are not a numeral at
   * the first digit (three at most, and then no unit follows), so the amount is the last three.
   */
  lemma FourDigitAmount(t: string)
    requires |t| == 8 && ',' !in t && t[4] == ' '
    requires IsDigit(t[0]) && IsDigit(t[1]) && IsDigit(t[2]) && IsDigit(t[3])
    requires Lower(t[5]) == 'r' && Lower(t[6]) == 'w' && Lower(t[7]) == 'f'
    ensures AllDigits(t[1..4]) && ExtractAmount(t) == Some(DigitsValue(t[1..4]) as real)
  {
    FourDigitNumeral(t);
    AmountOfFirst(t, 1, Numeral(3, 0, 0));
    FloatOfDigits(t[1..4]);
  }

  /** Without commas in the body, the amount is `float` of the leftmost numeral's own text. */
  lemma AmountOfFirst(body: string, p: nat, n: Numeral)
    requires ',' !in body && FirstNumeral(body, p, n, true)
    ensures p <= NumeralEnd(p, n) <= |body| && DecimalText(body[p..NumeralEnd(p, n)])
    ensures ExtractAmount(body) == FloatValue(body[p..NumeralEnd(p, n)])
  {
    SecondReplaceNoOp(body, p, n, true);
    assert Remove(body, ',') == body;
    ExtractAmountFound(body);
  }

  /** `float` of a plain digit string is its integer value. */
  lemma FloatOfDigits(x: string)
    requires x != [] && AllDigits(x)
    ensures DecimalText(x) && FloatValue(x) == Some(DigitsValue(x) as real)
  {
    assert '.' !in x by { assert forall i :: 0 <= i < |x| ==> IsDigit(x[i]); }
    NoDot(x);
  }

  /** The leftmost numeral before the unit in four digits and ` RWF` is the last three digits. */
  lemma FourDigitNumeral(t: string)
    requires |t| == 8 && t[4] == ' '
    requires IsDigit(t[0]) && IsDigit(t[1]) && IsDigit(t[2]) && IsDigit(t[3])
    requires Lower(t[5]) == 'r' && Lower(t[6]) == 'w' && Lower(t[7]) == 'f'
    ensures FirstNumeral(t, 1, Numeral(3, 0, 0), true)
  {
    RwfAt(t, 5);
    var n := Numeral(3, 0, 0);
    assert IsNumeral(t, 1, n, true) by {
      assert DigitsAt(t, 1, 3);
      assert UnitAfter(t, 4, true);
    }
    forall m: Numeral | IsNumeral(t, 1, m, true) ensures !NumeralBefore(m, n) {
      assert !GroupAt(t, 4) && !CharAt(t, 4, '.');
    }
    forall q: nat, m: Numeral | q < 1 && IsNumeral(t, q, m, true) ensures false {
      NoUnitAtDigit(t, m.whole);
    }
  }

  lemma ThreeDigitsValue(x: string)
    requires |x| == 3 && AllDigits(x)
    ensures DigitsValue(x) == DigitValue(x[0]) * 100 + DigitValue(x[1]) * 10 + DigitValue(x[2])
  {
    var a, b := x[..1], x[..2];
    assert b[..1] == a && a[..0] == [];
    assert DigitsValue(a) == DigitValue(x[0]);
    assert DigitsValue(b) == DigitValue(x[0]) * 10 + DigitValue(x[1]);
    assert x[..2] == b;
  }

  /** The amount of `2000 RWF` is 0, not 2000. */
  lemma UnanchoredAmount()
    ensures ExtractAmount("2000 RWF") == Some(0.0)
  {
    var t := "2000 RWF";
    assert t[0] == '2' && t[1] == '0' && t[2] == '0' && t[3] == '0' && t[4] == ' ';
    assert t[5] == 'R' && t[6] == 'W' && t[7] == 'F';
    FourDigitAmount(t);
    var x := t[1..4];
    ThreeDigitsValue(x);
    assert x[0] == '0' && x[1] == '0' && x[2] == '0';
    var v := DigitsValue(x);
    assert v == 0;
    assert v as real == 0.0;
    assert ExtractAmount(t) == Some(v as real);
  }

  /** `RWF` in any case stands at `i`. */
  lemma RwfAt(s: string, i: nat)
    requires i + 3 <= |s| && Lower(s[i]) == 'r' && Lower(s[i + 1]) == 'w' && Lower(s[i + 2]) == 'f'
    ensures TermsAfterSpaces(s, i, RwfTerms())
  {
    assert Rwf[1..] == "wf" && Rwf[1..][1..] == "f" && Rwf[1..][1..][1..] == [];
    assert LitAt(s, i + 2, "f");
    assert LitAt(s, i, Rwf);
  }

  /** A digit is neither whitespace nor the start of `RWF`. */
  lemma NoUnitAtDigit(s: string, i: nat)
    requires i < |s| && IsDigit(s[i])
    ensures !TermsAfterSpaces(s, i, RwfTerms())
  {
    assert !LitAt(s, i, Rwf);
  }

  /** The bare numeral pattern matches exactly where a digit stands. */
  lemma NumeralAtDigit(s: string, p: nat)
    ensures MatchAt(NumeralRe, s, p).Some? <==> p < |s| && IsDigit(s[p])
  {
    if p < |s| && IsDigit(s[p]) {
      assert IsNumeral(s, p, Numeral(1, 0, 0), false);
    }
  }

  /** `re.findall(...)[0]` of the fallback starts at the body's first digit; with no digit the list is empty. */
  lemma FallbackStart(body: string)
    ensures Search(NumeralRe, body).None? <==> forall i :: 0 <= i < |body| ==> !IsDigit(body[i])
    ensures Search(NumeralRe, body).Some? ==>
      var p := Search(NumeralRe, body).value.start;
      p < |body| && IsDigit(body[p]) && forall i :: 0 <= i < p ==> !IsDigit(body[i])
  {
    forall q: nat ensures MatchAt(NumeralRe, body, q).Some? <==> q < |body| && IsDigit(body[q]) {
      NumeralAtDigit(body, q);
    }
  }

  /**
   * The looser amount (dsa/parse_xml.py:80-87) on the original body: `float` of the first
   * numeral, commas dropped; `None` when the body holds no digit or `float` raises.
   */
  function FallbackAmount(body: string): (r: Option<real>)
    ensures r.Some? ==> r.value >= 0.0
  {
    FirstAmount(body, false)
  }

  lemma FallbackAmountFound(body: string)
    ensures (forall i :: 0 <= i < |body| ==> !IsDigit(body[i])) ==> FallbackAmount(body).None?
    ensures forall p: nat, n: Numeral :: FirstNumeral(body, p, n, false) ==>
      FallbackAmount(body) == FloatValue(NumeralDigits(body, p, n, false))
  {
    forall p: nat, n: Numeral | IsNumeral(body, p, n, false) ensures p < |body| && IsDigit(body[p]) {
      assert DigitsAt(body, p, n.whole);
    }
    FirstAmountFound(body, false);
  }

  /** Characters of `[A-Za-z0-9 \-\.\']` only. */
  predicate NameText(x: string) {
    forall i :: 0 <= i < |x| ==> In(x[i], NameChar)
  }

  /** Stripping keeps only characters that were there. */
  lemma StripIn(x: string, k: Class)
    requires forall i :: 0 <= i < |x| ==> In(x[i], k)
    ensures forall i :: 0 <= i < |Strip(x)| ==> In(Strip(x)[i], k)
  {
    var y := Strip(x);
    assert forall i :: 0 <= i < |y| ==> y[i] == x[LeadingSpaces(x) + i];
  }

  lemma NameGroup(s: string, c: Capture, terms: seq<Term>)
    requires NameCandidate(s, c.lo, c.hi, terms)
    ensures Group(s, c) == s[c.lo..c.hi] && NameText(Strip(s[c.lo..c.hi]))
  {
    SliceIn(s, c.lo, c.hi, NameChar);
    StripIn(s[c.lo..c.hi], NameChar);
  }

  /**
   * Sender or receiver (dsa/parse_xml.py:30-39): the stripped shortest group after the first
   * `from` (or `to`) and whitespace before a terminator, `None` exactly when there is no such group.
   */
  function ExtractName(body: string, pat: Pattern): (r: Option<string>)
    requires IsAscii(body) && IsNamePattern(pat)
    ensures r.Some? ==> NameText(r.value)
  {
    SearchName(body, pat);
    match Search(pat, body)
    case None => None
    case Some(m) =>
      NameMatch(body, m.start, pat);
      NameGroup(body, m.group, NameTerms(pat));
      Some(Strip(Group(body, m.group)))
  }

  /** No name exactly when no candidate follows the word; otherwise the candidate the engine takes first. */
  lemma ExtractNameFound(body: string, pat: Pattern)
    requires IsAscii(body) && IsNamePattern(pat)
    ensures ExtractName(body, pat).None? <==> forall p: nat, c: Capture :: !NameShape(body, p, NameWord(pat), NameTerms(pat), c)
    ensures forall p: nat, c: Capture :: FirstName(body, NameWord(pat), NameTerms(pat), p, c) ==>
      ExtractName(body, pat) == Some(Strip(body[c.lo..c.hi]))
  {
    SearchName(body, pat);
    match Search(pat, body)
    case None =>
    case Some(m) =>
      NameMatch(body, m.start, pat);
      NameGroup(body, m.group, NameTerms(pat));
  }

  /**
   * `strptime(...).isoformat()` on the date text `s[p..q]`: the text itself with `T` for its
   * whitespace when the fields make a valid date-time, `None` (the `ValueError`) otherwise.
   */
  function Timestamp(s: string, p: nat, q: nat): (r: Option<string>)
    requires IsDateText(s, p, q)
    ensures r == if Valid(FieldsAt(s, p, q - 8)) then Some(s[p..p + 10] + "T" + s[q - 8..q]) else None
  {
    FieldsInPlace(s, p, q);
    IsoInPlace(s, p, q);
    match Strptime(s[p..q])
    case None => None
    case Some(dt) => Some(IsoFormat(dt))
  }

  /**
   * The timestamp (dsa/parse_xml.py:40-47): only the first date text is tried; a valid one is
   * printed back with `T` for its whitespace, and an invalid one gives `None`.
   */
  function ExtractTimestamp(body: string): (r: Option<string>)
    requires IsAscii(body)
    ensures r.Some? ==> |r.value| == 19 && r.value[10] == 'T'
  {
    match Search(DateRe, body)
    case None => None
    case Some(m) => FoundDateText(body, m); Timestamp(body, m.start, m.group.hi)
  }

  /** A date search that succeeds has found a date text. */
  lemma FoundDateText(body: string, m: Match)
    requires Search(DateRe, body) == Some(m)
    ensures IsDateText(body, m.start, m.group.hi)
  {
    assert MatchAt(DateRe, body, m.start) == Some(m.group);
  }

  /** No date text gives no timestamp; otherwise the leftmost date text is the one converted. */
  lemma ExtractTimestampFound(body: string)
    requires IsAscii(body)
    ensures (forall p: nat, q: nat :: !IsDateText(body, p, q)) ==> ExtractTimestamp(body).None?
    ensures forall p: nat, q: nat :: FirstDate(body, p, q) ==> ExtractTimestamp(body) == Timestamp(body, p, q)
  {
    SearchDate(body);
  }

  /** `parse_sms_body` (dsa/parse_xml.py:16-56): each field comes from its own search. */
  function ParseSmsBody(body: string): (r: SmsFields)
    requires IsAscii(body)
    ensures r.transactionId.Some? ==> r.transactionId.value != [] && IdText(r.transactionId.value)
    ensures r.sender.Some? ==> NameText(r.sender.value)
    ensures r.receiver.Some? ==> NameText(r.receiver.value)
  {
    SmsFields(ExtractTxId(body), ExtractAmount(body), ExtractName(body, SenderRe),
              ExtractName(body, ReceiverRe), ExtractTimestamp(body))
  }

  /** Each field is absent exactly when its pattern finds nothing in the body to take. */
  lemma ParseSmsBodyFields(body: string)
    requires IsAscii(body)
    ensures ParseSmsBody(body).transactionId.None? <==> forall p: nat, c: Capture :: !IsLabelledId(body, p, c)
    ensures (forall p: nat, n: Numeral :: !IsNumeral(Remove(body, ','), p, n, true)) ==> ParseSmsBody(body).amount.None?
    ensures ParseSmsBody(body).sender.None? <==> forall p: nat, c: Capture :: !NameShape(body, p, FromLabel, SenderTerms(), c)
    ensures ParseSmsBody(body).receiver.None? <==> forall p: nat, c: Capture :: !NameShape(body, p, ToLabel, ReceiverTerms(), c)
    ensures (forall p: nat, q: nat :: !IsDateText(body, p, q)) ==> ParseSmsBody(body).txTimestamp.None?
  {
    assert NameWord(SenderRe) == FromLabel && NameTerms(SenderRe) == SenderTerms();
    assert NameWord(ReceiverRe) == ToLabel && NameTerms(ReceiverRe) == ReceiverTerms();
    ExtractTxIdNone(body);
    ExtractAmountFound(body);
    ExtractNameFound(body, SenderRe);
    ExtractNameFound(body, ReceiverRe);
    ExtractTimestampFound(body);
  }
}
