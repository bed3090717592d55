/**
 * Hand-written matchers for the five regular expressions of dsa/parse_xml.py:10-14, on
 * ASCII text. Each follows the backtracking order of Python's `re` engine: a greedy
 * quantifier tries its longest repetition first and gives characters back one at a time,
 * a lazy one tries its shortest first, and alternatives are tried left to right. `Search`
 * tries start positions left to right, as `pattern.search` does. Beside each matcher a
 * declarative predicate says what a match is, and its contract ties the two together.
 */
module SmsPatterns {
  import opened Wrappers
  import opened Text

  /** The bounds of capturing group 1 of a match. */
  datatype Capture = Capture(lo: nat, hi: nat)

  /** A successful search: where the match starts and what group 1 captured. */
  datatype Match = Match(start: nat, group: Capture)

  /** The character classes the patterns use (case-insensitive where the pattern is). */
  datatype Class =
    | Space     // \s
    | LabelSep  // [:\s]
    | IdChar    // [A-Za-z0-9\-]
    | Digit     // [0-9] and \d
    | NameChar  // [A-Za-z0-9 \-\.\']

  predicate In(c: char, k: Class) {
    match k
    case Space => IsSpace(c)
    case LabelSep => c == ':' || IsSpace(c)
    case IdChar => IsLetter(c) || IsDigit(c) || c == '-'
    case Digit => IsDigit(c)
    case NameChar => IsLetter(c) || IsDigit(c) || c == ' ' || c == '-' || c == '.' || c == '\''
  }

  /** The length of the longest run of `k` characters starting at `i`. */
  function Span(s: string, i: nat, k: Class): (n: nat)
    requires i <= |s|
    ensures i + n <= |s|
    ensures forall j :: i <= j < i + n ==> In(s[j], k)
    ensures i + n == |s| || !In(s[i + n], k)
    decreases |s| - i
  {
    if i < |s| && In(s[i], k) then 1 + Span(s, i + 1, k) else 0
  }

  /** A run of `k` that ends where a non-`k` character (or the text) ends is the longest one. */
  lemma SpanOfRun(s: string, i: nat, n: nat, k: Class)
    requires i + n <= |s|
    requires forall j :: i <= j < i + n ==> In(s[j], k)
    requires i + n == |s| || !In(s[i + n], k)
    ensures Span(s, i, k) == n
  {
  }

  predicate DigitsAt(s: string, i: nat, n: nat) {
    i + n <= |s| && forall j :: i <= j < i + n ==> IsDigit(s[j])
  }

  predicate CharAt(s: string, i: nat, c: char) {
    i < |s| && s[i] == c
  }

  /** The literal `lit`, given in lower case, occurs at `i` under `re.IGNORECASE`. */
  predicate LitAt(s: string, i: nat, lit: string)
    decreases |lit|
  {
    if lit == [] then i <= |s| else i < |s| && Lower(s[i]) == lit[0] && LitAt(s, i + 1, lit[1..])
  }

  lemma {:induction false} LitAtWithin(s: string, i: nat, lit: string)
    requires LitAt(s, i, lit)
    ensures i + |lit| <= |s|
    decreases |lit|
  {
    if lit != [] {
      assert LitAt(s, i + 1, lit[1..]);
      LitAtWithin(s, i + 1, lit[1..]);
    }
  }

  // ---------------------------------------------------------------------------------------
  // Alternatives after a capture: `\s*(?:a|b|...)`

  /** One alternative of a terminating group: a literal, or `\d+`. */
  datatype Term = Lit(text: string) | Digits

  predicate TermAt(s: string, t: nat, term: Term) {
    match term
    case Lit(x) => LitAt(s, t, x)
    case Digits => t < |s| && IsDigit(s[t])
  }

  /** `(?:a|b|...)` matches at `t`; which alternative does is irrelevant once group 1 is fixed. */
  predicate AnyTermAt(s: string, t: nat, terms: seq<Term>)
    decreases |terms|
  {
    |terms| > 0 && (TermAt(s, t, terms[0]) || AnyTermAt(s, t, terms[1..]))
  }

  /** Every alternative begins with a lower-case non-space character or a digit. */
  predicate WellFormedTerms(terms: seq<Term>) {
    forall i :: 0 <= i < |terms| ==>
      terms[i].Lit? ==> terms[i].text != [] && !IsSpace(terms[i].text[0]) && Lower(terms[i].text[0]) == terms[i].text[0]
  }

  /** `\s*` holding `j` characters of the run at `q`, then the alternatives; `j` is given back one at a time. */
  predicate TailFrom(s: string, q: nat, j: nat, terms: seq<Term>)
    requires q <= |s| && j <= Span(s, q, Space)
    decreases j
  {
    AnyTermAt(s, q + j, terms) || (j > 0 && TailFrom(s, q, j - 1, terms))
  }

  /** `\s*(?:terms)` matches at `q`. */
  predicate TailAt(s: string, q: nat, terms: seq<Term>)
    requires q <= |s|
  {
    TailFrom(s, q, Span(s, q, Space), terms)
  }

  /** `\s*(?:terms)` taken greedily: the whole whitespace run at `t` is skipped, then one alternative matches. */
  predicate TermsAfterSpaces(s: string, t: nat, terms: seq<Term>)
    decreases |s| - t
  {
    if t < |s| && IsSpace(s[t]) then TermsAfterSpaces(s, t + 1, terms) else AnyTermAt(s, t, terms)
  }

  lemma {:induction false} AfterSpacesSpan(s: string, t: nat, terms: seq<Term>)
    requires t <= |s|
    ensures TermsAfterSpaces(s, t, terms) <==> AnyTermAt(s, t + Span(s, t, Space), terms)
    decreases |s| - t
  {
    if t < |s| && IsSpace(s[t]) {
      AfterSpacesSpan(s, t + 1, terms);
    }
  }

  lemma {:induction false} NoTermAtSpace(s: string, t: nat, terms: seq<Term>)
    requires WellFormedTerms(terms)
    requires t < |s| && IsSpace(s[t])
    ensures !AnyTermAt(s, t, terms)
    decreases |terms|
  {
    if |terms| > 0 {
      assert WellFormedTerms(terms[1..]) by {
        forall i | 0 <= i < |terms[1..]| ensures terms[1..][i] == terms[i + 1] { }
      }
      NoTermAtSpace(s, t, terms[1..]);
      match terms[0]
      case Lit(x) => assert !(Lower(s[t]) == x[0]);
      case Digits =>
    }
  }

  /** Giving back whitespace never helps: only the longest run of `\s*` can precede an alternative. */
  lemma {:induction false} TailFromGreedy(s: string, q: nat, j: nat, terms: seq<Term>)
    requires WellFormedTerms(terms)
    requires q <= |s| && j <= Span(s, q, Space)
    ensures TailFrom(s, q, j, terms) <==> (j == Span(s, q, Space) && AnyTermAt(s, q + j, terms))
    decreases j
  {
    if j < Span(s, q, Space) {
      NoTermAtSpace(s, q + j, terms);
    }
    if j > 0 {
      TailFromGreedy(s, q, j - 1, terms);
    }
  }

  lemma TailAtGreedy(s: string, q: nat, terms: seq<Term>)
    requires WellFormedTerms(terms)
    requires q <= |s|
    ensures TailAt(s, q, terms) <==> TermsAfterSpaces(s, q, terms)
  {
    TailFromGreedy(s, q, Span(s, q, Space), terms);
    AfterSpacesSpan(s, q, terms);
  }

  // ---------------------------------------------------------------------------------------
  // TXID_RE = (?:TxId[:\s]*|Financial Transaction Id[:\s]*)([A-Za-z0-9\-]+), IGNORECASE

  const TxIdLabel: string := "txid"
  const FinancialLabel: string := "financial transaction id"

  /** Group 1 is `c`: separators fill the gap after the label that ends at `e`, then a longest id run. */
  predicate IdAfter(s: string, e: nat, c: Capture) {
    e <= c.lo < c.hi <= |s|
    && (forall i :: e <= i < c.lo ==> In(s[i], LabelSep))
    && (forall i :: c.lo <= i < c.hi ==> In(s[i], IdChar))
    && (c.hi == |s| || !In(s[c.hi], IdChar))
  }

  /** A label at `p`, then `[:\s]*`, then the non-empty longest run of id characters `c`. */
  predicate IsLabelledId(s: string, p: nat, c: Capture) {
    (LitAt(s, p, TxIdLabel) && IdAfter(s, p + |TxIdLabel|, c))
    || (LitAt(s, p, FinancialLabel) && IdAfter(s, p + |FinancialLabel|, c))
  }

  /** `[:\s]*([A-Za-z0-9\-]+)` after the label ending at `e`, the separator run holding `w` characters. */
  function IdAfterLabel(s: string, e: nat, w: nat): (r: Option<Capture>)
    requires e <= |s| && w <= Span(s, e, LabelSep)
    ensures r == if w == Span(s, e, LabelSep) && e + w < |s| && In(s[e + w], IdChar)
                 then Some(Capture(e + w, e + w + Span(s, e + w, IdChar))) else None
    decreases w
  {
    if e + w < |s| && In(s[e + w], IdChar) then Some(Capture(e + w, e + w + Span(s, e + w, IdChar)))
    else if w == 0 then None
    else IdAfterLabel(s, e, w - 1)
  }

  lemma IdAfterLabelIff(s: string, e: nat)
    requires e <= |s|
    ensures var r := IdAfterLabel(s, e, Span(s, e, LabelSep));
      (r.Some? ==> IdAfter(s, e, r.value)) && (r.None? ==> forall c :: !IdAfter(s, e, c))
  {
    var r := IdAfterLabel(s, e, Span(s, e, LabelSep));
    forall c | IdAfter(s, e, c) ensures r.Some? {
      assert In(s[c.lo], IdChar);
      SpanOfRun(s, e, c.lo - e, LabelSep);
    }
  }

  /** `[:\s]*([A-Za-z0-9\-]+)` after the label ending at `e`, with every separator taken first. */
  function LabelledId(s: string, e: nat): (r: Option<Capture>)
    requires e <= |s|
    ensures r.Some? ==> IdAfter(s, e, r.value)
    ensures r.None? ==> forall c :: !IdAfter(s, e, c)
  {
    IdAfterLabelIff(s, e);
    IdAfterLabel(s, e, Span(s, e, LabelSep))
  }

  /** TXID_RE at `p`: the `TxId` alternative is tried before `Financial Transaction Id`. */
  function TxIdAt(s: string, p: nat): (r: Option<Capture>)
    ensures r.Some? ==> IsLabelledId(s, p, r.value)
    ensures r.None? ==> forall c :: !IsLabelledId(s, p, c)
  {
    var viaTxId := if LitAt(s, p, TxIdLabel) then LitAtWithin(s, p, TxIdLabel); LabelledId(s, p + |TxIdLabel|) else None;
    if viaTxId.Some? then viaTxId
    else if LitAt(s, p, FinancialLabel) then LitAtWithin(s, p, FinancialLabel); LabelledId(s, p + |FinancialLabel|)
    else None
  }

  // ---------------------------------------------------------------------------------------
  // AMOUNT_RE = ([0-9]{1,3}(?:[,\.][0-9]{3})*(?:\.\d+)?)[\s]*RWF, IGNORECASE; with `unit`
  // false, the bare numeral that the fallback of parse_xml_to_json searches for.

  const Rwf: string := "rwf"

  function RwfTerms(): (terms: seq<Term>)
    ensures WellFormedTerms(terms)
  {
    [Lit(Rwf)]
  }

  /** `[\s]*RWF` follows position `q`, when `unit` asks for it. */
  predicate UnitAfter(s: string, q: nat, unit: bool) {
    !unit || (q <= |s| && TermsAfterSpaces(s, q, RwfTerms()))
  }

  /** The backtracking `[\s]*RWF`, which gives back whitespace one character at a time, succeeds as the greedy check does. */
  lemma RwfBacktracking(s: string, q: nat)
    requires q <= |s|
    ensures TailAt(s, q, RwfTerms()) <==> UnitAfter(s, q, true)
  {
    TailAtGreedy(s, q, RwfTerms());
  }

  /** One repetition of `[,\.][0-9]{3}` at `e`. */
  predicate GroupAt(s: string, e: nat) {
    e < |s| && (s[e] == ',' || s[e] == '.') && DigitsAt(s, e + 1, 3)
  }

  /** `g` consecutive repetitions of the group from `e`. */
  predicate GroupsAt(s: string, e: nat, g: nat)
    decreases g
  {
    g == 0 || (GroupAt(s, e) && GroupsAt(s, e + 4, g - 1))
  }

  /** The optional `\.\d+` at `e` (`k == 0`: absent, otherwise a dot and `k` digits), then the unit. */
  predicate FractionOk(s: string, e: nat, k: nat, unit: bool) {
    (k == 0 || (CharAt(s, e, '.') && DigitsAt(s, e + 1, k)))
    && UnitAfter(s, e + (if k == 0 then 0 else 1 + k), unit)
  }

  /** The choices the engine makes after `[0-9]{1,3}`: how many groups, how many fraction digits. */
  datatype Tail = Tail(groups: nat, fraction: nat)

  predicate TailOk(s: string, e: nat, t: Tail, unit: bool) {
    GroupsAt(s, e, t.groups) && FractionOk(s, e + 4 * t.groups, t.fraction, unit)
  }

  /** `a` is tried before `b`: more groups first, then more fraction digits, no fraction last. */
  predicate TailBefore(a: Tail, b: Tail) {
    a.groups > b.groups || (a.groups == b.groups && a.fraction > b.fraction)
  }

  /** All choices of group 1 for AMOUNT_RE at one start: digits, groups and fraction. */
  datatype Numeral = Numeral(whole: nat, groups: nat, fraction: nat)

  predicate IsNumeral(s: string, p: nat, n: Numeral, unit: bool) {
    1 <= n.whole <= 3 && DigitsAt(s, p, n.whole) && TailOk(s, p + n.whole, Tail(n.groups, n.fraction), unit)
  }

  /** `a` is tried before `b`: the engine orders the choices lexicographically, longest first. */
  predicate NumeralBefore(a: Numeral, b: Numeral) {
    a.whole > b.whole || (a.whole == b.whole && TailBefore(Tail(a.groups, a.fraction), Tail(b.groups, b.fraction)))
  }

  function NumeralEnd(p: nat, n: Numeral): nat {
    p + n.whole + 4 * n.groups + (if n.fraction == 0 then 0 else 1 + n.fraction)
  }

  lemma {:induction false} DigitsWithinSpan(s: string, i: nat, n: nat)
    requires DigitsAt(s, i, n)
    ensures n <= Span(s, i, Digit)
    decreases n
  {
    if n > 0 {
      DigitsWithinSpan(s, i + 1, n - 1);
    }
  }

  /** The most fraction digits `\d+` can take after a dot at `e`. */
  function MaxFraction(s: string, e: nat): nat {
    if CharAt(s, e, '.') then Span(s, e + 1, Digit) else 0
  }

  /** Up to `MaxFraction` digits after a dot are a fraction `\.\d+`. */
  lemma FractionDigits(s: string, e: nat, k: nat)
    requires 0 < k <= MaxFraction(s, e)
    ensures CharAt(s, e, '.') && DigitsAt(s, e + 1, k)
  {
  }

  /** `(?:\.\d+)?[\s]*RWF` with `\d+` holding at most `k` digits, giving them back one at a time. */
  function FractionFrom(s: string, e: nat, k: nat, unit: bool): (r: Option<nat>)
    requires e <= |s| && k <= MaxFraction(s, e)
    ensures r.Some? ==> r.value <= k && FractionOk(s, e, r.value, unit)
    decreases k
  {
    if k == 0 then (if UnitAfter(s, e, unit) then Some(0) else None)
    else
      FractionDigits(s, e, k);
      if UnitAfter(s, e + 1 + k, unit) then Some(k)
      else FractionFrom(s, e, k - 1, unit)
  }

  /** No fraction of at most `k` digits that the tail accepts is passed over. */
  lemma FractionFromComplete(s: string, e: nat, k: nat, unit: bool)
    requires e <= |s| && k <= MaxFraction(s, e)
    ensures forall j: nat :: j <= k && FractionOk(s, e, j, unit) ==>
      FractionFrom(s, e, k, unit).Some? && j <= FractionFrom(s, e, k, unit).value
  {
    forall j: nat | j <= k && FractionOk(s, e, j, unit)
      ensures FractionFrom(s, e, k, unit).Some? && j <= FractionFrom(s, e, k, unit).value
    {
      FractionFromReaches(s, e, k, j, unit);
    }
  }

  lemma {:induction false} FractionFromReaches(s: string, e: nat, k: nat, j: nat, unit: bool)
    requires e <= |s| && k <= MaxFraction(s, e)
    requires j <= k && FractionOk(s, e, j, unit)
    ensures FractionFrom(s, e, k, unit).Some? && j <= FractionFrom(s, e, k, unit).value
    decreases k
  {
    if j < k {
      FractionFromReaches(s, e, k - 1, j, unit);
    }
  }

  function Fraction(s: string, e: nat, unit: bool): (r: Option<nat>)
    requires e <= |s|
    ensures r.Some? ==> FractionOk(s, e, r.value, unit)
    ensures forall j: nat :: FractionOk(s, e, j, unit) ==> r.Some? && j <= r.value
  {
    FractionWithinMax(s, e, unit);
    FractionFromComplete(s, e, MaxFraction(s, e), unit);
    FractionFrom(s, e, MaxFraction(s, e), unit)
  }

  lemma FractionWithinMax(s: string, e: nat, unit: bool)
    ensures forall j: nat :: FractionOk(s, e, j, unit) ==> j <= MaxFraction(s, e)
  {
    forall j: nat | FractionOk(s, e, j, unit) && j > 0 ensures j <= MaxFraction(s, e) {
      DigitsWithinSpan(s, e + 1, j);
    }
  }

  /** Groups can only start at a separator; after one, the remaining tail starts four characters on. */
  lemma ShiftTails(s: string, e: nat, unit: bool)
    ensures !GroupAt(s, e) ==> forall t: Tail :: TailOk(s, e, t, unit) ==> t.groups == 0
    ensures GroupAt(s, e) ==> forall t: Tail :: t.groups > 0 ==>
      (TailOk(s, e, t, unit) <==> TailOk(s, e + 4, Tail(t.groups - 1, t.fraction), unit))
  {
  }

  /** The tail with no group: the fraction alone. */
  function FractionTail(s: string, e: nat, unit: bool): (r: Option<Tail>)
    requires e <= |s|
    ensures r.Some? ==> r.value.groups == 0 && TailOk(s, e, r.value, unit)
    ensures forall t: Tail :: t.groups == 0 && TailOk(s, e, t, unit) ==> r.Some? && t.fraction <= r.value.fraction
  {
    match Fraction(s, e, unit)
    case Some(k) => Some(Tail(0, k))
    case None => None
  }

  /** `(?:[,\.][0-9]{3})*` from `e`, greedy: one more group is tried before stopping. */
  function GroupsThen(s: string, e: nat, unit: bool): (r: Option<Tail>)
    requires e <= |s|
    ensures r.Some? ==> TailOk(s, e, r.value, unit)
    ensures forall t: Tail :: TailOk(s, e, t, unit) ==> r.Some? && !TailBefore(t, r.value)
    decreases |s| - e
  {
    ShiftTails(s, e, unit);
    if GroupAt(s, e) then
      var rest := GroupsThen(s, e + 4, unit);
      if rest.Some? then Some(Tail(rest.value.groups + 1, rest.value.fraction))
      else FractionTail(s, e, unit)
    else FractionTail(s, e, unit)
  }

  /** The choices with `d` whole digits succeed exactly as the tail after them does. */
  lemma WholeTails(s: string, p: nat, d: nat, unit: bool, tail: Option<Tail>)
    requires p + d <= |s| && tail == GroupsThen(s, p + d, unit)
    ensures forall n: Numeral :: n.whole == d && IsNumeral(s, p, n, unit) ==>
      tail.Some? && !TailBefore(Tail(n.groups, n.fraction), tail.value)
  {
    forall n: Numeral | n.whole == d && IsNumeral(s, p, n, unit)
      ensures tail.Some? && !TailBefore(Tail(n.groups, n.fraction), tail.value)
    {
      assert TailOk(s, p + d, Tail(n.groups, n.fraction), unit);
    }
  }

  /** `[0-9]{1,3}` holding at most `d` digits, giving them back one at a time, then the tail. */
  function WholeFrom(s: string, p: nat, d: nat, unit: bool): (r: Option<Numeral>)
    requires 1 <= d <= 3 && DigitsAt(s, p, d)
    ensures r.Some? ==> r.value.whole <= d && IsNumeral(s, p, r.value, unit)
    decreases d
  {
    var tail := GroupsThen(s, p + d, unit);
    if tail.Some? then Some(Numeral(d, tail.value.groups, tail.value.fraction))
    else if d == 1 then None
    else WholeFrom(s, p, d - 1, unit)
  }

  /** No numeral of at most `d` whole digits is tried before the one `WholeFrom` returns. */
  lemma {:induction false} WholeFromComplete(s: string, p: nat, d: nat, unit: bool)
    requires 1 <= d <= 3 && DigitsAt(s, p, d)
    ensures forall n: Numeral :: n.whole <= d && IsNumeral(s, p, n, unit) ==>
      WholeFrom(s, p, d, unit).Some? && !NumeralBefore(n, WholeFrom(s, p, d, unit).value)
    decreases d
  {
    var tail := GroupsThen(s, p + d, unit);
    WholeTails(s, p, d, unit, tail);
    if tail.None? && d > 1 {
      WholeFromComplete(s, p, d - 1, unit);
    }
  }

  /** Group 1 of AMOUNT_RE (or of the bare numeral) for a match starting at `p`. */
  function NumeralAt(s: string, p: nat, unit: bool): (r: Option<Numeral>)
    ensures r.Some? ==> IsNumeral(s, p, r.value, unit)
    ensures r.Some? ==> forall n: Numeral :: IsNumeral(s, p, n, unit) ==> !NumeralBefore(n, r.value)
    ensures r.None? ==> forall n: Numeral :: !IsNumeral(s, p, n, unit)
  {
    if p < |s| && IsDigit(s[p]) then
      var d := if Span(s, p, Digit) < 3 then Span(s, p, Digit) else 3;
      WholeWithinSpan(s, p, unit);
      WholeFromComplete(s, p, d, unit);
      WholeFrom(s, p, d, unit)
    else None
  }

  lemma WholeWithinSpan(s: string, p: nat, unit: bool)
    requires p <= |s|
    ensures forall n: Numeral :: IsNumeral(s, p, n, unit) ==> n.whole <= Span(s, p, Digit)
  {
    forall n: Numeral | IsNumeral(s, p, n, unit) ensures n.whole <= Span(s, p, Digit) {
      DigitsWithinSpan(s, p, n.whole);
    }
  }

  /** Every character of a repetition of groups is a digit or a separator. */
  lemma {:induction false} GroupsChars(s: string, e: nat, g: nat)
    requires e <= |s| && GroupsAt(s, e, g)
    ensures e + 4 * g <= |s|
    ensures forall i :: e <= i < e + 4 * g ==> IsDigit(s[i]) || s[i] == ',' || s[i] == '.'
    decreases g
  {
    if g > 0 {
      GroupsChars(s, e + 4, g - 1);
    }
  }

  /** The text of group 1 is made of digits, commas and dots, and starts with a digit. */
  lemma NumeralChars(s: string, p: nat, n: Numeral, unit: bool)
    requires IsNumeral(s, p, n, unit)
    ensures p < NumeralEnd(p, n) <= |s| && IsDigit(s[p])
    ensures forall i :: p <= i < NumeralEnd(p, n) ==> IsDigit(s[i]) || s[i] == ',' || s[i] == '.'
  {
    GroupsChars(s, p + n.whole, n.groups);
  }

  // ---------------------------------------------------------------------------------------
  // SENDER_RE   = from\s+([A-Za-z0-9 \-\.\']+?)\s*(?:\(|on|TxId|has|to), IGNORECASE
  // RECEIVER_RE = to\s+([A-Za-z0-9 \-\.\']+?)\s*(?:\d+|\(|has|at), IGNORECASE

  const FromLabel: string := "from"
  const ToLabel: string := "to"

  function SenderTerms(): (terms: seq<Term>)
    ensures WellFormedTerms(terms)
  {
    [Lit("("), Lit("on"), Lit("txid"), Lit("has"), Lit("to")]
  }

  function ReceiverTerms(): (terms: seq<Term>)
    ensures WellFormedTerms(terms)
  {
    [Digits, Lit("("), Lit("has"), Lit("at")]
  }

  /** Group 1 could be `s[lo..hi]`: name characters, then `\s*` and one of the alternatives. */
  predicate NameCandidate(s: string, lo: nat, hi: nat, terms: seq<Term>) {
    lo < hi <= |s| && (forall i :: lo <= i < hi ==> In(s[i], NameChar))
    && TermsAfterSpaces(s, hi, terms)
  }

  /** `c` is tried before `d`: a later start (more of `\s+`) first, then a shorter group. */
  predicate NameBefore(c: Capture, d: Capture) {
    c.lo > d.lo || (c.lo == d.lo && c.hi < d.hi)
  }

  /** The lazy `+?` from `lo`, having reached `i`: stop at `i` when the tail matches, else take one more. */
  function LazyEnd(s: string, lo: nat, i: nat, terms: seq<Term>): (r: Option<nat>)
    requires WellFormedTerms(terms)
    requires lo < i <= |s| && forall j :: lo <= j < i ==> In(s[j], NameChar)
    ensures r.Some? ==> i <= r.value && NameCandidate(s, lo, r.value, terms)
    ensures forall h: nat :: i <= h && NameCandidate(s, lo, h, terms) ==> r.Some? && r.value <= h
    decreases |s| - i
  {
    if TermsAfterSpaces(s, i, terms) then Some(i)
    else if i < |s| && In(s[i], NameChar) then LazyEnd(s, lo, i + 1, terms)
    else None
  }

  /** The shortest group starting at `lo` after which the tail matches. */
  function LazyName(s: string, lo: nat, terms: seq<Term>): (r: Option<nat>)
    requires WellFormedTerms(terms) && lo <= |s|
    ensures r.Some? ==> NameCandidate(s, lo, r.value, terms)
    ensures forall h: nat :: NameCandidate(s, lo, h, terms) ==> r.Some? && r.value <= h
  {
    if lo < |s| && In(s[lo], NameChar) then LazyEnd(s, lo, lo + 1, terms) else None
  }

  /** `\s+` after the label ending at `e` holding at most `w` characters, giving them back one at a time. */
  function NameFrom(s: string, e: nat, w: nat, terms: seq<Term>): (r: Option<Capture>)
    requires WellFormedTerms(terms)
    requires e <= |s| && 1 <= w <= Span(s, e, Space)
    ensures r.Some? ==> e < r.value.lo <= e + w && NameCandidate(s, r.value.lo, r.value.hi, terms)
    ensures forall c: Capture :: e < c.lo <= e + w && NameCandidate(s, c.lo, c.hi, terms) ==>
      r.Some? && !NameBefore(c, r.value)
    decreases w
  {
    var h := LazyName(s, e + w, terms);
    if h.Some? then Some(Capture(e + w, h.value))
    else if w == 1 then None
    else NameFrom(s, e, w - 1, terms)
  }

  /** The literal `word` at `p`, then `\s+` ending at `lo` inside or at the end of the whitespace run, then a candidate. */
  predicate NameShape(s: string, p: nat, word: string, terms: seq<Term>, c: Capture) {
    LitAt(s, p, word)
    && (LitAtWithin(s, p, word); p + |word| < c.lo <= p + |word| + Span(s, p + |word|, Space))
    && NameCandidate(s, c.lo, c.hi, terms)
  }

  /** Group 1 of SENDER_RE or RECEIVER_RE for a match starting at `p`. */
  function NameAt(s: string, p: nat, word: string, terms: seq<Term>): (r: Option<Capture>)
    requires WellFormedTerms(terms)
    ensures r.Some? ==> NameShape(s, p, word, terms, r.value)
    ensures r.Some? ==> forall c: Capture :: NameShape(s, p, word, terms, c) ==> !NameBefore(c, r.value)
    ensures r.None? ==> forall c: Capture :: !NameShape(s, p, word, terms, c)
  {
    if !LitAt(s, p, word) then None
    else
      LitAtWithin(s, p, word);
      if Span(s, p + |word|, Space) >= 1 then NameFrom(s, p + |word|, Span(s, p + |word|, Space), terms) else None
  }

  // ---------------------------------------------------------------------------------------
  // DATE_RE = (\d{4}-\d{2}-\d{2}\s+\d{2}:\d{2}:\d{2})

  /** `\d{4}-\d{2}-\d{2}` at `p`. */
  predicate CalendarAt(s: string, p: nat) {
    DigitsAt(s, p, 4) && CharAt(s, p + 4, '-') && DigitsAt(s, p + 5, 2) && CharAt(s, p + 7, '-') && DigitsAt(s, p + 8, 2)
  }

  /** `\d{2}:\d{2}:\d{2}` at `t`. */
  predicate ClockAt(s: string, t: nat) {
    DigitsAt(s, t, 2) && CharAt(s, t + 2, ':') && DigitsAt(s, t + 3, 2) && CharAt(s, t + 5, ':') && DigitsAt(s, t + 6, 2)
  }

  /** DATE_RE matches exactly `s[p..q]`: a date, at least one whitespace character, a time. */
  predicate IsDateText(s: string, p: nat, q: nat) {
    p + 19 <= q <= |s| && CalendarAt(s, p) && (forall i :: p + 10 <= i < q - 8 ==> IsSpace(s[i])) && ClockAt(s, q - 8)
  }

  /** `\s+` after the date ending at `e` holding `w` characters, giving them back one at a time. */
  function ClockFrom(s: string, e: nat, w: nat): (r: Option<nat>)
    requires e <= |s| && 1 <= w <= Span(s, e, Space)
    ensures r == if w == Span(s, e, Space) && ClockAt(s, e + w) then Some(e + w + 8) else None
    decreases w
  {
    assert w < Span(s, e, Space) ==> In(s[e + w], Space);
    if ClockAt(s, e + w) then Some(e + w + 8)
    else if w == 1 then None
    else ClockFrom(s, e, w - 1)
  }

  /** The end of the match of DATE_RE at `p`. */
  function DateAt(s: string, p: nat): (r: Option<nat>)
    ensures r.Some? ==> IsDateText(s, p, r.value)
    ensures r.None? ==> forall q: nat :: !IsDateText(s, p, q)
  {
    DateTextEnd(s, p);
    if CalendarAt(s, p) && Span(s, p + 10, Space) >= 1 then ClockFrom(s, p + 10, Span(s, p + 10, Space))
    else None
  }

  /** The whitespace of a date text is its whole whitespace run. */
  lemma DateTextEnd(s: string, p: nat)
    ensures forall q: nat :: IsDateText(s, p, q) ==> q - 8 == p + 10 + Span(s, p + 10, Space)
  {
    forall q: nat | IsDateText(s, p, q) ensures q - 8 == p + 10 + Span(s, p + 10, Space) {
      SpanOfRun(s, p + 10, q - 8 - (p + 10), Space);
    }
  }

  // ---------------------------------------------------------------------------------------
  // Searching

  /** The compiled patterns of dsa/parse_xml.py; `NumeralRe` is the fallback pattern of line 82. */
  datatype Pattern = TxIdRe | AmountRe | NumeralRe | SenderRe | ReceiverRe | DateRe

  /** Group 1 of a match of `pat` starting at `p`, if the pattern matches there. */
  function MatchAt(pat: Pattern, s: string, p: nat): (r: Option<Capture>)
    ensures r.Some? ==> p <= r.value.lo <= r.value.hi <= |s|
  {
    match pat
    case TxIdRe => TxIdAt(s, p)
    case AmountRe => (match NumeralAt(s, p, true) case Some(n) => NumeralChars(s, p, n, true); Some(Capture(p, NumeralEnd(p, n))) case None => None)
    case NumeralRe => (match NumeralAt(s, p, false) case Some(n) => NumeralChars(s, p, n, false); Some(Capture(p, NumeralEnd(p, n))) case None => None)
    case SenderRe => NameAt(s, p, FromLabel, SenderTerms())
    case ReceiverRe => NameAt(s, p, ToLabel, ReceiverTerms())
    case DateRe => (match DateAt(s, p) case Some(q) => Some(Capture(p, q)) case None => None)
  }

  /** What `pat` matches at each start position of `s`, the end of the text included. */
  function Results(pat: Pattern, s: string): (r: seq<Option<Capture>>)
    ensures |r| == |s| + 1
    ensures forall q :: 0 <= q < |r| ==> r[q] == MatchAt(pat, s, q)
  {
    seq(|s| + 1, (q: int) requires 0 <= q => MatchAt(pat, s, q))
  }

  /** The first position from `from` on at which `results` holds a match. */
  function FirstMatch(results: seq<Option<Capture>>, from: nat): (r: Option<Match>)
    requires from <= |results|
    ensures r.Some? ==> from <= r.value.start < |results| && results[r.value.start] == Some(r.value.group)
    ensures r.Some? ==> forall q :: from <= q < r.value.start ==> results[q].None?
    ensures r.None? ==> forall q :: from <= q < |results| ==> results[q].None?
    decreases |results| - from
  {
    if from == |results| then None
    else match results[from]
      case Some(c) => Some(Match(from, c))
      case None => FirstMatch(results, from + 1)
  }

  /** `pattern.search(s)`: start positions are tried left to right, and the first match wins. */
  function Search(pat: Pattern, s: string): (r: Option<Match>)
    ensures r.Some? ==> r.value.start <= |s| && MatchAt(pat, s, r.value.start) == Some(r.value.group)
    ensures r.Some? ==> forall q: nat :: q < r.value.start ==> MatchAt(pat, s, q).None?
    ensures r.None? ==> forall q: nat :: q <= |s| ==> MatchAt(pat, s, q).None?
  {
    FirstMatch(Results(pat, s), 0)
  }

  /** The text group 1 captured. */
  function Group(s: string, c: Capture): string {
    if c.lo <= c.hi <= |s| then s[c.lo..c.hi] else ""
  }

  // ---------------------------------------------------------------------------------------
  // What each search finds, stated without the matchers

  /** A labelled id whose label starts at `p`, with no labelled id starting earlier. */
  ghost predicate FirstLabelledId(s: string, p: nat, c: Capture) {
    IsLabelledId(s, p, c) && forall q: nat, d: Capture :: q < p ==> !IsLabelledId(s, q, d)
  }

  /** A match at `p`, with none before it, is what the search finds. */
  lemma SearchFinds(pat: Pattern, s: string, p: nat, c: Capture)
    requires p <= |s| && MatchAt(pat, s, p) == Some(c)
    requires forall q: nat :: q < p ==> MatchAt(pat, s, q).None?
    ensures Search(pat, s) == Some(Match(p, c))
  {
  }

  /** Cleared of matches everywhere, the search finds nothing. */
  lemma SearchFailsWhenNoMatch(pat: Pattern, s: string)
    requires forall q: nat :: q <= |s| ==> MatchAt(pat, s, q).None?
    ensures Search(pat, s).None?
  {
  }

  /** Separators are never id characters, so the id after a label is determined by the label. */
  lemma IdAfterUnique(s: string, e: nat, c: Capture, d: Capture)
    requires IdAfter(s, e, c) && IdAfter(s, e, d)
    ensures c == d
  {
    IdAfterNotBefore(s, e, c, d);
    IdAfterNotBefore(s, e, d, c);
  }

  lemma IdAfterNotBefore(s: string, e: nat, c: Capture, d: Capture)
    requires IdAfter(s, e, c) && IdAfter(s, e, d)
    ensures c.lo >= d.lo && (c.lo == d.lo ==> c.hi >= d.hi)
  {
    assert In(s[c.lo], IdChar);
    assert c.hi < |s| ==> !In(s[c.hi], IdChar);
  }

  /** The two labels of TXID_RE begin with different letters. */
  lemma LabelsExclusive(s: string, p: nat)
    ensures !(LitAt(s, p, TxIdLabel) && LitAt(s, p, FinancialLabel))
  {
    if LitAt(s, p, TxIdLabel) && p < |s| {
      assert Lower(s[p]) == TxIdLabel[0] && TxIdLabel[0] == 't';
      assert FinancialLabel[0] == 'f';
    }
  }

  lemma LabelledIdUnique(s: string, p: nat, c: Capture, d: Capture)
    requires IsLabelledId(s, p, c) && IsLabelledId(s, p, d)
    ensures c == d
  {
    LabelsExclusive(s, p);
    if LitAt(s, p, TxIdLabel) {
      IdAfterUnique(s, p + |TxIdLabel|, c, d);
    } else {
      IdAfterUnique(s, p + |FinancialLabel|, c, d);
    }
  }

  /** TXID_RE's search finds the first labelled id, and nothing when there is none. */
  lemma SearchTxId(s: string)
    ensures Search(TxIdRe, s).None? <==> forall p: nat, c: Capture :: !IsLabelledId(s, p, c)
    ensures forall p: nat, c: Capture :: FirstLabelledId(s, p, c) ==> Search(TxIdRe, s) == Some(Match(p, c))
  {
    forall p: nat, c: Capture | Search(TxIdRe, s).None? && p <= |s| ensures !IsLabelledId(s, p, c) {
      assert MatchAt(TxIdRe, s, p).None?;
    }
    forall p: nat, c: Capture | FirstLabelledId(s, p, c) ensures Search(TxIdRe, s) == Some(Match(p, c)) {
      var r := TxIdAt(s, p);
      LabelledIdUnique(s, p, c, r.value);
      SearchFinds(TxIdRe, s, p, c);
    }
  }

  /** The leftmost start at which group 1 can be `n`, and `n` the engine's first choice there. */
  ghost predicate FirstNumeral(s: string, p: nat, n: Numeral, unit: bool) {
    IsNumeral(s, p, n, unit)
    && (forall m: Numeral :: IsNumeral(s, p, m, unit) ==> !NumeralBefore(m, n))
    && (forall q: nat, m: Numeral :: q < p ==> !IsNumeral(s, q, m, unit))
  }

  /** AMOUNT_RE, or the bare numeral of the fallback. */
  function NumeralPattern(unit: bool): Pattern {
    if unit then AmountRe else NumeralRe
  }

  /** A numeral match at `p` captures the engine's first choice of numeral at `p`. */
  lemma NumeralMatch(s: string, p: nat, unit: bool)
    ensures MatchAt(NumeralPattern(unit), s, p).Some? <==> NumeralAt(s, p, unit).Some?
    ensures MatchAt(NumeralPattern(unit), s, p).Some? ==>
      MatchAt(NumeralPattern(unit), s, p).value == Capture(p, NumeralEnd(p, NumeralAt(s, p, unit).value))
  {
  }

  /** The numeral search finds the engine's first choice at the leftmost start, and nothing when there is no numeral. */
  lemma SearchNumeral(s: string, unit: bool)
    ensures Search(NumeralPattern(unit), s).None? <==> forall p: nat, n: Numeral :: !IsNumeral(s, p, n, unit)
    ensures forall p: nat, n: Numeral :: FirstNumeral(s, p, n, unit) ==>
      Search(NumeralPattern(unit), s) == Some(Match(p, Capture(p, NumeralEnd(p, n)))) && NumeralAt(s, p, unit) == Some(n)
  {
    var pat := NumeralPattern(unit);
    forall q: nat ensures MatchAt(pat, s, q).Some? ==> IsNumeral(s, q, NumeralAt(s, q, unit).value, unit) {
      NumeralMatch(s, q, unit);
    }
    forall p: nat, n: Numeral | Search(pat, s).None? && p <= |s| ensures !IsNumeral(s, p, n, unit) {
      NumeralMatch(s, p, unit);
    }
    forall p: nat, n: Numeral | FirstNumeral(s, p, n, unit)
      ensures Search(pat, s) == Some(Match(p, Capture(p, NumeralEnd(p, n)))) && NumeralAt(s, p, unit) == Some(n)
    {
      NumeralChars(s, p, n, unit);
      NumeralMatch(s, p, unit);
      assert NumeralAt(s, p, unit) == Some(n);
      SearchFinds(pat, s, p, Capture(p, NumeralEnd(p, n)));
    }
  }

  /** A leftmost match of SENDER_RE or RECEIVER_RE, holding the engine's first choice of group 1. */
  ghost predicate FirstName(s: string, word: string, terms: seq<Term>, p: nat, c: Capture) {
    NameShape(s, p, word, terms, c)
    && (forall d: Capture :: NameShape(s, p, word, terms, d) ==> !NameBefore(d, c))
    && (forall q: nat, d: Capture :: q < p ==> !NameShape(s, q, word, terms, d))
  }

  predicate IsNamePattern(pat: Pattern) {
    pat == SenderRe || pat == ReceiverRe
  }

  function NameWord(pat: Pattern): string
    requires IsNamePattern(pat)
  {
    if pat == SenderRe then FromLabel else ToLabel
  }

  function NameTerms(pat: Pattern): (terms: seq<Term>)
    requires IsNamePattern(pat)
    ensures WellFormedTerms(terms)
  {
    if pat == SenderRe then SenderTerms() else ReceiverTerms()
  }

  lemma NameMatch(s: string, p: nat, pat: Pattern)
    requires IsNamePattern(pat)
    ensures MatchAt(pat, s, p) == NameAt(s, p, NameWord(pat), NameTerms(pat))
  {
  }

  lemma NameMatches(s: string, pat: Pattern)
    requires IsNamePattern(pat)
    ensures forall q: nat :: MatchAt(pat, s, q) == NameAt(s, q, NameWord(pat), NameTerms(pat))
  {
    forall q: nat ensures MatchAt(pat, s, q) == NameAt(s, q, NameWord(pat), NameTerms(pat)) {
      NameMatch(s, q, pat);
    }
  }

  /** The name search finds the engine's first choice at the leftmost start, and nothing when no name follows the word. */
  lemma SearchName(s: string, pat: Pattern)
    requires IsNamePattern(pat)
    ensures Search(pat, s).None? <==> forall p: nat, c: Capture :: !NameShape(s, p, NameWord(pat), NameTerms(pat), c)
    ensures forall p: nat, c: Capture :: FirstName(s, NameWord(pat), NameTerms(pat), p, c) ==> Search(pat, s) == Some(Match(p, c))
  {
    NameMatches(s, pat);
    forall p: nat, c: Capture | Search(pat, s).None? && p <= |s| ensures !NameShape(s, p, NameWord(pat), NameTerms(pat), c) {
      assert MatchAt(pat, s, p).None?;
    }
    forall p: nat, c: Capture | FirstName(s, NameWord(pat), NameTerms(pat), p, c) ensures Search(pat, s) == Some(Match(p, c)) {
      FirstNameFound(s, pat, p, c);
    }
  }

  lemma FirstNameFound(s: string, pat: Pattern, p: nat, c: Capture)
    requires IsNamePattern(pat) && FirstName(s, NameWord(pat), NameTerms(pat), p, c)
    ensures Search(pat, s) == Some(Match(p, c))
  {
    var word, terms := NameWord(pat), NameTerms(pat);
    NameMatches(s, pat);
    var r := NameAt(s, p, word, terms);
    assert r == Some(c);
    forall q: nat | q < p ensures MatchAt(pat, s, q).None? {
      assert forall d: Capture :: !NameShape(s, q, word, terms, d);
    }
    SearchFinds(pat, s, p, c);
  }

  /** A date text starting at `p`, with none starting earlier. */
  ghost predicate FirstDate(s: string, p: nat, q: nat) {
    IsDateText(s, p, q) && forall p': nat, q': nat :: p' < p ==> !IsDateText(s, p', q')
  }

  /** DATE_RE's search finds the first date text, and nothing when there is none. */
  lemma SearchDate(s: string)
    ensures Search(DateRe, s).None? <==> forall p: nat, q: nat :: !IsDateText(s, p, q)
    ensures forall p: nat, q: nat :: FirstDate(s, p, q) ==> Search(DateRe, s) == Some(Match(p, Capture(p, q)))
  {
    forall q: nat ensures MatchAt(DateRe, s, q).Some? ==> IsDateText(s, q, DateAt(s, q).value) {
    }
    forall p: nat, q: nat | Search(DateRe, s).None? && p <= |s| ensures !IsDateText(s, p, q) {
      assert MatchAt(DateRe, s, p).None?;
    }
    forall p: nat, q: nat | FirstDate(s, p, q) ensures Search(DateRe, s) == Some(Match(p, Capture(p, q))) {
      DateTextEnd(s, p);
      assert DateAt(s, p) == Some(q);
      SearchFinds(DateRe, s, p, Capture(p, q));
    }
  }
}
