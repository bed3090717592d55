/**
 * The per-message loop of `parse_xml_to_json` (dsa/parse_xml.py:58-92), over the attribute
 * maps of the `sms` elements in document order: each message gives one transaction record,
 * built from its attributes, with the parsed fields merged over them, a positional id when
 * none was found, and a looser amount when the first search gave none.
 */
module SmsBatch {
  import opened Wrappers
  import opened Text
  import opened Json
  import opened SmsPatterns
  import opened SmsParse

  /** The attributes of one `sms` element. */
  type Attrs = map<string, string>

  // ---------------------------------------------------------------------------------------
  // int() in base 10

  /** `digit ('_'? digit)*`: digits with single underscores between them, as `int` accepts after the sign. */
  predicate IntDigits(d: string)
    decreases |d|
  {
    d != [] && IsDigit(d[0])
    && (|d| == 1 || IntDigits(d[1..]) || (d[1] == '_' && IntDigits(d[2..])))
  }

  /** Dropping the underscores leaves a non-empty digit string. */
  lemma {:induction false} DigitsWithoutUnderscores(d: string)
    requires IntDigits(d)
    ensures AllDigits(Remove(d, '_')) && Remove(d, '_') != []
    decreases |d|
  {
    var head := [d[0]];
    assert Remove(head, '_') == head;
    assert d == head + d[1..];
    RemoveAppend(head, d[1..], '_');
    if |d| == 1 {
      assert d[1..] == [];
    } else if IntDigits(d[1..]) {
      DigitsWithoutUnderscores(d[1..]);
      AllDigitsAppend(head, Remove(d[1..], '_'));
    } else {
      var rest := d[2..];
      DigitsWithoutUnderscores(rest);
      assert d[1..] == "_" + rest;
      RemoveAppend("_", rest, '_');
      assert Remove("_", '_') == [];
      AllDigitsAppend(head, Remove(rest, '_'));
    }
  }

  /** A plain digit string has nothing to strip and no underscore to drop. */
  lemma PlainDigits(s: string)
    ensures s != [] && AllDigits(s) ==> Strip(s) == s && Remove(s, '_') == s && IntDigits(s)
  {
    if s != [] && AllDigits(s) {
      assert !IsSpace(s[0]) && !IsSpace(s[|s| - 1]);
      StripTrimmed(s);
      assert '_' !in s by { assert forall i :: 0 <= i < |s| ==> IsDigit(s[i]); }
      DigitsAreIntDigits(s);
    }
  }

  lemma {:induction false} DigitsAreIntDigits(s: string)
    requires s != [] && AllDigits(s)
    ensures IntDigits(s)
    decreases |s|
  {
    if |s| > 1 {
      var rest := s[1..];
      assert forall i :: 0 <= i < |rest| ==> rest[i] == s[i + 1];
      DigitsAreIntDigits(rest);
    }
  }

  /** The text after an optional sign. */
  function Unsigned(t: string): (d: string)
    ensures |d| <= |t|
  {
    if t != [] && (t[0] == '-' || t[0] == '+') then t[1..] else t
  }

  /** The value of digits with underscores. */
  function IntValue(d: string): nat
    requires IntDigits(d)
  {
    DigitsWithoutUnderscores(d);
    DigitsValue(Remove(d, '_'))
  }

  /**
   * `int(s)`: surrounding whitespace (`Text.IsSpace`) is ignored, then an optional sign and decimal digits,
   * with leading zeros and single underscores between digits allowed; anything else is the
   * `ValueError`, here `None`.
   */
  function ParseInt(s: string): (r: Option<int>)
    ensures r.Some? ==> exists i :: 0 <= i < |s| && IsDigit(s[i])
  {
    var t := Strip(s);
    if IntDigits(Unsigned(t)) then
      UnsignedHead(s);
      var v: int := IntValue(Unsigned(t));
      Some(if t[0] == '-' then -v else v)
    else None
  }

  /** Plain digits are read as their value, and a text without a digit is refused. */
  lemma ParseIntPlain(s: string)
    ensures s != [] && AllDigits(s) ==> ParseInt(s) == Some(DigitsValue(s))
    ensures (forall i :: 0 <= i < |s| ==> !IsDigit(s[i])) ==> ParseInt(s).None?
  {
    if s != [] && AllDigits(s) {
      PlainDigits(s);
      PositiveValue(s);
    }
    if IntDigits(Unsigned(Strip(s))) {
      UnsignedHead(s);
    }
  }

  /** A base prefix such as `0x`, `0o` or `0b` is refused: `int` reads base 10 only. */
  lemma PrefixedRefused(prefix: string, digits: string)
    requires prefix in {"0x", "0X", "0o", "0O", "0b", "0B"}
    requires digits != [] && AllDigits(digits)
    ensures ParseInt(prefix + digits).None?
  {
    var t := prefix + digits;
    StripTrimmed(t);
    assert Unsigned(t) == t;
    assert |prefix| == 2 && !IsDigit(prefix[1]) && prefix[1] != '_';
    assert t[1] == t[1..][0] == prefix[1];
    assert !IntDigits(t[1..]);
    assert !IntDigits(t);
  }

  /** Plain digits, with nothing to strip, sign or underscore, read as their value. */
  lemma PositiveValue(s: string)
    requires s != [] && AllDigits(s) && Strip(s) == s && IntDigits(s) && Remove(s, '_') == s
    ensures ParseInt(s) == Some(DigitsValue(s))
  {
    assert !(s[0] == '-' || s[0] == '+');
    assert Unsigned(s) == s;
  }

  /** The first character after the sign is a character of the text. */
  lemma UnsignedHead(s: string)
    requires Unsigned(Strip(s)) != []
    ensures Unsigned(Strip(s))[0] in s
  {
    var t := Strip(s);
    var d := Unsigned(t);
    var j := LeadingSpaces(s) + |t| - |d|;
    assert d[0] == t[|t| - |d|];
    assert t[|t| - |d|] == s[j];
  }

  /** `str(n)` for any integer. */
  function IntToString(n: int): (r: string)
    ensures r != []
  {
    if n < 0 then "-" + NatToString(-n) else NatToString(n)
  }

  /** `int(str(n)) == n`. */
  lemma IntRoundTrip(n: int)
    ensures ParseInt(IntToString(n)) == Some(n)
  {
    if n < 0 {
      SignedRoundTrip(NatToString(-n));
    } else {
      ParseIntPlain(NatToString(n));
    }
  }

  lemma SignedRoundTrip(digits: string)
    requires digits != [] && AllDigits(digits)
    ensures ParseInt("-" + digits) == Some(-(DigitsValue(digits) as int))
  {
    SignedText(digits);
    PlainDigits(digits);
    NegativeValue("-" + digits, digits);
  }

  /** A minus sign, nothing to strip, then plain digits: the negated value. */
  lemma NegativeValue(s: string, digits: string)
    requires s != [] && s[0] == '-' && Strip(s) == s && Unsigned(s) == digits
    requires AllDigits(digits) && IntDigits(digits) && Remove(digits, '_') == digits
    ensures ParseInt(s) == Some(-(DigitsValue(digits) as int))
  {
  }

  /** A minus sign before digits: nothing to strip, and the digits follow the sign. */
  lemma SignedText(digits: string)
    requires digits != [] && AllDigits(digits)
    ensures var s := "-" + digits; Strip(s) == s && s[0] == '-' && Unsigned(s) == digits
  {
    var s := "-" + digits;
    assert !IsSpace(s[0]) && !IsSpace(s[|s| - 1]) by { assert s[|s| - 1] == digits[|digits| - 1]; }
    StripTrimmed(s);
    assert s[1..] == digits;
  }

  // ---------------------------------------------------------------------------------------
  // One record

  /** `attrs.get(key, default)` */
  function AttrOr(attrs: Attrs, key: string, default: string): string {
    if key in attrs then attrs[key] else default
  }

  /** `attrs.get(key)`, `None` when the attribute is absent. */
  function AttrValue(attrs: Attrs, key: string): Json {
    if key in attrs then JStr(attrs[key]) else JNull
  }

  function BodyOf(attrs: Attrs): string {
    AttrOr(attrs, "body", "")
  }

  function ProtocolOf(attrs: Attrs): string {
    AttrOr(attrs, "protocol", "0")
  }

  /** How an f-string prints `attrs.get('date')`. */
  function Show(v: Json): string {
    match v
    case JStr(s) => s
    case _ => "None"
  }

  /** The positional id `GEN-<date>-<n>`. */
  function GenId(date: Json, n: nat): (id: string)
    ensures StartsWith(id, "GEN-") && EndsWith(id, "-" + NatToString(n))
  {
    "GEN-" + Show(date) + "-" + NatToString(n)
  }

  /** The text after the last `-` of a generated id is its position. */
  lemma GenIdSuffix(date: Json, n: nat)
    ensures var parts := Split(GenId(date, n), '-'); parts[|parts| - 1] == NatToString(n)
  {
    var digits := NatToString(n);
    assert '-' !in digits by { assert forall i :: 0 <= i < |digits| ==> IsDigit(digits[i]); }
    SplitLast("GEN-" + Show(date), '-', digits);
  }

  /** Generated ids at different positions differ, whatever the dates. */
  lemma GenIdsDistinct(d1: Json, m: nat, d2: Json, n: nat)
    requires m != n
    ensures GenId(d1, m) != GenId(d2, n)
  {
    GenIdSuffix(d1, m);
    GenIdSuffix(d2, n);
    if GenId(d1, m) == GenId(d2, n) {
      NatToStringInjective(m, n);
    }
  }

  function OptStr(v: Option<string>): Json {
    match v
    case Some(s) => JStr(s)
    case None => JNull
  }

  function OptReal(v: Option<real>): Json {
    match v
    case Some(x) => JFloat(x)
    case None => JNull
  }

  /** The dictionary of message metadata (dsa/parse_xml.py:67-75); `int(...) ^ 0` is the integer itself. */
  function Metadata(attrs: Attrs, smsId: int): Record {
    map[
      "sms_id" := JInt(smsId),
      "raw_address" := AttrValue(attrs, "address"),
      "raw_date" := AttrValue(attrs, "date"),
      "readable_date" := AttrValue(attrs, "readable_date"),
      "service_center" := AttrValue(attrs, "service_center"),
      "body" := JStr(BodyOf(attrs)),
      "contact_name" := AttrValue(attrs, "contact_name")]
  }

  /** `parse_sms_body`'s dictionary, `None` as JSON `null`. */
  function ParsedRecord(f: SmsFields): Record {
    map[
      TransactionId := OptStr(f.transactionId),
      "amount" := OptReal(f.amount),
      "sender" := OptStr(f.sender),
      "receiver" := OptStr(f.receiver),
      "tx_timestamp" := OptStr(f.txTimestamp)]
  }

  /** The keys every transaction record holds. */
  const RecordKeys: set<string> := {
    "sms_id", "raw_address", "raw_date", "readable_date", "service_center", "body", "contact_name",
    TransactionId, "amount", "sender", "receiver", "tx_timestamp"}

  /**
   * The parsed fields once the loop has filled them in: a found (non-empty) id is kept and
   * otherwise the positional id of the `k + 1`-th record is generated from `date`; the
   * amount found is kept and otherwise the looser `fallback` is taken.
   */
  function Completed(f: SmsFields, date: Json, fallback: Option<real>, k: nat): SmsFields {
    f.(transactionId := Some(if f.transactionId.Some? && f.transactionId.value != [] then f.transactionId.value else GenId(date, k + 1)),
       amount := if f.amount.Some? then f.amount else fallback)
  }

  /**
   * The record of the message with attributes `attrs`, parsed fields `f`, looser amount
   * `fallback` and `sms_id` `smsId`, when `k` records precede it: the metadata with the
   * completed fields over it.
   */
  function Transaction(attrs: Attrs, f: SmsFields, fallback: Option<real>, smsId: int, k: nat): (r: Record)
    ensures TransactionId in r && r[TransactionId].JStr?
  {
    Metadata(attrs, smsId) + ParsedRecord(Completed(f, AttrValue(attrs, "date"), fallback, k))
  }

  /** Two messages without a found id, at different positions, never get the same id. */
  lemma GeneratedIdsDistinct(a1: Attrs, f1: SmsFields, x1: Option<real>, id1: int, i: nat,
                             a2: Attrs, f2: SmsFields, x2: Option<real>, id2: int, j: nat)
    requires f1.transactionId.None? && f2.transactionId.None? && i != j
    ensures Transaction(a1, f1, x1, id1, i)[TransactionId] != Transaction(a2, f2, x2, id2, j)[TransactionId]
  {
    GenIdsDistinct(AttrValue(a1, "date"), i + 1, AttrValue(a2, "date"), j + 1);
    GeneratedId(a1, f1, x1, id1, i);
    GeneratedId(a2, f2, x2, id2, j);
  }

  /** A message without a found id gets the positional id of its place in the output. */
  lemma GeneratedId(a: Attrs, f: SmsFields, x: Option<real>, smsId: int, k: nat)
    requires f.transactionId.None? || f.transactionId == Some([])
    ensures Transaction(a, f, x, smsId, k)[TransactionId] == JStr(GenId(AttrValue(a, "date"), k + 1))
  {
  }

  /** What the loop makes of the message with attributes `attrs` after `k` records; `None` is the `ValueError`. */
  function Expected(attrs: Attrs, k: nat): (r: Option<Record>)
    requires IsAscii(BodyOf(attrs))
    ensures r.Some? <==> ParseInt(ProtocolOf(attrs)).Some?
  {
    var smsId := ParseInt(ProtocolOf(attrs));
    if smsId.None? then None
    else Some(Transaction(attrs, ParseSmsBody(BodyOf(attrs)), FallbackAmount(BodyOf(attrs)), smsId.value, k))
  }

  /** A transaction record holds exactly the metadata keys and the parsed keys. */
  lemma TransactionKeys(attrs: Attrs, f: SmsFields, x: Option<real>, smsId: int, k: nat)
    ensures Transaction(attrs, f, x, smsId, k).Keys == RecordKeys
  {
  }

  /** The metadata survives the merge: `sms_id`, the raw date and the body are the message's own. */
  lemma TransactionMetadata(attrs: Attrs, f: SmsFields, x: Option<real>, smsId: int, k: nat)
    ensures var r := Transaction(attrs, f, x, smsId, k);
      r["sms_id"] == JInt(smsId) && r["raw_date"] == AttrValue(attrs, "date") && r["body"] == JStr(BodyOf(attrs))
  {
    var r := Transaction(attrs, f, x, smsId, k);
    assert "sms_id" !in ParsedRecord(Completed(f, AttrValue(attrs, "date"), x, k));
  }

  /** A found id is never replaced. */
  lemma FoundIdKept(attrs: Attrs, f: SmsFields, x: Option<real>, smsId: int, k: nat)
    requires f.transactionId.Some? && f.transactionId.value != []
    ensures Transaction(attrs, f, x, smsId, k)[TransactionId] == JStr(f.transactionId.value)
  {
  }

  /** The looser amount is taken only when the first search gave none. */
  lemma TransactionAmount(attrs: Attrs, f: SmsFields, x: Option<real>, smsId: int, k: nat)
    ensures f.amount.Some? ==> Transaction(attrs, f, x, smsId, k)["amount"] == JFloat(f.amount.value)
    ensures f.amount.None? ==> Transaction(attrs, f, x, smsId, k)["amount"] == OptReal(x)
  {
  }

  /** The id the body names is the record's id. */
  lemma NaturalIdKept(attrs: Attrs, k: nat)
    requires IsAscii(BodyOf(attrs)) && Expected(attrs, k).Some?
    requires ParseSmsBody(BodyOf(attrs)).transactionId.Some?
    ensures Expected(attrs, k).value[TransactionId] == JStr(ParseSmsBody(BodyOf(attrs)).transactionId.value)
  {
    var body := BodyOf(attrs);
    FoundIdKept(attrs, ParseSmsBody(body), FallbackAmount(body), ParseInt(ProtocolOf(attrs)).value, k);
  }

  /** A body without a digit gives a record whose amount is `null`. */
  lemma NoDigitNoAmount(attrs: Attrs, k: nat)
    requires IsAscii(BodyOf(attrs)) && Expected(attrs, k).Some?
    requires forall i :: 0 <= i < |BodyOf(attrs)| ==> !IsDigit(BodyOf(attrs)[i])
    ensures Expected(attrs, k).value["amount"] == JNull
  {
    var body := BodyOf(attrs);
    NoDigitNoNumeral(body);
    ParseSmsBodyFields(body);
    FallbackAmountFound(body);
    TransactionAmount(attrs, ParseSmsBody(body), FallbackAmount(body), ParseInt(ProtocolOf(attrs)).value, k);
  }

  /** Without digits in the body, there is no numeral in the comma-free body either. */
  lemma NoDigitNoNumeral(body: string)
    requires forall i :: 0 <= i < |body| ==> !IsDigit(body[i])
    ensures forall p: nat, n: Numeral :: !IsNumeral(Remove(body, ','), p, n, true)
  {
    var t := Remove(body, ',');
    RemoveKeeps(body, ',');
    forall p: nat, n: Numeral ensures !IsNumeral(t, p, n, true) {
      if p < |t| {
        assert t[p] in body;
      }
    }
  }

  /** A message without a `protocol` attribute is numbered 0. */
  lemma ProtocolDefault(attrs: Attrs, k: nat)
    requires IsAscii(BodyOf(attrs)) && "protocol" !in attrs
    ensures Expected(attrs, k).Some? && Expected(attrs, k).value["sms_id"] == JInt(0)
  {
    assert ProtocolOf(attrs) == "0";
    assert AllDigits("0") && DigitsValue("0") == 0;
    ParseIntPlain("0");
    var body := BodyOf(attrs);
    TransactionMetadata(attrs, ParseSmsBody(body), FallbackAmount(body), 0, k);
  }

  // ---------------------------------------------------------------------------------------
  // The loop

  /** Updating a key of the right-hand map of a union updates the union. */
  lemma UnionUpdate<K, V>(m1: map<K, V>, m2: map<K, V>, k: K, v: V)
    requires k in m2
    ensures (m1 + m2)[k := v] == m1 + m2[k := v]
  {
  }

  /** Replacing the id or the amount in the dictionary is replacing it in the fields. */
  lemma ParsedUpdate(f: SmsFields, id: Option<string>, amount: Option<real>)
    ensures ParsedRecord(f)[TransactionId := OptStr(id)] == ParsedRecord(f.(transactionId := id))
    ensures ParsedRecord(f)["amount" := OptReal(amount)] == ParsedRecord(f.(amount := amount))
  {
  }

  /** Over the metadata, the parsed fields' keys read those fields, and `raw_date` the date. */
  lemma ParsedLookups(m: Record, f: SmsFields)
    requires "raw_date" in m
    ensures var r := m + ParsedRecord(f);
      r[TransactionId] == OptStr(f.transactionId) && r["amount"] == OptReal(f.amount) && r["raw_date"] == m["raw_date"]
  {
    assert "raw_date" !in ParsedRecord(f);
  }

  /** Every body and every `protocol` attribute is ASCII text. */
  predicate AsciiAttrs(smsList: seq<Attrs>) {
    forall i :: 0 <= i < |smsList| ==> IsAscii(BodyOf(smsList[i])) && IsAscii(ProtocolOf(smsList[i]))
  }

  /**
   * The dictionary steps of the loop body (dsa/parse_xml.py:67-87): built, updated with the
   * parsed fields, given the positional id when its id is falsy and the looser amount when
   * its amount is `None`.
   */
  method Assemble(attrs: Attrs, parsed: SmsFields, fallback: Option<real>, smsId: int, k: nat) returns (r: Record)
    ensures r == Transaction(attrs, parsed, fallback, smsId, k)
  {
    var metadata := Metadata(attrs, smsId);
    var fields := parsed;
    ghost var date := AttrValue(attrs, "date");
    r := metadata + ParsedRecord(fields);
    ParsedLookups(metadata, fields);
    if !Truthy(r[TransactionId]) {
      var id := GenId(r["raw_date"], k + 1);
      UnionUpdate(metadata, ParsedRecord(fields), TransactionId, JStr(id));
      ParsedUpdate(fields, Some(id), fields.amount);
      fields := fields.(transactionId := Some(id));
      r := r[TransactionId := JStr(id)];
    }
    ParsedLookups(metadata, fields);
    if r["amount"] == JNull {
      UnionUpdate(metadata, ParsedRecord(fields), "amount", OptReal(fallback));
      ParsedUpdate(fields, fields.transactionId, fallback);
      fields := fields.(amount := fallback);
      r := r["amount" := OptReal(fallback)];
    }
    assert fields == Completed(parsed, date, fallback, k);
  }

  /** One pass of the loop body (dsa/parse_xml.py:63-87); `None` is the `ValueError` of `int`. */
  method BuildRecord(attrs: Attrs, k: nat) returns (tx: Option<Record>)
    requires IsAscii(BodyOf(attrs))
    ensures tx == Expected(attrs, k)
  {
    var body := BodyOf(attrs);
    var smsId := ParseInt(ProtocolOf(attrs));
    if smsId.None? {
      return None;
    }
    var r := Assemble(attrs, ParseSmsBody(body), FallbackAmount(body), smsId.value, k);
    return Some(r);
  }

  /**
   * The loop of dsa/parse_xml.py:62-88: one record per message, in document order, each the
   * message's `Transaction` at its own position; `None` when some `protocol` is not an
   * integer, as the `ValueError` then ends the run before anything is written.
   */
  method ParseMessages(smsList: seq<Attrs>) returns (out: Option<seq<Record>>)
    requires AsciiAttrs(smsList)
    ensures out.None? <==> exists i :: 0 <= i < |smsList| && Expected(smsList[i], i).None?
    ensures out.Some? ==> |out.value| == |smsList|
    ensures out.Some? ==> forall i :: 0 <= i < |smsList| ==> Expected(smsList[i], i) == Some(out.value[i])
  {
    ghost var expected := ExpectedAll(smsList);
    var records: seq<Record> := [];
    for k := 0 to |smsList|
      invariant |records| == k
      invariant forall i :: 0 <= i < k ==> expected[i] == Some(records[i])
    {
      var tx := BuildRecord(smsList[k], |records|);
      if tx.None? {
        return None;
      }
      Extended(expected, records, tx.value);
      records := records + [tx.value];
    }
    return Some(records);
  }

  /** What the loop makes of each message at its own position. */
  function ExpectedAll(smsList: seq<Attrs>): (r: seq<Option<Record>>)
    requires AsciiAttrs(smsList)
    ensures |r| == |smsList| && forall i :: 0 <= i < |smsList| ==> r[i] == Expected(smsList[i], i)
  {
    seq(|smsList|, (i: int) requires 0 <= i < |smsList| => Expected(smsList[i], i))
  }

  /** A prefix that agrees with the expected records, extended by the next expected record, still agrees. */
  lemma Extended<T>(expected: seq<Option<T>>, records: seq<T>, x: T)
    requires |records| < |expected| && expected[|records|] == Some(x)
    requires forall i :: 0 <= i < |records| ==> expected[i] == Some(records[i])
    ensures forall i :: 0 <= i < |records| + 1 ==> expected[i] == Some((records + [x])[i])
  {
  }
}
