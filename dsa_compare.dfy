/**
 * The lookups that dsa/dsa_compare.py times against each other, a scan of the list and a
 * dictionary keyed by id, and the loop that pads a short list of records to 100 copies.
 */
module DsaCompare {
  import opened Wrappers
  import opened Text
  import opened Json

  /** Every record has a `transaction_id`, as `r['transaction_id']` needs (a missing key raises `KeyError`). */
  predicate HasIds(records: seq<Record>) {
    forall i :: 0 <= i < |records| ==> TransactionId in records[i]
  }

  /**
   * Every record has a string `transaction_id`: the dictionary is keyed by strings, and the
   * padding loop appends a suffix to the id with `+`.
   */
  predicate StringIds(records: seq<Record>) {
    forall i :: 0 <= i < |records| ==> TransactionId in records[i] && records[i][TransactionId].JStr?
  }

  function IdText(r: Record): string
    requires TransactionId in r && r[TransactionId].JStr?
  {
    r[TransactionId].s
  }

  /** With string ids, Python's `==` on them is the test `HasId` makes. */
  lemma HasIdText(r: Record, tid: string)
    requires TransactionId in r && r[TransactionId].JStr?
    ensures HasId(r, tid) <==> IdText(r) == tid
  {
    PyEqString(r[TransactionId], tid);
  }

  // ---------------------------------------------------------------------------------------
  // make_dict (dsa/dsa_compare.py:11-12)

  /** `{r['transaction_id']: r for r in records}`: built left to right, so a later record replaces an earlier one. */
  function MakeDict(records: seq<Record>): (d: map<string, Record>)
    requires StringIds(records)
    ensures forall k :: k in d ==> exists i :: 0 <= i < |records| && IdText(records[i]) == k && d[k] == records[i]
    ensures forall i :: 0 <= i < |records| ==> IdText(records[i]) in d
    ensures forall i :: 0 <= i < |records| && (forall j :: i < j < |records| ==> IdText(records[j]) != IdText(records[i])) ==>
      d[IdText(records[i])] == records[i]
    decreases |records|
  {
    if records == [] then map[]
    else
      var n := |records| - 1;
      var front := records[..n];
      assert forall i :: 0 <= i < n ==> front[i] == records[i];
      MakeDict(front)[IdText(records[n]) := records[n]]
  }

  // ---------------------------------------------------------------------------------------
  // linear_search (dsa/dsa_compare.py:14-18)

  /** The first record whose id is `tid`, or `None` when no record has it; ids of any JSON type are compared by Python's `==`. */
  method LinearSearch(records: seq<Record>, tid: string) returns (found: Option<Record>)
    requires HasIds(records)
    ensures FirstIndex(records, tid) < |records| ==> found == Some(records[FirstIndex(records, tid)])
    ensures FirstIndex(records, tid) == |records| ==> found.None?
  {
    for i := 0 to |records|
      invariant forall j :: 0 <= j < i ==> !HasId(records[j], tid)
    {
      if PyEq(records[i][TransactionId], JStr(tid)) {
        return Some(records[i]);
      }
    }
    return None;
  }

  /**
   * The two lookups the benchmark compares give the same answer when the ids are pairwise
   * distinct: the first record with the id is the dictionary's entry for it, and an id no
   * record has is not a key (dsa/dsa_compare.py:21-32).
   */
  lemma LookupsAgree(records: seq<Record>, tid: string)
    requires StringIds(records) && DistinctIds(records)
    ensures var k := FirstIndex(records, tid);
      && (k < |records| ==> tid in MakeDict(records) && MakeDict(records)[tid] == records[k])
      && (k == |records| ==> tid !in MakeDict(records))
  {
    var k := FirstIndex(records, tid);
    var d := MakeDict(records);
    if k < |records| {
      HasIdText(records[k], tid);
      forall j | k < j < |records| ensures IdText(records[j]) != IdText(records[k]) {
        PyEqString(records[j][TransactionId], IdText(records[k]));
      }
    }
  }

  // ---------------------------------------------------------------------------------------
  // The padding loop (dsa/dsa_compare.py:41-46)

  const Target: nat := 100
  const ShortList: nat := 20

  /** A copy of `r` whose id carries the suffix `-dup<i>`. */
  function Dup(r: Record, i: nat): (c: Record)
    requires TransactionId in r && r[TransactionId].JStr?
    ensures c.Keys == r.Keys && forall key :: key in r && key != TransactionId ==> c[key] == r[key]
    ensures c[TransactionId] == JStr(IdText(r) + "-dup" + NatToString(i))
  {
    r[TransactionId := JStr(IdText(r) + "-dup" + NatToString(i))]
  }

  /**
   * `records` padded as the benchmark does before timing: left alone from 20 records on;
   * otherwise copies are appended until there are 100, the copy at position `i` made from
   * the record at `pick(i)` (the value of `random.randrange(i)`). With no record at all,
   * `randrange(0)` raises and the result is `None`.
   */
  method Pad(records: seq<Record>, pick: nat -> nat) returns (out: Option<seq<Record>>)
    requires StringIds(records)
    requires forall n: nat :: 0 < n ==> pick(n) < n
    ensures |records| >= ShortList ==> out == Some(records)
    ensures records == [] ==> out.None?
    ensures 0 < |records| < ShortList ==> out.Some? && |out.value| == Target
    ensures out.Some? ==> StringIds(out.value) && |out.value| >= |records| && out.value[..|records|] == records
    ensures out.Some? ==> forall i :: |records| <= i < |out.value| ==>
      pick(i) < i && out.value[i] == Dup(out.value[pick(i)], i)
  {
    if |records| >= ShortList {
      return Some(records);
    }
    var padded := records;
    while |padded| < Target
      invariant padded != [] ==> |records| <= |padded| <= Target
      invariant padded == [] <==> records == []
      invariant StringIds(padded) && padded[..|records|] == records
      invariant forall i :: |records| <= i < |padded| ==> pick(i) < i && padded[i] == Dup(padded[pick(i)], i)
      decreases Target - |padded|
    {
      if padded == [] {
        return None;
      }
      var n := |padded|;
      var copy := Dup(padded[pick(n)], n);
      padded := padded + [copy];
    }
    return Some(padded);
  }
}
