/**
 * The request handlers of api/server.py without the HTTP plumbing: Basic authentication,
 * the `/transactions/<id>` path, and the store operations behind GET, POST, PUT and DELETE.
 * The store is the list of records the handlers load from and save to the data file.
 */
module ApiServer {
  import opened Wrappers
  import opened Text
  import opened Json

  // ---------------------------------------------------------------------------------------
  // check_auth (api/server.py:12-13, 26-36)

  const AuthUser: string := "devsquad"
  const AuthPass: string := "devsquadpass"
  const BasicScheme: string := "Basic "

  /** The decoded text the fixed credentials make: `user:password`. */
  const Credentials: string := AuthUser + ":" + AuthPass

  /**
   * `check_auth`: the `Authorization` header (absent as `None`) must start with `Basic `; the
   * stripped token after the first space is decoded by `decode` (base64 then UTF-8, `None`
   * when either raises) and split at its first `:` into user and password. The header is
   * accepted exactly when the decoded token is the fixed credentials text.
   */
  function CheckAuth(header: Option<string>, decode: string -> Option<string>): (ok: bool)
    ensures ok <==> header.Some? && StartsWith(header.value, BasicScheme)
                    && decode(Strip(header.value[|BasicScheme|..])) == Some(Credentials)
  {
    if header.None? || header.value == [] || !StartsWith(header.value, BasicScheme) then false
    else
      SchemeSplit(header.value);
      var token := Strip(SplitOnce(header.value, ' ')[1]);
      match decode(token)
      case None => false
      case Some(decoded) =>
        CredentialsSplit(decoded);
        var parts := SplitOnce(decoded, ':');
        |parts| == 2 && parts[0] == AuthUser && parts[1] == AuthPass
  }

  /** Splitting a `Basic ` header at its first space leaves the text after the scheme. */
  lemma SchemeSplit(h: string)
    requires StartsWith(h, BasicScheme)
    ensures |SplitOnce(h, ' ')| == 2 && SplitOnce(h, ' ')[1] == h[|BasicScheme|..]
  {
    var scheme := "Basic";
    assert ' ' !in scheme;
    assert h == scheme + [' '] + h[|BasicScheme|..] by {
      assert h[..|BasicScheme|] == scheme + [' '];
    }
    SplitOnceOf(scheme, ' ', h[|BasicScheme|..]);
  }

  /** The first `:` splits a decoded text into the fixed user and password exactly when it is the credentials text. */
  lemma CredentialsSplit(decoded: string)
    ensures var parts := SplitOnce(decoded, ':');
      (|parts| == 2 && parts[0] == AuthUser && parts[1] == AuthPass) <==> decoded == Credentials
  {
    assert ':' !in AuthUser;
    if decoded == Credentials {
      SplitOnceOf(AuthUser, ':', AuthPass);
    }
  }

  // ---------------------------------------------------------------------------------------
  // _parse_id (api/server.py:44-48)

  const CollectionName: string := "transactions"

  /**
   * `_parse_id`: trailing `/`s dropped, the path split at every `/`; the last piece when
   * there are at least three and the one before it is `transactions`.
   */
  function ParseId(path: string): (id: Option<string>)
    ensures id.Some? ==> id.value != [] && '/' !in id.value
  {
    IdOfTrimmed(RStripChar(path, '/'))
  }

  /** The split and the test of `_parse_id` on a path whose trailing `/`s are gone. */
  function IdOfTrimmed(trimmed: string): (id: Option<string>)
    requires trimmed == [] || trimmed[|trimmed| - 1] != '/'
    ensures id.Some? ==> id.value != [] && '/' !in id.value
  {
    var parts := Split(trimmed, '/');
    if |parts| >= 3 && parts[|parts| - 2] == CollectionName then
      LastPieceNonEmpty(trimmed, parts);
      Some(parts[|parts| - 1])
    else None
  }

  /** A text that does not end in the separator does not split into an empty last piece. */
  lemma LastPieceNonEmpty(s: string, parts: seq<string>)
    requires s == [] || s[|s| - 1] != '/'
    requires parts == Split(s, '/') && |parts| >= 2
    ensures parts[|parts| - 1] != []
  {
  }

  /** The id after `/transactions/` is what `_parse_id` reads, whatever comes before. */
  lemma ParseIdOf(prefix: string, id: string)
    requires id != [] && '/' !in id
    ensures ParseId(prefix + "/" + CollectionName + "/" + id) == Some(id)
  {
    var front := prefix + "/" + CollectionName;
    var path := front + "/" + id;
    assert path == front + ['/'] + id;
    assert path[|path| - 1] == id[|id| - 1];
    assert RStripChar(path, '/') == path;
    assert '/' !in CollectionName by {
      assert forall i :: 0 <= i < |CollectionName| ==> CollectionName[i] != '/';
    }
    SplitLast(front, '/', id);
    assert front == prefix + ['/'] + CollectionName;
    SplitLast(prefix, '/', CollectionName);
  }

  /**
   * Both directions of `_parse_id`: it gives `id` exactly when the path, trailing `/`s
   * dropped, ends in `/transactions/<id>` for a non-empty `id` without `/`.
   */
  lemma ParseIdIff(path: string, id: string)
    ensures ParseId(path) == Some(id) <==>
      id != [] && '/' !in id && exists prefix :: RStripChar(path, '/') == prefix + "/" + CollectionName + "/" + id
  {
    var t := RStripChar(path, '/');
    if ParseId(path) == Some(id) {
      ParseIdShape(path);
    }
    if id != [] && '/' !in id && exists prefix :: RStripChar(path, '/') == prefix + "/" + CollectionName + "/" + id {
      var prefix :| RStripChar(path, '/') == prefix + "/" + CollectionName + "/" + id;
      ParseIdOfTrimmed(path, prefix, id);
    }
  }

  /** An id read from a path is the text after `/transactions/` at the end of the trimmed path. */
  lemma ParseIdShape(path: string)
    requires ParseId(path).Some?
    ensures exists prefix :: RStripChar(path, '/') == prefix + "/" + CollectionName + "/" + ParseId(path).value
  {
    TrimmedShape(RStripChar(path, '/'));
  }

  /** The same on the trimmed path, where the work is done by `Split`. */
  lemma TrimmedShape(t: string)
    requires t == [] || t[|t| - 1] != '/'
    requires IdOfTrimmed(t).Some?
    ensures exists prefix :: t == prefix + "/" + CollectionName + "/" + IdOfTrimmed(t).value
  {
    var parts := Split(t, '/');
    var n := |parts|;
    assert Join(parts, '/') == t && n >= 3 && parts[n - 2] == CollectionName;
    JoinLastTwo(parts, '/');
    LastTwoPieces(t, Join(parts[..n - 2], '/'), parts[n - 1]);
  }

  /** A text joined from a prefix, `transactions` and a last piece, with its separators. */
  lemma LastTwoPieces(t: string, prefix: string, id: string)
    requires t == prefix + ['/'] + CollectionName + ['/'] + id
    ensures t == prefix + "/" + CollectionName + "/" + id
  {
  }

  /** The last two pieces of a join. */
  lemma JoinLastTwo(parts: seq<string>, sep: char)
    requires |parts| >= 3
    ensures Join(parts, sep) == Join(parts[..|parts| - 2], sep) + [sep] + parts[|parts| - 2] + [sep] + parts[|parts| - 1]
  {
    var n := |parts|;
    assert parts[..n - 1][..n - 2] == parts[..n - 2];
  }

  /** A trimmed path ending in `/transactions/<id>` gives that id. */
  lemma ParseIdOfTrimmed(path: string, prefix: string, id: string)
    requires id != [] && '/' !in id
    requires RStripChar(path, '/') == prefix + "/" + CollectionName + "/" + id
    ensures ParseId(path) == Some(id)
  {
    var t := prefix + "/" + CollectionName + "/" + id;
    ParseIdOf(prefix, id);
    assert t[|t| - 1] == id[|id| - 1];
    SameTrim(path, t);
  }

  /** `_parse_id` sees only the trimmed path. */
  lemma SameTrim(path: string, t: string)
    requires t != [] && t[|t| - 1] != '/' && RStripChar(path, '/') == t
    ensures ParseId(path) == ParseId(t)
  {
    assert RStripChar(t, '/') == t;
    assert ParseId(path) == IdOfTrimmed(t);
  }

  /** A trailing `/` does not change the id. */
  lemma ParseIdTrailingSlash(path: string)
    ensures ParseId(path + "/") == ParseId(path)
  {
    var p := path + "/";
    assert p[..|p| - 1] == path;
    assert RStripChar(p, '/') == RStripChar(path, '/');
  }

  // ---------------------------------------------------------------------------------------
  // The store

  datatype Status = Ok | Created | NoContent | BadRequest | NotFound | Conflict | Aborted

  /**
   * What a handler answers: its status and the JSON it writes back, if any. `Aborted` is an
   * exception escaping the handler, after which nothing is saved.
   */
  datatype Response = Response(status: Status, body: Option<Json>)

  const ListPath: string := "/transactions"
  const ItemPrefix: string := "/transactions/"

  /** A record with a `transaction_id` is a non-empty dictionary, so it is truthy. */
  lemma HasIdNonEmpty(r: Record, tid: string)
    requires HasId(r, tid)
    ensures r != map[]
  {
    PyEqString(Get(r, TransactionId), tid);
  }

  /**
   * The single-record lookup of `do_GET` (api/server.py:77-85): the first record whose id is
   * `tid`, and not-found when there is none.
   */
  function GetOne(records: seq<Record>, tid: string): (r: Response)
    ensures r.status == Ok <==> exists i :: 0 <= i < |records| && HasId(records[i], tid)
    ensures r.status == Ok ==> r.body == Some(JObj(records[FirstIndex(records, tid)]))
    ensures r.status != Ok ==> r == Response(NotFound, None)
  {
    var k := FirstIndex(records, tid);
    if k < |records| then
      HasIdNonEmpty(records[k], tid);
      if records[k] != map[] then Response(Ok, Some(JObj(records[k]))) else Response(NotFound, None)
    else Response(NotFound, None)
  }

  /** `[r for r in records if r.get('transaction_id') != tid]` */
  function Without(records: seq<Record>, tid: string): (r: seq<Record>)
    ensures |r| <= |records|
    ensures |r| == |records| <==> forall i :: 0 <= i < |records| ==> !HasId(records[i], tid)
    ensures (forall i :: 0 <= i < |records| ==> !HasId(records[i], tid)) ==> r == records
  {
    if records == [] then []
    else
      var rest := Without(records[1..], tid);
      assert forall i :: 1 <= i < |records| ==> records[i] == records[1..][i - 1];
      assert records == [records[0]] + records[1..];
      if HasId(records[0], tid) then rest else [records[0]] + rest
  }

  /** What the filter keeps: no record with the id, every record without it, and nothing new. */
  lemma {:induction false} WithoutMembers(records: seq<Record>, tid: string)
    ensures forall i :: 0 <= i < |Without(records, tid)| ==> !HasId(Without(records, tid)[i], tid)
    ensures forall x :: x in records && !HasId(x, tid) ==> x in Without(records, tid)
    ensures forall x :: x in Without(records, tid) ==> x in records
    decreases |records|
  {
    if records != [] {
      var rest := records[1..];
      WithoutMembers(rest, tid);
      assert records == [records[0]] + rest;
      WithoutCons(records[0], rest, tid);
    }
  }

  /** Filtering distributes over concatenation, so what is kept stays in order. */
  lemma {:induction false} WithoutAppend(a: seq<Record>, b: seq<Record>, tid: string)
    ensures Without(a + b, tid) == Without(a, tid) + Without(b, tid)
    decreases |a|
  {
    if a == [] {
      assert a + b == b;
    } else {
      var x, rest := a[0], a[1..];
      HeadTail(a, b);
      WithoutAppend(rest, b, tid);
      WithoutCons(x, rest, tid);
      WithoutCons(x, rest + b, tid);
      ConsAppend(x, Without(rest, tid), Without(b, tid));
    }
  }

  lemma HeadTail<T>(a: seq<T>, b: seq<T>)
    requires a != []
    ensures a == [a[0]] + a[1..] && a + b == [a[0]] + (a[1..] + b)
  {
  }

  lemma ConsAppend<T>(x: T, p: seq<T>, q: seq<T>)
    ensures [x] + (p + q) == ([x] + p) + q
  {
  }

  /** One step of the filter: the head is kept exactly when it does not carry the id. */
  lemma WithoutCons(x: Record, rest: seq<Record>, tid: string)
    ensures Without([x] + rest, tid) == if HasId(x, tid) then Without(rest, tid) else [x] + Without(rest, tid)
  {
    assert ([x] + rest)[1..] == rest;
  }

  /** `any(r.get('transaction_id') == tid for r in records)` for any JSON `tid`. */
  predicate IdTaken(records: seq<Record>, tid: Json) {
    exists i :: 0 <= i < |records| && PyEq(Get(records[i], TransactionId), tid)
  }

  /** An object whose id no stored record matches keeps the ids pairwise distinct. */
  lemma AppendKeepsDistinct(records: seq<Record>, obj: Record)
    requires DistinctIds(records) && !IdTaken(records, Get(obj, TransactionId))
    ensures DistinctIds(records + [obj])
  {
    var s := records + [obj];
    forall i, j | 0 <= i < j < |s| ensures !PyEq(Get(s[i], TransactionId), Get(s[j], TransactionId)) {
      if j == |records| {
        assert s[i] == records[i];
      }
    }
  }

  /**
   * A merge whose object has no `transaction_id`, or one Python considers equal to the
   * record's own, keeps the ids pairwise distinct.
   */
  lemma MergeKeepsDistinct(records: seq<Record>, k: nat, obj: Record)
    requires DistinctIds(records) && k < |records|
    requires TransactionId !in obj || PyEq(obj[TransactionId], IdOf(records[k]))
    ensures DistinctIds(records[k := records[k] + obj])
  {
    var s := records[k := records[k] + obj];
    assert forall i :: 0 <= i < |s| && i != k ==> IdOf(s[i]) == IdOf(records[i]);
    if TransactionId in obj {
      forall i | 0 <= i < |s| && i != k ensures !PyEq(IdOf(s[k]), IdOf(s[i])) && !PyEq(IdOf(s[i]), IdOf(s[k])) {
        DistinctPair(records, k, i);
        DistinctPair(records, i, k);
        EqualIdStaysFresh(obj[TransactionId], IdOf(records[k]), IdOf(records[i]));
      }
    } else {
      assert IdOf(s[k]) == IdOf(records[k]);
    }
  }

  /** Distinct ids are unequal in either order. */
  lemma DistinctPair(records: seq<Record>, i: nat, j: nat)
    requires DistinctIds(records) && i < |records| && j < |records| && i != j
    ensures !PyEq(IdOf(records[i]), IdOf(records[j]))
  {
    if j < i && PyEq(IdOf(records[i]), IdOf(records[j])) {
      PyEqSymmetric(IdOf(records[i]), IdOf(records[j]));
    }
  }

  /** A value equal to `y` is unequal, in both orders, to whatever `y` is unequal to. */
  lemma EqualIdStaysFresh(x: Json, y: Json, z: Json)
    requires PyEq(x, y) && !PyEq(y, z) && !PyEq(z, y)
    ensures !PyEq(x, z) && !PyEq(z, x)
  {
    PyEqSymmetric(x, y);
    if PyEq(x, z) {
      PyEqTransitive(y, x, z);
    }
    if PyEq(z, x) {
      PyEqTransitive(z, x, y);
    }
  }

  /** A merge that gives a record another record's id breaks distinctness: PUT does not guard it. */
  lemma MergeCanDuplicate(records: seq<Record>, k: nat, j: nat, obj: Record)
    requires k < |records| && j < |records| && k != j
    requires TransactionId in obj && obj[TransactionId] == IdOf(records[j])
    ensures !DistinctIds(records[k := records[k] + obj])
  {
    var s := records[k := records[k] + obj];
    assert IdOf(s[k]) == IdOf(s[j]);
    PyEqReflexive(IdOf(s[j]));
  }

  /** Removing records keeps the remaining ids pairwise distinct. */
  lemma {:induction false} WithoutKeepsDistinct(records: seq<Record>, tid: string)
    requires DistinctIds(records)
    ensures DistinctIds(Without(records, tid))
    decreases |records|
  {
    if records != [] {
      var rest := records[1..];
      TailDistinct(records);
      WithoutKeepsDistinct(rest, tid);
      if !HasId(records[0], tid) {
        WithoutMembers(rest, tid);
        HeadDistinct(records);
        ConsDistinct(records[0], Without(rest, tid));
      }
    }
  }

  function IdOf(r: Record): Json {
    Get(r, TransactionId)
  }

  lemma TailDistinct(records: seq<Record>)
    requires records != [] && DistinctIds(records)
    ensures DistinctIds(records[1..])
  {
    var rest := records[1..];
    assert forall i :: 0 <= i < |rest| ==> rest[i] == records[i + 1];
  }

  lemma HeadDistinct(records: seq<Record>)
    requires records != [] && DistinctIds(records)
    ensures forall x :: x in records[1..] ==> !PyEq(IdOf(records[0]), IdOf(x))
  {
    forall x | x in records[1..] ensures !PyEq(IdOf(records[0]), IdOf(x)) {
      var m :| 0 <= m < |records| - 1 && records[1..][m] == x;
      assert records[m + 1] == x;
    }
  }

  lemma ConsDistinct(y: Record, s: seq<Record>)
    requires DistinctIds(s)
    requires forall x :: x in s ==> !PyEq(IdOf(y), IdOf(x))
    ensures DistinctIds([y] + s)
  {
    var t := [y] + s;
    forall i, j | 0 <= i < j < |t| ensures !PyEq(IdOf(t[i]), IdOf(t[j])) {
      assert t[j] == s[j - 1];
      if i > 0 {
        assert t[i] == s[i - 1];
      }
    }
  }

  class Store {
    /** The records of the data file, in their order there. */
    var records: seq<Record>

    constructor(records: seq<Record>)
      ensures this.records == records
    {
      this.records := records;
    }

    /**
     * `do_GET`'s routes (api/server.py:65-87): the whole list for the collection path, the
     * single lookup under `/transactions/`, `BadRequest` when no id can be read there.
     */
    function Fetch(path: string): (r: Response)
      reads this
      ensures path == ListPath || path == ItemPrefix ==> r == Response(Ok, Some(JArr(Objects(records))))
      ensures path != ListPath && path != ItemPrefix && StartsWith(path, ItemPrefix) ==>
        r == if ParseId(path).None? then Response(BadRequest, None) else GetOne(records, ParseId(path).value)
      ensures path != ListPath && !StartsWith(path, ItemPrefix) ==> r == Response(NotFound, None)
    {
      if path == ListPath || path == ItemPrefix then Response(Ok, Some(JArr(Objects(records))))
      else if StartsWith(path, ItemPrefix) then
        var tid := ParseId(path);
        if tid.None? || tid.value == [] then Response(BadRequest, None) else GetOne(records, tid.value)
      else Response(NotFound, None)
    }

    /**
     * `do_POST` (api/server.py:89-115): `body` is what `json.loads` made of the request, `None`
     * when it failed. An object without a truthy `transaction_id` is refused, one whose id a
     * stored record already carries conflicts, and any other object is appended and echoed.
     */
    method Create(path: string, body: Option<Json>) returns (r: Response)
      modifies this
      ensures path != ListPath ==> r == Response(NotFound, None) && records == old(records)
      ensures path == ListPath && body.None? ==> r == Response(BadRequest, None) && records == old(records)
      ensures path == ListPath && body.Some? && !body.value.JObj? ==> r.status == Aborted && records == old(records)
      ensures path == ListPath && body.Some? && body.value.JObj? ==>
        var obj := body.value.fields;
        var tid := Get(obj, TransactionId);
        && (!Truthy(tid) ==> r == Response(BadRequest, None) && records == old(records))
        && (Truthy(tid) && IdTaken(old(records), tid) ==> r == Response(Conflict, None) && records == old(records))
        && (Truthy(tid) && !IdTaken(old(records), tid) ==> r == Response(Created, body) && records == old(records) + [obj])
    {
      if path != ListPath {
        return Response(NotFound, None);
      }
      if body.None? {
        return Response(BadRequest, None);
      }
      if !body.value.JObj? {
        return Response(Aborted, None);
      }
      var obj := body.value.fields;
      var tid := Get(obj, TransactionId);
      if !Truthy(tid) {
        return Response(BadRequest, None);
      }
      if IdTaken(records, tid) {
        return Response(Conflict, None);
      }
      records := records + [obj];
      return Response(Created, body);
    }

    /**
     * `do_PUT` (api/server.py:117-142): the first record whose id is the path's id gets the
     * object's keys over its own (`dict.update`), in place; nothing else changes. With no such
     * record the answer is not-found and the store is left as it was.
     */
    method Update(path: string, body: Option<Json>) returns (r: Response)
      modifies this
      ensures !StartsWith(path, ItemPrefix) ==> r == Response(NotFound, None) && records == old(records)
      ensures StartsWith(path, ItemPrefix) && (ParseId(path).None? || body.None?) ==>
        r == Response(BadRequest, None) && records == old(records)
      ensures StartsWith(path, ItemPrefix) && ParseId(path).Some? && body.Some? ==>
        var k := FirstIndex(old(records), ParseId(path).value);
        && (k == |old(records)| ==> r == Response(NotFound, None) && records == old(records))
        && (k < |old(records)| && !body.value.JObj? ==> r.status == Aborted && records == old(records))
        && (k < |old(records)| && body.value.JObj? ==>
              var merged := old(records)[k] + body.value.fields;
              r == Response(Ok, Some(JObj(merged))) && records == old(records)[k := merged])
    {
      if !StartsWith(path, ItemPrefix) {
        return Response(NotFound, None);
      }
      var tid := ParseId(path);
      if tid.None? || tid.value == [] {
        return Response(BadRequest, None);
      }
      if body.None? {
        return Response(BadRequest, None);
      }
      for i := 0 to |records|
        invariant records == old(records)
        invariant forall j :: 0 <= j < i ==> !HasId(records[j], tid.value)
      {
        if HasId(records[i], tid.value) {
          if !body.value.JObj? {
            return Response(Aborted, None);
          }
          var merged := records[i] + body.value.fields;
          records := records[i := merged];
          return Response(Ok, Some(JObj(merged)));
        }
      }
      return Response(NotFound, None);
    }

    /**
     * `do_DELETE` (api/server.py:144-158): every record with the path's id is dropped and the
     * rest kept in order; not-found, with nothing saved, exactly when no record had that id.
     */
    method Delete(path: string) returns (r: Response)
      modifies this
      ensures !StartsWith(path, ItemPrefix) ==> r == Response(NotFound, None) && records == old(records)
      ensures StartsWith(path, ItemPrefix) && ParseId(path).None? ==> r == Response(BadRequest, None) && records == old(records)
      ensures StartsWith(path, ItemPrefix) && ParseId(path).Some? ==>
        var tid := ParseId(path).value;
        && records == Without(old(records), tid)
        && (r == Response(NotFound, None) <==> forall i :: 0 <= i < |old(records)| ==> !HasId(old(records)[i], tid))
        && (r != Response(NotFound, None) ==> r == Response(NoContent, None))
    {
      if !StartsWith(path, ItemPrefix) {
        return Response(NotFound, None);
      }
      var tid := ParseId(path);
      if tid.None? || tid.value == [] {
        return Response(BadRequest, None);
      }
      var kept := Without(records, tid.value);
      if |kept| == |records| {
        return Response(NotFound, None);
      }
      records := kept;
      return Response(NoContent, None);
    }
  }

  /** The JSON list `json.dumps(records)` writes: each record as an object, in order. */
  function Objects(records: seq<Record>): (r: seq<Json>)
    ensures |r| == |records| && forall i :: 0 <= i < |records| ==> r[i] == JObj(records[i])
  {
    seq(|records|, (i: int) requires 0 <= i < |records| => JObj(records[i]))
  }
}
