/** The document collection behind every repository: the database driver's part, as a
    class over a sequence of documents in natural (insertion) order, and the cursor
    window `skip(k).limit(n)` the repositories build their queries from. */
module Store {
  import opened Outcomes
  import opened AppErrors

  type ObjectId = string

  /** A stored document: its `_id` and the rest of its fields. */
  datatype Entry<T> = Entry(id: ObjectId, doc: T)

  /** A query filter, as the predicate it denotes on documents. */
  type Filter<!T> = Entry<T> -> bool

  /** `{}`. */
  function MatchAll<T>(): Filter<T>
  {
    (e: Entry<T>) => true
  }

  /** `{ _id: id }`. */
  function IdIs<T>(id: ObjectId): Filter<T>
  {
    (e: Entry<T>) => e.id == id
  }

  /** `{ _id: { $in: ids } }`. */
  function IdIn<T>(ids: seq<ObjectId>): Filter<T>
  {
    (e: Entry<T>) => e.id in ids
  }

  predicate HasId<T>(s: seq<Entry<T>>, id: ObjectId)
  {
    exists i :: 0 <= i < |s| && s[i].id == id
  }

  /** The unique index on `_id`. */
  predicate DistinctIds<T>(s: seq<Entry<T>>)
  {
    forall i, j :: 0 <= i < j < |s| ==> s[i].id != s[j].id
  }

  /** The documents a filter matches, in natural order. */
  function Select<T>(s: seq<Entry<T>>, f: Filter<T>): (r: seq<Entry<T>>)
    ensures |r| <= |s|
    ensures forall i :: 0 <= i < |r| ==> r[i] in s && f(r[i])
    ensures forall i :: 0 <= i < |s| && f(s[i]) ==> s[i] in r
  {
    if s == [] then [] else (if f(s[0]) then [s[0]] else []) + Select(s[1..], f)
  }

  /** `findOne(filter)`: the first match in natural order, or `null`. */
  function FirstMatch<T>(s: seq<Entry<T>>, f: Filter<T>): (r: Option<Entry<T>>)
    ensures r.None? <==> forall i :: 0 <= i < |s| ==> !f(s[i])
    ensures r.Some? ==> r.value in s && f(r.value)
  {
    if s == [] then None else if f(s[0]) then Some(s[0]) else FirstMatch(s[1..], f)
  }

  /** `deleteOne(filter)`: the first match goes, the rest stays in order. */
  function DeleteFirst<T>(s: seq<Entry<T>>, f: Filter<T>): (r: seq<Entry<T>>)
    ensures |r| == if exists i :: 0 <= i < |s| && f(s[i]) then |s| - 1 else |s|
    ensures forall i :: 0 <= i < |r| ==> r[i] in s
  {
    if s == [] then [] else if f(s[0]) then s[1..] else [s[0]] + DeleteFirst(s[1..], f)
  }

  /** `deleteMany(filter)`: every match goes. */
  function DeleteWhere<T>(s: seq<Entry<T>>, f: Filter<T>): (r: seq<Entry<T>>)
    ensures forall i :: 0 <= i < |r| ==> r[i] in s && !f(r[i])
    ensures forall i :: 0 <= i < |s| && !f(s[i]) ==> s[i] in r
  {
    Select(s, (e: Entry<T>) => !f(e))
  }

  /** `updateOne(filter, data)`: the first match gets the update, its `_id` kept. */
  function UpdateFirst<T>(s: seq<Entry<T>>, f: Filter<T>, patch: T -> T): (r: seq<Entry<T>>)
    ensures |r| == |s|
    ensures forall i :: 0 <= i < |s| ==> r[i].id == s[i].id
  {
    if s == [] then []
    else if f(s[0]) then [Entry(s[0].id, patch(s[0].doc))] + s[1..]
    else [s[0]] + UpdateFirst(s[1..], f, patch)
  }

  /** `find({})` selects every document, in order. */
  lemma {:induction false} SelectAll<T>(s: seq<Entry<T>>)
    ensures Select(s, MatchAll()) == s
  {
    SelectAllAccepted(s, MatchAll());
  }

  /** `deleteMany({})` empties the collection. */
  lemma {:induction false} DeleteAllEmpties<T>(s: seq<Entry<T>>)
    ensures DeleteWhere(s, MatchAll()) == []
  {
    if s != [] {
      DeleteAllEmpties(s[1..]);
      assert DeleteWhere(s, MatchAll()) == Select(s[1..], (e: Entry<T>) => !MatchAll<T>()(e));
    }
  }

  /** `findOne(filter)` is the first document `find(filter)` returns. */
  lemma {:induction false} FirstMatchIsFirstSelected<T>(s: seq<Entry<T>>, f: Filter<T>)
    ensures FirstMatch(s, f).None? <==> Select(s, f) == []
    ensures FirstMatch(s, f).Some? ==> Select(s, f)[0] == FirstMatch(s, f).value
  {
    if s != [] {
      FirstMatchIsFirstSelected(s[1..], f);
    }
  }

  lemma {:induction false} SelectKeepsDistinct<T>(s: seq<Entry<T>>, f: Filter<T>)
    requires DistinctIds(s)
    ensures DistinctIds(Select(s, f))
    ensures forall i :: 0 <= i < |Select(s, f)| ==> HasId(s, Select(s, f)[i].id)
  {
    if s != [] {
      SelectKeepsDistinct(s[1..], f);
      var rest := Select(s[1..], f);
      forall x | x in rest ensures x.id != s[0].id && HasId(s, x.id) {
        var k :| 0 <= k < |s[1..]| && s[1..][k].id == x.id;
        assert s[k + 1].id == x.id;
      }
    }
  }

  lemma {:induction false} DeleteFirstKeepsDistinct<T>(s: seq<Entry<T>>, f: Filter<T>)
    requires DistinctIds(s)
    ensures DistinctIds(DeleteFirst(s, f))
  {
    if s != [] && !f(s[0]) {
      DeleteFirstKeepsDistinct(s[1..], f);
      var rest := DeleteFirst(s[1..], f);
      forall x | x in rest ensures x.id != s[0].id {
        assert x in s[1..];
      }
    }
  }

  /** `deleteOne` with no match leaves the collection unchanged. */
  lemma {:induction false} DeleteFirstWithoutMatch<T>(s: seq<Entry<T>>, f: Filter<T>)
    requires forall i :: 0 <= i < |s| ==> !f(s[i])
    ensures DeleteFirst(s, f) == s
  {
    if s != [] {
      DeleteFirstWithoutMatch(s[1..], f);
      assert s == [s[0]] + s[1..];
    }
  }

  /** `deleteOne` removes the first match, at index `k`, and keeps the documents before and
      after it in order. */
  lemma {:induction false} DeleteFirstRemovesFirstMatch<T>(s: seq<Entry<T>>, f: Filter<T>, k: nat)
    requires k < |s| && f(s[k])
    requires forall i :: 0 <= i < k ==> !f(s[i])
    ensures DeleteFirst(s, f) == s[..k] + s[k + 1..]
  {
    var t := s[1..];
    if k == 0 {
      assert s[..0] + s[1..] == t;
    } else {
      assert !f(s[0]);
      forall i | 0 <= i < k - 1 ensures !f(t[i]) {
        assert t[i] == s[i + 1];
      }
      DeleteFirstRemovesFirstMatch(t, f, k - 1);
      assert s[..k] == [s[0]] + t[..k - 1];
      assert s[k + 1..] == t[k..];
    }
  }

  /** The two cases of `deleteOne` together, for every possible first match. */
  lemma DeleteFirstExact<T>(s: seq<Entry<T>>, f: Filter<T>)
    ensures (forall i :: 0 <= i < |s| ==> !f(s[i])) ==> DeleteFirst(s, f) == s
    ensures forall k :: 0 <= k < |s| && f(s[k]) && (forall i :: 0 <= i < k ==> !f(s[i])) ==>
                        DeleteFirst(s, f) == s[..k] + s[k + 1..]
  {
    if forall i :: 0 <= i < |s| ==> !f(s[i]) {
      DeleteFirstWithoutMatch(s, f);
    }
    forall k | 0 <= k < |s| && f(s[k]) && (forall i :: 0 <= i < k ==> !f(s[i]))
      ensures DeleteFirst(s, f) == s[..k] + s[k + 1..]
    {
      DeleteFirstRemovesFirstMatch(s, f, k);
    }
  }

  /** `Select` of a filter every document passes is the whole sequence. */
  lemma {:induction false} SelectAllAccepted<T>(s: seq<Entry<T>>, f: Filter<T>)
    requires forall i :: 0 <= i < |s| ==> f(s[i])
    ensures Select(s, f) == s
  {
    if s != [] {
      SelectAllAccepted(s[1..], f);
      assert s == [s[0]] + s[1..];
    }
  }

  /** Under the unique `_id` index, deleting the first document with an id deletes every
      document with that id: the others all stay, and none with that id is left. */
  lemma {:induction false} DeleteFirstByIdIsDeleteWhere<T>(s: seq<Entry<T>>, id: ObjectId)
    requires DistinctIds(s)
    ensures DeleteFirst(s, IdIs(id)) == DeleteWhere(s, IdIs(id))
  {
    if s != [] {
      var t := s[1..];
      var keep := (e: Entry<T>) => !IdIs<T>(id)(e);
      assert DeleteWhere(s, IdIs(id)) == (if keep(s[0]) then [s[0]] else []) + Select(t, keep);
      if s[0].id == id {
        forall i | 0 <= i < |t| ensures keep(t[i]) {
          assert t[i] == s[i + 1];
        }
        SelectAllAccepted(t, keep);
      } else {
        assert DistinctIds(t) by {
          forall i, j | 0 <= i < j < |t| ensures t[i].id != t[j].id {
            assert t[i] == s[i + 1] && t[j] == s[j + 1];
          }
        }
        DeleteFirstByIdIsDeleteWhere(t, id);
        assert DeleteWhere(t, IdIs(id)) == Select(t, keep);
      }
    }
  }

  /** What the cursor reads when there is no document left to skip and the limit is
      applied: MongoDB treats a limit of 0 as no limit and a negative limit as its
      absolute value. */
  function Take<T>(s: seq<T>, limit: int): (r: seq<T>)
    ensures limit == 0 ==> r == s
    ensures limit != 0 ==> |r| == if |s| <= Abs(limit) then |s| else Abs(limit)
    ensures r == s[..|r|]
  {
    if limit == 0 || |s| <= Abs(limit) then s else s[..Abs(limit)]
  }

  function Abs(n: int): nat { if n < 0 then -n else n }

  /** `cursor.skip(skip).limit(limit).toArray()` over the matches. */
  function Window<T>(s: seq<T>, skip: nat, limit: int): seq<T>
  {
    Take(if skip <= |s| then s[skip..] else [], limit)
  }

  /** The repositories' offset: `limit * (page - 1)` when `page > 0`, otherwise none. */
  function SkipFor(limit: int, page: int): int
  {
    if page > 0 then limit * (page - 1) else 0
  }

  const NEGATIVE_SKIP: string := "skip value must be non-negative"
  const DUPLICATE_KEY: string := "E11000 duplicate key error"

  /** The page a repository's `find`/`getAll` returns from the matching documents: the
      window at `SkipFor(limit, page)`; the server refuses a negative skip. */
  function Paged<T>(s: seq<T>, limit: int, page: int): Result<seq<T>, Failure>
  {
    var skip := SkipFor(limit, page);
    if skip < 0 then Err(DriverError(NEGATIVE_SKIP)) else Ok(Window(s, skip, limit))
  }

  function Min(a: int, b: int): int { if a <= b then a else b }

  /** A positive limit and a positive page give the slice `[limit*(page-1), limit*page)`
      of the matches, clipped to their number: at most `limit` documents. */
  lemma PagedIsSlice<T>(s: seq<T>, limit: int, page: int)
    requires limit > 0 && page >= 1
    ensures (page - 1) * limit >= 0
    ensures Paged(s, limit, page)
         == Ok(s[Min((page - 1) * limit, |s|)..Min(page * limit, |s|)])
    ensures |Paged(s, limit, page).value| <= limit
  {
    var lo := (page - 1) * limit;
    assert lo >= 0 by { MulNonNeg(page - 1, limit); }
    assert page * limit == lo + limit;
    assert SkipFor(limit, page) == lo;
    if lo <= |s| {
      var rest := s[lo..];
      if |rest| <= limit {
        assert Take(rest, limit) == s[lo..|s|];
      } else {
        assert Take(rest, limit) == s[lo..lo + limit];
      }
    } else {
      assert Window(s, lo, limit) == [] == s[|s|..|s|];
    }
    assert Paged(s, limit, page) == Ok(Window(s, lo, limit));
  }

  lemma MulNonNeg(a: int, b: int)
    requires a >= 0 && b >= 0
    ensures a * b >= 0
  {
  }

  /** Only a negative limit on a page after the first makes the server refuse the query. */
  lemma PagedFailsExactly<T>(s: seq<T>, limit: int, page: int)
    ensures Paged(s, limit, page).Err? <==> limit < 0 && page > 1
  {
    if page > 1 {
      if limit < 0 {
        assert limit * (page - 1) < 0 by { NegTimesPos(limit, page - 1); }
      } else {
        MulNonNeg(limit, page - 1);
      }
    }
  }

  lemma NegTimesPos(a: int, b: int)
    requires a < 0 && b > 0
    ensures a * b < 0
  {
    assert a * b == -((-a) * b);
  }

  /** Pages 0 and below are the first page: no skip at all. */
  lemma PagesUpToOneCoincide<T>(s: seq<T>, limit: int, page: int)
    requires page <= 1
    ensures Paged(s, limit, page) == Paged(s, limit, 1) == Ok(Take(s, limit))
  {
    assert s[0..] == s;
  }

  /** Pages 1..k one after another. */
  function FirstPages<T>(s: seq<T>, limit: int, k: nat): seq<T>
    requires limit > 0
  {
    if k == 0 then [] else FirstPages(s, limit, k - 1) + Paged(s, limit, k).value
  }

  /** Paging loses and repeats nothing: the first k pages, read one after another, are
      exactly the first `k * limit` matches. */
  lemma {:induction false} FirstPagesArePrefix<T>(s: seq<T>, limit: int, k: nat)
    requires limit > 0
    ensures k * limit >= 0
    ensures FirstPages(s, limit, k) == s[..Min(k * limit, |s|)]
  {
    MulNonNeg(k, limit);
    if k > 0 {
      FirstPagesArePrefix(s, limit, k - 1);
      PagedIsSlice(s, limit, k);
      var a := Min((k - 1) * limit, |s|);
      var b := Min(k * limit, |s|);
      assert (k - 1) * limit + limit == k * limit;
      assert s[..a] + s[a..b] == s[..b];
    }
  }

  /** `updateOne` changes at most one document, and only one the filter matches; every
      other document keeps its place and contents. */
  lemma {:induction false} UpdateFirstTouchesOne<T>(s: seq<Entry<T>>, f: Filter<T>, patch: T -> T)
    ensures forall i :: 0 <= i < |s| && UpdateFirst(s, f, patch)[i] != s[i] ==> f(s[i])
    ensures forall i, j :: 0 <= i < j < |s| && UpdateFirst(s, f, patch)[i] != s[i] ==>
      UpdateFirst(s, f, patch)[j] == s[j]
    ensures (forall i :: 0 <= i < |s| ==> !f(s[i])) ==> UpdateFirst(s, f, patch) == s
  {
    if s != [] {
      var r := UpdateFirst(s, f, patch);
      if f(s[0]) {
        assert forall i :: 1 <= i < |s| ==> r[i] == s[i];
      } else {
        UpdateFirstTouchesOne(s[1..], f, patch);
        assert r[0] == s[0];
        assert forall i :: 1 <= i < |s| ==> r[i] == UpdateFirst(s[1..], f, patch)[i - 1];
      }
    }
  }

  /** The default windows: `find` (limit 10, page 0) gives the first ten matches and
      `getAll` (limit 20, page 1) the first twenty. */
  lemma DefaultWindows<T>(s: seq<T>)
    ensures Paged(s, 10, 0) == Ok(s[..Min(10, |s|)])
    ensures Paged(s, 20, 1) == Ok(s[..Min(20, |s|)])
  {
    PagesUpToOneCoincide(s, 10, 0);
    PagesUpToOneCoincide(s, 20, 1);
  }

  /** The collection's documents, with the uniqueness the `_id` index enforces. */
  class Collection<T> {
    var docs: seq<Entry<T>>

    ghost predicate Valid()
      reads this
    {
      DistinctIds(docs)
    }

    constructor ()
      ensures Valid() && docs == []
    {
      docs := [];
    }

    /** `insertOne(data)` with the `_id` the driver generates for it; the unique index
        refuses an `_id` that is already stored. */
    method InsertOne(id: ObjectId, doc: T) returns (r: Result<Entry<T>, Failure>)
      requires Valid()
      modifies this
      ensures Valid()
      ensures HasId(old(docs), id) <==> r.Err?
      ensures r.Err? ==> r.error == DriverError(DUPLICATE_KEY) && docs == old(docs)
      ensures r.Ok? ==> r.value == Entry(id, doc) && docs == old(docs) + [r.value]
    {
      if exists i :: 0 <= i < |docs| && docs[i].id == id {
        return Err(DriverError(DUPLICATE_KEY));
      }
      r := Ok(Entry(id, doc));
      docs := docs + [r.value];
    }

    /** `find(filter).skip(skip).limit(limit).toArray()`. */
    method Query(f: Filter<T>, skip: int, limit: int) returns (r: Result<seq<Entry<T>>, Failure>)
      ensures skip < 0 ==> r == Err(DriverError(NEGATIVE_SKIP))
      ensures skip >= 0 ==> r == Ok(Window(Select(docs, f), skip, limit))
    {
      if skip < 0 {
        return Err(DriverError(NEGATIVE_SKIP));
      }
      var matches := Select(docs, f);
      var rest := if skip <= |matches| then matches[skip..] else [];
      r := Ok(Take(rest, limit));
    }

    /** `deleteOne(filter)` / `findOneAndDelete(filter)`. */
    method DeleteOne(f: Filter<T>)
      requires Valid()
      modifies this
      ensures Valid()
      ensures docs == DeleteFirst(old(docs), f)
    {
      DeleteFirstKeepsDistinct(docs, f);
      docs := DeleteFirst(docs, f);
    }

    /** `deleteMany(filter)`. */
    method DeleteMany(f: Filter<T>)
      requires Valid()
      modifies this
      ensures Valid()
      ensures docs == DeleteWhere(old(docs), f)
    {
      SelectKeepsDistinct(docs, (e: Entry<T>) => !f(e));
      docs := DeleteWhere(docs, f);
    }

    /** `updateOne(filter, data)` / `findByIdAndUpdate(id, data)`. */
    method UpdateOne(f: Filter<T>, patch: T -> T)
      requires Valid()
      modifies this
      ensures Valid()
      ensures docs == UpdateFirst(old(docs), f, patch)
    {
      docs := UpdateFirst(docs, f, patch);
    }
  }
}
