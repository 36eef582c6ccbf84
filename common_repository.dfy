/** The base repository of src/common/repository.ts, over the MongoDB driver: id-checked
    reads, a paged `find`, inserts, updates and removes by filter or by id. */
module CommonRepository {
  import opened Outcomes
  import opened AppErrors
  import opened External
  import opened Store

  /** `ObjectId | ObjectId[]`. */
  datatype IdOrIds = One(id: ObjectId) | Many(ids: seq<ObjectId>)

  /** The id list the repository builds: a single id is wrapped into a list of one. */
  function IdList(ids: IdOrIds): (r: seq<ObjectId>)
    ensures ids.One? ==> r == [ids.id]
    ensures ids.Many? ==> r == ids.ids
  {
    match ids
    case One(id) => [id]
    case Many(list) => list
  }

  class Repository<T> {
    const collection: Collection<T>
    const env: Env

    ghost predicate Valid()
      reads this, collection
    {
      collection.Valid()
    }

    constructor (collection: Collection<T>, env: Env)
      ensures this.collection == collection && this.env == env
    {
      this.collection := collection;
      this.env := env;
    }

    /** `get(id)`: the id is checked before the collection is read; the answer is the
        document with that id, or `null`. */
    method Get(id: ObjectId) returns (r: Result<Option<Entry<T>>, Failure>)
      ensures r.Err? <==> !env.isValidObjectId(id)
      ensures r.Err? ==> r.error == Thrown(InvalidIdError)
      ensures r.Ok? ==> r.value == FirstMatch(collection.docs, IdIs(id))
    {
      var objectId := GetValidObjectId(env, id);
      if objectId.Err? {
        return Err(objectId.error);
      }
      return Ok(FirstMatch(collection.docs, IdIs(objectId.value)));
    }

    /** `find(filter, limit = 10, page = 0)`: the cursor skips `limit * (page - 1)`
        matches only when `page > 0`, then takes `limit`. */
    method Find(filter: Filter<T>, limit: int := 10, page: int := 0) returns (r: Result<seq<Entry<T>>, Failure>)
      ensures r == Paged(Select(collection.docs, filter), limit, page)
    {
      var skip := 0;
      if page > 0 {
        skip := limit * (page - 1);
      }
      r := collection.Query(filter, skip, limit);
    }

    /** `create(data)`: falsy data (`None`) is refused before any write. */
    method Create(data: Option<T>, newId: ObjectId) returns (r: Result<Entry<T>, Failure>)
      requires Valid()
      modifies collection
      ensures Valid()
      ensures data.None? ==> r == Err(PlainError(EMPTY_OBJECT))
      ensures data.Some? && HasId(old(collection.docs), newId) ==> r == Err(DriverError(DUPLICATE_KEY))
      ensures r.Err? ==> collection.docs == old(collection.docs)
      ensures r.Ok? <==> data.Some? && !HasId(old(collection.docs), newId)
      ensures r.Ok? ==> r.value == Entry(newId, data.value)
                        && collection.docs == old(collection.docs) + [r.value]
    {
      if data.None? {
        return Err(PlainError(EMPTY_OBJECT));
      }
      r := collection.InsertOne(newId, data.value);
    }

    /** `createMany`: not implemented, it always throws. */
    method CreateMany(data: seq<T>) returns (r: Result<seq<Entry<T>>, Failure>)
      ensures r == Err(PlainError(NOT_IMPLEMENTED))
    {
      r := Err(PlainError(NOT_IMPLEMENTED));
    }

    /** `update(filter, data, multi)`: not implemented, it always throws. */
    method Update(filter: Filter<T>, patch: T -> T, multi: bool) returns (r: Result<(), Failure>)
      ensures r == Err(PlainError(NOT_IMPLEMENTED))
    {
      r := Err(PlainError(NOT_IMPLEMENTED));
    }

    /** `updateById(ids, data)`: every id is checked before the write, and the write is
        an `updateOne` on `{ _id: { $in: ids } }`. */
    method UpdateById(ids: IdOrIds, patch: T -> T) returns (r: Result<(), Failure>)
      requires Valid()
      modifies collection
      ensures Valid()
      ensures r.Ok? <==> AllValidIds(env, IdList(ids))
      ensures r.Err? ==> r.error == Thrown(InvalidIdError) && collection.docs == old(collection.docs)
      ensures r.Ok? ==> collection.docs == UpdateFirst(old(collection.docs), IdIn(IdList(ids)), patch)
    {
      var objectIds := ValidObjectIds(env, IdList(ids));
      if objectIds.Err? {
        return Err(objectIds.error);
      }
      collection.UpdateOne(IdIn(objectIds.value), patch);
      r := Ok(());
    }

    /** `remove(filter, multi)`: `deleteMany` when `multi`, otherwise `deleteOne`. */
    method Remove(filter: Filter<T>, multi: bool)
      requires Valid()
      modifies collection
      ensures Valid()
      ensures multi ==> collection.docs == DeleteWhere(old(collection.docs), filter)
      ensures !multi ==> collection.docs == DeleteFirst(old(collection.docs), filter)
      ensures !multi && (forall i :: 0 <= i < |old(collection.docs)| ==> !filter(old(collection.docs)[i])) ==>
        collection.docs == old(collection.docs)
      ensures !multi ==> forall k :: 0 <= k < |old(collection.docs)| && filter(old(collection.docs)[k]) &&
                                     (forall i :: 0 <= i < k ==> !filter(old(collection.docs)[i])) ==>
                           collection.docs == old(collection.docs)[..k] + old(collection.docs)[k + 1..]
    {
      if multi {
        collection.DeleteMany(filter);
      } else {
        DeleteFirstExact(collection.docs, filter);
        collection.DeleteOne(filter);
      }
    }

    /** `removeById(ids)`: every id is checked before the write, then every document
        whose id is listed goes. */
    method RemoveById(ids: IdOrIds) returns (r: Result<(), Failure>)
      requires Valid()
      modifies collection
      ensures Valid()
      ensures r.Ok? <==> AllValidIds(env, IdList(ids))
      ensures r.Err? ==> r.error == Thrown(InvalidIdError) && collection.docs == old(collection.docs)
      ensures r.Ok? ==> collection.docs == DeleteWhere(old(collection.docs), IdIn(IdList(ids)))
    {
      var objectIds := ValidObjectIds(env, IdList(ids));
      if objectIds.Err? {
        return Err(objectIds.error);
      }
      collection.DeleteMany(IdIn(objectIds.value));
      r := Ok(());
    }
  }

  /** `updateById` with several ids still changes at most one document, one whose id is
      listed. */
  lemma UpdateByIdChangesAtMostOne<T>(s: seq<Entry<T>>, ids: IdOrIds, patch: T -> T)
    ensures forall i :: 0 <= i < |s| && UpdateFirst(s, IdIn(IdList(ids)), patch)[i] != s[i] ==>
      s[i].id in IdList(ids)
    ensures forall i, j :: 0 <= i < j < |s| && UpdateFirst(s, IdIn(IdList(ids)), patch)[i] != s[i] ==>
      UpdateFirst(s, IdIn(IdList(ids)), patch)[j] == s[j]
  {
    UpdateFirstTouchesOne(s, IdIn(IdList(ids)), patch);
  }

  /** `removeById` removes exactly the listed documents: each unlisted document stays, in
      its order, and no listed one does. */
  lemma RemoveByIdRemovesListed<T>(s: seq<Entry<T>>, ids: IdOrIds)
    ensures forall i :: 0 <= i < |s| && s[i].id !in IdList(ids) ==> s[i] in DeleteWhere(s, IdIn(IdList(ids)))
    ensures forall x :: x in DeleteWhere(s, IdIn(IdList(ids))) ==> x.id !in IdList(ids)
  {
    var r := DeleteWhere(s, IdIn(IdList(ids)));
    forall x | x in r ensures x.id !in IdList(ids) {
      var k :| 0 <= k < |r| && r[k] == x;
    }
  }
}
