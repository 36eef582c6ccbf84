/** The base repository of src/repositories/repository.ts, over the MongoDB driver:
    id-checked reads and writes, `getAll` and `find` with their own default windows, and
    a `removeMany` that ends with an unconditional `deleteMany({})`. */
module RepositoriesRepository {
  import opened Outcomes
  import opened AppErrors
  import opened External
  import opened Store

  class Repository<T> {
    const collection: Collection<T>
    const env: Env

    ghost predicate Valid()
      reads this, collection
    {
      collection.Valid()
    }

    constructor (collection: Collection<T>, env: Env)
      ensures this.collection == collection && this.env == env
    {
      this.collection := collection;
      this.env := env;
    }

    /** `get(id)`: the id is checked before the collection is read. */
    method Get(id: ObjectId) returns (r: Result<Option<Entry<T>>, Failure>)
      ensures r.Err? <==> !env.isValidObjectId(id)
      ensures r.Err? ==> r.error == Thrown(InvalidIdError)
      ensures r.Ok? ==> r.value == FirstMatch(collection.docs, IdIs(id))
    {
      var objectId := GetValidObjectId(env, id);
      if objectId.Err? {
        return Err(objectId.error);
      }
      return Ok(FirstMatch(collection.docs, IdIs(objectId.value)));
    }

    /** `getAll(limit = 20, page = 1)`: every document, through the paging window. */
    method GetAll(limit: int := 20, page: int := 1) returns (r: Result<seq<Entry<T>>, Failure>)
      ensures r == Paged(collection.docs, limit, page)
    {
      var skip := 0;
      if page > 0 {
        skip := limit * (page - 1);
      }
      r := collection.Query(MatchAll(), skip, limit);
      SelectAll(collection.docs);
    }

    /** `find(filter, limit = 10, page = 0)`. */
    method Find(filter: Filter<T>, limit: int := 10, page: int := 0) returns (r: Result<seq<Entry<T>>, Failure>)
      ensures r == Paged(Select(collection.docs, filter), limit, page)
    {
      var skip := 0;
      if page > 0 {
        skip := limit * (page - 1);
      }
      r := collection.Query(filter, skip, limit);
    }

    /** `create(data)`: falsy data (`None`) is refused before any write. */
    method Create(data: Option<T>, newId: ObjectId) returns (r: Result<Entry<T>, Failure>)
      requires Valid()
      modifies collection
      ensures Valid()
      ensures data.None? ==> r == Err(PlainError(EMPTY_OBJECT))
      ensures data.Some? && HasId(old(collection.docs), newId) ==> r == Err(DriverError(DUPLICATE_KEY))
      ensures r.Err? ==> collection.docs == old(collection.docs)
      ensures r.Ok? <==> data.Some? && !HasId(old(collection.docs), newId)
      ensures r.Ok? ==> r.value == Entry(newId, data.value)
                        && collection.docs == old(collection.docs) + [r.value]
    {
      if data.None? {
        return Err(PlainError(EMPTY_OBJECT));
      }
      r := collection.InsertOne(newId, data.value);
    }

    /** `createMany`: not implemented, it always throws. */
    method CreateMany(data: seq<T>) returns (r: Result<seq<Entry<T>>, Failure>)
      ensures r == Err(PlainError(NOT_IMPLEMENTED))
    {
      r := Err(PlainError(NOT_IMPLEMENTED));
    }

    /** `update(data)`: not implemented, it always throws. */
    method Update(patch: T -> T) returns (r: Result<(), Failure>)
      ensures r == Err(PlainError(NOT_IMPLEMENTED))
    {
      r := Err(PlainError(NOT_IMPLEMENTED));
    }

    /** `remove(id)`: the id is checked, then `findOneAndDelete` removes the document
        with that id, if any. */
    method Remove(id: ObjectId) returns (r: Result<(), Failure>)
      requires Valid()
      modifies collection
      ensures Valid()
      ensures r.Ok? <==> env.isValidObjectId(id)
      ensures r.Err? ==> r.error == Thrown(InvalidIdError) && collection.docs == old(collection.docs)
      ensures r.Ok? ==> collection.docs == DeleteFirst(old(collection.docs), IdIs(id))
      ensures r.Ok? ==> collection.docs == DeleteWhere(old(collection.docs), IdIs(id))
    {
      var objectId := GetValidObjectId(env, id);
      if objectId.Err? {
        return Err(objectId.error);
      }
      DeleteFirstByIdIsDeleteWhere(collection.docs, id);
      collection.DeleteOne(IdIs(objectId.value));
      r := Ok(());
    }

    /** `removeMany(ids?)`: a non-empty list is checked and its documents deleted, and then
        `deleteMany({})` runs whatever was passed, so a call that does not throw leaves
        the collection empty. */
    method RemoveMany(ids: Option<seq<ObjectId>>) returns (r: Result<(), Failure>)
      requires Valid()
      modifies collection
      ensures Valid()
      ensures r.Err? <==> ids.Some? && |ids.value| > 0 && !AllValidIds(env, ids.value)
      ensures r.Err? ==> r.error == Thrown(InvalidIdError) && collection.docs == old(collection.docs)
      ensures r.Ok? ==> collection.docs == []
    {
      if ids.Some? && |ids.value| > 0 {
        var objectIds := ValidObjectIds(env, ids.value);
        if objectIds.Err? {
          return Err(objectIds.error);
        }
        collection.DeleteMany(IdIn(objectIds.value));
      }
      var before := collection.docs;
      collection.DeleteMany(MatchAll());
      DeleteAllEmpties(before);
      r := Ok(());
    }

    /** `updateById(id, data)`: the id is checked, then the legacy `update` changes the
        document with that id, if any. */
    method UpdateById(id: ObjectId, patch: T -> T) returns (r: Result<(), Failure>)
      requires Valid()
      modifies collection
      ensures Valid()
      ensures r.Ok? <==> env.isValidObjectId(id)
      ensures r.Err? ==> r.error == Thrown(InvalidIdError) && collection.docs == old(collection.docs)
      ensures r.Ok? ==> collection.docs == UpdateFirst(old(collection.docs), IdIs(id), patch)
    {
      var objectId := GetValidObjectId(env, id);
      if objectId.Err? {
        return Err(objectId.error);
      }
      collection.UpdateOne(IdIs(objectId.value), patch);
      r := Ok(());
    }
  }
}
