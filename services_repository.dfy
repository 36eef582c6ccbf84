/** The repository of src/services/repository.ts, over a mongoose model: the same
    operations and guards as src/core/base.repository.ts, returning lean documents. */
module ServicesRepository {
  import opened Outcomes
  import opened AppErrors
  import opened External
  import opened Store

  class Repository<T> {
    const model: Collection<T>
    const env: Env

    ghost predicate Valid()
      reads this, model
    {
      model.Valid()
    }

    constructor (model: Collection<T>, env: Env)
      ensures this.model == model && this.env == env
    {
      this.model := model;
      this.env := env;
    }

    /** `get(id)`: an empty or invalid id throws before any query; otherwise
        `findById`. */
    method Get(id: ObjectId) returns (r: Result<Option<Entry<T>>, Failure>)
      ensures r.Err? <==> IdRejected(env, id)
      ensures r.Err? ==> r.error == Thrown(InvalidIdError)
      ensures r.Ok? ==> r.value == FirstMatch(model.docs, IdIs(id))
    {
      if id == "" || !env.isValidObjectId(id) {
        return Err(Thrown(InvalidIdError));
      }
      return Ok(FirstMatch(model.docs, IdIs(id)));
    }

    /** `getAll(limit = 20, page = 1)`. */
    method GetAll(limit: int := 20, page: int := 1) returns (r: Result<seq<Entry<T>>, Failure>)
      ensures r == Paged(model.docs, limit, page)
    {
      var skip := 0;
      if page > 0 {
        skip := limit * (page - 1);
      }
      r := model.Query(MatchAll(), skip, limit);
      SelectAll(model.docs);
    }

    /** `find(filter, limit = 10, page = 0)`. */
    method Find(filter: Filter<T>, limit: int := 10, page: int := 0) returns (r: Result<seq<Entry<T>>, Failure>)
      ensures r == Paged(Select(model.docs, filter), limit, page)
    {
      var skip := 0;
      if page > 0 {
        skip := limit * (page - 1);
      }
      r := model.Query(filter, skip, limit);
    }

    /** `create(data)`: falsy data (`None`) is refused before any write. */
    method Create(data: Option<T>, newId: ObjectId) returns (r: Result<Entry<T>, Failure>)
      requires Valid()
      modifies model
      ensures Valid()
      ensures data.None? ==> r == Err(PlainError(EMPTY_OBJECT))
      ensures data.Some? && HasId(old(model.docs), newId) ==> r == Err(DriverError(DUPLICATE_KEY))
      ensures r.Err? ==> model.docs == old(model.docs)
      ensures r.Ok? <==> data.Some? && !HasId(old(model.docs), newId)
      ensures r.Ok? ==> r.value == Entry(newId, data.value) && model.docs == old(model.docs) + [r.value]
    {
      if data.None? {
        return Err(PlainError(EMPTY_OBJECT));
      }
      r := model.InsertOne(newId, data.value);
    }

    /** `createMany`: not implemented, it always throws. */
    method CreateMany(data: seq<T>) returns (r: Result<seq<Entry<T>>, Failure>)
      ensures r == Err(PlainError(NOT_IMPLEMENTED))
    {
      r := Err(PlainError(NOT_IMPLEMENTED));
    }

    /** `remove(id)`: the id guard, then `findByIdAndRemove`. */
    method Remove(id: ObjectId) returns (r: Result<(), Failure>)
      requires Valid()
      modifies model
      ensures Valid()
      ensures r.Err? <==> IdRejected(env, id)
      ensures r.Err? ==> r.error == Thrown(InvalidIdError) && model.docs == old(model.docs)
      ensures r.Ok? ==> model.docs == DeleteFirst(old(model.docs), IdIs(id))
      ensures r.Ok? ==> model.docs == DeleteWhere(old(model.docs), IdIs(id))
    {
      if id == "" || !env.isValidObjectId(id) {
        return Err(Thrown(InvalidIdError));
      }
      DeleteFirstByIdIsDeleteWhere(model.docs, id);
      model.DeleteOne(IdIs(id));
      r := Ok(());
    }

    /** `removeMany(ids?)`: the listed documents are deleted without any id check, and
        then `deleteMany({})` deletes the rest. */
    method RemoveMany(ids: Option<seq<ObjectId>>)
      requires Valid()
      modifies model
      ensures Valid()
      ensures model.docs == []
    {
      if ids.Some? && |ids.value| > 0 {
        model.DeleteMany(IdIn(ids.value));
      }
      var before := model.docs;
      model.DeleteMany(MatchAll());
      DeleteAllEmpties(before);
    }
  }
}
