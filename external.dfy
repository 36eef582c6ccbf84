/** Library calls whose code is not part of this model, passed in as values:
    validator's `isEmail`, MongoDB's `ObjectId.isValid`, and bcrypt's salted `hash`
    (the salt is not modelled: one password always hashes to one string). */
module External {
  import opened Outcomes
  import opened AppErrors

  datatype Env = Env(isEmail: string -> bool, isValidObjectId: string -> bool, hash: string -> string)

  /** `getValidObjectId(id)`: the id itself when `ObjectId.isValid(id)`, otherwise an
      `InvalidIdError` is thrown. */
  function GetValidObjectId(env: Env, id: string): (r: Result<string, Failure>)
    ensures r.Ok? <==> env.isValidObjectId(id)
    ensures r.Ok? ==> r.value == id
    ensures r.Err? ==> r.error == Thrown(InvalidIdError)
  {
    if env.isValidObjectId(id) then Ok(id) else Err(Thrown(InvalidIdError))
  }

  /** The guard `!id || !Types.ObjectId.isValid(id)` of the mongoose-based repositories:
      an empty id is rejected before the library is asked. */
  predicate IdRejected(env: Env, id: string)
  {
    id == "" || !env.isValidObjectId(id)
  }

  /** Every id of the list passes `ObjectId.isValid`. */
  predicate AllValidIds(env: Env, ids: seq<string>)
  {
    forall k :: 0 <= k < |ids| ==> env.isValidObjectId(ids[k])
  }

  /** `ids.map((id) => getValidObjectId(id))`: the first invalid id throws, and the
      ids come back unchanged when all are valid. */
  method ValidObjectIds(env: Env, ids: seq<string>) returns (r: Result<seq<string>, Failure>)
    ensures r.Ok? <==> AllValidIds(env, ids)
    ensures r.Ok? ==> r.value == ids
    ensures r.Err? ==> r.error == Thrown(InvalidIdError)
  {
    var mapped: seq<string> := [];
    for i := 0 to |ids|
      invariant mapped == ids[..i]
      invariant forall k :: 0 <= k < i ==> env.isValidObjectId(ids[k])
    {
      var one := GetValidObjectId(env, ids[i]);
      if one.Err? {
        return Err(one.error);
      }
      mapped := mapped + [one.value];
    }
    assert ids[..|ids|] == ids;
    return Ok(mapped);
  }
}
