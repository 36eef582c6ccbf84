/** src/repositories/user.repository.ts: the user repository built on the mongoose base
    repository of src/services/repository.ts, with single-field updates, availability
    checks and the normalisation helpers. */
module RepositoriesUserRepository {
  import opened Outcomes
  import opened AppErrors
  import opened External
  import opened Store
  import opened Users
  import ServicesRepository

  class UserRepository {
    /** The base repository this one extends. */
    const repository: ServicesRepository.Repository<User>

    ghost predicate Valid()
      reads this, repository, repository.model
    {
      repository.Valid()
    }

    ghost function Docs(): seq<Entry<User>>
      reads this, repository, repository.model
    {
      repository.model.docs
    }

    constructor (repository: ServicesRepository.Repository<User>)
      ensures this.repository == repository
    {
      this.repository := repository;
    }

    /** `getUserByEmail(email)`: `find({ email }, 1)[0]`, the first user whose email is
        exactly `email`, or `undefined`. */
    method GetUserByEmail(email: string) returns (r: Option<Entry<User>>)
      ensures r == FirstMatch(Docs(), EmailIs(email))
      ensures r.None? <==> !EmailExists(Docs(), email)
      ensures r.Some? ==> r.value in Docs() && r.value.doc.email == email
    {
      LookupOne(Docs(), EmailIs(email));
      var users := repository.Find(EmailIs(email), 1);
      r := if |users.value| > 0 then Some(users.value[0]) else None;
    }

    /** `updateEmail(id, email)`: the id guard, then the empty-value guard, then
        `findByIdAndUpdate(id, { email })`. */
    method UpdateEmail(id: ObjectId, email: string) returns (r: Result<(), Failure>)
      requires Valid()
      modifies repository.model
      ensures Valid()
      ensures IdRejected(repository.env, id) ==> r == Err(Thrown(InvalidIdError)) && Docs() == old(Docs())
      ensures !IdRejected(repository.env, id) && email == "" ==>
        r == Err(Thrown(RepositoryMissingField)) && Docs() == old(Docs())
      ensures !IdRejected(repository.env, id) && email != "" ==>
        r == Ok(()) && Docs() == UpdateFirst(old(Docs()), IdIs(id), SetEmail(email))
    {
      if id == "" || !repository.env.isValidObjectId(id) {
        return Err(Thrown(InvalidIdError));
      }
      if email == "" {
        return Err(Thrown(RepositoryMissingField));
      }
      repository.model.UpdateOne(IdIs(id), SetEmail(email));
      r := Ok(());
    }

    /** `updatePassword(id, password)`: the same guards, then
        `findByIdAndUpdate(id, { password })`. */
    method UpdatePassword(id: ObjectId, password: string) returns (r: Result<(), Failure>)
      requires Valid()
      modifies repository.model
      ensures Valid()
      ensures IdRejected(repository.env, id) ==> r == Err(Thrown(InvalidIdError)) && Docs() == old(Docs())
      ensures !IdRejected(repository.env, id) && password == "" ==>
        r == Err(Thrown(RepositoryMissingField)) && Docs() == old(Docs())
      ensures !IdRejected(repository.env, id) && password != "" ==>
        r == Ok(()) && Docs() == UpdateFirst(old(Docs()), IdIs(id), SetPassword(password))
    {
      if id == "" || !repository.env.isValidObjectId(id) {
        return Err(Thrown(InvalidIdError));
      }
      if password == "" {
        return Err(Thrown(RepositoryMissingField));
      }
      repository.model.UpdateOne(IdIs(id), SetPassword(password));
      r := Ok(());
    }

    /** `isUsernameAvailable(username)`: false for an invalid username without a lookup;
        otherwise true iff no stored user has exactly the given, unnormalised,
        username. */
    method IsUsernameAvailable(username: string) returns (b: bool)
      ensures b <==> IsValidUsername(username) && !UsernameExists(Docs(), username)
    {
      if !IsValidUsername(username) {
        return false;
      }
      LookupOne(Docs(), UsernameIs(username));
      var user := repository.Find(UsernameIs(username), 1);
      if |user.value| > 0 {
        return false;
      }
      return true;
    }

    /** `isEmailAvailable(email)`: true iff no stored user has the normalised email. */
    method IsEmailAvailable(givenEmail: string) returns (b: bool)
      ensures b <==> !EmailExists(Docs(), NormalizeEmail(givenEmail))
    {
      var email := NormalizeEmail(givenEmail);
      LookupOne(Docs(), EmailIs(email));
      var user := repository.Find(EmailIs(email), 1);
      if |user.value| > 0 {
        return false;
      }
      return true;
    }

    /** `normalizeUser(user)`: `id` takes the old `_id`; `_id`, `__v`, the password, the
        role and `deletedAt` are cleared, in place; the object itself is returned. */
    method NormalizeUser(user: UserObject) returns (r: UserObject)
      modifies user
      ensures r == user
      ensures user.id == old(user.oid) && user.oid.None? && user.version.None?
      ensures user.password.None? && user.role.None? && user.deletedAt.None?
      ensures user.username == old(user.username) && user.email == old(user.email)
      ensures user.lastLoggedIn == old(user.lastLoggedIn)
    {
      var normalizedUser := user;
      normalizedUser.id := normalizedUser.oid;
      normalizedUser.oid := None;
      normalizedUser.version := None;
      normalizedUser.password := None;
      normalizedUser.role := None;
      normalizedUser.deletedAt := None;
      return normalizedUser;
    }
  }
}
