/** src/services/users/user.controller.ts: the user resource's handlers, on top of the
    generic handlers of src/services/service.ts, with creation behind the guard chain and
    the email and password updates, all through the user repository of
    src/repositories/user.repository.ts. A handler's result is the status it sends. */
module ServicesUsersUserController {
  import opened Outcomes
  import opened AppErrors
  import opened External
  import opened Store
  import opened Users
  import ServicesService
  import RepositoriesUserRepository

  const CREATED: int := 201
  const NO_CONTENT: int := 204

  class UserController {
    /** The generic handlers this controller extends, sharing its repository. */
    const service: ServicesService.Service<User>
    const userRepository: RepositoriesUserRepository.UserRepository

    ghost predicate Valid()
      reads this, service, userRepository, userRepository.repository, userRepository.repository.model
    {
      userRepository.Valid() && service.repository == userRepository.repository
    }

    ghost function Docs(): seq<Entry<User>>
      reads this, userRepository, userRepository.repository, userRepository.repository.model
    {
      userRepository.repository.model.docs
    }

    ghost function Env(): Env
      reads this, userRepository, userRepository.repository
    {
      userRepository.repository.env
    }

    constructor (repository: RepositoriesUserRepository.UserRepository, config: Option<int>)
      ensures userRepository == repository && service.repository == repository.repository
      ensures service.pageSize == ServicesService.PageSizeOf(config)
    {
      userRepository := repository;
      service := new ServicesService.Service(repository.repository, config);
    }

    /** `create(req)`: the five input checks in order, then the lookup on the normalised
        username or the normalised email (limit 2), the conflict loop, and the insert of
        both normalised names with the hash of the trimmed password; 201 on success. */
    method Create(data: CreateUserInput, newId: ObjectId) returns (r: Result<int, Failure>)
      requires Valid()
      modifies userRepository.repository.model
      ensures Valid()
      ensures CreateInputError(Env(), data).Some? ==>
        r == Err(Thrown(CreateInputError(Env(), data).value)) && Docs() == old(Docs())
      ensures CreateInputError(Env(), data).None? ==>
        InsertOutcome(old(Docs()), Docs(), r, CREATED, newId, NormalizeUsername(data.username),
                      NormalizeEmail(data.email), HashPassword(Env(), data.password))
      ensures UniqueAccounts(old(Docs())) ==> UniqueAccounts(Docs())
    {
      var env := userRepository.repository.env;
      if data.email == "" {
        return Err(Thrown(MissingFieldError("email")));
      }
      if data.username == "" {
        return Err(Thrown(MissingFieldError("username")));
      }
      if data.password == "" {
        return Err(Thrown(MissingFieldError("password")));
      }
      if !env.isEmail(data.email) {
        return Err(Thrown(BadRequestError(INVALID_EMAIL)));
      }
      if !PasswordLengthOk(data.password) {
        return Err(Thrown(BadRequestError(INVALID_PASSWORD)));
      }

      var normalizedEmail := NormalizeEmail(data.email);
      var normalizedUsername := NormalizeUsername(data.username);

      ConflictOfLookup(Docs(), normalizedEmail, normalizedUsername, 2);
      var users := userRepository.repository.Find(EmailOrUsername(normalizedUsername, normalizedEmail), 2);
      var conflict := FirstConflict(users.value, normalizedEmail, normalizedUsername);
      if conflict.Some? {
        return Err(Thrown(conflict.value));
      }

      var password := HashPassword(env, data.password);
      var userData := NewUser(normalizedUsername, normalizedEmail, password);
      var created := userRepository.repository.Create(Some(userData), newId);
      if created.Err? {
        return Err(created.error);
      }
      if UniqueAccounts(old(Docs())) {
        CreateKeepsAccountsUnique(old(Docs()), newId, userData);
      }
      r := Ok(201);
    }

    /** `updateEmail(req)`: the id, the email and its format are checked; the user is
        read (a missing one is dereferenced); a changed email is normalised, refused when
        another account has it, and written; 204 on success. */
    method UpdateEmail(id: ObjectId, email: string) returns (r: Result<int, Failure>)
      requires Valid()
      modifies userRepository.repository.model
      ensures Valid()
      ensures id == "" ==> r == Err(Thrown(MissingFieldError("id"))) && Docs() == old(Docs())
      ensures id != "" && email == "" ==> r == Err(Thrown(MissingFieldError("email"))) && Docs() == old(Docs())
      ensures id != "" && email != "" && !Env().isEmail(email) ==>
        r == Err(Thrown(BadRequestError(INVALID_EMAIL))) && Docs() == old(Docs())
      ensures id != "" && email != "" && Env().isEmail(email) && !Env().isValidObjectId(id) ==>
        r == Err(Thrown(InvalidIdError)) && Docs() == old(Docs())
      ensures id != "" && email != "" && Env().isEmail(email) && Env().isValidObjectId(id) ==>
        var user := FirstMatch(old(Docs()), IdIs(id));
        var normalizedEmail := NormalizeEmail(email);
        (user.None? ==> r == Err(NullDereference) && Docs() == old(Docs()))
        && (user.Some? && email == user.value.doc.email ==> r == Ok(NO_CONTENT) && Docs() == old(Docs()))
        && (user.Some? && email != user.value.doc.email && EmailExists(old(Docs()), normalizedEmail) ==>
              r == Err(Thrown(BadRequestError(EMAIL_NOT_AVAILABLE))) && Docs() == old(Docs()))
        && (user.Some? && email != user.value.doc.email && !EmailExists(old(Docs()), normalizedEmail) ==>
              r == Ok(NO_CONTENT) && Docs() == UpdateFirst(old(Docs()), IdIs(id), SetEmail(normalizedEmail)))
      ensures UniqueAccounts(old(Docs())) ==> UniqueAccounts(Docs())
    {
      var env := userRepository.repository.env;
      if id == "" {
        return Err(Thrown(MissingFieldError("id")));
      }
      if email == "" {
        return Err(Thrown(MissingFieldError("email")));
      }
      if !env.isEmail(email) {
        return Err(Thrown(BadRequestError(INVALID_EMAIL)));
      }

      var found := userRepository.repository.Get(id);
      if found.Err? {
        return Err(found.error);
      }
      if found.value.None? {
        return Err(NullDereference);
      }
      var user := found.value.value;
      if email != user.doc.email {
        var normalizedEmail := NormalizeEmail(email);
        var isEmailAvailable := userRepository.IsEmailAvailable(normalizedEmail);
        NormalizeEmailIdempotent(email);
        if !isEmailAvailable {
          return Err(Thrown(BadRequestError(EMAIL_NOT_AVAILABLE)));
        }
        ghost var before := Docs();
        var updated := userRepository.UpdateEmail(user.id, normalizedEmail);
        assert updated.Ok?;
        if UniqueAccounts(before) {
          SetFreeEmailKeepsUnique(before, user.id, normalizedEmail);
        }
      }
      r := Ok(204);
    }

    /** `updatePassword(req)`: the id and the password are checked for presence; the hash
        of the trimmed password is written by the repository, which checks the id and
        refuses an empty hash; 204 on success. */
    method UpdatePassword(id: ObjectId, password: string) returns (r: Result<int, Failure>)
      requires Valid()
      modifies userRepository.repository.model
      ensures Valid()
      ensures id == "" ==> r == Err(Thrown(MissingFieldError("id"))) && Docs() == old(Docs())
      ensures id != "" && password == "" ==> r == Err(Thrown(MissingFieldError("password"))) && Docs() == old(Docs())
      ensures id != "" && password != "" && !Env().isValidObjectId(id) ==>
        r == Err(Thrown(InvalidIdError)) && Docs() == old(Docs())
      ensures id != "" && password != "" && Env().isValidObjectId(id) ==>
        var hash := HashPassword(Env(), password);
        (hash == "" ==> r == Err(Thrown(RepositoryMissingField)) && Docs() == old(Docs()))
        && (hash != "" ==> r == Ok(NO_CONTENT) && Docs() == UpdateFirst(old(Docs()), IdIs(id), SetPassword(hash)))
      ensures UniqueAccounts(old(Docs())) ==> UniqueAccounts(Docs())
    {
      if id == "" {
        return Err(Thrown(MissingFieldError("id")));
      }
      if password == "" {
        return Err(Thrown(MissingFieldError("password")));
      }
      var newPassword := HashPassword(userRepository.repository.env, password);
      ghost var before := Docs();
      var updated := userRepository.UpdatePassword(id, newPassword);
      if updated.Err? {
        return Err(updated.error);
      }
      if UniqueAccounts(before) {
        SetPasswordKeepsUnique(before, id, newPassword);
      }
      r := Ok(204);
    }
  }
}
