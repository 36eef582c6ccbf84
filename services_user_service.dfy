/** src/services/user.service.ts: user creation with both the username and the email
    normalised, a paginated listing, and the password and email updates, over the
    repository of src/repositories/repository.ts. The repository's existence lookups
    compare exactly, as src/user/user.repository.ts does. */
module ServicesUserService {
  import opened Outcomes
  import opened AppErrors
  import opened External
  import opened Store
  import opened Users
  import opened Pagination
  import RepositoriesRepository

  /** `UserGetDTO`: an optional filter, the window and the path the links are built on. */
  datatype UserGetDto = UserGetDto(filter: Option<Filter<User>>, limit: int, pageNumber: int, path: string)

  /** `UserUpdatePasswordDTO` and `UserUpdateEmailDTO`. */
  datatype UpdatePasswordDto = UpdatePasswordDto(id: ObjectId, password: string)
  datatype UpdateEmailDto = UpdateEmailDto(id: ObjectId, newEmail: string)

  class UserService {
    const userRepository: RepositoriesRepository.Repository<User>
    const env: Env

    ghost predicate Valid()
      reads this, userRepository, userRepository.collection
    {
      userRepository.Valid() && userRepository.env == env
    }

    ghost function Docs(): seq<Entry<User>>
      reads this, userRepository, userRepository.collection
    {
      userRepository.collection.docs
    }

    constructor (userRepository: RepositoriesRepository.Repository<User>, env: Env)
      ensures this.userRepository == userRepository && this.env == env
    {
      this.userRepository := userRepository;
      this.env := env;
    }

    /** `createUser(data)`: no input checks; the lookup on the normalised username or the
        normalised email (limit 2), the conflict loop, and the insert of both normalised
        names with the hash of the trimmed password. */
    method CreateUser(data: CreateUserInput, newId: ObjectId) returns (r: Result<(), Failure>)
      requires Valid()
      modifies userRepository.collection
      ensures Valid()
      ensures InsertOutcome(old(Docs()), Docs(), r, (), newId, NormalizeUsername(data.username),
                            NormalizeEmail(data.email), HashPassword(env, data.password))
      ensures UniqueAccounts(old(Docs())) ==> UniqueAccounts(Docs())
    {
      var normalizedEmail := NormalizeEmail(data.email);
      var normalizedUsername := NormalizeUsername(data.username);

      ConflictOfLookup(Docs(), normalizedEmail, normalizedUsername, 2);
      var users := userRepository.Find(EmailOrUsername(normalizedUsername, normalizedEmail), 2);
      var conflict := FirstConflict(users.value, normalizedEmail, normalizedUsername);
      if conflict.Some? {
        return Err(Thrown(conflict.value));
      }

      var password := HashPassword(env, data.password);
      var userData := NewUser(normalizedUsername, normalizedEmail, password);
      var created := userRepository.Create(Some(userData), newId);
      if created.Err? {
        return Err(created.error);
      }
      if UniqueAccounts(old(Docs())) {
        CreateKeepsAccountsUnique(old(Docs()), newId, userData);
      }
      r := Ok(());
    }

    /** `getAllUsers(dto)`: `find(filter || {}, limit, pageNumber)` wrapped by
        `paginate`; the driver's refusal of a negative skip propagates. */
    method GetAllUsers(dto: UserGetDto, baseUrl: string) returns (r: Result<Page<Entry<User>>, Failure>)
      ensures var matches := Select(Docs(), if dto.filter.Some? then dto.filter.value else MatchAll());
        r.Err? <==> Paged(matches, dto.limit, dto.pageNumber).Err?
      ensures r.Err? <==> dto.limit < 0 && dto.pageNumber > 1
      ensures var matches := Select(Docs(), if dto.filter.Some? then dto.filter.value else MatchAll());
        r.Ok? ==> r.value == Paginate(Paged(matches, dto.limit, dto.pageNumber).value,
                                      dto.limit, dto.pageNumber, dto.path, baseUrl)
    {
      var filter := if dto.filter.Some? then dto.filter.value else MatchAll();
      PagedFailsExactly(Select(Docs(), filter), dto.limit, dto.pageNumber);
      var documents := userRepository.Find(filter, dto.limit, dto.pageNumber);
      if documents.Err? {
        return Err(documents.error);
      }
      r := Ok(Paginate(documents.value, dto.limit, dto.pageNumber, dto.path, baseUrl));
    }

    /** `updatePassword(data)`: the trimmed password is hashed and written through
        `updateById`, which checks the id. */
    method UpdatePassword(data: UpdatePasswordDto) returns (r: Result<(), Failure>)
      requires Valid()
      modifies userRepository.collection
      ensures Valid()
      ensures r.Ok? <==> env.isValidObjectId(data.id)
      ensures r.Err? ==> r == Err(Thrown(InvalidIdError)) && Docs() == old(Docs())
      ensures r.Ok? ==> Docs() == UpdateFirst(old(Docs()), IdIs(data.id), SetPassword(HashPassword(env, data.password)))
      ensures UniqueAccounts(old(Docs())) ==> UniqueAccounts(Docs())
    {
      var newPassword := HashPassword(env, data.password);
      ghost var before := Docs();
      r := userRepository.UpdateById(data.id, SetPassword(newPassword));
      if r.Ok? && UniqueAccounts(before) {
        SetPasswordKeepsUnique(before, data.id, newPassword);
      }
    }

    /** `updateEmail(data)` as written: the user is read; a missing user is dereferenced;
        a changed email is normalised and written only when `isEmailAvailable` returns
        true, and `isEmailAvailable` returns whether the email is already taken. */
    method UpdateEmail(data: UpdateEmailDto) returns (r: Result<(), Failure>)
      requires Valid()
      modifies userRepository.collection
      ensures Valid()
      ensures !env.isValidObjectId(data.id) ==> r == Err(Thrown(InvalidIdError)) && Docs() == old(Docs())
      ensures env.isValidObjectId(data.id) && FirstMatch(old(Docs()), IdIs(data.id)).None? ==>
        r == Err(NullDereference) && Docs() == old(Docs())
      ensures env.isValidObjectId(data.id) && FirstMatch(old(Docs()), IdIs(data.id)).Some? ==>
        var user := FirstMatch(old(Docs()), IdIs(data.id)).value;
        var email := NormalizeEmail(data.newEmail);
        (data.newEmail == user.doc.email ==> r == Ok(()) && Docs() == old(Docs()))
        && (data.newEmail != user.doc.email && !EmailExists(old(Docs()), email) ==>
              r == Err(Thrown(BadRequestError(EMAIL_NOT_AVAILABLE))) && Docs() == old(Docs()))
        && (data.newEmail != user.doc.email && EmailExists(old(Docs()), email) ==>
              r == Ok(()) && Docs() == UpdateFirst(old(Docs()), IdIs(data.id), SetEmail(email)))
    {
      var found := userRepository.Get(data.id);
      if found.Err? {
        return Err(found.error);
      }
      if found.value.None? {
        return Err(NullDereference);
      }
      var user := found.value.value;
      if data.newEmail != user.doc.email {
        var normalizedEmail := NormalizeEmail(data.newEmail);
        var isEmailAvailable := IsEmailAvailable(normalizedEmail);
        NormalizeEmailIdempotent(data.newEmail);
        if !isEmailAvailable {
          return Err(Thrown(BadRequestError(EMAIL_NOT_AVAILABLE)));
        }
        var updated := userRepository.UpdateById(user.id, SetEmail(normalizedEmail));
        assert updated.Ok?;
      }
      r := Ok(());
    }

    /** The update `updateEmail` is meant to be: a changed email is written only when no
        stored user has it yet, so that two accounts never share an email. */
    method UpdateEmailAsIntended(data: UpdateEmailDto) returns (r: Result<(), Failure>)
      requires Valid()
      modifies userRepository.collection
      ensures Valid()
      ensures !env.isValidObjectId(data.id) ==> r == Err(Thrown(InvalidIdError)) && Docs() == old(Docs())
      ensures env.isValidObjectId(data.id) && FirstMatch(old(Docs()), IdIs(data.id)).None? ==>
        r == Err(NullDereference) && Docs() == old(Docs())
      ensures env.isValidObjectId(data.id) && FirstMatch(old(Docs()), IdIs(data.id)).Some? ==>
        var user := FirstMatch(old(Docs()), IdIs(data.id)).value;
        var email := NormalizeEmail(data.newEmail);
        (data.newEmail == user.doc.email ==> r == Ok(()) && Docs() == old(Docs()))
        && (data.newEmail != user.doc.email && EmailExists(old(Docs()), email) ==>
              r == Err(Thrown(BadRequestError(EMAIL_NOT_AVAILABLE))) && Docs() == old(Docs()))
        && (data.newEmail != user.doc.email && !EmailExists(old(Docs()), email) ==>
              r == Ok(()) && Docs() == UpdateFirst(old(Docs()), IdIs(data.id), SetEmail(email)))
      ensures UniqueAccounts(old(Docs())) ==> UniqueAccounts(Docs())
    {
      var found := userRepository.Get(data.id);
      if found.Err? {
        return Err(found.error);
      }
      if found.value.None? {
        return Err(NullDereference);
      }
      var user := found.value.value;
      if data.newEmail != user.doc.email {
        var normalizedEmail := NormalizeEmail(data.newEmail);
        var isEmailTaken := IsEmailAvailable(normalizedEmail);
        NormalizeEmailIdempotent(data.newEmail);
        if isEmailTaken {
          return Err(Thrown(BadRequestError(EMAIL_NOT_AVAILABLE)));
        }
        ghost var before := Docs();
        var updated := userRepository.UpdateById(user.id, SetEmail(normalizedEmail));
        assert updated.Ok?;
        if UniqueAccounts(before) {
          SetFreeEmailKeepsUnique(before, user.id, normalizedEmail);
        }
      }
      r := Ok(());
    }

    /** `isUsernameAvailable(username)`: false for an invalid username; otherwise the
        repository's `isUsernameExists` of the username as given. */
    method IsUsernameAvailable(username: string) returns (b: bool)
      ensures b <==> IsValidUsername(username) && UsernameExists(Docs(), username)
    {
      if !IsValidUsername(username) {
        return false;
      }
      var users := userRepository.collection.Query(UsernameIs(username), 0, 0);
      FirstMatchIsFirstSelected(Docs(), UsernameIs(username));
      b := |users.value| > 0;
    }

    /** `isEmailAvailable(email)`: the repository's `isEmailExists` of the normalised
        email. */
    method IsEmailAvailable(givenEmail: string) returns (b: bool)
      ensures b <==> EmailExists(Docs(), NormalizeEmail(givenEmail))
    {
      var email := NormalizeEmail(givenEmail);
      var users := userRepository.collection.Query(EmailIs(email), 0, 0);
      FirstMatchIsFirstSelected(Docs(), EmailIs(email));
      b := |users.value| > 0;
    }

    /** `normalizeUser(user)`: the password, the role and `deletedAt` are cleared in place
        and the same object is returned. */
    method NormalizeUser(user: UserObject) returns (r: UserObject)
      modifies user
      ensures r == user
      ensures user.password.None? && user.role.None? && user.deletedAt.None?
      ensures user.id == old(user.id) && user.oid == old(user.oid) && user.version == old(user.version)
      ensures user.username == old(user.username) && user.email == old(user.email)
      ensures user.lastLoggedIn == old(user.lastLoggedIn)
    {
      var normalizedUser := user;
      normalizedUser.password := None;
      normalizedUser.role := None;
      normalizedUser.deletedAt := None;
      return normalizedUser;
    }
  }

  /** The two stored users of the counterexample below. */
  function TwoUsers(): (s: seq<Entry<User>>)
    ensures |s| == 2 && s[0].id == "a" && s[1].id == "b"
    ensures s[0].doc.email == "a@x.io" && s[1].doc.email == "b@x.io"
  {
    [Entry("a", NewUser("alice", "a@x.io", "h1")), Entry("b", NewUser("bobby", "b@x.io", "h2"))]
  }

  lemma SampleEmailsNormalized()
    ensures NormalizeEmail("b@x.io") == "b@x.io" && NormalizeEmail("c@x.io") == "c@x.io"
  {
  }

  lemma TwoUsersUnique()
    ensures UniqueAccounts(TwoUsers())
    ensures EmailExists(TwoUsers(), "b@x.io") && !EmailExists(TwoUsers(), "c@x.io")
  {
    var s := TwoUsers();
    assert EmailIs("b@x.io")(s[1]);
  }

  /** `updateEmail` as written, on two users with distinct emails: moving user "a" to the
      address user "b" already has passes the check and ends with two accounts sharing
      one email, while moving it to an address nobody has is refused. */
  lemma UpdateEmailAsWrittenBreaksUniqueness()
    ensures UniqueAccounts(TwoUsers())
    ensures FirstMatch(TwoUsers(), IdIs("a")) == Some(TwoUsers()[0])
    ensures NormalizeEmail("b@x.io") == "b@x.io" && EmailExists(TwoUsers(), "b@x.io")
    ensures !UniqueAccounts(UpdateFirst(TwoUsers(), IdIs("a"), SetEmail("b@x.io")))
    ensures NormalizeEmail("c@x.io") == "c@x.io" && !EmailExists(TwoUsers(), "c@x.io")
  {
    SampleEmailsNormalized();
    TwoUsersUnique();
    var s := TwoUsers();
    assert IdIs<User>("a")(s[0]);
    var t := UpdateFirst(s, IdIs("a"), SetEmail("b@x.io"));
    assert t[0].doc.email == "b@x.io" && t[1].doc.email == "b@x.io";
  }
}
