/** src/user/user.service.ts: user creation behind a guard chain, with the email normalised
    but the username queried and stored exactly as given, plus `get` and `getAll`. */
module UserUserService {
  import opened Outcomes
  import opened AppErrors
  import opened External
  import opened Store
  import opened Users
  import UserUserRepository

  class UserService {
    const userRepository: UserUserRepository.UserRepository
    const env: Env

    ghost predicate Valid()
      reads this, userRepository, userRepository.repository, userRepository.repository.collection
    {
      userRepository.Valid() && userRepository.repository.env == env
    }

    ghost function Docs(): seq<Entry<User>>
      reads this, userRepository, userRepository.repository, userRepository.repository.collection
    {
      userRepository.repository.collection.docs
    }

    constructor (userRepository: UserUserRepository.UserRepository, env: Env)
      ensures this.userRepository == userRepository && this.env == env
    {
      this.userRepository := userRepository;
      this.env := env;
    }

    /** `isValidUsername(username)`: the raw length must be 4 to 30, and then the answer is
        `isUsernameAvailable`'s, which is the repository's "exists". */
    method IsValidUsername(username: string) returns (b: bool)
      ensures b <==> 4 <= |username| <= 30 && UsernameExists(Docs(), username)
    {
      var validLength := 4 <= |username| <= 30;
      if !validLength {
        return false;
      }
      b := IsUsernameAvailable(username);
    }

    /** `isUsernameAvailable(username)`: returns `isUsernameExists` unchanged. */
    method IsUsernameAvailable(username: string) returns (b: bool)
      ensures b <==> UsernameExists(Docs(), username)
    {
      b := userRepository.IsUsernameExists(username);
    }

    /** `isEmailAvailable(email)`: returns `isEmailExists` of the normalised email. */
    method IsEmailAvailable(givenEmail: string) returns (b: bool)
      ensures b <==> EmailExists(Docs(), NormalizeEmail(givenEmail))
    {
      var email := NormalizeEmail(givenEmail);
      b := userRepository.IsEmailExists(email);
    }

    /** `create(data)`: the five input checks in order, then the lookup on the raw
        username or the normalised email (limit 2), the conflict loop, and the insert of
        the raw username, the normalised email and the hash of the trimmed password. The
        username's length is never enforced: the verdict of `isValidUsername` is not
        used. */
    method Create(data: CreateUserInput, newId: ObjectId) returns (r: Result<(), Failure>)
      requires Valid()
      modifies userRepository.repository.collection
      ensures Valid()
      ensures CreateInputError(env, data).Some? ==>
        r == Err(Thrown(CreateInputError(env, data).value)) && Docs() == old(Docs())
      ensures CreateInputError(env, data).None? ==>
        InsertOutcome(old(Docs()), Docs(), r, (), newId,
                      data.username, NormalizeEmail(data.email), HashPassword(env, data.password))
      ensures UniqueAccounts(old(Docs())) ==> UniqueAccounts(Docs())
    {
      if data.email == "" {
        return Err(Thrown(MissingFieldError("email")));
      }
      if data.username == "" {
        return Err(Thrown(MissingFieldError("username")));
      }
      if data.password == "" {
        return Err(Thrown(MissingFieldError("password")));
      }
      if !env.isEmail(data.email) {
        return Err(Thrown(BadRequestError(INVALID_EMAIL)));
      }
      if !PasswordLengthOk(data.password) {
        return Err(Thrown(BadRequestError(INVALID_PASSWORD)));
      }

      var normalizedEmail := NormalizeEmail(data.email);

      var unused := IsValidUsername(data.username);

      ConflictOfLookup(Docs(), normalizedEmail, data.username, 2);
      var users := userRepository.repository.Find(EmailOrUsername(data.username, normalizedEmail), 2);
      var conflict := FirstConflict(users.value, normalizedEmail, data.username);
      if conflict.Some? {
        return Err(Thrown(conflict.value));
      }

      var password := HashPassword(env, data.password);
      var userData := NewUser(data.username, normalizedEmail, password);
      var created := userRepository.repository.Create(Some(userData), newId);
      if created.Err? {
        return Err(created.error);
      }
      if UniqueAccounts(old(Docs())) {
        CreateKeepsAccountsUnique(old(Docs()), newId, userData);
      }
      r := Ok(());
    }

    /** `get(id)`: a missing id is reported before the store is read; the repository then
        checks the id. */
    method Get(id: ObjectId) returns (r: Result<Option<Entry<User>>, Failure>)
      requires Valid()
      ensures id == "" ==> r == Err(Thrown(MissingFieldError("id")))
      ensures id != "" && !env.isValidObjectId(id) ==> r == Err(Thrown(InvalidIdError))
      ensures id != "" && env.isValidObjectId(id) ==> r == Ok(FirstMatch(Docs(), IdIs(id)))
    {
      if id == "" {
        return Err(Thrown(MissingFieldError("id")));
      }
      r := userRepository.repository.Get(id);
    }

    /** `getAll()`: the first ten stored users. */
    method GetAll() returns (r: Result<seq<Entry<User>>, Failure>)
      ensures r.Ok? && |r.value| <= 10
      ensures r.value == Docs()[..if |Docs()| < 10 then |Docs()| else 10]
    {
      r := userRepository.repository.Find(MatchAll(), 10, 1);
      SelectAll(Docs());
      PagesUpToOneCoincide(Docs(), 10, 1);
    }
  }
}
