/** The user-account rules shared by every version of the user service: the stored user
    record, email and username normalisation, the username and password checks, the
    order of the create-user input checks, and the duplicate decision taken before an
    insert. */
module Users {
  import opened Outcomes
  import opened Text
  import opened AppErrors
  import opened External
  import opened Store

  /** A stored user document besides its `_id`; an unset optional field is `None`. */
  datatype User = User(username: string, email: string, password: string,
                       role: Option<int>, deletedAt: Option<int>, lastLoggedIn: Option<int>)

  /** The record written by user creation: the three given fields only. */
  function NewUser(username: string, email: string, password: string): (u: User)
    ensures u.username == username && u.email == email && u.password == password
    ensures u.role.None? && u.deletedAt.None? && u.lastLoggedIn.None?
  {
    User(username, email, password, None, None, None)
  }

  // ----- normalisation -----

  /** `email.toLowerCase()`. */
  function NormalizeEmail(email: string): (r: string)
    ensures |r| == |email|
    ensures forall i :: 0 <= i < |r| ==> !IsUpper(r[i]) && r[i] == LowerChar(email[i])
  {
    Lower(email)
  }

  lemma NormalizeEmailIdempotent(email: string)
    ensures NormalizeEmail(NormalizeEmail(email)) == NormalizeEmail(email)
  {
    LowerIdempotent(email);
  }

  /** `.replace(/ /g, '_')`. */
  function ReplaceSpaces(s: string): (r: string)
    ensures |r| == |s|
    ensures forall i :: 0 <= i < |s| ==> r[i] == (if s[i] == ' ' then '_' else s[i])
  {
    seq(|s|, i requires 0 <= i < |s| => if s[i] == ' ' then '_' else s[i])
  }

  /** `[A-Za-z0-9_]`. */
  predicate IsWordChar(c: char)
  {
    'A' <= c <= 'Z' || 'a' <= c <= 'z' || '0' <= c <= '9' || c == '_'
  }

  /** The alphabet of a normalised username: `a-z`, `0-9` and `_`. */
  predicate IsUsernameChar(c: char)
  {
    'a' <= c <= 'z' || '0' <= c <= '9' || c == '_'
  }

  /** `.replace(/[^A-Za-z0-9_]/g, '')`: the word characters, in order. */
  function KeepWordChars(s: string): (r: string)
    ensures |r| <= |s|
    ensures forall i :: 0 <= i < |r| ==> IsWordChar(r[i])
  {
    if s == [] then []
    else (if IsWordChar(s[0]) then [s[0]] else []) + KeepWordChars(s[1..])
  }

  /** `username.toLowerCase().replace(/ /g, '_').replace(/[^A-Za-z0-9_]/g, '')`. */
  function NormalizeUsername(username: string): (r: string)
  {
    KeepWordChars(ReplaceSpaces(Lower(username)))
  }

  /** One input character's contribution to the normalised username: lower-cased, a space
      turned into `_`, and dropped unless it is then a word character. */
  function NormalizeChar(c: char): (r: string)
    ensures |r| <= 1
  {
    var d := if LowerChar(c) == ' ' then '_' else LowerChar(c);
    if IsWordChar(d) then [d] else []
  }

  /** The same normalisation, character by character. */
  function NormalizeEach(username: string): string
  {
    if username == [] then [] else NormalizeChar(username[0]) + NormalizeEach(username[1..])
  }

  lemma {:induction false} KeepWordCharsAppend(a: string, b: string)
    ensures KeepWordChars(a + b) == KeepWordChars(a) + KeepWordChars(b)
  {
    if a != [] {
      assert (a + b)[1..] == a[1..] + b;
      KeepWordCharsAppend(a[1..], b);
    } else {
      assert a + b == b;
    }
  }

  /** The three chained replacements act on each character on its own. */
  lemma {:induction false} NormalizeUsernameIsPerCharacter(username: string)
    ensures NormalizeUsername(username) == NormalizeEach(username)
  {
    if username != [] {
      var t := ReplaceSpaces(Lower(username));
      var t' := ReplaceSpaces(Lower(username[1..]));
      assert t == [t[0]] + t';
      KeepWordCharsAppend([t[0]], t');
      assert KeepWordChars([t[0]]) == NormalizeChar(username[0]) by {
        assert [t[0]][1..] == [];
      }
      NormalizeUsernameIsPerCharacter(username[1..]);
    }
  }

  /** A normalised username holds only `a-z`, `0-9` and `_`, so no space and no capital,
      and it is never longer than the input. */
  lemma {:induction false} NormalizeUsernameAlphabet(username: string)
    ensures |NormalizeUsername(username)| <= |username|
    ensures forall i :: 0 <= i < |NormalizeUsername(username)| ==> IsUsernameChar(NormalizeUsername(username)[i])
    ensures ' ' !in NormalizeUsername(username)
  {
    NormalizeUsernameIsPerCharacter(username);
    NormalizeEachAlphabet(username);
  }

  lemma {:induction false} NormalizeEachAlphabet(username: string)
    ensures |NormalizeEach(username)| <= |username|
    ensures forall i :: 0 <= i < |NormalizeEach(username)| ==> IsUsernameChar(NormalizeEach(username)[i])
  {
    if username != [] {
      NormalizeEachAlphabet(username[1..]);
      var h := NormalizeChar(username[0]);
      var t := NormalizeEach(username[1..]);
      forall i | 0 <= i < |h + t| ensures IsUsernameChar((h + t)[i]) {
        if i < |h| {
          assert (h + t)[i] == h[0];
        } else {
          assert (h + t)[i] == t[i - |h|];
        }
      }
    }
  }

  /** A string already in the username alphabet is left unchanged. */
  lemma {:induction false} NormalizeFixesNormalized(s: string)
    requires forall i :: 0 <= i < |s| ==> IsUsernameChar(s[i])
    ensures NormalizeEach(s) == s
  {
    if s != [] {
      assert NormalizeChar(s[0]) == [s[0]];
      NormalizeFixesNormalized(s[1..]);
      assert s == [s[0]] + s[1..];
    }
  }

  /** Normalising a username twice is normalising it once. */
  lemma NormalizeUsernameIdempotent(username: string)
    ensures NormalizeUsername(NormalizeUsername(username)) == NormalizeUsername(username)
  {
    var n := NormalizeUsername(username);
    NormalizeUsernameAlphabet(username);
    NormalizeUsernameIsPerCharacter(n);
    NormalizeFixesNormalized(n);
  }

  /** `isValidUsername`: the normalised username has 4 to 30 characters. */
  predicate IsValidUsername(username: string)
  {
    4 <= |NormalizeUsername(username)| <= 30
  }

  /** A valid username has at least four characters, and normalising it first does not
      change the verdict. */
  lemma ValidUsernameFacts(username: string)
    ensures IsValidUsername(username) ==> |username| >= 4
    ensures IsValidUsername(NormalizeUsername(username)) == IsValidUsername(username)
  {
    NormalizeUsernameAlphabet(username);
    NormalizeUsernameIdempotent(username);
  }

  // ----- passwords -----

  /** `isLength(password.trim(), { min: 4, max: 20 })`. */
  predicate PasswordLengthOk(password: string)
  {
    4 <= |Trim(password)| <= 20
  }

  /** `hashPassword`: the password is trimmed before it is hashed. */
  function HashPassword(env: Env, password: string): string
  {
    env.hash(Trim(password))
  }

  /** Leading and trailing whitespace neither counts towards the password's length nor
      changes its hash. */
  lemma PasswordPaddingIgnored(env: Env, lead: string, password: string, trail: string)
    requires AllWhiteSpace(lead) && AllWhiteSpace(trail)
    ensures PasswordLengthOk(lead + password + trail) == PasswordLengthOk(password)
    ensures HashPassword(env, lead + password + trail) == HashPassword(env, password)
  {
    TrimIgnoresPadding(lead, password, trail);
  }

  // ----- the create-user input checks -----

  /** A create-user request body; a missing or empty field is `""`. */
  datatype CreateUserInput = CreateUserInput(email: string, username: string, password: string)

  /** The checks of user creation, in the order the handlers run them; the first that
      fails decides the error. */
  function CreateInputError(env: Env, data: CreateUserInput): Option<AppError>
  {
    if data.email == "" then Some(MissingFieldError("email"))
    else if data.username == "" then Some(MissingFieldError("username"))
    else if data.password == "" then Some(MissingFieldError("password"))
    else if !env.isEmail(data.email) then Some(BadRequestError(INVALID_EMAIL))
    else if !PasswordLengthOk(data.password) then Some(BadRequestError(INVALID_PASSWORD))
    else None
  }

  /** Each error is reported exactly when its check fails and every earlier one passes;
      a request passing all five has a non-empty username and a password of 4 to 20
      characters once trimmed. */
  lemma CreateInputErrorOrder(env: Env, data: CreateUserInput)
    ensures CreateInputError(env, data) == Some(MissingFieldError("email")) <==> data.email == ""
    ensures CreateInputError(env, data) == Some(MissingFieldError("username")) <==>
      data.email != "" && data.username == ""
    ensures CreateInputError(env, data) == Some(MissingFieldError("password")) <==>
      data.email != "" && data.username != "" && data.password == ""
    ensures CreateInputError(env, data) == Some(BadRequestError(INVALID_EMAIL)) <==>
      data.email != "" && data.username != "" && data.password != "" && !env.isEmail(data.email)
    ensures CreateInputError(env, data) == Some(BadRequestError(INVALID_PASSWORD)) <==>
      data.email != "" && data.username != "" && data.password != "" && env.isEmail(data.email)
      && !PasswordLengthOk(data.password)
    ensures CreateInputError(env, data).None? <==>
      data.email != "" && data.username != "" && env.isEmail(data.email) && PasswordLengthOk(data.password)
  {
    assert INVALID_EMAIL != INVALID_PASSWORD;
  }

  // ----- the duplicate decision -----

  /** `{ $or: [{ username }, { email }] }`. */
  function EmailOrUsername(username: string, email: string): Filter<User>
  {
    (e: Entry<User>) => e.doc.username == username || e.doc.email == email
  }

  /** `{ username }` and `{ email }`. */
  function UsernameIs(username: string): Filter<User>
  {
    (e: Entry<User>) => e.doc.username == username
  }

  function EmailIs(email: string): Filter<User>
  {
    (e: Entry<User>) => e.doc.email == email
  }

  predicate UsernameExists(docs: seq<Entry<User>>, username: string)
  {
    exists i :: 0 <= i < |docs| && docs[i].doc.username == username
  }

  predicate EmailExists(docs: seq<Entry<User>>, email: string)
  {
    exists i :: 0 <= i < |docs| && docs[i].doc.email == email
  }

  /** No two stored users share a username, and no two share an email. */
  predicate UniqueAccounts(docs: seq<Entry<User>>)
  {
    forall i, j :: 0 <= i < j < |docs| ==>
      docs[i].doc.username != docs[j].doc.username && docs[i].doc.email != docs[j].doc.email
  }

  /** The error the `forEach` over the found users throws: the first user that matches
      decides, and for that user the email is compared before the username. */
  function Conflict(found: seq<Entry<User>>, email: string, username: string): Option<AppError>
  {
    if found == [] then None
    else if found[0].doc.email == email then Some(BadRequestError(EMAIL_NOT_AVAILABLE))
    else if found[0].doc.username == username then Some(BadRequestError(USERNAME_NOT_AVAILABLE))
    else Conflict(found[1..], email, username)
  }

  /** The `forEach` loop itself: a thrown error ends it. */
  method FirstConflict(found: seq<Entry<User>>, email: string, username: string) returns (r: Option<AppError>)
    ensures r == Conflict(found, email, username)
  {
    for i := 0 to |found|
      invariant Conflict(found, email, username) == Conflict(found[i..], email, username)
    {
      assert found[i..][1..] == found[i + 1..];
      var user := found[i];
      if user.doc.email == email {
        return Some(BadRequestError(EMAIL_NOT_AVAILABLE));
      }
      if user.doc.username == username {
        return Some(BadRequestError(USERNAME_NOT_AVAILABLE));
      }
    }
    return None;
  }

  /** The user that decides: the first one matching on either field. */
  predicate FirstMatchAt(found: seq<Entry<User>>, email: string, username: string, k: int)
  {
    0 <= k < |found| && (found[k].doc.email == email || found[k].doc.username == username)
    && forall j :: 0 <= j < k ==> found[j].doc.email != email && found[j].doc.username != username
  }

  /** The decision stated without the loop: no error iff no found user matches either
      field; "Try another email" iff the first matching user has that email; "Try another
      username" iff the first matching user has that username and a different email. */
  lemma {:induction false} ConflictCharacterised(found: seq<Entry<User>>, email: string, username: string)
    ensures Conflict(found, email, username).None? <==>
      forall i :: 0 <= i < |found| ==> found[i].doc.email != email && found[i].doc.username != username
    ensures Conflict(found, email, username) == Some(BadRequestError(EMAIL_NOT_AVAILABLE)) <==>
      exists k :: FirstMatchAt(found, email, username, k) && found[k].doc.email == email
    ensures Conflict(found, email, username) == Some(BadRequestError(USERNAME_NOT_AVAILABLE)) <==>
      exists k :: FirstMatchAt(found, email, username, k) && found[k].doc.email != email
  {
    assert EMAIL_NOT_AVAILABLE != USERNAME_NOT_AVAILABLE;
    if found != [] {
      var t := found[1..];
      ConflictCharacterised(t, email, username);
      var f0 := found[0];
      if f0.doc.email == email || f0.doc.username == username {
        assert FirstMatchAt(found, email, username, 0);
        forall k | FirstMatchAt(found, email, username, k) ensures k == 0 { }
      } else {
        forall k | FirstMatchAt(t, email, username, k) ensures FirstMatchAt(found, email, username, k + 1) {
          forall j | 0 <= j < k + 1
            ensures found[j].doc.email != email && found[j].doc.username != username
          {
            if j > 0 { assert found[j] == t[j - 1]; }
          }
        }
        forall k | FirstMatchAt(found, email, username, k) ensures k >= 1 && FirstMatchAt(t, email, username, k - 1) {
          forall j | 0 <= j < k - 1 ensures t[j].doc.email != email && t[j].doc.username != username {
            assert t[j] == found[j + 1];
          }
        }
        forall i | 0 <= i < |t| ensures t[i] == found[i + 1] { }
      }
    }
  }

  /** Every user the `$or` lookup returns matches on one of the two fields, so the first
      returned user already decides: any lookup limit of at least one gives the same
      decision as reading every match, and that is the decision over the whole
      collection. The limit of 2 is therefore enough. */
  lemma {:induction false} ConflictOfLookup(docs: seq<Entry<User>>, email: string, username: string, limit: int)
    requires limit >= 1
    ensures Paged(Select(docs, EmailOrUsername(username, email)), limit, 0).Ok?
    ensures Conflict(Paged(Select(docs, EmailOrUsername(username, email)), limit, 0).value, email, username)
         == Conflict(docs, email, username)
  {
    var found := Select(docs, EmailOrUsername(username, email));
    PagesUpToOneCoincide(found, limit, 0);
    var window := Take(found, limit);
    ConflictOfSelect(docs, email, username);
    if found != [] {
      assert window[0] == found[0];
      assert found[0].doc.email == email || found[0].doc.username == username;
    }
  }

  lemma {:induction false} ConflictOfSelect(docs: seq<Entry<User>>, email: string, username: string)
    ensures Conflict(Select(docs, EmailOrUsername(username, email)), email, username) == Conflict(docs, email, username)
  {
    if docs != [] {
      ConflictOfSelect(docs[1..], email, username);
      var f := EmailOrUsername(username, email);
      if f(docs[0]) {
        assert Select(docs, f)[0] == docs[0];
      } else {
        assert Select(docs, f) == Select(docs[1..], f);
      }
    }
  }

  /** After a lookup found nothing, adding the new user keeps usernames and emails unique:
      with the model's sequential calls, creation cannot produce a duplicate. */
  lemma CreateKeepsAccountsUnique(docs: seq<Entry<User>>, id: ObjectId, u: User)
    requires UniqueAccounts(docs)
    requires Conflict(docs, u.email, u.username).None?
    ensures UniqueAccounts(docs + [Entry(id, u)])
  {
    ConflictCharacterised(docs, u.email, u.username);
  }

  /** What the lookup-then-insert of user creation leaves behind, from the collection
      `before` it ran on: the lookup's error and no write when a stored user has the email
      or the username; otherwise the driver's insert of the new user, answered with
      `ok`. */
  ghost predicate InsertOutcome<R>(before: seq<Entry<User>>, after: seq<Entry<User>>, r: Result<R, Failure>, ok: R,
                                   newId: ObjectId, username: string, email: string, password: string)
  {
    var conflict := Conflict(before, email, username);
    (conflict.Some? ==> r == Err(Thrown(conflict.value)) && after == before)
    && (conflict.None? && HasId(before, newId) ==> r == Err(DriverError(DUPLICATE_KEY)) && after == before)
    && (conflict.None? && !HasId(before, newId) ==>
          r == Ok(ok) && after == before + [Entry(newId, NewUser(username, email, password))])
  }

  /** `{ email }` and `{ password }` as update documents: one field set, the rest kept. */
  function SetEmail(email: string): User -> User
  {
    (u: User) => u.(email := email)
  }

  function SetPassword(password: string): User -> User
  {
    (u: User) => u.(password := password)
  }

  /** A single-field update changes that field of the document with the given id and
      nothing else: every other document, that document's `_id`, and its other fields
      stay as they were. */
  lemma {:induction false} SingleFieldUpdate(docs: seq<Entry<User>>, id: ObjectId, email: string, password: string)
    requires DistinctIds(docs)
    ensures var r := UpdateFirst(docs, IdIs(id), SetEmail(email));
      |r| == |docs| &&
      forall i :: 0 <= i < |docs| ==>
        r[i] == if docs[i].id == id then Entry(id, docs[i].doc.(email := email)) else docs[i]
    ensures var r := UpdateFirst(docs, IdIs(id), SetPassword(password));
      |r| == |docs| &&
      forall i :: 0 <= i < |docs| ==>
        r[i] == if docs[i].id == id then Entry(id, docs[i].doc.(password := password)) else docs[i]
  {
    UpdateById(docs, id, SetEmail(email));
    UpdateById(docs, id, SetPassword(password));
  }

  lemma {:induction false} UpdateById(docs: seq<Entry<User>>, id: ObjectId, patch: User -> User)
    requires DistinctIds(docs)
    ensures var r := UpdateFirst(docs, IdIs(id), patch);
      forall i :: 0 <= i < |docs| ==>
        r[i] == if docs[i].id == id then Entry(id, patch(docs[i].doc)) else docs[i]
  {
    if docs != [] {
      var r := UpdateFirst(docs, IdIs(id), patch);
      if docs[0].id == id {
        forall i | 1 <= i < |docs| ensures docs[i].id != id { }
      } else {
        UpdateById(docs[1..], id, patch);
        forall i | 1 <= i < |docs| ensures r[i] == UpdateFirst(docs[1..], IdIs(id), patch)[i - 1] { }
      }
    }
  }

  /** Giving a user an email nobody has keeps the accounts unique. */
  lemma SetFreeEmailKeepsUnique(docs: seq<Entry<User>>, id: ObjectId, email: string)
    requires DistinctIds(docs) && UniqueAccounts(docs) && !EmailExists(docs, email)
    ensures UniqueAccounts(UpdateFirst(docs, IdIs(id), SetEmail(email)))
  {
    UpdateById(docs, id, SetEmail(email));
  }

  /** Changing a password keeps the accounts unique. */
  lemma SetPasswordKeepsUnique(docs: seq<Entry<User>>, id: ObjectId, password: string)
    requires DistinctIds(docs) && UniqueAccounts(docs)
    ensures UniqueAccounts(UpdateFirst(docs, IdIs(id), SetPassword(password)))
  {
    UpdateById(docs, id, SetPassword(password));
  }

  /** A lookup by one field with limit 1 finds something iff a stored user has exactly that
      value, and then it is the first such user. */
  lemma {:induction false} LookupOne(docs: seq<Entry<User>>, f: Filter<User>)
    ensures Paged(Select(docs, f), 1, 0) == Ok(if FirstMatch(docs, f).Some? then [FirstMatch(docs, f).value] else [])
  {
    var found := Select(docs, f);
    PagesUpToOneCoincide(found, 1, 0);
    FirstMatchIsFirstSelected(docs, f);
    if found != [] {
      assert Take(found, 1) == [found[0]];
    }
  }

  // ----- the in-memory user object -----

  /** A user document as the object the driver hands back, whose fields `normalizeUser`
      overwrites in place; `undefined` is `None`. */
  class UserObject {
    var id: Option<ObjectId>
    var oid: Option<ObjectId>
    var version: Option<int>
    var username: string
    var email: string
    var password: Option<string>
    var role: Option<int>
    var deletedAt: Option<int>
    var lastLoggedIn: Option<int>

    /** The object for a stored document with `_id` and `__v`. */
    constructor (e: Entry<User>, version: int)
      ensures id.None? && oid == Some(e.id) && this.version == Some(version)
      ensures username == e.doc.username && email == e.doc.email && password == Some(e.doc.password)
      ensures role == e.doc.role && deletedAt == e.doc.deletedAt && lastLoggedIn == e.doc.lastLoggedIn
    {
      id := None;
      oid := Some(e.id);
      this.version := Some(version);
      username := e.doc.username;
      email := e.doc.email;
      password := Some(e.doc.password);
      role := e.doc.role;
      deletedAt := e.doc.deletedAt;
      lastLoggedIn := e.doc.lastLoggedIn;
    }
  }

  // ----- roles -----

  /** `USER_ROLE`. */
  datatype UserRole = ADMIN | MODERATOR | VISITOR

  function RoleValue(role: UserRole): (n: int)
    ensures 1 <= n <= 3
  {
    match role
    case ADMIN => 1
    case MODERATOR => 2
    case VISITOR => 3
  }

  /** The enum's reverse mapping, `USER_ROLE[n]`. */
  function RoleOf(n: int): (r: Option<UserRole>)
    ensures r.Some? <==> 1 <= n <= 3
  {
    if n == 1 then Some(ADMIN) else if n == 2 then Some(MODERATOR) else if n == 3 then Some(VISITOR) else None
  }

  /** ADMIN = 1, MODERATOR = 2, VISITOR = 3, and each value names its member back. */
  lemma RoleValues(role: UserRole)
    ensures RoleValue(ADMIN) == 1 && RoleValue(MODERATOR) == 2 && RoleValue(VISITOR) == 3
    ensures RoleOf(RoleValue(role)) == Some(role)
  {
  }
}
