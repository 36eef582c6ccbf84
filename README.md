# User-account service with repository pattern: a Dafny model

This project models the core of a Node.js/TypeScript user-account service built on
MongoDB. The repository keeps several near-duplicate iterations of the same service, and
each of them is modelled in its own module:

- Five generic repositories:
  - `CommonRepository` for src/common/repository.ts
  - `RepositoriesRepository` for src/repositories/repository.ts
  - `RootRepository` for src/repository.ts
  - `CoreBaseRepository` for src/core/base.repository.ts
  - `ServicesRepository` for src/services/repository.ts

  Each is a class over a shared in-memory `Store.Collection`: a sequence of documents
  with unique `_id`s. Each one's paging window, id guards and removal and update variants
  are stated against specification functions (`Paged`, `FirstMatch`, `DeleteFirst`,
  `DeleteWhere`, `UpdateFirst`).
- Two user repositories: `UserUserRepository` and `RepositoriesUserRepository`.
- Two user services: `UserUserService` and `ServicesUserService`.
- The generic request handlers `ServicesService`.
- Two user controllers: `ServicesUsersUserController` and `ControllersUserController`.
- The pagination envelope `Pagination`.
- The error hierarchy `AppErrors`. It covers both src/errors/app.errors.ts and
  src/common/app.errors.ts.

Shared rules live in `Users`:
- The user record.
- Email and username normalisation, and username and password validity.
- The order of the create-user input checks.
- The duplicate decision taken before an insert.
- Single-field updates.
- The user object that `normalizeUser` strips.

JavaScript string built-ins live in `Text`: `toLowerCase` on ASCII, `trim`, and the
integer-to-decimal conversion used in links.

External libraries are function-valued fields of `External.Env`: validator's `isEmail`,
`ObjectId.isValid` and bcrypt's hash. The `BASE_URL` environment variable is a parameter.
The database is the `Collection` class: its methods model `insertOne`, the `find`
cursor with `skip`/`limit`, `deleteOne`, `deleteMany` and `updateOne`. The model follows
MongoDB's cursor rules:
- A limit of 0 means no limit.
- A negative limit means its absolute value.
- A negative skip is refused by the server.
- Inserting an existing `_id` fails with a duplicate-key error.

A failed call is an `Err` of `AppErrors.Failure`, one of:
- a thrown `ApplicationError` (`Thrown`),
- a plain `Error` (`PlainError`),
- a driver error (`DriverError`),
- the TypeError of reading a field of `null` (`NullDereference`).

## Model

| member | source | states |
|---|---|---|
| AppErrors.ApplicationErrorStoresArguments | src/errors/app.errors.ts:3-11 | the root class keeps exactly the code and message it is given |
| AppErrors.Root | src/errors/app.errors.ts:13-75 | following the `super(...)` chain always ends at an `ApplicationError` |
| AppErrors.SuperIsShallower | src/errors/app.errors.ts:13-75 | each `super(...)` call goes one class up the hierarchy, so the chain is finite |
| AppErrors.StatusCodes | src/errors/app.errors.ts:13-47 | every BadRequestError (and subclass) is 400; Unauthorized 401, Forbidden 403, NotFound 404, Internal 500 |
| AppErrors.Messages | src/errors/app.errors.ts:37-75 | MissingFieldError(f) says "f is required"; the ACCESS token type picks the access-token message and any other type the refresh one; InvalidId is "Invalid id", RepositoryMissingField "Field missing", InvalidCredential "Invalid credential"; NotFound keeps its message |
| AppErrors.RootOfKnownClass | src/common/app.errors.ts:13-59 | a direct subclass takes the root fields from its `super` call; a BadRequestError subclass gets code 400 and its own message |
| AppErrors.SubclassKeepsSuperFields | src/common/app.errors.ts:37-59 | a subclass's code and message are those of its superclass constructor call |
| AppErrors.CreateUserErrorsDistinguishable | src/user/user.service.ts:66-105 | the seven errors user creation can throw are all 400 and carry pairwise different messages |
| External.GetValidObjectId | src/utils/utils.ts:10-20 | the id comes back iff `ObjectId.isValid`; otherwise InvalidIdError |
| External.ValidObjectIds | src/repositories/repository.ts:150 | `ids.map(getValidObjectId)`: succeeds iff every id is valid, returning the list unchanged; otherwise InvalidIdError |
| Text.Lower | src/services/user.service.ts:112-114 | `toLowerCase` on ASCII: same length, each character lower-cased on its own |
| Text.LowerHasNoUpper | src/services/user.service.ts:112-114 | a lower-cased string has no capital letter |
| Text.LowerIdempotent | src/services/user.service.ts:112-114 | lower-casing twice is lower-casing once |
| Text.TrimSplits | src/services/user.service.ts:144-149 | the input is leading whitespace, the trimmed text, and trailing whitespace, and the trimmed text neither starts nor ends with whitespace |
| Text.TrimIgnoresPadding | src/services/user.service.ts:144-149 | whitespace added on either side of any string is removed by `trim` |
| Text.TrimOfPadded | src/services/user.service.ts:144-149 | padding a trimmed string with whitespace does not change its trim |
| Text.TrimIdempotent | src/services/user.service.ts:144-149 | trimming twice is trimming once |
| Text.AllWhiteSpaceTrimsToEmpty | src/services/user.service.ts:144-149 | a string of whitespace trims to the empty string |
| Text.IntToString | src/utils/pagination.ts:14-15 | `${n}` is never empty |
| Text.ParseIntToString | src/utils/pagination.ts:14-15 | the decimal text of a page number reads back as that number |
| Store.Select | src/common/repository.ts:122 | the matches of a filter, in stored order: exactly the documents the filter accepts |
| Store.FirstMatch | src/common/repository.ts:109 | `findOne`: nothing iff no document matches, otherwise a stored matching document |
| Store.FirstMatchIsFirstSelected | src/common/repository.ts:109 | `findOne` returns the first of the matches `find` would list |
| Store.DeleteFirst | src/common/repository.ts:181 | `deleteOne`: removes one document when some document matches and none otherwise; every survivor was stored |
| Store.DeleteFirstWithoutMatch | src/common/repository.ts:181 | `deleteOne` with no match leaves the collection unchanged |
| Store.DeleteFirstRemovesFirstMatch | src/common/repository.ts:181 | `deleteOne` removes exactly the first match and keeps the documents before and after it, in order |
| Store.DeleteFirstExact | src/common/repository.ts:181 | both cases of `deleteOne` at once: no match leaves the collection unchanged, and a first match at any index k is removed with the rest kept in order |
| Store.DeleteFirstByIdIsDeleteWhere | src/common/repository.ts:181 | with unique ids, deleting the first document with an id deletes exactly the documents with that id |
| Store.DeleteWhere | src/common/repository.ts:179 | `deleteMany`: keeps exactly the documents the filter rejects |
| Store.DeleteAllEmpties | src/repositories/repository.ts:154 | `deleteMany({})` leaves nothing |
| Store.SelectAll | src/repositories/repository.ts:76 | the empty filter matches every document |
| Store.SelectAllAccepted | src/repositories/repository.ts:76 | a filter every document passes selects the whole collection, in order |
| Store.UpdateFirst | src/common/repository.ts:173 | `updateOne`: same number of documents, every `_id` kept |
| Store.UpdateFirstTouchesOne | src/common/repository.ts:173 | `updateOne` changes at most one document, only a matching one, and nothing when nothing matches |
| Store.SelectKeepsDistinct | src/common/repository.ts:122 | the matches of a collection with unique ids have unique ids |
| Store.DeleteFirstKeepsDistinct | src/common/repository.ts:181 | deleting keeps ids unique |
| Store.Take | src/common/repository.ts:133 | `limit(0)` returns everything; otherwise the first `abs(limit)` documents, or all if fewer |
| Store.PagedIsSlice | src/common/repository.ts:128-135 | for limit > 0 and page >= 1 the page is the slice from `limit*(page-1)` to `limit*page`, clipped to the matches, so at most `limit` documents |
| Store.PagedFailsExactly | src/common/repository.ts:128-131 | the server refuses the query iff the limit is negative and the page is past the first |
| Store.PagesUpToOneCoincide | src/common/repository.ts:128-133 | pages 0 and below skip nothing and equal page 1 |
| Store.FirstPagesArePrefix | src/repositories/repository.ts:82-87 | reading pages 1..k in turn gives exactly the first `k*limit` matches: nothing lost or repeated |
| Store.DefaultWindows | src/repositories/repository.ts:73-112 | `find`'s defaults (10, 0) give the first ten matches and `getAll`'s (20, 1) the first twenty |
| Store.Collection.constructor | src/common/repository.ts:100-102 | a collection starts empty |
| Store.Collection.InsertOne | src/common/repository.ts:146 | `insertOne`: a duplicate `_id` fails and changes nothing; otherwise the document is appended |
| Store.Collection.Query | src/common/repository.ts:122-135 | the cursor: a negative skip fails, otherwise the window of the matches |
| Store.Collection.DeleteOne | src/common/repository.ts:181 | the collection becomes `DeleteFirst` of its old contents |
| Store.Collection.DeleteMany | src/common/repository.ts:179 | the collection becomes `DeleteWhere` of its old contents |
| Store.Collection.UpdateOne | src/common/repository.ts:173 | the collection becomes `UpdateFirst` of its old contents |
| CommonRepository.IdList | src/common/repository.ts:164-170 | a single id is wrapped into a one-element list; a list is kept as it is |
| CommonRepository.Repository.constructor | src/common/repository.ts:100-102 | the repository wraps the given collection |
| CommonRepository.Repository.Get | src/common/repository.ts:104-112 | fails with InvalidIdError iff the id is invalid, before reading; otherwise the document with that id or nothing |
| CommonRepository.Repository.Find | src/common/repository.ts:114-138 | the paging window of the matches, with defaults limit 10 and page 0 |
| CommonRepository.Repository.Create | src/common/repository.ts:140-149 | falsy data throws "Empty object provided"; a duplicate `_id` fails in the driver; on failure nothing changes; otherwise exactly one document is appended |
| CommonRepository.Repository.CreateMany | src/common/repository.ts:151-153 | always throws "Method not implemented." |
| CommonRepository.Repository.Update | src/common/repository.ts:155-161 | always throws "Method not implemented." |
| CommonRepository.Repository.UpdateById | src/common/repository.ts:163-174 | every id is checked before any write; then `updateOne` on the listed ids |
| CommonRepository.UpdateByIdChangesAtMostOne | src/common/repository.ts:163-174 | even with several ids, at most one document changes, and it is a listed one |
| CommonRepository.Repository.Remove | src/common/repository.ts:176-183 | `multi` removes every match; otherwise nothing changes when nothing matches, and when the first match is at index k exactly that document goes and the others keep their order |
| CommonRepository.Repository.RemoveById | src/common/repository.ts:185-196 | every id is checked before any write; then every listed document goes |
| CommonRepository.RemoveByIdRemovesListed | src/common/repository.ts:185-196 | every unlisted document stays and no listed one remains |
| RepositoriesRepository.Repository.constructor | src/repositories/repository.ts:54-56 | the repository wraps the given collection |
| RepositoriesRepository.Repository.Get | src/repositories/repository.ts:63-71 | InvalidIdError iff the id is invalid; otherwise the document with that id or nothing |
| RepositoriesRepository.Repository.GetAll | src/repositories/repository.ts:73-92 | the paging window over every document, with defaults limit 20 and page 1 |
| RepositoriesRepository.Repository.Find | src/repositories/repository.ts:94-112 | the paging window of the matches, with defaults limit 10 and page 0 |
| RepositoriesRepository.Repository.Create | src/repositories/repository.ts:114-123 | falsy data throws "Empty object provided"; a duplicate `_id` fails; on failure nothing changes; otherwise exactly one document is appended |
| RepositoriesRepository.Repository.CreateMany | src/repositories/repository.ts:125-127 | always throws "Method not implemented." |
| RepositoriesRepository.Repository.Update | src/repositories/repository.ts:129-131 | always throws "Method not implemented." |
| RepositoriesRepository.Repository.Remove | src/repositories/repository.ts:133-138 | the id is checked; then the document with that id, if any, is deleted (`deleteOne` on `_id`) and every document with another id stays |
| RepositoriesRepository.Repository.RemoveMany | src/repositories/repository.ts:146-155 | fails only when a given non-empty list holds an invalid id, changing nothing; any call that does not fail leaves the collection empty |
| RepositoriesRepository.Repository.UpdateById | src/repositories/repository.ts:157-162 | the id is checked; then only the document with that id changes |
| RootRepository.Repository.constructor | src/repository.ts:39-41 | the repository wraps the given collection |
| RootRepository.Repository.GetById | src/repository.ts:48-56 | InvalidIdError iff the id is invalid; otherwise the document with that id or nothing |
| RootRepository.Repository.GetAll | src/repository.ts:58-77 | the paging window over every document, with defaults 20 and 1 |
| RootRepository.Repository.Find | src/repository.ts:79-98 | the paging window of the matches, with defaults 10 and 0 |
| RootRepository.Repository.Create | src/repository.ts:100-109 | falsy data is refused and nothing changes; a duplicate `_id` fails; otherwise exactly one document is appended |
| RootRepository.Repository.CreateMany | src/repository.ts:111-113 | always throws "Method not implemented." |
| RootRepository.Repository.Remove | src/repository.ts:115-120 | the id is checked; then the document with that id, if any, is deleted (`deleteOne` on `_id`) and every document with another id stays |
| RootRepository.Repository.RemoveMany | src/repository.ts:127-136 | fails only on an invalid listed id, changing nothing; otherwise the collection ends empty |
| RootRepository.Repository.UpdateById | src/repository.ts:138-143 | the id is checked; then only the document with that id changes |
| CoreBaseRepository.BaseRepository.constructor | src/core/base.repository.ts:38-40 | the repository wraps the given model |
| CoreBaseRepository.BaseRepository.Get | src/core/base.repository.ts:47-57 | InvalidIdError iff the id is empty or invalid, before any query; otherwise the document or nothing |
| CoreBaseRepository.BaseRepository.GetAll | src/core/base.repository.ts:59-78 | the paging window over every document, with defaults 20 and 1 |
| CoreBaseRepository.BaseRepository.Find | src/core/base.repository.ts:80-99 | the paging window of the matches, with defaults 10 and 0 |
| CoreBaseRepository.BaseRepository.Create | src/core/base.repository.ts:101-110 | falsy data is refused and nothing changes; a duplicate `_id` fails; otherwise exactly one document is appended |
| CoreBaseRepository.BaseRepository.CreateMany | src/core/base.repository.ts:112-114 | always throws "Method not implemented." |
| CoreBaseRepository.BaseRepository.Remove | src/core/base.repository.ts:116-123 | same id guard; then the document with that id, if any, is deleted (`deleteOne` on `_id`) and every document with another id stays |
| CoreBaseRepository.BaseRepository.RemoveMany | src/core/base.repository.ts:125-132 | checks no id and always leaves the collection empty |
| ServicesRepository.Repository.constructor | src/services/repository.ts:30-32 | the repository wraps the given model |
| ServicesRepository.Repository.Get | src/services/repository.ts:34-44 | InvalidIdError iff the id is empty or invalid, before querying; otherwise the document or nothing |
| ServicesRepository.Repository.GetAll | src/services/repository.ts:46-65 | the paging window over every document, with defaults 20 and 1 |
| ServicesRepository.Repository.Find | src/services/repository.ts:67-87 | the paging window of the matches, with defaults 10 and 0 |
| ServicesRepository.Repository.Create | src/services/repository.ts:89-98 | falsy data is refused and nothing changes; a duplicate `_id` fails; otherwise exactly one document is appended |
| ServicesRepository.Repository.CreateMany | src/services/repository.ts:100-102 | always throws "Method not implemented." |
| ServicesRepository.Repository.Remove | src/services/repository.ts:104-111 | the id is checked; then the document with that id, if any, is deleted (`deleteOne` on `_id`) and every document with another id stays |
| ServicesRepository.Repository.RemoveMany | src/services/repository.ts:113-120 | always leaves the collection empty |
| Pagination.Link | src/utils/pagination.ts:14-15 | a link is `BASE_URL + path + "?page="` followed by a non-empty page number |
| Pagination.Paginate | src/utils/pagination.ts:9-17 | data, limit and page number are returned unchanged; `next` is empty iff fewer documents than the limit; `previous` is empty iff page number <= 1 |
| Pagination.LinkNamesItsPage | src/utils/pagination.ts:14-15 | the page number a link is built for reads back from it |
| Pagination.LinksNameAdjacentPages | src/utils/pagination.ts:14-15 | a non-empty `next` names page + 1 and a non-empty `previous` names page - 1, both under the same base URL and path |
| Pagination.NoNextMeansNothingLeft | src/utils/pagination.ts:14 | over a repository page, an empty `next` means the next page is empty |
| Pagination.FullLastPageStillLinksNext | src/utils/pagination.ts:14 | a full final page still links a next page, and that page is empty |
| Users.NewUser | src/services/user.service.ts:63-67 | the created record holds the three given fields and nothing else |
| Users.NormalizeEmail | src/services/user.service.ts:112-114 | the email lower-cased, same length, no capital |
| Users.NormalizeEmailIdempotent | src/repositories/user.repository.ts:65-67 | normalising an email twice is normalising it once |
| Users.ReplaceSpaces | src/services/user.service.ts:117 | `replace(/ /g, '_')`: each space becomes `_`, nothing else changes |
| Users.KeepWordChars | src/services/user.service.ts:117 | `replace(/[^A-Za-z0-9_]/g, '')`: only word characters remain, never more than before |
| Users.KeepWordCharsAppend | src/services/user.service.ts:117 | stripping distributes over concatenation |
| Users.NormalizeChar | src/services/user.service.ts:116-118 | a character contributes at most one character |
| Users.NormalizeUsernameIsPerCharacter | src/repositories/user.repository.ts:61-63 | the chained replacements equal normalising each character on its own |
| Users.NormalizeUsernameAlphabet | src/services/user.service.ts:116-118 | a normalised username holds only `a-z`, `0-9` and `_`, has no space and is never longer than the input |
| Users.NormalizeEachAlphabet | src/services/user.service.ts:116-118 | the per-character normalisation stays in that alphabet and length |
| Users.NormalizeFixesNormalized | src/services/user.service.ts:116-118 | a string already in that alphabet is unchanged |
| Users.NormalizeUsernameIdempotent | src/services/user.service.ts:116-118 | normalising a username twice is normalising it once |
| Users.ValidUsernameFacts | src/services/user.service.ts:120-124 | a valid username has at least 4 characters; normalising first does not change validity (`isValidUsername` of src/repositories/user.repository.ts:69-73 is the same predicate) |
| Users.PasswordPaddingIgnored | src/user/user.service.ts:57-62 | surrounding whitespace changes neither the password-length verdict nor the hash |
| Users.CreateInputErrorOrder | src/user/user.service.ts:66-84 | each create-user error is reported exactly when its check fails and every earlier check passes: email, username, password present, email valid, trimmed password 4..20 |
| Users.FirstConflict | src/services/user.service.ts:51-59 | the `forEach` check loop equals the recursive `Conflict` decision |
| Users.ConflictCharacterised | src/user/user.service.ts:97-105 | no error iff no found user matches either field; "Try another email" iff the first matching user has the email; "Try another username" iff it has the username but not the email |
| Users.ConflictOfLookup | src/services/user.service.ts:47-59 | the `$or` lookup with limit 2 (any limit >= 1) yields the same decision as scanning the whole collection |
| Users.ConflictOfSelect | src/services/user.service.ts:47-49 | the decision over the `$or` matches equals the decision over all documents |
| Users.CreateKeepsAccountsUnique | src/services/user.service.ts:47-69 | after a lookup that found no conflict, adding the user keeps usernames and emails unique |
| Users.SingleFieldUpdate | src/repositories/user.repository.ts:17-41 | an email or password update changes only that field of the document with that id |
| Users.UpdateById | src/repositories/repository.ts:157-162 | with unique ids, an update by id patches exactly the document with that id |
| Users.SetFreeEmailKeepsUnique | src/services/user.service.ts:86-99 | giving a user an email nobody has keeps accounts unique |
| Users.SetPasswordKeepsUnique | src/services/user.service.ts:80-84 | changing a password keeps accounts unique |
| Users.LookupOne | src/repositories/user.repository.ts:9-15 | a one-field lookup with limit 1 returns the first match, or nothing when there is none |
| Users.UserObject.constructor | src/repositories/user.repository.ts:101-112 | the object of a stored document carries its `_id`, `__v` and fields |
| Users.RoleValue | src/services/users/user.controller.ts:10-14 | role values lie in 1..3 |
| Users.RoleOf | src/controllers/user.controller.ts:12-16 | a number names a role iff it is 1, 2 or 3 |
| Users.RoleValues | src/services/users/user.controller.ts:10-14 | ADMIN = 1, MODERATOR = 2, VISITOR = 3, and each value maps back to its role |
| UserUserRepository.UserRepository.constructor | src/user/user.repository.ts:16-19 | wraps the base repository |
| UserUserRepository.UserRepository.IsUsernameExists | src/user/user.repository.ts:21-28 | true iff some stored user has exactly this username; read-only |
| UserUserRepository.UserRepository.IsEmailExists | src/user/user.repository.ts:30-37 | true iff some stored user has exactly this email; read-only |
| UserUserRepository.ExistsIsCaseSensitive | src/user/user.repository.ts:22 | "name" exists while "Name" does not: the lookups do not normalise |
| UserUserService.UserService.constructor | src/user/user.service.ts:22-23 | wraps the user repository |
| UserUserService.UserService.IsValidUsername | src/user/user.service.ts:30-41 | true iff the raw length is 4..30 and the repository reports the username as existing |
| UserUserService.UserService.IsUsernameAvailable | src/user/user.service.ts:43-47 | returns the repository's "exists" answer |
| UserUserService.UserService.IsEmailAvailable | src/user/user.service.ts:49-55 | returns "exists" of the normalised email |
| UserUserService.UserService.Create | src/user/user.service.ts:65-116 | a failing input check throws its error and writes nothing; otherwise the conflict decision, a duplicate `_id`, or the insert of the raw username, the normalised email and `hash(trim(password))`; uniqueness is preserved |
| UserUserService.UserService.Get | src/user/user.service.ts:118-125 | an empty id is MissingFieldError('id') before the store is touched; an invalid one InvalidIdError; otherwise the user or nothing |
| UserUserService.UserService.GetAll | src/user/user.service.ts:128-132 | at most ten users: the first ten stored |
| ServicesUserService.UserService.constructor | src/services/user.service.ts:40-41 | wraps the user repository |
| ServicesUserService.UserService.CreateUser | src/services/user.service.ts:43-70 | the conflict decision over the whole collection, a duplicate `_id`, or exactly one new record with the normalised username and email and `hash(trim(password))`, nothing else changing; uniqueness is preserved |
| ServicesUserService.UserService.GetAllUsers | src/services/user.service.ts:72-78 | fails iff the window is refused; otherwise `paginate` of the requested window of the filter's (or all) matches |
| ServicesUserService.UserService.UpdatePassword | src/services/user.service.ts:80-84 | InvalidIdError iff the id is invalid; otherwise only that user's password changes, to `hash(trim(password))`; uniqueness is preserved |
| ServicesUserService.UserService.UpdateEmail | src/services/user.service.ts:86-99 | as written: no write when the email is unchanged; a missing user is dereferenced; a changed email is refused when free and written when taken |
| ServicesUserService.UpdateEmailAsWrittenBreaksUniqueness | src/services/user.service.ts:136-142 | on two users with distinct emails, moving one to the other's email passes the as-written check and breaks uniqueness, and a free email is refused |
| ServicesUserService.UserService.UpdateEmailAsIntended | src/services/user.service.ts:86-99 | a changed email is refused when taken and otherwise written normalised; uniqueness is preserved |
| ServicesUserService.UserService.IsUsernameAvailable | src/services/user.service.ts:126-134 | false for an invalid username; otherwise the "exists" answer for the raw username |
| ServicesUserService.UserService.IsEmailAvailable | src/services/user.service.ts:136-142 | the "exists" answer for the normalised email |
| ServicesUserService.UserService.NormalizeUser | src/services/user.service.ts:151-159 | clears password, role and deletedAt in place; `_id`, id, `__v`, username, email and lastLoggedIn untouched; returns the same object |
| ServicesUserService.TwoUsers | src/services/user.service.ts:86-99 | the two distinct-email users of the counterexample |
| RepositoriesUserRepository.UserRepository.constructor | src/repositories/user.repository.ts:7 | wraps the base repository |
| RepositoriesUserRepository.UserRepository.GetUserByEmail | src/repositories/user.repository.ts:9-15 | the first user with exactly that email, or nothing iff none has it |
| RepositoriesUserRepository.UserRepository.UpdateEmail | src/repositories/user.repository.ts:17-28 | InvalidIdError for an empty or invalid id, then RepositoryMissingField for an empty email, both writing nothing; otherwise only that user's email changes |
| RepositoriesUserRepository.UserRepository.UpdatePassword | src/repositories/user.repository.ts:30-41 | the same guards in the same order; otherwise only the password changes |
| RepositoriesUserRepository.UserRepository.IsUsernameAvailable | src/repositories/user.repository.ts:75-87 | true iff the username is valid and no stored user has exactly the given, unnormalised, username |
| RepositoriesUserRepository.UserRepository.IsEmailAvailable | src/repositories/user.repository.ts:89-99 | true iff no stored user has the normalised email |
| RepositoriesUserRepository.UserRepository.NormalizeUser | src/repositories/user.repository.ts:101-112 | `id` takes the old `_id`; `_id`, `__v`, password, role and deletedAt are cleared; username, email and lastLoggedIn untouched |
| ServicesService.PageSizeOf | src/services/service.ts:19 | the configured page size when present and non-zero, else 20; never 0 |
| ServicesService.Service.constructor | src/services/service.ts:16-20 | the page size is `PageSizeOf(config)` |
| ServicesService.Service.Get | src/services/service.ts:22-34 | a missing id is MissingFieldError; an invalid one InvalidIdError; an absent record NotFoundError("User not found"); otherwise the stored record with that id |
| ServicesService.Service.Find | src/services/service.ts:36-54 | page size and number default to the configured size and 1; `find` with a filter, else `getAll`; fails iff the window is refused; the inline `next`/`previous` equal `paginate`'s |
| ServicesService.Service.Create | src/services/service.ts:56-64 | a missing body is BadRequest "Empty body" and writes nothing; otherwise the repository's insert |
| ServicesService.Service.Delete | src/services/service.ts:66-78 | a missing id is refused; an array empties the collection; a single id, once checked, deletes the document with that id, if any, and keeps every other; 204 |
| ServicesUsersUserController.UserController.constructor | src/services/users/user.controller.ts:19-23 | the inherited handlers and the user repository share one base repository |
| ServicesUsersUserController.UserController.Create | src/services/users/user.controller.ts:31-79 | the five input checks in order, writing nothing; then the conflict decision or exactly one new record with normalised names and `hash(trim(password))`, answered 201; uniqueness is preserved |
| ServicesUsersUserController.UserController.UpdateEmail | src/services/users/user.controller.ts:84-111 | id, email, email format, then id validity; a missing user is dereferenced; an unchanged email answers 204 with no write; a taken email is refused; otherwise the normalised email is written; uniqueness is preserved |
| ServicesUsersUserController.UserController.UpdatePassword | src/services/users/user.controller.ts:116-132 | id, then password, then the repository's guards; otherwise only the password changes, to `hash(trim(password))`, answered 204 |
| ControllersUserController.UserController.constructor | src/controllers/user.controller.ts:24-28 | the page size is 20 |
| ControllersUserController.UserController.GetAll | src/controllers/user.controller.ts:31-44 | page size defaults to 20 and page to 1; filter and path are passed on unchanged |
| ControllersUserController.UserController.Get | src/controllers/user.controller.ts:47-54 | a missing id is MissingFieldError('id'); an invalid one InvalidIdError before the repository; otherwise the user or nothing |
| ControllersUserController.UserController.Create | src/controllers/user.controller.ts:63-94 | fails iff an input check fails, with the first failing check's error; otherwise the raw, unnormalised request is handed over |
| ControllersUserController.UserController.UpdateEmail | src/controllers/user.controller.ts:99-120 | id, email, email format, then id validity; otherwise the id and the email as given are handed over |
| ControllersUserController.UserController.UpdatePassword | src/controllers/user.controller.ts:125-142 | id, then password, then id validity; otherwise the id and the password as given are handed over |

## Left out

- Non-ASCII text: `toLowerCase` is modelled on ASCII letters only. Unicode case mapping, which can change a string's length, is not modelled.
- bcrypt: the salt is not modelled. `hash` is an uninterpreted function of the trimmed password, so one password always hashes to one string. `isValidPassword` (bcrypt `compare`) is not modelled.
- validator's `isEmail` and `ObjectId.isValid` are uninterpreted predicates. `isLength` is a plain bound on the number of characters, with no special treatment of surrogate pairs or variation selectors.
- Sort and projection arguments of `get`, `getAll` and `find`: the stored order is the natural insertion order.
- `getUserByEmail` and the repository `isUsernameAvailable`/`isEmailAvailable` pass a projection into the page slot of `find`. That argument is treated as page 0.
- The existence lookups of src/user/user.repository.ts pass `{ projection: { _id: 1 } }` as the `options` of the `find` of src/core/repository.ts, its base class, which is correct there. src/core/repository.ts is not part of this model: the user repository is built on the base repository of src/common/repository.ts, whose second `find` parameter is a limit, so the lookups are modelled with no limit. Only whether a document matches is used, and that does not depend on the limit.
- Update documents (`{ email }`, `{ password }`) act as a `$set` of one field. The replacement semantics of the legacy `update` with a non-operator document is not modelled.
- `parseInt` of query strings: page size and page number arrive as integers. `NaN` and partial parses are not modelled.
- `Service.Find` and `getAllUsers` take the filter as a predicate. The whole query object that the source passes as the filter (including its paging keys) is not modelled.
- Mongoose specifics of the mongoose-based repositories are not modelled: schema defaults, timestamps, and the CastError raised by `deleteMany` with invalid ids.
- `ObjectId` values are kept as their strings. The conversion to `ObjectId` instances is not modelled. An `_id` read back from a stored document is taken to be valid.
- `CommonRepository.Repository.Create` returns the stored document. The source returns the driver's `InsertOneResult`.
- `ServicesUserService` uses the repository of src/repositories/repository.ts for `find`, `create`, `get` and `updateById`. Its existence lookups use the exact-match semantics of src/user/user.repository.ts, because the repository interface it imports is not part of this model.
- `UserUserService` calls a windowed `find(filter, limit, page)` and a `get(id)` that src/core/repository.ts does not have. The model uses those of src/common/repository.ts: limit 2 for the lookup, limit 10 and page 1 for `getAll`, and for `get` the id check of `getValidObjectId`. So the InvalidIdError that `UserUserService.UserService.Get` reports for a malformed id comes from that substitute. The nearest method of src/core/repository.ts, `findById`, would instead fail inside `new ObjectId(id)` with the driver's own error.
- `ServicesService` (src/services/service.ts:5) and `RepositoriesUserRepository` (src/repositories/user.repository.ts:4) import their `Repository` base from src/repositories/repository.ts. That class is the MongoDB-driver repository with one type parameter; the mongoose-model repository with the `Repository<T, U>` shape they are written against is src/services/repository.ts, so both are modelled over `ServicesRepository`. The differences that follow: `get` and `remove` also refuse an empty id, and `removeMany` checks no id.
- The `User` business model that src/controllers/user.controller.ts constructs and delegates to is not part of this model. Its handlers end at the DTO they hand over, and the 201/204 they then send is not modelled. Its `getValidObjectId` (imported from src/helpers.ts, which does not define it) is taken to be the one in src/utils/utils.ts.
- src/repository.ts:4 imports `getValidObjectId` from the same src/helpers.ts, which does not define it. `RootRepository` uses the one in src/utils/utils.ts for its id checks in `getById`, `remove`, `removeMany` and `updateById`.
- In src/services/users/user.controller.ts, `updatePassword` takes a fresh repository from `getUserRepository()`. The model uses the controller's own repository over the same collection.
- Concurrency: calls run one at a time. The check-then-insert race between the duplicate lookup and the insert is not modelled, so uniqueness is proved only for sequential calls.
- The database connection, Express wiring and middleware, dependency injection, logging and environment loading are not part of this model. `BASE_URL` is a parameter.

## Findings

| source | as written | input that shows it | evidently intended | confidence | as-written member | corrected member |
|---|---|---|---|---|---|---|
| src/services/user.service.ts:136-142, 86-99 | `isEmailAvailable` returns the repository's `isEmailExists` answer, and `updateEmail` writes the new email only when that answer is true | users "a" (a@x.io) and "b" (b@x.io); `updateEmail({ id: "a", newEmail: "b@x.io" })` writes b@x.io to "a", so two accounts share one email; `newEmail: "c@x.io"`, which nobody has, throws "Try another email" | availability is the negation of existence: write only when no stored user has the email | high, not executed | ServicesUserService.UpdateEmailAsWrittenBreaksUniqueness | ServicesUserService.UserService.UpdateEmailAsIntended |
