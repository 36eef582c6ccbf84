/** src/controllers/user.controller.ts: the `/users` handlers over the repository of
    src/repository.ts. Each handler checks the request and then hands a DTO to the `User`
    business model; that model is not defined in src/models/user.model.ts (which holds only
    the document interfaces and the mongoose model), so a handler's result here is the DTO
    it hands over, or the error it throws first. */
module ControllersUserController {
  import opened Outcomes
  import opened AppErrors
  import opened External
  import opened Store
  import opened Users
  import RootRepository
  import ServicesUserService

  const DEFAULT_PAGE_SIZE: int := 20

  /** The query of `getAll`: `pageSize`, `page` and `filter`, each possibly absent. */
  datatype GetAllQuery = GetAllQuery(pageSize: Option<int>, page: Option<int>, filter: Option<Filter<User>>)

  /** The `UserGetDTO` `getAll` builds. */
  datatype GetAllDto = GetAllDto(pageNumber: int, pageSize: int, filter: Option<Filter<User>>, path: string)

  class UserController {
    const repository: RootRepository.Repository<User>
    const pageSize: int

    ghost function Docs(): seq<Entry<User>>
      reads this, repository, repository.collection
    {
      repository.collection.docs
    }

    /** The page size is fixed at 20. */
    constructor (repository: RootRepository.Repository<User>)
      ensures this.repository == repository && pageSize == DEFAULT_PAGE_SIZE
    {
      this.repository := repository;
      pageSize := 20;
    }

    /** `getAll(req)`: the page size defaults to 20 and the page number to 1; the filter
        and the path are passed on as they are. */
    method GetAll(query: GetAllQuery, path: string) returns (dto: GetAllDto)
      ensures query.pageSize.None? ==> dto.pageSize == pageSize
      ensures query.pageSize.Some? ==> dto.pageSize == query.pageSize.value
      ensures query.page.None? ==> dto.pageNumber == 1
      ensures query.page.Some? ==> dto.pageNumber == query.page.value
      ensures dto.filter == query.filter && dto.path == path
    {
      var size := if query.pageSize.Some? then query.pageSize.value else pageSize;
      var pageNumber := if query.page.Some? then query.page.value else 1;
      dto := GetAllDto(pageNumber, size, query.filter, path);
    }

    /** `get(req)`: a missing id is refused, an invalid one throws before the repository
        is reached, and otherwise the user with that id, if any, is sent. */
    method Get(id: ObjectId) returns (r: Result<Option<Entry<User>>, Failure>)
      ensures id == "" ==> r == Err(Thrown(MissingFieldError("id")))
      ensures id != "" && !repository.env.isValidObjectId(id) ==> r == Err(Thrown(InvalidIdError))
      ensures id != "" && repository.env.isValidObjectId(id) ==> r == Ok(FirstMatch(Docs(), IdIs(id)))
    {
      if id == "" {
        return Err(Thrown(MissingFieldError("id")));
      }
      var objectId := GetValidObjectId(repository.env, id);
      if objectId.Err? {
        return Err(objectId.error);
      }
      r := repository.GetById(objectId.value);
    }

    /** `create(req)`: the five input checks in order; a request that passes them is
        handed over unchanged, neither name normalised. */
    method Create(body: CreateUserInput) returns (r: Result<CreateUserInput, Failure>)
      ensures r.Err? <==> CreateInputError(repository.env, body).Some?
      ensures r.Err? ==> r.error == Thrown(CreateInputError(repository.env, body).value)
      ensures r.Ok? ==> r.value == body
    {
      if body.email == "" {
        return Err(Thrown(MissingFieldError("email")));
      }
      if body.username == "" {
        return Err(Thrown(MissingFieldError("username")));
      }
      if body.password == "" {
        return Err(Thrown(MissingFieldError("password")));
      }
      if !repository.env.isEmail(body.email) {
        return Err(Thrown(BadRequestError(INVALID_EMAIL)));
      }
      if !PasswordLengthOk(body.password) {
        return Err(Thrown(BadRequestError(INVALID_PASSWORD)));
      }
      r := Ok(CreateUserInput(body.email, body.username, body.password));
    }

    /** `updateEmail(req)`: the id, the email and its format are checked, then the id's
        validity; the email is handed over as given. */
    method UpdateEmail(id: ObjectId, email: string) returns (r: Result<ServicesUserService.UpdateEmailDto, Failure>)
      ensures id == "" ==> r == Err(Thrown(MissingFieldError("id")))
      ensures id != "" && email == "" ==> r == Err(Thrown(MissingFieldError("email")))
      ensures id != "" && email != "" && !repository.env.isEmail(email) ==>
        r == Err(Thrown(BadRequestError(INVALID_EMAIL)))
      ensures id != "" && email != "" && repository.env.isEmail(email) ==>
        r == (if repository.env.isValidObjectId(id) then Ok(ServicesUserService.UpdateEmailDto(id, email))
              else Err(Thrown(InvalidIdError)))
    {
      if id == "" {
        return Err(Thrown(MissingFieldError("id")));
      }
      if email == "" {
        return Err(Thrown(MissingFieldError("email")));
      }
      if !repository.env.isEmail(email) {
        return Err(Thrown(BadRequestError(INVALID_EMAIL)));
      }
      var objectId := GetValidObjectId(repository.env, id);
      if objectId.Err? {
        return Err(objectId.error);
      }
      r := Ok(ServicesUserService.UpdateEmailDto(objectId.value, email));
    }

    /** `updatePassword(req)`: the id and the password are checked for presence, then the
        id's validity; the password is handed over as given. */
    method UpdatePassword(id: ObjectId, password: string) returns (r: Result<ServicesUserService.UpdatePasswordDto, Failure>)
      ensures id == "" ==> r == Err(Thrown(MissingFieldError("id")))
      ensures id != "" && password == "" ==> r == Err(Thrown(MissingFieldError("password")))
      ensures id != "" && password != "" ==>
        r == (if repository.env.isValidObjectId(id) then Ok(ServicesUserService.UpdatePasswordDto(id, password))
              else Err(Thrown(InvalidIdError)))
    {
      if id == "" {
        return Err(Thrown(MissingFieldError("id")));
      }
      if password == "" {
        return Err(Thrown(MissingFieldError("password")));
      }
      var objectId := GetValidObjectId(repository.env, id);
      if objectId.Err? {
        return Err(objectId.error);
      }
      r := Ok(ServicesUserService.UpdatePasswordDto(objectId.value, password));
    }
  }
}
