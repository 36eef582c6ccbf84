/** src/services/service.ts: the generic request handlers every resource controller
    inherits (get, a paginated find, create and delete) over the mongoose repository of
    src/services/repository.ts. Query-string values arrive already parsed; a response is
    the value the handler sends. */
module ServicesService {
  import opened Outcomes
  import opened AppErrors
  import opened External
  import opened Store
  import opened Pagination
  import ServicesRepository

  const DEFAULT_PAGE_SIZE: int := 20
  const EMPTY_BODY: string := "Empty body"
  const NO_CONTENT: int := 204

  /** The query of `find`: `pageSize`, `page` and `filter`, each possibly absent. */
  datatype FindQuery<!T> = FindQuery(pageSize: Option<int>, page: Option<int>, filter: Option<Filter<T>>)

  /** The `id` route parameter of `delete`: one id, or an array of them. */
  datatype DeleteId = Single(id: ObjectId) | Several(ids: seq<ObjectId>)

  /** The page size a configuration yields: `config?.pageSize || 20`. */
  function PageSizeOf(config: Option<int>): (n: int)
    ensures n != 0
    ensures config.Some? && config.value != 0 ==> n == config.value
    ensures config.None? || config.value == 0 ==> n == DEFAULT_PAGE_SIZE
  {
    if config.Some? && config.value != 0 then config.value else DEFAULT_PAGE_SIZE
  }

  class Service<T> {
    const repository: ServicesRepository.Repository<T>
    const pageSize: int

    ghost predicate Valid()
      reads this, repository, repository.model
    {
      repository.Valid()
    }

    ghost function Docs(): seq<Entry<T>>
      reads this, repository, repository.model
    {
      repository.model.docs
    }

    /** The page size is the configured one when present and not zero, else 20. */
    constructor (repository: ServicesRepository.Repository<T>, config: Option<int>)
      ensures this.repository == repository && pageSize == PageSizeOf(config)
    {
      this.repository := repository;
      pageSize := if config.Some? && config.value != 0 then config.value else 20;
    }

    /** `get(req)`: a missing id is refused; the repository's id check then applies; an
        absent record is "User not found". */
    method Get(id: ObjectId) returns (r: Result<Entry<T>, Failure>)
      ensures id == "" ==> r == Err(Thrown(MissingFieldError(REPOSITORY_ERROR_INVALID_ID)))
      ensures id != "" && !repository.env.isValidObjectId(id) ==> r == Err(Thrown(InvalidIdError))
      ensures id != "" && repository.env.isValidObjectId(id) ==>
        (FirstMatch(Docs(), IdIs(id)).None? ==> r == Err(Thrown(NotFoundError(Some(USER_NOT_FOUND)))))
        && (FirstMatch(Docs(), IdIs(id)).Some? ==> r == Ok(FirstMatch(Docs(), IdIs(id)).value))
      ensures r.Ok? ==> r.value in Docs() && r.value.id == id
    {
      if id == "" {
        return Err(Thrown(MissingFieldError("Invalid id")));
      }
      var user := repository.Get(id);
      if user.Err? {
        return Err(user.error);
      }
      if user.value.None? {
        return Err(Thrown(NotFoundError(Some(USER_NOT_FOUND))));
      }
      r := Ok(user.value.value);
    }

    /** `find(req)`: the page size and the page number default to the configured size and
        1; with a filter the repository's `find` runs, else its `getAll`; the `next` and
        `previous` links are built inline, exactly as `paginate` builds them. */
    method Find(query: FindQuery<T>, path: string, baseUrl: string) returns (r: Result<Page<Entry<T>>, Failure>)
      ensures var size := if query.pageSize.Some? then query.pageSize.value else pageSize;
        var number := if query.page.Some? then query.page.value else 1;
        var matches := Select(Docs(), if query.filter.Some? then query.filter.value else MatchAll());
        (r.Err? <==> size < 0 && number > 1)
        && (r.Err? ==> r == Err(DriverError(NEGATIVE_SKIP)))
        && (r.Ok? ==> r.value == Paginate(Paged(matches, size, number).value, size, number, path, baseUrl))
    {
      var size := if query.pageSize.Some? then query.pageSize.value else pageSize;
      var pageNumber := if query.page.Some? then query.page.value else 1;
      var documents;
      if query.filter.Some? {
        documents := repository.Find(query.filter.value, size, pageNumber);
      } else {
        documents := repository.GetAll(size, pageNumber);
        SelectAll(Docs());
      }
      PagedFailsExactly(Select(Docs(), if query.filter.Some? then query.filter.value else MatchAll()), size, pageNumber);
      if documents.Err? {
        return Err(documents.error);
      }
      var next := if |documents.value| < size then "" else Link(baseUrl, path, pageNumber + 1);
      var previous := if pageNumber > 1 then Link(baseUrl, path, pageNumber - 1) else "";
      r := Ok(Page(documents.value, size, pageNumber, next, previous));
    }

    /** `create(req)`: a missing body is a bad request; otherwise the repository's
        `create`. */
    method Create(body: Option<T>, newId: ObjectId) returns (r: Result<Entry<T>, Failure>)
      requires Valid()
      modifies repository.model
      ensures Valid()
      ensures body.None? ==> r == Err(Thrown(BadRequestError(EMPTY_BODY))) && Docs() == old(Docs())
      ensures body.Some? && HasId(old(Docs()), newId) ==> r == Err(DriverError(DUPLICATE_KEY)) && Docs() == old(Docs())
      ensures body.Some? && !HasId(old(Docs()), newId) ==>
        r == Ok(Entry(newId, body.value)) && Docs() == old(Docs()) + [Entry(newId, body.value)]
    {
      if body.None? {
        return Err(Thrown(BadRequestError("Empty body")));
      }
      r := repository.Create(body, newId);
    }

    /** `delete(req)`: a missing id is refused; an array of ids goes to `removeMany`,
        which empties the collection; a single id goes to `remove`. */
    method Delete(id: DeleteId) returns (r: Result<int, Failure>)
      requires Valid()
      modifies repository.model
      ensures Valid()
      ensures id == Single("") ==> r == Err(Thrown(MissingFieldError("Id is missing"))) && Docs() == old(Docs())
      ensures id.Several? ==> r == Ok(NO_CONTENT) && Docs() == []
      ensures id.Single? && id.id != "" && !repository.env.isValidObjectId(id.id) ==>
        r == Err(Thrown(InvalidIdError)) && Docs() == old(Docs())
      ensures id.Single? && id.id != "" && repository.env.isValidObjectId(id.id) ==>
        r == Ok(NO_CONTENT) && Docs() == DeleteFirst(old(Docs()), IdIs(id.id))
                           && Docs() == DeleteWhere(old(Docs()), IdIs(id.id))
    {
      if id == Single("") {
        return Err(Thrown(MissingFieldError("Id is missing")));
      }
      match id {
        case Several(ids) =>
          repository.RemoveMany(Some(ids));
        case Single(one) =>
          var removed := repository.Remove(one);
          if removed.Err? {
            return Err(removed.error);
          }
      }
      r := Ok(204);
    }
  }
}
