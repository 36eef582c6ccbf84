/** The error taxonomy: the `ApplicationError` class hierarchy, whose constructors only
    fix a status code and a message, written as one datatype with a code and a message
    function; plus the message constants the services throw with. */
module AppErrors {
  import opened Outcomes

  // StaticStringKeys
  const INVALID_REQUEST: string := "Invalid request"
  const INVALID_CREDENTIAL: string := "Invalid credential"
  const INVALID_ACCESS_TOKEN: string := "Invalid access token"
  const INVALID_REFRESH_TOKEN: string := "Invalid refresh token"
  const INVALID_EMAIL: string := "Invalid email"
  const INVALID_PASSWORD: string := "Invalid password"
  const INVALID_USERNAME: string := "Invalid username"
  const USER_NOT_FOUND: string := "User not found"
  const USERNAME_NOT_AVAILABLE: string := "Try another username"
  const EMAIL_NOT_AVAILABLE: string := "Try another email"
  const UNKNOWN_ERROR_TRY_AGAIN: string := "Unknown error occured. Please try again."
  const REPOSITORY_ERROR_INVALID_ID: string := "Invalid id"

  /** One constructor per class of the hierarchy; a missing (`undefined`) message is `None`. */
  datatype AppError =
    | ApplicationError(code: int, message: Option<string>)
    | BadRequestError(badRequestMessage: string)
    | UnauthorizedError(unauthorizedMessage: Option<string>)
    | ForbiddenError(forbiddenMessage: Option<string>)
    | NotFoundError(notFoundMessage: Option<string>)
    | MissingFieldError(fieldName: string)
    | InternalError(internalMessage: Option<string>)
    | InvalidCredentialError
    | InvalidTokenError(tokenType: string)
    | InvalidIdError
    | RepositoryMissingField

  /** What a call may end in besides an `ApplicationError`: a plain `Error`, an error
      the database driver raises, or the TypeError of reading a field of `null`. */
  datatype Failure =
    | Thrown(error: AppError)
    | PlainError(text: string)
    | DriverError(reason: string)
    | NullDereference

  const EMPTY_OBJECT: string := "Empty object provided"
  const NOT_IMPLEMENTED: string := "Method not implemented."

  /** The class each class's constructor passes its arguments to with `super(...)`;
      `None` for the root. */
  function Super(e: AppError): Option<AppError>
  {
    match e
    case ApplicationError(_, _) => None
    case BadRequestError(m) => Some(ApplicationError(400, Some(m)))
    case UnauthorizedError(m) => Some(ApplicationError(401, m))
    case ForbiddenError(m) => Some(ApplicationError(403, m))
    case NotFoundError(m) => Some(ApplicationError(404, m))
    case InternalError(m) => Some(ApplicationError(500, m))
    case MissingFieldError(f) => Some(BadRequestError(f + " is required"))
    case InvalidCredentialError => Some(BadRequestError(INVALID_CREDENTIAL))
    case InvalidTokenError(t) =>
      Some(BadRequestError(if t == "ACCESS" then INVALID_ACCESS_TOKEN else INVALID_REFRESH_TOKEN))
    case InvalidIdError => Some(BadRequestError(REPOSITORY_ERROR_INVALID_ID))
    case RepositoryMissingField => Some(BadRequestError("Field missing"))
  }

  /** Depth of a class below `ApplicationError`. */
  function Depth(e: AppError): nat
  {
    match e
    case ApplicationError(_, _) => 0
    case BadRequestError(_) => 1
    case UnauthorizedError(_) => 1
    case ForbiddenError(_) => 1
    case NotFoundError(_) => 1
    case InternalError(_) => 1
    case _ => 2
  }

  lemma SuperIsShallower(e: AppError)
    ensures Super(e).Some? ==> Depth(Super(e).value) < Depth(e)
  {
  }

  /** The `ApplicationError` fields a value ends up with, found by following the
      `super(...)` chain up to the root constructor, which stores exactly what it is given. */
  function Root(e: AppError): (r: AppError)
    ensures r.ApplicationError?
    decreases Depth(e)
  {
    match Super(e)
    case None => e
    case Some(p) => SuperIsShallower(e); Root(p)
  }

  /** `error.code`. */
  function Code(e: AppError): int
  {
    Root(e).code
  }

  /** `error.message`. */
  function Message(e: AppError): Option<string>
  {
    Root(e).message
  }

  /** Instances of `BadRequestError` (the class or one of its subclasses). */
  predicate IsBadRequest(e: AppError)
  {
    e.BadRequestError? || e.MissingFieldError? || e.InvalidCredentialError? || e.InvalidTokenError?
    || e.InvalidIdError? || e.RepositoryMissingField?
  }

  /** The classes that src/common/app.errors.ts also declares (it has no credential or
      token errors). */
  predicate InCommonHierarchy(e: AppError)
  {
    !e.InvalidCredentialError? && !e.InvalidTokenError?
  }

  /** The root constructor stores exactly the code and message it is given. */
  lemma {:induction false} ApplicationErrorStoresArguments(c: int, m: Option<string>)
    ensures Code(ApplicationError(c, m)) == c && Message(ApplicationError(c, m)) == m
  {
  }

  /** Every `BadRequestError` instance answers 400; the four sibling classes answer
      401, 403, 404 and 500. */
  lemma {:induction false} StatusCodes(e: AppError)
    ensures IsBadRequest(e) ==> Code(e) == 400
    ensures e.UnauthorizedError? ==> Code(e) == 401
    ensures e.ForbiddenError? ==> Code(e) == 403
    ensures e.NotFoundError? ==> Code(e) == 404
    ensures e.InternalError? ==> Code(e) == 500
    ensures !e.ApplicationError? ==> Code(e) in {400, 401, 403, 404, 500}
  {
    RootOfKnownClass(e);
  }

  /** The message each class carries. */
  lemma {:induction false} Messages(e: AppError)
    ensures e.BadRequestError? ==> Message(e) == Some(e.badRequestMessage)
    ensures e.MissingFieldError? ==> Message(e) == Some(e.fieldName + " is required")
    ensures e.InvalidIdError? ==> Message(e) == Some("Invalid id")
    ensures e.RepositoryMissingField? ==> Message(e) == Some("Field missing")
    ensures e.InvalidCredentialError? ==> Message(e) == Some("Invalid credential")
    ensures e.InvalidTokenError? ==>
      Message(e) == Some(if e.tokenType == "ACCESS" then "Invalid access token" else "Invalid refresh token")
    ensures e.NotFoundError? ==> Message(e) == e.notFoundMessage
  {
    RootOfKnownClass(e);
  }

  /** One step up the chain for a direct subclass of the root, two steps for a
      subclass of `BadRequestError`. */
  lemma {:induction false} RootOfKnownClass(e: AppError)
    ensures Super(e).Some? && Super(e).value.ApplicationError? ==> Root(e) == Super(e).value
    ensures Super(e).Some? && Super(e).value.BadRequestError? ==>
      Root(e) == ApplicationError(400, Some(Super(e).value.badRequestMessage))
  {
    if Super(e).Some? {
      var p := Super(e).value;
      assert Root(e) == Root(p);
      if p.BadRequestError? {
        assert Root(p) == Root(ApplicationError(400, Some(p.badRequestMessage)));
      }
    }
  }

  /** A subclass changes nothing its superclass stores: `error.code` and `error.message`
      are those of the `super(...)` call. */
  lemma {:induction false} SubclassKeepsSuperFields(e: AppError)
    requires Super(e).Some?
    ensures Code(e) == Code(Super(e).value) && Message(e) == Message(Super(e).value)
  {
    assert Root(e) == Root(Super(e).value);
  }

  /** The errors a client can receive from user creation, in the order the checks run. */
  function CreateUserErrors(): seq<AppError>
  {
    [MissingFieldError("email"), MissingFieldError("username"), MissingFieldError("password"),
     BadRequestError(INVALID_EMAIL), BadRequestError(INVALID_PASSWORD),
     BadRequestError(EMAIL_NOT_AVAILABLE), BadRequestError(USERNAME_NOT_AVAILABLE)]
  }

  /** All of them answer 400, and no two carry the same message, so a client can tell the
      reasons apart from the response text alone. */
  lemma CreateUserErrorsDistinguishable()
    ensures forall i :: 0 <= i < |CreateUserErrors()| ==> Code(CreateUserErrors()[i]) == 400
    ensures forall i, j :: 0 <= i < j < |CreateUserErrors()| ==>
      Message(CreateUserErrors()[i]) != Message(CreateUserErrors()[j])
  {
    var es := CreateUserErrors();
    forall i | 0 <= i < |es| ensures Code(es[i]) == 400 && Message(es[i]).Some? {
      RootOfKnownClass(es[i]);
    }
    var ms := seq(|es|, i requires 0 <= i < |es| => Message(es[i]).value);
    forall i | 0 <= i < |es| ensures Message(es[i]) == Some(ms[i]) { }
    Messages(es[0]); Messages(es[1]); Messages(es[2]); Messages(es[3]);
    Messages(es[4]); Messages(es[5]); Messages(es[6]);
    // first characters e, u, p, I, I, T, T; the two pairs that share one differ in length
    assert ms[0][0] == 'e' && ms[1][0] == 'u' && ms[2][0] == 'p';
    assert ms[3][0] == 'I' && ms[4][0] == 'I' && ms[5][0] == 'T' && ms[6][0] == 'T';
    assert |ms[3]| == 13 && |ms[4]| == 16 && |ms[5]| == 17 && |ms[6]| == 20;
  }
}
