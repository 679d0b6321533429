/**
 * The gateway's client of the user directory: it issues the validation and
 * registration calls and classifies what comes back. Only HTTP status errors
 * are handled; every other failure of the HTTP client passes through as it is.
 */
module GatewayUserClient {
  import opened Optional
  import opened JavaString
  import opened Dto
  import opened Exchange

  const NotFound := 404
  const BadRequest := 400
  const InternalServerError := 500

  /** What the HTTP client produces for one call, before any error handling. */
  datatype Outcome<T> =
    | Body(value: T)                                           // a 2xx response whose body decoded
    | NoBody                                                   // a 2xx response without a body
    | HttpError(status: int, message: string, body: string)    // a status error, with its message and response body
    | NotHttp(failure: Failure)                                // connection refused, timeout, decoding failure, ...

  /** What a reactive `Mono` ends with: one value, no value, or an error. */
  datatype Reply<T> = Value(value: T) | Empty | Error(failure: Failure)

  const UsersPrefix := "/api/users/"
  const ValidateSuffix := "/validate"
  const RegisterUri := "/api/users/register"

  /** The URI of the existence check for `userId` (URI encoding not modelled). */
  function ValidateUri(userId: string): (u: string)
    ensures StartsWith(u, UsersPrefix) && |u| == |UsersPrefix| + |userId| + |ValidateSuffix|
  {
    UsersPrefix + userId + ValidateSuffix
  }

  /** The user id an existence-check URI names, if it is one. */
  function ValidatedUserId(uri: string): Option<string> {
    var n := |UsersPrefix|;
    var k := |ValidateSuffix|;
    if n + k <= |uri| && uri[..n] == UsersPrefix && uri[|uri| - k..] == ValidateSuffix
    then Some(uri[n..|uri| - k])
    else None
  }

  /** The validation call targets exactly the given id: the URI gives it back. */
  lemma ValidateUriNamesUser(userId: string)
    ensures ValidatedUserId(ValidateUri(userId)) == Some(userId)
  {
    var u := ValidateUri(userId);
    var n := |UsersPrefix|;
    assert u[..n] == UsersPrefix;
    assert u[|u| - |ValidateSuffix|..] == ValidateSuffix;
    assert u[n..|u| - |ValidateSuffix|] == userId;
  }

  /**
   * `validateUser`'s error handling: the body comes back unchanged, a 404
   * becomes `false`, any other status error becomes a RuntimeException whose
   * message starts with "User validation error: ", and anything that is not
   * a status error propagates untouched.
   */
  function ValidationReply(o: Outcome<bool>): (r: Reply<bool>)
    ensures o.Body? ==> r == Value(o.value)
    ensures o.NoBody? ==> r == Empty
    ensures o.HttpError? && o.status == NotFound ==> r == Value(false)
    ensures o.HttpError? && o.status != NotFound ==>
              r.Error? && r.failure.Runtime? &&
              r.failure.message == "User validation error: " + o.message
    ensures o.NotHttp? ==> r == Error(o.failure)
    ensures r.Error? <==> (o.HttpError? && o.status != NotFound) || o.NotHttp?
  {
    match o
    case Body(b) => Value(b)
    case NoBody => Empty
    case HttpError(status, message, _) =>
      if status == NotFound then Value(false)
      else Error(Runtime("User validation error: " + message))
    case NotHttp(f) => Error(f)
  }

  /** How `registerUser` names a status error. */
  datatype RegistrationErrorKind = Rejected | ServerFault | Unexpected

  function KindOfStatus(status: int): RegistrationErrorKind {
    if status == BadRequest then Rejected
    else if status == InternalServerError then ServerFault
    else Unexpected
  }

  function RegistrationPrefix(kind: RegistrationErrorKind): string {
    match kind
    case Rejected => "Bad request: "
    case ServerFault => "Server error: "
    case Unexpected => "Unexpected error: "
  }

  /**
   * `registerUser`'s error handling: the decoded user comes back unchanged;
   * a status error never turns into success, but into a RuntimeException
   * whose message is the status-dependent prefix followed by the response
   * body; anything else propagates untouched.
   */
  function RegistrationReply(o: Outcome<UserResponse>): (r: Reply<UserResponse>)
    ensures o.Body? ==> r == Value(o.value)
    ensures o.NoBody? ==> r == Empty
    ensures o.HttpError? ==>
              r.Error? && r.failure.Runtime? &&
              r.failure.message == RegistrationPrefix(KindOfStatus(o.status)) + o.body
    ensures o.NotHttp? ==> r == Error(o.failure)
    ensures r.Error? <==> o.HttpError? || o.NotHttp?
  {
    match o
    case Body(u) => Value(u)
    case NoBody => Empty
    case HttpError(status, _, body) => Error(Runtime(RegistrationPrefix(KindOfStatus(status)) + body))
    case NotHttp(f) => Error(f)
  }

  /** Reads the error kind back from a registration error message. */
  function KindOfMessage(message: string): Option<RegistrationErrorKind> {
    if StartsWith(message, RegistrationPrefix(Rejected)) then Some(Rejected)
    else if StartsWith(message, RegistrationPrefix(ServerFault)) then Some(ServerFault)
    else if StartsWith(message, RegistrationPrefix(Unexpected)) then Some(Unexpected)
    else None
  }

  /**
   * The three prefixes are told apart by their first letter, so the message
   * of a registration error always identifies which class of status caused
   * it, whatever the response body says.
   */
  lemma RegistrationMessageNamesStatus(status: int, message: string, body: string)
    ensures var r := RegistrationReply(HttpError(status, message, body));
            KindOfMessage(r.failure.message) == Some(KindOfStatus(status))
  {
    var kind := KindOfStatus(status);
    var m := RegistrationPrefix(kind) + body;
    assert m[..|RegistrationPrefix(kind)|] == RegistrationPrefix(kind);
    assert m[0] == RegistrationPrefix(kind)[0];
  }

  /**
   * The user directory as the gateway reaches it. `validateReply` and
   * `registerReply` stand for the remote service's answers; every call is
   * recorded in the shared trace before its reply is classified.
   */
  class DirectoryClient {
    const trace: Trace
    const validateReply: string -> Outcome<bool>
    const registerReply: RegisterRequest -> Outcome<UserResponse>

    constructor (trace: Trace,
                 validateReply: string -> Outcome<bool>,
                 registerReply: RegisterRequest -> Outcome<UserResponse>)
      ensures this.trace == trace
      ensures this.validateReply == validateReply && this.registerReply == registerReply
    {
      this.trace := trace;
      this.validateReply := validateReply;
      this.registerReply := registerReply;
    }

    /** `validateUser(userId)`: GET the existence check for `userId`. */
    method ValidateUser(userId: string) returns (r: Reply<bool>)
      modifies trace
      ensures trace.events == old(trace.events) + [Sent(Get(ValidateUri(userId)))]
      ensures r == ValidationReply(validateReply(userId))
    {
      trace.Record(Sent(Get(ValidateUri(userId))));
      r := ValidationReply(validateReply(userId));
    }

    /** `registerUser(request)`: POST the request to the registration endpoint. */
    method RegisterUser(request: RegisterRequest) returns (r: Reply<UserResponse>)
      modifies trace
      ensures trace.events == old(trace.events) + [Sent(Post(RegisterUri, request))]
      ensures r == RegistrationReply(registerReply(request))
    {
      trace.Record(Sent(Post(RegisterUri, request)));
      r := RegistrationReply(registerReply(request));
    }
  }
}
