/**
 * The gateway filter that keeps the user directory in step with the identity
 * a bearer token asserts. For each request it reads the `Authorization` and
 * `X-User-ID` headers, extracts a registration record from the token's
 * claims, works out the effective user id, asks the directory whether that
 * user exists, registers the token's user when it does not, and only then
 * hands the request on with `X-User-ID` overwritten.
 *
 * The JWT library is abstracted as a partial function from credential text
 * to a claim set; the directory and the rest of the chain record their calls
 * in one shared trace.
 */
module UserSyncFilter {
  import opened Optional
  import opened JavaString
  import opened Dto
  import opened Exchange
  import opened GatewayUserClient

  const AuthorizationHeader := "Authorization"
  const UserIdHeader := "X-User-ID"
  /** The authentication scheme of section 2.1 of RFC 6750, matched case-sensitively. */
  const BearerPrefix := "Bearer "
  /** The fixed placeholder password of every registration the gateway issues. */
  const DummyPassword := "dummy@123123"

  /** A claim's JSON value, as far as a string read can tell. */
  datatype ClaimValue = StringClaim(text: string) | NullClaim | OtherClaim

  /** A JWT claim set: claim name to value. */
  type Claims = map<string, ClaimValue>

  /**
   * `SignedJWT.parse(t).getJWTClaimsSet()`: the claim set, or `None` when
   * either call throws. Signatures are not checked here.
   */
  type JwtParser = string -> Option<Claims>

  /** What `getStringClaim` does: a string, `null`, or a ParseException. */
  datatype ClaimRead = Read(value: Option<string>) | NotAString

  function GetStringClaim(claims: Claims, name: string): (r: ClaimRead)
    ensures r.NotAString? <==> name in claims && claims[name].OtherClaim?
    ensures r.Read? && r.value.Some? <==> name in claims && claims[name].StringClaim?
    ensures r.Read? && r.value.Some? ==> r.value.value == claims[name].text
  {
    if name !in claims then Read(None)
    else match claims[name]
      case StringClaim(s) => Read(Some(s))
      case NullClaim => Read(None)
      case OtherClaim => NotAString
  }

  /** The credential handed to the JWT parser: every "Bearer " removed, then trimmed. */
  function Credential(token: string): string {
    Trim(RemoveAll(token, BearerPrefix))
  }

  /**
   * A compact JWT (section 7.1 of RFC 7515: base64url parts joined by dots,
   * so no space or control character) behind "Bearer " reaches the parser
   * exactly as it was sent.
   */
  lemma BearerCredential(jwt: string)
    requires forall i :: 0 <= i < |jwt| ==> !Trimmable(jwt[i])
    ensures Credential(BearerPrefix + jwt) == jwt
  {
    RemoveAllFront(BearerPrefix, jwt);
    forall i: nat | i < |jwt| ensures !OccursAt(jwt, BearerPrefix, i) {
      if OccursAt(jwt, BearerPrefix, i) {
        OccursAtChar(jwt, BearerPrefix, i, 6);
      }
    }
    RemoveAllAbsent(jwt, BearerPrefix);
    TrimFixes(jwt);
  }

  /**
   * `getUserDetails`: the registration record a token describes, or `None`
   * for a missing or non-bearer header, a token that does not parse, a
   * missing or null `sub`, or a claim that is not a string (every exception
   * becomes `None`). The identifier is the `sub` claim of section 4.1.2 of
   * RFC 7519; `email`, `given_name` and `family_name` are the standard
   * claims of section 5.1 of OpenID Connect Core 1.0. A blank `sub` is
   * accepted.
   */
  function GetUserDetails(token: Option<string>, parse: JwtParser): (r: Option<RegisterRequest>)
    ensures token.None? ==> r.None?
    ensures token.Some? && !StartsWith(token.value, BearerPrefix) ==> r.None?
    ensures token.Some? && parse(Credential(token.value)).None? ==> r.None?
    ensures r.Some? ==> r.value.keyCloakId.Some? && r.value.password == Some(DummyPassword)
  {
    if token.None? || !StartsWith(token.value, BearerPrefix) then None
    else match parse(Credential(token.value))
      case None => None
      case Some(claims) => RecordFromClaims(claims)
  }

  /**
   * The part of `getUserDetails` after parsing: `null` for a null `sub`, and
   * `null` for the ParseException a non-string claim raises.
   */
  function RecordFromClaims(claims: Claims): (r: Option<RegisterRequest>)
    ensures r.Some? ==> r.value.keyCloakId.Some? && r.value.password == Some(DummyPassword)
  {
    var sub := GetStringClaim(claims, "sub");
    if sub.NotAString? || sub.value.None? then None
    else
      var email := GetStringClaim(claims, "email");
      var givenName := GetStringClaim(claims, "given_name");
      var familyName := GetStringClaim(claims, "family_name");
      if email.NotAString? || givenName.NotAString? || familyName.NotAString? then None
      else Some(RegisterRequest(email.value, sub.value, Some(DummyPassword),
                                givenName.value, familyName.value))
  }

  /** A claim's text when it is a string claim, `null` otherwise. */
  function ClaimText(claims: Claims, name: string): Option<string> {
    if name in claims && claims[name].StringClaim? then Some(claims[name].text) else None
  }

  /** A claim that is absent, null or a string reads without an exception. */
  predicate Readable(claims: Claims, name: string) {
    name !in claims || !claims[name].OtherClaim?
  }

  /** Claims that yield a user: a string `sub`, and the other three readable. */
  predicate UsableClaims(claims: Claims) {
    && "sub" in claims && claims["sub"].StringClaim?
    && Readable(claims, "email") && Readable(claims, "given_name") && Readable(claims, "family_name")
  }

  /** The header carries a bearer token whose claims yield a user: the reference condition. */
  predicate UsableToken(token: Option<string>, parse: JwtParser) {
    && token.Some? && StartsWith(token.value, BearerPrefix)
    && parse(Credential(token.value)).Some?
    && UsableClaims(parse(Credential(token.value)).value)
  }

  /** The record the claims give, read straight off them. */
  function ClaimsRecord(claims: Claims): RegisterRequest {
    RegisterRequest(ClaimText(claims, "email"), ClaimText(claims, "sub"), Some(DummyPassword),
                    ClaimText(claims, "given_name"), ClaimText(claims, "family_name"))
  }

  /** Reading the claims succeeds exactly for usable claims, with the record read off them. */
  lemma RecordFromClaimsExactly(claims: Claims)
    ensures RecordFromClaims(claims).Some? <==> UsableClaims(claims)
    ensures UsableClaims(claims) ==> RecordFromClaims(claims) == Some(ClaimsRecord(claims))
  {
    var _ := GetStringClaim(claims, "sub");
    var _ := GetStringClaim(claims, "email");
    var _ := GetStringClaim(claims, "given_name");
    var _ := GetStringClaim(claims, "family_name");
  }

  /**
   * `getUserDetails` succeeds exactly for a usable token, and then the
   * record is read straight off the claims: `keyCloakId` is `sub`, the
   * names and email are the matching claims, and the password is the fixed
   * placeholder.
   */
  lemma GetUserDetailsExactly(token: Option<string>, parse: JwtParser)
    ensures GetUserDetails(token, parse).Some? <==> UsableToken(token, parse)
    ensures UsableToken(token, parse) ==>
              GetUserDetails(token, parse) == Some(ClaimsRecord(parse(Credential(token.value)).value))
  {
    if token.Some? && StartsWith(token.value, BearerPrefix) && parse(Credential(token.value)).Some? {
      RecordFromClaimsExactly(parse(Credential(token.value)).value);
    }
  }

  /** Only a null `sub` is refused: an empty one yields a record with an empty id. */
  lemma BlankSubjectAccepted(token: string, parse: JwtParser, claims: Claims)
    requires StartsWith(token, BearerPrefix) && parse(Credential(token)) == Some(claims)
    requires claims == map["sub" := StringClaim("")]
    ensures GetUserDetails(Some(token), parse) ==
              Some(RegisterRequest(None, Some(""), Some(DummyPassword), None, None))
  {
    GetUserDetailsExactly(Some(token), parse);
  }

  /** How one request ends. */
  datatype FilterOutcome = Completed | Failed(failure: Failure)

  /** The calls one request causes, in order, and how it ends. */
  datatype Run = Run(events: seq<Event>, outcome: FilterOutcome)

  /**
   * The part of the filter after the user id has been resolved without a
   * null dereference: with an id and a token, validate, maybe register,
   * then forward with `X-User-ID` set; otherwise forward untouched.
   */
  function Resolved(request: Request, token: Option<string>, userId: Option<string>,
                    details: Option<RegisterRequest>,
                    validateReply: string -> Outcome<bool>,
                    registerReply: RegisterRequest -> Outcome<UserResponse>): (run: Run)
    ensures 1 <= |run.events| <= 3
  {
    if userId.None? || token.None? then Run([Forwarded(request)], Completed)
    else
      var id := userId.value;
      var validate := Sent(Get(ValidateUri(id)));
      var forward := Forwarded(WithHeader(request, UserIdHeader, id));
      match ValidationReply(validateReply(id))
      case Error(f) => Run([validate], Failed(f))
      case Value(exists_) =>
        if !exists_ && details.Some? then
          var register := Sent(Post(RegisterUri, details.value));
          match RegistrationReply(registerReply(details.value))
          case Error(f) => Run([validate, register], Failed(f))
          case _ => Run([validate, register, forward], Completed)
        else Run([validate, forward], Completed)
      case Empty => Run([validate, forward], Completed)
  }

  /**
   * `filter` as written: with neither an `X-User-ID` header nor a usable
   * token, `registerRequest.getKeyCloakId()` dereferences null.
   */
  function Sync(request: Request, parse: JwtParser,
                validateReply: string -> Outcome<bool>,
                registerReply: RegisterRequest -> Outcome<UserResponse>): (run: Run)
    ensures |run.events| <= 3
    ensures run.events == [] <==>
              FirstHeader(request, UserIdHeader).None? &&
              GetUserDetails(FirstHeader(request, AuthorizationHeader), parse).None?
  {
    var token := FirstHeader(request, AuthorizationHeader);
    var header := FirstHeader(request, UserIdHeader);
    var details := GetUserDetails(token, parse);
    if header.None? && details.None? then Run([], Failed(NullPointer))
    else
      var userId := if header.Some? then header else details.value.keyCloakId;
      Resolved(request, token, userId, details, validateReply, registerReply)
  }

  /** The effective user id: the `X-User-ID` header when present, otherwise the token's `sub`. */
  function EffectiveUserId(request: Request, parse: JwtParser): Option<string> {
    var header := FirstHeader(request, UserIdHeader);
    if header.Some? then header
    else match GetUserDetails(FirstHeader(request, AuthorizationHeader), parse)
      case Some(d) => d.keyCloakId
      case None => None
  }

  /**
   * One request through the filter. The directory and the chain share one
   * trace, so the order of their calls is recorded; the new calls and the
   * outcome are those of `Sync`.
   */
  method Filter(request: Request, parse: JwtParser, client: DirectoryClient, chain: FilterChain)
    returns (outcome: FilterOutcome)
    requires client.trace == chain.trace
    modifies client.trace
    ensures var run := Sync(request, parse, client.validateReply, client.registerReply);
            client.trace.events == old(client.trace.events) + run.events && outcome == run.outcome
  {
    var token := FirstHeader(request, AuthorizationHeader);
    var userId := FirstHeader(request, UserIdHeader);
    var registerRequest := GetUserDetails(token, parse);
    if userId.None? {
      if registerRequest.None? {
        return Failed(NullPointer);
      }
      userId := registerRequest.value.keyCloakId;
    }
    outcome := ForwardResolved(request, token, userId, registerRequest, client, chain);
  }

  /**
   * The part of `filter` after the user id is known: the existence check,
   * the registration when the user is missing, and the hand-off, recorded
   * as `Resolved` says.
   */
  method ForwardResolved(request: Request, token: Option<string>, userId: Option<string>,
                         registerRequest: Option<RegisterRequest>,
                         client: DirectoryClient, chain: FilterChain)
    returns (outcome: FilterOutcome)
    requires client.trace == chain.trace
    modifies client.trace
    ensures var run := Resolved(request, token, userId, registerRequest, client.validateReply, client.registerReply);
            client.trace.events == old(client.trace.events) + run.events && outcome == run.outcome
  {
    if userId.Some? && token.Some? {
      var exist := client.ValidateUser(userId.value);
      match exist {
        case Error(f) =>
          return Failed(f);
        case Value(b) =>
          if !b && registerRequest.Some? {
            var registered := client.RegisterUser(registerRequest.value);
            if registered.Error? {
              return Failed(registered.failure);
            }
          }
        case Empty =>
      }
      chain.Filter(WithHeader(request, UserIdHeader, userId.value));
      return Completed;
    }
    chain.Filter(request);
    return Completed;
  }

  // ----- counting calls in a run -----

  predicate IsValidation(e: Event) { e.Sent? && e.call.Get? }
  predicate IsRegistration(e: Event) { e.Sent? && e.call.Post? }

  function Validations(events: seq<Event>): nat {
    if events == [] then 0 else (if IsValidation(events[0]) then 1 else 0) + Validations(events[1..])
  }

  function Registrations(events: seq<Event>): nat {
    if events == [] then 0 else (if IsRegistration(events[0]) then 1 else 0) + Registrations(events[1..])
  }

  function Forwards(events: seq<Event>): nat {
    if events == [] then 0 else (if events[0].Forwarded? then 1 else 0) + Forwards(events[1..])
  }

  /**
   * Counting the calls of the resolved part of the filter: one existence
   * check whenever there is an id and a token, one registration exactly when
   * that check said `false` and the token gave a record, and one forward
   * exactly when the request completes, as its last call.
   */
  lemma {:induction false} ResolvedCounts(request: Request, token: Option<string>, userId: Option<string>,
                                          details: Option<RegisterRequest>,
                                          validateReply: string -> Outcome<bool>,
                                          registerReply: RegisterRequest -> Outcome<UserResponse>)
    ensures var run := Resolved(request, token, userId, details, validateReply, registerReply);
            && Validations(run.events) == (if userId.Some? && token.Some? then 1 else 0)
            && Registrations(run.events) ==
                 (if userId.Some? && token.Some? && details.Some?
                     && ValidationReply(validateReply(userId.value)) == Value(false) then 1 else 0)
            && Forwards(run.events) == (if run.outcome.Completed? then 1 else 0)
            && (run.outcome.Completed? ==> run.events[|run.events| - 1].Forwarded?)
  {
    if userId.Some? && token.Some? {
      var id := userId.value;
      var validate := Sent(Get(ValidateUri(id)));
      var forward := Forwarded(WithHeader(request, UserIdHeader, id));
      var reply := ValidationReply(validateReply(id));
      if reply.Error? {
        CountsCons(validate, []);
      } else if reply == Value(false) && details.Some? {
        var register := Sent(Post(RegisterUri, details.value));
        CountsCons(register, []);
        CountsCons(validate, [register]);
        CountsCons(forward, []);
        CountsCons(register, [forward]);
        CountsCons(validate, [register, forward]);
      } else {
        CountsCons(forward, []);
        CountsCons(validate, [forward]);
      }
    } else {
      CountsCons(Forwarded(request), []);
    }
  }

  /**
   * Where the calls of the resolved part sit: the existence check first, the
   * registration second, and the forward last, carrying the resolved id
   * whenever the directory was asked.
   */
  lemma ResolvedOrder(request: Request, token: Option<string>, userId: Option<string>,
                      details: Option<RegisterRequest>,
                      validateReply: string -> Outcome<bool>,
                      registerReply: RegisterRequest -> Outcome<UserResponse>)
    ensures var run := Resolved(request, token, userId, details, validateReply, registerReply);
            && (userId.Some? && token.Some? ==>
                  run.events != [] && run.events[0] == Sent(Get(ValidateUri(userId.value))))
            && (userId.Some? && token.Some? && details.Some?
                && ValidationReply(validateReply(userId.value)) == Value(false) ==>
                  |run.events| >= 2 && run.events[1] == Sent(Post(RegisterUri, details.value)))
            && (run.outcome.Completed? && userId.Some? && token.Some? ==>
                  run.events != [] &&
                  run.events[|run.events| - 1] == Forwarded(WithHeader(request, UserIdHeader, userId.value)))
  {
  }

  /**
   * The filter is its resolved part, applied to the effective user id,
   * except when there is no identity at all.
   */
  lemma SyncResolves(request: Request, parse: JwtParser,
                     validateReply: string -> Outcome<bool>,
                     registerReply: RegisterRequest -> Outcome<UserResponse>)
    ensures var token := FirstHeader(request, AuthorizationHeader);
            var details := GetUserDetails(token, parse);
            var run := Sync(request, parse, validateReply, registerReply);
            && (FirstHeader(request, UserIdHeader).None? && details.None? ==> run == Run([], Failed(NullPointer)))
            && (FirstHeader(request, UserIdHeader).Some? || details.Some? ==>
                  EffectiveUserId(request, parse).Some? &&
                  run == Resolved(request, token, EffectiveUserId(request, parse), details, validateReply, registerReply))
  {
  }

  /** The same counts for the whole filter, in terms of the effective user id. */
  lemma SyncCounts(request: Request, parse: JwtParser,
                   validateReply: string -> Outcome<bool>,
                   registerReply: RegisterRequest -> Outcome<UserResponse>)
    ensures var run := Sync(request, parse, validateReply, registerReply);
            var token := FirstHeader(request, AuthorizationHeader);
            var details := GetUserDetails(token, parse);
            var id := EffectiveUserId(request, parse);
            && Validations(run.events) == (if id.Some? && token.Some? then 1 else 0)
            && Registrations(run.events) ==
                 (if id.Some? && token.Some? && details.Some?
                     && ValidationReply(validateReply(id.value)) == Value(false) then 1 else 0)
            && Forwards(run.events) == (if run.outcome.Completed? then 1 else 0)
            && (run.outcome.Completed? ==> run.events[|run.events| - 1].Forwarded?)
  {
    var token := FirstHeader(request, AuthorizationHeader);
    var details := GetUserDetails(token, parse);
    SyncResolves(request, parse, validateReply, registerReply);
    if FirstHeader(request, UserIdHeader).Some? || details.Some? {
      ResolvedCounts(request, token, EffectiveUserId(request, parse), details, validateReply, registerReply);
    }
  }

  /** The three counts of a sequence that starts with `e`. */
  lemma CountsCons(e: Event, rest: seq<Event>)
    ensures Validations([e] + rest) == (if IsValidation(e) then 1 else 0) + Validations(rest)
    ensures Registrations([e] + rest) == (if IsRegistration(e) then 1 else 0) + Registrations(rest)
    ensures Forwards([e] + rest) == (if e.Forwarded? then 1 else 0) + Forwards(rest)
  {
    assert ([e] + rest)[1..] == rest;
  }

  // ----- properties of one request -----

  /** No `X-User-ID` and no usable token: the filter fails before calling anyone. */
  lemma NullDereferenceWithoutIdentity(request: Request, parse: JwtParser,
                                       validateReply: string -> Outcome<bool>,
                                       registerReply: RegisterRequest -> Outcome<UserResponse>)
    requires FirstHeader(request, UserIdHeader).None?
    requires !UsableToken(FirstHeader(request, AuthorizationHeader), parse)
    ensures Sync(request, parse, validateReply, registerReply) == Run([], Failed(NullPointer))
  {
    GetUserDetailsExactly(FirstHeader(request, AuthorizationHeader), parse);
  }

  /** In particular a request with neither header fails with a null dereference. */
  lemma NoHeadersFails(target: string, parse: JwtParser,
                       validateReply: string -> Outcome<bool>,
                       registerReply: RegisterRequest -> Outcome<UserResponse>)
    ensures Sync(Request(target, []), parse, validateReply, registerReply) == Run([], Failed(NullPointer))
  {
  }

  /** Without a token but with an `X-User-ID`, the request is forwarded untouched and the directory is not called. */
  lemma TokenlessPassThrough(request: Request, parse: JwtParser,
                             validateReply: string -> Outcome<bool>,
                             registerReply: RegisterRequest -> Outcome<UserResponse>)
    requires FirstHeader(request, AuthorizationHeader).None?
    requires FirstHeader(request, UserIdHeader).Some?
    ensures Sync(request, parse, validateReply, registerReply) == Run([Forwarded(request)], Completed)
  {
  }

  /**
   * With a token and a resolved id, the first call is the existence check for
   * the effective id, and it is issued exactly once.
   */
  lemma ValidatesOnceFirst(request: Request, parse: JwtParser,
                           validateReply: string -> Outcome<bool>,
                           registerReply: RegisterRequest -> Outcome<UserResponse>)
    requires FirstHeader(request, AuthorizationHeader).Some?
    requires EffectiveUserId(request, parse).Some?
    ensures var run := Sync(request, parse, validateReply, registerReply);
            && run.events != []
            && run.events[0] == Sent(Get(ValidateUri(EffectiveUserId(request, parse).value)))
            && Validations(run.events) == 1
  {
    var token := FirstHeader(request, AuthorizationHeader);
    var details := GetUserDetails(token, parse);
    SyncResolves(request, parse, validateReply, registerReply);
    ResolvedCounts(request, token, EffectiveUserId(request, parse), details, validateReply, registerReply);
    ResolvedOrder(request, token, EffectiveUserId(request, parse), details, validateReply, registerReply);
  }

  /**
   * At most one registration, and one is issued exactly when the existence
   * check answered `false` and the token gave a record; it is the second
   * call and carries that record.
   */
  lemma RegistersOnlyAfterNotFound(request: Request, parse: JwtParser,
                                   validateReply: string -> Outcome<bool>,
                                   registerReply: RegisterRequest -> Outcome<UserResponse>)
    ensures var run := Sync(request, parse, validateReply, registerReply);
            var token := FirstHeader(request, AuthorizationHeader);
            var details := GetUserDetails(token, parse);
            var id := EffectiveUserId(request, parse);
            && Registrations(run.events) <= 1
            && (Registrations(run.events) == 1 <==>
                  token.Some? && id.Some? && details.Some?
                  && ValidationReply(validateReply(id.value)) == Value(false))
            && (Registrations(run.events) == 1 ==>
                  |run.events| >= 2 && run.events[1] == Sent(Post(RegisterUri, details.value)))
  {
    var token := FirstHeader(request, AuthorizationHeader);
    var details := GetUserDetails(token, parse);
    SyncCounts(request, parse, validateReply, registerReply);
    SyncResolves(request, parse, validateReply, registerReply);
    if FirstHeader(request, UserIdHeader).Some? || details.Some? {
      ResolvedOrder(request, token, EffectiveUserId(request, parse), details, validateReply, registerReply);
    }
  }

  /** An existing user is never registered again. */
  lemma NoRegistrationForExistingUser(request: Request, parse: JwtParser,
                                      validateReply: string -> Outcome<bool>,
                                      registerReply: RegisterRequest -> Outcome<UserResponse>)
    requires EffectiveUserId(request, parse).Some?
    requires ValidationReply(validateReply(EffectiveUserId(request, parse).value)) == Value(true)
    ensures Registrations(Sync(request, parse, validateReply, registerReply).events) == 0
  {
    SyncCounts(request, parse, validateReply, registerReply);
  }

  /**
   * The chain is called at most once, as the very last call, and exactly
   * when the request completes; with a token it receives the request with
   * `X-User-ID` overwritten by the effective id.
   */
  lemma ForwardsLastOnlyOnSuccess(request: Request, parse: JwtParser,
                                  validateReply: string -> Outcome<bool>,
                                  registerReply: RegisterRequest -> Outcome<UserResponse>)
    ensures var run := Sync(request, parse, validateReply, registerReply);
            && Forwards(run.events) <= 1
            && (run.outcome.Completed? <==> Forwards(run.events) == 1)
            && (run.outcome.Completed? ==> run.events[|run.events| - 1].Forwarded?)
            && (run.outcome.Completed? && FirstHeader(request, AuthorizationHeader).Some? ==>
                  run.events[|run.events| - 1] ==
                    Forwarded(WithHeader(request, UserIdHeader, EffectiveUserId(request, parse).value)))
  {
    var token := FirstHeader(request, AuthorizationHeader);
    var details := GetUserDetails(token, parse);
    SyncCounts(request, parse, validateReply, registerReply);
    SyncResolves(request, parse, validateReply, registerReply);
    if FirstHeader(request, UserIdHeader).Some? || details.Some? {
      ResolvedOrder(request, token, EffectiveUserId(request, parse), details, validateReply, registerReply);
    }
  }

  /**
   * A directory error is not absorbed: the request fails with exactly that
   * error and the chain is never reached.
   */
  lemma DirectoryErrorsPropagate(request: Request, parse: JwtParser,
                                 validateReply: string -> Outcome<bool>,
                                 registerReply: RegisterRequest -> Outcome<UserResponse>)
    requires FirstHeader(request, AuthorizationHeader).Some?
    requires EffectiveUserId(request, parse).Some?
    ensures var run := Sync(request, parse, validateReply, registerReply);
            var id := EffectiveUserId(request, parse).value;
            var details := GetUserDetails(FirstHeader(request, AuthorizationHeader), parse);
            && (ValidationReply(validateReply(id)).Error? ==>
                  run == Run([Sent(Get(ValidateUri(id)))], Failed(ValidationReply(validateReply(id)).failure)))
            && (ValidationReply(validateReply(id)) == Value(false) && details.Some? &&
                RegistrationReply(registerReply(details.value)).Error? ==>
                  run.outcome == Failed(RegistrationReply(registerReply(details.value)).failure)
                  && Forwards(run.events) == 0)
  {
    var token := FirstHeader(request, AuthorizationHeader);
    var details := GetUserDetails(token, parse);
    var id := EffectiveUserId(request, parse);
    var run := Sync(request, parse, validateReply, registerReply);
    assert run == Resolved(request, token, id, details, validateReply, registerReply);
    if ValidationReply(validateReply(id.value)) == Value(false) && details.Some? &&
       RegistrationReply(registerReply(details.value)).Error? {
      assert run.outcome == Failed(RegistrationReply(registerReply(details.value)).failure);
      SyncCounts(request, parse, validateReply, registerReply);
    }
  }

  /**
   * The id that is validated and forwarded comes from the `X-User-ID` header
   * when there is one, while the registration always carries the token's
   * claims: a client that sends `X-User-ID: alice` with a token for `bob`
   * gets `alice` checked and `bob` registered, and the request goes on as
   * `alice`. (`LowerCaseHeadersRead` shows that the headers may be sent in
   * lower case.)
   */
  lemma ValidatedIdMayDifferFromRegistered(request: Request, token: string, parse: JwtParser,
                                           validateReply: string -> Outcome<bool>,
                                           registerReply: RegisterRequest -> Outcome<UserResponse>)
    requires FirstHeader(request, AuthorizationHeader) == Some(token)
    requires FirstHeader(request, UserIdHeader) == Some("alice")
    requires StartsWith(token, BearerPrefix)
    requires parse(Credential(token)) == Some(map["sub" := StringClaim("bob")])
    requires validateReply("alice") == Body(false)
    requires registerReply(RegisterRequest(None, Some("bob"), Some(DummyPassword), None, None)).Body?
    ensures var run := Sync(request, parse, validateReply, registerReply);
            && |run.events| == 3
            && run.events[0] == Sent(Get(ValidateUri("alice")))
            && run.events[1] == Sent(Post(RegisterUri, RegisterRequest(None, Some("bob"), Some(DummyPassword), None, None)))
            && run.events[2].Forwarded?
            && FirstHeader(run.events[2].request, UserIdHeader) == Some("alice")
  {
    var details := RegisterRequest(None, Some("bob"), Some(DummyPassword), None, None);
    assert GetUserDetails(Some(token), parse) == Some(details) by {
      GetUserDetailsExactly(Some(token), parse);
    }
    var run := Resolved(request, Some(token), Some("alice"), Some(details), validateReply, registerReply);
    assert Sync(request, parse, validateReply, registerReply) == run;
    assert run.events == [Sent(Get(ValidateUri("alice"))), Sent(Post(RegisterUri, details)),
                          Forwarded(WithHeader(request, UserIdHeader, "alice"))] by {
      assert ValidationReply(validateReply("alice")) == Value(false);
      assert RegistrationReply(registerReply(details)).Value?;
    }
    WithHeaderSets(request, UserIdHeader, "alice", UserIdHeader);
  }

  /** Header names sent in lower case are found under the filter's spellings. */
  lemma LowerCaseHeadersRead(token: string, id: string)
    ensures var request := Request("/", [HeaderField("authorization", token), HeaderField("x-user-id", id)]);
            FirstHeader(request, AuthorizationHeader) == Some(token) && FirstHeader(request, UserIdHeader) == Some(id)
  {
    var fields := [HeaderField("authorization", token), HeaderField("x-user-id", id)];
    assert SameName("authorization", AuthorizationHeader);
    assert !SameName("authorization", UserIdHeader);
    assert SameName("x-user-id", UserIdHeader);
    assert fields[1..] == [HeaderField("x-user-id", id)];
    assert First(fields[1..], UserIdHeader) == Some(id);
  }

  /**
   * A bearer token without a subject is not treated like a missing
   * `Authorization` header: with an `X-User-ID` present, the token still
   * triggers the existence check, whereas no token forwards untouched.
   */
  lemma SubjectlessTokenStillValidates(request: Request, parse: JwtParser,
                                       validateReply: string -> Outcome<bool>,
                                       registerReply: RegisterRequest -> Outcome<UserResponse>)
    requires FirstHeader(request, UserIdHeader).Some?
    requires FirstHeader(request, AuthorizationHeader).Some?
    requires !UsableToken(FirstHeader(request, AuthorizationHeader), parse)
    ensures var run := Sync(request, parse, validateReply, registerReply);
            var bare := WithoutHeader(request, AuthorizationHeader);
            && run.events != []
            && run.events[0] == Sent(Get(ValidateUri(FirstHeader(request, UserIdHeader).value)))
            && Registrations(run.events) == 0
            && Sync(bare, parse, validateReply, registerReply) == Run([Forwarded(bare)], Completed)
  {
    var token := FirstHeader(request, AuthorizationHeader);
    GetUserDetailsExactly(token, parse);
    assert GetUserDetails(token, parse).None?;
    var id := EffectiveUserId(request, parse);
    assert id == FirstHeader(request, UserIdHeader);
    SyncResolves(request, parse, validateReply, registerReply);
    ResolvedCounts(request, token, id, None, validateReply, registerReply);
    ResolvedOrder(request, token, id, None, validateReply, registerReply);
    var bare := WithoutHeader(request, AuthorizationHeader);
    WithoutHeaderReads(request, AuthorizationHeader, UserIdHeader);
    WithoutHeaderReads(request, AuthorizationHeader, AuthorizationHeader);
    TokenlessPassThrough(bare, parse, validateReply, registerReply);
  }

  // ----- the null dereference, corrected -----

  /**
   * `filter` with the resolution guarded (`if (userId == null && registerRequest != null)`),
   * as the comment at the end of `filter` intends: a request with no user id
   * and no usable token proceeds without any change.
   */
  function SyncGuarded(request: Request, parse: JwtParser,
                       validateReply: string -> Outcome<bool>,
                       registerReply: RegisterRequest -> Outcome<UserResponse>): Run
  {
    var token := FirstHeader(request, AuthorizationHeader);
    var header := FirstHeader(request, UserIdHeader);
    var details := GetUserDetails(token, parse);
    var userId := if header.Some? then header else if details.Some? then details.value.keyCloakId else None;
    Resolved(request, token, userId, details, validateReply, registerReply)
  }

  /**
   * The guarded filter forwards a request without identity unchanged and
   * calls no one; on every other request it behaves as the filter as written.
   */
  lemma GuardedFilterPassesThrough(request: Request, parse: JwtParser,
                                   validateReply: string -> Outcome<bool>,
                                   registerReply: RegisterRequest -> Outcome<UserResponse>)
    ensures EffectiveUserId(request, parse).None? ==>
              SyncGuarded(request, parse, validateReply, registerReply) == Run([Forwarded(request)], Completed)
    ensures Sync(request, parse, validateReply, registerReply).outcome != Failed(NullPointer) ==>
              SyncGuarded(request, parse, validateReply, registerReply) == Sync(request, parse, validateReply, registerReply)
  {
  }
}
