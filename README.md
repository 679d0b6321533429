# Fitness microservices: identity sync, user registry and AI response shaping

This project models in Dafny four pieces of a Spring-based fitness
application and proves properties of each.

- **The gateway's identity-sync filter** (`KeyCloakUserSyncFilter`). For
  every request it reads the `Authorization` and `X-User-ID` headers. It turns
  a `Bearer ` token (section 2.1 of RFC 6750) into a registration record built
  from the `sub` claim (section 4.1.2 of RFC 7519) and the `email`,
  `given_name` and `family_name` claims (section 5.1 of OpenID Connect Core
  1.0). It then works out the effective user id and asks the user directory
  whether that user exists. If the user does not exist, it registers the
  token's user. Only then does it forward the request with `X-User-ID`
  overwritten. Module `UserSyncFilter` (`user_sync_filter.dfy`) holds this.
  The JWT library is a partial function from credential text to a claim map.
  The directory and the rest of the filter chain write every call they receive
  into one shared `Trace`, so lemmas can count calls and state their order
  (`exchange.dfy`).
- **The gateway's directory client** (`GatewayUserClient`,
  `gateway_user_client.dfy`). It takes what the HTTP client produced for a
  call: a body, no body, an HTTP status error, or any other failure. It maps
  that to what the reactive pipeline ends with: a value, empty, or an error.
- **The user registry** (`UserRegistry`, `user_registry.dfy`). A
  `UserRepository` class holds the user table as a sequence, and a
  `UserService` class implements register, existence check and profile lookup
  over it. `RegisterSpec` and `Profile` state the same rules as functions over
  the table, and the lemmas about them are stated there.
- **The AI service's response shaping** (`ActivityAI`, `activity_ai.dfy`, over
  the Jackson-like tree of `json_tree.dfy`). It finds the generated text in
  the reply envelope and strips its code fence. It then reads that text as
  JSON and assembles the analysis text and the three advice lists. When any
  step fails, it returns the fixed default recommendation instead.

`java_string.dfy` gives the `java.lang.String` operations the code relies on
(`startsWith`, `trim`, `isBlank`, `replace`). `dto.dfy` holds the two wire
records shared by the gateway and the user service. `optional.dfy` holds the
`Option` type used for Java `null`.

The filter's own comment at `KeyCloakUserSyncFilter.java:54` says that a
request without a user id or token proceeds unchanged. The model follows the code, which
behaves differently in these ways:
- A directory error is not absorbed (fail-open). It propagates, and the
  request is not forwarded.
- A blank `sub` is accepted; only a null one is refused.
- A request with neither an `X-User-ID` header nor a usable token does not
  pass through unchanged. It fails with a null dereference.
- A bearer token without a subject is not treated like a missing
  `Authorization` header. When `X-User-ID` is present, it still triggers the
  existence check.

## Model

| member | source | states |
|---|---|---|
| `Exchange.FirstFinds` | gateway/src/main/java/com/fitness/gateway/KeyCloakUserSyncFilter.java:25-26 | `getFirst` finds nothing exactly when no field has the name (in any letter case). Otherwise it gives the value of the earliest field that has it. |
| `Exchange.FirstIgnoresCase` | gateway/src/main/java/com/fitness/gateway/KeyCloakUserSyncFilter.java:25-26 | Two spellings of a name that differ only in ASCII letter case read the same value. |
| `Exchange.WithHeaderSets` | gateway/src/main/java/com/fitness/gateway/KeyCloakUserSyncFilter.java:49 | After `mutate().header(name, value)`, the header reads `value` under any spelling of its name. Its field is the last one, and no other field has that name. |
| `Exchange.WithHeaderKeepsOthers` | gateway/src/main/java/com/fitness/gateway/KeyCloakUserSyncFilter.java:49 | Every other header reads as before the mutation. |
| `Exchange.FilterChain.Filter` | gateway/src/main/java/com/fitness/gateway/KeyCloakUserSyncFilter.java:50-55 | `chain.filter` appends one `Forwarded` event with the request it was handed. |
| `JavaString.Trim` | gateway/src/main/java/com/fitness/gateway/KeyCloakUserSyncFilter.java:62 | `trim` neither starts nor ends with a character at or below U+0020, and is empty exactly when every character is one. |
| `JavaString.TrimCuts` | gateway/src/main/java/com/fitness/gateway/KeyCloakUserSyncFilter.java:62 | `trim` keeps a contiguous piece of the string and cuts only characters at or below U+0020, before and after it. |
| `JavaString.TrimExact` | aiservice/src/main/java/com/fitness/aiservice/service/ActivityAIService.java:40 | Trimming `a + m + b`, where `a` and `b` are trimmable and `m` is tight, gives exactly `m`. |
| `JavaString.TrimIdempotent` | aiservice/src/main/java/com/fitness/aiservice/service/ActivityAIService.java:40 | Trimming an already trimmed text changes nothing. |
| `JavaString.RemoveAllAbsent` | gateway/src/main/java/com/fitness/gateway/KeyCloakUserSyncFilter.java:62 | `replace(pat, "")` leaves a string with no occurrence of `pat` unchanged. |
| `JavaString.RemoveAll` | gateway/src/main/java/com/fitness/gateway/KeyCloakUserSyncFilter.java:62 | `replace(pat, "")` never lengthens the string. |
| `JavaString.RemoveAllFront` | gateway/src/main/java/com/fitness/gateway/KeyCloakUserSyncFilter.java:62 | An occurrence of `pat` at the front is deleted, and deletion goes on in the rest. |
| `JavaString.RemoveAllAfter` | aiservice/src/main/java/com/fitness/aiservice/service/ActivityAIService.java:39 | Deleting a pattern from `a + t`, where no occurrence starts inside `a`, keeps `a` and deletes only in `t`. |
| `JavaString.BlankIsNotTrimmedEmpty` | userservice/src/main/java/com/fitness/userservice/service/UserService.java:31 | `isBlank` and an empty `trim()` disagree both ways: an em space is blank but survives `trim`, and a NUL is trimmed away but is not blank. |
| `GatewayUserClient.ValidateUri` | gateway/src/main/java/com/fitness/gateway/user/UserService.java:22 | The validation URI starts with `/api/users/` and has the id's length plus the fixed parts. |
| `GatewayUserClient.ValidateUriNamesUser` | gateway/src/main/java/com/fitness/gateway/user/UserService.java:22 | Parsing the validation URI gives back exactly the user id it was built from. |
| `GatewayUserClient.ValidationReply` | gateway/src/main/java/com/fitness/gateway/user/UserService.java:21-32 | A body comes back unchanged and a 404 becomes `false`. Any other status becomes an error whose message is "User validation error: " plus the exception message. A non-HTTP failure propagates unchanged. It is an error exactly in those two last cases. |
| `GatewayUserClient.RegistrationReply` | gateway/src/main/java/com/fitness/gateway/user/UserService.java:38-52 | A user body comes back unchanged. Every status error becomes an error (never success) whose message is "Bad request: ", "Server error: " or "Unexpected error: " by status (400, 500, other), followed by the response body. A non-HTTP failure propagates unchanged. |
| `GatewayUserClient.RegistrationMessageNamesStatus` | gateway/src/main/java/com/fitness/gateway/user/UserService.java:45-50 | The class of status (400, 500, other) can be read back from the error message, whatever the body. |
| `GatewayUserClient.DirectoryClient.ValidateUser` | gateway/src/main/java/com/fitness/gateway/user/UserService.java:18-33 | Records one GET of `/api/users/{userId}/validate` and returns the classified reply. |
| `GatewayUserClient.DirectoryClient.RegisterUser` | gateway/src/main/java/com/fitness/gateway/user/UserService.java:35-53 | Records one POST of the request to `/api/users/register` and returns the classified reply. |
| `UserSyncFilter.GetStringClaim` | gateway/src/main/java/com/fitness/gateway/KeyCloakUserSyncFilter.java:66 | `getStringClaim` throws exactly for a non-string claim. It gives a value exactly for a string claim, and then its text. |
| `UserSyncFilter.GetUserDetails` | gateway/src/main/java/com/fitness/gateway/KeyCloakUserSyncFilter.java:58-80 | No record for a null token, a token not starting with the case-sensitive "Bearer ", or a credential that does not parse. Any record has a `keyCloakId` and the password "dummy@123123". |
| `UserSyncFilter.RecordFromClaims` | gateway/src/main/java/com/fitness/gateway/KeyCloakUserSyncFilter.java:66-75 | Any record read off the claims has a `keyCloakId` and the password "dummy@123123". |
| `UserSyncFilter.RecordFromClaimsExactly` | gateway/src/main/java/com/fitness/gateway/KeyCloakUserSyncFilter.java:66-75 | Reading the claims yields a record exactly when `sub` is a string and `email`, `given_name` and `family_name` read without exception, and the record is then read straight off those claims. |
| `UserSyncFilter.GetUserDetailsExactly` | gateway/src/main/java/com/fitness/gateway/KeyCloakUserSyncFilter.java:60-79 | A record exists if and only if the token is a bearer token whose claims parse, whose `sub` is a string and whose other three claims read without exception. The record is then `sub`, `email`, `given_name`, `family_name` and "dummy@123123". |
| `UserSyncFilter.BlankSubjectAccepted` | gateway/src/main/java/com/fitness/gateway/KeyCloakUserSyncFilter.java:66-67 | An empty `sub` is not refused: it yields a record with an empty `keyCloakId`. |
| `UserSyncFilter.Resolved` | gateway/src/main/java/com/fitness/gateway/KeyCloakUserSyncFilter.java:31-55 | Once the id is resolved, a request makes one to three calls. |
| `UserSyncFilter.Sync` | gateway/src/main/java/com/fitness/gateway/KeyCloakUserSyncFilter.java:24-56 | A request makes at most three calls. It makes none exactly when there is no `X-User-ID` and no record from the token. |
| `UserSyncFilter.Filter` | gateway/src/main/java/com/fitness/gateway/KeyCloakUserSyncFilter.java:24-56 | The calls one request makes on the directory and the chain, in order, and how it ends, are those of `Sync`. |
| `UserSyncFilter.ForwardResolved` | gateway/src/main/java/com/fitness/gateway/KeyCloakUserSyncFilter.java:31-55 | Once the id is known, the calls appended to the shared trace and the outcome are those of `Resolved`: check, maybe register, then forward with `X-User-ID` set, or forward untouched without an id or a token. |
| `UserSyncFilter.SyncResolves` | gateway/src/main/java/com/fitness/gateway/KeyCloakUserSyncFilter.java:25-31 | With neither `X-User-ID` nor a record, the request fails with a null dereference and no calls. Otherwise the effective id exists and the request runs as the resolved part on it. |
| `UserSyncFilter.ResolvedOrder` | gateway/src/main/java/com/fitness/gateway/KeyCloakUserSyncFilter.java:31-51 | With an id and a token, the existence check is the first call. A registration, when issued, is the second call and carries the record. A completed request ends with the forward carrying the resolved id. |
| `UserSyncFilter.ResolvedCounts` | gateway/src/main/java/com/fitness/gateway/KeyCloakUserSyncFilter.java:31-55 | Once an id is resolved: one validation if there is an id and a token. One registration exactly when validation said `false` and a record exists. One forward exactly on completion, as the last call. |
| `UserSyncFilter.SyncCounts` | gateway/src/main/java/com/fitness/gateway/KeyCloakUserSyncFilter.java:25-55 | The same three counts for a whole request, stated in terms of the effective user id. |
| `UserSyncFilter.BearerCredential` | gateway/src/main/java/com/fitness/gateway/KeyCloakUserSyncFilter.java:60-63 | For "Bearer " followed by a compact JWT (no space or control character), the text handed to the JWT parser is exactly the JWT. |
| `UserSyncFilter.NullDereferenceWithoutIdentity` | gateway/src/main/java/com/fitness/gateway/KeyCloakUserSyncFilter.java:27-29 | With no `X-User-ID` and no usable token, the filter fails with a null dereference before calling anyone. |
| `UserSyncFilter.NoHeadersFails` | gateway/src/main/java/com/fitness/gateway/KeyCloakUserSyncFilter.java:25-29 | A request with neither header fails with a null dereference. |
| `UserSyncFilter.TokenlessPassThrough` | gateway/src/main/java/com/fitness/gateway/KeyCloakUserSyncFilter.java:31-55 | With `X-User-ID` but no token, the request is forwarded unmodified and the directory is never called. |
| `UserSyncFilter.ValidatesOnceFirst` | gateway/src/main/java/com/fitness/gateway/KeyCloakUserSyncFilter.java:31-33 | With a token and a resolved id, the first call validates the effective id, and exactly one validation is made. |
| `UserSyncFilter.RegistersOnlyAfterNotFound` | gateway/src/main/java/com/fitness/gateway/KeyCloakUserSyncFilter.java:33-43 | At most one registration. It happens exactly when there are a token and an id, validation said `false`, and a record exists. It is the second call and carries that record. |
| `UserSyncFilter.NoRegistrationForExistingUser` | gateway/src/main/java/com/fitness/gateway/KeyCloakUserSyncFilter.java:44-47 | When validation answers `true`, no registration is issued. |
| `UserSyncFilter.ForwardsLastOnlyOnSuccess` | gateway/src/main/java/com/fitness/gateway/KeyCloakUserSyncFilter.java:48-55 | The chain is called at most once, as the last call, and exactly when the request completes. With a token, it receives the request with `X-User-ID` set to the effective id. |
| `UserSyncFilter.DirectoryErrorsPropagate` | gateway/src/main/java/com/fitness/gateway/KeyCloakUserSyncFilter.java:33-51 | A validation error ends the request with that error after the single validation call. A registration error ends it with that error, and nothing is forwarded. |
| `UserSyncFilter.ValidatedIdMayDifferFromRegistered` | gateway/src/main/java/com/fitness/gateway/KeyCloakUserSyncFilter.java:26-50 | A request whose `X-User-ID` reads `alice` and whose token is for `bob` makes three calls: it validates `alice`, registers `bob`, and forwards a request whose `X-User-ID` reads `alice`. |
| `UserSyncFilter.LowerCaseHeadersRead` | gateway/src/main/java/com/fitness/gateway/KeyCloakUserSyncFilter.java:25-26 | Headers sent as `authorization` and `x-user-id` are found under `Authorization` and `X-User-ID`. |
| `UserSyncFilter.SubjectlessTokenStillValidates` | gateway/src/main/java/com/fitness/gateway/KeyCloakUserSyncFilter.java:27-33 | With `X-User-ID`, an unusable bearer token still causes a validation and no registration. The same request without the token is forwarded untouched. |
| `UserSyncFilter.GuardedFilterPassesThrough` | gateway/src/main/java/com/fitness/gateway/KeyCloakUserSyncFilter.java:28-55 | With the resolution null-guarded, a request without identity is forwarded unchanged with no calls. Every request the written filter does not fail on behaves as before. |
| `UserRegistry.UserRepository.ExistsByEmail` | userservice/src/main/java/com/fitness/userservice/service/UserService.java:26 | True exactly when some stored user has that email. |
| `UserRegistry.UserRepository.FindByEmail` | userservice/src/main/java/com/fitness/userservice/service/UserService.java:27 | A stored user with that email, present exactly when one exists. |
| `UserRegistry.UserRepository.FindById` | userservice/src/main/java/com/fitness/userservice/service/UserService.java:19-20 | A stored user with that id, present exactly when one exists. |
| `UserRegistry.UserRepository.ExistsByKeyCloakId` | userservice/src/main/java/com/fitness/userservice/service/UserService.java:48 | True exactly when some stored user has that Keycloak id. |
| `UserRegistry.UserRepository.Save` | userservice/src/main/java/com/fitness/userservice/service/UserService.java:42 | Appends the user with the fresh id and timestamps, returns it, and keeps ids distinct. |
| `UserRegistry.ToResponse` | userservice/src/main/java/com/fitness/userservice/service/UserService.java:52-63 | The response copies every field: the user can be read back from it. |
| `UserRegistry.ToResponseInjective` | userservice/src/main/java/com/fitness/userservice/service/UserService.java:52-63 | Distinct users give distinct responses. |
| `UserRegistry.RegisterSpec` | userservice/src/main/java/com/fitness/userservice/service/UserService.java:25-44 | An existing email returns a user with that email and leaves the table unchanged. Otherwise a null or blank Keycloak id fails with "Keycloak ID is required but was null or blank." and the table is unchanged. Otherwise exactly one user is appended with the request's email, password, Keycloak id and names, the fresh id and timestamps, and it is returned. |
| `UserRegistry.RegisterKeepsEmailsDistinct` | userservice/src/main/java/com/fitness/userservice/service/UserService.java:26-42 | Registration keeps stored emails distinct. |
| `UserRegistry.RegisterKeepsIdsDistinct` | userservice/src/main/java/com/fitness/userservice/service/UserService.java:42 | With an unused id, registration keeps stored ids distinct. |
| `UserRegistry.RegisteredUserExists` | userservice/src/main/java/com/fitness/userservice/service/UserService.java:31-49 | After a registration that stored a user, its Keycloak id is in the table, and that id was non-null and not blank. |
| `UserRegistry.FindEmailUnique` | userservice/src/main/java/com/fitness/userservice/service/UserService.java:27 | With distinct emails, the lookup by a stored user's email finds exactly that user. |
| `UserRegistry.RegisterIdempotent` | userservice/src/main/java/com/fitness/userservice/service/UserService.java:26-43 | Repeating a successful registration changes nothing and returns the same user. |
| `UserRegistry.ExistingEmailWinsOverMissingId` | userservice/src/main/java/com/fitness/userservice/service/UserService.java:26-33 | An email on file wins even with a null Keycloak id: success, table unchanged. |
| `UserRegistry.Profile` | userservice/src/main/java/com/fitness/userservice/service/UserService.java:18-23 | Success exactly when a user has the id, and then that user's response. Otherwise "User not found with id: " plus the id. |
| `UserRegistry.UserService.GetUserProfile` | userservice/src/main/java/com/fitness/userservice/service/UserService.java:18-23 | Returns the response of the stored user with that id, or the not-found error, without changing the table. |
| `UserRegistry.UserService.Register` | userservice/src/main/java/com/fitness/userservice/service/UserService.java:25-44 | The answer and the new table are those of `RegisterSpec`. Distinct ids and emails are preserved. |
| `UserRegistry.UserService.ExistByUserId` | userservice/src/main/java/com/fitness/userservice/service/UserService.java:46-49 | True if and only if some stored user has that Keycloak id. |
| `UserRegistry.UserService.constructor` | userservice/src/main/java/com/fitness/userservice/service/UserService.java:13-16 | A service built over a table with distinct ids and emails starts in its invariant. |
| `JsonTree.Path` | aiservice/src/main/java/com/fitness/aiservice/service/ActivityAIService.java:43 | `path` gives an object's member, and a missing node for an absent key or a non-object (a missing node included). |
| `JsonTree.Get` | aiservice/src/main/java/com/fitness/aiservice/service/ActivityAIService.java:35 | `get(i)` gives an element exactly for an array and an index in range, and otherwise null. |
| `JsonTree.AsText` | aiservice/src/main/java/com/fitness/aiservice/service/ActivityAIService.java:37 | `asText` is a string's text, "null" for a null, and "" for a missing node, an object or an array. |
| `ActivityAI.Rendered` | aiservice/src/main/java/com/fitness/aiservice/service/ActivityAIService.java:115-121 | One line per item, the item's rendering at the same position. |
| `ActivityAI.LinesShape` | aiservice/src/main/java/com/fitness/aiservice/service/ActivityAIService.java:88-123 | Every extracted list is non-empty. A non-empty array gives one line per item, in order. Anything else gives exactly the fallback line. |
| `ActivityAI.CollectLines` | aiservice/src/main/java/com/fitness/aiservice/service/ActivityAIService.java:113-122 | The `forEach` that fills the list, then the fallback when it is empty, gives exactly `Lines`. |
| `ActivityAI.ExtractImprovements` | aiservice/src/main/java/com/fitness/aiservice/service/ActivityAIService.java:112-123 | Gives "area: recommendation" per item, in order, with the array's length. Otherwise it gives exactly ["NO SPECIFIC IMPROVEMENTS PROCIDED"]. |
| `ActivityAI.ExtractSuggestions` | aiservice/src/main/java/com/fitness/aiservice/service/ActivityAIService.java:99-110 | Gives "workout: description" per item, in order. Otherwise it gives exactly ["NO SPECIFIC suggestion PROCIDED"]. |
| `ActivityAI.ExtractSafetyGuidelines` | aiservice/src/main/java/com/fitness/aiservice/service/ActivityAIService.java:88-97 | Gives each item's text, in order. Otherwise it gives exactly ["follow general safety guidelines"]. |
| `ActivityAI.AbsentFieldsReadEmpty` | aiservice/src/main/java/com/fitness/aiservice/service/ActivityAIService.java:103-118 | Each of `area`, `recommendation`, `workout` and `description`, when absent, contributes "" on its side of the ": ", rather than an error. |
| `ActivityAI.AddAnalysisSection` | aiservice/src/main/java/com/fitness/aiservice/service/ActivityAIService.java:125-131 | Appends `prefix + text + "\n\n"` for a present key, and nothing for a missing one. |
| `ActivityAI.BuildAnalysis` | aiservice/src/main/java/com/fitness/aiservice/service/ActivityAIService.java:45-49 | A fresh builder given the four sections in order, then trimmed, gives exactly the analysis text. |
| `ActivityAI.NoAnalysisNoText` | aiservice/src/main/java/com/fitness/aiservice/service/ActivityAIService.java:43-60 | A missing or non-object analysis node gives an empty analysis text. |
| `ActivityAI.FullAnalysisText` | aiservice/src/main/java/com/fitness/aiservice/service/ActivityAIService.java:45-60 | With all four keys present (any JSON values) and a calories text that starts and ends with a visible character, the text is the labelled sections in the order overall, pace, heart rate, calories, separated by blank lines, with the trailing blank line trimmed. |
| `ActivityAI.OverallLeads` | aiservice/src/main/java/com/fitness/aiservice/service/ActivityAIService.java:46-60 | A present `overall` section always starts the analysis text. |
| `ActivityAI.StripFencedBody` | aiservice/src/main/java/com/fitness/aiservice/service/ActivityAIService.java:37-40 | "```json", newline, body, newline, "```" strips to the trimmed body. |
| `ActivityAI.StripUnfenced` | aiservice/src/main/java/com/fitness/aiservice/service/ActivityAIService.java:37-40 | Text without any backtick is only trimmed. |
| `ActivityAI.OpeningFenceNoNewline` | aiservice/src/main/java/com/fitness/aiservice/service/ActivityAIService.java:38 | The newline after "```json" is optional: "```json" directly followed by a backtick-free body that does not start with a newline leaves the body. |
| `ActivityAI.RemoveOpeningFences` | aiservice/src/main/java/com/fitness/aiservice/service/ActivityAIService.java:38 | Deleting the opening fences never lengthens the text. |
| `ActivityAI.OpeningFencesAfter` | aiservice/src/main/java/com/fitness/aiservice/service/ActivityAIService.java:38 | Text before the first backtick is kept as it is. |
| `ActivityAI.StripFences` | aiservice/src/main/java/com/fitness/aiservice/service/ActivityAIService.java:37-40 | The stripped text neither starts nor ends with a character at or below U+0020 and is no longer than the input. |
| `ActivityAI.GeneratedText` | aiservice/src/main/java/com/fitness/aiservice/service/ActivityAIService.java:35 | The text node is absent (a null dereference) exactly when one of the two `get(0)` calls yields null. |
| `ActivityAI.GeneratedTextLocated` | aiservice/src/main/java/com/fitness/aiservice/service/ActivityAIService.java:35 | When found, the text node is the `text` field of the first part of the first candidate. |
| `ActivityAI.AdviceDocument` | aiservice/src/main/java/com/fitness/aiservice/service/ActivityAIService.java:34-42 | An advice document is found only in a reply that parses and carries generated text. |
| `ActivityAI.DefaultRecommendation` | aiservice/src/main/java/com/fitness/aiservice/service/ActivityAIService.java:74-86 | Carries the activity's id, user id and type, "unable to generate detailed analysis", the single fixed improvement and suggestion, the three fixed safety lines in order, and the current time. |
| `ActivityAI.AdviceDocumentOfText` | aiservice/src/main/java/com/fitness/aiservice/service/ActivityAIService.java:34-42 | When the reply parses and carries generated text, the document is the second parse of that text with its fences stripped. |
| `ActivityAI.FencedAdvice` | aiservice/src/main/java/com/fitness/aiservice/service/ActivityAIService.java:34-42 | For a reply whose first part is "```json", newline, a backtick-free body, newline, "```", the second parse receives the body trimmed. |
| `ActivityAI.ReadAdviceDocument` | aiservice/src/main/java/com/fitness/aiservice/service/ActivityAIService.java:33-42 | The parse, navigation, fence stripping and second parse give exactly `AdviceDocument`, `None` when a step throws. |
| `ActivityAI.ProcessAiResponse` | aiservice/src/main/java/com/fitness/aiservice/service/ActivityAIService.java:31-72 | The default recommendation when parsing or navigation fails. Otherwise the analysis text and the three lists of the parsed advice document. |
| `ActivityAI.ShapedAlwaysComplete` | aiservice/src/main/java/com/fitness/aiservice/service/ActivityAIService.java:57-68 | Every outcome carries the activity's id, user id, type and the time, and has three non-empty lists. |
| `ActivityAI.FallbackOnFailure` | aiservice/src/main/java/com/fitness/aiservice/service/ActivityAIService.java:32-68 | A reply that does not parse, one without a first candidate, and one whose first candidate has no first part all have no advice document, so the default is used. |

## Findings

| source | as written | input that shows it | evidently intended | confidence | as-written member | corrected member |
|---|---|---|---|---|---|---|
| gateway/src/main/java/com/fitness/gateway/KeyCloakUserSyncFilter.java:28-29 | `registerRequest.getKeyCloakId()` is called whenever `X-User-ID` is absent, even when `getUserDetails` returned null | a request with no `X-User-ID` whose bearer token is accepted but has no string `sub` claim, or has a non-string `email`, `given_name` or `family_name` claim (a request without `Authorization` also shows it, though the gateway's security chain normally rejects one first) | forward the request unchanged, as the comment at line 54 says | not executed; high | UserSyncFilter.NullDereferenceWithoutIdentity | UserSyncFilter.GuardedFilterPassesThrough |

`UserSyncFilter.Filter` keeps the code as written, because that is what
runs. The guarded resolution is `UserSyncFilter.SyncGuarded`.

## Left out

- JWT parsing and signature, issuer and expiry checks: the Nimbus parser is an abstract partial function from credential text to a claim map, and the Spring resource-server chain is not part of this model.
- Reactive scheduling: each request is one sequential method. Concurrent first logins, and any race between them, are not modelled.
- WebClient transport, timeouts and URI encoding of the `{userId}` template variable: the remote answers are given per argument as the client's `validateReply` and `registerReply`.
- Logging and `printStackTrace`: no observable effect on the result.
- `securityConfig.java` (declarative CORS and security configuration) and `ActivityController.java` (a REST wrapper over a service not shown): not part of this model.
- `generateRecommendation`, `createPromptForActivity` and the Gemini call: the reply text is an input, and Jackson's `readTree` is an abstract partial function to a JSON tree.
- `LocalDateTime.now()`, JPA id generation and entity timestamps: they are the `now` and `freshId` parameters. `UserRegistry.UserService.Register` requires an unused id, which the id generator guarantees.
- Spring Data query derivation: `existsByEmail(null)` is taken as matching a stored null email (`IS NULL`). `findByEmail` with several matches would throw; the service's invariant of distinct emails rules that case out.
- Jackson number formatting: a number node's `asText` is its stored literal.
- `Activity` and `Recommendation` are the fields the service reads or sets. The activity's type is an opaque string.
- ActivityAI.RemoveOpeningFences: the contract is only a length bound. Its effect is stated by `OpeningFencesAfter`, `OpeningFenceRemoved` and `OpeningFenceNoNewline`, for backtick-free text and for a fence with or without its newline.
- JavaString.RemoveAll: the contract is only a length bound. Its effect is stated by `RemoveAllFront`, `RemoveAllAfter` and `RemoveAllAbsent`: an occurrence at the front is deleted, and a stretch with no occurrence is kept.
- ActivityAI.StripFencedBody: proved for bodies that contain no backtick. Fence stripping of arbitrary text is defined by `RemoveOpeningFences` and `StripFences` but not otherwise characterised.
- Exchange.WithHeaderSets: the replaced header's field is placed last. Where Spring's header map keeps an existing entry's position, the model does not follow; no lookup depends on the position.
- Exchange.FirstFinds: names are compared with ASCII case folding only, as Netty does for header names; no other Unicode case mapping is modelled.
- ActivityAI.FullAnalysisText: stated for a calories text that starts and ends with a visible character; with whitespace at the end of that text the trim also cuts it, which `AnalysisText` defines but this lemma does not restate.
- UserSyncFilter.GetUserDetails: its own contract states only the refusals and the fixed password; the complete characterisation is `UserSyncFilter.GetUserDetailsExactly`.
