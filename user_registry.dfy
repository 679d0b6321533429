/**
 * The user service's registry: a table of users, and the registration,
 * existence check and profile lookup the gateway and the web layer call.
 * Registration is keyed by email: an email already on file returns the user
 * on file; otherwise a Keycloak id is required and exactly one user is
 * inserted.
 *
 * The JPA repository is a class holding the table as a sequence in
 * insertion order. The ids and timestamps the persistence layer generates
 * are passed in as `freshId` and `now`.
 */
module UserRegistry {
  import opened Optional
  import opened JavaString
  import opened Dto

  /** A stored user, as the `User` entity holds it. */
  datatype User = User(
    id: string,
    email: Option<string>,
    password: Option<string>,
    keyCloakId: Option<string>,
    firstName: Option<string>,
    lastName: Option<string>,
    createdAt: Timestamp,
    updatedAt: Timestamp)

  /** A value, or the message of the RuntimeException thrown instead. */
  datatype Result<T> = Ok(value: T) | Err(message: string)

  const KeyCloakIdRequired := "Keycloak ID is required but was null or blank."
  const UserNotFound := "User not found with id: "

  // ----- the table -----

  /** The position of the first user that `matches`, if any: a repository query. */
  function Find(users: seq<User>, matches: User -> bool): (r: Option<nat>)
    ensures r.Some? ==> r.value < |users| && matches(users[r.value])
    ensures r.Some? ==> forall j :: 0 <= j < r.value ==> !matches(users[j])
    ensures r.None? <==> forall i :: 0 <= i < |users| ==> !matches(users[i])
  {
    if users == [] then None
    else if matches(users[0]) then Some(0)
    else match Find(users[1..], matches)
      case None => None
      case Some(k) => Some(k + 1)
  }

  function WithEmail(email: Option<string>): User -> bool { (u: User) => u.email == email }
  function WithId(id: string): User -> bool { (u: User) => u.id == id }
  function WithKeyCloakId(keyCloakId: Option<string>): User -> bool { (u: User) => u.keyCloakId == keyCloakId }

  predicate HasEmail(users: seq<User>, email: Option<string>) {
    exists i :: 0 <= i < |users| && users[i].email == email
  }

  predicate HasId(users: seq<User>, id: string) {
    exists i :: 0 <= i < |users| && users[i].id == id
  }

  predicate HasKeyCloakId(users: seq<User>, keyCloakId: Option<string>) {
    exists i :: 0 <= i < |users| && users[i].keyCloakId == keyCloakId
  }

  /** No two stored users share an id (the table's primary key). */
  predicate IdsDistinct(users: seq<User>) {
    forall i, j :: 0 <= i < j < |users| ==> users[i].id != users[j].id
  }

  /** No two stored users share an email (`null` counts as one value). */
  predicate EmailsDistinct(users: seq<User>) {
    forall i, j :: 0 <= i < j < |users| ==> users[i].email != users[j].email
  }

  /** `userRepository`: the user table, in insertion order. */
  class UserRepository {
    var users: seq<User>

    ghost predicate Valid()
      reads this
    {
      IdsDistinct(users)
    }

    constructor ()
      ensures Valid() && users == []
    {
      users := [];
    }

    /** `existsByEmail(email)`. */
    function ExistsByEmail(email: Option<string>): (b: bool)
      reads this
      ensures b <==> HasEmail(users, email)
    {
      Find(users, WithEmail(email)).Some?
    }

    /** `findByEmail(email)`: the user with that email, or `null`. */
    function FindByEmail(email: Option<string>): (r: Option<User>)
      reads this
      ensures r.Some? <==> HasEmail(users, email)
      ensures r.Some? ==> r.value in users && r.value.email == email
    {
      match Find(users, WithEmail(email))
      case Some(i) => Some(users[i])
      case None => None
    }

    /** `findById(id)`: the user with that id, or empty. */
    function FindById(id: string): (r: Option<User>)
      reads this
      ensures r.Some? <==> HasId(users, id)
      ensures r.Some? ==> r.value in users && r.value.id == id
    {
      match Find(users, WithId(id))
      case Some(i) => Some(users[i])
      case None => None
    }

    /** `existsByKeyCloakId(keyCloakId)`. */
    function ExistsByKeyCloakId(keyCloakId: Option<string>): (b: bool)
      reads this
      ensures b <==> HasKeyCloakId(users, keyCloakId)
    {
      Find(users, WithKeyCloakId(keyCloakId)).Some?
    }

    /**
     * `save(user)` of a new entity: the persistence layer assigns the unused
     * id `id` and stamps both timestamps with `now`, then appends the row.
     */
    method Save(user: User, id: string, now: Timestamp) returns (saved: User)
      requires Valid() && !HasId(users, id)
      modifies this
      ensures Valid()
      ensures saved == user.(id := id, createdAt := now, updatedAt := now)
      ensures users == old(users) + [saved]
    {
      saved := user.(id := id, createdAt := now, updatedAt := now);
      users := users + [saved];
    }
  }

  // ----- the service's rules, over the table -----

  /** `toResponse`: every field of the user, copied. */
  function ToResponse(u: User): (r: UserResponse)
    ensures FromResponse(r) == u
  {
    UserResponse(u.id, u.keyCloakId, u.password, u.email, u.firstName, u.lastName, u.createdAt, u.updatedAt)
  }

  /** The user a response describes. */
  function FromResponse(r: UserResponse): User {
    User(r.id, r.email, r.password, r.keyCloakId, r.firstName, r.lastName, r.createdAt, r.updatedAt)
  }

  /** The copy loses nothing: different users give different responses. */
  lemma ToResponseInjective(u: User, v: User)
    requires ToResponse(u) == ToResponse(v)
    ensures u == v
  {
    assert FromResponse(ToResponse(u)) == FromResponse(ToResponse(v));
  }

  /** `isBlank` as applied to a possibly null Keycloak id: null or whitespace only. */
  predicate MissingKeyCloakId(keyCloakId: Option<string>) {
    keyCloakId.None? || IsBlank(keyCloakId.value)
  }

  /** The user `register` builds from a request before it is saved. */
  function NewUser(request: RegisterRequest, id: string, now: Timestamp): User {
    User(id, request.email, request.password, request.keyCloakId, request.firstName, request.lastName, now, now)
  }

  /** What `register` answers and the table it leaves behind. */
  datatype Registration = Registration(response: Result<UserResponse>, users: seq<User>)

  /**
   * `register`, over the table: an email already on file returns the first
   * user with it and changes nothing, whatever the Keycloak id; otherwise a
   * null or blank Keycloak id is refused and nothing changes; otherwise the
   * request's fields are stored as one new user, which is returned.
   */
  function RegisterSpec(users: seq<User>, request: RegisterRequest, freshId: string, now: Timestamp)
    : (r: Registration)
    ensures HasEmail(users, request.email) ==>
              r.users == users && r.response.Ok? &&
              exists i :: 0 <= i < |users| && users[i].email == request.email &&
                          r.response.value == ToResponse(users[i])
    ensures !HasEmail(users, request.email) && MissingKeyCloakId(request.keyCloakId) ==>
              r == Registration(Err(KeyCloakIdRequired), users)
    ensures !HasEmail(users, request.email) && !MissingKeyCloakId(request.keyCloakId) ==>
              |r.users| == |users| + 1 && r.users[..|users|] == users &&
              var added := r.users[|users|];
              && added.id == freshId && added.createdAt == now && added.updatedAt == now
              && added.email == request.email && added.password == request.password
              && added.keyCloakId == request.keyCloakId
              && added.firstName == request.firstName && added.lastName == request.lastName
              && r.response == Ok(ToResponse(added))
  {
    match Find(users, WithEmail(request.email))
    case Some(i) => Registration(Ok(ToResponse(users[i])), users)
    case None =>
      if MissingKeyCloakId(request.keyCloakId) then Registration(Err(KeyCloakIdRequired), users)
      else
        var saved := NewUser(request, freshId, now);
        assert (users + [saved])[..|users|] == users;
        Registration(Ok(ToResponse(saved)), users + [saved])
  }

  /** `register` inserts only when the email is absent, so emails stay distinct. */
  lemma RegisterKeepsEmailsDistinct(users: seq<User>, request: RegisterRequest, freshId: string, now: Timestamp)
    requires EmailsDistinct(users)
    ensures EmailsDistinct(RegisterSpec(users, request, freshId, now).users)
  {
    var r := RegisterSpec(users, request, freshId, now);
    if |r.users| != |users| {
      forall i, j | 0 <= i < j < |r.users| ensures r.users[i].email != r.users[j].email {
        if j == |users| {
          assert r.users[i] == users[i];
        } else {
          assert r.users[i] == users[i] && r.users[j] == users[j];
        }
      }
    }
  }

  /** With an unused id, the table keeps its ids distinct. */
  lemma RegisterKeepsIdsDistinct(users: seq<User>, request: RegisterRequest, freshId: string, now: Timestamp)
    requires IdsDistinct(users) && !HasId(users, freshId)
    ensures IdsDistinct(RegisterSpec(users, request, freshId, now).users)
  {
    var r := RegisterSpec(users, request, freshId, now);
    if |r.users| != |users| {
      forall i, j | 0 <= i < j < |r.users| ensures r.users[i].id != r.users[j].id {
        if j == |users| {
          assert r.users[i] == users[i];
        } else {
          assert r.users[i] == users[i] && r.users[j] == users[j];
        }
      }
    }
  }

  /** After a registration that stored a user, its Keycloak id is known to the table. */
  lemma RegisteredUserExists(users: seq<User>, request: RegisterRequest, freshId: string, now: Timestamp)
    requires |RegisterSpec(users, request, freshId, now).users| != |users|
    ensures HasKeyCloakId(RegisterSpec(users, request, freshId, now).users, request.keyCloakId)
    ensures request.keyCloakId.Some? && !IsBlank(request.keyCloakId.value)
  {
    var r := RegisterSpec(users, request, freshId, now);
    assert r.users[|users|].keyCloakId == request.keyCloakId;
  }

  /** With distinct emails, the user on file for an email is the only one with it. */
  lemma FindEmailUnique(users: seq<User>, i: nat)
    requires EmailsDistinct(users) && i < |users|
    ensures Find(users, WithEmail(users[i].email)) == Some(i)
  {
    var k := Find(users, WithEmail(users[i].email));
    assert k.Some?;
  }

  /**
   * Registering the same request again, after it succeeded, changes
   * nothing and answers with the same user.
   */
  lemma RegisterIdempotent(users: seq<User>, request: RegisterRequest,
                           id1: string, now1: Timestamp, id2: string, now2: Timestamp)
    requires EmailsDistinct(users)
    requires RegisterSpec(users, request, id1, now1).response.Ok?
    ensures var first := RegisterSpec(users, request, id1, now1);
            RegisterSpec(first.users, request, id2, now2) == first
  {
    var first := RegisterSpec(users, request, id1, now1);
    RegisterKeepsEmailsDistinct(users, request, id1, now1);
    if HasEmail(users, request.email) {
      var i :| 0 <= i < |users| && users[i].email == request.email;
      FindEmailUnique(users, i);
    } else {
      var n := |users|;
      assert first.users[n].email == request.email;
      FindEmailUnique(first.users, n);
    }
  }

  /** An existing email wins even when the request carries no Keycloak id at all. */
  lemma ExistingEmailWinsOverMissingId(users: seq<User>, request: RegisterRequest, freshId: string, now: Timestamp)
    requires HasEmail(users, request.email) && request.keyCloakId.None?
    ensures RegisterSpec(users, request, freshId, now).response.Ok?
    ensures RegisterSpec(users, request, freshId, now).users == users
  {
  }

  /** `getUserProfile`, over the table: the user with that id, or the not-found error. */
  function Profile(users: seq<User>, userId: string): (r: Result<UserResponse>)
    ensures r.Ok? <==> HasId(users, userId)
    ensures r.Ok? ==> exists i :: 0 <= i < |users| && users[i].id == userId && r.value == ToResponse(users[i])
    ensures r.Err? ==> r.message == UserNotFound + userId
  {
    match Find(users, WithId(userId))
    case Some(i) => Ok(ToResponse(users[i]))
    case None => Err(UserNotFound + userId)
  }

  /** `UserService`: the rules above, applied to the repository it is given. */
  class UserService {
    const repository: UserRepository

    /** The table the service keeps: distinct ids and distinct emails. */
    ghost predicate Valid()
      reads this, repository
    {
      repository.Valid() && EmailsDistinct(repository.users)
    }

    constructor (repository: UserRepository)
      requires repository.Valid() && EmailsDistinct(repository.users)
      ensures this.repository == repository
      ensures Valid()
    {
      this.repository := repository;
    }

    /** `getUserProfile(userId)`: reads the table and never changes it. */
    method GetUserProfile(userId: string) returns (r: Result<UserResponse>)
      ensures r.Ok? <==> HasId(repository.users, userId)
      ensures r.Ok? ==> r.value.id == userId && FromResponse(r.value) in repository.users
      ensures r == Profile(repository.users, userId)
    {
      var user := repository.FindById(userId);
      if user.None? {
        return Err(UserNotFound + userId);
      }
      r := Ok(ToResponse(user.value));
    }

    /** `register(request)`, with the id and time the persistence layer will assign. */
    method Register(request: RegisterRequest, freshId: string, now: Timestamp) returns (r: Result<UserResponse>)
      requires Valid() && !HasId(repository.users, freshId)
      modifies repository
      ensures Valid()
      ensures Registration(r, repository.users) == RegisterSpec(old(repository.users), request, freshId, now)
    {
      ghost var before := repository.users;
      RegisterKeepsEmailsDistinct(before, request, freshId, now);
      if repository.ExistsByEmail(request.email) {
        var existingUser := repository.FindByEmail(request.email);
        return Ok(ToResponse(existingUser.value));
      }
      if request.keyCloakId.None? || IsBlank(request.keyCloakId.value) {
        return Err(KeyCloakIdRequired);
      }
      var user := User("", request.email, request.password, request.keyCloakId,
                       request.firstName, request.lastName, 0, 0);
      var savedUser := repository.Save(user, freshId, now);
      r := Ok(ToResponse(savedUser));
    }

    /** `existByUserId(userId)`: some stored user has this Keycloak id. */
    method ExistByUserId(userId: string) returns (b: bool)
      ensures b <==> exists i :: 0 <= i < |repository.users| && repository.users[i].keyCloakId == Some(userId)
    {
      b := repository.ExistsByKeyCloakId(Some(userId));
    }
  }
}
