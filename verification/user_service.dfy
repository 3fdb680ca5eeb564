/**
 * User-store operations over an abstract store: the table of users is a
 * sequence of records in storage order. Hashing, the random bytes of the
 * activation token, the id the store assigns and the activation e-mail's
 * delivery are inputs. A transaction that rolls back is a store left as it was.
 */
module UserService {
  import opened Wrappers
  import opened Generator

  /** Length of an activation token. */
  const ACTIVATION_TOKEN_LENGTH: nat := 16

  datatype User = User(
    id: int,
    username: string,
    email: string,
    password: string,
    inactive: bool,
    activationToken: Option<string>)

  type UserStore = seq<User>

  /** The public projection `{id, username, email}` used by listing and lookup. */
  datatype PublicUser = PublicUser(id: int, username: string, email: string)

  /** The page object `getUsers` returns. */
  datatype Page = Page(content: seq<PublicUser>, page: nat, size: nat, totalPages: nat)

  datatype ServiceError =
    | EmailException
    | InvalidTokenException
    | NotFoundException(message: string)
    /** `findOne` matched nothing and the result was dereferenced anyway. */
    | NullDereference

  /** The message each raised error carries to the HTTP layer. */
  function ErrorMessage(e: ServiceError): string {
    match e
    case EmailException => "E-mail Failure"
    case InvalidTokenException => "This account is either active or the token is invalid"
    case NotFoundException(m) => m
    // Illustrative: the engine's TypeError text varies with the Node version, and no
    // modelled route shows it to a client.
    case NullDereference => "Cannot set properties of null (setting 'username')"
  }

  function Project(u: User): PublicUser {
    PublicUser(u.id, u.username, u.email)
  }

  /** The activation e-mail transport: true when the message was accepted. */
  type Mailer = (string, string) -> bool

  // ---------------------------------------------------------------------
  // Store invariants

  /** An account is inactive exactly while it holds an activation token. */
  predicate ActivationConsistent(u: User) {
    u.inactive <==> u.activationToken.Some?
  }

  predicate UniqueIds(users: UserStore) {
    forall i, j :: 0 <= i < j < |users| ==> users[i].id != users[j].id
  }

  predicate WellFormed(users: UserStore) {
    && UniqueIds(users)
    && (forall i :: 0 <= i < |users| ==> ActivationConsistent(users[i]))
  }

  predicate HasId(users: UserStore, id: int) {
    exists i :: 0 <= i < |users| && users[i].id == id
  }

  // ---------------------------------------------------------------------
  // Lookups: `findOne` returns the first row in storage order that matches.

  function FirstIndex(users: UserStore, p: User -> bool): (r: Option<nat>)
    ensures r.Some? ==> r.value < |users| && p(users[r.value])
    ensures r.Some? ==> forall j :: 0 <= j < r.value ==> !p(users[j])
    ensures r.None? ==> forall j :: 0 <= j < |users| ==> !p(users[j])
  {
    if users == [] then None
    else if p(users[0]) then Some(0)
    else match FirstIndex(users[1..], p)
      case None => None
      case Some(k) => Some(k + 1)
  }

  /** `findByEmail`: the first user registered under that e-mail. */
  function FindByEmail(users: UserStore, email: string): (r: Option<User>)
    ensures r.Some? <==> exists i :: 0 <= i < |users| && users[i].email == email
    ensures r.Some? ==> r.value in users && r.value.email == email
  {
    match FirstIndex(users, (u: User) => u.email == email)
    case None => None
    case Some(i) => Some(users[i])
  }

  // ---------------------------------------------------------------------
  // Registration and activation

  /** The record `save` creates: only username, e-mail, hash and token are taken. */
  function NewUser(id: int, username: string, email: string, hashed: string, token: string): User {
    User(id, username, email, hashed, true, Some(token))
  }

  /**
   * `save`: hashes the password, draws a 16-character activation token,
   * inserts the inactive user and sends the activation e-mail inside one
   * transaction; a failed send rolls the insert back and raises `EmailException`.
   */
  function Save(users: UserStore, newId: int, username: string, email: string, password: string,
                hash: string -> string, tokenBytes: seq<Byte>, send: Mailer)
    : (r: Result<UserStore, ServiceError>)
    requires |tokenBytes| == ACTIVATION_TOKEN_LENGTH
    ensures r.Success? <==> send(email, RandomString(16, tokenBytes))
    ensures r.Success? ==>
      && |r.value| == |users| + 1
      && r.value[..|users|] == users
      && var u := r.value[|users|];
         && u.id == newId && u.username == username && u.email == email
         && u.password == hash(password) && u.inactive
         && u.activationToken == Some(RandomString(ACTIVATION_TOKEN_LENGTH, tokenBytes))
         && |u.activationToken.value| == 16 && IsLowerHex(u.activationToken.value)
    ensures r.Failure? ==> r.error == EmailException
  {
    var token := RandomString(ACTIVATION_TOKEN_LENGTH, tokenBytes);
    var user := NewUser(newId, username, email, hash(password), token);
    var pending := users + [user];
    if send(email, token) then Success(pending) else Failure(EmailException)
  }

  /**
   * `activate`: the first user holding the token becomes active and loses
   * the token; with no holder `InvalidTokenException` is raised.
   */
  function Activate(users: UserStore, token: string): (r: Result<UserStore, ServiceError>)
    ensures r.Success? <==>
      exists i :: 0 <= i < |users| && users[i].activationToken == Some(token)
    ensures r.Failure? ==> r.error == InvalidTokenException
    ensures r.Success? ==>
      && |r.value| == |users|
      && exists i :: (
           && 0 <= i < |users| && users[i].activationToken == Some(token)
           && (forall j :: 0 <= j < i ==> users[j].activationToken != Some(token))
           && r.value[i] == users[i].(inactive := false, activationToken := None)
           && (forall j :: 0 <= j < |users| && j != i ==> r.value[j] == users[j]))
  {
    match FirstIndex(users, (u: User) => u.activationToken == Some(token))
    case None => Failure(InvalidTokenException)
    case Some(i) => Success(users[i := users[i].(inactive := false, activationToken := None)])
  }

  // ---------------------------------------------------------------------
  // Listing and lookup

  /** `a` is `b` with some elements left out and the others in their original order. */
  predicate Subsequence<T(==)>(a: seq<T>, b: seq<T>)
    decreases |b|
  {
    if a == [] then true
    else if b == [] then false
    else (a[0] == b[0] && Subsequence(a[1..], b[1..])) || Subsequence(a, b[1..])
  }

  /** The users a listing may show: active, and not the authenticated user. */
  function Listable(users: UserStore, excludedId: int): (r: UserStore)
    ensures |r| <= |users|
    ensures forall u :: u in r <==> u in users && !u.inactive && u.id != excludedId
    ensures Subsequence(r, users)
  {
    if users == [] then []
    else
      var rest := Listable(users[1..], excludedId);
      assert users == [users[0]] + users[1..];
      if !users[0].inactive && users[0].id != excludedId then
        var r := [users[0]] + rest;
        assert r[1..] == rest;
        r
      else rest
  }

  function ProjectAll(users: UserStore): (r: seq<PublicUser>)
    ensures |r| == |users|
    ensures forall i :: 0 <= i < |users| ==> r[i] == Project(users[i])
  {
    seq(|users|, i requires 0 <= i < |users| => Project(users[i]))
  }

  /** `Math.ceil(count / size)` for a positive size. */
  function CeilDiv(count: nat, size: nat): (q: nat)
    requires size >= 1
    ensures q * size >= count
    ensures q == 0 || (q - 1) * size < count
  {
    var q := (count + size - 1) / size;
    assert q * size + (count + size - 1) % size == count + size - 1;
    q
  }

  /** The id a listing excludes: the authenticated user's, or 0 when anonymous. */
  function ExcludedId(authenticated: Option<int>): int {
    match authenticated
    case Some(id) => id
    case None => 0
  }

  /**
   * `getUsers`: the page of listable users starting at `page * size`, at most
   * `size` of them, projected; `page` and `size` are echoed and `totalPages`
   * rounds the listable count up to whole pages.
   */
  function GetUsers(users: UserStore, page: nat, size: nat, authenticated: Option<int>): (r: Page)
    requires size >= 1
    ensures r.page == page && r.size == size
    ensures var listed := Listable(users, ExcludedId(authenticated));
      && |r.content| == (if page * size >= |listed| then 0
                         else if |listed| - page * size < size then |listed| - page * size
                         else size)
      && (forall i :: 0 <= i < |r.content| ==> r.content[i] == Project(listed[page * size + i]))
      && r.totalPages * size >= |listed|
      && (r.totalPages == 0 || (r.totalPages - 1) * size < |listed|)
  {
    var listed := Listable(users, ExcludedId(authenticated));
    var offset := page * size;
    var rows := if offset >= |listed| then []
                else if |listed| - offset < size then listed[offset..]
                else listed[offset..offset + size];
    Page(ProjectAll(rows), page, size, CeilDiv(|listed|, size))
  }

  /** `getUser`: the projection of the first active user with that id, or `NotFound`. */
  function GetUser(users: UserStore, id: int): (r: Result<PublicUser, ServiceError>)
    ensures r.Success? <==> exists i :: 0 <= i < |users| && users[i].id == id && !users[i].inactive
    ensures r.Success? ==>
      && r.value.id == id
      && exists i :: 0 <= i < |users| && users[i].id == id && !users[i].inactive
           && r.value == Project(users[i])
    ensures r.Failure? ==> r.error == NotFoundException("User not found")
  {
    match FirstIndex(users, (u: User) => u.id == id && !u.inactive)
    case None => Failure(NotFoundException("User not found"))
    case Some(i) => Success(Project(users[i]))
  }

  // ---------------------------------------------------------------------
  // Update and delete

  /**
   * `updateUser`: the first user with that id gets the new username; with no
   * such user the null lookup result is dereferenced.
   */
  function UpdateUser(users: UserStore, id: int, username: string): (r: Result<UserStore, ServiceError>)
    ensures r.Success? <==> HasId(users, id)
    ensures r.Failure? ==> r.error == NullDereference
    ensures r.Success? ==>
      && |r.value| == |users|
      && exists i :: (
           && 0 <= i < |users| && users[i].id == id
           && (forall j :: 0 <= j < i ==> users[j].id != id)
           && r.value[i] == users[i].(username := username)
           && (forall j :: 0 <= j < |users| && j != i ==> r.value[j] == users[j]))
  {
    match FirstIndex(users, (u: User) => u.id == id)
    case None => Failure(NullDereference)
    case Some(i) => Success(users[i := users[i].(username := username)])
  }

  /** `deleteUser`: destroys every user with that id and keeps the rest in order. */
  function DeleteUser(users: UserStore, id: int): (r: UserStore)
    ensures |r| <= |users|
    ensures forall u :: u in r <==> u in users && u.id != id
    ensures forall u: User :: u.id != id ==> multiset(r)[u] == multiset(users)[u]
    ensures Subsequence(r, users)
    ensures !HasId(users, id) ==> r == users
  {
    if users == [] then []
    else
      var rest := DeleteUser(users[1..], id);
      assert users == [users[0]] + users[1..];
      if users[0].id == id then rest
      else
        var r := [users[0]] + rest;
        assert r[1..] == rest;
        r
  }

  // ---------------------------------------------------------------------
  // Properties relating several operations

  lemma DeleteUserIdempotent(users: UserStore, id: int)
    ensures DeleteUser(DeleteUser(users, id), id) == DeleteUser(users, id)
  {
  }

  /**
   * A listing keeps every copy of every listable user: with `Subsequence` in
   * the contract of `Listable`, the listing is exactly the listable users in
   * storage order.
   */
  lemma {:induction false} ListableKeepsEveryCopy(users: UserStore, excludedId: int)
    ensures forall u: User :: !u.inactive && u.id != excludedId ==>
      multiset(Listable(users, excludedId))[u] == multiset(users)[u]
  {
    if users != [] {
      ListableKeepsEveryCopy(users[1..], excludedId);
      assert users == [users[0]] + users[1..];
    }
  }

  /** Registration keeps the store well formed when the store assigns a fresh id. */
  lemma SavePreservesWellFormed(users: UserStore, newId: int, username: string, email: string,
                                password: string, hash: string -> string, tokenBytes: seq<Byte>,
                                send: Mailer)
    requires |tokenBytes| == ACTIVATION_TOKEN_LENGTH
    requires WellFormed(users) && !HasId(users, newId)
    requires Save(users, newId, username, email, password, hash, tokenBytes, send).Success?
    ensures WellFormed(Save(users, newId, username, email, password, hash, tokenBytes, send).value)
  {
  }

  lemma ActivatePreservesWellFormed(users: UserStore, token: string)
    requires WellFormed(users)
    ensures Activate(users, token).Success? ==> WellFormed(Activate(users, token).value)
  {
  }

  lemma UpdateUserPreservesWellFormed(users: UserStore, id: int, username: string)
    requires WellFormed(users)
    ensures UpdateUser(users, id, username).Success? ==> WellFormed(UpdateUser(users, id, username).value)
  {
  }

  lemma {:induction false} DeleteUserPreservesWellFormed(users: UserStore, id: int)
    requires WellFormed(users)
    ensures WellFormed(DeleteUser(users, id))
  {
    if users != [] {
      DeleteUserPreservesWellFormed(users[1..], id);
      var rest := DeleteUser(users[1..], id);
      if users[0].id != id {
        var r := [users[0]] + rest;
        forall i, j | 0 <= i < j < |r|
          ensures r[i].id != r[j].id
        {
          if i == 0 {
            assert r[j] in rest;
            assert r[j] in users[1..];
          }
        }
      }
    }
  }

  /**
   * Registration followed by activation with the e-mailed token: the new
   * account becomes active, loses its token, and is then found by id.
   */
  lemma RegisterThenActivate(users: UserStore, newId: int, username: string, email: string,
                             password: string, hash: string -> string, tokenBytes: seq<Byte>,
                             send: Mailer)
    requires |tokenBytes| == ACTIVATION_TOKEN_LENGTH
    requires Save(users, newId, username, email, password, hash, tokenBytes, send).Success?
    requires forall i :: 0 <= i < |users| ==> users[i].activationToken != Some(RandomString(16, tokenBytes))
    requires !HasId(users, newId)
    ensures var saved := Save(users, newId, username, email, password, hash, tokenBytes, send).value;
      && Activate(saved, RandomString(16, tokenBytes)).Success?
      && var active := Activate(saved, RandomString(16, tokenBytes)).value;
         && active[..|users|] == users
         && !active[|users|].inactive && active[|users|].activationToken.None?
         && GetUser(active, newId) == Success(PublicUser(newId, username, email))
  {
  }
}
