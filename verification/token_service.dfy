/**
 * The session-token store. Opaque bearer tokens map to the owning user's id
 * and the time they were last used. Verification slides a one-week window
 * forward on every successful use; an hourly sweep deletes rows that fell out
 * of the window. Time is an integer number of milliseconds supplied by the
 * caller; the random bytes behind a new token are supplied too.
 */
module TokenService {
  import opened Wrappers
  import opened Generator

  const ONE_WEEK_IN_MS: int := 7 * 24 * 60 * 60 * 1000

  /** Length of an issued token. */
  const TOKEN_LENGTH: nat := 32

  datatype TokenRow = TokenRow(userId: int, lastUsedAt: int)

  /** The token table, keyed by the token string. */
  type TokenStore = map<string, TokenRow>

  /** What `verify` hands back to the authentication middleware. */
  datatype AuthenticatedUser = AuthenticatedUser(id: int)

  datatype TokenError =
    /** The insert of a new row collided with a row already stored under that token. */
    | DuplicateToken
    /** `findOne` matched nothing and the result was dereferenced anyway. */
    | NullDereference

  /** The oldest `lastUsedAt` a verification at `now` refuses. */
  function OneWeekAgo(now: int): int {
    now - ONE_WEEK_IN_MS
  }

  /** A row is within the sliding window: strictly younger than one week. */
  predicate Fresh(row: TokenRow, now: int) {
    row.lastUsedAt > OneWeekAgo(now)
  }

  /** A row the sweep deletes: strictly older than one week. */
  predicate Expired(row: TokenRow, now: int) {
    row.lastUsedAt < OneWeekAgo(now)
  }

  /** The token a `createToken` call issues from its 32 random bytes. */
  function IssuedToken(bytes: seq<Byte>): (token: string)
    requires |bytes| == TOKEN_LENGTH
    ensures |token| == 32
    ensures IsLowerHex(token)
  {
    RandomString(TOKEN_LENGTH, bytes)
  }

  /**
   * `createToken`: inserts one row for `userId` stamped `now` and returns its
   * token; the insert fails, leaving the store alone, if the key is taken.
   */
  function CreateToken(store: TokenStore, userId: int, now: int, bytes: seq<Byte>)
    : (r: Result<(string, TokenStore), TokenError>)
    requires |bytes| == TOKEN_LENGTH
    ensures r.Success? <==> IssuedToken(bytes) !in store
    ensures r.Success? ==>
      var (token, store') := r.value;
      && token == IssuedToken(bytes)
      && |token| == 32 && IsLowerHex(token)
      && store'.Keys == store.Keys + {token}
      && store'[token] == TokenRow(userId, now)
      && (forall t :: t in store ==> store'[t] == store[t])
    ensures r.Failure? ==> r.error == DuplicateToken
  {
    var token := IssuedToken(bytes);
    if token in store then Failure(DuplicateToken)
    else Success((token, store[token := TokenRow(userId, now)]))
  }

  /**
   * `verify`: looks up the token among rows inside the window; on a hit the
   * row's `lastUsedAt` becomes `now` and its user id is returned, on a miss
   * the null lookup result is dereferenced.
   */
  function Verify(store: TokenStore, token: string, now: int)
    : (r: Result<(AuthenticatedUser, TokenStore), TokenError>)
    ensures r.Success? <==> token in store && store[token].lastUsedAt > now - 604800000
    ensures r.Success? ==>
      var (user, store') := r.value;
      && user.id == store[token].userId
      && store'.Keys == store.Keys
      && store'[token] == TokenRow(store[token].userId, now)
      && (forall t :: t in store && t != token ==> store'[t] == store[t])
    ensures r.Failure? ==> r.error == NullDereference
  {
    if token in store && Fresh(store[token], now) then
      var row := store[token];
      Success((AuthenticatedUser(row.userId), store[token := row.(lastUsedAt := now)]))
    else
      Failure(NullDereference)
  }

  /** `deleteToken`: destroys the row for the token, if any. */
  function DeleteToken(store: TokenStore, token: string): (store': TokenStore)
    ensures store'.Keys == store.Keys - {token}
    ensures forall t :: t in store' ==> store'[t] == store[t]
  {
    store - {token}
  }

  /** One run of the scheduled cleanup: destroys every row older than a week. */
  function Sweep(store: TokenStore, now: int): (store': TokenStore)
    ensures forall t :: t in store' <==> t in store && store[t].lastUsedAt >= now - 604800000
    ensures forall t :: t in store' ==> store'[t] == store[t]
  {
    map t | t in store && !Expired(store[t], now) :: store[t]
  }

  /** Deleting twice is deleting once, and deleting an absent token changes nothing. */
  lemma DeleteTokenIdempotent(store: TokenStore, token: string)
    ensures DeleteToken(DeleteToken(store, token), token) == DeleteToken(store, token)
    ensures token !in store ==> DeleteToken(store, token) == store
  {
  }

  /** Sweeping twice at the same instant is sweeping once. */
  lemma SweepIdempotent(store: TokenStore, now: int)
    ensures Sweep(Sweep(store, now), now) == Sweep(store, now)
  {
  }

  /** A row exactly one week old is neither verifiable nor swept. */
  lemma ExactlyOneWeekOld(store: TokenStore, token: string, now: int)
    requires token in store && store[token].lastUsedAt == now - ONE_WEEK_IN_MS
    ensures Verify(store, token, now).Failure?
    ensures token in Sweep(store, now)
  {
  }

  /** A token verified at `now` survives a sweep at `now` and verifies again. */
  lemma VerifiedTokenSurvivesSweep(store: TokenStore, token: string, now: int)
    requires Verify(store, token, now).Success?
    ensures var store' := Verify(store, token, now).value.1;
      && token in Sweep(store', now)
      && Verify(Sweep(store', now), token, now).Success?
  {
  }

  /** A token just issued verifies at the same instant, for the user it was issued to. */
  lemma CreateThenVerify(store: TokenStore, userId: int, now: int, bytes: seq<Byte>)
    requires |bytes| == TOKEN_LENGTH
    requires CreateToken(store, userId, now, bytes).Success?
    ensures var (token, store') := CreateToken(store, userId, now, bytes).value;
      && Verify(store', token, now).Success?
      && Verify(store', token, now).value.0 == AuthenticatedUser(userId)
  {
  }

  /**
   * After a sweep at `now`, a stored token verifies at `now` unless it sits
   * exactly on the one-week boundary.
   */
  lemma SweptStoreVerifies(store: TokenStore, token: string, now: int)
    requires token in Sweep(store, now)
    ensures Verify(Sweep(store, now), token, now).Success? <==>
      store[token].lastUsedAt != now - ONE_WEEK_IN_MS
  {
  }

  /** After a deletion the token no longer verifies, whatever its age. */
  lemma DeletedTokenFails(store: TokenStore, token: string, now: int)
    ensures Verify(DeleteToken(store, token), token, now).Failure?
  {
  }
}
