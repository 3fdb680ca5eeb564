/**
 * The user routes: registration (validate, fold the errors into a field map,
 * save) and activation by token. A response is a status and a JSON body.
 */
module UserRouter {
  import opened Wrappers
  import opened Generator
  import opened Chains
  import opened UserService
  import opened Validation

  /** One property of a JSON object; objects keep insertion order. */
  datatype Entry = Entry(key: string, value: string)

  type ErrorMap = seq<Entry>

  datatype ResponseBody =
    | ValidationErrors(validationErrors: ErrorMap)
    | Message(message: string)

  datatype Response = Response(status: nat, body: ResponseBody)

  const USER_CREATED: string := "User created"
  const ACCOUNT_ACTIVATED: string := "Account is activated"

  function Keys(m: ErrorMap): (ks: seq<string>)
    ensures |ks| == |m|
    ensures forall i :: 0 <= i < |m| ==> ks[i] == m[i].key
  {
    seq(|m|, i requires 0 <= i < |m| => m[i].key)
  }

  predicate DistinctKeys(m: ErrorMap) {
    forall i, j :: 0 <= i < j < |m| ==> m[i].key != m[j].key
  }

  /** Where a key sits in the object, if it is there. */
  function KeyIndex(m: ErrorMap, key: string): (r: Option<nat>)
    ensures r.Some? ==> r.value < |m| && m[r.value].key == key
    ensures r.None? ==> key !in Keys(m)
  {
    if m == [] then None
    else if m[0].key == key then Some(0)
    else match KeyIndex(m[1..], key)
      case None => None
      case Some(k) => Some(k + 1)
  }

  /**
   * `obj[key] = value` on an object whose keys are not array indices: an
   * existing key keeps its position and takes the new value, a new key goes last.
   */
  function Assign(m: ErrorMap, key: string, value: string): (r: ErrorMap)
    ensures key in Keys(m) ==> Keys(r) == Keys(m)
    ensures key !in Keys(m) ==> Keys(r) == Keys(m) + [key]
    ensures |r| > 0
    ensures forall i :: 0 <= i < |r| && r[i].key == key && DistinctKeys(r) ==> r[i].value == value
    ensures forall i :: 0 <= i < |m| && m[i].key != key ==> r[i] == m[i]
    ensures DistinctKeys(m) ==> DistinctKeys(r)
  {
    match KeyIndex(m, key)
    case Some(i) =>
      var r := m[i := Entry(key, value)];
      assert Keys(r) == Keys(m);
      r
    case None =>
      var r := m + [Entry(key, value)];
      assert Keys(r) == Keys(m) + [key];
      r
  }

  /** The fields the errors name, in order. */
  function Params(errors: seq<FieldError>): (ps: seq<string>)
    ensures |ps| == |errors|
    ensures forall i :: 0 <= i < |errors| ==> ps[i] == errors[i].param
  {
    seq(|errors|, i requires 0 <= i < |errors| => errors[i].param)
  }

  /** The router's `forEach` that stores each error's message under its field. */
  function ToErrorMap(errors: seq<FieldError>): (r: ErrorMap)
    ensures DistinctKeys(r)
    ensures forall k :: k in Keys(r) <==> k in Params(errors)
    ensures r == [] <==> errors == []
    decreases |errors|
  {
    if errors == [] then []
    else
      var init := errors[..|errors| - 1];
      var e := errors[|errors| - 1];
      assert Params(errors) == Params(init) + [e.param];
      Assign(ToErrorMap(init), e.param, e.msg)
  }

  /** Each error as the entry it contributes. */
  function Entries(errors: seq<FieldError>): (r: ErrorMap)
    ensures |r| == |errors|
    ensures forall i :: 0 <= i < |errors| ==> r[i] == Entry(errors[i].param, errors[i].msg)
  {
    seq(|errors|, i requires 0 <= i < |errors| => Entry(errors[i].param, errors[i].msg))
  }

  predicate DistinctParams(errors: seq<FieldError>) {
    forall i, j :: 0 <= i < j < |errors| ==> errors[i].param != errors[j].param
  }

  /** With one error per field, the map holds every error in order, as `{field: message}`. */
  lemma {:induction false} ToErrorMapOfDistinct(errors: seq<FieldError>)
    requires DistinctParams(errors)
    ensures ToErrorMap(errors) == Entries(errors)
    decreases |errors|
  {
    if errors != [] {
      var init := errors[..|errors| - 1];
      var e := errors[|errors| - 1];
      ToErrorMapOfDistinct(init);
      assert Entries(errors) == Entries(init) + [Entry(e.param, e.msg)];
      assert e.param !in Keys(Entries(init)) by {
        forall i | 0 <= i < |init|
          ensures Keys(Entries(init))[i] != e.param
        {
          assert init[i] == errors[i];
        }
      }
    }
  }

  // ---------------------------------------------------------------------
  // Registration

  /** The registration errors folded into the `validationErrors` object. */
  function RegistrationErrorMap(users: UserStore, body: Body, isEmail: EmailShape): ErrorMap {
    ToErrorMap(ValidationResult(RegistrationChains(users), body, isEmail))
  }

  /** `POST /api/1.0/users`: 400 with the error map, else save and answer 200 or 502. */
  function Register(users: UserStore, body: Body, isEmail: EmailShape, hash: string -> string,
                    newId: int, tokenBytes: seq<Byte>, send: Mailer)
    : (r: (Response, UserStore))
    requires |tokenBytes| == ACTIVATION_TOKEN_LENGTH
    ensures r.0.status in {200, 400, 502}
    ensures r.0.status != 200 ==> r.1 == users
    ensures r.0.status == 400 <==> RegistrationErrorMap(users, body, isEmail) != []
    ensures r.0.status == 400 ==> r.0.body == ValidationErrors(RegistrationErrorMap(users, body, isEmail))
    ensures r.0.status == 502 ==> r.0.body == Message("E-mail Failure")
    ensures r.0.status == 200 ==>
      && r.0.body == Message(USER_CREATED)
      && |r.1| == |users| + 1 && r.1[..|users|] == users
      && r.1[|users|].username == Username(body) && r.1[|users|].email == Email(body)
      && r.1[|users|].password == hash(Password(body)) && r.1[|users|].inactive
      && r.1[|users|].activationToken == Some(RandomString(16, tokenBytes))
  {
    Respond(users, ValidationResult(RegistrationChains(users), body, isEmail),
            Username(body), Email(body), Password(body), hash, newId, tokenBytes, send)
  }

  /** The route's answer once the request has been validated and its three fields read. */
  function Respond(users: UserStore, errors: seq<FieldError>, username: string, email: string,
                   password: string, hash: string -> string, newId: int, tokenBytes: seq<Byte>,
                   send: Mailer)
    : (r: (Response, UserStore))
    requires |tokenBytes| == ACTIVATION_TOKEN_LENGTH
    ensures r.0.status in {200, 400, 502}
    ensures r.0.status != 200 ==> r.1 == users
    ensures r.0.status == 400 <==> errors != []
    ensures r.0.status == 400 ==> r.0.body == ValidationErrors(ToErrorMap(errors))
    ensures r.0.status == 502 ==> r.0.body == Message("E-mail Failure")
    ensures r.0.status == 200 <==> errors == [] && send(email, RandomString(16, tokenBytes))
    ensures r.0.status == 200 ==>
      && r.0.body == Message(USER_CREATED)
      && |r.1| == |users| + 1 && r.1[..|users|] == users
      && r.1[|users|].username == username && r.1[|users|].email == email
      && r.1[|users|].password == hash(password) && r.1[|users|].inactive
      && r.1[|users|].activationToken == Some(RandomString(16, tokenBytes))
  {
    if errors != [] then
      (Response(400, ValidationErrors(ToErrorMap(errors))), users)
    else
      match Save(users, newId, username, email, password, hash, tokenBytes, send)
      case Success(users') => (Response(200, Message(USER_CREATED)), users')
      case Failure(e) => (Response(502, Message(ErrorMessage(e))), users)
  }

  /**
   * Registration answers 200 exactly when every field passes and the
   * activation e-mail is sent.
   */
  lemma RegisterSucceedsIff(users: UserStore, body: Body, isEmail: EmailShape, hash: string -> string,
                            newId: int, tokenBytes: seq<Byte>, send: Mailer)
    requires |tokenBytes| == ACTIVATION_TOKEN_LENGTH
    ensures Register(users, body, isEmail, hash, newId, tokenBytes, send).0.status == 200 <==>
      && 4 <= |Username(body)| <= 32
      && |Email(body)| > 0 && isEmail(Email(body)) && !EmailTaken(users, Email(body))
      && |Password(body)| >= 5
      && send(Email(body), RandomString(16, tokenBytes))
  {
    RegistrationValidIff(body, users, isEmail);
  }

  /** The registration errors depend only on the username, e-mail and password fields. */
  lemma RegistrationReadsOnlyItsFields(users: UserStore, b1: Body, b2: Body, isEmail: EmailShape)
    requires FieldValue(b1, "username") == FieldValue(b2, "username")
    requires FieldValue(b1, "email") == FieldValue(b2, "email")
    requires FieldValue(b1, "password") == FieldValue(b2, "password")
    ensures ValidationResult(RegistrationChains(users), b1, isEmail) ==
            ValidationResult(RegistrationChains(users), b2, isEmail)
  {
    ChainReadsOnlyItsField(UsernameChain(), b1, b2, isEmail);
    ChainReadsOnlyItsField(EmailChain(users), b1, b2, isEmail);
    ChainReadsOnlyItsField(PasswordChain(), b1, b2, isEmail);
    RegistrationErrors(b1, users, isEmail);
    RegistrationErrors(b2, users, isEmail);
  }

  /**
   * Only username, e-mail and password are read from the request: any other
   * field, such as `inactive`, changes neither the response nor the store.
   */
  lemma RegisterIgnoresOtherFields(users: UserStore, b1: Body, b2: Body, isEmail: EmailShape,
                                   hash: string -> string, newId: int, tokenBytes: seq<Byte>, send: Mailer)
    requires |tokenBytes| == ACTIVATION_TOKEN_LENGTH
    requires forall f :: f in ["username", "email", "password"] ==> FieldValue(b1, f) == FieldValue(b2, f)
    ensures Register(users, b1, isEmail, hash, newId, tokenBytes, send) ==
            Register(users, b2, isEmail, hash, newId, tokenBytes, send)
  {
    assert FieldValue(b1, "username") == FieldValue(b2, "username");
    assert FieldValue(b1, "email") == FieldValue(b2, "email");
    assert FieldValue(b1, "password") == FieldValue(b2, "password");
    RegistrationReadsOnlyItsFields(users, b1, b2, isEmail);
    assert Username(b1) == Username(b2) && Email(b1) == Email(b2) && Password(b1) == Password(b2);
  }

  /**
   * The registration error map has one entry per failing field, in the
   * order username, e-mail, password, holding that field's message.
   */
  lemma RegisterErrorMap(users: UserStore, body: Body, isEmail: EmailShape)
    ensures RegistrationErrorMap(users, body, isEmail) ==
      Entries(RunChain(UsernameChain(), body, isEmail)
              + RunChain(EmailChain(users), body, isEmail)
              + RunChain(PasswordChain(), body, isEmail))
  {
    var u := RunChain(UsernameChain(), body, isEmail);
    var e := RunChain(EmailChain(users), body, isEmail);
    var p := RunChain(PasswordChain(), body, isEmail);
    RegistrationErrors(body, users, isEmail);
    BailedChainAtMostOne(UsernameChain(), body, isEmail);
    BailedChainAtMostOne(EmailChain(users), body, isEmail);
    BailedChainAtMostOne(PasswordChain(), body, isEmail);
    OneErrorPerFieldIsDistinct(u, e, p);
    ToErrorMapOfDistinct(u + e + p);
  }

  lemma OneErrorPerFieldIsDistinct(u: seq<FieldError>, e: seq<FieldError>, p: seq<FieldError>)
    requires |u| <= 1 && |e| <= 1 && |p| <= 1
    requires forall i :: 0 <= i < |u| ==> u[i].param == "username"
    requires forall i :: 0 <= i < |e| ==> e[i].param == "email"
    requires forall i :: 0 <= i < |p| ==> p[i].param == "password"
    ensures DistinctParams(u + e + p)
  {
  }

  lemma KeysOfEntries(errors: seq<FieldError>)
    ensures Keys(Entries(errors)) == Params(errors)
  {
  }

  /**
   * Missing username and e-mail with a valid password: the map's keys are
   * `["username", "email"]`.
   */
  lemma UsernameAndEmailNullKeys(users: UserStore, body: Body, isEmail: EmailShape)
    requires "username" !in body && "email" !in body
    requires "password" in body && |body["password"]| >= 5
    ensures Keys(RegistrationErrorMap(users, body, isEmail)) == ["username", "email"]
  {
    var u := RunChain(UsernameChain(), body, isEmail);
    var e := RunChain(EmailChain(users), body, isEmail);
    var p := RunChain(PasswordChain(), body, isEmail);
    assert u == [FieldError("username", USERNAME_NULL)] by { UsernameVerdict(body, isEmail); }
    assert e == [FieldError("email", EMAIL_NULL)] by { EmailVerdict(body, users, isEmail); }
    assert p == [] by { PasswordVerdict(body, isEmail); }
    RegisterErrorMap(users, body, isEmail);
    KeysOfUsernameAndEmail(u, e, p);
  }

  /** The keys of a username error followed by an e-mail error and nothing else. */
  lemma KeysOfUsernameAndEmail(u: seq<FieldError>, e: seq<FieldError>, p: seq<FieldError>)
    requires |u| == 1 && u[0].param == "username"
    requires |e| == 1 && e[0].param == "email"
    requires p == []
    ensures Keys(Entries(u + e + p)) == ["username", "email"]
  {
    KeysOfEntries(u + e + p);
    assert Params(u + e + p) == ["username", "email"];
  }

  // ---------------------------------------------------------------------
  // Activation

  /** `POST /api/1.0/users/token/:token`. */
  function ActivateAccount(users: UserStore, token: string): (r: (Response, UserStore))
    ensures r.0.status == 200 <==> exists i :: 0 <= i < |users| && users[i].activationToken == Some(token)
    ensures r.0.status == 200 ==>
      && r.0.body == Message(ACCOUNT_ACTIVATED)
      && |r.1| == |users|
      && exists i :: (
           && 0 <= i < |users| && users[i].activationToken == Some(token)
           && (forall j :: 0 <= j < i ==> users[j].activationToken != Some(token))
           && r.1[i] == users[i].(inactive := false, activationToken := None)
           && (forall j :: 0 <= j < |users| && j != i ==> r.1[j] == users[j]))
    ensures r.0.status != 200 ==>
      && r.0 == Response(400, Message("This account is either active or the token is invalid"))
      && r.1 == users
  {
    match Activate(users, token)
    case Success(users') => (Response(200, Message(ACCOUNT_ACTIVATED)), users')
    case Failure(e) => (Response(400, Message(ErrorMessage(e))), users)
  }

  /**
   * A token activates its account once: when a single user holds it, a second
   * request with the same token is refused and changes nothing.
   */
  lemma ActivateAccountOnce(users: UserStore, token: string, holder: nat)
    requires holder < |users| && users[holder].activationToken == Some(token)
    requires forall j :: 0 <= j < |users| && j != holder ==> users[j].activationToken != Some(token)
    ensures ActivateAccount(users, token).0.status == 200
    ensures var again := ActivateAccount(ActivateAccount(users, token).1, token);
      again.0.status == 400 && again.1 == ActivateAccount(users, token).1
  {
  }
}
