/**
 * A generic evaluator for per-field validation chains, with the semantics of
 * the request-validation library the routes use. A chain names one request
 * field and lists validator steps and `bail` markers in declaration order.
 * Every validator runs unless a `bail` is reached after an earlier failure;
 * each failure records one `(field, message)` error. Fields are validated
 * independently and their errors are concatenated in chain order.
 */
module Chains {
  import opened Wrappers

  /** A raw request field: absent (or null) or a string. */
  type Value = Option<string>

  /** A request body: a field that is absent or null has no key. */
  type Body = map<string, string>

  /** The library's e-mail shape check, left uninterpreted. */
  type EmailShape = string -> bool

  /** The message of a built-in validator that has no `withMessage`. */
  const DEFAULT_MESSAGE: string := "Invalid value"

  datatype Validator =
    | NotEmpty
    | IsLength(min: nat, max: Option<nat>)
    | IsEmail
      /** A custom validator: `None` when it resolves, `Some(m)` when it throws an error with message `m`. */
    | Custom(run: Value -> Option<string>)

  datatype Step = Check(validator: Validator, withMessage: Option<string>) | Bail

  datatype Chain = Chain(field: string, steps: seq<Step>)

  datatype FieldError = FieldError(param: string, msg: string)

  function FieldValue(body: Body, field: string): Value {
    if field in body then Some(body[field]) else None
  }

  /** What a built-in validator reads: an absent value reads as the empty string. */
  function AsString(v: Value): string {
    match v
    case None => ""
    case Some(s) => s
  }

  /** The message a validator reports for a value, or `None` when it passes. */
  function Outcome(v: Validator, value: Value, isEmail: EmailShape): Option<string> {
    var s := AsString(value);
    match v
    case NotEmpty => if |s| > 0 then None else Some(DEFAULT_MESSAGE)
    case IsLength(min, max) =>
      if min <= |s| && (max.None? || |s| <= max.value) then None else Some(DEFAULT_MESSAGE)
    case IsEmail => if isEmail(s) then None else Some(DEFAULT_MESSAGE)
    case Custom(run) => run(value)
  }

  /** A check step's message: its `withMessage` when given, else the validator's own. */
  function CheckOutcome(v: Validator, withMessage: Option<string>, value: Value, isEmail: EmailShape)
    : (r: Option<string>)
    ensures r.Some? <==> Outcome(v, value, isEmail).Some?
    ensures r.Some? && withMessage.Some? ==> r.value == withMessage.value
  {
    match Outcome(v, value, isEmail)
    case None => None
    case Some(m) => if withMessage.Some? then Some(withMessage.value) else Some(m)
  }

  /**
   * Runs the steps after `failed` messages have already been recorded; a
   * `bail` stops the chain as soon as anything has failed.
   */
  function RunSteps(steps: seq<Step>, value: Value, isEmail: EmailShape, failed: seq<string>)
    : (r: seq<string>)
    ensures failed <= r
    ensures |r| <= |failed| + |steps|
    decreases |steps|
  {
    if steps == [] then failed
    else match steps[0]
      case Bail =>
        if failed != [] then failed else RunSteps(steps[1..], value, isEmail, failed)
      case Check(v, m) =>
        var next := match CheckOutcome(v, m, value, isEmail)
          case None => failed
          case Some(msg) => failed + [msg];
        RunSteps(steps[1..], value, isEmail, next)
  }

  function Tag(field: string, msgs: seq<string>): (r: seq<FieldError>)
    ensures |r| == |msgs|
    ensures forall i :: 0 <= i < |r| ==> r[i] == FieldError(field, msgs[i])
  {
    seq(|msgs|, i requires 0 <= i < |msgs| => FieldError(field, msgs[i]))
  }

  /** The errors one chain records against its field. */
  function RunChain(c: Chain, body: Body, isEmail: EmailShape): (r: seq<FieldError>)
    ensures |r| <= |c.steps|
    ensures forall i :: 0 <= i < |r| ==> r[i].param == c.field
  {
    Tag(c.field, RunSteps(c.steps, FieldValue(body, c.field), isEmail, []))
  }

  /** `validationResult`: every chain's errors, in chain order. */
  function ValidationResult(chains: seq<Chain>, body: Body, isEmail: EmailShape): (r: seq<FieldError>)
    ensures forall i :: 0 <= i < |r| ==>
      exists k :: 0 <= k < |chains| && chains[k].field == r[i].param
    ensures r == [] <==> forall k :: 0 <= k < |chains| ==> RunChain(chains[k], body, isEmail) == []
    ensures forall k, e :: 0 <= k < |chains| && e in RunChain(chains[k], body, isEmail) ==> e in r
  {
    if chains == [] then []
    else
      var first := RunChain(chains[0], body, isEmail);
      var rest := ValidationResult(chains[1..], body, isEmail);
      assert forall k :: 1 <= k < |chains| ==> chains[k] == chains[1..][k - 1];
      first + rest
  }

  /** Collecting two lists of chains one after the other is collecting their concatenation. */
  lemma {:induction false} ValidationResultAppend(a: seq<Chain>, b: seq<Chain>, body: Body, isEmail: EmailShape)
    ensures ValidationResult(a + b, body, isEmail) ==
      ValidationResult(a, body, isEmail) + ValidationResult(b, body, isEmail)
    decreases |a|
  {
    if a != [] {
      var ab := a + b;
      assert ab[0] == a[0] && ab[1..] == a[1..] + b;
      ValidationResultAppend(a[1..], b, body, isEmail);
      assert ValidationResult(ab, body, isEmail) ==
        RunChain(a[0], body, isEmail) + ValidationResult(a[1..] + b, body, isEmail);
    } else {
      assert a + b == b;
    }
  }

  // ---------------------------------------------------------------------
  // Chains that bail after every validator

  /** Validators separated by `bail`: Check, Bail, Check, …, Check. */
  predicate BailsAfterEach(steps: seq<Step>) {
    && |steps| % 2 == 1
    && (forall i :: 0 <= i < |steps| && i % 2 == 0 ==> steps[i].Check?)
    && (forall i :: 0 <= i < |steps| && i % 2 == 1 ==> steps[i].Bail?)
  }

  /** Reference meaning of a chain: the message of its first failing validator. */
  function FirstFailure(steps: seq<Step>, value: Value, isEmail: EmailShape): Option<string>
    decreases |steps|
  {
    if steps == [] then None
    else match steps[0]
      case Bail => FirstFailure(steps[1..], value, isEmail)
      case Check(v, m) =>
        var o := CheckOutcome(v, m, value, isEmail);
        if o.Some? then o else FirstFailure(steps[1..], value, isEmail)
  }

  function AsList(o: Option<string>): seq<string> {
    match o
    case None => []
    case Some(m) => [m]
  }

  /**
   * In a chain that bails after every validator the first failure wins: it is
   * the only message recorded and the later validators do not matter.
   */
  lemma {:induction false} BailedChainReportsFirstFailure(steps: seq<Step>, value: Value, isEmail: EmailShape)
    requires BailsAfterEach(steps)
    ensures RunSteps(steps, value, isEmail, []) == AsList(FirstFailure(steps, value, isEmail))
    decreases |steps|
  {
    var o := CheckOutcome(steps[0].validator, steps[0].withMessage, value, isEmail);
    if |steps| > 1 {
      var rest := steps[2..];
      assert steps[1..][1..] == rest;
      assert BailsAfterEach(rest) by {
        forall i | 0 <= i < |rest|
          ensures i % 2 == 0 ==> rest[i].Check?
          ensures i % 2 == 1 ==> rest[i].Bail?
        {
          assert rest[i] == steps[i + 2];
        }
      }
      if o.None? {
        BailedChainReportsFirstFailure(rest, value, isEmail);
        assert FirstFailure(steps[1..], value, isEmail) == FirstFailure(rest, value, isEmail);
      }
    }
  }

  /** The first failure of two validators separated by `bail`. */
  lemma FirstFailureOfTwo(v1: Validator, m1: Option<string>, v2: Validator, m2: Option<string>,
                          value: Value, isEmail: EmailShape)
    ensures FirstFailure([Check(v1, m1), Bail, Check(v2, m2)], value, isEmail) ==
      var o1 := CheckOutcome(v1, m1, value, isEmail);
      if o1.Some? then o1 else CheckOutcome(v2, m2, value, isEmail)
  {
    var steps := [Check(v1, m1), Bail, Check(v2, m2)];
    var last := [Check(v2, m2)];
    assert steps[1..][1..] == last;
    assert last[1..] == [];
    assert FirstFailure(last, value, isEmail) == CheckOutcome(v2, m2, value, isEmail);
    assert FirstFailure(steps[1..], value, isEmail) == FirstFailure(last, value, isEmail);
  }

  /** The first failure of three validators separated by `bail`. */
  lemma FirstFailureOfThree(v1: Validator, m1: Option<string>, v2: Validator, m2: Option<string>,
                            v3: Validator, m3: Option<string>, value: Value, isEmail: EmailShape)
    ensures FirstFailure([Check(v1, m1), Bail, Check(v2, m2), Bail, Check(v3, m3)], value, isEmail) ==
      var o1 := CheckOutcome(v1, m1, value, isEmail);
      var o2 := CheckOutcome(v2, m2, value, isEmail);
      if o1.Some? then o1 else if o2.Some? then o2 else CheckOutcome(v3, m3, value, isEmail)
  {
    var steps := [Check(v1, m1), Bail, Check(v2, m2), Bail, Check(v3, m3)];
    assert steps[1..][1..] == [Check(v2, m2), Bail, Check(v3, m3)];
    FirstFailureOfTwo(v2, m2, v3, m3, value, isEmail);
  }

  /** Collecting two chains: the first chain's errors, then the second's. */
  lemma ValidationResultOfTwo(c1: Chain, c2: Chain, body: Body, isEmail: EmailShape)
    ensures ValidationResult([c1, c2], body, isEmail) == RunChain(c1, body, isEmail) + RunChain(c2, body, isEmail)
  {
    assert [c1, c2][1..] == [c2];
    assert [c2][1..] == [];
  }

  /** Collecting three chains: their errors one after another, in chain order. */
  lemma ValidationResultOfThree(c1: Chain, c2: Chain, c3: Chain, body: Body, isEmail: EmailShape)
    ensures ValidationResult([c1, c2, c3], body, isEmail) ==
      RunChain(c1, body, isEmail) + RunChain(c2, body, isEmail) + RunChain(c3, body, isEmail)
  {
    assert [c1, c2, c3][1..] == [c2, c3];
    ValidationResultOfTwo(c2, c3, body, isEmail);
  }

  /** A chain that bails after every validator records at most one error. */
  lemma BailedChainAtMostOne(c: Chain, body: Body, isEmail: EmailShape)
    requires BailsAfterEach(c.steps)
    ensures |RunChain(c, body, isEmail)| <= 1
  {
    BailedChainReportsFirstFailure(c.steps, FieldValue(body, c.field), isEmail);
  }

  /** A field's errors depend on that field's value only. */
  lemma ChainReadsOnlyItsField(c: Chain, b1: Body, b2: Body, isEmail: EmailShape)
    requires FieldValue(b1, c.field) == FieldValue(b2, c.field)
    ensures RunChain(c, b1, isEmail) == RunChain(c, b2, isEmail)
  {
  }
}
