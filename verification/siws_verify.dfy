/** src/sol/SiwsMessage.ts, `verify`: the promise executor as written, as a
    pure function from the message, parameters, options, foreign capabilities
    and clock to the settlement the returned promise reaches. */
module SiwsVerify {
  import opened Wrappers
  import opened JsText
  import opened Errors
  import opened Utils
  import opened Blockchain
  import opened Siws

  /** `SiwsResponse`; its error is whatever was thrown or built on failure. */
  type SiwsResponse = BlockchainResponse<SiwsMessage, Exception>

  /** What a rejected promise carries: the failure record handed to `reject`,
      or an exception that escaped the executor. */
  datatype Reason = FailureRecord(record: SiwsResponse) | Raised(exception: Exception)

  /** The state a promise ends in; `Pending` when nothing ever settles it. */
  datatype Settlement = Resolved(value: SiwsResponse) | Rejected(reason: Reason) | Pending

  type SiwsVerifyOpts = VerifyOpts<Settlement>

  /** The settlement together with the message state after the call (the
      response's `data` is `this`, which `prepareMessage` may have updated). */
  datatype VerifyRun = VerifyRun(settlement: Settlement, message: SiwsMessage)

  function FailureResponse(e: Exception, data: SiwsMessage): SiwsResponse
  {
    BlockchainResponse(false, Some(e), data)
  }

  function SuccessResponse(data: SiwsMessage): SiwsResponse
  {
    BlockchainResponse(true, None, data)
  }

  /** The error a settlement reports, if it carries a failure record. */
  function ErrorOf(s: Settlement): Option<Exception>
  {
    match s
    case Resolved(v) => v.error
    case Rejected(FailureRecord(v)) => v.error
    case _ => None
  }

  // ---------------------------------------------------------------------------
  // The checks, in the order the executor runs them

  function KeyError(keys: seq<string>, shape: string): Exception
  {
    PlainError(Join(keys, ", ") + " is/are not valid key(s) for " + shape + ".")
  }

  function ParamsKeyCheck(p: VerifyParams): (r: Option<Exception>)
    ensures r.Some? <==> exists i :: 0 <= i < |p.keys| && p.keys[i] !in VerifyParamsKeys
  {
    InvalidKeysEmptyIff(p.keys, VerifyParamsKeys);
    var invalidParams := InvalidKeys(p.keys, VerifyParamsKeys);
    if |invalidParams| > 0 then Some(KeyError(invalidParams, "VerifyParams")) else None
  }

  /** The option-key check as written: it computes the invalid option keys
      but tests the count of invalid parameter keys. */
  function OptsKeyCheck(p: VerifyParams, opts: Option<SiwsVerifyOpts>): (r: Option<Exception>)
    ensures r.Some? ==> ParamsKeyCheck(p).Some?
  {
    if opts.Some? then
      var invalidOpts := InvalidKeys(opts.value.keys, VerifyOptsKeys());
      if |InvalidKeys(p.keys, VerifyParamsKeys)| > 0 then Some(KeyError(invalidOpts, "VerifyOpts")) else None
    else None
  }

  function DomainMismatchError(expected: string, m: SiwsMessage): Exception
  {
    SiwsError(DomainMismatch, Some(expected), m.fields.domain)
  }

  function NonceMismatchError(expected: string, m: SiwsMessage): Exception
  {
    SiwsError(NonceMismatch, Some(expected), m.fields.nonce)
  }

  /** `if (domain && domain !== this.domain)`. */
  function DomainBinding(m: SiwsMessage, p: VerifyParams): (r: Option<Exception>)
    ensures r.Some? <==> Truthy(p.domain) && p.domain != m.fields.domain
    ensures r.Some? ==> IsSiwsError(r.value) && KindOf(r.value) == Some(DomainMismatch)
  {
    if Truthy(p.domain) && p.domain != m.fields.domain then Some(DomainMismatchError(p.domain.value, m)) else None
  }

  /** `if (nonce && nonce !== this.nonce)`. */
  function NonceBinding(m: SiwsMessage, p: VerifyParams): (r: Option<Exception>)
    ensures r.Some? <==> Truthy(p.nonce) && p.nonce != m.fields.nonce
    ensures r.Some? ==> IsSiwsError(r.value) && KindOf(r.value) == Some(NonceMismatch)
  {
    if Truthy(p.nonce) && p.nonce != m.fields.nonce then Some(NonceMismatchError(p.nonce.value, m)) else None
  }

  /** `new Date(time || new Date()).getTime()`: `None` stands for NaN. */
  function CheckTime(p: VerifyParams, env: Env, clock: Clock): Option<int>
  {
    if Truthy(p.time) then env.parseDate(p.time.value) else Some(clock.nowMillis)
  }

  /** The instant a truthy time field parses to; `None` when absent or NaN. */
  function FieldInstant(t: Option<string>, env: Env): Option<int>
  {
    if Truthy(t) then env.parseDate(t.value) else None
  }

  /** `checkTime >= expirationDate`: false whenever either side is NaN. */
  predicate Expired(m: SiwsMessage, checkTime: Option<int>, env: Env)
  {
    var e := FieldInstant(m.fields.expirationTime, env);
    checkTime.Some? && e.Some? && checkTime.value >= e.value
  }

  /** `checkTime < notBefore`: false whenever either side is NaN. */
  predicate NotYetValid(m: SiwsMessage, checkTime: Option<int>, env: Env)
  {
    var nb := FieldInstant(m.fields.notBefore, env);
    checkTime.Some? && nb.Some? && checkTime.value < nb.value
  }

  function ExpiredError(checkTime: int, expirationDate: int, env: Env): Exception
  {
    var now, exp := env.toIsoString(checkTime), env.toIsoString(expirationDate);
    SiwsError(ExpiredMessage, Some(now + " < " + exp), Some(now + " >= " + exp))
  }

  function NotYetValidError(checkTime: int, notBefore: int, env: Env): Exception
  {
    var now, nb := env.toIsoString(checkTime), env.toIsoString(notBefore);
    SiwsError(NotYetValidMessage, Some(now + " >= " + nb), Some(now + " < " + nb))
  }

  function ExpiryCheck(m: SiwsMessage, checkTime: Option<int>, env: Env): (r: Option<Exception>)
    ensures r.Some? <==> Expired(m, checkTime, env)
    ensures r.Some? ==> IsSiwsError(r.value) && KindOf(r.value) == Some(ExpiredMessage)
  {
    if Truthy(m.fields.expirationTime) then
      var expirationDate := env.parseDate(m.fields.expirationTime.value);
      if checkTime.Some? && expirationDate.Some? && checkTime.value >= expirationDate.value then
        Some(ExpiredError(checkTime.value, expirationDate.value, env))
      else None
    else None
  }

  function NotBeforeCheck(m: SiwsMessage, checkTime: Option<int>, env: Env): (r: Option<Exception>)
    ensures r.Some? <==> NotYetValid(m, checkTime, env)
    ensures r.Some? ==> IsSiwsError(r.value) && KindOf(r.value) == Some(NotYetValidMessage)
  {
    if Truthy(m.fields.notBefore) then
      var notBefore := env.parseDate(m.fields.notBefore.value);
      if checkTime.Some? && notBefore.Some? && checkTime.value < notBefore.value then
        Some(NotYetValidError(checkTime.value, notBefore.value, env))
      else None
    else None
  }

  /** `try { prepareMessage() } catch (e) { fail(... e) }`. */
  function PrepareCheck(prepared: Result<Signable, Exception>): Option<Exception>
  {
    if prepared.Failure? then Some(prepared.error) else None
  }

  /** The seven failure points of the executor, in order, given what
      `prepareMessage` did. */
  function VerifyChecks(m: SiwsMessage, p: VerifyParams, opts: Option<SiwsVerifyOpts>, env: Env, clock: Clock,
                        prepared: Result<Signable, Exception>)
    : seq<Option<Exception>>
  {
    var t := CheckTime(p, env, clock);
    [ ParamsKeyCheck(p), OptsKeyCheck(p, opts), DomainBinding(m, p), NonceBinding(m, p),
      ExpiryCheck(m, t, env), NotBeforeCheck(m, t, env), PrepareCheck(prepared) ]
  }

  // ---------------------------------------------------------------------------
  // The executor: `fail` settles the promise but does not return

  /** The promise's progress and whether the executor is still running. */
  datatype Executor = Executor(state: Settlement, running: bool)

  /** A promise settles once; later `resolve`/`reject` calls are ignored. */
  function Settle(s: Settlement, v: Settlement): Settlement
  {
    if s.Pending? then v else s
  }

  /** `fail(result)`. With no options, reading `solanaOpts.suppressExceptions`
      throws a `TypeError`, which rejects the promise and ends the executor. */
  function FailStep(ex: Executor, opts: Option<SiwsVerifyOpts>, record: SiwsResponse): Executor
  {
    if opts.None? then Executor(Settle(ex.state, Rejected(Raised(TypeError))), false)
    else if opts.value.suppressExceptions then Executor(Settle(ex.state, Resolved(record)), true)
    else Executor(Settle(ex.state, Rejected(FailureRecord(record))), true)
  }

  /** Runs the checks in order, calling `fail` for each one that fails. */
  function RunChecks(checks: seq<Option<Exception>>, ex: Executor, opts: Option<SiwsVerifyOpts>, data: SiwsMessage)
    : Executor
  {
    if |checks| == 0 || !ex.running then ex
    else
      var next := if checks[0].Some? then FailStep(ex, opts, FailureResponse(checks[0].value, data)) else ex;
      RunChecks(checks[1..], next, opts, data)
  }

  /** The message state once the executor has run: `prepareMessage` stores a
      filled-in `issuedAt` when it succeeds. */
  function After(m: SiwsMessage, prepared: Result<Signable, Exception>): SiwsMessage
  {
    if prepared.Success? then prepared.value.message else m
  }

  /** How a single failure is reported: resolved with the failure record when
      exceptions are suppressed, rejected with it otherwise, and rejected with
      a `TypeError` when no options were passed. */
  function FailureSettlement(e: Exception, opts: Option<SiwsVerifyOpts>, data: SiwsMessage): Settlement
  {
    if opts.None? then Rejected(Raised(TypeError))
    else if opts.value.suppressExceptions then Resolved(FailureResponse(e, data))
    else Rejected(FailureRecord(FailureResponse(e, data)))
  }

  lemma {:induction false} SettledStaysSettled(checks: seq<Option<Exception>>, s: Settlement, opts: Option<SiwsVerifyOpts>, data: SiwsMessage)
    requires !s.Pending? && opts.Some?
    ensures RunChecks(checks, Executor(s, true), opts, data) == Executor(s, true)
    decreases |checks|
  {
    if |checks| > 0 {
      SettledStaysSettled(checks[1..], s, opts, data);
    }
  }

  /** Although `fail` does not return, only the first failing check decides
      the settlement; the executor keeps running unless options are absent. */
  lemma {:induction false} FirstFailureDecides(checks: seq<Option<Exception>>, opts: Option<SiwsVerifyOpts>, data: SiwsMessage)
    ensures var ex := RunChecks(checks, Executor(Pending, true), opts, data);
      match FirstFailure(checks)
      case Pass => ex == Executor(Pending, true)
      case Fail(e) => ex == Executor(FailureSettlement(e, opts, data), opts.Some?)
    decreases |checks|
  {
    if |checks| > 0 {
      if checks[0].None? {
        FirstFailureDecides(checks[1..], opts, data);
      } else if opts.Some? {
        var s := FailureSettlement(checks[0].value, opts, data);
        SettledStaysSettled(checks[1..], s, opts, data);
      }
    }
  }

  /** The settlement as a decision: the first failing check, reported by the
      options' policy; otherwise success exactly when the signature primitive
      returns true on the re-serialised text; otherwise nothing settles. */
  function Decision(m: SiwsMessage, p: VerifyParams, opts: Option<SiwsVerifyOpts>, env: Env, clock: Clock,
                    prepared: Result<Signable, Exception>): Settlement
  {
    var after := After(m, prepared);
    match FirstFailure(VerifyChecks(m, p, opts, env, clock, prepared))
    case Fail(e) => FailureSettlement(e, opts, after)
    case Pass =>
      if prepared.Success? && env.verifySignature(prepared.value.text, p.signature, m.fields.address) == Returned(true)
      then Resolved(SuccessResponse(after))
      else Pending
  }

  /** The executor of `verify`, step by step, given the outcome of its
      `prepareMessage` call. */
  function Execute(m: SiwsMessage, p: VerifyParams, opts: Option<SiwsVerifyOpts>, env: Env, clock: Clock,
                   prepared: Result<Signable, Exception>): (r: VerifyRun)
    ensures r.settlement == Decision(m, p, opts, env, clock, prepared)
    ensures r.message ==
      if opts.None? && FirstFailure(VerifyChecks(m, p, opts, env, clock, prepared)).Fail? then m
      else After(m, prepared)
    ensures r.settlement.Resolved? ==> r.settlement.value.data == r.message
    ensures r.settlement.Rejected? && r.settlement.reason.FailureRecord? ==> r.settlement.reason.record.data == r.message
  {
    var after := After(m, prepared);
    var checks := VerifyChecks(m, p, opts, env, clock, prepared);
    FirstFailureDecides(checks, opts, after);
    var ex := RunChecks(checks, Executor(Pending, true), opts, after);
    if !ex.running then VerifyRun(ex.state, m)
    else if prepared.Success? && env.verifySignature(prepared.value.text, p.signature, m.fields.address) == Returned(true) then
      VerifyRun(Settle(ex.state, Resolved(SuccessResponse(after))), after)
    else VerifyRun(ex.state, after)
  }

  /** `verify(params, opts)`: the settlement is the first-failure decision,
      and the message state differs from the original at most in `issuedAt`. */
  function Verify(m: SiwsMessage, p: VerifyParams, opts: Option<SiwsVerifyOpts>, env: Env, clock: Clock): (r: VerifyRun)
    ensures r.settlement == Decision(m, p, opts, env, clock, PrepareMessage(m, env, clock))
    ensures r.message.fields.(issuedAt := m.fields.issuedAt) == m.fields
  {
    Execute(m, p, opts, env, clock, PrepareMessage(m, env, clock))
  }

  // ---------------------------------------------------------------------------
  // What verify decides, rule by rule

  /** Every key of the parameters object is one `VerifyParams` allows. */
  predicate KeysValid(p: VerifyParams)
  {
    forall i :: 0 <= i < |p.keys| ==> p.keys[i] in VerifyParamsKeys
  }

  /** The parameter rules `verify` enforces before re-serialising: known keys,
      domain and nonce binding, not expired and already valid at the check time. */
  predicate BindingsHold(m: SiwsMessage, p: VerifyParams, env: Env, clock: Clock)
  {
    && KeysValid(p)
    && !(Truthy(p.domain) && p.domain != m.fields.domain)
    && !(Truthy(p.nonce) && p.nonce != m.fields.nonce)
    && !Expired(m, CheckTime(p, env, clock), env)
    && !NotYetValid(m, CheckTime(p, env, clock), env)
  }

  lemma VerifyChecksPassIff(m: SiwsMessage, p: VerifyParams, opts: Option<SiwsVerifyOpts>, env: Env, clock: Clock,
                            prepared: Result<Signable, Exception>)
    ensures FirstFailure(VerifyChecks(m, p, opts, env, clock, prepared)).Pass? <==>
      BindingsHold(m, p, env, clock) && prepared.Success?
  {
    var checks := VerifyChecks(m, p, opts, env, clock, prepared);
    if BindingsHold(m, p, env, clock) && prepared.Success? {
      forall i | 0 <= i < |checks|
        ensures checks[i].None?
      {
        assert checks[i] in checks;
      }
    } else {
      assert exists i :: 0 <= i < |checks| && checks[i].Some? by {
        if checks[0].Some? {} else if checks[2].Some? {} else if checks[3].Some? {}
        else if checks[4].Some? {} else if checks[5].Some? {} else { assert checks[6].Some?; }
      }
    }
  }

  /** Unknown parameter keys are the first failure reported. */
  lemma UnknownParamKeysFailFirst(m: SiwsMessage, p: VerifyParams, opts: Option<SiwsVerifyOpts>, env: Env, clock: Clock,
                                  prepared: Result<Signable, Exception>)
    requires !KeysValid(p)
    ensures Execute(m, p, opts, env, clock, prepared).settlement ==
      FailureSettlement(KeyError(InvalidKeys(p.keys, VerifyParamsKeys), "VerifyParams"), opts, After(m, prepared))
  {
    FirstFailureAt(VerifyChecks(m, p, opts, env, clock, prepared), 0);
  }

  /** With known keys, a truthy `domain` parameter that differs from the
      message's domain is reported as `DOMAIN_MISMATCH`. */
  lemma DomainMismatchRule(m: SiwsMessage, p: VerifyParams, opts: Option<SiwsVerifyOpts>, env: Env, clock: Clock,
                           prepared: Result<Signable, Exception>)
    requires KeysValid(p)
    requires Truthy(p.domain) && p.domain != m.fields.domain
    ensures Execute(m, p, opts, env, clock, prepared).settlement ==
      FailureSettlement(DomainMismatchError(p.domain.value, m), opts, After(m, prepared))
  {
    FirstFailureAt(VerifyChecks(m, p, opts, env, clock, prepared), 2);
  }

  /** With known keys and a matching domain, a truthy `nonce` parameter that
      differs from the message's nonce is reported as `NONCE_MISMATCH`. */
  lemma NonceMismatchRule(m: SiwsMessage, p: VerifyParams, opts: Option<SiwsVerifyOpts>, env: Env, clock: Clock,
                          prepared: Result<Signable, Exception>)
    requires KeysValid(p) && !(Truthy(p.domain) && p.domain != m.fields.domain)
    requires Truthy(p.nonce) && p.nonce != m.fields.nonce
    ensures Execute(m, p, opts, env, clock, prepared).settlement ==
      FailureSettlement(NonceMismatchError(p.nonce.value, m), opts, After(m, prepared))
  {
    FirstFailureAt(VerifyChecks(m, p, opts, env, clock, prepared), 3);
  }

  /** When the bindings hold, a message whose expiration time is at or before
      the check time (`params.time`, else now) is reported as `EXPIRED_MESSAGE`. */
  lemma ExpiryRule(m: SiwsMessage, p: VerifyParams, opts: Option<SiwsVerifyOpts>, env: Env, clock: Clock,
                   prepared: Result<Signable, Exception>)
    requires KeysValid(p) && !(Truthy(p.domain) && p.domain != m.fields.domain)
    requires !(Truthy(p.nonce) && p.nonce != m.fields.nonce)
    requires Expired(m, CheckTime(p, env, clock), env)
    ensures Execute(m, p, opts, env, clock, prepared).settlement ==
      FailureSettlement(
        ExpiredError(CheckTime(p, env, clock).value, FieldInstant(m.fields.expirationTime, env).value, env),
        opts, After(m, prepared))
  {
    FirstFailureAt(VerifyChecks(m, p, opts, env, clock, prepared), 4);
  }

  /** When the bindings hold and the message has not expired, a not-before
      time later than the check time is reported as `NOT_YET_VALID_MESSAGE`. */
  lemma NotBeforeRule(m: SiwsMessage, p: VerifyParams, opts: Option<SiwsVerifyOpts>, env: Env, clock: Clock,
                      prepared: Result<Signable, Exception>)
    requires KeysValid(p) && !(Truthy(p.domain) && p.domain != m.fields.domain)
    requires !(Truthy(p.nonce) && p.nonce != m.fields.nonce)
    requires !Expired(m, CheckTime(p, env, clock), env)
    requires NotYetValid(m, CheckTime(p, env, clock), env)
    ensures Execute(m, p, opts, env, clock, prepared).settlement ==
      FailureSettlement(
        NotYetValidError(CheckTime(p, env, clock).value, FieldInstant(m.fields.notBefore, env).value, env),
        opts, After(m, prepared))
  {
    FirstFailureAt(VerifyChecks(m, p, opts, env, clock, prepared), 5);
  }

  /** When every parameter rule holds, a `prepareMessage` that throws is
      reported with the thrown error. */
  lemma PrepareFailureRule(m: SiwsMessage, p: VerifyParams, opts: Option<SiwsVerifyOpts>, env: Env, clock: Clock,
                           prepared: Result<Signable, Exception>)
    requires BindingsHold(m, p, env, clock) && prepared.Failure?
    ensures Execute(m, p, opts, env, clock, prepared).settlement == FailureSettlement(prepared.error, opts, m)
  {
    FirstFailureAt(VerifyChecks(m, p, opts, env, clock, prepared), 6);
  }

  /** Within `verify`, a message that fails validation is reported with
      validation's own first error once the parameter rules hold. */
  lemma InvalidMessageRule(m: SiwsMessage, p: VerifyParams, opts: Option<SiwsVerifyOpts>, env: Env, clock: Clock)
    requires BindingsHold(m, p, env, clock)
    requires Validate(m, 0, env).Fail?
    ensures Verify(m, p, opts, env, clock).settlement == FailureSettlement(Validate(m, 0, env).error, opts, m)
  {
    PrepareFailureRule(m, p, opts, env, clock, PrepareMessage(m, env, clock));
  }

  /** Where a reported mismatch, expiry or not-yet-valid error can come from:
      its own rule, or an error `prepareMessage` threw. */
  lemma ExecuteErrorOrigin(m: SiwsMessage, p: VerifyParams, opts: Option<SiwsVerifyOpts>, env: Env, clock: Clock,
                           prepared: Result<Signable, Exception>)
    ensures var e := ErrorOf(Execute(m, p, opts, env, clock, prepared).settlement);
      e.Some? ==>
        || (prepared.Failure? && e.value == prepared.error)
        || (KindOf(e.value) == Some(DomainMismatch) && Truthy(p.domain) && p.domain != m.fields.domain)
        || (KindOf(e.value) == Some(NonceMismatch) && Truthy(p.nonce) && p.nonce != m.fields.nonce)
        || (KindOf(e.value) == Some(ExpiredMessage) && Expired(m, CheckTime(p, env, clock), env))
        || (KindOf(e.value) == Some(NotYetValidMessage) && NotYetValid(m, CheckTime(p, env, clock), env))
        || KindOf(e.value).None?
  {
    var checks := VerifyChecks(m, p, opts, env, clock, prepared);
    var first := FirstFailure(checks);
    var e := ErrorOf(Execute(m, p, opts, env, clock, prepared).settlement);
    if e.Some? {
      assert first.Fail? && e.value == first.error;
      assert Some(first.error) in checks;
    }
  }

  /** The converse of the rules: a reported mismatch, expiry or not-yet-valid
      error comes from its own rule and from nowhere else, since validation
      never reports those kinds. */
  lemma ErrorKindsHaveOneOrigin(m: SiwsMessage, p: VerifyParams, opts: Option<SiwsVerifyOpts>, env: Env, clock: Clock)
    ensures var e := ErrorOf(Verify(m, p, opts, env, clock).settlement);
      && (e.Some? && KindOf(e.value) == Some(DomainMismatch) ==> Truthy(p.domain) && p.domain != m.fields.domain)
      && (e.Some? && KindOf(e.value) == Some(NonceMismatch) ==> Truthy(p.nonce) && p.nonce != m.fields.nonce)
      && (e.Some? && KindOf(e.value) == Some(ExpiredMessage) ==> Expired(m, CheckTime(p, env, clock), env))
      && (e.Some? && KindOf(e.value) == Some(NotYetValidMessage) ==> NotYetValid(m, CheckTime(p, env, clock), env))
  {
    var prepared := PrepareMessage(m, env, clock);
    ExecuteErrorOrigin(m, p, opts, env, clock, prepared);
    ValidationErrorKinds(m, 0, env);
  }

  /** The executor resolves with `success: true` exactly when every parameter
      rule holds, `prepareMessage` returned, and the signature primitive
      returns true on its text. */
  lemma ExecuteSuccessIff(m: SiwsMessage, p: VerifyParams, opts: Option<SiwsVerifyOpts>, env: Env, clock: Clock,
                          prepared: Result<Signable, Exception>)
    ensures var s := Execute(m, p, opts, env, clock, prepared).settlement;
      (s.Resolved? && s.value.success) <==>
        && BindingsHold(m, p, env, clock)
        && prepared.Success?
        && env.verifySignature(prepared.value.text, p.signature, m.fields.address) == Returned(true)
  {
    VerifyChecksPassIff(m, p, opts, env, clock, prepared);
  }

  /** `verify` resolves with `success: true` exactly when every parameter rule
      and every field rule holds and the signature primitive returns true on
      the canonical text of the message. */
  lemma SuccessIff(m: SiwsMessage, p: VerifyParams, opts: Option<SiwsVerifyOpts>, env: Env, clock: Clock)
    ensures var s := Verify(m, p, opts, env, clock).settlement;
      (s.Resolved? && s.value.success) <==>
        && BindingsHold(m, p, env, clock)
        && FieldsValid(m.fields, 0, env)
        && env.verifySignature(ToMessage(m, env, clock).value.text, p.signature, m.fields.address) == Returned(true)
  {
    ExecuteSuccessIff(m, p, opts, env, clock, PrepareMessage(m, env, clock));
  }

  /** With suppressed exceptions nothing is ever rejected; without, a
      resolution always means success. */
  lemma SettlementPolicy(m: SiwsMessage, p: VerifyParams, opts: Option<SiwsVerifyOpts>, env: Env, clock: Clock,
                         prepared: Result<Signable, Exception>)
    ensures var s := Execute(m, p, opts, env, clock, prepared).settlement;
      && (opts.Some? && opts.value.suppressExceptions ==> !s.Rejected?)
      && (opts.Some? && !opts.value.suppressExceptions && s.Resolved? ==> s.value.success)
  {
  }

  // ---------------------------------------------------------------------------
  // Behaviour of the code as written that it evidently does not intend

  /** A message and parameters that pass every rule but carry a signature the
      primitive rejects (or throws on) leave the promise pending forever. */
  lemma BadSignatureLeavesPending(m: SiwsMessage, p: VerifyParams, opts: Option<SiwsVerifyOpts>, env: Env, clock: Clock)
    requires BindingsHold(m, p, env, clock) && FieldsValid(m.fields, 0, env)
    requires env.verifySignature(ToMessage(m, env, clock).value.text, p.signature, m.fields.address) != Returned(true)
    ensures Verify(m, p, opts, env, clock).settlement == Pending
  {
    VerifyChecksPassIff(m, p, opts, env, clock, PrepareMessage(m, env, clock));
  }

  lemma ExecuteMissingOpts(m: SiwsMessage, p: VerifyParams, env: Env, clock: Clock, prepared: Result<Signable, Exception>)
    requires !(BindingsHold(m, p, env, clock) && prepared.Success?)
    ensures Execute(m, p, None, env, clock, prepared) == VerifyRun(Rejected(Raised(TypeError)), m)
  {
    VerifyChecksPassIff(m, p, None, env, clock, prepared);
    FirstFailureDecides(VerifyChecks(m, p, None, env, clock, prepared), None, After(m, prepared));
  }

  /** Without options any failure rejects with a `TypeError` rather than the
      failure record, and the executor stops before `prepareMessage` stores
      anything, so the message keeps its original state. */
  lemma MissingOptsRaisesTypeError(m: SiwsMessage, p: VerifyParams, env: Env, clock: Clock)
    requires !(BindingsHold(m, p, env, clock) && FieldsValid(m.fields, 0, env))
    ensures Verify(m, p, None, env, clock) == VerifyRun(Rejected(Raised(TypeError)), m)
  {
    ExecuteMissingOpts(m, p, env, clock, PrepareMessage(m, env, clock));
  }

  /** The option keys never influence the outcome: the option-key check tests
      the parameter keys, and whenever it fires the parameter-key check has
      already settled the promise. */
  lemma OptsKeysNeverDecide(m: SiwsMessage, p: VerifyParams, o: SiwsVerifyOpts, keys: seq<string>, env: Env, clock: Clock,
                            prepared: Result<Signable, Exception>)
    ensures Execute(m, p, Some(o), env, clock, prepared) == Execute(m, p, Some(o.(keys := keys)), env, clock, prepared)
  {
    var c1 := VerifyChecks(m, p, Some(o), env, clock, prepared);
    var c2 := VerifyChecks(m, p, Some(o.(keys := keys)), env, clock, prepared);
    if c1[0].Some? {
      FirstFailureAt(c1, 0);
      FirstFailureAt(c2, 0);
    } else {
      assert c1 == c2;
    }
    if FirstFailure(c1).Fail? {
      assert FailureSettlement(FirstFailure(c1).error, Some(o), After(m, prepared)) ==
        FailureSettlement(FirstFailure(c1).error, Some(o.(keys := keys)), After(m, prepared));
    }
  }
}
