/** The behaviour the SIWS message code evidently intends where the code as
    written departs from it: a domain guard that rejects '#' and '?', a nonce
    guard that always reports `INVALID_NONCE`, and a `verify` that checks the
    option keys, reports failures without options as failure records, and
    always settles after a failed signature check (through the fallback when
    one is configured, with `INVALID_SIGNATURE` otherwise). */
module SiwsCorrected {
  import opened Wrappers
  import opened JsText
  import opened Errors
  import opened Utils
  import opened Blockchain
  import opened Siws
  import opened SiwsVerify

  // ---------------------------------------------------------------------------
  // Validation

  /** The domain guard as intended: a non-empty domain free of '#' and '?'. */
  function DomainCheckIntended(domain: Option<string>): (r: Option<Exception>)
    ensures r.None? <==> Truthy(domain) && FreeOfHashAndQuery(domain.value)
    ensures r.Some? ==> r.value == DomainError(domain)
  {
    if Truthy(domain) && FreeOfHashAndQuery(domain.value) then None else Some(DomainError(domain))
  }

  /** The `INVALID_NONCE` error for any nonce, present or not. */
  function NonceErrorIntended(nonce: Option<string>): Exception
  {
    BaseError(Kind(InvalidNonce), Some("Length > 8 (1). Alphanumeric."), nonce)
  }

  /** The nonce guard as intended: every malformed nonce is `INVALID_NONCE`. */
  function NonceCheckIntended(nonce: Option<string>): (r: Option<Exception>)
    ensures r.None? <==> WellFormedNonce(nonce)
    ensures r.Some? ==> KindOf(r.value) == Some(InvalidNonce)
  {
    if WellFormedNonce(nonce) then None else Some(NonceErrorIntended(nonce))
  }

  function ValidationChecksIntended(m: SiwsMessage, argCount: nat, env: Env): seq<Option<Exception>>
  {
    var f := m.fields;
    [ ArgsCheck(argCount), DomainCheckIntended(f.domain), AddressCheck(f, env), UriCheck(f.uri, env),
      VersionCheck(f.version), NonceCheckIntended(f.nonce), TimeFormatCheck(f.issuedAt, env),
      TimeFormatCheck(f.expirationTime, env), TimeFormatCheck(f.notBefore, env) ]
  }

  /** The field rules as intended: those enforced as written, plus a domain
      free of '#' and '?'. */
  predicate FieldsValidIntended(f: MessageParams, argCount: nat, env: Env)
  {
    FieldsValid(f, argCount, env) && FreeOfHashAndQuery(f.domain.value)
  }

  function ValidateIntended(m: SiwsMessage, argCount: nat, env: Env): (r: Outcome<Exception>)
    ensures r.Pass? <==> FieldsValidIntended(m.fields, argCount, env)
    ensures r.Fail? ==> r.error != TypeError
  {
    ChecksPassIffIntended(m, argCount, env);
    ChecksNeverTypeError(m, argCount, env);
    FirstFailure(ValidationChecksIntended(m, argCount, env))
  }

  lemma ChecksNeverTypeError(m: SiwsMessage, argCount: nat, env: Env)
    ensures var r := FirstFailure(ValidationChecksIntended(m, argCount, env));
      r.Fail? ==> r.error != TypeError
  {
    var checks := ValidationChecksIntended(m, argCount, env);
    var r := FirstFailure(checks);
    if r.Fail? {
      assert Some(r.error) in checks;
    }
  }

  lemma ChecksPassIffIntended(m: SiwsMessage, argCount: nat, env: Env)
    ensures var checks := ValidationChecksIntended(m, argCount, env);
      |checks| == 9 &&
      (FieldsValidIntended(m.fields, argCount, env) <==> forall i :: 0 <= i < |checks| ==> checks[i].None?)
  {
    var checks := ValidationChecksIntended(m, argCount, env);
    if FieldsValidIntended(m.fields, argCount, env) {
      forall i | 0 <= i < |checks|
        ensures checks[i].None?
      {
        assert checks[i] in checks;
      }
    } else {
      assert exists i :: 0 <= i < |checks| && checks[i].Some? by {
        if checks[0].Some? {} else if checks[1].Some? {} else if checks[2].Some? {}
        else if checks[3].Some? {} else if checks[4].Some? {} else if checks[5].Some? {}
        else if checks[6].Some? {} else if checks[7].Some? {} else { assert checks[8].Some?; }
      }
    }
  }

  /** With no argument, `INVALID_DOMAIN` is reported exactly when the domain
      is absent, empty, or holds '#' or '?'. */
  lemma DomainRuleIntended(m: SiwsMessage, env: Env)
    ensures var r := ValidateIntended(m, 0, env);
      (r.Fail? && KindOf(r.error) == Some(InvalidDomain)) <==>
        !(Truthy(m.fields.domain) && FreeOfHashAndQuery(m.fields.domain.value))
  {
    var checks := ValidationChecksIntended(m, 0, env);
    var r := ValidateIntended(m, 0, env);
    if !(Truthy(m.fields.domain) && FreeOfHashAndQuery(m.fields.domain.value)) {
      FirstFailureAt(checks, 1);
    }
    if r.Fail? && KindOf(r.error) == Some(InvalidDomain) {
      assert Some(r.error) in checks;
    }
  }

  /** When every earlier guard passes, a malformed nonce is reported as
      `INVALID_NONCE` carrying the nonce, never as a `TypeError`. */
  lemma NonceRuleIntended(m: SiwsMessage, env: Env)
    requires Truthy(m.fields.domain) && FreeOfHashAndQuery(m.fields.domain.value)
    requires AddressValid(m.fields, env) && UriValid(m.fields.uri, env) && m.fields.version == "1"
    requires !WellFormedNonce(m.fields.nonce)
    ensures ValidateIntended(m, 0, env) == Fail(NonceErrorIntended(m.fields.nonce))
  {
    FirstFailureAt(ValidationChecksIntended(m, 0, env), 5);
  }

  /** The intended guard agrees with the written one wherever the written one
      neither lets a '#'/'?' domain through nor throws a `TypeError`. */
  lemma ValidateAgrees(m: SiwsMessage, argCount: nat, env: Env)
    requires !Truthy(m.fields.domain) || FreeOfHashAndQuery(m.fields.domain.value)
    requires NonceCheck(m.fields.nonce) != Some(TypeError)
    ensures ValidateIntended(m, argCount, env) == Validate(m, argCount, env)
  {
    assert ValidationChecksIntended(m, argCount, env) == ValidationChecks(m, argCount, env);
  }

  /** `toMessage` with the intended validation in front of the same serialiser. */
  function ToMessageIntended(m: SiwsMessage, env: Env, clock: Clock): (r: Result<Signable, Exception>)
    ensures r.Success? <==> FieldsValidIntended(m.fields, 0, env)
    ensures r.Failure? ==> r.error == ValidateIntended(m, 0, env).error
    ensures r.Success? ==> r == ToMessage(m, env, clock)
  {
    match ValidateIntended(m, 0, env)
    case Fail(e) => Failure(e)
    case Pass => Success(Serialize(m, clock))
  }

  // ---------------------------------------------------------------------------
  // Verification

  /** The option-key check as intended: it tests the option keys. */
  function OptsKeyCheckIntended(opts: Option<SiwsVerifyOpts>): (r: Option<Exception>)
    ensures r.Some? <==> opts.Some? && exists i :: 0 <= i < |opts.value.keys| && opts.value.keys[i] !in VerifyOptsKeys()
  {
    if opts.Some? then
      InvalidKeysEmptyIff(opts.value.keys, VerifyOptsKeys());
      var invalidOpts := InvalidKeys(opts.value.keys, VerifyOptsKeys());
      if |invalidOpts| > 0 then Some(KeyError(invalidOpts, "VerifyOpts")) else None
    else None
  }

  function VerifyChecksIntended(m: SiwsMessage, p: VerifyParams, opts: Option<SiwsVerifyOpts>, env: Env, clock: Clock,
                                prepared: Result<Signable, Exception>)
    : seq<Option<Exception>>
  {
    var t := CheckTime(p, env, clock);
    [ ParamsKeyCheck(p), OptsKeyCheckIntended(opts), DomainBinding(m, p), NonceBinding(m, p),
      ExpiryCheck(m, t, env), NotBeforeCheck(m, t, env), PrepareCheck(prepared) ]
  }

  /** A failure reported by the options' policy, with absent options meaning
      that exceptions are not suppressed. */
  function ReportIntended(e: Exception, opts: Option<SiwsVerifyOpts>, data: SiwsMessage): Settlement
  {
    if opts.Some? && opts.value.suppressExceptions then Resolved(FailureResponse(e, data))
    else Rejected(FailureRecord(FailureResponse(e, data)))
  }

  function SignatureError(m: SiwsMessage, p: VerifyParams): Exception
  {
    SiwsError(InvalidSignature, Some(m.fields.address), p.signature)
  }

  /** `verify` as intended: the first failing check is reported; otherwise a
      signature the primitive accepts succeeds; otherwise the configured
      fallback's outcome is the result; otherwise `INVALID_SIGNATURE`. */
  function VerifyIntendedWith(m: SiwsMessage, p: VerifyParams, opts: Option<SiwsVerifyOpts>, env: Env, clock: Clock,
                              prepared: Result<Signable, Exception>): Settlement
  {
    var after := After(m, prepared);
    match FirstFailure(VerifyChecksIntended(m, p, opts, env, clock, prepared))
    case Fail(e) => ReportIntended(e, opts, after)
    case Pass =>
      if prepared.Success? && env.verifySignature(prepared.value.text, p.signature, m.fields.address) == Returned(true)
      then Resolved(SuccessResponse(after))
      else if opts.Some? && opts.value.verificationFallback.Some? then opts.value.verificationFallback.value
      else ReportIntended(SignatureError(m, p), opts, after)
  }

  function VerifyIntended(m: SiwsMessage, p: VerifyParams, opts: Option<SiwsVerifyOpts>, env: Env, clock: Clock)
    : (r: Settlement)
    ensures r.Pending? ==> opts.Some? && opts.value.verificationFallback == Some(Pending)
    ensures r.Rejected? ==> r.reason.FailureRecord? || (opts.Some? && opts.value.verificationFallback == Some(r))
  {
    VerifyIntendedWith(m, p, opts, env, clock, ToMessageIntended(m, env, clock))
  }

  /** With every check passed and the primitive not returning true, a
      configured fallback decides the outcome, and without one the result is
      an `INVALID_SIGNATURE` failure reported by the options' policy. */
  lemma FallbackPrecedence(m: SiwsMessage, p: VerifyParams, opts: Option<SiwsVerifyOpts>, env: Env, clock: Clock)
    requires BindingsHold(m, p, env, clock) && FieldsValidIntended(m.fields, 0, env)
    requires (opts.Some? ==> forall i :: 0 <= i < |opts.value.keys| ==> opts.value.keys[i] in VerifyOptsKeys())
    requires env.verifySignature(ToMessage(m, env, clock).value.text, p.signature, m.fields.address) != Returned(true)
    ensures opts.Some? && opts.value.verificationFallback.Some? ==>
      VerifyIntended(m, p, opts, env, clock) == opts.value.verificationFallback.value
    ensures !(opts.Some? && opts.value.verificationFallback.Some?) ==>
      VerifyIntended(m, p, opts, env, clock) ==
        ReportIntended(SignatureError(m, p), opts, ToMessage(m, env, clock).value.message)
  {
    var prepared := ToMessageIntended(m, env, clock);
    var checks := VerifyChecksIntended(m, p, opts, env, clock, prepared);
    forall i | 0 <= i < |checks|
      ensures checks[i].None?
    {
      assert checks[i] in checks;
    }
  }

  /** Without options every failure is rejected with its failure record; in
      particular unknown parameter keys are. */
  lemma MissingOptsRejectsWithRecord(m: SiwsMessage, p: VerifyParams, env: Env, clock: Clock)
    ensures var prepared := ToMessageIntended(m, env, clock);
      var first := FirstFailure(VerifyChecksIntended(m, p, None, env, clock, prepared));
      first.Fail? ==>
        VerifyIntended(m, p, None, env, clock) == Rejected(FailureRecord(FailureResponse(first.error, After(m, prepared))))
    ensures !KeysValid(p) ==>
      VerifyIntended(m, p, None, env, clock) ==
        Rejected(FailureRecord(FailureResponse(KeyError(InvalidKeys(p.keys, VerifyParamsKeys), "VerifyParams"),
                                               After(m, ToMessageIntended(m, env, clock)))))
  {
    if !KeysValid(p) {
      FirstFailureAt(VerifyChecksIntended(m, p, None, env, clock, ToMessageIntended(m, env, clock)), 0);
    }
  }

  /** Unknown option keys are reported, right after unknown parameter keys. */
  lemma UnknownOptKeysReported(m: SiwsMessage, p: VerifyParams, o: SiwsVerifyOpts, env: Env, clock: Clock)
    requires KeysValid(p)
    requires exists i :: 0 <= i < |o.keys| && o.keys[i] !in VerifyOptsKeys()
    ensures VerifyIntended(m, p, Some(o), env, clock) ==
      ReportIntended(KeyError(InvalidKeys(o.keys, VerifyOptsKeys()), "VerifyOpts"), Some(o),
                     After(m, ToMessageIntended(m, env, clock)))
  {
    FirstFailureAt(VerifyChecksIntended(m, p, Some(o), env, clock, ToMessageIntended(m, env, clock)), 1);
  }

  /** Where the written executor settles, the intended one settles the same
      way, provided that a run without options resolves (so no `TypeError` is
      raised) and that, once the parameter keys are known, the option keys
      are too (so the written option-key check is not at fault). */
  lemma ExecuteAgreesWhereSettled(m: SiwsMessage, p: VerifyParams, opts: Option<SiwsVerifyOpts>, env: Env, clock: Clock,
                                  prepared: Result<Signable, Exception>)
    requires opts.None? ==> Execute(m, p, opts, env, clock, prepared).settlement.Resolved?
    requires KeysValid(p) && opts.Some? ==> forall i :: 0 <= i < |opts.value.keys| ==> opts.value.keys[i] in VerifyOptsKeys()
    requires !Execute(m, p, opts, env, clock, prepared).settlement.Pending?
    ensures VerifyIntendedWith(m, p, opts, env, clock, prepared) == Execute(m, p, opts, env, clock, prepared).settlement
  {
    var c1 := VerifyChecksIntended(m, p, opts, env, clock, prepared);
    var c2 := VerifyChecks(m, p, opts, env, clock, prepared);
    InvalidKeysEmptyIff(p.keys, VerifyParamsKeys);
    if opts.Some? {
      InvalidKeysEmptyIff(opts.value.keys, VerifyOptsKeys());
    }
    if c2[0].Some? && opts.Some? {
      FirstFailureAt(c1, 0);
      FirstFailureAt(c2, 0);
    } else {
      assert c1 == c2;
    }
  }

  /** Wherever the written `verify` settles, the intended `verify` settles the
      same way, provided that the written domain and nonce guards judge the
      message correctly, that a run without options resolves, and that the
      option keys are known once the parameter keys are. */
  lemma VerifyAgreesWhereSettled(m: SiwsMessage, p: VerifyParams, opts: Option<SiwsVerifyOpts>, env: Env, clock: Clock)
    requires !Truthy(m.fields.domain) || FreeOfHashAndQuery(m.fields.domain.value)
    requires NonceCheck(m.fields.nonce) != Some(TypeError)
    requires opts.None? ==> Verify(m, p, opts, env, clock).settlement.Resolved?
    requires KeysValid(p) && opts.Some? ==> forall i :: 0 <= i < |opts.value.keys| ==> opts.value.keys[i] in VerifyOptsKeys()
    requires !Verify(m, p, opts, env, clock).settlement.Pending?
    ensures VerifyIntended(m, p, opts, env, clock) == Verify(m, p, opts, env, clock).settlement
  {
    ValidateAgrees(m, 0, env);
    var prepared := PrepareMessage(m, env, clock);
    assert ToMessageIntended(m, env, clock) == prepared;
    ExecuteAgreesWhereSettled(m, p, opts, env, clock, prepared);
  }
}
