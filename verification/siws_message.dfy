/** src/sol/SiwsMessage.ts, construction and text: the Solana message record,
    `validateMessage`, `toMessage` and `prepareMessage`. */
module Siws {
  import opened Wrappers
  import opened JsText
  import opened Errors
  import opened Utils
  import opened Blockchain

  /** What `uri-js` reports for a URI: its scheme and host components. */
  datatype UriComponents = UriComponents(scheme: Option<string>, host: Option<string>)

  /** What `verifySolanaMessage` does: return a boolean or throw. */
  datatype SigOutcome = Returned(valid: bool) | Threw

  /** The foreign capabilities the message code calls, none of which is
      modelled here: address parsing, URI parsing, `isValidISO8601Date`,
      `new Date(s).getTime()` (`None` for an invalid date), `toISOString`, and
      the ed25519 check `verifySolanaMessage(text, signature, address)`. */
  datatype Env = Env(
    keys: KeyOracle,
    parseUri: string -> UriComponents,
    isValidIso8601: string -> bool,
    parseDate: string -> Option<int>,
    toIsoString: int -> string,
    verifySignature: (string, Option<string>, string) -> SigOutcome)

  /** The clock and the nonce generator: the current instant in milliseconds,
      `new Date().toISOString()` at serialisation, and what `generateNonce()`
      would return. */
  datatype Clock = Clock(nowMillis: int, nowIso: string, freshNonce: string)

  /** A `SiwsMessage` object. Its constructor is `Object.assign(this, params)`,
      so it holds the given record as is, with no validation. */
  datatype SiwsMessage = SiwsMessage(fields: MessageParams)

  /** The signable text together with the message state after producing it
      (`toMessage` may store a filled-in `issuedAt`). */
  datatype Signable = Signable(text: string, message: SiwsMessage)

  // ---------------------------------------------------------------------------
  // validateMessage: nine guard checks, the first that throws wins

  const UnexpectedArgument := "Unexpected argument in the validateMessage function."

  function ArgsCheck(argCount: nat): (r: Option<Exception>)
    ensures r.Some? <==> argCount > 0
    ensures r.Some? ==> KindOf(r.value) == Some(UnableToParse)
  {
    if argCount > 0 then Some(BaseError(Kind(UnableToParse), Some(UnexpectedArgument), None))
    else None
  }

  predicate FreeOfHashAndQuery(s: string)
  {
    forall i :: 0 <= i < |s| ==> s[i] != '#' && s[i] != '?'
  }

  // The regular-expression test `[^#?]*` on s: some substring of s, possibly
  // empty, is free of '#' and '?' (the pattern is neither anchored nor
  // required to be non-empty).
  predicate DomainPatternTest(s: string)
  {
    exists i, j :: 0 <= i <= j <= |s| && FreeOfHashAndQuery(s[i..j])
  }

  /** The empty match at position 0 always succeeds. */
  lemma DomainPatternAlwaysMatches(s: string)
    ensures DomainPatternTest(s)
  {
    assert FreeOfHashAndQuery(s[0..0]);
  }

  function DomainError(domain: Option<string>): Exception
  {
    BaseError(Kind(InvalidDomain), Some(Interpolate(domain) + " to be a valid domain."), None)
  }

  /** The domain guard as written: it rejects only an absent or empty domain. */
  function DomainCheck(domain: Option<string>): (r: Option<Exception>)
    ensures r.Some? <==> !Truthy(domain)
    ensures r.Some? ==> r.value == DomainError(domain)
  {
    if !Truthy(domain) then Some(DomainError(domain))
    else
      DomainPatternAlwaysMatches(domain.value);
      if |domain.value| == 0 || !DomainPatternTest(domain.value) then Some(DomainError(domain)) else None
  }

  /** A domain holding '#' and '?' passes the guard. */
  lemma DomainWithHashAccepted()
    ensures DomainCheck(Some("example.com#frag?q")) == None
  {
  }

  /** `${this.allowOffCurve}`. */
  function FlagText(b: Option<bool>): string
  {
    match b
    case None => "undefined"
    case Some(true) => "true"
    case Some(false) => "false"
  }

  predicate AddressValid(f: MessageParams, env: Env)
  {
    IsSolanaAddress(f.address, f.allowOffCurve.GetOr(false), env.keys)
  }

  function AddressCheck(f: MessageParams, env: Env): (r: Option<Exception>)
    ensures r.Some? <==> !AddressValid(f, env)
  {
    if !IsSolanaAddress(f.address, f.allowOffCurve.GetOr(false), env.keys) then
      var tag := Text(SiwsErrorType(InvalidAddress) + " allow off curve address: " + FlagText(f.allowOffCurve));
      Some(BaseError(tag, Some(f.address), Some(f.address)))
    else None
  }

  predicate UriValid(uri: string, env: Env)
  {
    Truthy(env.parseUri(uri).scheme) && Truthy(env.parseUri(uri).host)
  }

  function UriCheck(uri: string, env: Env): (r: Option<Exception>)
    ensures r.Some? <==> !UriValid(uri, env)
    ensures r.Some? ==> KindOf(r.value) == Some(InvalidUri)
  {
    var parsed := env.parseUri(uri);
    if !(Truthy(parsed.scheme) && Truthy(parsed.host)) then
      Some(BaseError(Kind(InvalidUri), Some(uri + " to be a valid uri."), None))
    else None
  }

  function VersionCheck(version: string): (r: Option<Exception>)
    ensures r.Some? <==> version != "1"
    ensures r.Some? ==> KindOf(r.value) == Some(InvalidMessageVersion) && r.value.error.received == Some(version)
  {
    if version != "1" then Some(BaseError(Kind(InvalidMessageVersion), Some("1"), Some(version))) else None
  }

  /** The nonce the format asks for: eight or more ASCII letters and digits. */
  predicate WellFormedNonce(nonce: Option<string>)
  {
    nonce.Some? && |nonce.value| >= 8 && AllAlnum(nonce.value)
  }

  /** Somewhere in `s` there are eight consecutive letters or digits. */
  predicate HasAlnumRun8(s: string)
  {
    exists j :: 0 <= j <= |s| && AlnumRunFrom(s, j) >= 8
  }

  /** The error object the nonce guard means to throw. The `expected` text
      interpolates the length of the match array, which is always 1. */
  function InvalidNonceError(nonce: string): Exception
  {
    BaseError(Kind(InvalidNonce), Some("Length > 8 (1). Alphanumeric."), Some(nonce))
  }

  /** The nonce guard as written. Building the error reads `.length` of the
      match result, so when the pattern finds no run of eight alphanumerics
      (or the nonce is absent) a `TypeError` is thrown instead. */
  function NonceCheck(nonce: Option<string>): (r: Option<Exception>)
    ensures r.None? <==> WellFormedNonce(nonce)
    ensures r == Some(TypeError) <==> (nonce.None? || !HasAlnumRun8(nonce.value))
    ensures r.Some? && r != Some(TypeError) ==> r == Some(InvalidNonceError(nonce.value))
  {
    if nonce.None? then Some(TypeError)
    else
      var s := nonce.value;
      var found := MatchAlnumRun8(s);
      MatchIsWholeIff(s);
      if found.None? then Some(TypeError)
      else if |s| < 8 || s[found.value.start..found.value.end] != s then Some(InvalidNonceError(s))
      else None
  }

  /** A nonce with no run of eight alphanumerics fails with a `TypeError`. */
  lemma ShortNonceRaisesTypeError()
    ensures NonceCheck(Some("abc")) == Some(TypeError)
  {
  }

  predicate TimeFieldValid(t: Option<string>, env: Env)
  {
    !Truthy(t) || env.isValidIso8601(t.value)
  }

  function TimeFormatCheck(t: Option<string>, env: Env): (r: Option<Exception>)
    ensures r.Some? <==> !TimeFieldValid(t, env)
    ensures r.Some? ==> r.value == PlainError(SiwsErrorType(InvalidTimeFormat))
  {
    if Truthy(t) && !env.isValidIso8601(t.value) then Some(PlainError(SiwsErrorType(InvalidTimeFormat)))
    else None
  }

  /** The guards in the order `validateMessage` runs them. */
  function ValidationChecks(m: SiwsMessage, argCount: nat, env: Env): seq<Option<Exception>>
  {
    var f := m.fields;
    [ ArgsCheck(argCount), DomainCheck(f.domain), AddressCheck(f, env), UriCheck(f.uri, env),
      VersionCheck(f.version), NonceCheck(f.nonce), TimeFormatCheck(f.issuedAt, env),
      TimeFormatCheck(f.expirationTime, env), TimeFormatCheck(f.notBefore, env) ]
  }

  /** Every field rule `validateMessage` enforces, stated directly. */
  predicate FieldsValid(f: MessageParams, argCount: nat, env: Env)
  {
    && argCount == 0
    && Truthy(f.domain)
    && AddressValid(f, env)
    && UriValid(f.uri, env)
    && f.version == "1"
    && WellFormedNonce(f.nonce)
    && TimeFieldValid(f.issuedAt, env)
    && TimeFieldValid(f.expirationTime, env)
    && TimeFieldValid(f.notBefore, env)
  }

  /** `validateMessage(...args)`. */
  function Validate(m: SiwsMessage, argCount: nat, env: Env): (r: Outcome<Exception>)
    ensures r.Pass? <==> FieldsValid(m.fields, argCount, env)
    ensures r.Fail? ==>
      exists i :: 0 <= i < 9 && ValidationChecks(m, argCount, env)[i] == Some(r.error) &&
        forall j :: 0 <= j < i ==> ValidationChecks(m, argCount, env)[j].None?
  {
    ChecksPassIff(m, argCount, env);
    FirstFailure(ValidationChecks(m, argCount, env))
  }

  lemma ChecksPassIff(m: SiwsMessage, argCount: nat, env: Env)
    ensures var checks := ValidationChecks(m, argCount, env);
      |checks| == 9 &&
      (FieldsValid(m.fields, argCount, env) <==> forall i :: 0 <= i < |checks| ==> checks[i].None?)
  {
    var checks := ValidationChecks(m, argCount, env);
    if FieldsValid(m.fields, argCount, env) {
      forall i | 0 <= i < |checks|
        ensures checks[i].None?
      {
        assert checks[i] in checks;
      }
    } else {
      assert exists i :: 0 <= i < |checks| && checks[i].Some? by {
        if checks[0].Some? {} else if checks[1].Some? {} else if checks[2].Some? {}
        else if checks[3].Some? {} else if checks[4].Some? {} else if checks[5].Some? {}
        else if checks[6].Some? {} else if checks[7].Some? {} else { assert checks[8].Some?; }
      }
    }
  }

  /** `InvalidDomain` is what validation reports exactly when no argument was
      passed and the domain is absent or empty; any other domain passes the
      domain guard, whatever it contains. */
  lemma ValidateDomainRule(m: SiwsMessage, env: Env)
    ensures !Truthy(m.fields.domain) ==> Validate(m, 0, env) == Fail(DomainError(m.fields.domain))
    ensures Validate(m, 0, env).Fail? && KindOf(Validate(m, 0, env).error) == Some(InvalidDomain) ==>
      !Truthy(m.fields.domain)
  {
    var checks := ValidationChecks(m, 0, env);
    if !Truthy(m.fields.domain) {
      FirstFailureAt(checks, 1);
    }
    var r := Validate(m, 0, env);
    if r.Fail? && KindOf(r.error) == Some(InvalidDomain) {
      assert Some(r.error) in checks;
    }
  }

  /** Validation only ever reports a malformed field: its structured errors
      are of the parse, domain, URI, version and nonce kinds (the address and
      time errors carry a free text or are plain errors), and none of them is
      an instance of `SiwsError`. Apart from the time-format `Error` and the
      nonce guard's `TypeError`, every error is a `BlockchainError`. */
  lemma ValidationErrorKinds(m: SiwsMessage, argCount: nat, env: Env)
    ensures var r := Validate(m, argCount, env);
      r.Fail? ==>
        (KindOf(r.error).None? ||
         KindOf(r.error).value in {UnableToParse, InvalidDomain, InvalidUri, InvalidMessageVersion, InvalidNonce})
    ensures var r := Validate(m, argCount, env);
      r.Fail? ==> !IsSiwsError(r.error)
    ensures var r := Validate(m, argCount, env);
      r.Fail? ==>
        (IsBlockchainError(r.error) || r.error == PlainError(SiwsErrorType(InvalidTimeFormat)) || r.error == TypeError)
  {
    var checks := ValidationChecks(m, argCount, env);
    var r := Validate(m, argCount, env);
    if r.Fail? {
      assert Some(r.error) in checks;
    }
  }

  /** When every earlier guard passes, the nonce guard decides: a well-formed
      nonce passes, anything else throws `INVALID_NONCE` or a `TypeError`. */
  lemma ValidateNonceRule(m: SiwsMessage, env: Env)
    requires Truthy(m.fields.domain) && AddressValid(m.fields, env) && UriValid(m.fields.uri, env)
    requires m.fields.version == "1"
    requires !WellFormedNonce(m.fields.nonce)
    ensures Validate(m, 0, env) == Fail(NonceCheck(m.fields.nonce).value)
  {
    FirstFailureAt(ValidationChecks(m, 0, env), 5);
  }

  // ---------------------------------------------------------------------------
  // toMessage: the canonical text

  /** Line 1 of the text. */
  function Header(f: MessageParams): string
  {
    Interpolate(f.domain) + " wants you to sign in with your Solana account:"
  }

  /** `` `Chain ID: ` + this.chainId || '1' ``: the concatenation is never the
      empty string, so the `'1'` alternative is never taken. */
  function ChainIdField(chainId: int): (r: string)
    ensures r == "Chain ID: " + IntToString(chainId)
  {
    var s := "Chain ID: " + IntToString(chainId);
    if s != "" then s else "1"
  }

  /** `resources.map((x) => `- ${x}`)`. */
  function Bullets(rs: seq<string>): (r: seq<string>)
    ensures |r| == |rs|
    ensures forall i :: 0 <= i < |rs| ==> r[i] == "- " + rs[i]
  {
    seq(|rs|, i requires 0 <= i < |rs| => "- " + rs[i])
  }

  /** A `Label: value` line, present only when the value is truthy. */
  function OptionalLine(name: string, value: Option<string>): seq<string>
  {
    if Truthy(value) then [name + value.value] else []
  }

  /** The message state `toMessage` leaves behind: a falsy nonce replaced by a
      generated one and a falsy `issuedAt` replaced by the current time. */
  function Filled(m: SiwsMessage, clock: Clock): SiwsMessage
  {
    var f := m.fields;
    var nonce := if Truthy(f.nonce) then f.nonce else Some(clock.freshNonce);
    var issuedAt := if Truthy(f.issuedAt) then f.issuedAt.value else clock.nowIso;
    m.(fields := f.(nonce := nonce, issuedAt := Some(issuedAt)))
  }

  /** The `suffixArray` of `toMessage`: the `URI:` through `Issued At:` lines,
      then the optional lines, the resources entry being one joined block. */
  function SuffixArray(f: MessageParams, nonce: Option<string>, issuedAt: string): seq<string>
  {
    ["URI: " + f.uri, "Version: " + f.version, ChainIdField(f.chainId),
     "Nonce: " + Interpolate(nonce), "Issued At: " + issuedAt]
    + OptionalLine("Expiration Time: ", f.expirationTime)
    + OptionalLine("Not Before: ", f.notBefore)
    + OptionalLine("Request ID: ", f.requestId)
    + (if f.resources.Some? then [Join(["Resources:"] + Bullets(f.resources.value), "\n")] else [])
  }

  /** The `prefix` of `toMessage` once the statement is spliced in:
      `[header, address].join('\n')`, then `[prefix, statement].join('\n\n')`,
      then one more newline when the statement is truthy. */
  function StatementPrefix(f: MessageParams): string
  {
    var header := Header(f);
    var prefix := Join([header, f.address], "\n");
    var withStatement := Join([prefix, JoinElement(f.statement)], "\n\n");
    if Truthy(f.statement) then withStatement + "\n" else withStatement
  }

  /** The body of `toMessage` after validation, built the way the code builds
      it: a nonce generated when falsy, `issuedAt` filled when falsy, and
      `[prefix, suffix].join('\n')`. */
  function Serialize(m: SiwsMessage, clock: Clock): Signable
  {
    var f := m.fields;
    var nonce := if Truthy(f.nonce) then f.nonce else Some(clock.freshNonce);
    var issuedAt := if Truthy(f.issuedAt) then f.issuedAt.value else clock.nowIso;
    var suffix := Join(SuffixArray(f, nonce, issuedAt), "\n");
    Signable(Join([StatementPrefix(f), suffix], "\n"), m.(fields := f.(nonce := nonce, issuedAt := Some(issuedAt))))
  }

  /** The lines before `URI:`: header, address, a blank line, then the
      statement followed by a blank line, or one more blank line when there
      is no statement. */
  function HeadLines(f: MessageParams): seq<string>
  {
    [Header(f), f.address, ""]
    + (if Truthy(f.statement) then [f.statement.value, ""] else [""])
  }

  /** The lines from `URI:` on, one per line, optional ones in fixed order. */
  function BodyLines(f: MessageParams): seq<string>
  {
    ["URI: " + f.uri, "Version: " + f.version, "Chain ID: " + IntToString(f.chainId),
     "Nonce: " + Interpolate(f.nonce), "Issued At: " + Interpolate(f.issuedAt)]
    + OptionalLine("Expiration Time: ", f.expirationTime)
    + OptionalLine("Not Before: ", f.notBefore)
    + OptionalLine("Request ID: ", f.requestId)
    + (if f.resources.Some? then ["Resources:"] + Bullets(f.resources.value) else [])
  }

  /** The signable layout as a flat list of lines, read off a filled message. */
  function MessageLines(m: SiwsMessage): seq<string>
  {
    HeadLines(m.fields) + BodyLines(m.fields)
  }

  lemma SuffixIsBody(f: MessageParams, nonce: Option<string>, issuedAt: string)
    ensures Join(SuffixArray(f, nonce, issuedAt), "\n") == Join(BodyLines(f.(nonce := nonce, issuedAt := Some(issuedAt))), "\n")
  {
    var g := f.(nonce := nonce, issuedAt := Some(issuedAt));
    var first := ["URI: " + f.uri, "Version: " + f.version, ChainIdField(f.chainId),
                  "Nonce: " + Interpolate(nonce), "Issued At: " + issuedAt]
      + OptionalLine("Expiration Time: ", f.expirationTime)
      + OptionalLine("Not Before: ", f.notBefore)
      + OptionalLine("Request ID: ", f.requestId);
    if f.resources.Some? {
      var block := ["Resources:"] + Bullets(f.resources.value);
      JoinFlatten(first, block, "\n");
      assert BodyLines(g) == first + block;
      assert SuffixArray(f, nonce, issuedAt) == first + [Join(block, "\n")];
    } else {
      assert BodyLines(g) == first;
      assert SuffixArray(f, nonce, issuedAt) == first;
    }
  }

  lemma PrefixIsHead(f: MessageParams)
    ensures StatementPrefix(f) == Join(HeadLines(f), "\n")
  {
    var header := Header(f);
    var lead := header + "\n" + f.address;
    assert Join([header, f.address], "\n") == lead by {
      JoinCons(header, [f.address], "\n");
    }
    var e := JoinElement(f.statement);
    assert Join([lead, e], "\n\n") == lead + "\n\n" + e by {
      JoinCons(lead, [e], "\n\n");
    }
    if Truthy(f.statement) {
      var st := f.statement.value;
      assert HeadLines(f) == [header, f.address, "", st, ""];
      assert [header, f.address, "", st, ""] == [header] + [f.address, "", st, ""];
      assert [f.address, "", st, ""] == [f.address] + ["", st, ""];
      assert ["", st, ""] == [""] + [st, ""];
      assert [st, ""] == [st] + [""];
      JoinCons(st, [""], "\n");
      assert Join([st, ""], "\n") == st + "\n";
      JoinCons("", [st, ""], "\n");
      assert Join(["", st, ""], "\n") == "\n" + st + "\n";
      JoinCons(f.address, ["", st, ""], "\n");
      assert Join([f.address, "", st, ""], "\n") == f.address + "\n\n" + st + "\n";
      JoinCons(header, [f.address, "", st, ""], "\n");
      assert Join(HeadLines(f), "\n") == lead + "\n\n" + st + "\n";
    } else {
      assert HeadLines(f) == [header, f.address, "", ""];
      assert [header, f.address, "", ""] == [header] + [f.address, "", ""];
      assert [f.address, "", ""] == [f.address] + ["", ""];
      assert ["", ""] == [""] + [""];
      JoinCons("", [""], "\n");
      JoinCons(f.address, ["", ""], "\n");
      JoinCons(header, [f.address, "", ""], "\n");
    }
  }

  /** The code's nested joins produce exactly the flat line layout joined by
      newlines, and the state left behind is `Filled`. */
  lemma SerializeLayout(m: SiwsMessage, clock: Clock)
    ensures Serialize(m, clock).message == Filled(m, clock)
    ensures Serialize(m, clock).text == Join(MessageLines(Filled(m, clock)), "\n")
  {
    var f := m.fields;
    var nonce := if Truthy(f.nonce) then f.nonce else Some(clock.freshNonce);
    var issuedAt := if Truthy(f.issuedAt) then f.issuedAt.value else clock.nowIso;
    var g := Filled(m, clock).fields;
    assert g == f.(nonce := nonce, issuedAt := Some(issuedAt));
    SuffixIsBody(f, nonce, issuedAt);
    PrefixIsHead(f);
    assert HeadLines(g) == HeadLines(f);
    JoinAppend(HeadLines(g), BodyLines(g), "\n");
    JoinCons(StatementPrefix(f), [Join(SuffixArray(f, nonce, issuedAt), "\n")], "\n");
  }

  /** `toMessage()`: validate (propagating the first failure, in which case no
      text is produced and nothing is stored), then build the text and store
      the filled-in fields. */
  function ToMessage(m: SiwsMessage, env: Env, clock: Clock): (r: Result<Signable, Exception>)
    ensures Validate(m, 0, env).Fail? ==> r == Failure(Validate(m, 0, env).error)
    ensures r.Success? <==> FieldsValid(m.fields, 0, env)
    ensures r.Success? ==> r.value.text == Join(MessageLines(r.value.message), "\n")
    ensures r.Success? ==> r.value.message.fields.nonce == m.fields.nonce
    ensures r.Success? ==>
      r.value.message.fields.issuedAt == (if Truthy(m.fields.issuedAt) then m.fields.issuedAt else Some(clock.nowIso))
    ensures r.Success? ==> r.value.message.fields.(issuedAt := m.fields.issuedAt) == m.fields
  {
    match Validate(m, 0, env)
    case Fail(e) => Failure(e)
    case Pass =>
      SerializeLayout(m, clock);
      Success(Serialize(m, clock))
  }

  /** `prepareMessage()`: a switch on the version whose every branch calls
      `toMessage`. */
  function PrepareMessage(m: SiwsMessage, env: Env, clock: Clock): (r: Result<Signable, Exception>)
    ensures r == ToMessage(m, env, clock)
  {
    match m.fields.version
    case "1" => ToMessage(m, env, clock)
    case _ => ToMessage(m, env, clock)
  }

  /** The generated nonce never reaches the text: validation has already
      rejected every message whose nonce is falsy. */
  lemma NonceGenerationUnreachable(m: SiwsMessage, env: Env, clock: Clock, other: string)
    ensures ToMessage(m, env, clock) == ToMessage(m, env, clock.(freshNonce := other))
  {
  }

  /** Calling `toMessage` again on the state the first call left gives the
      identical text and state, even at another instant, given that the stored
      time stamp is a non-empty valid ISO-8601 string (as `toISOString` gives). */
  lemma ToMessageIdempotent(m: SiwsMessage, env: Env, clock: Clock, later: Clock)
    requires ToMessage(m, env, clock).Success?
    requires clock.nowIso != "" && env.isValidIso8601(clock.nowIso)
    ensures ToMessage(ToMessage(m, env, clock).value.message, env, later) == ToMessage(m, env, clock)
  {
    var r := ToMessage(m, env, clock).value;
    var m' := r.message;
    assert Truthy(m'.fields.issuedAt);
    assert FieldsValid(m'.fields, 0, env);
    SerializeLayout(m', later);
    assert Filled(m', later) == m';
  }

  /** The statement spacing around the header: `address\n\nstatement\n\nURI:`
      with a statement, `address\n\n\nURI:` with an absent or empty one. */
  lemma StatementSpacing(m: SiwsMessage, env: Env, clock: Clock)
    requires ToMessage(m, env, clock).Success?
    ensures var text := ToMessage(m, env, clock).value.text;
      var lead := Header(m.fields) + "\n" + m.fields.address;
      if Truthy(m.fields.statement) then lead + "\n\n" + m.fields.statement.value + "\n\nURI: " + m.fields.uri <= text
      else lead + "\n\n\nURI: " + m.fields.uri <= text
  {
    assert ToMessage(m, env, clock).value == Serialize(m, clock);
    SerializeSpacing(m, clock);
  }

  lemma SerializeSpacing(m: SiwsMessage, clock: Clock)
    ensures var text := Serialize(m, clock).text;
      var lead := Header(m.fields) + "\n" + m.fields.address;
      if Truthy(m.fields.statement) then lead + "\n\n" + m.fields.statement.value + "\n\nURI: " + m.fields.uri <= text
      else lead + "\n\n\nURI: " + m.fields.uri <= text
  {
    var f := m.fields;
    var nonce := if Truthy(f.nonce) then f.nonce else Some(clock.freshNonce);
    var issuedAt := if Truthy(f.issuedAt) then f.issuedAt.value else clock.nowIso;
    var suffixArray := SuffixArray(f, nonce, issuedAt);
    var uriLine := "URI: " + f.uri;
    var rest := suffixArray[1..];
    SuffixArrayShape(f, nonce, issuedAt);
    assert suffixArray == [suffixArray[0]] + rest;
    JoinCons(uriLine, rest, "\n");
    var p := StatementPrefix(f);
    var text := Serialize(m, clock).text;
    JoinCons(p, [Join(suffixArray, "\n")], "\n");
    var tail := "\n" + Join(rest, "\n");
    assert text == p + "\n" + (uriLine + tail);
    PrefixSpacing(f);
    SpacingText(Header(f) + "\n" + f.address, JoinElement(f.statement), f.uri, p, tail, text, Truthy(f.statement));
  }

  lemma SpacingText(lead: string, st: string, uri: string, p: string, tail: string, text: string, stated: bool)
    requires p == if stated then lead + "\n\n" + st + "\n" else lead + "\n\n"
    requires text == p + "\n" + ("URI: " + uri + tail)
    ensures stated ==> lead + "\n\n" + st + "\n\nURI: " + uri <= text
    ensures !stated ==> lead + "\n\n\nURI: " + uri <= text
  {
    if stated {
      assert text == (lead + "\n\n" + st + "\n\nURI: " + uri) + tail;
    } else {
      assert text == (lead + "\n\n\nURI: " + uri) + tail;
    }
  }

  lemma SuffixArrayShape(f: MessageParams, nonce: Option<string>, issuedAt: string)
    ensures |SuffixArray(f, nonce, issuedAt)| >= 5
    ensures SuffixArray(f, nonce, issuedAt)[0] == "URI: " + f.uri
  {
  }


  /** The spliced prefix, spelled out. */
  lemma PrefixSpacing(f: MessageParams)
    ensures var lead := Header(f) + "\n" + f.address;
      StatementPrefix(f) == if Truthy(f.statement) then lead + "\n\n" + f.statement.value + "\n" else lead + "\n\n"
  {
    var header := Header(f);
    var lead := header + "\n" + f.address;
    assert Join([header, f.address], "\n") == lead by {
      JoinCons(header, [f.address], "\n");
    }
    var e := JoinElement(f.statement);
    assert Join([lead, e], "\n\n") == lead + "\n\n" + e by {
      JoinCons(lead, [e], "\n\n");
    }
  }

  /** Present resources always open with a `Resources:` line, even when the
      list is empty, followed by one `- r` line per resource in order; absent
      resources add no line. */
  lemma ResourcesBlock(m: SiwsMessage)
    ensures m.fields.resources.Some? ==>
      var lines := MessageLines(m);
      var rs := m.fields.resources.value;
      |lines| > |rs| && lines[|lines| - |rs| - 1] == "Resources:" &&
      forall i :: 0 <= i < |rs| ==> lines[|lines| - |rs| + i] == "- " + rs[i]
  {
  }
}
