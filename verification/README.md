# Sign In With Solana: message, validator and verifier

This project models the Solana variant of the "Sign-In-With-X" message of the
`siws` library in Dafny, together with the small pieces it relies on. The model
has four parts:

- The `SiwsMessage` record and its canonical text. `toMessage` and
  `prepareMessage` produce the text that gets signed: the EIP-4361 layout with
  "Solana" in place of "Ethereum".
- `validateMessage`: an ordered list of guard checks in which the first failure wins.
- `verify`: key-shape checks, domain and nonce binding, the expiry and
  not-before window, re-serialisation, and one opaque signature check.
  It returns the settlement the promise reaches: `Resolved`, `Rejected` or `Pending`.
- `MessageFactory.createMessage`, `BlockchainType`, the allowed key lists,
  `checkInvalidKeys`, `isSolanaAddress`, the error-text enums, and the error
  records together with the class each was built with, so that `instanceof`
  `SiwsError` is kept apart from the base `BlockchainError`.

Everything is a pure function over immutable datatypes:
- **Absent values.** A JavaScript property that may be `undefined` is an
  `Option`, and a thrown error is the `Failure` of a `Result`.
- **State change.** `toMessage` stores a filled-in `issuedAt`. It returns the
  updated message next to the text.
- **Foreign code.** Each foreign capability is a field of the `Env` datatype:
  - the public-key parser and the on-curve test;
  - `uri-js` parsing;
  - `isValidISO8601Date`;
  - date parsing and `toISOString`;
  - `verifySolanaMessage`.

  The current instant, its ISO string and the output of `generateNonce` are a
  `Clock` value. The constructor `new SiweMessage(params)` of the `siwe`
  package is a parameter of `MessageFactory.CreateMessage` that may throw.
  Nothing about any of these is assumed beyond its type.

The JavaScript behaviour the text depends on is written out in module `JsText`:
- `Array.prototype.join`;
- a template literal rendering `undefined` as "undefined", while `join`
  renders it as an empty string;
- the decimal rendering of a negative chain id;
- the leftmost greedy match of `/[a-zA-Z0-9]{8,}/`.

`verify` is modelled the way its promise executor actually runs. The `fail`
helper settles the promise but does not return, so every later check still
runs. A promise settles only once, so the model folds the checks into a
settle-once state (`SiwsVerify.RunChecks`). `SiwsVerify.FirstFailureDecides`
proves this fold equal to "the first failing check decides".

The code departs from its evident intent in several places. The evidence is
in the code itself: its comments, the unused `INVALID_SIGNATURE` kind and the
unused `verificationFallback` option. The model follows the code:
- The domain guard accepts `#` and `?`.
- A nonce with no run of eight letters or digits raises a `TypeError` instead
  of `INVALID_NONCE`.
- The option-key check tests the parameter keys, so unknown option keys are
  never reported.
- A failed signature check neither calls `verificationFallback` nor produces
  `INVALID_SIGNATURE`.
- Without options, any failure in `verify` raises a `TypeError`.

Module `SiwsCorrected` gives the evidently intended behaviour for each of these
five places (see Findings). It proves that this behaviour agrees with the code
wherever none of these places is at fault:
- validation agrees wherever the written domain and nonce guards judge the
  message correctly (`SiwsCorrected.ValidateAgrees`);
- `verify` agrees wherever the written one settles, under the same domain and
  nonce condition, provided that a run without options resolves and that the
  option keys are known once the parameter keys are
  (`SiwsCorrected.VerifyAgreesWhereSettled`).

One more oddity is kept as written in both models: validation rejects a
missing nonce before `toMessage` reaches its `generateNonce` branch, so that
branch never runs (`Siws.NonceGenerationUnreachable`). Whether a missing nonce
was meant to be generated instead is not evident from the code, so
`SiwsCorrected` keeps rejecting it.

## Model

| member | source | states |
|---|---|---|
| Wrappers.FirstFailure | src/sol/SiwsMessage.ts:230-293 | An ordered list of guards passes iff every guard passes; otherwise the reported error is that of a guard all of whose predecessors passed |
| Wrappers.FirstFailureAt | src/sol/SiwsMessage.ts:230-293 | A guard that fails after all earlier guards passed decides the outcome |
| JsText.NatToString | src/sol/SiwsMessage.ts:54 | The decimal rendering of a natural number is non-empty, all digits, and has no leading zero |
| JsText.NatToStringRoundTrip | src/sol/SiwsMessage.ts:54 | Reading the digits back gives the number |
| JsText.IntToStringRoundTrip | src/sol/SiwsMessage.ts:54 | The rendering of any integer chain id, negative ones included, reads back to the same integer |
| JsText.IntToStringInjective | src/sol/SiwsMessage.ts:54 | Distinct chain ids never render alike |
| JsText.AlnumRunFrom | src/sol/SiwsMessage.ts:264 | The run measured from a position is alphanumeric and maximal |
| JsText.SearchRunFrom | src/sol/SiwsMessage.ts:264 | The pattern search finds nothing iff no position starts a run of the minimum length; otherwise it returns the leftmost such position with its maximal greedy run |
| JsText.MatchIsWholeIff | src/sol/SiwsMessage.ts:264-265 | The match equals the whole nonce iff the nonce has at least 8 characters, all letters or digits |
| JsText.JoinFlatten | src/sol/SiwsMessage.ts:79-87 | Joining a list whose last element is itself a join with the same separator flattens it |
| Errors.TwelveKinds | src/errors/errors.ts:53-89 | There are exactly twelve error kinds, all distinct |
| Errors.EnumTextsDiffer | src/errors/errors.ts:15-89 | The SIWS and generic error texts differ exactly for INVALID_ADDRESS and INVALID_NONCE |
| Errors.DifferingKinds | src/errors/errors.ts:15-89 | Over all twelve enum members, the set whose two texts differ is exactly {INVALID_ADDRESS, INVALID_NONCE} |
| Errors.SiwsErrorTypeInjective | src/errors/errors.ts:53-89 | Distinct SIWS error kinds have distinct texts |
| Utils.IsSolanaAddress | src/common/utils.ts:6-17 | An unparseable key is never an address; with the off-curve flag every parseable key is one; without it, exactly the parseable on-curve keys are |
| Utils.OffCurveFlagWidens | src/common/utils.ts:9-13 | Acceptance without the off-curve flag implies acceptance with it |
| Utils.InvalidKeys | src/common/utils.ts:19-27 | The invalid keys are exactly the keys not in the allowed list, and there are at most as many as keys |
| Utils.InvalidKeysIsSubsequence | src/common/utils.ts:21-25 | The invalid keys keep the object's key order: they form a subsequence of the keys |
| Utils.InvalidKeysAppend | src/common/utils.ts:21-25 | The filter distributes over concatenation of key lists |
| Utils.InvalidKeysEmptyIff | src/common/utils.ts:19-27 | No invalid keys iff every key is allowed |
| Utils.CheckInvalidKeys | src/common/utils.ts:19-27 | The loop returns exactly the disallowed keys, in order, as a subsequence of the keys |
| Blockchain.ParamKeyAllowedIff | src/common/BlockchainMessage.ts:26-32 | A parameter key is allowed iff it is one of signature, domain, nonce, time, message |
| Blockchain.OptKeyAllowedIff | src/common/BlockchainMessage.ts:42-46 | An option key is allowed iff it is one of provider, suppressExceptions, verificationFallback |
| Blockchain.ParseBlockchainType | src/common/BlockchainMessage.ts:71-74 | Exactly the tags "sol" and "evm" name a blockchain type, and each names the type whose tag it is |
| Blockchain.TagRoundTrip | src/common/BlockchainMessage.ts:71-74 | Every blockchain type is recovered from its tag |
| MessageFactory.CreateMessage | src/common/BlockchainMessage.ts:91-101 | Creation succeeds iff the tag is "sol", or "evm" with a `siwe` constructor that returns; the message is of the tag's chain; an error thrown by the `siwe` constructor propagates unchanged; any other tag throws "Unsupported blockchain type: " followed by the tag |
| MessageFactory.CreateForEveryType | src/common/BlockchainMessage.ts:91-101 | SOL yields exactly `new SiwsMessage(params)` with the params unchanged; EVM yields a wrapper of what the `siwe` constructor built, or its error; a success is always of the requested chain |
| MessageFactory.UnsupportedTypeNamesTag | src/common/BlockchainMessage.ts:98-99 | The unsupported-type error determines the offending tag |
| Siws.ArgsCheck | src/sol/SiwsMessage.ts:232-237 | The argument guard fails iff an argument was passed, with UNABLE_TO_PARSE |
| Siws.DomainPatternAlwaysMatches | src/sol/SiwsMessage.ts:240 | The unanchored pattern `[^#?]*` matches every string |
| Siws.DomainCheck | src/sol/SiwsMessage.ts:240-245 | The domain guard fails iff the domain is absent or empty, with INVALID_DOMAIN |
| Siws.DomainWithHashAccepted | src/sol/SiwsMessage.ts:240 | A domain containing '#' and '?' passes the domain guard |
| Siws.AddressCheck | src/sol/SiwsMessage.ts:248-250 | The address guard fails iff the address is not a Solana address under the message's off-curve flag |
| Siws.UriCheck | src/sol/SiwsMessage.ts:253-256 | The URI guard fails iff the parsed URI lacks a truthy scheme or host, with INVALID_URI |
| Siws.VersionCheck | src/sol/SiwsMessage.ts:259-261 | The version guard fails iff the version is not "1", with INVALID_MESSAGE_VERSION whose `received` is the version |
| Siws.NonceCheck | src/sol/SiwsMessage.ts:264-271 | The nonce guard passes iff the nonce is 8 or more letters and digits; it throws a TypeError iff the nonce is absent or has no 8-character alphanumeric run; otherwise it throws INVALID_NONCE carrying the nonce |
| Siws.ShortNonceRaisesTypeError | src/sol/SiwsMessage.ts:264-268 | The nonce "abc" makes the guard throw a TypeError |
| Siws.TimeFormatCheck | src/sol/SiwsMessage.ts:274-293 | A time guard fails iff its field is truthy and not valid ISO-8601, with a plain "Invalid time format." error |
| Siws.Validate | src/sol/SiwsMessage.ts:230-293 | Validation passes iff every field rule holds; otherwise it reports the error of the first failing guard, in the code's order |
| Siws.ValidateDomainRule | src/sol/SiwsMessage.ts:240-245 | INVALID_DOMAIN is reported iff the domain is absent or empty |
| Siws.ValidationErrorKinds | src/sol/SiwsMessage.ts:230-293 | Validation's structured errors are only of the parse, domain, URI, version and nonce kinds, and none is an instance of `SiwsError`; apart from the time-format `Error` and the nonce `TypeError`, every validation error is a `BlockchainError` |
| Siws.ValidateNonceRule | src/sol/SiwsMessage.ts:264-271 | Once the earlier guards pass, a malformed nonce decides validation |
| Siws.ChainIdField | src/sol/SiwsMessage.ts:54 | The chain line is always "Chain ID: " plus the decimal chain id; the '1' alternative is never taken |
| Siws.Bullets | src/sol/SiwsMessage.ts:79 | Each resource r becomes the line "- r", in order |
| Siws.SerializeLayout | src/sol/SiwsMessage.ts:45-87 | The text the code builds equals the reference layout of the filled message joined by newlines: header, address, statement block, then URI, Version, Chain ID, Nonce, Issued At and the optional lines in order |
| Siws.ToMessage | src/sol/SiwsMessage.ts:41-88 | A validation failure propagates and no text is produced; success iff every field rule holds; the text is the reference layout of the stored state; the nonce is kept; issuedAt is filled from now only when falsy; nothing else changes |
| Siws.PrepareMessage | src/sol/SiwsMessage.ts:89-103 | prepareMessage equals toMessage for every version |
| Siws.NonceGenerationUnreachable | src/sol/SiwsMessage.ts:50-52 | The generated nonce never influences the result: validation has already rejected every falsy nonce |
| Siws.ToMessageIdempotent | src/sol/SiwsMessage.ts:60 | Given that the first call succeeds and the ISO stamp of its instant is non-empty and passes isValidISO8601Date (as `toISOString` output does), a second toMessage on the stored state, even at another instant, returns the identical text and state |
| Siws.StatementSpacing | src/sol/SiwsMessage.ts:83-87 | A truthy statement gives "address\n\nstatement\n\nURI:"; an absent or empty one gives "address\n\n\nURI:" |
| Siws.ResourcesBlock | src/sol/SiwsMessage.ts:78-80 | Present resources, even an empty list, give a "Resources:" line followed by one "- r" line per resource, in order, at the end of the text |
| SiwsVerify.ParamsKeyCheck | src/sol/SiwsMessage.ts:120-129 | The parameter-key check fails iff some parameter key is not allowed |
| SiwsVerify.OptsKeyCheck | src/sol/SiwsMessage.ts:131-141 | As written, the option-key check can fail only when the parameter-key check fails |
| SiwsVerify.DomainBinding | src/sol/SiwsMessage.ts:146-153 | Fails iff the domain parameter is truthy and differs from the message's, with a `SiwsError` of kind DOMAIN_MISMATCH |
| SiwsVerify.NonceBinding | src/sol/SiwsMessage.ts:156-163 | Fails iff the nonce parameter is truthy and differs from the message's, with a `SiwsError` of kind NONCE_MISMATCH |
| SiwsVerify.ExpiryCheck | src/sol/SiwsMessage.ts:168-182 | A `SiwsError` of kind EXPIRED_MESSAGE iff the message has a parseable expiration time at or before the check time |
| SiwsVerify.NotBeforeCheck | src/sol/SiwsMessage.ts:185-198 | A `SiwsError` of kind NOT_YET_VALID_MESSAGE iff the message has a parseable not-before time after the check time |
| SiwsVerify.FirstFailureDecides | src/sol/SiwsMessage.ts:112-208 | Although `fail` does not return, the settle-once run of the checks equals the first failure's settlement; without options the executor stops there |
| SiwsVerify.Execute | src/sol/SiwsMessage.ts:111-224 | The executor's settlement is the first-failure decision; the final message is the original if it stopped early, else the prepared state; every response carries the final state |
| SiwsVerify.Verify | src/sol/SiwsMessage.ts:108-225 | verify settles as the first-failure decision, and leaves the message unchanged except possibly issuedAt |
| SiwsVerify.VerifyChecksPassIff | src/sol/SiwsMessage.ts:120-208 | All checks pass iff the parameter rules hold and prepareMessage succeeded |
| SiwsVerify.UnknownParamKeysFailFirst | src/sol/SiwsMessage.ts:120-129 | Unknown parameter keys are reported first, listing the invalid keys, by the options' policy (a `TypeError` without options) |
| SiwsVerify.DomainMismatchRule | src/sol/SiwsMessage.ts:146-153 | With known keys, a differing truthy domain parameter is reported as DOMAIN_MISMATCH (expected the parameter, received the message's domain) by the options' policy (a `TypeError` without options) |
| SiwsVerify.NonceMismatchRule | src/sol/SiwsMessage.ts:156-163 | With known keys and a matching domain, a differing truthy nonce parameter is reported as NONCE_MISMATCH by the options' policy (a `TypeError` without options) |
| SiwsVerify.ExpiryRule | src/sol/SiwsMessage.ts:166-182 | Once the bindings pass, a check time (params.time, else now) at or after the expiration is reported as EXPIRED_MESSAGE by the options' policy (a `TypeError` without options) |
| SiwsVerify.NotBeforeRule | src/sol/SiwsMessage.ts:166-198 | Once the bindings pass and the message is not expired, a check time before notBefore is reported as NOT_YET_VALID_MESSAGE by the options' policy (a `TypeError` without options) |
| SiwsVerify.PrepareFailureRule | src/sol/SiwsMessage.ts:199-208 | Once the parameter rules hold, an error thrown by prepareMessage is reported as it was thrown by the options' policy (a `TypeError` without options) |
| SiwsVerify.InvalidMessageRule | src/sol/SiwsMessage.ts:199-208 | Within verify, a message failing validation is reported with validation's own first error by the options' policy (a `TypeError` without options) |
| SiwsVerify.ExecuteErrorOrigin | src/sol/SiwsMessage.ts:120-208 | A reported error comes from prepareMessage, from its own binding or window rule, or is unstructured |
| SiwsVerify.ErrorKindsHaveOneOrigin | src/sol/SiwsMessage.ts:146-198 | A reported mismatch, expiry or not-yet-valid error implies its rule's condition |
| SiwsVerify.ExecuteSuccessIff | src/sol/SiwsMessage.ts:211-223 | Resolved success iff the parameter rules hold, prepareMessage returned, and the primitive returned true on its text |
| SiwsVerify.SuccessIff | src/sol/SiwsMessage.ts:108-225 | verify resolves with success iff every parameter and field rule holds and the signature primitive returns true on the canonical text; a throw counts as false |
| SiwsVerify.SettlementPolicy | src/sol/SiwsMessage.ts:112-118 | With suppressExceptions nothing is rejected; with options but without suppressExceptions, every resolution is a success |
| SiwsVerify.BadSignatureLeavesPending | src/sol/SiwsMessage.ts:209-224 | When every rule holds but the primitive does not return true, the promise stays pending |
| SiwsVerify.MissingOptsRaisesTypeError | src/sol/SiwsMessage.ts:110-113 | Without options, any failing rule rejects with a TypeError and leaves the message unchanged |
| SiwsVerify.OptsKeysNeverDecide | src/sol/SiwsMessage.ts:131-141 | The option keys never change the outcome |
| SiwsCorrected.DomainCheckIntended | src/sol/SiwsMessage.ts:240-245 | The intended domain guard passes iff the domain is non-empty and free of '#' and '?' |
| SiwsCorrected.NonceCheckIntended | src/sol/SiwsMessage.ts:264-271 | The intended nonce guard passes iff the nonce is well formed, and otherwise always reports INVALID_NONCE |
| SiwsCorrected.ValidateIntended | src/sol/SiwsMessage.ts:230-293 | Intended validation passes iff the field rules and the '#'/'?' rule hold, and never throws a TypeError |
| SiwsCorrected.DomainRuleIntended | src/sol/SiwsMessage.ts:240-245 | INVALID_DOMAIN iff the domain is absent, empty, or holds '#' or '?' |
| SiwsCorrected.NonceRuleIntended | src/sol/SiwsMessage.ts:264-271 | Once the earlier guards pass, a malformed nonce is reported as INVALID_NONCE carrying the nonce |
| SiwsCorrected.ValidateAgrees | src/sol/SiwsMessage.ts:230-293 | Intended and written validation agree wherever the written domain and nonce guards are not at fault |
| SiwsCorrected.ToMessageIntended | src/sol/SiwsMessage.ts:41-88 | Intended serialisation succeeds iff intended validation passes, and then equals the written serialisation |
| SiwsCorrected.OptsKeyCheckIntended | src/sol/SiwsMessage.ts:131-141 | The intended option-key check fails iff options are present with an unknown key |
| SiwsCorrected.VerifyIntended | src/sol/SiwsMessage.ts:108-225 | Intended verify is pending only when a configured fallback is, and rejects only with a failure record or with the fallback's own rejection |
| SiwsCorrected.FallbackPrecedence | src/sol/SiwsMessage.ts:209-224 | After a failed signature check a configured fallback decides; without one the result is INVALID_SIGNATURE reported by the options' policy |
| SiwsCorrected.MissingOptsRejectsWithRecord | src/sol/SiwsMessage.ts:110-129 | Without options, every failing check rejects with its failure record (the first failure's error and the message); for unknown parameter keys that error is the key error |
| SiwsCorrected.UnknownOptKeysReported | src/sol/SiwsMessage.ts:131-141 | With known parameter keys, unknown option keys are reported, listing the invalid option keys |
| SiwsCorrected.VerifyAgreesWhereSettled | src/sol/SiwsMessage.ts:108-225 | Wherever the written verify settles, the intended verify settles the same way, provided the written domain and nonce guards judge the message correctly, a run without options resolves (so no TypeError is raised), and the option keys are known once the parameter keys are; this covers runs without options and runs with unknown parameter keys |
| TestScenario.ScenarioLines | src/test/messagefactory.test.spec.ts:9-18 | The test message lays out as ten lines, among them "Chain ID: -1" |
| TestScenario.ScenarioPrepares | src/test/messagefactory.test.spec.ts:19-35 | The factory builds the test message, and prepareMessage succeeds, keeps the message, and yields those lines joined by newlines |
| TestScenario.ScenarioVerifies | src/test/messagefactory.test.spec.ts:39-44 | Verifying the test message without options resolves with success iff the primitive accepts the text, and otherwise never settles |

## Left out

- src/evm/SiweMessageWrapper.ts is not part of this model beyond its constructor. `new SiweMessage(params)` is a parameter that may throw or build any fields; the wrapper's getters and methods forward to the external `siwe` package.
- The internals of `verifySolanaMessage` (text encoding, base58 decoding, ed25519) are not modelled. It is an opaque field of `Env` that returns a boolean or throws.
- The internals of `PublicKey` and `isOnCurve` are not modelled. They are two opaque predicates.
- `uri-js` parsing, `isValidISO8601Date`, `new Date(s).getTime()` and `toISOString` are opaque `Env` fields. NaN is `None`.
- `generateNonce` and `new Date()` are values of the `Clock` parameter; they are not computed.
- The Promise machinery is one settlement value. There is no concurrency, and the time at which a promise settles is not modelled.
- The `console.log` and `console.error` calls are not modelled, because they have no effect on results.
- `validate(signature, provider)` is not modelled, because it only throws "Method not implemented".
- `provider` is carried only as a key name, because `verify` never reads it.
- The `message` entry of the verify parameters is carried only as a key name, because `verify` never reads it.
- `verify` is always given a parameters object. An absent `params`, which makes `Object.keys` throw, is not modelled.
- Object keys are given as a list in their enumeration order; JavaScript's own key-ordering rules are not modelled.
- Siws.ChainIdField: states the exact decimal of the chain id, which is what JavaScript prints only for |chainId| < 2^53. Above that, JavaScript prints the shortest decimal that reads back to the same double (2^60 prints as "1152921504606847000"). Fractional numbers and the exponent form from 1e21 upward are not modelled either, because the model's `chainId` is an unbounded integer rather than a double.
- `SiwsMessage.ts` imports `checkInvalidKeys` from `siwe`. The local `checkInvalidKeys` in `src/common/utils.ts` stands in for it.
- `SiwsCorrected.VerifyIntended`: the fallback is modelled only by the settlement it produces. The arguments it would receive, including the pending primary result, are not modelled.
- `SiwsCorrected.NonceCheckIntended` keeps the written `expected` text "Length > 8 (1). Alphanumeric.", because the intended wording is unknown.
- `SiwsCorrected.FallbackPrecedence`: the payload of INVALID_SIGNATURE (expected the address, received the signature) is a choice of this model, because the code never builds that error.
- Siws.ResourcesBlock: states only the case of present resources. The absent case follows from `Siws.ToMessage`'s layout, since no line is added.

## Findings

| source | as written | input that shows it | evidently intended | confidence | as-written member | corrected member |
|---|---|---|---|---|---|---|
| src/sol/SiwsMessage.ts:240 | `!/[^#?]*/.test(this.domain)` is never true, because the unanchored pattern matches the empty string | domain "example.com#frag?q" passes validation | reject a domain containing '#' or '?' | not executed | Siws.DomainWithHashAccepted | SiwsCorrected.DomainRuleIntended |
| src/sol/SiwsMessage.ts:135 | the option-key check tests `invalidParams.length` instead of `invalidOpts.length` | valid params with options `{ foo: 1 }`: no key error is reported | report unknown option keys | not executed | SiwsVerify.OptsKeysNeverDecide | SiwsCorrected.UnknownOptKeysReported |
| src/sol/SiwsMessage.ts:209-224 | nothing settles the promise when the signature check fails | a valid message verified with a wrong signature: the promise never settles | call `verificationFallback` when configured, otherwise fail with INVALID_SIGNATURE | not executed | SiwsVerify.BadSignatureLeavesPending | SiwsCorrected.FallbackPrecedence |
| src/sol/SiwsMessage.ts:110-113 | `fail` reads `solanaOpts.suppressExceptions` when `opts` is undefined | params with key "foo" and no options: rejects with a TypeError | reject with the failure record, since not suppressing is the default | not executed | SiwsVerify.MissingOptsRaisesTypeError | SiwsCorrected.MissingOptsRejectsWithRecord |
| src/sol/SiwsMessage.ts:264-268 | building the error reads `nonce.length` when the match result is null | nonce "abc": a TypeError instead of INVALID_NONCE | throw INVALID_NONCE for every malformed nonce | not executed | Siws.ShortNonceRaisesTypeError | SiwsCorrected.NonceRuleIntended |
