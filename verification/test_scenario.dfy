/** The message-factory test scenario (src/test/messagefactory.test.spec.ts):
    a Solana message with chain id -1 and a nineteen-character nonce, built by
    the factory, prepared, and verified with the signature and the nonce
    binding but no options. The key pair, the signature and the current time
    are arbitrary; the foreign capabilities are assumed to accept the
    generated address, the URI and the time stamp. */
module TestScenario {
  import opened Wrappers
  import opened JsText
  import opened Blockchain
  import opened Siws
  import opened SiwsVerify
  import opened MessageFactory

  const ScenarioNonce := "abcdefghiJs23232Hsp"

  function ScenarioParams(address: string, issuedAt: string): MessageParams
  {
    MessageParams(Some("solana.com"), address, Some("This is a test message."), "https://solana.com", "1", -1,
                  Some(ScenarioNonce), Some(issuedAt), None, None, None, None, None)
  }

  /** `{ signature, nonce, message }`. */
  function ScenarioVerifyParams(signature: string): VerifyParams
  {
    VerifyParams(["signature", "nonce", "message"], Some(signature), None, Some(ScenarioNonce), None)
  }

  /** What the scenario needs of the foreign capabilities: the generated
      public key is an on-curve address, the URI has a scheme and a host, and
      the `toISOString` time stamp is valid ISO-8601. */
  predicate Accepts(env: Env, address: string, issuedAt: string)
  {
    && env.keys.parsesAsPublicKey(address) && env.keys.isOnCurve(address)
    && Truthy(env.parseUri("https://solana.com").scheme) && Truthy(env.parseUri("https://solana.com").host)
    && issuedAt != "" && env.isValidIso8601(issuedAt)
  }

  /** The lines handed to the signer, with `Chain ID: -1`. */
  function ExpectedLines(address: string, issuedAt: string): seq<string>
  {
    ["solana.com" + " wants you to sign in with your Solana account:", address, "",
     "This is a test message.", "",
     "URI: " + "https://solana.com", "Version: " + "1", "Chain ID: -1",
     "Nonce: " + ScenarioNonce, "Issued At: " + issuedAt]
  }

  lemma AlnumNonce()
    ensures WellFormedNonce(Some(ScenarioNonce))
  {
  }

  lemma MinusOneRendering()
    ensures "Chain ID: " + IntToString(-1) == "Chain ID: -1"
  {
    assert NatToString(1) == [DigitChar(1)];
  }

  lemma ScenarioLines(address: string, issuedAt: string)
    ensures MessageLines(SiwsMessage(ScenarioParams(address, issuedAt))) == ExpectedLines(address, issuedAt)
  {
    MinusOneRendering();
  }

  /** The factory builds the message, `prepareMessage` succeeds on it, leaves
      it unchanged (its `issuedAt` is already set), and produces the expected
      text with `Chain ID: -1`. */
  lemma ScenarioPrepares(address: string, issuedAt: string, env: Env, clock: Clock, newSiwe: SiweConstructor)
    requires Accepts(env, address, issuedAt)
    ensures CreateMessage(ScenarioParams(address, issuedAt), "sol", newSiwe) ==
      Success(Solana(SiwsMessage(ScenarioParams(address, issuedAt))))
    ensures var m := SiwsMessage(ScenarioParams(address, issuedAt));
      PrepareMessage(m, env, clock) == Success(Signable(Join(ExpectedLines(address, issuedAt), "\n"), m))
  {
    var f := ScenarioParams(address, issuedAt);
    var m := SiwsMessage(f);
    AlnumNonce();
    assert FieldsValid(f, 0, env);
    var r := ToMessage(m, env, clock).value;
    assert r.message == m;
    ScenarioLines(address, issuedAt);
  }

  /** Verifying without options resolves with success when the signature
      primitive accepts the text, and otherwise the awaited promise never
      settles. */
  lemma ScenarioVerifies(address: string, issuedAt: string, signature: string, env: Env, clock: Clock)
    requires Accepts(env, address, issuedAt)
    ensures var m := SiwsMessage(ScenarioParams(address, issuedAt));
      Verify(m, ScenarioVerifyParams(signature), None, env, clock).settlement ==
        if env.verifySignature(Join(ExpectedLines(address, issuedAt), "\n"), Some(signature), address) == Returned(true)
        then Resolved(SuccessResponse(m))
        else Pending
  {
    var m := SiwsMessage(ScenarioParams(address, issuedAt));
    var p := ScenarioVerifyParams(signature);
    ScenarioPrepares(address, issuedAt, env, clock, f => Success(f));
    assert KeysValid(p) by {
      assert forall i :: 0 <= i < |p.keys| ==> p.keys[i] in VerifyParamsKeys;
    }
    assert BindingsHold(m, p, env, clock);
    VerifyChecksPassIff(m, p, None, env, clock, PrepareMessage(m, env, clock));
  }
}
