/** src/common/BlockchainMessage.ts: the field record a message is built from,
    the verify parameter and option shapes with their allowed key lists, the
    response record, and the chain tag. */
module Blockchain {
  import opened Wrappers
  import Utils

  /** `BlockchainVerifyParamsKeys`. */
  const VerifyParamsKeys: seq<string> := ["signature", "domain", "nonce", "time", "message"]

  /** `BlockchainVerifyOptsKeys()`. */
  function VerifyOptsKeys(): seq<string>
  {
    ["provider", "suppressExceptions", "verificationFallback"]
  }

  /** A single key passes the parameter-key check exactly when it is one of
      the five verify parameter names. */
  lemma ParamKeyAllowedIff(key: string)
    ensures Utils.InvalidKeys([key], VerifyParamsKeys) == [] <==>
      key in {"signature", "domain", "nonce", "time", "message"}
  {
    assert [key][1..] == [];
  }

  /** A single key passes the option-key check exactly when it is one of the
      three verify option names. */
  lemma OptKeyAllowedIff(key: string)
    ensures Utils.InvalidKeys([key], VerifyOptsKeys()) == [] <==>
      key in {"provider", "suppressExceptions", "verificationFallback"}
  {
    assert [key][1..] == [];
  }

  /** `BlockchainType`: a closed enumeration of two chain tags. */
  datatype BlockchainType = Sol | Evm

  /** The string value of each tag. */
  function TagOf(t: BlockchainType): string
  {
    match t
    case Sol => "sol"
    case Evm => "evm"
  }

  /** Which tag, if any, a run-time string denotes. */
  function ParseBlockchainType(s: string): (r: Option<BlockchainType>)
    ensures r.Some? <==> s == "sol" || s == "evm"
    ensures r.Some? ==> TagOf(r.value) == s
  {
    if s == "sol" then Some(Sol)
    else if s == "evm" then Some(Evm)
    else None
  }

  /** Every tag is recognised from its own string, and the two strings differ. */
  lemma TagRoundTrip(t: BlockchainType)
    ensures ParseBlockchainType(TagOf(t)) == Some(t)
  {
    assert TagOf(Evm) != "sol" by { assert TagOf(Evm)[0] != "sol"[0]; }
  }

  /** `SolanaMessageParams` (`MessageParams` plus `allowOffCurve`). The
      properties the code tests for absence are optional; `domain` and
      `nonce` are optional as well because the validator tests them for
      absence explicitly. */
  datatype MessageParams = MessageParams(
    domain: Option<string>,
    address: string,
    statement: Option<string>,
    uri: string,
    version: string,
    chainId: int,
    nonce: Option<string>,
    issuedAt: Option<string>,
    expirationTime: Option<string>,
    notBefore: Option<string>,
    requestId: Option<string>,
    resources: Option<seq<string>>,
    allowOffCurve: Option<bool>)

  /** `BlockchainVerifyParams`: `keys` is `Object.keys(params)`, the other
      fields are what destructuring reads (the `message` entry is never read). */
  datatype VerifyParams = VerifyParams(
    keys: seq<string>,
    signature: Option<string>,
    domain: Option<string>,
    nonce: Option<string>,
    time: Option<string>)

  /** `BlockchainVerifyOpts`: `keys` is `Object.keys(opts)`; an absent
      `suppressExceptions` is false; the fallback is represented by the
      settlement its returned promise reaches. */
  datatype VerifyOpts<S> = VerifyOpts(
    keys: seq<string>,
    suppressExceptions: bool,
    verificationFallback: Option<S>)

  /** `BlockchainResponse<MessageType, ErrorType>`. */
  datatype BlockchainResponse<M, E> = BlockchainResponse(success: bool, error: Option<E>, data: M)
}
