/** src/common/BlockchainMessage.ts, `MessageFactory.createMessage`: builds
    the message object for a blockchain tag. */
module MessageFactory {
  import opened Wrappers
  import opened Errors
  import opened Blockchain
  import opened Siws

  /** `new SiweMessage(params)` of the `siwe` package: it may throw, and the
      getters of the object it builds may report fields other than those it
      was given, so it is a parameter returning the fields it exposes. */
  type SiweConstructor = MessageParams -> Result<MessageParams, Exception>

  /** The Ethereum message object, seen through its getters. */
  datatype SiweMessageWrapper = SiweMessageWrapper(siweMessage: MessageParams)

  /** A `BlockchainMessage`: one of the two concrete message classes. */
  datatype BlockchainMessage = Solana(siws: SiwsMessage) | Ethereum(siwe: SiweMessageWrapper)

  function ChainOf(b: BlockchainMessage): BlockchainType
  {
    match b
    case Solana(_) => Sol
    case Ethereum(_) => Evm
  }

  /** The record the message object was built from. */
  function ParamsOf(b: BlockchainMessage): MessageParams
  {
    match b
    case Solana(s) => s.fields
    case Ethereum(w) => w.siweMessage
  }

  function UnsupportedType(tag: string): Exception
  {
    PlainError("Unsupported blockchain type: " + tag)
  }

  /** `createMessage(params, type)`: the switch over the enum's string
      values, throwing for any other value. */
  function CreateMessage(params: MessageParams, tag: string, newSiwe: SiweConstructor)
    : (r: Result<BlockchainMessage, Exception>)
    ensures r.Success? <==> (tag == TagOf(Sol) || (tag == TagOf(Evm) && newSiwe(params).Success?))
    ensures r.Success? ==> ChainOf(r.value) == ParseBlockchainType(tag).value
    ensures r.Failure? && ParseBlockchainType(tag).None? ==> r.error == UnsupportedType(tag)
    ensures r.Failure? && ParseBlockchainType(tag).Some? ==> r == Failure(newSiwe(params).error)
  {
    if tag == TagOf(Sol) then Success(Solana(SiwsMessage(params)))
    else if tag == TagOf(Evm) then
      match newSiwe(params)
      case Success(fields) => Success(Ethereum(SiweMessageWrapper(fields)))
      case Failure(e) => Failure(e)
    else Failure(UnsupportedType(tag))
  }

  /** Every enum member yields a message of its own chain unless the `siwe`
      constructor throws; the Solana one is exactly `new SiwsMessage(params)`
      and the Ethereum one exposes what the constructor built. */
  lemma CreateForEveryType(params: MessageParams, t: BlockchainType, newSiwe: SiweConstructor)
    ensures t == Sol ==> CreateMessage(params, TagOf(t), newSiwe) == Success(Solana(SiwsMessage(params)))
    ensures t == Sol ==> ParamsOf(CreateMessage(params, TagOf(t), newSiwe).value) == params
    ensures t == Evm && newSiwe(params).Success? ==>
      CreateMessage(params, TagOf(t), newSiwe) == Success(Ethereum(SiweMessageWrapper(newSiwe(params).value)))
    ensures t == Evm && newSiwe(params).Failure? ==>
      CreateMessage(params, TagOf(t), newSiwe) == Failure(newSiwe(params).error)
    ensures CreateMessage(params, TagOf(t), newSiwe).Success? ==> ChainOf(CreateMessage(params, TagOf(t), newSiwe).value) == t
  {
    TagRoundTrip(t);
  }

  /** The error for an unknown tag names the tag, so distinct unknown tags
      give distinct errors. */
  lemma UnsupportedTypeNamesTag(a: string, b: string)
    ensures UnsupportedType(a) == UnsupportedType(b) ==> a == b
  {
    var prefix := "Unsupported blockchain type: ";
    if UnsupportedType(a) == UnsupportedType(b) {
      assert (prefix + a)[|prefix|..] == a;
      assert (prefix + b)[|prefix|..] == b;
    }
  }
}
