/** The error taxonomy of src/errors/errors.ts and the values JavaScript code
    can throw: a structured `BlockchainError`, a plain `Error(message)`, or a
    `TypeError` raised by reading a property of `undefined`/`null`. */
module Errors {
  import opened Wrappers

  /** The twelve member names shared by `SiwsErrorType` and `BlockchainErrorType`. */
  datatype ErrorKind =
    | ExpiredMessage
    | InvalidDomain
    | DomainMismatch
    | NonceMismatch
    | InvalidAddress
    | InvalidUri
    | InvalidNonce
    | NotYetValidMessage
    | InvalidSignature
    | InvalidTimeFormat
    | InvalidMessageVersion
    | UnableToParse

  const AllKinds: seq<ErrorKind> := [
    ExpiredMessage, InvalidDomain, DomainMismatch, NonceMismatch, InvalidAddress, InvalidUri,
    InvalidNonce, NotYetValidMessage, InvalidSignature, InvalidTimeFormat, InvalidMessageVersion,
    UnableToParse
  ]

  /** The string value of each member of the `SiwsErrorType` enum. */
  function SiwsErrorType(k: ErrorKind): string
  {
    match k
    case ExpiredMessage => "Expired message."
    case InvalidDomain => "Invalid domain."
    case DomainMismatch => "Domain does not match provided domain for verification."
    case NonceMismatch => "Nonce does not match provided nonce for verification."
    case InvalidAddress => "Invalid address. Address must be base58"
    case InvalidUri => "URI does not conform to RFC 3986."
    case InvalidNonce => "Nonce size smaller than 8 characters or is not alphanumeric."
    case NotYetValidMessage => "Message is not valid yet."
    case InvalidSignature => "Signature does not match address of the message."
    case InvalidTimeFormat => "Invalid time format."
    case InvalidMessageVersion => "Invalid message version."
    case UnableToParse => "Unable to parse the message."
  }

  /** The string value of each member of the `BlockchainErrorType` enum. */
  function BlockchainErrorType(k: ErrorKind): string
  {
    match k
    case ExpiredMessage => "Expired message."
    case InvalidDomain => "Invalid domain."
    case DomainMismatch => "Domain does not match provided domain for verification."
    case NonceMismatch => "Nonce does not match provided nonce for verification."
    case InvalidAddress => "Invalid address."
    case InvalidUri => "URI does not conform to RFC 3986."
    case InvalidNonce => "Nonce size smaller then 8 characters or is not alphanumeric."
    case NotYetValidMessage => "Message is not valid yet."
    case InvalidSignature => "Signature does not match address of the message."
    case InvalidTimeFormat => "Invalid time format."
    case InvalidMessageVersion => "Invalid message version."
    case UnableToParse => "Unable to parse the message."
  }

  /** The enumeration has exactly twelve members, each listed once. */
  lemma TwelveKinds()
    ensures |AllKinds| == 12
    ensures forall k: ErrorKind :: k in AllKinds
    ensures forall i, j :: 0 <= i < j < |AllKinds| ==> AllKinds[i] != AllKinds[j]
  {
    forall k: ErrorKind
      ensures k in AllKinds
    {
      match k
      case ExpiredMessage => assert AllKinds[0] == k;
      case InvalidDomain => assert AllKinds[1] == k;
      case DomainMismatch => assert AllKinds[2] == k;
      case NonceMismatch => assert AllKinds[3] == k;
      case InvalidAddress => assert AllKinds[4] == k;
      case InvalidUri => assert AllKinds[5] == k;
      case InvalidNonce => assert AllKinds[6] == k;
      case NotYetValidMessage => assert AllKinds[7] == k;
      case InvalidSignature => assert AllKinds[8] == k;
      case InvalidTimeFormat => assert AllKinds[9] == k;
      case InvalidMessageVersion => assert AllKinds[10] == k;
      case UnableToParse => assert AllKinds[11] == k;
    }
  }

  /** The two enumerations agree on every text except the address and nonce ones. */
  lemma EnumTextsDiffer(k: ErrorKind)
    ensures SiwsErrorType(k) != BlockchainErrorType(k) <==> (k == InvalidAddress || k == InvalidNonce)
  {
  }

  /** Over the whole enumeration, exactly two members have different texts in
      the two enums. */
  lemma DifferingKinds()
    ensures (set k | k in AllKinds && SiwsErrorType(k) != BlockchainErrorType(k)) == {InvalidAddress, InvalidNonce}
  {
    TwelveKinds();
    assert AllKinds[4] == InvalidAddress && AllKinds[6] == InvalidNonce;
  }

  /** No two `SiwsErrorType` members share a string value, so the `type` string
      of an error identifies its kind. */
  lemma SiwsErrorTypeInjective(a: ErrorKind, b: ErrorKind)
    ensures SiwsErrorType(a) == SiwsErrorType(b) ==> a == b
  {
    // The twelve texts have twelve different lengths.
    SiwsTextLength(a);
    SiwsTextLength(b);
  }

  lemma SiwsTextLength(k: ErrorKind)
    ensures |SiwsErrorType(k)| == match k
      case ExpiredMessage => 16 case InvalidDomain => 15 case DomainMismatch => 55
      case NonceMismatch => 53 case InvalidAddress => 39 case InvalidUri => 33
      case InvalidNonce => 60 case NotYetValidMessage => 25 case InvalidSignature => 48
      case InvalidTimeFormat => 20 case InvalidMessageVersion => 24 case UnableToParse => 28
  {
    match k
    case ExpiredMessage => case InvalidDomain => case DomainMismatch =>
    case NonceMismatch => case InvalidAddress => case InvalidUri =>
    case InvalidNonce => case NotYetValidMessage => case InvalidSignature =>
    case InvalidTimeFormat => case InvalidMessageVersion => case UnableToParse =>
  }

  /** `BlockchainError.type` is declared `ErrorType | string`: an enum member, or
      a free-form text such as the address error's composed message. */
  datatype ErrorTag = Kind(kind: ErrorKind) | Text(text: string)

  /** The fields of a `BlockchainError`: the constructor stores its three
      arguments as given, and `expected`/`received` may be absent. */
  datatype BlockchainError = BlockchainError(errorType: ErrorTag, expected: Option<string>, received: Option<string>)

  /** The class a structured error was constructed with. `SiwsError` and
      `SiweError` extend `BlockchainError` without adding fields, so only
      `instanceof` tells them apart. */
  datatype ErrorClass = BlockchainErrorClass | SiwsErrorClass | SiweErrorClass

  /** A value thrown by JavaScript code. */
  datatype Exception =
    | Structured(errorClass: ErrorClass, error: BlockchainError)
    | PlainError(message: string)
    | TypeError

  /** `new BlockchainError(type, expected, received)`. */
  function BaseError(t: ErrorTag, expected: Option<string>, received: Option<string>): Exception
  {
    Structured(BlockchainErrorClass, BlockchainError(t, expected, received))
  }

  /** `new SiwsError(kind, expected, received)`. */
  function SiwsError(k: ErrorKind, expected: Option<string>, received: Option<string>): Exception
  {
    Structured(SiwsErrorClass, BlockchainError(Kind(k), expected, received))
  }

  /** `e instanceof BlockchainError`: true of every subclass. */
  predicate IsBlockchainError(e: Exception)
  {
    e.Structured?
  }

  /** `e instanceof SiwsError`. */
  predicate IsSiwsError(e: Exception)
  {
    e.Structured? && e.errorClass == SiwsErrorClass
  }

  /** The kind an exception reports, when it is a structured error with an enum type. */
  function KindOf(e: Exception): Option<ErrorKind>
  {
    if e.Structured? && e.error.errorType.Kind? then Some(e.error.errorType.kind) else None
  }
}
