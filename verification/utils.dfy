/** src/common/utils.ts: the Solana address test over opaque key predicates,
    and the key-shape check `checkInvalidKeys`. */
module Utils {

  /** The two facts about a candidate address that `@solana/web3.js` decides:
      whether `new PublicKey(address)` succeeds, and whether the decoded key
      lies on the ed25519 curve. Both are outside this model. */
  datatype KeyOracle = KeyOracle(parsesAsPublicKey: string -> bool, isOnCurve: string -> bool)

  /** `isSolanaAddress`: total (a failed parse is caught and gives false);
      with `allowOffCurve` every parseable key is accepted, otherwise only
      on-curve keys are. */
  function IsSolanaAddress(address: string, allowOffCurve: bool, keys: KeyOracle): (r: bool)
    ensures !keys.parsesAsPublicKey(address) ==> !r
    ensures allowOffCurve ==> (r <==> keys.parsesAsPublicKey(address))
    ensures !allowOffCurve ==> (r <==> keys.parsesAsPublicKey(address) && keys.isOnCurve(address))
  {
    if !keys.parsesAsPublicKey(address) then false
    else if allowOffCurve then true
    else keys.isOnCurve(address)
  }

  /** Allowing off-curve keys only ever widens the accepted set. */
  lemma OffCurveFlagWidens(address: string, keys: KeyOracle)
    ensures IsSolanaAddress(address, false, keys) ==> IsSolanaAddress(address, true, keys)
  {
  }

  /** The keys of an object that are not in the allowed list, in the object's
      key order. */
  function InvalidKeys(keys: seq<string>, allowed: seq<string>): (r: seq<string>)
    ensures forall k :: k in r <==> k in keys && k !in allowed
    ensures |r| <= |keys|
  {
    if |keys| == 0 then []
    else if keys[0] in allowed then InvalidKeys(keys[1..], allowed)
    else [keys[0]] + InvalidKeys(keys[1..], allowed)
  }

  /** `a` is `b` with some elements deleted and the rest kept in order. */
  predicate IsSubsequence(a: seq<string>, b: seq<string>)
    decreases |b|
  {
    if |a| == 0 then true
    else if |b| == 0 then false
    else (a[0] == b[0] && IsSubsequence(a[1..], b[1..])) || IsSubsequence(a, b[1..])
  }

  /** The invalid keys keep the object's key order. */
  lemma {:induction false} InvalidKeysIsSubsequence(keys: seq<string>, allowed: seq<string>)
    ensures IsSubsequence(InvalidKeys(keys, allowed), keys)
    decreases |keys|
  {
    if |keys| > 0 {
      InvalidKeysIsSubsequence(keys[1..], allowed);
      var r := InvalidKeys(keys, allowed);
      if keys[0] !in allowed {
        assert r[0] == keys[0] && r[1..] == InvalidKeys(keys[1..], allowed);
      }
    }
  }

  /** Filtering distributes over concatenation of key lists. */
  lemma {:induction false} InvalidKeysAppend(a: seq<string>, b: seq<string>, allowed: seq<string>)
    ensures InvalidKeys(a + b, allowed) == InvalidKeys(a, allowed) + InvalidKeys(b, allowed)
    decreases |a|
  {
    if |a| == 0 {
      assert a + b == b;
    } else {
      assert (a + b)[0] == a[0] && (a + b)[1..] == a[1..] + b;
      InvalidKeysAppend(a[1..], b, allowed);
    }
  }

  /** No invalid key is reported exactly when every key is allowed. */
  lemma InvalidKeysEmptyIff(keys: seq<string>, allowed: seq<string>)
    ensures InvalidKeys(keys, allowed) == [] <==> forall i :: 0 <= i < |keys| ==> keys[i] in allowed
  {
    var r := InvalidKeys(keys, allowed);
    if r != [] {
      assert r[0] in r;
    }
  }

  /** `checkInvalidKeys`: walk the object's keys, pushing each one the allowed
      list does not include. */
  method CheckInvalidKeys(objKeys: seq<string>, allowed: seq<string>) returns (invalidKeys: seq<string>)
    ensures forall k :: k in invalidKeys <==> k in objKeys && k !in allowed
    ensures IsSubsequence(invalidKeys, objKeys)
    ensures invalidKeys == InvalidKeys(objKeys, allowed)
  {
    invalidKeys := [];
    var i := 0;
    while i < |objKeys|
      invariant 0 <= i <= |objKeys|
      invariant invalidKeys == InvalidKeys(objKeys[..i], allowed)
    {
      var key := objKeys[i];
      assert objKeys[..i + 1] == objKeys[..i] + [key];
      InvalidKeysAppend(objKeys[..i], [key], allowed);
      if key !in allowed {
        invalidKeys := invalidKeys + [key];
      }
      i := i + 1;
    }
    assert objKeys[..i] == objKeys;
    InvalidKeysIsSubsequence(objKeys, allowed);
  }
}
