/**
 The foreign cryptography the node calls. Every theorem takes a `Crypto` value,
 so nothing is assumed of it beyond the hypotheses the theorem itself states.
 */
module Cryptography {
  import opened Bytes

  type Secret = H256
  type Public = H512

  /** `r` and `s` are the big-endian values of the source's 32-byte halves. */
  datatype Signature = Signature(r: U256, s: U256, v: Byte)

  /** Why a key or a signature is refused. Recovery and verification share this
      one type, so recovery may fail with `InvalidSignature` too. */
  datatype KeyError = InvalidSignature | OtherKeyError(code: nat)

  datatype Crypto = Crypto(
    keccak: seq<Byte> -> H256,
    sign: (Secret, H256) -> Signature,
    recover: (Signature, H256) -> Result<Public, KeyError>,
    publicOf: Secret -> Public,
    isLowS: Signature -> bool)
  {
    /** `public_to_address`: the low twenty bytes of the key's hash. */
    function AddressOf(key: Public): H160 {
      LowH160(keccak(key))
    }

    /** What signing `message` with `secret` is relied on to give: a signature
        that recovers to the signer, is not the empty one and has recovery id 0 or 1. */
    predicate Signs(secret: Secret, message: H256) {
      var sig := sign(secret, message);
      && recover(sig, message) == Ok(publicOf(secret))
      && (sig.r != 0 || sig.s != 0)
      && sig.v < 2
    }

    /** No two different members of `preimages` share a hash. */
    ghost predicate CollisionFree(preimages: set<seq<Byte>>) {
      forall a, b :: a in preimages && b in preimages && keccak(a) == keccak(b) ==> a == b
    }
  }

  /** The conversion from a 32-byte hash to an address keeps the low bytes. */
  function LowH160(h: H256): H160 {
    h[12..]
  }
}
