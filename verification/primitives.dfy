/**
 The foreign cryptography (kyber, superSphincs, symCryptor) as opaque,
 uninterpreted functions passed in as values. A rejected promise or a thrown
 error is `None`. Randomness (key pairs, random bytes, nonces) is folded into
 these functions or supplied as explicit draws by the caller.
 */
module Primitives {
  import opened Js

  /** The result of `symCryptor.rndBytes(64)`. */
  type Random64 = s: Bytes | |s| == 64 witness seq(64, _ => 0)

  /** The server's `appCred`: its signing private key (base64-decoded) and its
      agent tag, used as associated data in everything the server produces. */
  datatype AppCred = AppCred(privateKey: Bytes, agent: string)

  datatype Crypto = Crypto(
    /** superSphincs.signDetached(message, privateKey, additionalData) */
    sign: (Bytes, Bytes, string) -> Option<Bytes>,
    /** kyber.decrypt(ciphertext, privateKey); the stored key may be undefined */
    kemDecrypt: (Bytes, Option<Bytes>) -> Option<Bytes>,
    /** symCryptor.decrypt(data, key) */
    decrypt: (Bytes, Bytes) -> Option<Bytes>,
    /** symCryptor.decrypt(data, key, shaKey, agent) */
    decryptWith: (Bytes, Bytes, Bytes, string) -> Option<Bytes>,
    /** superSphincs.verifyDetached(signature, message, publicKey, additionalData);
        a rejection reads as false, which the caller treats the same way */
    verify: (Bytes, Option<Bytes>, Bytes, Bytes) -> bool,
    /** symCryptor.encrypt(data, key, shaKey, agent) */
    encrypt: (Bytes, Bytes, Bytes, string) -> Option<Bytes>)

  /** The correctness assumption on the authenticated cipher: what `encrypt`
      produces, `decryptWith` under the same key, shaKey and agent recovers. */
  ghost predicate EncryptionRoundTrips(c: Crypto)
  {
    forall data, key, shaKey, agent {:trigger c.encrypt(data, key, shaKey, agent)} ::
      c.encrypt(data, key, shaKey, agent).Some? ==>
        c.decryptWith(c.encrypt(data, key, shaKey, agent).value, key, shaKey, agent) == Some(data)
  }

  /** The correctness assumption on the structured encoding (cbor-x). */
  ghost predicate DecodeInverts<V(!new)>(encode: V -> Option<Bytes>, decode: Bytes -> Option<V>)
  {
    forall v {:trigger encode(v)} :: encode(v).Some? ==> decode(encode(v).value) == Some(v)
  }
}
