/** Optional values and results with an error, used by every component. */
module Wrappers {
  datatype Option<+T> = None | Some(value: T)

  datatype Result<+T, +E> = Ok(value: T) | Err(error: E) {
    predicate IsFailure() {
      Err?
    }

    function PropagateFailure<U>(): Result<U, E>
      requires Err?
    {
      Err(error)
    }

    function Extract(): T
      requires Ok?
    {
      value
    }
  }

  /** The value a map holds for a key, as a lookup that may fail. */
  function Lookup<K, V>(m: map<K, V>, k: K): Option<V> {
    if k in m then Some(m[k]) else None
  }
}

/** SHA-256 as a free constructor: two digests are equal exactly when their inputs are. */
module Hashing {
  datatype Digest<+T> = Sha256(preimage: T)
}

/** RSA as free constructors: a signature verifies under a key exactly when that key's secret made it on that
    message. A secret fixes the sizes of its PEM text and of its Base64 signatures. */
module Signing {
  datatype SecretKey = SecretKey(id: nat, pemBytes: nat, signatureChars: nat)

  datatype PublicKey = PublicOf(secret: SecretKey)

  datatype Signature<+T> = Signed(signer: SecretKey, message: T)

  predicate Verifies<T(==)>(signature: Signature<T>, key: PublicKey, message: T) {
    signature == Signed(key.secret, message)
  }
}
