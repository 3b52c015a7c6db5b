/**
 * The one-way hashing the application gets from bcrypt, kept abstract: a
 * scheme is a pair of functions, and the only fact the model relies on is that
 * every secret verifies against its own digest.
 */
module Digests {

  /** `digest` turns a secret into the string that is stored; `verify` checks a plaintext against a stored digest. */
  datatype DigestScheme = DigestScheme(digest: string -> string, verify: (string, string) -> bool)

  /** Every secret verifies against the digest made from it. */
  ghost predicate Sound(h: DigestScheme) {
    forall s :: h.verify(s, h.digest(s))
  }
}
