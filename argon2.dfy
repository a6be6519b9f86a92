/**
 * The password-hashing library, left uninterpreted: `hash` and `verify` are
 * functions the model knows nothing about except, where a property needs it,
 * that a hash verifies against the password it was made from.
 */
module Argon2 {

  /** The cost parameters both call sites pass. */
  datatype Options = Options(memoryCost: nat, timeCost: nat, outputLen: nat, parallelism: nat)

  /**
   * `hash(password, options)` and `verify(hash, password, options)`. The salt
   * `hash` draws at random is its third argument.
   */
  datatype Hasher = Hasher(
    hash: (string, Options, string) -> string,
    verify: (string, string, Options) -> bool)

  /** A hash made with some options verifies against its password under the same options. */
  ghost predicate Sound(h: Hasher) {
    forall password, options, salt :: h.verify(h.hash(password, options, salt), password, options)
  }
}
