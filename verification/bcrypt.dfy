/**
  The two bcrypt calls the auth routes make, kept uninterpreted.

  Hashing draws a random salt and runs a deliberately slow digest; neither the
  randomness nor the digest is modelled. A `Hasher` is any pair of total
  functions, and the properties real bcrypt has are stated as predicates that
  only the lemmas needing them assume.
*/
module Bcrypt {

  /** Cost factor passed to `genSaltSync` by the signup route. */
  const SaltRounds: nat := 10

  /** Length of every string bcrypt's `hashSync` produces ("$2b$10$", a 22-character salt, a 31-character digest). */
  const HashLength: nat := 60

  /** The random bytes `genSaltSync` draws; supplied by the caller of signup. */
  type Nonce = seq<int>

  /** A bcrypt salt: the cost factor and the random part. */
  datatype Salt = Salt(rounds: nat, nonce: Nonce)

  /** `hash` stands for `hashSync(password, salt)`, `compare` for `compareSync(password, hash)`. */
  datatype Hasher = Hasher(hash: (string, Salt) -> string, compare: (string, string) -> bool)

  /** `genSaltSync(SaltRounds)`, with the random part given. */
  function GenSalt(nonce: Nonce): Salt
  {
    Salt(SaltRounds, nonce)
  }

  /** Comparing a password with any hash of that same password succeeds. */
  ghost predicate Sound(h: Hasher)
  {
    forall password, salt :: h.compare(password, h.hash(password, salt))
  }

  /** Every hash has bcrypt's fixed length. */
  ghost predicate FixedLength(h: Hasher)
  {
    forall password, salt :: |h.hash(password, salt)| == HashLength
  }

  /** What real bcrypt guarantees of the two calls. */
  ghost predicate Valid(h: Hasher)
  {
    Sound(h) && FixedLength(h)
  }
}
