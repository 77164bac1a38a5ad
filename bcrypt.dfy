/** The password hashing library (`bcrypt.hash`, `bcrypt.compare`), reduced to
    one promise: a password always matches a digest made from it.

    The salt that `bcrypt.hash` draws at random is a parameter here. The digest
    is an ideal one (it records its salt and what was hashed), so that the
    model has bodies; the lemmas about the handlers use only the postcondition
    of `Hash` and otherwise treat `Compare` as an unknown predicate. The work
    factor and the library's own encoding are not modelled. */
module Bcrypt {

  type Salt = nat

  datatype Digest = Digest(salt: Salt, hashed: string)

  /** `bcrypt.compare(password, digest)`. */
  predicate Compare(password: string, digest: Digest)
  {
    digest.hashed == password
  }

  /** `bcrypt.hash(password, 10)` with the salt it would draw. */
  function Hash(password: string, salt: Salt): (digest: Digest)
    ensures Compare(password, digest)
    ensures digest.salt == salt
  {
    Digest(salt, password)
  }
}
