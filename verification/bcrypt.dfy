/**
 * The password hasher (`bcrypt.hash` / `bcrypt.compare`), modelled symbolically:
 * a digest is a term recording the cost, the random salt and the password it was
 * made from, and the only way the rest of the model looks inside it is `Compare`.
 * The random salt is a parameter.
 */
module Bcrypt {

  /** The cost factor the registration handler passes to `bcrypt.hash`. */
  const SaltRounds: nat := 10

  datatype Digest = Digest(cost: nat, salt: nat, preimage: string)

  /** `bcrypt.compare(password, digest)`: true exactly for the password the digest was made from. */
  predicate Compare(password: string, digest: Digest) {
    digest.preimage == password
  }

  /** `bcrypt.hash(password, cost)` with the salt it draws given explicitly. */
  function Hash(password: string, cost: nat, salt: nat): (d: Digest)
    ensures d.cost == cost && d.salt == salt
    ensures Compare(password, d)
    ensures forall other :: Compare(other, d) ==> other == password
  {
    Digest(cost, salt, password)
  }

  /** `bcrypt.compare` accepts a digest exactly when it is the hash of that password under the digest's own cost and salt. */
  lemma CompareAcceptsOnlyItsHash(password: string, digest: Digest)
    ensures Compare(password, digest) <==> digest == Hash(password, digest.cost, digest.salt)
  {
  }
}
