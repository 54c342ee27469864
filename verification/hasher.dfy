/**
  The password hasher (`pwd_context`, bcrypt through passlib): a salted,
  one-way `hash` and its `verify`. The salt is drawn at random by the
  library; here it is an explicit parameter.
*/
module Hasher {
  import Mixing

  /** What is stored instead of the password: the salt and a check value. */
  datatype Digest = Digest(salt: nat, check: int)

  /** `pwd_context.verify(password, digest)`. */
  predicate Verify(password: string, d: Digest) {
    Mixing.Mix(password, d.salt) == d.check
  }

  /**
    `pwd_context.hash(password)` with the random salt `salt`. The one
    promise the rest of the system relies on: the password verifies
    against its own digest.
  */
  function Hash(password: string, salt: nat): (d: Digest)
    ensures Verify(password, d)
  {
    Digest(salt, Mixing.Mix(password, salt))
  }
}
