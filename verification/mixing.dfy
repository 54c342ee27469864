/**
  A stand-in for the one-way functions the system borrows from its
  libraries (bcrypt's key derivation, HMAC-SHA256). Nothing in the model
  depends on how it mixes its input: the hasher and the token signer only
  rely on it being a function, so that recomputing it on the same input
  gives the same value.
*/
module Mixing {

  /** Folds the characters of `s` into the accumulator `acc`. */
  function Mix(s: string, acc: int): int
    decreases |s|
  {
    if |s| == 0 then acc else Mix(s[1..], acc * 257 + s[0] as int)
  }
}
