/**
  The bearer token (`jwt.encode` / `jwt.decode` from the `jose` library)
  as an abstract signed envelope. Time is counted in whole minutes.
*/
module Jwt {
  import opened Wrappers
  import Mixing

  /** The claims of a token: the subject and the absolute expiry, both optional. */
  datatype Claims = Claims(sub: Option<string>, exp: Option<int>)

  /** A presented token: a signed envelope, or text that does not parse as one. */
  datatype Token =
    | Signed(alg: string, claims: Claims, signature: int)
    | Malformed(text: string)

  /** The reasons `jwt.decode` raises a `JWTError`. */
  datatype DecodeError = MalformedToken | AlgorithmNotAllowed | BadSignature | Expired

  /** The signature of `claims` under `alg` with the secret `key` (HMAC stand-in). */
  function Sign(alg: string, claims: Claims, key: string): int {
    var subCode := match claims.sub
      case None => 0
      case Some(s) => Mixing.Mix(s, 1);
    var expCode := match claims.exp
      case None => 0
      case Some(e) => e * 2 + 1;
    Mixing.Mix(key, Mixing.Mix(alg, subCode * 3 + expCode))
  }

  /** `jwt.encode(claims, key, algorithm=alg)`. */
  function Encode(claims: Claims, key: string, alg: string): (t: Token)
    ensures t.Signed? && t.alg == alg && t.claims == claims
    ensures forall now :: claims.exp.None? || now < claims.exp.value ==>
      Decode(t, key, alg, now) == Success(claims)
  {
    Signed(alg, claims, Sign(alg, claims, key))
  }

  /** A token has expired at `now` when it carries an expiry that lies before `now`. */
  predicate ExpiredAt(c: Claims, now: int) {
    c.exp.Some? && c.exp.value < now
  }

  /**
    `jwt.decode(token, key, algorithms=[alg])`: the claims of a well-formed
    token signed with `key` under the one allowed algorithm, provided it has
    not expired at `now`.
  */
  function Decode(t: Token, key: string, alg: string, now: int): (r: Result<Claims, DecodeError>)
    ensures r.Success? ==> t.Signed? && r.value == t.claims
    ensures r.Success? ==> t.alg == alg && t.signature == Sign(alg, t.claims, key)
    ensures r.Success? && r.value.exp.Some? ==> now <= r.value.exp.value
    ensures t.Malformed? ==> r == Failure(MalformedToken)
  {
    match t
    case Malformed(_) => Failure(MalformedToken)
    case Signed(a, c, sig) =>
      if a != alg then Failure(AlgorithmNotAllowed)
      else if sig != Sign(a, c, key) then Failure(BadSignature)
      else if ExpiredAt(c, now) then Failure(Expired)
      else Success(c)
  }

  /** Once its expiry has passed, an honestly signed token is refused as expired. */
  lemma DecodeRejectsExpired(c: Claims, key: string, alg: string, now: int)
    requires c.exp.Some? && c.exp.value < now
    ensures Decode(Encode(c, key, alg), key, alg, now) == Failure(Expired)
  {
  }
}
