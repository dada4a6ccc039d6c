/**
 * The library calls the backend makes and the model does not interpret: JWT signing and
 * decoding (python-jose), bcrypt through passlib, SHA-256 of a refresh token, Python's
 * `int()` on a claim, and pydantic's `EmailStr` validation. They are passed around as one value
 * of total functions, so every operation is defined for whatever those libraries return.
 */
module Primitives {
  import opened Wrappers
  import PyStr

  /** The claims a token carries, as read back with `payload.get(...)`; a missing claim is None. */
  datatype Payload = Payload(
    sub: Option<string>,
    username: Option<string>,
    tokenType: Option<string>,
    exp: Option<int>,
    iat: Option<int>)

  datatype Lib = Lib(
    /** `jwt.encode(claims, SECRET_KEY, algorithm="HS256")` */
    encode: Payload -> string,
    /** `jwt.decode(token, SECRET_KEY, ...)` at the moment of the call; None for any JWTError
        (bad signature, malformed token, expired `exp`) */
    decode: string -> Option<Payload>,
    /** `pwd_context.hash(password)` */
    hashPassword: string -> string,
    /** `pwd_context.verify(plain, hashed)` */
    verifyPassword: (string, string) -> bool,
    /** `hashlib.sha256(token.encode()).hexdigest()` */
    hashToken: string -> string,
    /** Python's `int(s)`; None where it raises */
    intOf: string -> Option<int>,
    /** pydantic's `EmailStr`: None for an invalid address, otherwise the normalized address
        the field holds afterwards (display name dropped, domain lower-cased) */
    normalizeEmail: string -> Option<string>)

  /** bcrypt accepts the password a hash was made from. */
  ghost predicate VerifiesOwnHashes(lib: Lib)
  {
    forall pw :: lib.verifyPassword(pw, lib.hashPassword(pw))
  }

  /** A token just issued decodes to the claims it was issued with. */
  ghost predicate DecodesFreshTokens(lib: Lib)
  {
    forall claims :: lib.decode(lib.encode(claims)) == Some(claims)
  }

  /** `int(str(n))` gives `n` back. */
  ghost predicate ParsesDecimals(lib: Lib)
  {
    forall n: nat :: lib.intOf(PyStr.NatToDecimal(n)) == Some(n)
  }
}
