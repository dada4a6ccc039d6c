/** The backend's configuration constants (src/be/core/config.py). */
module Config {

  const ACCESS_TOKEN_EXPIRE_MINUTES: nat := 15
  const REFRESH_TOKEN_EXPIRE_DAYS: nat := 7

  const PASSWORD_MIN_LENGTH: nat := 8
  const PASSWORD_MAX_LENGTH: nat := 128
  const USERNAME_MIN_LENGTH: nat := 3
  const USERNAME_MAX_LENGTH: nat := 30

  /** Lifetimes in seconds, the unit of the JWT `exp` and `iat` claims. */
  const ACCESS_TOKEN_SECONDS: nat := ACCESS_TOKEN_EXPIRE_MINUTES * 60
  const REFRESH_TOKEN_SECONDS: nat := REFRESH_TOKEN_EXPIRE_DAYS * 24 * 60 * 60
}
