/**
 * Authentication decisions and access-token claims (api/security.py).
 *
 * The password hasher (bcrypt behind passlib), the JWT encoder (python-jose)
 * and the clock are parameters: a `Hasher`, a `JwtCodec` and an integer
 * `now` in Unix seconds. What they are assumed to satisfy is stated as the
 * ghost predicates `HasherSound` and `CodecSound`, which the lemmas take as
 * hypotheses.
 */
module Security {
  import opened Wrappers
  import opened Http

  // ---------------------------------------------------------------------
  // Password hashing

  /** bcrypt draws a fresh random salt on every call; the model takes it as input. */
  type Salt = nat

  /** The hashing scheme: a salted one-way `hash` and its `verify` check. */
  datatype Hasher = Hasher(hash: (string, Salt) -> string, verify: (string, string) -> bool)

  /** What bcrypt guarantees: a password verifies against every hash of itself. */
  ghost predicate HasherSound(h: Hasher) {
    forall p, s :: h.verify(p, h.hash(p, s))
  }

  /** `hash_password`: the stored form of a plaintext password, under the salt drawn for it. */
  function HashPassword(h: Hasher, password: string, salt: Salt): (hashed: string)
    ensures HasherSound(h) ==> h.verify(password, hashed)
  {
    h.hash(password, salt)
  }

  /** `verify_password`: does the plaintext match the stored hash? Every salted hash of it does. */
  function VerifyPassword(h: Hasher, password: string, hashed: string): (ok: bool)
    ensures HasherSound(h) && (exists s :: hashed == h.hash(password, s)) ==> ok
  {
    h.verify(password, hashed)
  }

  /** A password always verifies against its own hash, whatever the salt. */
  lemma HashThenVerify(h: Hasher, password: string, salt: Salt)
    requires HasherSound(h)
    ensures VerifyPassword(h, password, HashPassword(h, password, salt))
  {
  }

  // ---------------------------------------------------------------------
  // Access tokens

  /** The signing algorithm, HMAC with SHA-256 (section 3.2 of RFC 7518). */
  const Algorithm: string := "HS256"

  const SecondsPerMinute: int := 60

  /** The claim set of a token: subject and expiry (sections 4.1.2 and 4.1.4 of RFC 7519). */
  datatype Claims = Claims(sub: string, exp: int)

  /**
   * The JWT library: `encode(claims, key, algorithm)` signs and serialises,
   * `decode(token, key, algorithm)` checks the signature and gives back the claims.
   */
  datatype JwtCodec = JwtCodec(
    encode: (Claims, string, string) -> string,
    decode: (string, string, string) -> Option<Claims>)

  /** What the JWT library guarantees: a token decodes, under the key that signed it, to its claims. */
  ghost predicate CodecSound(c: JwtCodec) {
    forall cl, key, alg :: c.decode(c.encode(cl, key, alg), key, alg) == Some(cl)
  }

  /** `access_token_expires_minutes`: the lifetime of an access token. */
  function AccessTokenExpiresMinutes(): (m: nat)
    ensures m == 30
  {
    30
  }

  /** The claims `create_access_token` signs for `email` at time `now` (Unix seconds). */
  function AccessTokenClaims(email: string, now: int): (c: Claims)
    ensures c.sub == email
    ensures c.exp - now == AccessTokenExpiresMinutes() * SecondsPerMinute
    ensures c.exp > now
  {
    Claims(email, now + AccessTokenExpiresMinutes() * SecondsPerMinute)
  }

  /** `create_access_token`: the signed access token for `email`, issued at `now`. */
  function CreateAccessToken(codec: JwtCodec, secretKey: string, email: string, now: int): (token: string)
    ensures CodecSound(codec) ==>
      codec.decode(token, secretKey, Algorithm) == Some(AccessTokenClaims(email, now))
  {
    codec.encode(AccessTokenClaims(email, now), secretKey, Algorithm)
  }

  /** Decoding an access token with the signing key yields subject `email`, expiring 30 minutes after `now`. */
  lemma AccessTokenRoundTrip(codec: JwtCodec, secretKey: string, email: string, now: int)
    requires CodecSound(codec)
    ensures var d := codec.decode(CreateAccessToken(codec, secretKey, email, now), secretKey, Algorithm);
      d.Some? && d.value.sub == email && d.value.exp == now + 30 * 60 && d.value.exp > now
  {
  }

  // ---------------------------------------------------------------------
  // The user table and authentication

  /** A row of the users table: its email and the hash of its password. */
  datatype UserRow = UserRow(email: string, password: string)

  /** The users table, keyed by its unique email column. */
  type UserTable = map<string, UserRow>

  /** Each row is stored under its own email: the email column is unique. */
  ghost predicate EmailsKeyed(users: UserTable) {
    forall e :: e in users ==> users[e].email == e
  }

  /** `get_user`: the row whose email matches, or `None` when there is none. */
  function GetUser(users: UserTable, email: string): (r: Option<UserRow>)
    ensures r.Some? <==> email in users
    ensures r.Some? ==> r.value == users[email]
    ensures EmailsKeyed(users) ==>
      (r.Some? <==> exists u :: u in users.Values && u.email == email)
    ensures EmailsKeyed(users) && r.Some? ==> r.value in users.Values && r.value.email == email
  {
    if email in users then
      assert users[email] in users.Values;
      Some(users[email])
    else
      None
  }

  /** The one failure `authenticate_user` raises, for an unknown email and a wrong password alike. */
  const InvalidCredentials: HttpError := HttpError(401, "Invalid credentials")

  /** `authenticate_user`: the stored user when the password verifies, otherwise 401 "Invalid credentials". */
  function AuthenticateUser(h: Hasher, users: UserTable, email: string, password: string): (r: Result<UserRow, HttpError>)
    ensures email !in users ==> r == Failure(InvalidCredentials)
    ensures email in users && !VerifyPassword(h, password, users[email].password) ==> r == Failure(InvalidCredentials)
    ensures r.Success? <==> email in users && VerifyPassword(h, password, users[email].password)
    ensures r.Success? ==> r.value == users[email] && VerifyPassword(h, password, r.value.password)
    ensures EmailsKeyed(users) && r.Success? ==> r.value.email == email
  {
    var user := GetUser(users, email);
    if user.None? then
      Failure(InvalidCredentials)
    else if !VerifyPassword(h, password, user.value.password) then
      Failure(InvalidCredentials)
    else
      Success(user.value)
  }

  /** An unknown email and a wrong password are indistinguishable to the caller. */
  lemma FailuresIndistinguishable(h: Hasher, users: UserTable, unknown: string, known: string, p1: string, p2: string)
    requires unknown !in users
    requires known in users && !VerifyPassword(h, p2, users[known].password)
    ensures AuthenticateUser(h, users, unknown, p1) == AuthenticateUser(h, users, known, p2)
  {
  }
}
