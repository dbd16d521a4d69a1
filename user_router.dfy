/**
 * Registration and login (api/routers/user.py).
 *
 * The users table of api/database.py becomes the map field of a `UserStore`
 * object, keyed by the unique email column. `register` is a check-then-insert
 * on it; `login` composes `AuthenticateUser` with `CreateAccessToken`.
 */
module UserRouter {
  import opened Wrappers
  import opened Http
  import opened Security

  /** Raised by `register` when the email already has a row. */
  const EmailAlreadyRegistered: HttpError := HttpError(400, "Email already registered")

  /** The detail `register` answers with on success. */
  const RegisteredDetail: string := "User registered successfully"

  /** The `token_type` of every token `login` issues. */
  const BearerTokenType: string := "bearer"

  /** The body of a successful `login` response. */
  datatype TokenResponse = TokenResponse(accessToken: string, tokenType: string)

  /** The row `register` inserts: the email and the hash of the password, never the plaintext. */
  function NewUserRow(h: Hasher, email: string, password: string, salt: Salt): (row: UserRow)
    ensures row.email == email && row.password == HashPassword(h, password, salt)
    ensures HasherSound(h) ==> VerifyPassword(h, password, row.password)
  {
    UserRow(email, HashPassword(h, password, salt))
  }

  class UserStore {
    /** The process-wide hashing context, fixed when the store is set up. */
    const hasher: Hasher
    var users: UserTable

    /** The email column is unique: every row is stored under its own email. */
    ghost predicate Valid()
      reads this
    {
      EmailsKeyed(users)
    }

    /** The table starts empty. */
    constructor (hasher: Hasher)
      ensures Valid() && users == map[] && this.hasher == hasher
    {
      this.hasher := hasher;
      users := map[];
    }

    /** `register`: 400 for a known email; otherwise inserts one row holding the password's hash. */
    method Register(email: string, password: string, salt: Salt) returns (r: Result<string, HttpError>)
      requires Valid()
      modifies this
      ensures Valid()
      ensures email in old(users) ==> r == Failure(EmailAlreadyRegistered) && users == old(users)
      ensures email !in old(users) ==>
        && r == Success(RegisteredDetail)
        && users == old(users)[email := NewUserRow(hasher, email, password, salt)]
        && |users| == |old(users)| + 1
      ensures forall e :: e != email ==> (e in users <==> e in old(users))
      ensures forall e :: e in old(users) ==> e in users && users[e] == old(users)[e]
    {
      if GetUser(users, email).Some? {
        return Failure(EmailAlreadyRegistered);
      }
      users := users[email := NewUserRow(hasher, email, password, salt)];
      r := Success(RegisteredDetail);
    }
  }

  /** `login`: authenticates, then issues a bearer access token for the authenticated user's email. */
  function Login(h: Hasher, codec: JwtCodec, secretKey: string, users: UserTable,
                 email: string, password: string, now: int): (r: Result<TokenResponse, HttpError>)
    ensures r.Success? <==> email in users && VerifyPassword(h, password, users[email].password)
    ensures r.Failure? ==> r.error == InvalidCredentials
    ensures r.Success? ==> r.value.tokenType == BearerTokenType
    ensures r.Success? && CodecSound(codec) ==>
      codec.decode(r.value.accessToken, secretKey, Algorithm) == Some(AccessTokenClaims(users[email].email, now))
    ensures r.Success? && CodecSound(codec) && EmailsKeyed(users) ==>
      codec.decode(r.value.accessToken, secretKey, Algorithm).value.sub == email
  {
    match AuthenticateUser(h, users, email, password)
    case Failure(e) => Failure(e)
    case Success(user) => Success(TokenResponse(CreateAccessToken(codec, secretKey, user.email, now), BearerTokenType))
  }

  /** A row inserted for a new email keeps every row stored under its own email. */
  lemma InsertKeepsEmailsKeyed(users: UserTable, row: UserRow)
    requires EmailsKeyed(users)
    ensures EmailsKeyed(users[row.email := row])
  {
  }

  /** Logging in with the password just registered succeeds and yields a token for that email. */
  lemma LoginAfterRegister(h: Hasher, codec: JwtCodec, secretKey: string, users: UserTable,
                           email: string, password: string, salt: Salt, now: int)
    requires HasherSound(h) && CodecSound(codec)
    requires email !in users
    ensures var r := Login(h, codec, secretKey, users[email := NewUserRow(h, email, password, salt)], email, password, now);
      && r.Success?
      && r.value.tokenType == BearerTokenType
      && codec.decode(r.value.accessToken, secretKey, Algorithm) == Some(AccessTokenClaims(email, now))
  {
  }

  /** Registering one email changes no other email's authentication outcome. */
  lemma RegisterLeavesOthersAlone(h: Hasher, users: UserTable, row: UserRow, email: string, password: string)
    requires email != row.email
    ensures AuthenticateUser(h, users[row.email := row], email, password) == AuthenticateUser(h, users, email, password)
  {
  }

  /** The request sequence of the registration and login tests, on a fresh table. */
  method UserScenario(h: Hasher, codec: JwtCodec, secretKey: string, now: int)
    requires HasherSound(h) && CodecSound(codec)
  {
    var store := new UserStore(h);
    var first := store.Register("test@test.com", "test", 0);
    assert first == Success(RegisteredDetail);
    var again := store.Register("test@test.com", "test", 1);
    assert again == Failure(EmailAlreadyRegistered);
    LoginAfterRegister(h, codec, secretKey, map[], "test@test.com", "test", 0, now);
    var ok := Login(store.hasher, codec, secretKey, store.users, "test@test.com", "test", now);
    assert ok.Success? && ok.value.tokenType == BearerTokenType;
    var unknown := Login(store.hasher, codec, secretKey, store.users, "not_found@test.com", "test", now);
    assert unknown == Failure(InvalidCredentials);
  }
}
