# social-media-api: authentication, registration and the post store

A Dafny model of the sequential core of a small FastAPI social-posting backend:

- **Security** (`security.dfy`, api/security.py): password hashing and verification, access-token claims, the user lookup by email and the `authenticate_user` guard chain. All of it is pure functions. The bcrypt hasher is a `Hasher` parameter. The JWT library is a `JwtCodec` parameter. The clock is an integer `now` in Unix seconds. What the libraries guarantee is written as two ghost predicates, which lemmas and contracts take as hypotheses:
  - `HasherSound`: a password verifies against every salted hash of itself;
  - `CodecSound`: a token decodes, under the key and algorithm that signed it, to its claims.
- **PostRouter** (`post_router.dfy`, api/routers/post.py and api/models/post.py): the two module-level dictionaries `post_table` and `comment_table`. They are the two map fields of a `PostStore` object, with creating methods and read-only methods. Its invariant `Valid()` has three parts:
  - the keys of each table are exactly `0..n-1`;
  - each record's `id` equals its key;
  - every comment refers to a stored post.
  Because new ids are the table size, id order is the order in which a Python dict yields its values, so the ordered reads are loops over `0..n-1`.
- **UserRouter** (`user_router.dfy`, api/routers/user.py): `register` is a check-then-insert on the users table, the map field of a `UserStore` keyed by the unique email column. `login` composes `AuthenticateUser` with `CreateAccessToken`.
- **Wrappers**, **Http**: `Option`, `Result` and the `HttpError(status, detail)` that routes raise.

Two client methods, `PostRouter.PostScenario` and `UserRouter.UserScenario`, follow the request sequences of the repository's tests against the contracts. `PostScenario` ends with one extra step no test makes: a comment on a missing post, which takes the 404 path.

The code has no token types, no confirmation tokens, no `confirmed` flag and no "User not confirmed" failure. Its posts and comments are held in an in-memory dictionary and not in the database. The registration response is "User registered successfully".

## Model

| member | source | states |
|---|---|---|
| Security.AccessTokenExpiresMinutes | api/security.py:19-20 | access tokens live 30 minutes |
| Security.AccessTokenClaims | api/security.py:24-28 | the claim set has `sub` exactly the email and `exp` 30 minutes (1800 s) after `now`, so strictly later than `now` |
| Security.CreateAccessToken | api/security.py:22-30 | under a sound codec, the token decodes with the secret key and HS256 to exactly the access-token claims for that email and time |
| Security.AccessTokenRoundTrip | api/security.py:24-29 | decoding an issued token yields subject = email and an expiry of now + 30*60, later than now |
| Security.HashPassword | api/security.py:32-33 | the stored form is the hasher's hash of the password under the salt drawn for it, and under a sound hasher the password verifies against it |
| Security.VerifyPassword | api/security.py:35-36 | the hasher's check of a plaintext against a stored hash; under a sound hasher it accepts every salted hash of that plaintext |
| Security.HashThenVerify | api/security.py:32-36 | `verify_password(p, hash_password(p))` holds for every salt, given a sound hasher |
| Security.GetUser | api/security.py:47-53 | `Some` exactly when the email has a row, and then that row; on a table keyed by email, `Some` exactly when some stored row has that email, and the row returned has it |
| Security.AuthenticateUser | api/security.py:38-45 | unknown email and wrong password both fail with 401 "Invalid credentials"; success exactly when the email is stored and the password verifies, returning the stored row, whose email is the one asked for |
| Security.FailuresIndistinguishable | api/security.py:40-44 | the unknown-email failure and the wrong-password failure are the same value |
| PostRouter.PostStore.constructor | api/routers/post.py:6-7 | both tables start empty and the invariant holds |
| PostRouter.PostStore.FindPost | api/routers/post.py:9-10 | `Some` exactly when the id is a key of the post table, and then the stored post |
| PostRouter.PostStore.CreatePost | api/routers/post.py:32-38 | the new post has id = the old table size and the input body; it is stored under that id, the table grows by one, old posts and all comments are unchanged, and the invariant is kept |
| PostRouter.PostStore.CreateComment | api/routers/post.py:12-23 | missing post: 404 "Post not found" and both tables unchanged; otherwise a comment with id = old comment-table size and the given body and post id is stored, the table grows by one, the post table is unchanged, and the invariant is kept |
| PostRouter.PostStore.GetComments | api/routers/post.py:25-30 | missing post: 404 "Post not found"; otherwise exactly the stored comments whose post id matches (each listed one is stored with that post id, each such stored one is listed), in strictly increasing id order, i.e. insertion order |
| PostRouter.PostStore.GetPost | api/routers/post.py:40-42 | a post exactly when `0 <= id < n`, and then the stored post whose `id` is the id asked for |
| PostRouter.PostStore.GetPosts | api/routers/post.py:44-46 | all n stored posts, the j-th being the post with id j, so in insertion order, and every stored post listed |
| UserRouter.UserStore.constructor | api/database.py:22-28 | the users table (api/database.py:22-28) starts empty, with unique emails, and holds the hasher it is given, standing for the one process-wide `pwd_context` of api/security.py:17 that every registration uses |
| UserRouter.NewUserRow | api/routers/user.py:15 | the inserted row holds the given email and `hash_password(password)`, not the plaintext, and the password verifies against it |
| UserRouter.UserStore.Register | api/routers/user.py:11-18 | known email: 400 "Email already registered" and nothing inserted; new email: "User registered successfully", exactly one row added holding the email and `hash_password(password)`, every other row unchanged, email uniqueness kept |
| UserRouter.Login | api/routers/user.py:20-23 | success exactly when the credentials authenticate; failures are 401 "Invalid credentials" unchanged; on success the token type is "bearer" and the token decodes to the access-token claims for the authenticated user's email, which is the email given |
| UserRouter.InsertKeepsEmailsKeyed | api/routers/user.py:13-15 | inserting a row under its own email keeps the email column unique |
| UserRouter.LoginAfterRegister | api/routers/user.py:11-23 | after registering an email with a password, logging in with them succeeds with a bearer token whose claims are the access-token claims for that email |
| UserRouter.RegisterLeavesOthersAlone | api/routers/user.py:15-17 | inserting one email's row changes no other email's authentication outcome |

## Left out

- bcrypt and its salt generation are behind passlib: the hasher is a parameter, its salt an input, and "verify(p, hash(p))" a hypothesis (`HasherSound`). The model does not state that distinct passwords fail to verify, which holds only with overwhelming probability.
- JWT signing, base64url serialisation and the HS256 MAC are behind python-jose: the codec is a parameter and its round trip a hypothesis (`CodecSound`). python-jose's expiry check at decode time is not modelled. `jwt.encode`'s conversion of the `datetime` expiry into whole Unix seconds is taken as exact, because `now` is already whole seconds.
- The secret key and the database connection: api/security.py:9 imports the modules `api.config` and `api.database`, so `config.SECRET_KEY` (api/security.py:29) and `database.fetch_one` (api/security.py:51) name attributes those modules do not define (api/config.py:43 and api/database.py:34 define objects named `config` and `database` inside them), unless `api/__init__.py`, which is not part of this model, re-exports them. The model assumes both names denote the settings object and the `Database` instance; it does not model the AttributeError (an HTTP 500 from `create_access_token`, `get_user`, `authenticate_user`, `register` and `login`) that the lookups would otherwise raise.
- `datetime.utcnow()` is the integer parameter `now`. The secret key from configuration is the parameter `secretKey`, a string: the model assumes the key is configured. `SECRET_KEY` defaults to `None` (api/config.py:18) and the test configuration (api/config.py:29-33) gives it no value; with no key, `jwt.encode` at api/security.py:29 would raise instead of returning a token, and that failure is not modelled.
- The hasher is fixed per `UserStore` (api/security.py:17 has one process-wide `pwd_context`); the JWT codec and the secret key stay parameters of `Login`, so nothing ties them to one value across calls.
- The database (SQLAlchemy queries, the `databases` connection, schema creation in api/database.py) is a map keyed by email. The users table's `id` column, assigned by the database, is not modelled. api/models/user.py is not part of this model.
- Concurrency: `register`'s check-then-insert is modelled as one atomic step. Two concurrent registrations of one email, which the unique column would reject, are not modelled. async/await has no role here.
- FastAPI request validation (422 for a missing body) is not modelled. Nor is response validation: what FastAPI does with the `None` that `get_post` returns for a missing id.
- Logging calls (`logger.debug`), email delivery (api/tasks.py) and logging configuration are not modelled; none of them affects a result. Settings loading is not modelled either; it does affect results, through the unset `SECRET_KEY` described above.
- App wiring: api/main.py:14 mounts only the post router, so the app as written does not serve /register or /token (FastAPI answers 404). The model treats `register` and `login` as called directly.
- The confirmation-token flow, token types, the `confirmed` flag and the "Token has expired" / "User not confirmed" errors appear only in tests, not in the code, and are not modelled. So are the tests' 404 for a missing post, their post-with-comments response and their registration message.
