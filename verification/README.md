# Rugby roster API: authentication and roster model

A Dafny model of the authentication flow and the player roster of the
rugby-app backend (`backend/main.py`). The API keeps two tables, users
and players (`jugadores`). `register` creates a user with a hashed
password and a server-drawn 4-digit PIN. `login` checks username,
password and PIN and issues a signed bearer token that expires after 60
minutes. The guard `obtener_usuario_actual` turns a presented token into
a username. `listar` and `crear` read and extend the roster for any caller
the guard accepts.

Modules:

- `Wrappers` (wrappers.dfy): `Option` and `Result`.
- `Decimal` (decimal.dfy): `str` on integers and its inverse, the PIN
  format, and `random.randint` with the random source as a seed.
- `Mixing` (mixing.dfy): a stand-in mixing function for the one-way
  functions of the libraries.
- `Hasher` (hasher.dfy): the salted password hash and `verify`.
- `Jwt` (jwt.dfy): the token as a signed envelope of claims
  `{sub, exp}`, with `Encode` and a `Decode` that can fail.
- `Store` (store.dfy): the user and player records, the store
  invariant (unique usernames, well-formed PINs, fresh ids), lookup and
  inserts.
- `Api` (api.dfy): the guard, the four endpoints, and a state
  machine `Apply`/`Run` over a sequence of timed requests.

Inputs the program takes from its environment are parameters:

- the signing secret `key`;
- the current time `now`, in whole minutes;
- the PIN draw `pinSeed` and the bcrypt salt `salt`;
- the rate limiter's decision `admitted`;
- the bearer credential of a request, `NoBearer` when the request has no
  `Authorization: Bearer` header (`OAuth2PasswordBearer`, backend/main.py:24).

Every operation is a pure function returning a `Result`. A refused
request leaves the store as it was.

## Model

| member | source | states |
|---|---|---|
| `Decimal.Digits` | backend/main.py:68 | `str(n)` is a non-empty string of decimal digits with no leading zero when `n >= 1` |
| `Decimal.ValueOfDigits` | backend/main.py:68 | reading back the decimal string of `n` gives `n` (round trip) |
| `Decimal.DigitsOfValue` | backend/main.py:68 | every canonical digit string is the decimal string of its value (reverse round trip) |
| `Decimal.DigitsInjective` | backend/main.py:68 | two numbers with the same decimal string are equal |
| `Decimal.PinOfRange` | backend/main.py:68 | the string of a number in [1000, 9999] is exactly 4 digits, the first not `0`, and it reads back as that number |
| `Decimal.PinFormatIffDecimalInRange` | backend/main.py:68 | a string has the PIN format if and only if it is the decimal string of some number in [1000, 9999] |
| `Decimal.RandInt` | backend/main.py:68 | `random.randint(lo, hi)` yields a value in the closed range [lo, hi] |
| `Decimal.RandIntReachesEveryValue` | backend/main.py:68 | every value of [lo, hi] can be drawn |
| `Hasher.Hash` | backend/main.py:69 | a password verifies against the digest made from it |
| `Jwt.Encode` | backend/main.py:97 | encoding yields an envelope under the given algorithm carrying exactly the given claims, which decodes under the same key and algorithm to those claims at every time before its expiry (or at any time when it has none) |
| `Jwt.Decode` | backend/main.py:52 | decoding succeeds only for an envelope signed with the key under the one allowed algorithm; it returns the envelope's own claims, never ones whose expiry lies before `now`; a malformed token fails |
| `Jwt.DecodeRejectsExpired` | backend/main.py:52 | a token whose expiry has passed fails as expired |
| `Store.Empty` | backend/main.py:31 | freshly created tables satisfy the store invariant |
| `Store.FindUser` | backend/main.py:64 | the lookup returns a stored user with that username, and returns none exactly when no stored user has it |
| `Store.FindUserUnique` | backend/models.py:15 | with unique usernames, the lookup returns exactly the user stored under that name |
| `Store.InsertUser` | backend/main.py:70-73 | appends one user with the given fields and an id no stored user has; keeps the invariant when the name is new and the PIN well formed |
| `Store.InsertPlayer` | backend/main.py:109-113 | appends one player with the given fields and an id no stored player has; users untouched; keeps the invariant |
| `Api.CurrentUser` | backend/main.py:50-58 | a request without a bearer token gets the 401 "Not authenticated"; otherwise accepts exactly the tokens that decode and carry a subject, and returns that subject; a decode failure gives the invalid-token 401, a missing subject the no-identity 401 |
| `Api.Register` | backend/main.py:62-78 | fails with 400 exactly when the username is stored; otherwise appends one user with that name, a digest the password verifies against and a PIN of 4 digits equal to the one returned; players unchanged; invariant kept |
| `Api.Login` | backend/main.py:80-99 | when admitted by the rate limiter, succeeds if and only if the user exists, the password verifies and the security token equals the stored PIN; every failure is the same 401; the token decodes to sub = username and exp = now + 60, type "bearer"; not admitted gives 429 |
| `Api.Listar` | backend/main.py:103-105 | refused with the guard's error exactly when the guard refuses; otherwise returns exactly the stored players, each as often as it is stored (as a multiset) |
| `Api.Crear` | backend/main.py:107-113 | refused with the guard's error exactly when the guard refuses; otherwise appends exactly one player with the caller's fields and a fresh id; users unchanged |
| `Api.Apply` | backend/main.py:62-113 | a refused request leaves the store unchanged; login and listing never change it; tables only grow by appending; the invariant is kept |
| `Api.RunPreservesValid` | backend/main.py:62-113 | any sequence of requests keeps the invariant, and stored users and players are never removed or altered |
| `Api.ReachableStoresAreValid` | backend/models.py:15 | in every store reachable from empty tables, usernames are unique and every PIN has the 4-digit format |
| `Api.RegisterTwice` | backend/main.py:64-66 | registering a stored username again is refused with 400 and leaves both tables, so the first PIN, unchanged |
| `Api.RegisterThenLogin` | backend/main.py:88-92 | after registering, login with the same username, password and returned PIN issues a token for that username; login succeeds exactly for a verifying password together with exactly that PIN |
| `Api.TokenLifetime` | backend/main.py:95-97 | a token issued at `t` is accepted by the guard as its user before `t + 60` and refused with 401 after it |
| `Api.CrearThenListar` | backend/main.py:103-113 | a created player appears in every later listing the guard lets through, which has exactly one more entry than before the create |

## Left out

- Rate limiting: the slowapi limiter (5 login attempts per minute per client address) is a boolean input `admitted`. Its counting is not modelled. The 429 detail text comes from slowapi's handler, which is not part of this model.
- Cryptography: bcrypt (passlib) and HS256 signing (jose) are replaced by one stand-in mixing function. The model relies only on two facts: a password verifies against its own digest, and a token signed with the key decodes under that key. Hash collisions and forgery resistance are not modelled.
- `Jwt.Decode`: the contract does not decide the instant `now == exp`. That boundary belongs to the JWT library's decoder. The body follows the library and rejects only when `exp < now`, but the lemmas state only the strict sides. Time is counted in whole minutes, not in seconds.
- `Jwt.Decode`: other registered claims checked by the library (`nbf`, `iat`, `aud`, claim types) are not modelled. Tokens carry only `sub` and `exp`.
- `Api.Listar`: the contract states the players as a multiset, not their order. The query has no `ORDER BY`, so the database promises no order. The body returns insertion order.
- Persistence: the SQLAlchemy engine, sessions, `get_db` and `create_all` (backend/database.py) are replaced by in-memory sequences. Storage failures (infrastructure errors) are not modelled.
- Framework: CORS, environment variables, FastAPI routing, dependency injection and pydantic validation (backend/schemas.py; 422 responses) are not modelled.
- Concurrency: the race between the existence check and the insert in `register` is not modelled. Each request is atomic.
