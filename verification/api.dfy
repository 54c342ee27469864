/**
  The endpoints of the backend: the token guard, `register`, `login`,
  and the player list/create routes behind the guard, plus the state
  machine that applies a sequence of requests to the store.

  Inputs the program obtains from its environment are parameters: the
  signing secret `key` (`JWT_SECRET`), the current time `now` in whole
  minutes, the random draws for the PIN (`pinSeed`) and the bcrypt salt
  (`salt`), and the rate limiter's decision (`admitted`).
*/
module Api {
  import opened Wrappers
  import opened Decimal
  import opened Hasher
  import opened Jwt
  import opened Store

  const AccessTokenExpireMinutes: int := 60
  const Algorithm: string := "HS256"
  const TokenType: string := "bearer"
  const RegisterMessage: string := "Usuario creado correctamente"

  /** An `HTTPException`: a status code and its detail text. */
  datatype HttpError = HttpError(status: nat, detail: string)

  const UserExists := HttpError(400, "El usuario ya existe")
  const BadCredentials := HttpError(401, "Credenciales o PIN incorrectos")
  const NoIdentity := HttpError(401, "Token sin identidad")
  const InvalidToken := HttpError(401, "Token inválido o expirado")
  const NotAuthenticated := HttpError(401, "Not authenticated")
  const TooManyRequests := HttpError(429, "Rate limit exceeded")

  /** The body `register` returns: a message and the PIN, shown this once. */
  datatype RegisterReply = RegisterReply(message: string, pin: string)

  /** The body `login` returns. */
  datatype TokenReply = TokenReply(accessToken: Token, tokenType: string)

  /** The claims `login` puts in the token it issues at `now`. */
  function IssuedClaims(username: string, now: int): Claims {
    Claims(Some(username), Some(now + AccessTokenExpireMinutes))
  }

  /**
    What the `OAuth2PasswordBearer` dependency finds in a request: no
    `Authorization: Bearer` header, or the token that header carries.
  */
  datatype Credential = NoBearer | Bearer(token: Token)

  /**
    `obtener_usuario_actual` behind `OAuth2PasswordBearer`: the username a
    presented token vouches for. A request without a bearer token is refused
    with 401 before the guard runs. A token that does not decode (malformed,
    wrong algorithm, bad signature, expired) and a decoded token without a
    subject are both refused with 401, each with its own detail.
  */
  function CurrentUser(cred: Credential, key: string, now: int): (r: Result<string, HttpError>)
    ensures cred.NoBearer? ==> r == Failure(NotAuthenticated)
    ensures r.Success? <==>
      cred.Bearer? && Decode(cred.token, key, Algorithm, now).Success? && cred.token.claims.sub.Some?
    ensures r.Success? ==> cred.token.claims.sub == Some(r.value)
    ensures r.Failure? ==> r.error.status == 401
    ensures cred.Bearer? && Decode(cred.token, key, Algorithm, now).Failure? ==> r == Failure(InvalidToken)
    ensures cred.Bearer? && Decode(cred.token, key, Algorithm, now).Success? && cred.token.claims.sub.None? ==>
      r == Failure(NoIdentity)
  {
    match cred
    case NoBearer => Failure(NotAuthenticated)
    case Bearer(token) =>
      match Decode(token, key, Algorithm, now)
      case Failure(_) => Failure(InvalidToken)
      case Success(claims) =>
        match claims.sub
        case None => Failure(NoIdentity)
        case Some(username) => Success(username)
  }

  /**
    `register`: refuses a username that is already stored; otherwise draws
    a PIN in [1000, 9999], stores the user with a digest of the password
    and that PIN, and returns the PIN.
  */
  function Register(db: Db, username: string, password: string, pinSeed: nat, salt: nat)
    : (r: Result<(Db, RegisterReply), HttpError>)
    ensures r.Failure? <==> FindUser(db.users, username).Some?
    ensures r.Failure? ==> r.error == UserExists
    ensures r.Success? ==>
      var (db', reply) := r.value;
      && reply.message == RegisterMessage
      && PinFormat(reply.pin)
      && |db'.users| == |db.users| + 1
      && db'.users[..|db.users|] == db.users
      && db'.users[|db.users|].username == username
      && db'.users[|db.users|].pin == reply.pin
      && Verify(password, db'.users[|db.users|].hashedPassword)
      && db'.players == db.players
    ensures r.Success? && Valid(db) ==> Valid(r.value.0)
  {
    if FindUser(db.users, username).Some? then Failure(UserExists)
    else
      var n := RandInt(PinLow, PinHigh, pinSeed);
      PinOfRange(n);
      var pin := Digits(n);
      var hashed := Hash(password, salt);
      var (db', _) := InsertUser(db, username, hashed, pin);
      assert db'.users[..|db.users|] == db.users;
      Success((db', RegisterReply(RegisterMessage, pin)))
  }

  /**
    `login`: once the rate limiter admits the request, succeeds exactly
    when the user exists, the password verifies against the stored digest,
    and `securityToken` equals the stored PIN; every failure of these is
    the same 401. The token issued names the user and expires 60 minutes
    after `now`.
  */
  function Login(db: Db, key: string, now: int, admitted: bool,
                 username: string, password: string, securityToken: string)
    : (r: Result<TokenReply, HttpError>)
    ensures !admitted ==> r == Failure(TooManyRequests)
    ensures admitted ==>
      (r.Success? <==>
        && FindUser(db.users, username).Some?
        && Verify(password, FindUser(db.users, username).value.hashedPassword)
        && securityToken == FindUser(db.users, username).value.pin)
    ensures admitted && r.Failure? ==> r.error == BadCredentials
    ensures r.Success? ==> r.value.tokenType == "bearer"
    ensures r.Success? ==>
      Decode(r.value.accessToken, key, Algorithm, now) == Success(Claims(Some(username), Some(now + 60)))
  {
    if !admitted then Failure(TooManyRequests)
    else match FindUser(db.users, username)
      case None => Failure(BadCredentials)
      case Some(user) =>
        if !Verify(password, user.hashedPassword) || securityToken != user.pin then Failure(BadCredentials)
        else Success(TokenReply(Encode(IssuedClaims(user.username, now), key, Algorithm), TokenType))
  }

  /** `listar`: every stored player, for a caller the guard accepts. */
  function Listar(db: Db, key: string, now: int, cred: Credential): (r: Result<seq<Jugador>, HttpError>)
    ensures r.Failure? <==> CurrentUser(cred, key, now).Failure?
    ensures r.Failure? ==> r.error == CurrentUser(cred, key, now).error
    ensures r.Success? ==> multiset(r.value) == multiset(db.players)
  {
    var _ :- CurrentUser(cred, key, now);
    Success(AllPlayers(db))
  }

  /**
    `crear`: for a caller the guard accepts, stores one new player with the
    caller's fields and an id not used before; the users are untouched.
  */
  function Crear(db: Db, key: string, now: int, cred: Credential, data: JugadorCreate)
    : (r: Result<(Db, Jugador), HttpError>)
    ensures r.Failure? <==> CurrentUser(cred, key, now).Failure?
    ensures r.Failure? ==> r.error == CurrentUser(cred, key, now).error
    ensures r.Success? ==>
      var (db', p) := r.value;
      && p.nombre == data.nombre && p.posicion == data.posicion && p.equipo == data.equipo
      && db'.players == db.players + [p]
      && db'.users == db.users
    ensures r.Success? && Valid(db) ==>
      (forall q :: q in db.players ==> q.id != r.value.1.id) && Valid(r.value.0)
  {
    var _ :- CurrentUser(cred, key, now);
    Success(InsertPlayer(db, data))
  }

  /** One request to the API, with the inputs the environment supplies for it. */
  datatype Request =
    | RegisterRequest(username: string, password: string, pinSeed: nat, salt: nat)
    | LoginRequest(admitted: bool, username: string, password: string, securityToken: string)
    | ListRequest(cred: Credential)
    | CreateRequest(cred: Credential, data: JugadorCreate)

  datatype Reply =
    | Registered(registered: RegisterReply)
    | Issued(issued: TokenReply)
    | Players(players: seq<Jugador>)
    | Created(created: Jugador)
    | Rejected(error: HttpError)

  /** A request arriving at time `now`. */
  datatype Event = Event(now: int, request: Request)

  /**
    Handles one request atomically: a refused request leaves the store as
    it was, and only `register` and `crear` change it, by appending.
  */
  function Apply(db: Db, key: string, now: int, req: Request): (r: (Db, Reply))
    ensures r.1.Rejected? ==> r.0 == db
    ensures req.LoginRequest? || req.ListRequest? ==> r.0 == db
    ensures db.users <= r.0.users && db.players <= r.0.players
    ensures Valid(db) ==> Valid(r.0)
  {
    match req
    case RegisterRequest(username, password, pinSeed, salt) =>
      (match Register(db, username, password, pinSeed, salt)
       case Failure(e) => (db, Rejected(e))
       case Success((db', reply)) => (db', Registered(reply)))
    case LoginRequest(admitted, username, password, securityToken) =>
      (match Login(db, key, now, admitted, username, password, securityToken)
       case Failure(e) => (db, Rejected(e))
       case Success(reply) => (db, Issued(reply)))
    case ListRequest(cred) =>
      (match Listar(db, key, now, cred)
       case Failure(e) => (db, Rejected(e))
       case Success(players) => (db, Players(players)))
    case CreateRequest(cred, data) =>
      (match Crear(db, key, now, cred, data)
       case Failure(e) => (db, Rejected(e))
       case Success((db', p)) => (db', Created(p)))
  }

  /** The store after handling `events` in order. */
  function Run(db: Db, key: string, events: seq<Event>): Db
    decreases |events|
  {
    if |events| == 0 then db
    else Run(Apply(db, key, events[0].now, events[0].request).0, key, events[1..])
  }

  /** Every store reachable from fresh tables satisfies the invariant. */
  lemma {:induction false} RunPreservesValid(db: Db, key: string, events: seq<Event>)
    requires Valid(db)
    ensures Valid(Run(db, key, events))
    ensures db.users <= Run(db, key, events).users
    ensures db.players <= Run(db, key, events).players
    decreases |events|
  {
    if |events| > 0 {
      var next := Apply(db, key, events[0].now, events[0].request).0;
      RunPreservesValid(next, key, events[1..]);
    }
  }

  /** Usernames stay unique and PINs keep their format in every reachable store. */
  lemma ReachableStoresAreValid(key: string, events: seq<Event>)
    ensures UniqueUsernames(Run(Empty(), key, events).users)
    ensures forall u :: u in Run(Empty(), key, events).users ==> PinFormat(u.pin)
  {
    RunPreservesValid(Empty(), key, events);
  }

  /**
    A second registration of a stored username is refused with 400 and
    leaves both tables, and so the first user's PIN, as they were.
  */
  lemma RegisterTwice(db: Db, key: string, now: int, username: string,
                      password: string, pinSeed: nat, salt: nat, later: Request)
    requires Register(db, username, password, pinSeed, salt).Success?
    requires later.RegisterRequest? && later.username == username
    ensures
      var db' := Register(db, username, password, pinSeed, salt).value.0;
      Apply(db', key, now, later) == (db', Rejected(UserExists))
  {
  }

  /**
    After registering, logging in with the same username, the same
    password and the returned PIN succeeds, and yields a token for that
    username. With the new user's record in hand, a login attempt succeeds
    exactly for a password that verifies against its digest together with
    exactly that PIN.
  */
  lemma RegisterThenLogin(db: Db, key: string, now: int, username: string,
                          password: string, pinSeed: nat, salt: nat)
    requires Register(db, username, password, pinSeed, salt).Success?
    ensures
      var (db', reply) := Register(db, username, password, pinSeed, salt).value;
      && Login(db', key, now, true, username, password, reply.pin)
         == Success(TokenReply(Encode(IssuedClaims(username, now), key, Algorithm), TokenType))
      && forall pw, st :: Login(db', key, now, true, username, pw, st).Success? <==>
           Verify(pw, db'.users[|db.users|].hashedPassword) && st == reply.pin
  {
  }

  /**
    A token issued by `login` at time `t` is accepted by the guard, as its
    holder's username, at every minute before `t + 60`, and refused with
    the invalid-token 401 at every minute after it (so at `t + 59` it is
    accepted and at `t + 61` refused).
  */
  lemma TokenLifetime(db: Db, key: string, t: int, username: string, password: string,
                      securityToken: string, later: int)
    requires Login(db, key, t, true, username, password, securityToken).Success?
    ensures
      var token := Login(db, key, t, true, username, password, securityToken).value.accessToken;
      && (later < t + AccessTokenExpireMinutes ==> CurrentUser(Bearer(token), key, later) == Success(username))
      && (later > t + AccessTokenExpireMinutes ==> CurrentUser(Bearer(token), key, later) == Failure(InvalidToken))
  {
  }

  /**
    A player created through the API is in every later listing the guard
    lets through, with its new id, and that listing has exactly one more entry.
  */
  lemma CrearThenListar(db: Db, key: string, now: int, cred: Credential, data: JugadorCreate, later: int)
    requires Crear(db, key, now, cred, data).Success?
    requires CurrentUser(cred, key, later).Success?
    ensures
      var (db', p) := Crear(db, key, now, cred, data).value;
      && Listar(db', key, later, cred).Success?
      && p in Listar(db', key, later, cred).value
      && |Listar(db', key, later, cred).value| == |db.players| + 1
  {
  }
}
