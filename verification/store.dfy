/**
  The two tables (`users` and `jugadores`) as in-memory sequences, with
  the lookups and inserts the endpoints perform through the ORM session.
  Ids are the database's auto-increment counters, starting at 1.
*/
module Store {
  import opened Wrappers
  import opened Decimal
  import opened Hasher

  /** A row of `users`: the password is kept only as a digest. */
  datatype User = User(id: nat, username: string, hashedPassword: Digest, pin: string)

  /** A row of `jugadores`. */
  datatype Jugador = Jugador(id: nat, nombre: string, posicion: string, equipo: string)

  /** The fields a caller supplies to create a player; the id is not among them. */
  datatype JugadorCreate = JugadorCreate(nombre: string, posicion: string, equipo: string)

  datatype Db = Db(users: seq<User>, players: seq<Jugador>, nextUserId: nat, nextPlayerId: nat)

  /** Freshly created tables. */
  function Empty(): (db: Db)
    ensures Valid(db)
  {
    Db([], [], 1, 1)
  }

  /** The `unique=True` constraint on `User.username`. */
  predicate UniqueUsernames(users: seq<User>) {
    forall i, j :: 0 <= i < j < |users| ==> users[i].username != users[j].username
  }

  /** Ids are handed out from 1 in increasing order and never reach the counter `next`. */
  predicate IdsFresh(ids: seq<nat>, next: nat) {
    && next >= 1
    && (forall i :: 0 <= i < |ids| ==> 1 <= ids[i] < next)
    && (forall i, j :: 0 <= i < j < |ids| ==> ids[i] < ids[j])
  }

  /** The ids of the records `xs`, in storage order. */
  function Ids<T>(xs: seq<T>, id: T -> nat): (ids: seq<nat>)
    ensures |ids| == |xs| && forall i :: 0 <= i < |xs| ==> ids[i] == id(xs[i])
  {
    seq(|xs|, i requires 0 <= i < |xs| => id(xs[i]))
  }

  /** The invariant every reachable store satisfies. */
  predicate Valid(db: Db) {
    && UniqueUsernames(db.users)
    && (forall i :: 0 <= i < |db.users| ==> PinFormat(db.users[i].pin))
    && IdsFresh(Ids(db.users, (u: User) => u.id), db.nextUserId)
    && IdsFresh(Ids(db.players, (p: Jugador) => p.id), db.nextPlayerId)
  }

  /**
    `db.query(User).filter(User.username == name).first()`: the first
    stored user with that name, or `None` when there is none.
  */
  function FindUser(users: seq<User>, name: string): (r: Option<User>)
    ensures r.Some? ==> r.value in users && r.value.username == name
    ensures r.None? <==> forall i :: 0 <= i < |users| ==> users[i].username != name
    decreases |users|
  {
    if |users| == 0 then None
    else if users[0].username == name then Some(users[0])
    else FindUser(users[1..], name)
  }

  /** With unique usernames, the lookup finds exactly the user stored under that name. */
  lemma FindUserUnique(users: seq<User>, i: nat)
    requires UniqueUsernames(users)
    requires i < |users|
    ensures FindUser(users, users[i].username) == Some(users[i])
  {
  }

  /** `db.add(User(...)); db.commit()`: appends a user under the next id. */
  function InsertUser(db: Db, username: string, hashed: Digest, pin: string): (r: (Db, User))
    ensures r.1 == User(r.1.id, username, hashed, pin)
    ensures r.0.users == db.users + [r.1] && r.0.players == db.players
    ensures Valid(db) ==> forall u :: u in db.users ==> u.id != r.1.id
    ensures Valid(db) && FindUser(db.users, username).None? && PinFormat(pin) ==> Valid(r.0)
  {
    var u := User(db.nextUserId, username, hashed, pin);
    (db.(users := db.users + [u], nextUserId := db.nextUserId + 1), u)
  }

  /** `db.query(Jugador).all()`. */
  function AllPlayers(db: Db): seq<Jugador> {
    db.players
  }

  /** `db.add(Jugador(**data)); db.commit(); db.refresh(...)`: appends a player under the next id. */
  function InsertPlayer(db: Db, data: JugadorCreate): (r: (Db, Jugador))
    ensures r.1 == Jugador(r.1.id, data.nombre, data.posicion, data.equipo)
    ensures r.0.players == db.players + [r.1] && r.0.users == db.users
    ensures Valid(db) ==> forall p :: p in db.players ==> p.id != r.1.id
    ensures Valid(db) ==> Valid(r.0)
  {
    var p := Jugador(db.nextPlayerId, data.nombre, data.posicion, data.equipo);
    (db.(players := db.players + [p], nextPlayerId := db.nextPlayerId + 1), p)
  }
}
