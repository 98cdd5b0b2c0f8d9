/**
 * The sessions table and the users' session epochs, with the queries of
 * internal/db/queries/sessions.sql that the authentication service runs.
 *
 * Token hashes stand for the tokens themselves: HashToken is taken to be
 * injective. Times are nanoseconds, as Go durations are.
 */
module SessionTable {
  import opened Wrappers

  type SessionId = nat
  type UserId = nat
  type Hash = nat

  datatype Row = Row(
    user: UserId,
    current: Hash,
    previous: Option<Hash>,
    lastSeen: Option<int>,
    expiresAt: int,
    absoluteExpiresAt: Option<int>)

  /** What a committed transaction of the database looks like. */
  datatype Db = Db(sessions: map<SessionId, Row>, epochs: map<UserId, nat>)

  /** A row as a query returned it: a snapshot that may be stale when used. */
  datatype Found = Found(sid: SessionId, row: Row)

  /** The WHERE clause of GetSessionByAnyTokenHash. */
  predicate MatchesAny(row: Row, h: Hash, now: int) {
    (row.current == h || row.previous == Some(h)) && now < row.expiresAt
  }

  /** The WHERE clause of GetSessionByTokenHash, which also applies the absolute cap. */
  predicate MatchesCurrent(row: Row, h: Hash, now: int) {
    row.current == h && now < row.expiresAt
    && (row.absoluteExpiresAt.None? || now < row.absoluteExpiresAt.value)
  }

  /** Row `pick` when it matches; a lookup that returns no row means no row matches. */
  function FindAny(db: Db, h: Hash, pick: SessionId, now: int): Option<Found> {
    if pick in db.sessions && MatchesAny(db.sessions[pick], h, now)
    then Some(Found(pick, db.sessions[pick])) else None
  }

  function FindCurrent(db: Db, h: Hash, pick: SessionId, now: int): Option<Found> {
    if pick in db.sessions && MatchesCurrent(db.sessions[pick], h, now)
    then Some(Found(pick, db.sessions[pick])) else None
  }

  ghost predicate HonestAny(db: Db, h: Hash, pick: SessionId, now: int) {
    FindAny(db, h, pick, now).Some? || forall sid <- db.sessions :: !MatchesAny(db.sessions[sid], h, now)
  }

  ghost predicate HonestCurrent(db: Db, h: Hash, pick: SessionId, now: int) {
    FindCurrent(db, h, pick, now).Some? || forall sid <- db.sessions :: !MatchesCurrent(db.sessions[sid], h, now)
  }

  /** Whether the compare-and-swap of RotateSessionConditional changes a row. */
  predicate SwapHits(db: Db, sid: SessionId, expected: Hash) {
    sid in db.sessions && db.sessions[sid].current == expected
  }

  function Least(a: int, b: Option<int>): int {
    if b.Some? && b.value < a then b.value else a
  }

  /** The committed effect of one statement. */
  datatype Effect =
    | NoEffect
    | Rotate(sid: SessionId, newHash: Hash, expiry: int, now: int)
    | Remove(sids: set<SessionId>)
    | BumpEpoch(user: UserId)
    | Insert(sid: SessionId, row: Row)
    | AddUser(user: UserId)
    | DropUser(user: UserId)

  function Rotated(row: Row, newHash: Hash, expiry: int, now: int): Row {
    row.(current := newHash, previous := Some(row.current), lastSeen := Some(now),
         expiresAt := Least(expiry, row.absoluteExpiresAt))
  }

  function SessionsOf(db: Db, user: UserId): set<SessionId> {
    set sid | sid in db.sessions && db.sessions[sid].user == user
  }

  function Perform(db: Db, e: Effect): Db {
    match e
    case NoEffect => db
    case Rotate(sid, newHash, expiry, now) =>
      if sid in db.sessions
      then db.(sessions := db.sessions[sid := Rotated(db.sessions[sid], newHash, expiry, now)]) else db
    case Remove(sids) => db.(sessions := db.sessions - sids)
    case BumpEpoch(user) =>
      if user in db.epochs then db.(epochs := db.epochs[user := db.epochs[user] + 1]) else db
    case Insert(sid, row) => db.(sessions := db.sessions[sid := row])
    case AddUser(user) => db.(epochs := db.epochs[user := 0])
    case DropUser(user) =>
      // sessions.user_id cascades
      Db(db.sessions - SessionsOf(db, user), db.epochs - {user})
  }
}
