/**
 * Refresh, Logout and login of cmd/server/auth_service.go as program counters
 * over atomic database statements, so that any number of calls interleave.
 *
 * Every statement may succeed, fail without effect, or commit and then report
 * an error. A call presents any hash it likes: nothing assumes that a refresh
 * token is presented only by the client it was given to.
 */
module RefreshProtocol {
  import opened Wrappers
  import opened SessionTable

  const SECOND: int := 1_000_000_000
  const REFRESH_REUSE_GRACE: int := 120 * SECOND
  const REFRESH_TOKEN_TTL: int := 30 * 24 * 3600 * SECOND
  const ABSOLUTE_TTL: int := 90 * 24 * 3600 * SECOND

  datatype Trigger = Superseded | RotationRace

  datatype AccessToken = AccessToken(user: UserId, session: SessionId, epoch: nat)

  /** What the caller is told. Unavailable is every error that is no verdict on the token. */
  datatype Outcome =
    | Pair(access: AccessToken, refresh: Hash)
    | Invalid
    | Unavailable
    | Tolerated(user: UserId, sid: SessionId, trigger: Trigger, seconds: nat)
    | Reuse(user: UserId, sid: SessionId, trigger: Trigger, deleted: bool, bumped: bool)

  /** Where a call stands: the statement it issues next, and its local variables. */
  datatype Call =
    | RefreshLookup(h: Hash)
    | RefreshUser(h: Hash, found: Found)
    | RefreshMint(h: Hash, found: Found, epoch: nat)
    | RefreshRotate(h: Hash, found: Found, access: AccessToken, newHash: Hash)
    | RefreshLanded(h: Hash, found: Found, access: AccessToken, newHash: Hash)
    | RefreshReread(h: Hash, found: Found)
    | RefreshDelete(h: Hash, found: Found, trigger: Trigger)
    | RefreshBump(h: Hash, found: Found, trigger: Trigger, deleted: bool)
    | RefreshDone(h: Hash, outcome: Outcome)
    | LoginUser(user: UserId)
    | LoginCreate(user: UserId, epoch: nat)
    | LoginMint(access: AccessToken, newHash: Hash)
    | LoginUndo(sid: SessionId)
    | LoginDone(outcome: Outcome)
    | LogoutLookup(h: Hash)
    | LogoutDelete(found: Found)
    | LogoutBump(user: UserId)
    | LogoutDone(clean: bool)
  {
    predicate Finished() { RefreshDone? || LoginDone? || LogoutDone? }

    predicate IsRefreshOf(token: Hash) {
      match this
      case RefreshLookup(h) => h == token
      case RefreshUser(h, _) => h == token
      case RefreshMint(h, _, _) => h == token
      case RefreshRotate(h, _, _, _) => h == token
      case RefreshLanded(h, _, _, _) => h == token
      case RefreshReread(h, _) => h == token
      case RefreshDelete(h, _, _) => h == token
      case RefreshBump(h, _, _, _) => h == token
      case RefreshDone(h, _) => h == token
      case _ => false
    }
  }

  /** How a statement ends: LostReply committed, but the caller sees an error. */
  datatype Fault = Fine | Failed | LostReply

  /** Everything the call does not decide itself. */
  datatype Choice = Choice(
    fault: Fault,          // of the statement issued
    now: int,              // NOW() in the database
    clock: int,            // the service's own clock
    pick: SessionId,       // the row a lookup returns
    newHash: Hash,           // the next random refresh token
    newSid: SessionId,   // gen_random_uuid()
    minted: bool)          // whether minting the access and asset tokens works

  /**
   * toleratedRefreshReuse: the whole seconds since the rotation when a spent
   * token is refused without the wipe, None when the full response applies.
   */
  function ToleratedReuse(row: Row, clock: int): Option<nat> {
    if row.lastSeen.None? then None
    else
      var since := clock - row.lastSeen.value;
      if since >= REFRESH_REUSE_GRACE || since <= -REFRESH_REUSE_GRACE then None
      else Some(if since <= 0 then 0 else since / SECOND)
  }

  /** One atomic step of a call: the statement's committed effect and the next program counter. */
  function Decide(db: Db, c: Call, ch: Choice): (Effect, Call)
    requires !c.Finished()
  {
    match c
    case RefreshLookup(h) =>
      if ch.fault != Fine then (NoEffect, RefreshDone(h, Unavailable))
      else
        var r := FindAny(db, h, ch.pick, ch.now);
        if r.None? then (NoEffect, RefreshDone(h, Invalid))
        else if r.value.row.current == h then (NoEffect, RefreshUser(h, r.value))
        else
          var tolerated := ToleratedReuse(r.value.row, ch.clock);
          if tolerated.Some?
          then (NoEffect, RefreshDone(h, Tolerated(r.value.row.user, r.value.sid, Superseded, tolerated.value)))
          else (NoEffect, RefreshDelete(h, r.value, Superseded))
    case RefreshUser(h, found) =>
      if ch.fault != Fine then (NoEffect, RefreshDone(h, Unavailable))
      else if found.row.user !in db.epochs then (NoEffect, RefreshDone(h, Invalid))
      else (NoEffect, RefreshMint(h, found, db.epochs[found.row.user]))
    case RefreshMint(h, found, epoch) =>
      if !ch.minted then (NoEffect, RefreshDone(h, Unavailable))
      else (NoEffect, RefreshRotate(h, found, AccessToken(found.row.user, found.sid, epoch), ch.newHash))
    case RefreshRotate(h, found, access, newHash) =>
      var hit := SwapHits(db, found.sid, h);
      var effect := if ch.fault != Failed && hit
                    then Rotate(found.sid, newHash, ch.clock + REFRESH_TOKEN_TTL, ch.now) else NoEffect;
      if ch.fault != Fine then (effect, RefreshLanded(h, found, access, newHash))
      else if hit then (effect, RefreshDone(h, Pair(access, newHash)))
      else (effect, RefreshReread(h, found))
    case RefreshLanded(h, found, access, newHash) =>
      var r := FindAny(db, newHash, ch.pick, ch.now);
      if ch.fault == Fine && r.Some? && r.value.row.current == newHash && r.value.sid == found.sid
      then (NoEffect, RefreshDone(h, Pair(access, newHash)))
      else (NoEffect, RefreshDone(h, Unavailable))
    case RefreshReread(h, found) =>
      var r := FindAny(db, h, ch.pick, ch.now);
      if ch.fault == Fine && r.Some? && r.value.row.current != h && r.value.sid == found.sid
         && ToleratedReuse(r.value.row, ch.clock).Some?
      then (NoEffect, RefreshDone(h, Tolerated(r.value.row.user, r.value.sid, RotationRace,
                                               ToleratedReuse(r.value.row, ch.clock).value)))
      else (NoEffect, RefreshDelete(h, found, RotationRace))
    case RefreshDelete(h, found, trigger) =>
      (if ch.fault != Failed then Remove(SessionsOf(db, found.row.user)) else NoEffect,
       RefreshBump(h, found, trigger, ch.fault == Fine))
    case RefreshBump(h, found, trigger, deleted) =>
      (if ch.fault != Failed then BumpEpoch(found.row.user) else NoEffect,
       RefreshDone(h, Reuse(found.row.user, found.sid, trigger, deleted, ch.fault == Fine)))
    case LoginUser(user) =>
      if ch.fault != Fine then (NoEffect, LoginDone(Unavailable))
      else if user !in db.epochs then (NoEffect, LoginDone(Invalid))
      else (NoEffect, LoginCreate(user, db.epochs[user]))
    case LoginCreate(user, epoch) =>
      // The foreign key rejects a user deleted since the read.
      if user !in db.epochs then (NoEffect, LoginDone(Unavailable))
      else
        var row := Row(user, ch.newHash, None, Some(ch.now), ch.clock + REFRESH_TOKEN_TTL, Some(ch.now + ABSOLUTE_TTL));
        (if ch.fault != Failed then Insert(ch.newSid, row) else NoEffect,
         if ch.fault != Fine then LoginDone(Unavailable)
         else LoginMint(AccessToken(user, ch.newSid, epoch), ch.newHash))
    case LoginMint(access, newHash) =>
      if ch.minted then (NoEffect, LoginDone(Pair(access, newHash))) else (NoEffect, LoginUndo(access.session))
    case LoginUndo(sid) =>
      (if ch.fault != Failed then Remove({sid}) else NoEffect, LoginDone(Unavailable))
    case LogoutLookup(h) =>
      var r := FindCurrent(db, h, ch.pick, ch.now);
      if ch.fault != Fine || r.None? then (NoEffect, LogoutDone(true))
      else (NoEffect, LogoutDelete(r.value))
    case LogoutDelete(found) =>
      (if ch.fault != Failed then Remove({found.sid}) else NoEffect,
       if ch.fault == Fine then LogoutBump(found.row.user) else LogoutDone(false))
    case LogoutBump(user) =>
      (if ch.fault != Failed then BumpEpoch(user) else NoEffect, LogoutDone(true))
  }

  type CallId = nat

  /** Which call rotated a hash away, on which session, what it installed and when, by the database's clock. */
  datatype Rotation = Rotation(call: CallId, sid: SessionId, newHash: Hash, at: int)

  /**
   * The database, every call ever begun, and history: the random values drawn
   * so far, the users ever created and the rotations committed.
   */
  datatype State = State(
    db: Db,
    calls: map<CallId, Call>,
    issued: set<Hash>,
    sids: set<SessionId>,
    users: set<UserId>,
    rotations: map<Hash, Rotation>)

  /** What can happen next. The last four are every other writer of these tables. */
  datatype Action =
    | Begin(id: CallId, call: Call)
    | Step(id: CallId, ch: Choice)
    | Purge(gone: set<SessionId>)
    | ForceBump(user: UserId)
    | CreateUser(user: UserId)
    | DeleteUser(user: UserId)

  /** A lookup that answers answers truthfully: no row only when none matches. */
  ghost predicate Truthful(db: Db, c: Call, ch: Choice) {
    match c
    case RefreshLookup(h) => ch.fault == Fine ==> HonestAny(db, h, ch.pick, ch.now)
    case RefreshLanded(_, _, _, newHash) => ch.fault == Fine ==> HonestAny(db, newHash, ch.pick, ch.now)
    case RefreshReread(h, _) => ch.fault == Fine ==> HonestAny(db, h, ch.pick, ch.now)
    case LogoutLookup(h) => ch.fault == Fine ==> HonestCurrent(db, h, ch.pick, ch.now)
    case _ => true
  }

  /** Random values do not repeat. */
  predicate NewDraw(s: State, c: Call, ch: Choice) {
    match c
    case RefreshMint(_, _, _) => ch.newHash !in s.issued
    case LoginCreate(_, _) => ch.newHash !in s.issued && ch.newSid !in s.sids
    case _ => true
  }

  ghost predicate Enabled(s: State, a: Action) {
    match a
    case Begin(id, call) => id !in s.calls && (call.RefreshLookup? || call.LoginUser? || call.LogoutLookup?)
    case Step(id, ch) =>
      id in s.calls && !s.calls[id].Finished()
      && Truthful(s.db, s.calls[id], ch) && NewDraw(s, s.calls[id], ch)
    case Purge(_) => true
    case ForceBump(_) => true
    case CreateUser(user) => user !in s.users
    case DeleteUser(_) => true
  }

  function Draws(c: Call, ch: Choice): set<Hash> {
    if c.RefreshMint? || c.LoginCreate? then {ch.newHash} else {}
  }

  function StepCall(s: State, id: CallId, ch: Choice): State
    requires id in s.calls && !s.calls[id].Finished()
  {
    var c := s.calls[id];
    var (effect, next) := Decide(s.db, c, ch);
    State(
      Perform(s.db, effect),
      s.calls[id := next],
      s.issued + Draws(c, ch),
      s.sids + (if c.LoginCreate? then {ch.newSid} else {}),
      s.users,
      if effect.Rotate? then s.rotations[c.h := Rotation(id, effect.sid, effect.newHash, effect.now)] else s.rotations)
  }

  function Apply(s: State, a: Action): State
    requires Enabled(s, a)
  {
    match a
    case Begin(id, call) => s.(calls := s.calls[id := call])
    case Step(id, ch) => StepCall(s, id, ch)
    case Purge(gone) => s.(db := Perform(s.db, Remove(gone)))
    case ForceBump(user) => s.(db := Perform(s.db, BumpEpoch(user)))
    case CreateUser(user) => s.(db := Perform(s.db, AddUser(user)), users := s.users + {user})
    case DeleteUser(user) => s.(db := Perform(s.db, DropUser(user)))
  }

  const INITIAL: State := State(Db(map[], map[]), map[], {}, {}, {}, map[])

  /** A run is the list of actions taken; it is legal when each is enabled in turn. */
  ghost predicate Legal(s: State, run: seq<Action>)
    decreases |run|
  {
    run == [] || (Enabled(s, run[0]) && Legal(Apply(s, run[0]), run[1..]))
  }

  ghost function After(s: State, run: seq<Action>): State
    requires Legal(s, run)
    decreases |run|
  {
    if run == [] then s else After(Apply(s, run[0]), run[1..])
  }

  ghost predicate Reachable(s: State) {
    exists run :: Legal(INITIAL, run) && After(INITIAL, run) == s
  }
}
