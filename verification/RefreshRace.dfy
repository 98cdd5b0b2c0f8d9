/**
 * The owner's own clients racing: any number of refreshes of one current token,
 * interleaved at will inside the grace window and with anything else going on
 * around them, sign nobody out.
 */
module RefreshRace {
  import opened Wrappers
  import opened SessionTable
  import opened RefreshProtocol
  import opened RefreshSafety
  import opened RefreshGrace

  /** The race: the token, its session and the span of time it is run in. */
  datatype Race = Race(before: State, sid: SessionId, row: Row, h: Hash, from: int, upto: int)

  /** The racers: every refresh of the token that had not ended before the race. */
  predicate Racer(r: Race, s: State, id: CallId) {
    && id in s.calls && s.calls[id].IsRefreshOf(r.h)
    && !(id in r.before.calls && r.before.calls[id].Finished())
  }

  /**
   * A reachable start: the token is current on a live session, and a refresh of
   * it already under way has not got past its swap.
   */
  ghost predicate Ready(r: Race) {
    && Reachable(r.before)
    && r.sid in r.before.db.sessions && r.row == r.before.db.sessions[r.sid]
    && r.row.current == r.h
    && r.upto < r.row.expiresAt
    && (r.row.absoluteExpiresAt.Some? ==> r.upto < r.row.absoluteExpiresAt.value)
    && r.from <= r.upto < r.from + REFRESH_REUSE_GRACE
    && (forall id <- r.before.calls :: Racer(r, r.before, id) ==> OnItsWay(r, r.before.calls[id]))
  }

  predicate Quiet(r: Race, ch: Choice) {
    ch.fault == Fine && ch.minted && r.from <= ch.now <= r.upto && r.from <= ch.clock <= r.upto
  }

  /** Whether an action is a racer's own statement. */
  predicate IsRacers(r: Race, s: State, a: Action) {
    a.Step? && Racer(r, s, a.id)
  }

  /**
   * The racers meet no database error. Everybody else (other refreshes, logins,
   * logouts, purges, user changes, with any errors) does anything that leaves
   * the raced session's row as it is: nobody signs it out, and nobody presents
   * the new token yet.
   */
  ghost predicate Racing(r: Race, s: State, a: Action)
    requires Enabled(s, a)
  {
    if IsRacers(r, s, a) then Quiet(r, a.ch)
    else
      var t := Apply(s, a);
      r.sid in s.db.sessions ==> r.sid in t.db.sessions && t.db.sessions[r.sid] == s.db.sessions[r.sid]
  }

  ghost predicate AllRacing(r: Race, s: State, run: seq<Action>)
    requires Legal(s, run)
    decreases |run|
  {
    run == [] || (Racing(r, s, run[0]) && AllRacing(r, Apply(s, run[0]), run[1..]))
  }

  /** Before the swap commits every racer is still on its way to it. */
  predicate OnItsWay(r: Race, c: Call) {
    match c
    case RefreshLookup(h) => h == r.h
    case RefreshUser(h, found) => h == r.h && found == Found(r.sid, r.row)
    case RefreshMint(h, found, _) => h == r.h && found == Found(r.sid, r.row)
    case RefreshRotate(h, found, _, _) => h == r.h && found == Found(r.sid, r.row)
    case _ => false
  }

  /** A racer that will be, or has been, refused without the wipe. */
  predicate Losing(r: Race, c: Call) {
    match c
    case RefreshReread(h, found) => h == r.h && found.sid == r.sid
    case RefreshDone(h, outcome) => h == r.h && outcome.Tolerated? && outcome.sid == r.sid
    case _ => false
  }

  ghost predicate NobodyYet(r: Race, s: State) {
    && r.sid in s.db.sessions && s.db.sessions[r.sid] == r.row
    && forall id <- s.calls :: Racer(r, s, id) ==> OnItsWay(r, s.calls[id])
  }

  /** The row after the winning swap. */
  predicate JustRotated(r: Race, row: Row) {
    && row.previous == Some(r.h) && row.current != r.h && r.upto < row.expiresAt && row.user == r.row.user
    && row.lastSeen.Some? && r.from <= row.lastSeen.value <= r.upto
  }

  ghost predicate WonBy(r: Race, s: State, w: CallId) {
    && Racer(r, s, w) && Returned(s, w, r.h)
    && r.sid in s.db.sessions && JustRotated(r, s.db.sessions[r.sid])
    && forall id <- s.calls :: Racer(r, s, id) && id != w ==> OnItsWay(r, s.calls[id]) || Losing(r, s.calls[id])
  }

  ghost predicate RaceInv(r: Race, s: State) {
    GraceInv(s) && (NobodyYet(r, s) || exists w :: WonBy(r, s, w))
  }

  /** Only the raced row differs. */
  ghost predicate OnlyRowChanged(r: Race, s: State, t: State) {
    && t.db.epochs == s.db.epochs && t.db.sessions.Keys == s.db.sessions.Keys
    && (forall sid <- s.db.sessions :: sid != r.sid ==> t.db.sessions[sid] == s.db.sessions[sid])
  }

  /** A call's next place is a refresh of the same token, or of none. */
  lemma SameToken(db: Db, c: Call, ch: Choice, h: Hash)
    requires !c.Finished()
    ensures Decide(db, c, ch).1.IsRefreshOf(h) <==> c.IsRefreshOf(h)
  {
  }

  /** A racer's step while nobody has won: it moves on, or it wins. */
  lemma EarlyStep(r: Race, s: State, id: CallId, ch: Choice)
    requires Ready(r) && GraceInv(s) && NobodyYet(r, s)
    requires Enabled(s, Step(id, ch)) && Racer(r, s, id) && Quiet(r, ch)
    ensures NobodyYet(r, StepCall(s, id, ch)) || WonBy(r, StepCall(s, id, ch), id)
    ensures OnlyRowChanged(r, s, StepCall(s, id, ch))
  {
    assert CallOk(s, id) && OnItsWay(r, s.calls[id]);
    assert RowOk(s, r.sid) && Dated(s, r.sid);
    if ch.pick in s.db.sessions {
      assert RowOk(s, ch.pick);
    }
    hide Inv, GraceInv;
  }

  /** After the win the retired hash finds the raced row and nothing else. */
  lemma LateLookup(r: Race, s: State, w: CallId, ch: Choice)
    requires Inv(s) && WonBy(r, s, w) && Quiet(r, ch) && HonestAny(s.db, r.h, ch.pick, ch.now)
    requires r.from <= r.upto < r.from + REFRESH_REUSE_GRACE
    ensures FindAny(s.db, r.h, ch.pick, ch.now) == Some(Found(r.sid, s.db.sessions[r.sid]))
    ensures ToleratedReuse(s.db.sessions[r.sid], ch.clock).Some?
  {
    assert RowOk(s, r.sid);
    assert MatchesAny(s.db.sessions[r.sid], r.h, ch.now);
    if ch.pick in s.db.sessions {
      assert RowOk(s, ch.pick);
    }
  }

  /** Whichever way a racer notices that it lost, it is refused without the wipe. */
  lemma LateStep(r: Race, s: State, id: CallId, ch: Choice, w: CallId)
    requires Ready(r) && GraceInv(s) && WonBy(r, s, w)
    requires Enabled(s, Step(id, ch)) && Racer(r, s, id) && Quiet(r, ch)
    ensures WonBy(r, StepCall(s, id, ch), w) && OnlyRowChanged(r, s, StepCall(s, id, ch))
  {
    if HonestAny(s.db, r.h, ch.pick, ch.now) {
      LateLookup(r, s, w, ch);
    }
    assert Dated(s, r.sid);
    hide Inv, GraceInv;
  }

  /** Anybody else's action: the racers stay where they are, and a call that begins may join them. */
  lemma BystanderStep(r: Race, s: State, a: Action)
    requires Enabled(s, a) && !IsRacers(r, s, a) && Racing(r, s, a) && r.sid in s.db.sessions
    ensures NobodyYet(r, s) ==> NobodyYet(r, Apply(s, a))
    ensures forall w :: WonBy(r, s, w) ==> WonBy(r, Apply(s, a), w)
  {
    var t := Apply(s, a);
    if a.Step? {
      SameToken(s.db, s.calls[a.id], a.ch, r.h);
    }
    forall id ensures Racer(r, s, id) ==> Racer(r, t, id) && t.calls[id] == s.calls[id]
      ensures Racer(r, t, id) && !Racer(r, s, id) ==> OnItsWay(r, t.calls[id])
    {
    }
  }

  lemma RaceStep(r: Race, s: State, a: Action)
    requires Ready(r) && RaceInv(r, s) && Enabled(s, a) && Racing(r, s, a)
    ensures RaceInv(r, Apply(s, a))
    ensures IsRacers(r, s, a) ==> OnlyRowChanged(r, s, Apply(s, a))
  {
    ApplyKeepsGrace(s, a);
    hide GraceInv, Ready;
    if !IsRacers(r, s, a) {
      BystanderStep(r, s, a);
    } else if NobodyYet(r, s) {
      EarlyStep(r, s, a.id, a.ch);
    } else {
      var w :| WonBy(r, s, w);
      LateStep(r, s, a.id, a.ch, w);
    }
  }

  lemma {:induction false} RaceRun(r: Race, s: State, run: seq<Action>)
    requires Ready(r) && RaceInv(r, s) && Legal(s, run) && AllRacing(r, s, run)
    ensures RaceInv(r, After(s, run))
    decreases |run|
  {
    if run != [] {
      RaceStep(r, s, run[0]);
      RaceRun(r, Apply(s, run[0]), run[1..]);
    }
  }

  lemma RaceBegins(r: Race)
    requires Ready(r)
    ensures RaceInv(r, r.before)
  {
    ReachableGrace(r.before);
    assert NobodyYet(r, r.before);
  }

  /** Whatever else happens, a racer's statement deletes no session, moves no epoch and writes no other row. */
  lemma RacersOnlyRotate(r: Race, run: seq<Action>, id: CallId, ch: Choice)
    requires Ready(r) && Legal(r.before, run) && AllRacing(r, r.before, run)
    requires Enabled(After(r.before, run), Step(id, ch)) && Racer(r, After(r.before, run), id) && Quiet(r, ch)
    ensures OnlyRowChanged(r, After(r.before, run), StepCall(After(r.before, run), id, ch))
  {
    RaceBegins(r);
    RaceRun(r, r.before, run);
    RaceStep(r, After(r.before, run), Step(id, ch));
  }

  /** Nobody but the racers is asked to leave this session there and this epoch alone. */
  ghost predicate OthersSpare(r: Race, s: State, run: seq<Action>, sid: SessionId, user: UserId)
    requires Legal(s, run)
    decreases |run|
  {
    run == [] ||
    (var t := Apply(s, run[0]);
     && (!IsRacers(r, s, run[0]) ==>
           && (sid in s.db.sessions ==> sid in t.db.sessions)
           && (user in s.db.epochs ==> user in t.db.epochs && t.db.epochs[user] == s.db.epochs[user]))
     && OthersSpare(r, t, run[1..], sid, user))
  }

  lemma {:induction false} SparedStays(r: Race, s: State, run: seq<Action>, sid: SessionId, user: UserId)
    requires Ready(r) && RaceInv(r, s) && Legal(s, run) && AllRacing(r, s, run) && OthersSpare(r, s, run, sid, user)
    ensures sid in s.db.sessions ==> sid in After(s, run).db.sessions
    ensures user in s.db.epochs ==>
              user in After(s, run).db.epochs && After(s, run).db.epochs[user] == s.db.epochs[user]
    decreases |run|
  {
    if run != [] {
      RaceStep(r, s, run[0]);
      hide Ready, RaceInv;
      SparedStays(r, Apply(s, run[0]), run[1..], sid, user);
    }
  }

  /** The race signs nobody out: a session nobody else deletes is still there, an epoch nobody else moves has not moved. */
  lemma RaceSignsNobodyOut(r: Race, run: seq<Action>, sid: SessionId, user: UserId)
    requires Ready(r) && Legal(r.before, run) && AllRacing(r, r.before, run) && OthersSpare(r, r.before, run, sid, user)
    ensures sid in r.before.db.sessions ==> sid in After(r.before, run).db.sessions
    ensures user in r.before.db.epochs ==>
              user in After(r.before, run).db.epochs && After(r.before, run).db.epochs[user] == r.before.db.epochs[user]
  {
    RaceBegins(r);
    SparedStays(r, r.before, run, sid, user);
  }

  ghost predicate Refused(s: State, id: CallId, h: Hash) {
    id in s.calls && s.calls[id].RefreshDone? && s.calls[id].h == h && s.calls[id].outcome.Tolerated?
  }

  /**
   * Whatever the interleaving, and whether a loser notices at its lookup or at
   * its swap: once every racer has finished, exactly one holds a new pair and
   * all others were refused without the wipe.
   */
  lemma RaceHasOneWinner(r: Race, run: seq<Action>, end: State)
    requires Ready(r) && Legal(r.before, run) && AllRacing(r, r.before, run) && end == After(r.before, run)
    requires forall id <- end.calls :: Racer(r, end, id) ==> end.calls[id].Finished()
    requires exists id <- end.calls :: Racer(r, end, id)
    ensures exists w <- end.calls :: Racer(r, end, w) && Returned(end, w, r.h)
              && forall id <- end.calls :: Racer(r, end, id) && id != w ==> Refused(end, id, r.h)
  {
    RaceBegins(r);
    RaceRun(r, r.before, run);
    var w :| WonBy(r, end, w);
    assert w in end.calls && Returned(end, w, r.h);
    forall id <- end.calls | Racer(r, end, id) && id != w
      ensures Refused(end, id, r.h)
    {
      assert OnItsWay(r, end.calls[id]) || Losing(r, end.calls[id]);
    }
  }
}
