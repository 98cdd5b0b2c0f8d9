/**
 * Refresh and Logout as the service writes them, statement by statement with
 * early returns, over a backend object that is updated in place and that the
 * rest of the world may change between two statements.
 *
 * The backend keeps a log of everything that happens to it. What others do at
 * their turn and how a statement goes at its turn are fixed beforehand, so no
 * method can pass its own writes off as somebody else's or make a failure up.
 * Each method's own entries are proved to walk the program counter of
 * RefreshProtocol, and a log whose other entries are steps of other calls is
 * proved to be a run of that protocol.
 */
module RefreshService {
  import opened Wrappers
  import opened EventLog
  import opened SessionTable
  import opened RefreshProtocol

  type DbEvent = Event<Db, Choice>

  type Statement = Move<Db, Choice>

  /** Where the moves take a call, None when some move is not the call's next step, truthfully answered. */
  ghost function Walk(c: Call, moves: seq<Statement>): Option<Call>
    decreases |moves|
  {
    if moves == [] then Some(c)
    else if c.Finished() then None
    else
      var (effect, next) := Decide(moves[0].before, c, moves[0].choice);
      if Truthful(moves[0].before, c, moves[0].choice) && moves[0].after == Perform(moves[0].before, effect)
      then Walk(next, moves[1..]) else None
  }

  lemma {:induction false} WalkOneMore(c: Call, moves: seq<Statement>, m: Statement)
    requires Walk(c, moves).Some? && !Walk(c, moves).value.Finished()
    requires Truthful(m.before, Walk(c, moves).value, m.choice)
    requires m.after == Perform(m.before, Decide(m.before, Walk(c, moves).value, m.choice).0)
    ensures Walk(c, moves + [m]) == Some(Decide(m.before, Walk(c, moves).value, m.choice).1)
    decreases |moves|
  {
    if moves == [] {
      assert (moves + [m])[1..] == [];
    } else {
      assert (moves + [m])[1..] == moves[1..] + [m];
      WalkOneMore(Decide(moves[0].before, c, moves[0].choice).1, moves[1..], m);
    }
  }

  /** The event is one that others or chance had coming at their turn k. */
  ghost predicate Due(e: DbEvent, k: nat, others: nat -> Db, luck: nat -> Choice) {
    if e.Own? then e.choice == luck(k).(pick := e.choice.pick) else e.after == others(k)
  }

  /** Others and chance act as they were going to; only the row a lookup picks is up to the table. */
  ghost predicate Genuine(log: seq<DbEvent>, others: nat -> Db, luck: nat -> Choice) {
    forall k: nat :: k < |log| ==> Due(log[k], k, others, luck)
  }

  lemma LogGrows(start: Db, log: seq<DbEvent>, e: DbEvent, others: nat -> Db, luck: nat -> Choice)
    requires Chained(start, log) && Genuine(log, others, luck) && e.before == EndOf(start, log) && Due(e, |log|, others, luck)
    ensures Chained(start, log + [e]) && Genuine(log + [e], others, luck) && EndOf(start, log + [e]) == e.after
  {
    ChainGrows(start, log, e);
  }

  /** The call that began at the mark has come to c. */
  ghost predicate Stands(log: seq<DbEvent>, mark: nat, from: Call, c: Call) {
    mark <= |log| && Walk(from, Owns(log[mark..])) == Some(c)
  }

  lemma StandsAtFirst(log: seq<DbEvent>, from: Call)
    ensures Stands(log, |log|, from, from)
  {
    assert log[|log|..] == [];
  }

  lemma OtherTurn(log: seq<DbEvent>, e: DbEvent, mark: nat, from: Call, c: Call)
    requires Stands(log, mark, from, c) && e.Other?
    ensures Stands(log + [e], mark, from, c)
  {
    OwnsSince(log, e, mark);
    assert Owns(log[mark..]) + [] == Owns(log[mark..]);
  }

  lemma OwnTurn(log: seq<DbEvent>, e: DbEvent, mark: nat, from: Call, c: Call)
    requires Stands(log, mark, from, c) && !c.Finished() && e.Own?
    requires Truthful(e.before, c, e.choice) && e.after == Perform(e.before, Decide(e.before, c, e.choice).0)
    ensures Stands(log + [e], mark, from, Decide(e.before, c, e.choice).1)
  {
    OwnsSince(log, e, mark);
    WalkOneMore(from, Owns(log[mark..]), Move(e.before, e.choice, e.after));
  }

  /** The three statements of a logout. */
  lemma LogoutLooksUp(db: Db, h: Hash, ch: Choice)
    ensures Truthful(db, LogoutLookup(h), ch) <==> (ch.fault == Fine ==> HonestCurrent(db, h, ch.pick, ch.now))
    ensures Perform(db, Decide(db, LogoutLookup(h), ch).0) == db
    ensures var r := FindCurrent(db, h, ch.pick, ch.now);
            Decide(db, LogoutLookup(h), ch).1
            == if ch.fault != Fine || r.None? then LogoutDone(true) else LogoutDelete(r.value)
  {
  }

  lemma LogoutDeletes(db: Db, found: Found, ch: Choice)
    ensures Truthful(db, LogoutDelete(found), ch)
    ensures Decide(db, LogoutDelete(found), ch)
            == (if ch.fault != Failed then Remove({found.sid}) else NoEffect,
                if ch.fault == Fine then LogoutBump(found.row.user) else LogoutDone(false))
  {
  }

  lemma LogoutBumps(db: Db, user: UserId, ch: Choice)
    ensures Truthful(db, LogoutBump(user), ch)
    ensures Decide(db, LogoutBump(user), ch) == (if ch.fault != Failed then BumpEpoch(user) else NoEffect, LogoutDone(true))
  {
  }

  /** An error the driver reported. */
  datatype DbError = DbError

  /** The database, the token maker and the clocks, as one call meets them. */
  class Backend {
    var sessions: map<SessionId, Row>
    var epochs: map<UserId, nat>
    var turn: nat
    const others: nat -> Db
    const luck: nat -> Choice
    ghost const start: Db
    ghost var log: seq<DbEvent>

    ghost function Value(): Db
      reads this
    {
      Db(sessions, epochs)
    }

    ghost predicate Valid()
      reads this
    {
      && turn == |log| && Chained(start, log) && Genuine(log, others, luck)
      && Value() == EndOf(start, log)
    }

    constructor (db: Db, others: nat -> Db, luck: nat -> Choice)
      ensures Valid() && Value() == db && log == []
      ensures this.others == others && this.luck == luck
    {
      sessions, epochs, turn := db.sessions, db.epochs, 0;
      this.others, this.luck := others, luck;
      start, log := db, [];
    }

    /** What other calls do between two statements of this one: anything. */
    method Interfere()
      requires Valid()
      modifies this
      ensures Valid() && log == old(log) + [Other(old(Value()), Value())]
    {
      hide Chained, Genuine, EndOf;
      ghost var before := Value();
      sessions, epochs := others(turn).sessions, others(turn).epochs;
      LogGrows(start, log, Other(before, Value()), others, luck);
      log := log + [Other(before, Value())];
      turn := turn + 1;
    }

    /** time.Now() just after the last statement. */
    method Clock() returns (t: int)
      requires Valid() && log != []
      ensures t == luck(|log| - 1).clock
    {
      t := luck(turn - 1).clock;
    }

    /** time.Now() before the next one. */
    method Ahead() returns (t: int)
      requires Valid()
      ensures t == luck(|log|).clock
    {
      t := luck(turn).clock;
    }

    method GetSessionByAnyTokenHash(h: Hash) returns (r: Result<Option<Found>, DbError>, ghost used: Choice)
      requires Valid()
      modifies this
      ensures Valid() && Value() == old(Value()) && used == luck(|old(log)|).(pick := used.pick)
      ensures log == old(log) + [Own(old(Value()), used, Value())]
      ensures r.Err? <==> used.fault != Fine
      ensures r.Ok? ==> r.value == FindAny(Value(), h, used.pick, used.now) && HonestAny(Value(), h, used.pick, used.now)
    {
      hide Chained, Genuine, EndOf;
      var how := luck(turn);
      var pick: SessionId := how.pick;
      if how.fault != Fine {
        r := Err(DbError);
      } else if sid :| sid in sessions && MatchesAny(sessions[sid], h, how.now) {
        pick, r := sid, Ok(Some(Found(sid, sessions[sid])));
      } else {
        r := Ok(None);
      }
      used := how.(pick := pick);
      LogGrows(start, log, Own(Value(), used, Value()), others, luck);
      log := log + [Own(Value(), used, Value())];
      turn := turn + 1;
    }

    method GetSessionByTokenHash(h: Hash) returns (r: Option<Found>, ghost used: Choice)
      requires Valid()
      modifies this
      ensures Valid() && Value() == old(Value()) && used == luck(|old(log)|).(pick := used.pick)
      ensures log == old(log) + [Own(old(Value()), used, Value())]
      ensures r == if used.fault == Fine then FindCurrent(Value(), h, used.pick, used.now) else None
      ensures used.fault == Fine ==> HonestCurrent(Value(), h, used.pick, used.now)
    {
      hide Chained, Genuine, EndOf;
      var how := luck(turn);
      var pick: SessionId := how.pick;
      r := None;
      if how.fault == Fine {
        if sid :| sid in sessions && MatchesCurrent(sessions[sid], h, how.now) {
          pick, r := sid, Some(Found(sid, sessions[sid]));
        }
      }
      used := how.(pick := pick);
      LogGrows(start, log, Own(Value(), used, Value()), others, luck);
      log := log + [Own(Value(), used, Value())];
      turn := turn + 1;
    }

    method GetUser(user: UserId) returns (r: Result<Option<nat>, DbError>, ghost used: Choice)
      requires Valid()
      modifies this
      ensures Valid() && Value() == old(Value()) && used == luck(|old(log)|)
      ensures log == old(log) + [Own(old(Value()), used, Value())]
      ensures r.Err? <==> used.fault != Fine
      ensures r.Ok? ==> r.value == if user in epochs then Some(epochs[user]) else None
    {
      hide Chained, Genuine, EndOf;
      used := luck(turn);
      if luck(turn).fault != Fine {
        r := Err(DbError);
      } else {
        r := Ok(if user in epochs then Some(epochs[user]) else None);
      }
      LogGrows(start, log, Own(Value(), used, Value()), others, luck);
      log := log + [Own(Value(), used, Value())];
      turn := turn + 1;
    }

    /** The access and asset tokens and a random refresh token; no statement, but a point where it can fail. */
    method Mint() returns (minted: bool, newHash: Hash, ghost used: Choice)
      requires Valid()
      modifies this
      ensures Valid() && Value() == old(Value()) && used == luck(|old(log)|)
      ensures log == old(log) + [Own(old(Value()), used, Value())]
      ensures minted == used.minted && newHash == used.newHash
    {
      hide Chained, Genuine, EndOf;
      minted, newHash, used := luck(turn).minted, luck(turn).newHash, luck(turn);
      LogGrows(start, log, Own(Value(), used, Value()), others, luck);
      log := log + [Own(Value(), used, Value())];
      turn := turn + 1;
    }

    /** Compare-and-swap; an error says nothing about whether it committed. */
    method RotateSessionConditional(sid: SessionId, newHash: Hash, expiry: int, expected: Hash)
      returns (r: Result<nat, DbError>, ghost used: Choice)
      requires Valid()
      modifies this
      ensures Valid() && used == luck(|old(log)|) && log == old(log) + [Own(old(Value()), used, Value())]
      ensures r.Err? <==> used.fault != Fine
      ensures r.Ok? ==> r.value == if SwapHits(old(Value()), sid, expected) then 1 else 0
      ensures Value() == Perform(old(Value()),
                                 if used.fault != Failed && SwapHits(old(Value()), sid, expected)
                                 then Rotate(sid, newHash, expiry, used.now) else NoEffect)
    {
      hide Chained, Genuine, EndOf;
      ghost var before := Value();
      var how := luck(turn);
      var rows := if sid in sessions && sessions[sid].current == expected then 1 else 0;
      if how.fault != Failed && rows == 1 {
        sessions := sessions[sid := Rotated(sessions[sid], newHash, expiry, how.now)];
      }
      r := if how.fault == Fine then Ok(rows) else Err(DbError);
      used := how;
      LogGrows(start, log, Own(before, used, Value()), others, luck);
      log := log + [Own(before, used, Value())];
      turn := turn + 1;
    }

    method DeleteSessionsForUser(user: UserId) returns (clean: bool, ghost used: Choice)
      requires Valid()
      modifies this
      ensures Valid() && used == luck(|old(log)|) && log == old(log) + [Own(old(Value()), used, Value())]
      ensures clean <==> used.fault == Fine
      ensures Value() == Perform(old(Value()),
                                 if used.fault != Failed then Remove(SessionsOf(old(Value()), user)) else NoEffect)
    {
      hide Chained, Genuine, EndOf;
      ghost var before := Value();
      var how := luck(turn);
      if how.fault != Failed {
        sessions := sessions - SessionsOf(Db(sessions, epochs), user);
      }
      clean, used := how.fault == Fine, how;
      LogGrows(start, log, Own(before, used, Value()), others, luck);
      log := log + [Own(before, used, Value())];
      turn := turn + 1;
    }

    method DeleteSession(sid: SessionId) returns (clean: bool, ghost used: Choice)
      requires Valid()
      modifies this
      ensures Valid() && used == luck(|old(log)|) && log == old(log) + [Own(old(Value()), used, Value())]
      ensures clean <==> used.fault == Fine
      ensures Value() == Perform(old(Value()), if used.fault != Failed then Remove({sid}) else NoEffect)
    {
      hide Chained, Genuine, EndOf;
      ghost var before := Value();
      var how := luck(turn);
      if how.fault != Failed {
        sessions := sessions - {sid};
      }
      clean, used := how.fault == Fine, how;
      LogGrows(start, log, Own(before, used, Value()), others, luck);
      log := log + [Own(before, used, Value())];
      turn := turn + 1;
    }

    method BumpSessionEpoch(user: UserId) returns (clean: bool, ghost used: Choice)
      requires Valid()
      modifies this
      ensures Valid() && used == luck(|old(log)|) && log == old(log) + [Own(old(Value()), used, Value())]
      ensures clean <==> used.fault == Fine
      ensures Value() == Perform(old(Value()), if used.fault != Failed then BumpEpoch(user) else NoEffect)
    {
      hide Chained, Genuine, EndOf;
      ghost var before := Value();
      var how := luck(turn);
      if how.fault != Failed && user in epochs {
        epochs := epochs[user := epochs[user] + 1];
      }
      clean, used := how.fault == Fine, how;
      LogGrows(start, log, Own(before, used, Value()), others, luck);
      log := log + [Own(before, used, Value())];
      turn := turn + 1;
    }
  }

  class AuthService {
    const db: Backend

    constructor (db: Backend)
      ensures this.db == db
    {
      this.db := db;
    }

    /** The log went on from the mark by this call's walk from `from` to c, and nothing before it changed. */
    twostate predicate Went(mark: nat, from: Call, c: Call)
      reads db
    {
      db.Valid() && old(db.log) <= db.log && Stands(db.log, mark, from, c)
    }

    /** The two statements of the reuse response; neither's failure skips the other. */
    method BurnFamily(h: Hash, found: Found, trigger: Trigger, ghost mark: nat) returns (out: Outcome)
      requires db.Valid() && Stands(db.log, mark, RefreshLookup(h), RefreshDelete(h, found, trigger))
      modifies db
      ensures Went(mark, RefreshLookup(h), RefreshDone(h, out))
    {
      hide Stands, Walk, Chained, Genuine, EndOf;
      ghost var from, used := RefreshLookup(h), ANY;
      ghost var was := db.log;
      db.Interfere();
      OtherTurn(was, db.log[|was|], mark, from, RefreshDelete(h, found, trigger));
      was := db.log;
      var deleted;
      deleted, used := db.DeleteSessionsForUser(found.row.user);
      OwnTurn(was, db.log[|was|], mark, from, RefreshDelete(h, found, trigger));

      was := db.log;
      db.Interfere();
      OtherTurn(was, db.log[|was|], mark, from, RefreshBump(h, found, trigger, deleted));
      was := db.log;
      var bumped;
      bumped, used := db.BumpSessionEpoch(found.row.user);
      OwnTurn(was, db.log[|was|], mark, from, RefreshBump(h, found, trigger, deleted));
      out := Reuse(found.row.user, found.sid, trigger, deleted, bumped);
    }

    method Refresh(h: Hash) returns (out: Outcome)
      requires db.Valid()
      modifies db
      ensures Went(|old(db.log)|, RefreshLookup(h), RefreshDone(h, out))
    {
      hide Stands, Walk, Chained, Genuine, EndOf;
      ghost var from, mark, used := RefreshLookup(h), |db.log|, ANY;
      StandsAtFirst(db.log, from);
      ghost var was := db.log;
      var lookup;
      lookup, used := db.GetSessionByAnyTokenHash(h);
      OwnTurn(was, db.log[|was|], mark, from, from);
      if lookup.Err? {
        return Unavailable;
      }
      if lookup.value.None? {
        return Invalid;
      }
      var found := lookup.value.value;
      if found.row.current != h {
        var clock := db.Clock();
        var tolerated := ToleratedReuse(found.row, clock);
        if tolerated.Some? {
          return Tolerated(found.row.user, found.sid, Superseded, tolerated.value);
        }
        out := BurnFamily(h, found, Superseded, mark);
        return;
      }
      out := Exchange(h, found, mark);
    }

    /** A current token: read the user, mint everything the response needs, and only then rotate. */
    method Exchange(h: Hash, found: Found, ghost mark: nat) returns (out: Outcome)
      requires db.Valid() && Stands(db.log, mark, RefreshLookup(h), RefreshUser(h, found))
      modifies db
      ensures Went(mark, RefreshLookup(h), RefreshDone(h, out))
    {
      hide Stands, Walk, Chained, Genuine, EndOf;
      ghost var from, used := RefreshLookup(h), ANY;
      ghost var was := db.log;
      db.Interfere();
      OtherTurn(was, db.log[|was|], mark, from, RefreshUser(h, found));
      was := db.log;
      var user;
      user, used := db.GetUser(found.row.user);
      OwnTurn(was, db.log[|was|], mark, from, RefreshUser(h, found));
      if user.Err? {
        return Unavailable;
      }
      if user.value.None? {
        return Invalid;
      }

      was := db.log;
      var minted, newHash;
      minted, newHash, used := db.Mint();
      OwnTurn(was, db.log[|was|], mark, from, RefreshMint(h, found, user.value.value));
      if !minted {
        return Unavailable;
      }
      var access := AccessToken(found.row.user, found.sid, user.value.value);
      out := Swap(h, found, access, newHash, mark);
    }

    /** The conditional rotation, and what follows each of its answers. */
    method Swap(h: Hash, found: Found, access: AccessToken, newHash: Hash, ghost mark: nat) returns (out: Outcome)
      requires db.Valid() && Stands(db.log, mark, RefreshLookup(h), RefreshRotate(h, found, access, newHash))
      modifies db
      ensures Went(mark, RefreshLookup(h), RefreshDone(h, out))
    {
      hide Stands, Walk, Chained, Genuine, EndOf;
      ghost var from, used := RefreshLookup(h), ANY;
      var pair := Pair(access, newHash);
      ghost var was := db.log;
      db.Interfere();
      OtherTurn(was, db.log[|was|], mark, from, RefreshRotate(h, found, access, newHash));
      was := db.log;
      var clock := db.Ahead();
      var rows;
      rows, used := db.RotateSessionConditional(found.sid, newHash, clock + REFRESH_TOKEN_TTL, h);
      OwnTurn(was, db.log[|was|], mark, from, RefreshRotate(h, found, access, newHash));
      if rows.Err? {
        out := AfterRotateError(h, found, access, newHash, mark);
        return;
      }
      if rows.value == 0 {
        out := AfterLostSwap(h, found, mark);
        return;
      }
      return pair;
    }

    /** The swap reported an error: hand the pair out if it landed all the same. */
    method AfterRotateError(h: Hash, found: Found, access: AccessToken, newHash: Hash, ghost mark: nat)
      returns (out: Outcome)
      requires db.Valid() && Stands(db.log, mark, RefreshLookup(h), RefreshLanded(h, found, access, newHash))
      modifies db
      ensures Went(mark, RefreshLookup(h), RefreshDone(h, out))
    {
      hide Stands, Walk, Chained, Genuine, EndOf;
      ghost var from, used := RefreshLookup(h), ANY;
      ghost var was := db.log;
      db.Interfere();
      OtherTurn(was, db.log[|was|], mark, from, RefreshLanded(h, found, access, newHash));
      was := db.log;
      var landed;
      landed, used := db.GetSessionByAnyTokenHash(newHash);
      OwnTurn(was, db.log[|was|], mark, from, RefreshLanded(h, found, access, newHash));
      if landed.Ok? && landed.value.Some? {
        var row := landed.value.value;
        if row.row.current == newHash && row.sid == found.sid {
          return Pair(access, newHash);
        }
      }
      out := Unavailable;
    }

    /** The swap changed no row: a competing rotation moments ago, or theft. */
    method AfterLostSwap(h: Hash, found: Found, ghost mark: nat) returns (out: Outcome)
      requires db.Valid() && Stands(db.log, mark, RefreshLookup(h), RefreshReread(h, found))
      modifies db
      ensures Went(mark, RefreshLookup(h), RefreshDone(h, out))
    {
      hide Stands, Walk, Chained, Genuine, EndOf;
      ghost var from, used := RefreshLookup(h), ANY;
      ghost var was := db.log;
      db.Interfere();
      OtherTurn(was, db.log[|was|], mark, from, RefreshReread(h, found));
      was := db.log;
      var raced;
      raced, used := db.GetSessionByAnyTokenHash(h);
      OwnTurn(was, db.log[|was|], mark, from, RefreshReread(h, found));
      if raced.Ok? && raced.value.Some? {
        var row := raced.value.value;
        if row.row.current != h && row.sid == found.sid {
          var clock := db.Clock();
          var tolerated := ToleratedReuse(row.row, clock);
          if tolerated.Some? {
            return Tolerated(row.row.user, row.sid, RotationRace, tolerated.value);
          }
        }
      }
      out := BurnFamily(h, found, RotationRace, mark);
    }

    method Logout(h: Hash) returns (clean: bool)
      requires db.Valid()
      modifies db
      ensures Went(|old(db.log)|, LogoutLookup(h), LogoutDone(clean))
    {
      hide Stands, Walk, Chained, Genuine, EndOf, HonestCurrent, FindCurrent, Decide, Truthful, Perform;
      ghost var from, mark, used := LogoutLookup(h), |db.log|, ANY;
      StandsAtFirst(db.log, from);
      ghost var was := db.log;
      var session;
      session, used := db.GetSessionByTokenHash(h);
      LogoutLooksUp(db.Value(), h, used);
      OwnTurn(was, db.log[|was|], mark, from, from);
      if session.None? {
        return true; // already gone
      }
      was := db.log;
      db.Interfere();
      OtherTurn(was, db.log[|was|], mark, from, LogoutDelete(session.value));
      was := db.log;
      var deleted;
      deleted, used := db.DeleteSession(session.value.sid);
      LogoutDeletes(db.log[|was|].before, session.value, used);
      OwnTurn(was, db.log[|was|], mark, from, LogoutDelete(session.value));
      if !deleted {
        return false;
      }
      was := db.log;
      db.Interfere();
      OtherTurn(was, db.log[|was|], mark, from, LogoutBump(session.value.row.user));
      was := db.log;
      var bumped;
      bumped, used := db.BumpSessionEpoch(session.value.row.user);
      LogoutBumps(db.log[|was|].before, session.value.row.user, used);
      OwnTurn(was, db.log[|was|], mark, from, LogoutBump(session.value.row.user));
      clean := true;
    }
  }

  ghost const ANY: Choice := Choice(Fine, 0, 0, 0, 0, 0, true)

  // ------------------------------------------- the log as a protocol run

  /**
   * The other entries of the log are legal actions of everybody else, one list
   * for each, and the call's random draws are new.
   */
  ghost predicate Surrounded(s: State, id: CallId, log: seq<DbEvent>, others: seq<seq<Action>>)
    decreases |log|
  {
    && |others| == |log|
    && (log == [] ||
        match log[0]
        case Own(_, ch, _) =>
          && id in s.calls && !s.calls[id].Finished() && NewDraw(s, s.calls[id], ch)
          && Surrounded(StepCall(s, id, ch), id, log[1..], others[1..])
        case Other(_, after) =>
          && Legal(s, others[0]) && (forall a <- others[0] :: !(a.Step? && a.id == id))
          && After(s, others[0]).db == after
          && Surrounded(After(s, others[0]), id, log[1..], others[1..]))
  }

  function RunOf(id: CallId, log: seq<DbEvent>, others: seq<seq<Action>>): seq<Action>
    requires |others| == |log|
  {
    if log == [] then []
    else (if log[0].Own? then [Step(id, log[0].choice)] else others[0]) + RunOf(id, log[1..], others[1..])
  }

  lemma {:induction false} CallWaits(s: State, run: seq<Action>, id: CallId)
    requires Legal(s, run) && id in s.calls && forall a <- run :: !(a.Step? && a.id == id)
    ensures id in After(s, run).calls && After(s, run).calls[id] == s.calls[id]
    decreases |run|
  {
    if run != [] {
      assert run[0] in run;
      CallWaits(Apply(s, run[0]), run[1..], id);
    }
  }

  lemma {:induction false} RunsCompose(s: State, a: seq<Action>, b: seq<Action>)
    requires Legal(s, a) && Legal(After(s, a), b)
    ensures Legal(s, a + b) && After(s, a + b) == After(After(s, a), b)
    decreases |a|
  {
    if a == [] {
      assert a + b == b;
    } else {
      assert (a + b)[1..] == a[1..] + b;
      RunsCompose(Apply(s, a[0]), a[1..], b);
    }
  }

  /**
   * So a log written by one of these methods among other calls of the protocol
   * is a run of the protocol in which this call takes the steps logged and ends
   * as the method returned: what is proved of every run is proved of it.
   */
  lemma {:induction false} LogIsARun(s: State, id: CallId, log: seq<DbEvent>, others: seq<seq<Action>>, end: Call)
    requires id in s.calls && Chained(s.db, log) && Walk(s.calls[id], Owns(log)) == Some(end)
    requires Surrounded(s, id, log, others)
    ensures Legal(s, RunOf(id, log, others))
    ensures var t := After(s, RunOf(id, log, others));
            id in t.calls && t.calls[id] == end && t.db == EndOf(s.db, log)
    decreases |log|
  {
    if log != [] {
      OwnsFirst(log);
      ChainRest(s.db, log);
      var rest, left := log[1..], others[1..];
      if log[0].Own? {
        var ch := log[0].choice;
        var next := StepCall(s, id, ch);
        assert Owns(log)[1..] == Owns(rest);
        LogIsARun(next, id, rest, left, end);
        assert ([Step(id, ch)] + RunOf(id, rest, left))[1..] == RunOf(id, rest, left);
      } else {
        assert Owns(log) == Owns(rest);
        CallWaits(s, others[0], id);
        LogIsARun(After(s, others[0]), id, rest, left, end);
        RunsCompose(s, others[0], RunOf(id, rest, left));
      }
    }
  }

  /** Statements a call has left to issue. */
  function StepsLeft(c: Call): (n: nat)
    ensures n <= 7
  {
    match c
    case RefreshLookup(_) => 7
    case RefreshUser(_, _) => 6
    case RefreshMint(_, _, _) => 5
    case RefreshRotate(_, _, _, _) => 4
    case RefreshReread(_, _) => 3
    case RefreshDelete(_, _, _) => 2
    case RefreshBump(_, _, _, _) => 1
    case RefreshLanded(_, _, _, _) => 1
    case LoginUser(_) => 4
    case LoginCreate(_, _) => 3
    case LoginMint(_, _) => 2
    case LoginUndo(_) => 1
    case LogoutLookup(_) => 3
    case LogoutDelete(_) => 2
    case LogoutBump(_) => 1
    case _ => 0
  }

  /** A call issues no more statements than it has left: a refresh seven, a login four, a logout three. */
  lemma {:induction false} WalksAreShort(c: Call, moves: seq<Statement>)
    requires Walk(c, moves).Some?
    ensures |moves| <= StepsLeft(c) <= 7
    decreases |moves|
  {
    if moves != [] {
      WalksAreShort(Decide(moves[0].before, c, moves[0].choice).1, moves[1..]);
    }
  }

  /** Past a swap that answered, every end is a verdict on the token. */
  lemma {:induction false} VerdictFollows(c: Call, moves: seq<Statement>, h: Hash)
    requires c.RefreshReread? || c.RefreshDelete? || c.RefreshBump? || (c.RefreshDone? && c.outcome != Unavailable)
    ensures Walk(c, moves) != Some(RefreshDone(h, Unavailable))
    decreases |moves|
  {
    if moves != [] && !c.Finished() {
      VerdictFollows(Decide(moves[0].before, c, moves[0].choice).1, moves[1..], h);
    }
  }

  /**
   * When 503 costs the sign-in. A refresh that ends without a verdict on the
   * token has written nothing, so the client may retry with it, exactly when
   * its swap did not commit behind a lost reply.
   */
  lemma UnavailableWroteNothing(h: Hash, moves: seq<Statement>)
    requires Walk(RefreshLookup(h), moves) == Some(RefreshDone(h, Unavailable))
    requires |moves| >= 3 ==> moves[2].choice.newHash != h
    ensures (forall m <- moves :: m.after == m.before) <==>
            !(|moves| >= 4 && moves[3].choice.fault == LostReply && SwapHits(moves[3].before, moves[0].choice.pick, h))
  {
    var c := RefreshLookup(h);
    var c1 := Decide(moves[0].before, c, moves[0].choice).1;
    assert Walk(c1, moves[1..]) == Walk(c, moves);
    if |moves| >= 2 {
      var c2 := Decide(moves[1].before, c1, moves[1].choice).1;
      assert Walk(c2, moves[1..][1..]) == Walk(c1, moves[1..]);
      if c1.RefreshUser? && |moves| >= 3 {
        var c3 := Decide(moves[2].before, c2, moves[2].choice).1;
        assert Walk(c3, moves[1..][1..][1..]) == Walk(c2, moves[1..][1..]);
        if |moves| >= 4 {
          SwapUnavailable(h, c3, moves[1..][1..][1..]);
          assert moves[1..][1..][1..] == moves[3..];
        }
      } else if !c1.RefreshUser? {
        VerdictFollows(c1, moves[1..], h);
      }
    }
  }

  /** The swap and what follows it, when they end without a verdict. */
  lemma SwapUnavailable(h: Hash, c: Call, moves: seq<Statement>)
    requires c.RefreshRotate? && c.h == h && c.newHash != h && moves != []
    requires Walk(c, moves) == Some(RefreshDone(h, Unavailable))
    ensures |moves| == 2 && moves[1].after == moves[1].before
    ensures moves[0].after != moves[0].before <==>
              moves[0].choice.fault == LostReply && SwapHits(moves[0].before, c.found.sid, h)
  {
    var next := Decide(moves[0].before, c, moves[0].choice).1;
    if !next.RefreshLanded? {
      VerdictFollows(next, moves[1..], h);
    } else {
      var last := Decide(moves[1].before, next, moves[1].choice).1;
      assert Walk(last, moves[1..][1..]) == Walk(next, moves[1..]);
    }
  }
}
