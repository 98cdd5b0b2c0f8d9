/**
 * What the grace window measures: in every reachable state the stamp on a
 * session is the moment of the rotation that retired its previous hash, so a
 * spent token is tolerated by the age of its own rotation.
 */
module RefreshGrace {
  import opened Wrappers
  import opened SessionTable
  import opened RefreshProtocol
  import opened RefreshSafety

  /** A row belongs to an existing user, and its stamp dates the rotation of its previous hash. */
  ghost predicate Dated(s: State, sid: SessionId)
    requires sid in s.db.sessions
  {
    var row := s.db.sessions[sid];
    && row.user in s.db.epochs
    && (row.previous.Some? ==>
          row.previous.value in s.rotations && row.lastSeen == Some(s.rotations[row.previous.value].at))
  }

  /** The newest rotation of a session that is still there is what its row shows. */
  ghost predicate Shows(s: State, h: Hash)
    requires h in s.rotations
  {
    var r := s.rotations[h];
    r.sid in s.db.sessions && r.newHash !in s.rotations ==>
      s.db.sessions[r.sid].current == r.newHash && s.db.sessions[r.sid].previous == Some(h)
  }

  ghost predicate GraceInv(s: State) {
    && Inv(s)
    && (forall sid <- s.db.sessions :: Dated(s, sid))
    && (forall h <- s.rotations :: Shows(s, h))
  }

  lemma StepKeepsDated(s: State, id: CallId, ch: Choice, sid: SessionId)
    requires GraceInv(s) && Enabled(s, Step(id, ch)) && sid in StepCall(s, id, ch).db.sessions
    ensures Dated(StepCall(s, id, ch), sid)
  {
    assert sid in s.db.sessions ==> Dated(s, sid) && RowOk(s, sid);
  }

  lemma StepKeepsShows(s: State, id: CallId, ch: Choice, h: Hash)
    requires GraceInv(s) && Enabled(s, Step(id, ch)) && h in StepCall(s, id, ch).rotations
    ensures Shows(StepCall(s, id, ch), h)
  {
    assert CallOk(s, id);
    if h in s.rotations {
      assert Shows(s, h);
    }
  }

  lemma ApplyKeepsGrace(s: State, a: Action)
    requires GraceInv(s) && Enabled(s, a)
    ensures GraceInv(Apply(s, a))
  {
    ApplyKeepsInv(s, a);
    var t := Apply(s, a);
    hide Inv, RowsOk, HistoryOk, CallsOk;
    forall sid <- t.db.sessions ensures Dated(t, sid) {
      if a.Step? {
        StepKeepsDated(s, a.id, a.ch, sid);
      } else {
        assert Dated(s, sid);
      }
    }
    forall h <- t.rotations ensures Shows(t, h) {
      if a.Step? {
        StepKeepsShows(s, a.id, a.ch, h);
      } else {
        assert Shows(s, h);
      }
    }
  }

  lemma {:induction false} RunKeepsGrace(s: State, run: seq<Action>)
    requires GraceInv(s) && Legal(s, run)
    ensures GraceInv(After(s, run))
    decreases |run|
  {
    if run != [] {
      ApplyKeepsGrace(s, run[0]);
      RunKeepsGrace(Apply(s, run[0]), run[1..]);
    }
  }

  lemma ReachableGrace(s: State)
    requires Reachable(s)
    ensures GraceInv(s)
  {
    var run :| Legal(INITIAL, run) && After(INITIAL, run) == s;
    RunKeepsGrace(INITIAL, run);
  }

  /** The successor of h has not been rotated away itself, and its session is still there and alive. */
  predicate JustRetired(s: State, h: Hash, now: int) {
    && h in s.rotations && s.rotations[h].newHash !in s.rotations
    && s.rotations[h].sid in s.db.sessions && now < s.db.sessions[s.rotations[h].sid].expiresAt
  }

  /** Less than the grace between the rotation's commit and the service's clock, either way round. */
  predicate WithinGrace(s: State, h: Hash, clock: int)
    requires h in s.rotations
  {
    -REFRESH_REUSE_GRACE < clock - s.rotations[h].at < REFRESH_REUSE_GRACE
  }

  /**
   * The window is exact, in every reachable state: presenting a retired token
   * whose successor is current is refused and nothing is written if and only
   * if its own rotation committed less than the grace ago; otherwise the next
   * statement deletes the user's sessions.
   */
  lemma GraceWindowExact(s: State, id: CallId, ch: Choice, h: Hash)
    requires Reachable(s) && Enabled(s, Step(id, ch)) && s.calls[id] == RefreshLookup(h)
    requires ch.fault == Fine && JustRetired(s, h, ch.now)
    ensures StepCall(s, id, ch).db == s.db
    ensures var next := StepCall(s, id, ch).calls[id];
            if WithinGrace(s, h, ch.clock) then next.RefreshDone? && next.outcome.Tolerated? && next.outcome.sid == s.rotations[h].sid
            else next == RefreshDelete(h, Found(s.rotations[h].sid, s.db.sessions[s.rotations[h].sid]), Superseded)
  {
    ReachableGrace(s);
    var sid := s.rotations[h].sid;
    assert Shows(s, h) && Dated(s, sid) && RowOk(s, sid);
    assert MatchesAny(s.db.sessions[sid], h, ch.now);
    assert ch.pick in s.db.sessions;
    LookupUnique(s, h, sid, ch.pick, ch.now);
  }

  /**
   * So it is at a lost swap: the second lookup of a refresh whose token was
   * rotated away by another one decides by the age of that rotation.
   */
  lemma LostSwapWindowExact(s: State, id: CallId, ch: Choice, h: Hash, found: Found)
    requires Reachable(s) && Enabled(s, Step(id, ch)) && s.calls[id] == RefreshReread(h, found)
    requires ch.fault == Fine && JustRetired(s, h, ch.now) && s.rotations[h].sid == found.sid
    ensures StepCall(s, id, ch).db == s.db
    ensures var next := StepCall(s, id, ch).calls[id];
            if WithinGrace(s, h, ch.clock) then next.RefreshDone? && next.outcome.Tolerated?
            else next == RefreshDelete(h, found, RotationRace)
  {
    ReachableGrace(s);
    var sid := s.rotations[h].sid;
    assert Shows(s, h) && Dated(s, sid) && RowOk(s, sid);
    assert MatchesAny(s.db.sessions[sid], h, ch.now);
    assert ch.pick in s.db.sessions;
    LookupUnique(s, h, sid, ch.pick, ch.now);
  }
}
