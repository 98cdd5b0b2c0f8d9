/**
 * What every interleaving keeps: a refresh token is exchanged at most once and
 * a hash once rotated away never becomes current again.
 */
module RefreshSafety {
  import opened Wrappers
  import opened SessionTable
  import opened RefreshProtocol

  /** A drawn hash that no statement has stored yet. */
  ghost predicate Unused(s: State, n: Hash) {
    && n in s.issued
    && n !in s.rotations
    && (forall sid <- s.db.sessions :: s.db.sessions[sid].current != n)
    && (forall h <- s.rotations :: s.rotations[h].newHash != n)
  }

  ghost predicate RowOk(s: State, sid: SessionId)
    requires sid in s.db.sessions
  {
    var row := s.db.sessions[sid];
    && sid in s.sids
    && row.user in s.users
    && row.current in s.issued
    && row.current !in s.rotations
    && (row.previous.Some? ==>
          && row.previous.value in s.rotations
          && s.rotations[row.previous.value].sid == sid
          && s.rotations[row.previous.value].newHash == row.current)
  }

  ghost predicate RowsOk(s: State) {
    && (forall sid <- s.db.sessions :: RowOk(s, sid))
    && (forall a <- s.db.sessions, b <- s.db.sessions ::
          s.db.sessions[a].current == s.db.sessions[b].current ==> a == b)
  }

  ghost predicate HistoryOk(s: State) {
    && (forall h <- s.rotations :: h in s.issued && s.rotations[h].newHash in s.issued
                                   && s.rotations[h].call in s.calls && s.rotations[h].sid in s.sids)
    && (forall g <- s.rotations, h <- s.rotations ::
          s.rotations[g].newHash == s.rotations[h].newHash ==> g == h)
    && s.db.epochs.Keys <= s.users
  }

  /** The hash a call has drawn for its rotation and not yet been told the fate of. */
  function Pending(c: Call): Option<Hash> {
    if c.RefreshRotate? || c.RefreshLanded? then Some(c.newHash) else None
  }

  ghost predicate Committed(s: State, h: Hash, id: CallId, sid: SessionId, n: Hash) {
    h in s.rotations && s.rotations[h].call == id && s.rotations[h].sid == sid && s.rotations[h].newHash == n
  }

  ghost predicate CallOk(s: State, id: CallId)
    requires id in s.calls
  {
    match s.calls[id]
    case RefreshRotate(h, found, access, n) => Unused(s, n) && access.session == found.sid
    case RefreshLanded(h, found, access, n) =>
      access.session == found.sid && (Unused(s, n) || Committed(s, h, id, found.sid, n))
    case RefreshDone(h, outcome) =>
      outcome.Pair? ==> Committed(s, h, id, outcome.access.session, outcome.refresh)
    case _ => true
  }

  ghost predicate CallsOk(s: State) {
    && (forall id <- s.calls :: CallOk(s, id))
    && (forall a <- s.calls, b <- s.calls ::
          Pending(s.calls[a]).Some? && Pending(s.calls[a]) == Pending(s.calls[b]) ==> a == b)
  }

  ghost predicate Inv(s: State) {
    RowsOk(s) && HistoryOk(s) && CallsOk(s)
  }

  /** The state after a step, split into its effect on the tables and the new program counter. */
  lemma StepKeepsRow(s: State, id: CallId, ch: Choice, sid: SessionId)
    requires Inv(s) && Enabled(s, Step(id, ch)) && sid in StepCall(s, id, ch).db.sessions
    ensures RowOk(StepCall(s, id, ch), sid)
  {
    hide FindAny, FindCurrent, HonestAny, HonestCurrent, SessionsOf;
    assert CallOk(s, id);
  }

  lemma StepKeepsRows(s: State, id: CallId, ch: Choice)
    requires Inv(s) && Enabled(s, Step(id, ch))
    ensures RowsOk(StepCall(s, id, ch))
  {
    forall sid <- StepCall(s, id, ch).db.sessions ensures RowOk(StepCall(s, id, ch), sid) {
      StepKeepsRow(s, id, ch, sid);
    }
    hide RowOk, HistoryOk;
  }

  lemma StepKeepsHistory(s: State, id: CallId, ch: Choice)
    requires Inv(s) && Enabled(s, Step(id, ch))
    ensures HistoryOk(StepCall(s, id, ch))
  {
  }

  lemma UnusedSurvives(s: State, id: CallId, ch: Choice, n: Hash)
    requires Inv(s) && Enabled(s, Step(id, ch)) && Unused(s, n)
    requires Pending(s.calls[id]) != Some(n)
    ensures Unused(StepCall(s, id, ch), n)
  {
  }

  lemma CommittedSurvives(s: State, id: CallId, ch: Choice, h: Hash, winner: CallId, sid: SessionId, n: Hash)
    requires Inv(s) && Enabled(s, Step(id, ch)) && Committed(s, h, winner, sid, n)
    ensures Committed(StepCall(s, id, ch), h, winner, sid, n)
  {
  }

  lemma OtherCallKept(s: State, id: CallId, ch: Choice, other: CallId)
    requires Inv(s) && Enabled(s, Step(id, ch)) && other in s.calls && other != id
    ensures CallOk(StepCall(s, id, ch), other)
  {
    assert CallOk(s, other);
    match s.calls[other]
    case RefreshRotate(h, found, access, n) => UnusedSurvives(s, id, ch, n);
    case RefreshLanded(h, found, access, n) =>
      if Unused(s, n) {
        UnusedSurvives(s, id, ch, n);
      } else {
        CommittedSurvives(s, id, ch, h, other, found.sid, n);
      }
    case RefreshDone(h, outcome) =>
      if outcome.Pair? {
        CommittedSurvives(s, id, ch, h, other, outcome.access.session, outcome.refresh);
      }
    case _ =>
  }

  lemma OwnCallKept(s: State, id: CallId, ch: Choice)
    requires Inv(s) && Enabled(s, Step(id, ch))
    ensures CallOk(StepCall(s, id, ch), id)
  {
    assert CallOk(s, id);
  }

  lemma StepKeepsCalls(s: State, id: CallId, ch: Choice)
    requires Inv(s) && Enabled(s, Step(id, ch))
    ensures CallsOk(StepCall(s, id, ch))
  {
    var t := StepCall(s, id, ch);
    forall other <- t.calls ensures CallOk(t, other) {
      if other == id { OwnCallKept(s, id, ch); } else { OtherCallKept(s, id, ch, other); }
    }
    forall a <- t.calls, b <- t.calls
      | Pending(t.calls[a]).Some? && Pending(t.calls[a]) == Pending(t.calls[b])
      ensures a == b
    {
      assert CallOk(s, id);
      assert a == id || CallOk(s, a);
      assert b == id || CallOk(s, b);
    }
  }

  lemma BeginKeepsInv(s: State, a: Action)
    requires Inv(s) && Enabled(s, a) && a.Begin?
    ensures Inv(Apply(s, a))
  {
    var t := Apply(s, a);
    forall other <- t.calls ensures CallOk(t, other) {
      assert other in s.calls ==> CallOk(s, other);
    }
  }

  lemma WritersKeepCalls(s: State, a: Action)
    requires CallsOk(s) && Enabled(s, a) && !a.Begin? && !a.Step?
    ensures CallsOk(Apply(s, a))
  {
    var t := Apply(s, a);
    forall other <- t.calls ensures CallOk(t, other) {
      assert CallOk(s, other);
    }
    hide CallOk;
  }

  /** The other writers of the tables add no row and change no token. */
  lemma WritersKeepInv(s: State, a: Action)
    requires Inv(s) && Enabled(s, a) && !a.Begin? && !a.Step?
    ensures Inv(Apply(s, a))
  {
    WritersKeepCalls(s, a);
    hide CallsOk;
  }

  lemma ApplyKeepsInv(s: State, a: Action)
    requires Inv(s) && Enabled(s, a)
    ensures Inv(Apply(s, a))
  {
    match a
    case Step(id, ch) =>
      hide RowsOk, HistoryOk, CallsOk;
      StepKeepsRows(s, id, ch);
      StepKeepsHistory(s, id, ch);
      StepKeepsCalls(s, id, ch);
    case Begin(_, _) =>
      BeginKeepsInv(s, a);
    case _ =>
      WritersKeepInv(s, a);
  }

  /** Rotations are never undone or rewritten, calls never forgotten, results never changed. */
  ghost predicate Extends(s: State, t: State) {
    && (forall h <- s.rotations :: h in t.rotations && t.rotations[h] == s.rotations[h])
    && s.issued <= t.issued
    && s.sids <= t.sids
    && s.users <= t.users
    && (forall id <- s.calls :: id in t.calls && (s.calls[id].Finished() ==> t.calls[id] == s.calls[id]))
  }

  lemma StepExtends(s: State, id: CallId, ch: Choice)
    requires Inv(s) && Enabled(s, Step(id, ch))
    ensures Extends(s, StepCall(s, id, ch))
  {
    assert forall h <- s.rotations :: h in StepCall(s, id, ch).rotations && StepCall(s, id, ch).rotations[h] == s.rotations[h] by {
      hide CallsOk, HistoryOk;
    }
    hide Inv, Decide;
  }

  lemma ApplyExtends(s: State, a: Action)
    requires Inv(s) && Enabled(s, a)
    ensures Extends(s, Apply(s, a))
  {
    hide Inv, StepCall;
    if a.Step? {
      hide Extends;
      StepExtends(s, a.id, a.ch);
    }
  }

  lemma {:induction false} RunKeepsInv(s: State, run: seq<Action>)
    requires Inv(s) && Legal(s, run)
    ensures Inv(After(s, run)) && Extends(s, After(s, run))
    decreases |run|
  {
    if run != [] {
      ApplyKeepsInv(s, run[0]);
      ApplyExtends(s, run[0]);
      RunKeepsInv(Apply(s, run[0]), run[1..]);
    }
  }

  lemma ReachableInv(s: State)
    requires Reachable(s)
    ensures Inv(s)
  {
    var run :| Legal(INITIAL, run) && After(INITIAL, run) == s;
    RunKeepsInv(INITIAL, run);
  }

  ghost predicate Returned(s: State, id: CallId, h: Hash) {
    id in s.calls && s.calls[id].RefreshDone? && s.calls[id].h == h && s.calls[id].outcome.Pair?
  }

  /**
   * In every interleaving, with statements failing or committing silently at
   * any point, a refresh token is exchanged for at most one token pair.
   */
  lemma TokenExchangedAtMostOnce(s: State, h: Hash, a: CallId, b: CallId)
    requires Reachable(s) && Returned(s, a, h) && Returned(s, b, h)
    ensures a == b
  {
    ReachableInv(s);
    assert CallOk(s, a) && CallOk(s, b);
  }

  /** Two exchanges, of any tokens, never hand out the same refresh token. */
  lemma ExchangesDiffer(s: State, g: Hash, a: CallId, h: Hash, b: CallId)
    requires Reachable(s) && Returned(s, a, g) && Returned(s, b, h) && a != b
    ensures s.calls[a].outcome.refresh != s.calls[b].outcome.refresh
  {
    ReachableInv(s);
    assert CallOk(s, a) && CallOk(s, b);
  }

  /** A hash once rotated away is current nowhere, then or ever after. */
  lemma RetiredNeverCurrent(s: State, run: seq<Action>, h: Hash, sid: SessionId)
    requires Reachable(s) && Legal(s, run) && h in s.rotations
    requires sid in After(s, run).db.sessions
    ensures After(s, run).db.sessions[sid].current != h
  {
    ReachableInv(s);
    RunKeepsInv(s, run);
    assert RowOk(After(s, run), sid);
  }

  /** The two lookups of Refresh are well defined: at most one row matches a hash. */
  lemma LookupUnique(s: State, h: Hash, a: SessionId, b: SessionId, now: int)
    requires Reachable(s) && a in s.db.sessions && b in s.db.sessions
    requires MatchesAny(s.db.sessions[a], h, now) && MatchesAny(s.db.sessions[b], h, now)
    ensures a == b
  {
    ReachableInv(s);
    assert RowOk(s, a) && RowOk(s, b);
  }

  /**
   * Reuse is recognised for exactly one generation: a token whose successor
   * has itself been rotated away matches no row, so an answered lookup says
   * "invalid" and wipes nothing.
   */
  lemma TwoRotationsOldIsUnknown(s: State, h: Hash, ch: Choice)
    requires Reachable(s) && h in s.rotations && s.rotations[h].newHash in s.rotations
    requires ch.fault == Fine
    ensures Decide(s.db, RefreshLookup(h), ch) == (NoEffect, RefreshDone(h, Invalid))
  {
    ReachableInv(s);
    if ch.pick in s.db.sessions {
      assert RowOk(s, ch.pick);
    }
  }
}
