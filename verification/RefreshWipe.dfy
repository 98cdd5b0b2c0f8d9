/**
 * The reuse response: deleting the user's sessions and bumping the epoch cuts
 * off everything that was there, including what concurrent calls still mint.
 */
module RefreshWipe {
  import opened Wrappers
  import opened SessionTable
  import opened RefreshProtocol
  import opened RefreshSafety

  /** The tokens a call has minted from the user row it read, or will mint. */
  function Stamp(c: Call): Option<(UserId, nat)> {
    match c
    case RefreshMint(_, found, epoch) => Some((found.row.user, epoch))
    case RefreshRotate(_, _, access, _) => Some((access.user, access.epoch))
    case RefreshLanded(_, _, access, _) => Some((access.user, access.epoch))
    case RefreshDone(_, outcome) => if outcome.Pair? then Some((outcome.access.user, outcome.access.epoch)) else None
    case LoginCreate(user, epoch) => Some((user, epoch))
    case LoginMint(access, _) => Some((access.user, access.epoch))
    case LoginDone(outcome) => if outcome.Pair? then Some((outcome.access.user, outcome.access.epoch)) else None
    case _ => None
  }

  ghost predicate StampOk(s: State, id: CallId)
    requires id in s.calls
  {
    var st := Stamp(s.calls[id]);
    st.Some? ==> st.value.0 in s.users
                 && (st.value.0 in s.db.epochs ==> st.value.1 <= s.db.epochs[st.value.0])
  }

  ghost predicate EpochInv(s: State) {
    Inv(s) && forall id <- s.calls :: StampOk(s, id)
  }

  /** What epochs do along a run: users do not come back and epochs do not go down. */
  ghost predicate EpochsGrow(s: State, t: State) {
    forall u <- s.users :: u in t.db.epochs ==> u in s.db.epochs && s.db.epochs[u] <= t.db.epochs[u]
  }

  /** A call that can no longer hand out tokens. */
  predicate Barren(c: Call) {
    match c
    case RefreshReread(_, _) => true
    case RefreshDelete(_, _, _) => true
    case RefreshBump(_, _, _, _) => true
    case RefreshDone(_, outcome) => !outcome.Pair?
    case LoginUndo(_) => true
    case LoginDone(outcome) => !outcome.Pair?
    case _ => false
  }

  /** A call that has read its user row keeps what it read, or ends without tokens. */
  ghost predicate StampsKept(s: State, t: State) {
    forall id <- s.calls ::
      && id in t.calls
      && (Barren(s.calls[id]) ==> Barren(t.calls[id]))
      && (Stamp(s.calls[id]).Some? ==> Barren(t.calls[id]) || Stamp(t.calls[id]) == Stamp(s.calls[id]))
  }

  lemma ApplyGrowsEpochs(s: State, a: Action)
    requires Inv(s) && Enabled(s, a)
    ensures EpochsGrow(s, Apply(s, a))
  {
  }

  lemma ApplyKeepsStamps(s: State, a: Action)
    requires EpochInv(s) && Enabled(s, a)
    ensures StampsKept(s, Apply(s, a))
  {
  }

  /** A stamp is only ever read from the user's row, and then carried along. */
  lemma StampOrigin(db: Db, c: Call, ch: Choice)
    requires !c.Finished() && Stamp(Decide(db, c, ch).1).Some?
    ensures var st := Stamp(Decide(db, c, ch).1).value;
            Stamp(c) == Some(st) || (st.0 in db.epochs && st.1 == db.epochs[st.0])
  {
  }

  lemma ApplyKeepsStampOk(s: State, a: Action, id: CallId)
    requires EpochInv(s) && Enabled(s, a) && id in Apply(s, a).calls
    ensures StampOk(Apply(s, a), id)
  {
    ApplyGrowsEpochs(s, a);
    var t := Apply(s, a);
    assert s.users <= t.users by { ApplyExtends(s, a); }
    if id !in s.calls {
      assert Stamp(t.calls[id]).None?;
    } else {
      assert StampOk(s, id);
      if t.calls[id] != s.calls[id] && Stamp(t.calls[id]).Some? {
        StampOrigin(s.db, s.calls[id], a.ch);
      }
    }
  }

  lemma ApplyKeepsEpochs(s: State, a: Action)
    requires EpochInv(s) && Enabled(s, a)
    ensures EpochInv(Apply(s, a)) && EpochsGrow(s, Apply(s, a)) && StampsKept(s, Apply(s, a))
  {
    ApplyKeepsInv(s, a);
    ApplyGrowsEpochs(s, a);
    ApplyKeepsStamps(s, a);
    forall id <- Apply(s, a).calls ensures StampOk(Apply(s, a), id) {
      ApplyKeepsStampOk(s, a, id);
    }
  }

  lemma {:induction false} RunKeepsEpochs(s: State, run: seq<Action>)
    requires EpochInv(s) && Legal(s, run)
    ensures EpochInv(After(s, run)) && EpochsGrow(s, After(s, run)) && StampsKept(s, After(s, run))
    ensures Extends(s, After(s, run))
    decreases |run|
  {
    RunKeepsInv(s, run);
    if run != [] {
      var next := Apply(s, run[0]);
      ApplyKeepsEpochs(s, run[0]);
      ApplyExtends(s, run[0]);
      RunKeepsEpochs(next, run[1..]);
    }
  }

  lemma ReachableEpochInv(s: State)
    requires Reachable(s)
    ensures EpochInv(s)
  {
    var run :| Legal(INITIAL, run) && After(INITIAL, run) == s;
    RunKeepsEpochs(INITIAL, run);
  }

  /** The middleware's check of a token while the database answers: the sign-in is live and the epoch matches. */
  predicate Accepted(db: Db, token: AccessToken) {
    token.session in db.sessions && token.user in db.epochs && db.epochs[token.user] == token.epoch
  }

  ghost predicate HandsOut(s: State, id: CallId, token: AccessToken) {
    id in s.calls
    && ((s.calls[id].RefreshDone? && s.calls[id].outcome.Pair? && s.calls[id].outcome.access == token)
        || (s.calls[id].LoginDone? && s.calls[id].outcome.Pair? && s.calls[id].outcome.access == token))
  }

  /** A session id that is gone and was once drawn is never in the table again, nor rotated again. */
  ghost predicate Buried(s: State, sid: SessionId) {
    sid in s.sids && sid !in s.db.sessions
  }

  lemma ApplyKeepsBuried(s: State, a: Action, sid: SessionId)
    requires Inv(s) && Enabled(s, a) && Buried(s, sid)
    ensures Buried(Apply(s, a), sid)
    ensures forall h <- Apply(s, a).rotations ::
              Apply(s, a).rotations[h].sid == sid ==> h in s.rotations && s.rotations[h] == Apply(s, a).rotations[h]
  {
  }

  lemma {:induction false} RunKeepsBuried(s: State, run: seq<Action>, sid: SessionId)
    requires Inv(s) && Legal(s, run) && Buried(s, sid)
    ensures Buried(After(s, run), sid)
    ensures forall h <- After(s, run).rotations ::
              After(s, run).rotations[h].sid == sid ==> h in s.rotations && s.rotations[h] == After(s, run).rotations[h]
    decreases |run|
  {
    if run != [] {
      ApplyKeepsInv(s, run[0]);
      ApplyKeepsBuried(s, run[0], sid);
      RunKeepsBuried(Apply(s, run[0]), run[1..], sid);
    }
  }

  /**
   * After a delete that succeeded, no session of the user that was in the
   * table at the delete is there again, and none of them is rotated again: a
   * pair a refresh returns for such a session was committed before the delete.
   */
  lemma WipedSessionsNeverRotate(s: State, w: CallId, del: Choice, later: seq<Action>, sid: SessionId, id: CallId, h: Hash)
    requires Reachable(s) && Enabled(s, Step(w, del)) && s.calls[w].RefreshDelete? && del.fault == Fine
    requires Legal(StepCall(s, w, del), later)
    requires sid in SessionsOf(s.db, s.calls[w].found.row.user)
    ensures sid !in After(StepCall(s, w, del), later).db.sessions
    ensures Returned(After(StepCall(s, w, del), later), id, h)
            && After(StepCall(s, w, del), later).calls[id].outcome.access.session == sid
            ==> h in s.rotations && s.rotations[h].call == id
  {
    ReachableInv(s);
    assert RowOk(s, sid);
    var gone := StepCall(s, w, del);
    ApplyKeepsInv(s, Step(w, del));
    RunKeepsInv(gone, later);
    RunKeepsBuried(gone, later, sid);
    if Returned(After(gone, later), id, h) {
      assert CallOk(After(gone, later), id);
    }
  }

  lemma BumpRaises(s: State, w: CallId, bump: Choice, u: UserId)
    requires Enabled(s, Step(w, bump)) && s.calls[w].RefreshBump? && bump.fault != Failed
    requires u == s.calls[w].found.row.user
    ensures u in s.db.epochs ==>
              u in StepCall(s, w, bump).db.epochs && StepCall(s, w, bump).db.epochs[u] == s.db.epochs[u] + 1
    ensures u !in s.db.epochs ==> u !in StepCall(s, w, bump).db.epochs
    ensures Barren(StepCall(s, w, bump).calls[w])
  {
  }

  lemma HandsOutStamp(s: State, id: CallId, token: AccessToken)
    requires HandsOut(s, id, token)
    ensures Stamp(s.calls[id]) == Some((token.user, token.epoch)) && !Barren(s.calls[id])
  {
  }

  /** A bump that commits leaves every epoch read before it behind for good. */
  lemma BumpOutdates(s: State, w: CallId, bump: Choice, later: seq<Action>, end: State, id: CallId, token: AccessToken)
    requires EpochInv(s) && Enabled(s, Step(w, bump)) && s.calls[w].RefreshBump? && bump.fault != Failed
    requires Legal(StepCall(s, w, bump), later) && end == After(StepCall(s, w, bump), later)
    requires id in s.calls && Stamp(s.calls[id]).Some? && token.user == s.calls[w].found.row.user
    requires HandsOut(end, id, token)
    ensures token.user in end.db.epochs ==> token.epoch < end.db.epochs[token.user]
  {
    var bumped := StepCall(s, w, bump);
    ApplyKeepsEpochs(s, Step(w, bump));
    RunKeepsEpochs(bumped, later);
    HandsOutStamp(end, id, token);
    BumpRaises(s, w, bump, token.user);
    assert StampOk(s, id);
    assert StampsKept(s, bumped) && StampsKept(bumped, end);
    assert EpochsGrow(bumped, end);
    assert id in bumped.calls;
  }

  /** The two writes of a wipe and what is reported of them. */
  lemma WipeReported(s: State, w: CallId, del: Choice, mid: State, bump: Choice)
    requires Enabled(s, Step(w, del)) && s.calls[w].RefreshDelete? && del.fault == Fine
    requires Enabled(mid, Step(w, bump)) && mid.calls[w] == StepCall(s, w, del).calls[w] && bump.fault == Fine
    ensures mid.calls[w].RefreshBump? && mid.calls[w].found == s.calls[w].found
    ensures var done := StepCall(mid, w, bump).calls[w];
            done.RefreshDone? && done.outcome.Reuse? && done.outcome.deleted && done.outcome.bumped
  {
  }

  /**
   * After a wipe whose delete and bump both succeeded, with anything
   * interleaved between them and after them, no access token that any call had
   * minted or was about to mint from a user row read before the bump is
   * accepted, and the caller is told that both writes landed.
   */
  lemma WipeRevokesFamily(s: State, w: CallId, del: Choice, between: seq<Action>, mid: State,
                          bump: Choice, later: seq<Action>, end: State, id: CallId, token: AccessToken)
    requires Reachable(s) && Enabled(s, Step(w, del)) && s.calls[w].RefreshDelete? && del.fault == Fine
    requires Legal(StepCall(s, w, del), between) && mid == After(StepCall(s, w, del), between)
    requires Enabled(mid, Step(w, bump)) && mid.calls[w] == StepCall(s, w, del).calls[w] && bump.fault == Fine
    requires Legal(StepCall(mid, w, bump), later) && end == After(StepCall(mid, w, bump), later)
    requires id in mid.calls && Stamp(mid.calls[id]).Some?
    requires HandsOut(end, id, token) && token.user == s.calls[w].found.row.user
    ensures !Accepted(end.db, token)
    ensures w in end.calls && end.calls[w].RefreshDone?
    ensures end.calls[w].outcome.Reuse? && end.calls[w].outcome.deleted && end.calls[w].outcome.bumped
  {
    WipeReported(s, w, del, mid, bump);
    hide Decide;
    ReachableEpochInv(s);
    ApplyKeepsEpochs(s, Step(w, del));
    RunKeepsEpochs(StepCall(s, w, del), between);
    BumpOutdates(mid, w, bump, later, end, id, token);
    ApplyKeepsEpochs(mid, Step(w, bump));
    RunKeepsEpochs(StepCall(mid, w, bump), later);
  }
}
