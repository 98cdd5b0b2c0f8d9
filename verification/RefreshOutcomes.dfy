/**
 * What a refresh, a login and a logout answer and write, told from the tables
 * as their statements met them: when a client is signed out, when it may try
 * again, and whose rows are touched.
 */
module RefreshOutcomes {
  import opened Wrappers
  import opened EventLog
  import opened SessionTable
  import opened RefreshProtocol
  import opened RefreshService

  /** Statement k was issued and answered. */
  predicate Answered(moves: seq<Statement>, k: nat) { k < |moves| && moves[k].choice.fault == Fine }

  /** Statement k was issued and its error was all the caller saw. */
  predicate Errored(moves: seq<Statement>, k: nat) { k < |moves| && moves[k].choice.fault != Fine }

  /** A session has the token, as its current one or as the one before, and has not expired. */
  predicate Carries(db: Db, sid: SessionId, h: Hash, now: int) {
    && sid in db.sessions && now < db.sessions[sid].expiresAt
    && (db.sessions[sid].current == h || (db.sessions[sid].previous.Some? && db.sessions[sid].previous.value == h))
  }

  /** The first statement was answered with a session that carries the token. */
  ghost predicate FoundIt(h: Hash, moves: seq<Statement>) {
    Answered(moves, 0) && exists sid :: Carries(moves[0].before, sid, h, moves[0].choice.now)
  }

  /** The session it was answered with. */
  function FoundRow(moves: seq<Statement>): Row
    requires |moves| > 0 && moves[0].choice.pick in moves[0].before.sessions
  {
    moves[0].before.sessions[moves[0].choice.pick]
  }

  ghost predicate FoundCurrent(h: Hash, moves: seq<Statement>) {
    && FoundIt(h, moves) && moves[0].choice.pick in moves[0].before.sessions && FoundRow(moves).current == h
  }

  ghost predicate FoundSpent(h: Hash, moves: seq<Statement>) {
    && FoundIt(h, moves) && moves[0].choice.pick in moves[0].before.sessions && FoundRow(moves).current != h
  }

  /** Less than two minutes between the session's last rotation and the service's clock, either way round. */
  predicate Recent(row: Row, clock: int) {
    row.lastSeen.Some? && -120 * SECOND < clock - row.lastSeen.value < 120 * SECOND
  }

  /** The user read was answered with the user there. */
  ghost predicate UserThere(h: Hash, moves: seq<Statement>) {
    FoundCurrent(h, moves) && Answered(moves, 1) && FoundRow(moves).user in moves[1].before.epochs
  }

  ghost predicate MintedAll(h: Hash, moves: seq<Statement>) {
    UserThere(h, moves) && |moves| > 2 && moves[2].choice.minted
  }

  /** The row the swap is for still has the token. */
  predicate StillCurrent(h: Hash, db: Db, sid: SessionId) { sid in db.sessions && db.sessions[sid].current == h }

  /** The refusal names the session and tells the whole seconds since its rotation, none for a stamp ahead of the clock. */
  predicate IsTolerated(out: Outcome, row: Row, sid: SessionId, trigger: Trigger, clock: int) {
    && out.Tolerated? && out.user == row.user && out.sid == sid && out.trigger == trigger && row.lastSeen.Some?
    && var since := clock - row.lastSeen.value;
       if since < 0 then out.seconds == 0 else out.seconds * SECOND <= since < (out.seconds + 1) * SECOND
  }

  // ------------------------------------------------------ stage by stage

  lemma WalkOn(c: Call, moves: seq<Statement>)
    requires Walk(c, moves).Some? && !c.Finished() && Walk(c, moves).value.Finished()
    ensures |moves| > 0 && Truthful(moves[0].before, c, moves[0].choice)
    ensures var (effect, next) := Decide(moves[0].before, c, moves[0].choice);
            Walk(next, moves[1..]) == Walk(c, moves) && moves[0].after == Perform(moves[0].before, effect)
  {
  }

  lemma WalkEnds(c: Call, moves: seq<Statement>)
    requires Walk(c, moves).Some? && c.Finished()
    ensures moves == [] && Walk(c, moves) == Some(c)
  {
  }

  lemma FirstLookup(h: Hash, moves: seq<Statement>, out: Outcome)
    requires Walk(RefreshLookup(h), moves) == Some(RefreshDone(h, out))
    ensures |moves| > 0 && moves[0].after == moves[0].before
    ensures FoundIt(h, moves) ==> Carries(moves[0].before, moves[0].choice.pick, h, moves[0].choice.now)
    ensures Errored(moves, 0) ==> out == Unavailable
    ensures Answered(moves, 0) && !FoundIt(h, moves) ==> out == Invalid
    ensures !FoundIt(h, moves) ==> |moves| == 1
    ensures FoundSpent(h, moves) && Recent(FoundRow(moves), moves[0].choice.clock) ==>
              |moves| == 1 && IsTolerated(out, FoundRow(moves), moves[0].choice.pick, Superseded, moves[0].choice.clock)
    ensures FoundSpent(h, moves) && !Recent(FoundRow(moves), moves[0].choice.clock) ==>
              Walk(RefreshDelete(h, Found(moves[0].choice.pick, FoundRow(moves)), Superseded), moves[1..]) == Some(RefreshDone(h, out))
    ensures FoundCurrent(h, moves) ==>
              Walk(RefreshUser(h, Found(moves[0].choice.pick, FoundRow(moves))), moves[1..]) == Some(RefreshDone(h, out))
  {
    var m := moves[0];
    WalkOn(RefreshLookup(h), moves);
    if FoundIt(h, moves) {
      var sid :| Carries(m.before, sid, h, m.choice.now);
      assert MatchesAny(m.before.sessions[sid], h, m.choice.now);
    } else if Answered(moves, 0) && m.choice.pick in m.before.sessions {
      assert !Carries(m.before, m.choice.pick, h, m.choice.now);
    }
    var next := Decide(m.before, RefreshLookup(h), m.choice).1;
    if next.Finished() {
      WalkEnds(next, moves[1..]);
    }
  }

  lemma UserRead(h: Hash, found: Found, moves: seq<Statement>, out: Outcome)
    requires Walk(RefreshUser(h, found), moves) == Some(RefreshDone(h, out))
    ensures |moves| > 0 && moves[0].after == moves[0].before
    ensures Errored(moves, 0) ==> |moves| == 1 && out == Unavailable
    ensures Answered(moves, 0) && found.row.user !in moves[0].before.epochs ==> |moves| == 1 && out == Invalid
    ensures Answered(moves, 0) && found.row.user in moves[0].before.epochs ==>
              Walk(RefreshMint(h, found, moves[0].before.epochs[found.row.user]), moves[1..]) == Some(RefreshDone(h, out))
  {
    WalkOn(RefreshUser(h, found), moves);
    var next := Decide(moves[0].before, RefreshUser(h, found), moves[0].choice).1;
    if next.Finished() {
      WalkEnds(next, moves[1..]);
    }
  }

  lemma Minting(h: Hash, found: Found, epoch: nat, moves: seq<Statement>, out: Outcome)
    requires Walk(RefreshMint(h, found, epoch), moves) == Some(RefreshDone(h, out))
    ensures |moves| > 0 && moves[0].after == moves[0].before
    ensures !moves[0].choice.minted ==> |moves| == 1 && out == Unavailable
    ensures moves[0].choice.minted ==>
              var swap := RefreshRotate(h, found, AccessToken(found.row.user, found.sid, epoch), moves[0].choice.newHash);
              Walk(swap, moves[1..]) == Some(RefreshDone(h, out))
  {
    WalkOn(RefreshMint(h, found, epoch), moves);
    var next := Decide(moves[0].before, RefreshMint(h, found, epoch), moves[0].choice).1;
    if next.Finished() {
      WalkEnds(next, moves[1..]);
    }
  }

  /** One session got the new token, kept the old one as its previous, and its time runs anew up to the cap. */
  predicate Swapped(before: Db, after: Db, sid: SessionId, h: Hash, n: Hash, now: int, clock: int) {
    && sid in before.sessions && after.epochs == before.epochs && after.sessions.Keys == before.sessions.Keys
    && (forall other <- before.sessions :: other != sid ==> after.sessions[other] == before.sessions[other])
    && var was, row := before.sessions[sid], after.sessions[sid];
       && row.user == was.user && row.current == n && row.previous == Some(h) && row.lastSeen == Some(now)
       && row.absoluteExpiresAt == was.absoluteExpiresAt
       && row.expiresAt <= clock + 30 * 24 * 3600 * SECOND
       && (was.absoluteExpiresAt.Some? ==> row.expiresAt <= was.absoluteExpiresAt.value)
       && (row.expiresAt == clock + 30 * 24 * 3600 * SECOND || was.absoluteExpiresAt == Some(row.expiresAt))
  }

  lemma Swapping(h: Hash, found: Found, access: AccessToken, n: Hash, moves: seq<Statement>, out: Outcome)
    requires Walk(RefreshRotate(h, found, access, n), moves) == Some(RefreshDone(h, out))
    ensures |moves| > 0
    ensures var m := moves[0];
            if m.choice.fault != Failed && StillCurrent(h, m.before, found.sid)
            then Swapped(m.before, m.after, found.sid, h, n, m.choice.now, m.choice.clock) else m.after == m.before
    ensures Answered(moves, 0) && StillCurrent(h, moves[0].before, found.sid) ==> |moves| == 1 && out == Pair(access, n)
    ensures Answered(moves, 0) && !StillCurrent(h, moves[0].before, found.sid) ==>
              Walk(RefreshReread(h, found), moves[1..]) == Some(RefreshDone(h, out))
    ensures Errored(moves, 0) ==> Walk(RefreshLanded(h, found, access, n), moves[1..]) == Some(RefreshDone(h, out))
  {
    WalkOn(RefreshRotate(h, found, access, n), moves);
    var next := Decide(moves[0].before, RefreshRotate(h, found, access, n), moves[0].choice).1;
    if next.Finished() {
      WalkEnds(next, moves[1..]);
    }
  }

  /** A lookup was answered with this session, and the token is current on it. */
  predicate ShownCurrent(m: Statement, n: Hash, sid: SessionId) {
    m.choice.fault == Fine && m.choice.pick == sid && Carries(m.before, sid, n, m.choice.now) && m.before.sessions[sid].current == n
  }

  lemma LookingAfterError(h: Hash, found: Found, access: AccessToken, n: Hash, moves: seq<Statement>, out: Outcome)
    requires Walk(RefreshLanded(h, found, access, n), moves) == Some(RefreshDone(h, out))
    ensures |moves| == 1 && moves[0].after == moves[0].before
    ensures out == if ShownCurrent(moves[0], n, found.sid) then Pair(access, n) else Unavailable
  {
    WalkOn(RefreshLanded(h, found, access, n), moves);
    WalkEnds(Decide(moves[0].before, RefreshLanded(h, found, access, n), moves[0].choice).1, moves[1..]);
  }

  /** A lookup was answered with this session, the token is spent on it, and its rotation is recent. */
  predicate ShownRecentlySpent(m: Statement, h: Hash, sid: SessionId) {
    && m.choice.fault == Fine && m.choice.pick == sid && Carries(m.before, sid, h, m.choice.now)
    && m.before.sessions[sid].current != h && Recent(m.before.sessions[sid], m.choice.clock)
  }

  lemma LookingAfterLoss(h: Hash, found: Found, moves: seq<Statement>, out: Outcome)
    requires Walk(RefreshReread(h, found), moves) == Some(RefreshDone(h, out))
    ensures |moves| > 0 && moves[0].after == moves[0].before
    ensures ShownRecentlySpent(moves[0], h, found.sid) ==>
              |moves| == 1 && IsTolerated(out, moves[0].before.sessions[found.sid], found.sid, RotationRace, moves[0].choice.clock)
    ensures !ShownRecentlySpent(moves[0], h, found.sid) ==>
              Walk(RefreshDelete(h, found, RotationRace), moves[1..]) == Some(RefreshDone(h, out))
  {
    WalkOn(RefreshReread(h, found), moves);
    var next := Decide(moves[0].before, RefreshReread(h, found), moves[0].choice).1;
    if next.Finished() {
      WalkEnds(next, moves[1..]);
    }
  }

  /** Every session of the user is gone and nothing else is touched. */
  ghost predicate SignedOutEverywhere(before: Db, after: Db, user: UserId) {
    && after.epochs == before.epochs
    && (forall sid :: sid in after.sessions <==> sid in before.sessions && before.sessions[sid].user != user)
    && (forall sid <- after.sessions :: after.sessions[sid] == before.sessions[sid])
  }

  /** The user's epoch is one higher and nothing else is touched. */
  predicate Outdated(before: Db, after: Db, user: UserId) {
    && after.sessions == before.sessions && after.epochs.Keys == before.epochs.Keys
    && (forall u <- before.epochs :: after.epochs[u] == before.epochs[u] + if u == user then 1 else 0)
  }

  /** The two writes of the reuse response, each done or not, and both reported. */
  ghost predicate Wiped(del: Statement, bump: Statement, user: UserId, out: Outcome) {
    && out.Reuse? && out.user == user
    && (out.deleted <==> del.choice.fault == Fine) && (out.bumped <==> bump.choice.fault == Fine)
    && (if del.choice.fault == Failed then del.after == del.before else SignedOutEverywhere(del.before, del.after, user))
    && (if bump.choice.fault == Failed then bump.after == bump.before else Outdated(bump.before, bump.after, user))
  }

  lemma Wiping(h: Hash, found: Found, trigger: Trigger, moves: seq<Statement>, out: Outcome)
    requires Walk(RefreshDelete(h, found, trigger), moves) == Some(RefreshDone(h, out))
    ensures |moves| == 2 && Wiped(moves[0], moves[1], found.row.user, out) && out.sid == found.sid && out.trigger == trigger
  {
    WalkOn(RefreshDelete(h, found, trigger), moves);
    var c := RefreshBump(h, found, trigger, moves[0].choice.fault == Fine);
    WalkOn(c, moves[1..]);
    WalkEnds(Decide(moves[1].before, c, moves[1].choice).1, moves[1..][1..]);
  }

  // ----------------------------------------------------------- the answers

  /** The swap was answered and the row no longer had the token. */
  ghost predicate LostSwap(h: Hash, moves: seq<Statement>) {
    MintedAll(h, moves) && Answered(moves, 3) && !StillCurrent(h, moves[3].before, moves[0].choice.pick)
  }

  /** The swap was answered and the row had it. */
  ghost predicate WonSwap(h: Hash, moves: seq<Statement>) {
    MintedAll(h, moves) && Answered(moves, 3) && StillCurrent(h, moves[3].before, moves[0].choice.pick)
  }

  /** The swap reported an error, and the lookup after it. */
  ghost predicate UnsureSwap(h: Hash, moves: seq<Statement>) { MintedAll(h, moves) && Errored(moves, 3) }

  ghost predicate SeenToLand(h: Hash, moves: seq<Statement>) {
    UnsureSwap(h, moves) && |moves| > 4 && ShownCurrent(moves[4], moves[2].choice.newHash, moves[0].choice.pick)
  }

  ghost predicate SeenRecentlySpent(h: Hash, moves: seq<Statement>) {
    LostSwap(h, moves) && |moves| > 4 && ShownRecentlySpent(moves[4], h, moves[0].choice.pick)
  }

  /** 401, signed out: only if no session carries the token, or its user is gone. */
  ghost predicate NotKnown(h: Hash, moves: seq<Statement>) {
    || (Answered(moves, 0) && !FoundIt(h, moves))
    || (FoundCurrent(h, moves) && Answered(moves, 1) && FoundRow(moves).user !in moves[1].before.epochs)
  }

  /** 503, to be tried again: an error on the way to the swap, or a swap nobody knows the fate of. */
  ghost predicate NotAnswered(h: Hash, moves: seq<Statement>) {
    || Errored(moves, 0) || (FoundCurrent(h, moves) && Errored(moves, 1))
    || (UserThere(h, moves) && |moves| > 2 && !moves[2].choice.minted)
    || (UnsureSwap(h, moves) && !SeenToLand(h, moves))
  }

  ghost predicate Exchanged(h: Hash, moves: seq<Statement>) { WonSwap(h, moves) || SeenToLand(h, moves) }

  /** Refused without the wipe. */
  ghost predicate Spared(h: Hash, moves: seq<Statement>) {
    || (FoundSpent(h, moves) && Recent(FoundRow(moves), moves[0].choice.clock))
    || SeenRecentlySpent(h, moves)
  }

  /** Answered by the wipe. */
  ghost predicate Punished(h: Hash, moves: seq<Statement>) {
    || (FoundSpent(h, moves) && !Recent(FoundRow(moves), moves[0].choice.clock))
    || (LostSwap(h, moves) && !SeenRecentlySpent(h, moves))
  }

  ghost predicate Told(h: Hash, moves: seq<Statement>, out: Outcome) {
    && (out.Invalid? <==> NotKnown(h, moves))
    && (out.Unavailable? <==> NotAnswered(h, moves))
    && (out.Pair? <==> Exchanged(h, moves))
    && (out.Tolerated? <==> Spared(h, moves))
    && (out.Reuse? <==> Punished(h, moves))
  }

  /** Each answer is given exactly where it is due. */
  lemma RefreshAnswers(h: Hash, moves: seq<Statement>, out: Outcome)
    requires Walk(RefreshLookup(h), moves) == Some(RefreshDone(h, out))
    ensures Told(h, moves, out)
    ensures out.Pair? ==>
              out.refresh == moves[2].choice.newHash
              && out.access == AccessToken(FoundRow(moves).user, moves[0].choice.pick, moves[1].before.epochs[FoundRow(moves).user])
  {
    hide Walk, Truthful, Decide, Perform, ToleratedReuse;
    FirstLookup(h, moves, out);
    if FoundSpent(h, moves) {
      if !Recent(FoundRow(moves), moves[0].choice.clock) {
        Wiping(h, Found(moves[0].choice.pick, FoundRow(moves)), Superseded, moves[1..], out);
      }
    } else if FoundCurrent(h, moves) {
      var found := Found(moves[0].choice.pick, FoundRow(moves));
      UserRead(h, found, moves[1..], out);
      if UserThere(h, moves) {
        var epoch := moves[1].before.epochs[found.row.user];
        assert moves[1..][1..] == moves[2..];
        Minting(h, found, epoch, moves[2..], out);
        if MintedAll(h, moves) {
          assert moves[2..][1..] == moves[3..];
          SwapAnswers(h, found, AccessToken(found.row.user, found.sid, epoch), moves, out);
        }
      }
    }
  }

  lemma SwapAnswers(h: Hash, found: Found, access: AccessToken, moves: seq<Statement>, out: Outcome)
    requires MintedAll(h, moves) && found == Found(moves[0].choice.pick, FoundRow(moves))
    requires Walk(RefreshRotate(h, found, access, moves[2].choice.newHash), moves[3..]) == Some(RefreshDone(h, out))
    ensures Told(h, moves, out)
    ensures out.Pair? ==> out == Pair(access, moves[2].choice.newHash)
  {
    hide Walk, Truthful, Decide, Perform, ToleratedReuse;
    var n := moves[2].choice.newHash;
    Swapping(h, found, access, n, moves[3..], out);
    assert moves[3..][0] == moves[3] && moves[3..][1..] == moves[4..];
    if UnsureSwap(h, moves) {
      LookingAfterError(h, found, access, n, moves[4..], out);
    } else if LostSwap(h, moves) {
      LookingAfterLoss(h, found, moves[4..], out);
      if !SeenRecentlySpent(h, moves) {
        Wiping(h, found, RotationRace, moves[4..][1..], out);
      }
    }
  }

  /** All a refresh writes: the swap where the token is still current, and the wipe where it is due. */
  lemma RefreshWrites(h: Hash, moves: seq<Statement>, out: Outcome)
    requires Walk(RefreshLookup(h), moves) == Some(RefreshDone(h, out))
    ensures MintedAll(h, moves) ==> |moves| > 3 && SwapWrites(h, moves[3], moves[0].choice.pick, moves[2].choice.newHash)
    ensures Punished(h, moves) ==> |moves| > 2 && Wiped(moves[|moves| - 2], moves[|moves| - 1], FoundRow(moves).user, out)
    ensures forall k :: 0 <= k < |moves| && moves[k].after != moves[k].before ==>
                          (k == 3 && MintedAll(h, moves)) || (k >= |moves| - 2 && Punished(h, moves))
  {
    hide Walk, Truthful, Decide, Perform, ToleratedReuse;
    RefreshAnswers(h, moves, out);
    FirstLookup(h, moves, out);
    if FoundSpent(h, moves) {
      if Punished(h, moves) {
        Wiping(h, Found(moves[0].choice.pick, FoundRow(moves)), Superseded, moves[1..], out);
      }
    } else if FoundCurrent(h, moves) {
      var found := Found(moves[0].choice.pick, FoundRow(moves));
      UserRead(h, found, moves[1..], out);
      if UserThere(h, moves) {
        assert moves[1..][1..] == moves[2..];
        Minting(h, found, moves[1].before.epochs[found.row.user], moves[2..], out);
        if MintedAll(h, moves) {
          assert moves[2..][1..] == moves[3..];
          LateWrites(h, found, AccessToken(found.row.user, found.sid, moves[1].before.epochs[found.row.user]), moves, out);
        }
      }
    }
  }

  predicate SwapWrites(h: Hash, m: Statement, sid: SessionId, n: Hash) {
    if m.choice.fault != Failed && StillCurrent(h, m.before, sid)
    then Swapped(m.before, m.after, sid, h, n, m.choice.now, m.choice.clock) else m.after == m.before
  }

  lemma LateWrites(h: Hash, found: Found, access: AccessToken, moves: seq<Statement>, out: Outcome)
    requires MintedAll(h, moves) && found == Found(moves[0].choice.pick, FoundRow(moves))
    requires Walk(RefreshRotate(h, found, access, moves[2].choice.newHash), moves[3..]) == Some(RefreshDone(h, out))
    ensures |moves| > 3 && SwapWrites(h, moves[3], found.sid, moves[2].choice.newHash)
    ensures Punished(h, moves) ==> |moves| == 7 && Wiped(moves[5], moves[6], found.row.user, out)
    ensures forall k :: 3 < k < |moves| && !(k >= 5 && Punished(h, moves)) ==> moves[k].after == moves[k].before
  {
    hide Walk, Truthful, Decide, Perform, ToleratedReuse;
    var n := moves[2].choice.newHash;
    Swapping(h, found, access, n, moves[3..], out);
    assert moves[3..][0] == moves[3] && moves[3..][1..] == moves[4..];
    if UnsureSwap(h, moves) {
      LookingAfterError(h, found, access, n, moves[4..], out);
    } else if LostSwap(h, moves) {
      LookingAfterLoss(h, found, moves[4..], out);
      if !SeenRecentlySpent(h, moves) {
        Wiping(h, found, RotationRace, moves[4..][1..], out);
        assert moves[4..][1..] == moves[5..];
      }
    }
  }

  // ---------------------------------------------------------------- logout

  /** The token is current on a session that neither its expiry nor its absolute cap has ended. */
  predicate CarriesAlive(db: Db, sid: SessionId, h: Hash, now: int) {
    && sid in db.sessions && db.sessions[sid].current == h && now < db.sessions[sid].expiresAt
    && (db.sessions[sid].absoluteExpiresAt.Some? ==> now < db.sessions[sid].absoluteExpiresAt.value)
  }

  ghost predicate SignedIn(h: Hash, moves: seq<Statement>) {
    Answered(moves, 0) && exists sid :: CarriesAlive(moves[0].before, sid, h, moves[0].choice.now)
  }

  /**
   * A logout deletes the one session that carries the token, then outdates its
   * user's tokens; it fails only if the delete does, and with no such session
   * it has nothing to do.
   */
  lemma LogoutAnswers(h: Hash, moves: seq<Statement>, clean: bool)
    requires Walk(LogoutLookup(h), moves) == Some(LogoutDone(clean))
    ensures |moves| > 0 && moves[0].after == moves[0].before
    ensures !SignedIn(h, moves) ==> clean && |moves| == 1
    ensures SignedIn(h, moves) ==>
              && CarriesAlive(moves[0].before, moves[0].choice.pick, h, moves[0].choice.now)
              && |moves| > 1 && (clean <==> Answered(moves, 1))
              && moves[1].after.epochs == moves[1].before.epochs
              && moves[1].after.sessions
                 == moves[1].before.sessions - (if moves[1].choice.fault == Failed then {} else {moves[0].choice.pick})
    ensures SignedIn(h, moves) && clean ==>
              && |moves| == 3
              && (if moves[2].choice.fault == Failed then moves[2].after == moves[2].before
                  else Outdated(moves[2].before, moves[2].after, FoundRow(moves).user))
    ensures SignedIn(h, moves) && !clean ==> |moves| == 2
  {
    var c := LogoutLookup(h);
    var m := moves[0];
    WalkOn(c, moves);
    if SignedIn(h, moves) {
      var sid :| CarriesAlive(m.before, sid, h, m.choice.now);
      assert MatchesCurrent(m.before.sessions[sid], h, m.choice.now);
      hide Walk;
      LogoutWrites(Found(m.choice.pick, m.before.sessions[m.choice.pick]), moves[1..], clean);
    } else {
      assert m.choice.pick in m.before.sessions && Answered(moves, 0) ==> !CarriesAlive(m.before, m.choice.pick, h, m.choice.now);
      WalkEnds(Decide(m.before, c, m.choice).1, moves[1..]);
    }
  }

  lemma LogoutWrites(found: Found, moves: seq<Statement>, clean: bool)
    requires Walk(LogoutDelete(found), moves) == Some(LogoutDone(clean))
    ensures |moves| > 0 && (clean <==> Answered(moves, 0)) && |moves| == if clean then 2 else 1
    ensures moves[0].after.epochs == moves[0].before.epochs
    ensures moves[0].after.sessions == moves[0].before.sessions - (if moves[0].choice.fault == Failed then {} else {found.sid})
    ensures clean ==> if moves[1].choice.fault == Failed then moves[1].after == moves[1].before
                      else Outdated(moves[1].before, moves[1].after, found.row.user)
  {
    WalkOn(LogoutDelete(found), moves);
    assert moves[0].before.sessions - {} == moves[0].before.sessions;
    if Answered(moves, 0) {
      WalkOn(LogoutBump(found.row.user), moves[1..]);
      WalkEnds(LogoutDone(true), moves[1..][1..]);
    } else {
      WalkEnds(LogoutDone(false), moves[1..]);
    }
  }

  // ----------------------------------------------------------------- login

  /** A session of the user with the token, good for thirty days from now and ninety at most. */
  predicate SignsIn(before: Db, after: Db, user: UserId, m: Statement) {
    && after.epochs == before.epochs
    && after.sessions == before.sessions[m.choice.newSid := Row(user, m.choice.newHash, None, Some(m.choice.now),
                                                                m.choice.clock + 30 * 24 * 3600 * SECOND,
                                                                Some(m.choice.now + 90 * 24 * 3600 * SECOND))]
  }

  ghost predicate LoginUserThere(user: UserId, moves: seq<Statement>) { Answered(moves, 0) && user in moves[0].before.epochs }

  ghost predicate Created(user: UserId, moves: seq<Statement>) {
    LoginUserThere(user, moves) && Answered(moves, 1) && user in moves[1].before.epochs
  }

  /**
   * A login hands out a pair only for a session it has created and been told
   * of, and takes the session back if the tokens cannot be made.
   */
  lemma LoginAnswers(user: UserId, moves: seq<Statement>, out: Outcome)
    requires Walk(LoginUser(user), moves) == Some(LoginDone(out))
    ensures out.Pair? <==> Created(user, moves) && |moves| > 2 && moves[2].choice.minted
    ensures out.Pair? ==>
              out == Pair(AccessToken(user, moves[1].choice.newSid, moves[0].before.epochs[user]), moves[1].choice.newHash)
    ensures out.Invalid? <==> Answered(moves, 0) && user !in moves[0].before.epochs
    ensures !out.Pair? && !out.Invalid? ==> out == Unavailable
    ensures LoginUserThere(user, moves) ==>
              && |moves| > 1
              && if moves[1].choice.fault != Failed && user in moves[1].before.epochs
                 then SignsIn(moves[1].before, moves[1].after, user, moves[1]) else moves[1].after == moves[1].before
    ensures Created(user, moves) && !out.Pair? ==>
              && |moves| == 4 && moves[3].after.epochs == moves[3].before.epochs
              && (moves[3].choice.fault != Failed ==> moves[3].after.sessions == moves[3].before.sessions - {moves[1].choice.newSid})
  {
    var c := LoginUser(user);
    WalkOn(c, moves);
    var c1 := Decide(moves[0].before, c, moves[0].choice).1;
    if c1.Finished() {
      WalkEnds(c1, moves[1..]);
    } else {
      WalkOn(c1, moves[1..]);
      assert moves[1..][1..] == moves[2..];
      var c2 := Decide(moves[1].before, c1, moves[1].choice).1;
      if c2.Finished() {
        WalkEnds(c2, moves[2..]);
      } else {
        WalkOn(c2, moves[2..]);
        assert moves[2..][1..] == moves[3..];
        var c3 := Decide(moves[2].before, c2, moves[2].choice).1;
        if c3.Finished() {
          WalkEnds(c3, moves[3..]);
        } else {
          WalkOn(c3, moves[3..]);
          WalkEnds(Decide(moves[3].before, c3, moves[3].choice).1, moves[3..][1..]);
        }
      }
    }
  }

  // ---------------------------------------------------------- undisturbed

  /** A statement that is answered, at one time on both clocks. */
  function Answer(now: int, pick: SessionId, newHash: Hash, newSid: SessionId): Choice {
    Choice(Fine, now, now, pick, newHash, newSid, true)
  }

  function Steps(id: CallId, ch: Choice, n: nat): seq<Action> {
    if n == 0 then [] else [Step(id, ch)] + Steps(id, ch, n - 1)
  }

  /** The run is legal, ends the call so, and leaves the token current on the session. */
  ghost predicate Ends(s: State, run: seq<Action>, id: CallId, last: Call, n: Hash, sid: SessionId) {
    && Legal(s, run) && id in After(s, run).calls && After(s, run).calls[id] == last
    && StillCurrent(n, After(s, run).db, sid)
  }

  lemma OneMore(s: State, a: Action, rest: seq<Action>, id: CallId, last: Call, n: Hash, sid: SessionId)
    requires Enabled(s, a) && Ends(Apply(s, a), rest, id, last, n, sid)
    ensures Ends(s, [a] + rest, id, last, n, sid)
  {
    hide Enabled, Apply, StillCurrent;
    assert ([a] + rest)[1..] == rest;
  }

  /** A step that reads or draws, and writes nothing, and then the rest. */
  lemma QuietThen(s: State, id: CallId, ch: Choice, next: Call, k: nat, last: Call, n: Hash, sid: SessionId)
    requires id in s.calls && !s.calls[id].Finished() && Truthful(s.db, s.calls[id], ch) && NewDraw(s, s.calls[id], ch)
    requires Decide(s.db, s.calls[id], ch) == (NoEffect, next) && !s.calls[id].LoginCreate?
    requires Ends(s.(calls := s.calls[id := next], issued := s.issued + Draws(s.calls[id], ch)), Steps(id, ch, k), id, last, n, sid)
    ensures Ends(s, Steps(id, ch, k + 1), id, last, n, sid)
  {
    hide Decide, Ends, Truthful, NewDraw;
    assert Apply(s, Step(id, ch)) == s.(calls := s.calls[id := next], issued := s.issued + Draws(s.calls[id], ch));
    assert Enabled(s, Step(id, ch));
    OneMore(s, Step(id, ch), Steps(id, ch, k), id, last, n, sid);
  }

  /** The last step of all. */
  lemma LastStep(s: State, id: CallId, ch: Choice, last: Call, n: Hash, sid: SessionId)
    requires id in s.calls && !s.calls[id].Finished() && Truthful(s.db, s.calls[id], ch) && NewDraw(s, s.calls[id], ch)
    requires Decide(s.db, s.calls[id], ch).1 == last && StillCurrent(n, Perform(s.db, Decide(s.db, s.calls[id], ch).0), sid)
    ensures Ends(s, Steps(id, ch, 1), id, last, n, sid)
  {
    hide Decide, Perform, StillCurrent, Truthful, NewDraw;
    assert Enabled(s, Step(id, ch)) && Steps(id, ch, 0) == [];
    OneMore(s, Step(id, ch), [], id, last, n, sid);
  }

  lemma MintThenSwap(s: State, id: CallId, h: Hash, found: Found, epoch: nat, ch: Choice)
    requires id in s.calls && s.calls[id] == RefreshMint(h, found, epoch) && StillCurrent(h, s.db, found.sid)
    requires ch.fault == Fine && ch.minted && ch.newHash !in s.issued
    ensures var pair := Pair(AccessToken(found.row.user, found.sid, epoch), ch.newHash);
            Ends(s, Steps(id, ch, 2), id, RefreshDone(h, pair), ch.newHash, found.sid)
  {
    var next := RefreshRotate(h, found, AccessToken(found.row.user, found.sid, epoch), ch.newHash);
    var t := s.(calls := s.calls[id := next], issued := s.issued + Draws(s.calls[id], ch));
    LastStep(t, id, ch, RefreshDone(h, Pair(next.access, ch.newHash)), ch.newHash, found.sid);
    hide Ends;
    QuietThen(s, id, ch, next, 1, RefreshDone(h, Pair(next.access, ch.newHash)), ch.newHash, found.sid);
  }

  lemma ReadThenSwap(s: State, id: CallId, h: Hash, found: Found, ch: Choice)
    requires id in s.calls && s.calls[id] == RefreshUser(h, found) && StillCurrent(h, s.db, found.sid)
    requires ch.fault == Fine && ch.minted && ch.newHash !in s.issued && found.row.user in s.db.epochs
    ensures var pair := Pair(AccessToken(found.row.user, found.sid, s.db.epochs[found.row.user]), ch.newHash);
            Ends(s, Steps(id, ch, 3), id, RefreshDone(h, pair), ch.newHash, found.sid)
  {
    var epoch := s.db.epochs[found.row.user];
    var next := RefreshMint(h, found, epoch);
    hide Ends;
    MintThenSwap(s.(calls := s.calls[id := next], issued := s.issued + Draws(s.calls[id], ch)), id, h, found, epoch, ch);
    QuietThen(s, id, ch, next, 2, RefreshDone(h, Pair(AccessToken(found.row.user, found.sid, epoch), ch.newHash)), ch.newHash, found.sid);
  }

  lemma LookThenSwap(s: State, id: CallId, h: Hash, found: Found, ch: Choice)
    requires id in s.calls && s.calls[id] == RefreshLookup(h) && FindAny(s.db, h, ch.pick, ch.now) == Some(found) && found.row.current == h
    requires ch.fault == Fine && ch.minted && ch.newHash !in s.issued && found.row.user in s.db.epochs
    ensures var pair := Pair(AccessToken(found.row.user, found.sid, s.db.epochs[found.row.user]), ch.newHash);
            Ends(s, Steps(id, ch, 4), id, RefreshDone(h, pair), ch.newHash, found.sid)
  {
    var done := RefreshDone(h, Pair(AccessToken(found.row.user, found.sid, s.db.epochs[found.row.user]), ch.newHash));
    var next := RefreshUser(h, found);
    hide Ends;
    ReadThenSwap(s.(calls := s.calls[id := next], issued := s.issued + Draws(s.calls[id], ch)), id, h, found, ch);
    QuietThen(s, id, ch, next, 3, done, ch.newHash, found.sid);
  }

  /**
   * Where nothing fails or comes between, a client that presents its current
   * token gets a new pair, whatever has happened before.
   */
  lemma UndisturbedRefresh(s: State, id: CallId, sid: SessionId, now: int, n: Hash)
    requires id !in s.calls && n !in s.issued && sid in s.db.sessions && now < s.db.sessions[sid].expiresAt
    requires s.db.sessions[sid].user in s.db.epochs
    ensures var h, user := s.db.sessions[sid].current, s.db.sessions[sid].user;
            Ends(s, [Begin(id, RefreshLookup(h))] + Steps(id, Answer(now, sid, n, 0), 4),
                 id, RefreshDone(h, Pair(AccessToken(user, sid, s.db.epochs[user]), n)), n, sid)
  {
    var row, ch := s.db.sessions[sid], Answer(now, sid, n, 0);
    var begin := Begin(id, RefreshLookup(row.current));
    hide Ends;
    LookThenSwap(Apply(s, begin), id, row.current, Found(sid, row), ch);
    OneMore(s, begin, Steps(id, ch, 4), id, RefreshDone(row.current, Pair(AccessToken(row.user, sid, s.db.epochs[row.user]), n)), n, sid);
  }

  lemma CreateThenMint(s: State, user: UserId, epoch: nat, id: CallId, ch: Choice)
    requires id in s.calls && s.calls[id] == LoginCreate(user, epoch) && user in s.db.epochs
    requires ch.fault == Fine && ch.minted && ch.newHash !in s.issued && ch.newSid !in s.sids
    ensures Ends(s, Steps(id, ch, 2), id, LoginDone(Pair(AccessToken(user, ch.newSid, epoch), ch.newHash)), ch.newHash, ch.newSid)
  {
    var done := LoginDone(Pair(AccessToken(user, ch.newSid, epoch), ch.newHash));
    hide Ends;
    LastStep(Apply(s, Step(id, ch)), id, ch, done, ch.newHash, ch.newSid);
    OneMore(s, Step(id, ch), Steps(id, ch, 1), id, done, ch.newHash, ch.newSid);
  }

  lemma LoginSteps(s: State, user: UserId, id: CallId, ch: Choice)
    requires id in s.calls && s.calls[id] == LoginUser(user) && user in s.db.epochs
    requires ch.fault == Fine && ch.minted && ch.newHash !in s.issued && ch.newSid !in s.sids
    ensures var done := LoginDone(Pair(AccessToken(user, ch.newSid, s.db.epochs[user]), ch.newHash));
            Ends(s, Steps(id, ch, 3), id, done, ch.newHash, ch.newSid)
  {
    var epoch := s.db.epochs[user];
    hide Ends;
    CreateThenMint(s.(calls := s.calls[id := LoginCreate(user, epoch)], issued := s.issued + Draws(s.calls[id], ch)), user, epoch, id, ch);
    QuietThen(s, id, ch, LoginCreate(user, epoch), 2, LoginDone(Pair(AccessToken(user, ch.newSid, epoch), ch.newHash)), ch.newHash, ch.newSid);
  }

  /** And a new user signs in to a session of its own. */
  lemma UndisturbedLogin(s: State, user: UserId, id: CallId, now: int, n: Hash, sid: SessionId)
    requires user !in s.users && id !in s.calls && n !in s.issued && sid !in s.sids
    ensures Ends(s, [CreateUser(user)] + ([Begin(id, LoginUser(user))] + Steps(id, Answer(now, 0, n, sid), 3)),
                 id, LoginDone(Pair(AccessToken(user, sid, 0), n)), n, sid)
  {
    var ch, done := Answer(now, 0, n, sid), LoginDone(Pair(AccessToken(user, sid, 0), n));
    var s0 := Apply(s, CreateUser(user));
    hide Ends;
    LoginSteps(Apply(s0, Begin(id, LoginUser(user))), user, id, ch);
    OneMore(s0, Begin(id, LoginUser(user)), Steps(id, ch, 3), id, done, n, sid);
    OneMore(s, CreateUser(user), [Begin(id, LoginUser(user))] + Steps(id, ch, 3), id, done, n, sid);
  }

  /**
   * What the other writers do: a deleted user leaves no session behind and
   * takes nobody else's, a purge takes the sessions it names, and a bump from
   * elsewhere outdates one user's tokens.
   */
  lemma OthersWrite(s: State, user: UserId, gone: set<SessionId>)
    ensures Apply(s, Purge(gone)).db.epochs == s.db.epochs && Apply(s, Purge(gone)).db.sessions == s.db.sessions - gone
    ensures Outdated(s.db, Apply(s, ForceBump(user)).db, user)
    ensures var t := Apply(s, DeleteUser(user)).db;
            && t.epochs.Keys == s.db.epochs.Keys - {user} && (forall u <- t.epochs :: t.epochs[u] == s.db.epochs[u])
            && (forall sid :: sid in t.sessions <==> sid in s.db.sessions && s.db.sessions[sid].user != user)
            && (forall sid <- t.sessions :: t.sessions[sid] == s.db.sessions[sid])
  {
  }
}
