/**
 * spendTOTPStep across instances: the in-process guard first, then the shared
 * one, which may fail with or without having recorded the step. Calls of any
 * number of instances interleave at every point, the wait for a guard's lock
 * included. Times are the shared guard's; each instance's clock differs from
 * it by its own skew.
 */
module TotpSpend {
  import opened Wrappers
  import opened ExpiringMap
  import opened TotpStep

  type Instance = nat
  type CallId = nat

  /**
   * The instances' clocks against the shared guard's, the earliest time they
   * show, and how long after a match a guard is still asked.
   */
  datatype World = World(skew: Instance -> int, since: int, delay: nat)

  function Local(w: World, inst: Instance, t: int): int { t + w.skew(inst) }

  predicate Yes(answer: Option<bool>) {
    answer.Some? && answer.value
  }

  datatype Stage = AtLocal | AtShared | Returned

  /**
   * A call and what the two guards told it; None when a guard was not asked or
   * did not answer. Whether the shared guard recorded its step is history.
   */
  datatype Spend = Spend(inst: Instance, user: UserId, step: int, matchedAt: int, stage: Stage,
                         localFresh: Option<bool>, sharedFresh: Option<bool>, recorded: bool)
  {
    /** What spendTOTPStep returns. */
    predicate Accepted() {
      stage.Returned? && Yes(localFresh) && !(sharedFresh.Some? && !sharedFresh.value)
    }
  }

  datatype Answer = Answers | Fails | RecordsThenFails

  type Steps = map<UserId, Entry<int>>

  /** Whose match the shared guard's record of a user came from: history. */
  datatype Origin = Origin(inst: Instance, matchedAt: int)

  datatype State = State(
    now: int,
    shared: Steps,
    origins: map<UserId, Origin>,
    locals: map<Instance, Guard>,
    grants: map<Instance, Grants>,  // the last step each local guard granted: history
    calls: map<CallId, Spend>)

  function Initial(start: int): State { State(start, map[], map[], map[], map[], map[]) }

  function LocalOf(s: State, inst: Instance): Guard {
    if inst in s.locals then s.locals[inst] else EMPTY
  }

  function GrantsOf(s: State, inst: Instance): Grants {
    if inst in s.grants then s.grants[inst] else map[]
  }

  datatype Action =
    | Tick(now: int)
    | Begin(id: CallId, inst: Instance, user: UserId, step: int, matchedAt: int)
    | AskLocal(id: CallId, read: int, now: int)   // the clock was read at `read`, the lock taken at `now`
    | AskShared(id: CallId, now: int, answer: Answer)

  ghost predicate Enabled(w: World, s: State, a: Action) {
    match a
    case Tick(now) => s.now <= now
    case Begin(id, inst, _, step, matchedAt) =>
      && id !in s.calls && matchedAt <= s.now
      && w.since <= Local(w, inst, matchedAt) && InWindow(step, Local(w, inst, matchedAt))
    case AskLocal(id, read, now) =>
      && id in s.calls && s.calls[id].stage.AtLocal?
      && s.calls[id].matchedAt <= read <= now && s.now <= now <= s.calls[id].matchedAt + w.delay
    case AskShared(id, now, _) =>
      && id in s.calls && s.calls[id].stage.AtShared?
      && s.now <= now <= s.calls[id].matchedAt + w.delay
  }

  /** A call's attempt at its own instance's guard, by its own instance's clock. */
  function AttemptOf(w: World, c: Spend, read: int, now: int): Attempt {
    Attempt(c.user, Local(w, c.inst, c.matchedAt), Local(w, c.inst, read), Local(w, c.inst, now), c.step)
  }

  function Apply(w: World, s: State, a: Action): State
    requires Enabled(w, s, a)
  {
    match a
    case Tick(now) => s.(now := now)
    case Begin(id, inst, user, step, matchedAt) =>
      s.(calls := s.calls[id := Spend(inst, user, step, matchedAt, AtLocal, None, None, false)])
    case AskLocal(id, read, now) =>
      var c := s.calls[id];
      var (next, ok) := Consume(LocalOf(s, c.inst), Local(w, c.inst, read), c.user, c.step);
      s.(now := now, locals := s.locals[c.inst := next],
         grants := s.grants[c.inst := Granted(GrantsOf(s, c.inst), AttemptOf(w, c, read, now), ok)],
         calls := s.calls[id := c.(stage := AtShared, localFresh := Some(ok))])
    case AskShared(id, now, answer) =>
      var c := s.calls[id];
      var (next, ok) := ConsumeRef(s.shared, now, c.user, c.step);
      s.(now := now, shared := if answer.Fails? then s.shared else next,
         origins := if ok && !answer.Fails? then s.origins[c.user := Origin(c.inst, c.matchedAt)] else s.origins,
         calls := s.calls[id := c.(stage := Returned, sharedFresh := if answer.Answers? then Some(ok) else None,
                                   recorded := ok && !answer.Fails?)])
  }

  ghost predicate Legal(w: World, s: State, run: seq<Action>)
    decreases |run|
  {
    run == [] || (Enabled(w, s, run[0]) && Legal(w, Apply(w, s, run[0]), run[1..]))
  }

  ghost function After(w: World, s: State, run: seq<Action>): State
    requires Legal(w, s, run)
    decreases |run|
  {
    if run == [] then s else After(w, Apply(w, s, run[0]), run[1..])
  }

  ghost predicate Reachable(w: World, s: State) {
    exists start, run :: Legal(w, Initial(start), run) && After(w, Initial(start), run) == s
  }

  ghost predicate CallOk(w: World, s: State, id: CallId)
    requires id in s.calls
  {
    var c := s.calls[id];
    && c.matchedAt <= s.now && w.since <= Local(w, c.inst, c.matchedAt) && InWindow(c.step, Local(w, c.inst, c.matchedAt))
    && (c.stage.AtLocal? ==> c.localFresh.None?)
    && (!c.stage.Returned? ==> c.sharedFresh.None?)
  }

  ghost predicate CallsOk(w: World, s: State) {
    forall id <- s.calls :: CallOk(w, s, id)
  }

  // ------------------------------------------------------ on one instance

  ghost predicate LocalTold(s: State, id: CallId)
    requires id in s.calls
  {
    var c := s.calls[id];
    Yes(c.localFresh) ==> c.user in GrantsOf(s, c.inst) && c.step <= GrantsOf(s, c.inst)[c.user].step
  }

  /** Steps one local guard granted to one user are pairwise different. */
  ghost predicate LocalsDiffer(s: State) {
    forall a <- s.calls, b <- s.calls ::
      (a != b && s.calls[a].inst == s.calls[b].inst && s.calls[a].user == s.calls[b].user
       && Yes(s.calls[a].localFresh) && Yes(s.calls[b].localFresh)) ==> s.calls[a].step != s.calls[b].step
  }

  ghost predicate GuardOk(w: World, s: State, i: Instance) {
    Remembers(LocalOf(s, i).last, GrantsOf(s, i), w.since, Local(w, i, s.now))
  }

  ghost predicate LocalInv(w: World, s: State) {
    && CallsOk(w, s) && LocalsDiffer(s)
    && (forall i: Instance :: GuardOk(w, s, i))
    && (forall id <- s.calls :: LocalTold(s, id))
  }

  lemma RemembersLater(last: map<UserId, Entry<int>>, grants: Grants, since: int, now: int, later: int)
    requires Remembers(last, grants, since, now) && now <= later
    ensures Remembers(last, grants, since, later)
  {
  }

  /** The local guard's answer, in terms of what it granted before. */
  lemma LocalAnswer(w: World, s: State, id: CallId, read: int, now: int)
    requires w.delay <= MaxWait(w.since) && LocalInv(w, s) && Enabled(w, s, AskLocal(id, read, now))
    ensures var t := Apply(w, s, AskLocal(id, read, now));
            var c := t.calls[id];
            var before, after := GrantsOf(s, c.inst), GrantsOf(t, c.inst);
            && GuardOk(w, t, c.inst)
            && (forall u <- before :: u in after && before[u].step <= after[u].step)
            && (Yes(c.localFresh) ==> c.user in after && after[c.user].step == c.step
                                      && (c.user in before ==> before[c.user].step < c.step))
  {
    var c := s.calls[id];
    assert CallOk(w, s, id) && GuardOk(w, s, c.inst);
    AcceptedIsNewer(LocalOf(s, c.inst), GrantsOf(s, c.inst), w.since, Local(w, c.inst, s.now), AttemptOf(w, c, read, now));
  }

  lemma LocalKeepsGuard(w: World, s: State, id: CallId, read: int, now: int, i: Instance)
    requires w.delay <= MaxWait(w.since) && LocalInv(w, s) && Enabled(w, s, AskLocal(id, read, now))
    ensures GuardOk(w, Apply(w, s, AskLocal(id, read, now)), i)
  {
    hide Consume, Remembers, InWindow, CallOk, MaxWait;
    if i == s.calls[id].inst {
      LocalAnswer(w, s, id, read, now);
    } else {
      assert GuardOk(w, s, i);
      RemembersLater(LocalOf(s, i).last, GrantsOf(s, i), w.since, Local(w, i, s.now), Local(w, i, now));
    }
  }

  /** The last call to be told by its guard is told of a newer step than any other. */
  ghost predicate LocallyNewest(t: State, id: CallId, other: CallId)
    requires id in t.calls && other in t.calls
  {
    var c, o := t.calls[id], t.calls[other];
    other != id && o.inst == c.inst && o.user == c.user && Yes(o.localFresh) && Yes(c.localFresh) ==> o.step < c.step
  }

  lemma LocalKeepsTold(w: World, s: State, id: CallId, read: int, now: int, other: CallId)
    requires w.delay <= MaxWait(w.since) && LocalInv(w, s) && Enabled(w, s, AskLocal(id, read, now)) && other in s.calls
    ensures var t := Apply(w, s, AskLocal(id, read, now));
            LocalTold(t, other) && LocallyNewest(t, id, other)
  {
    LocalAnswer(w, s, id, read, now);
    assert LocalTold(s, other);
    hide Consume, GuardOk, CallsOk, LocalsDiffer, MaxWait, Granted, LocalInv, InWindow;
  }

  lemma AnyKeepsCall(w: World, s: State, a: Action, other: CallId)
    requires CallsOk(w, s) && Enabled(w, s, a) && other in Apply(w, s, a).calls
    ensures CallOk(w, Apply(w, s, a), other)
  {
    hide Consume, ConsumeRef, InWindow, Granted;
    assert other in s.calls ==> CallOk(w, s, other);
  }

  lemma AskLocalKeeps(w: World, s: State, id: CallId, read: int, now: int)
    requires w.delay <= MaxWait(w.since) && LocalInv(w, s) && Enabled(w, s, AskLocal(id, read, now))
    ensures LocalInv(w, Apply(w, s, AskLocal(id, read, now)))
  {
    var t := Apply(w, s, AskLocal(id, read, now));
    hide Consume, GuardOk, CallOk, LocalTold, MaxWait, Granted;
    forall i: Instance ensures GuardOk(w, t, i) {
      LocalKeepsGuard(w, s, id, read, now, i);
    }
    forall other <- t.calls ensures CallOk(w, t, other) && LocalTold(t, other) && LocallyNewest(t, id, other) {
      AnyKeepsCall(w, s, AskLocal(id, read, now), other);
      LocalKeepsTold(w, s, id, read, now, other);
    }
  }

  lemma OtherKeepsLocal(w: World, s: State, a: Action)
    requires LocalInv(w, s) && Enabled(w, s, a) && !a.AskLocal?
    ensures LocalInv(w, Apply(w, s, a))
  {
    var t := Apply(w, s, a);
    hide ConsumeRef, Remembers, InWindow, CallOk;
    forall i: Instance ensures GuardOk(w, t, i) {
      assert GuardOk(w, s, i);
      RemembersLater(LocalOf(s, i).last, GrantsOf(s, i), w.since, Local(w, i, s.now), Local(w, i, t.now));
    }
    forall other <- t.calls ensures CallOk(w, t, other) && LocalTold(t, other) {
      AnyKeepsCall(w, s, a, other);
      assert other in s.calls ==> LocalTold(s, other);
    }
  }

  lemma {:induction false} RunKeepsLocal(w: World, s: State, run: seq<Action>)
    requires w.delay <= MaxWait(w.since) && LocalInv(w, s) && Legal(w, s, run)
    ensures LocalInv(w, After(w, s, run))
    decreases |run|
  {
    if run != [] {
      match run[0] {
        case AskLocal(id, read, now) => AskLocalKeeps(w, s, id, read, now);
        case _ => OtherKeepsLocal(w, s, run[0]);
      }
      hide LocalInv;
      RunKeepsLocal(w, Apply(w, s, run[0]), run[1..]);
    }
  }

  /** No step of a user is accepted twice on one instance. */
  ghost predicate OnceOnInstance(s: State) {
    forall a <- s.calls, b <- s.calls ::
      (s.calls[a].Accepted() && s.calls[b].Accepted() && s.calls[a].inst == s.calls[b].inst
       && s.calls[a].user == s.calls[b].user && s.calls[a].step == s.calls[b].step) ==> a == b
  }

  /** Under any pattern of outages of the shared guard. */
  lemma StepAcceptedOncePerInstance(w: World, s: State)
    requires w.delay <= MaxWait(w.since) && Reachable(w, s)
    ensures OnceOnInstance(s)
  {
    var start, run :| Legal(w, Initial(start), run) && After(w, Initial(start), run) == s;
    RunKeepsLocal(w, Initial(start), run);
  }

  // ----------------------------------------------------- across instances

  /** The wait and the difference of any two clocks together stay within one period. */
  ghost predicate Across(w: World) {
    forall i: Instance, j: Instance :: w.skew(i) - w.skew(j) + w.delay <= MaxWait(w.since)
  }

  ghost predicate RecordOk(w: World, s: State, u: UserId)
    requires u in s.shared
  {
    && u in s.origins
    && var o := s.origins[u];
    && w.since <= Local(w, o.inst, o.matchedAt) && InWindow(s.shared[u].value, Local(w, o.inst, o.matchedAt))
    && o.matchedAt <= s.shared[u].expiresAt - MEMORY_STEP_TTL
  }

  ghost predicate SharedTold(s: State, id: CallId)
    requires id in s.calls
  {
    var c := s.calls[id];
    Yes(c.sharedFresh) ==> c.user in s.shared && c.step <= s.shared[c.user].value
  }

  ghost predicate SharedDiffer(s: State) {
    forall a <- s.calls, b <- s.calls ::
      (a != b && s.calls[a].user == s.calls[b].user
       && Yes(s.calls[a].sharedFresh) && Yes(s.calls[b].sharedFresh)) ==> s.calls[a].step != s.calls[b].step
  }

  ghost predicate SharedInv(w: World, s: State) {
    && CallsOk(w, s) && SharedDiffer(s)
    && (forall u <- s.shared :: RecordOk(w, s, u))
    && (forall id <- s.calls :: SharedTold(s, id))
  }

  /** A record that has expired is of an older step than any its user can still have matched. */
  lemma ExpiredIsOlder(w: World, s: State, c: Spend, now: int)
    requires Across(w) && c.user in s.shared && RecordOk(w, s, c.user) && s.shared[c.user].expiresAt <= now
    requires w.since <= Local(w, c.inst, c.matchedAt) && InWindow(c.step, Local(w, c.inst, c.matchedAt))
    requires now <= c.matchedAt + w.delay
    ensures s.shared[c.user].value < c.step
  {
    var o := s.origins[c.user];
    assert w.skew(o.inst) - w.skew(c.inst) + w.delay <= MaxWait(w.since);
    WindowsApart(w.since, Local(w, o.inst, o.matchedAt), s.shared[c.user].value, Local(w, c.inst, c.matchedAt), c.step);
  }

  /** The shared guard's answer, in terms of its record before. */
  lemma SharedAnswer(w: World, s: State, id: CallId, now: int, answer: Answer)
    requires Across(w) && SharedInv(w, s) && Enabled(w, s, AskShared(id, now, answer))
    ensures var t := Apply(w, s, AskShared(id, now, answer));
            var c := t.calls[id];
            && (forall u <- s.shared :: u in t.shared && s.shared[u].value <= t.shared[u].value)
            && (Yes(c.sharedFresh) ==> c.user in t.shared && t.shared[c.user].value == c.step
                                       && (c.user in s.shared ==> s.shared[c.user].value < c.step))
  {
    var c := s.calls[id];
    assert CallOk(w, s, id);
    if c.user in s.shared && s.shared[c.user].expiresAt <= now {
      ExpiredIsOlder(w, s, c, now);
    }
    hide InWindow, Across, SharedDiffer, CallsOk, CallOk, RecordOk;
  }

  lemma SharedKeepsRecord(w: World, s: State, id: CallId, now: int, answer: Answer, u: UserId)
    requires SharedInv(w, s) && Enabled(w, s, AskShared(id, now, answer)) && u in Apply(w, s, AskShared(id, now, answer)).shared
    ensures RecordOk(w, Apply(w, s, AskShared(id, now, answer)), u)
  {
    assert CallOk(w, s, id);
    assert u in s.shared ==> RecordOk(w, s, u);
    hide InWindow, SharedDiffer, CallsOk, SharedTold;
  }

  /** The last call to be told by the shared guard is told of a newer step than any other. */
  ghost predicate SharedlyNewest(t: State, id: CallId, other: CallId)
    requires id in t.calls && other in t.calls
  {
    var c, o := t.calls[id], t.calls[other];
    other != id && o.user == c.user && Yes(o.sharedFresh) && Yes(c.sharedFresh) ==> o.step < c.step
  }

  lemma SharedKeepsTold(w: World, s: State, id: CallId, now: int, answer: Answer, other: CallId)
    requires Across(w) && SharedInv(w, s) && Enabled(w, s, AskShared(id, now, answer)) && other in s.calls
    ensures var t := Apply(w, s, AskShared(id, now, answer));
            SharedTold(t, other) && SharedlyNewest(t, id, other)
  {
    SharedAnswer(w, s, id, now, answer);
    assert SharedTold(s, other);
    hide ConsumeRef, InWindow, Across, RecordOk, CallsOk, SharedDiffer;
  }

  lemma AskSharedKeeps(w: World, s: State, id: CallId, now: int, answer: Answer)
    requires Across(w) && SharedInv(w, s) && Enabled(w, s, AskShared(id, now, answer))
    ensures SharedInv(w, Apply(w, s, AskShared(id, now, answer)))
  {
    var t := Apply(w, s, AskShared(id, now, answer));
    hide ConsumeRef, CallOk, SharedTold, RecordOk, Across;
    forall u <- t.shared ensures RecordOk(w, t, u) {
      SharedKeepsRecord(w, s, id, now, answer, u);
    }
    forall other <- t.calls ensures CallOk(w, t, other) && SharedTold(t, other) && SharedlyNewest(t, id, other) {
      AnyKeepsCall(w, s, AskShared(id, now, answer), other);
      SharedKeepsTold(w, s, id, now, answer, other);
    }
  }

  lemma OtherKeepsShared(w: World, s: State, a: Action)
    requires SharedInv(w, s) && Enabled(w, s, a) && !a.AskShared?
    ensures SharedInv(w, Apply(w, s, a))
  {
    var t := Apply(w, s, a);
    hide Consume, InWindow;
    forall u <- t.shared ensures RecordOk(w, t, u) {
      assert RecordOk(w, s, u);
    }
    forall other <- t.calls ensures CallOk(w, t, other) && SharedTold(t, other) {
      assert other in s.calls ==> CallOk(w, s, other) && SharedTold(s, other);
    }
  }

  lemma {:induction false} RunKeepsShared(w: World, s: State, run: seq<Action>)
    requires Across(w) && SharedInv(w, s) && Legal(w, s, run)
    ensures SharedInv(w, After(w, s, run))
    decreases |run|
  {
    if run != [] {
      match run[0] {
        case AskShared(id, now, answer) => AskSharedKeeps(w, s, id, now, answer);
        case _ => OtherKeepsShared(w, s, run[0]);
      }
      hide SharedInv, Across;
      RunKeepsShared(w, Apply(w, s, run[0]), run[1..]);
    }
  }

  /** No step of a user is accepted twice, on whatever instances, by calls the shared guard answered. */
  ghost predicate OnceWhileAnswered(s: State) {
    forall a <- s.calls, b <- s.calls ::
      (s.calls[a].Accepted() && s.calls[b].Accepted() && s.calls[a].sharedFresh.Some? && s.calls[b].sharedFresh.Some?
       && s.calls[a].user == s.calls[b].user && s.calls[a].step == s.calls[b].step) ==> a == b
  }

  lemma StepAcceptedOnce(w: World, s: State)
    requires Across(w) && Reachable(w, s)
    ensures OnceWhileAnswered(s)
  {
    var start, run :| Legal(w, Initial(start), run) && After(w, Initial(start), run) == s;
    RunKeepsShared(w, Initial(start), run);
  }

  // ------------------------------------------------------ why it is refused

  /** A call of this instance and user was granted the step by its local guard. */
  ghost predicate GrantedHere(s: State, i: Instance, u: UserId, step: int) {
    exists o :: o in s.calls && s.calls[o].inst == i && s.calls[o].user == u && s.calls[o].step == step && Yes(s.calls[o].localFresh)
  }

  /** A call of the user had the step recorded by the shared guard. */
  ghost predicate RecordedShared(s: State, u: UserId, step: int) {
    exists o :: o in s.calls && s.calls[o].user == u && s.calls[o].step == step && s.calls[o].recorded
  }

  ghost predicate LocalCause(s: State, id: CallId)
    requires id in s.calls
  {
    var c := s.calls[id];
    c.localFresh == Some(false) ==> exists step :: c.step <= step && GrantedHere(s, c.inst, c.user, step)
  }

  ghost predicate SharedCause(s: State, id: CallId)
    requires id in s.calls
  {
    var c := s.calls[id];
    c.sharedFresh == Some(false) ==> !c.recorded && exists step :: c.step <= step && RecordedShared(s, c.user, step)
  }

  ghost predicate CauseInv(s: State) {
    && (forall i <- s.locals, u <- s.locals[i].last :: GrantedHere(s, i, u, s.locals[i].last[u].value))
    && (forall u <- s.shared :: RecordedShared(s, u, s.shared[u].value))
    && (forall id <- s.calls :: LocalCause(s, id) && SharedCause(s, id))
    && (forall id <- s.calls :: s.calls[id].stage.AtLocal? <==> s.calls[id].localFresh.None?)
    && (forall id <- s.calls :: !s.calls[id].stage.Returned? ==> !s.calls[id].recorded && s.calls[id].sharedFresh.None?)
  }

  /** What a call was told and left on record stays. */
  ghost predicate NothingForgotten(s: State, t: State) {
    forall o <- s.calls ::
      && o in t.calls && t.calls[o].inst == s.calls[o].inst && t.calls[o].user == s.calls[o].user && t.calls[o].step == s.calls[o].step
      && (Yes(s.calls[o].localFresh) ==> Yes(t.calls[o].localFresh)) && (s.calls[o].recorded ==> t.calls[o].recorded)
  }

  lemma CausesStay(s: State, t: State)
    requires NothingForgotten(s, t)
    ensures forall i, u, step :: GrantedHere(s, i, u, step) ==> GrantedHere(t, i, u, step)
    ensures forall u, step :: RecordedShared(s, u, step) ==> RecordedShared(t, u, step)
  {
    forall i, u, step | GrantedHere(s, i, u, step) ensures GrantedHere(t, i, u, step) {
      var o :| o in s.calls && s.calls[o].inst == i && s.calls[o].user == u && s.calls[o].step == step && Yes(s.calls[o].localFresh);
      assert o in t.calls && t.calls[o].inst == i;
    }
    forall u, step | RecordedShared(s, u, step) ensures RecordedShared(t, u, step) {
      var o :| o in s.calls && s.calls[o].user == u && s.calls[o].step == step && s.calls[o].recorded;
      assert o in t.calls && t.calls[o].user == u;
    }
  }

  lemma StepForgetsNothing(w: World, s: State, a: Action)
    requires Enabled(w, s, a) && CauseInv(s)
    ensures NothingForgotten(s, Apply(w, s, a))
  {
    hide Consume, ConsumeRef, InWindow, LocalCause, SharedCause, GrantedHere, RecordedShared;
  }

  lemma LocalRecordHasCause(w: World, s: State, id: CallId, read: int, now: int, i: Instance, u: UserId)
    requires CauseInv(s) && Enabled(w, s, AskLocal(id, read, now))
    requires var t := Apply(w, s, AskLocal(id, read, now)); i in t.locals && u in t.locals[i].last
    ensures var t := Apply(w, s, AskLocal(id, read, now)); GrantedHere(t, i, u, t.locals[i].last[u].value)
  {
    var t, c := Apply(w, s, AskLocal(id, read, now)), s.calls[id];
    StepForgetsNothing(w, s, AskLocal(id, read, now));
    CausesStay(s, t);
    hide InWindow, LocalCause, SharedCause;
    if Yes(t.calls[id].localFresh) && i == c.inst && u == c.user {
      assert GrantedHere(t, i, u, c.step);
    } else {
      assert i in s.locals && u in s.locals[i].last && s.locals[i].last[u] == t.locals[i].last[u];
    }
  }

  lemma LocalRefusalHasCause(w: World, s: State, id: CallId, read: int, now: int)
    requires CauseInv(s) && Enabled(w, s, AskLocal(id, read, now))
    ensures LocalCause(Apply(w, s, AskLocal(id, read, now)), id)
  {
    var t, c := Apply(w, s, AskLocal(id, read, now)), s.calls[id];
    StepForgetsNothing(w, s, AskLocal(id, read, now));
    CausesStay(s, t);
    hide InWindow, GrantedHere, SharedCause;
    if !Yes(t.calls[id].localFresh) {
      assert GrantedHere(s, c.inst, c.user, LocalOf(s, c.inst).last[c.user].value);
    }
  }

  lemma SharedRefusalHasCause(w: World, s: State, id: CallId, now: int, answer: Answer)
    requires CauseInv(s) && Enabled(w, s, AskShared(id, now, answer))
    ensures SharedCause(Apply(w, s, AskShared(id, now, answer)), id)
  {
    var t, c := Apply(w, s, AskShared(id, now, answer)), s.calls[id];
    StepForgetsNothing(w, s, AskShared(id, now, answer));
    CausesStay(s, t);
    hide InWindow, RecordedShared, LocalCause;
    if t.calls[id].sharedFresh == Some(false) {
      assert RecordedShared(s, c.user, s.shared[c.user].value);
    }
  }

  /** Nobody else is told anything. */
  lemma OthersKeepCause(w: World, s: State, a: Action, other: CallId)
    requires CauseInv(s) && Enabled(w, s, a) && other in Apply(w, s, a).calls
    requires (a.AskLocal? ==> LocalCause(Apply(w, s, a), a.id)) && (a.AskShared? ==> SharedCause(Apply(w, s, a), a.id))
    ensures LocalCause(Apply(w, s, a), other) && SharedCause(Apply(w, s, a), other)
  {
    StepForgetsNothing(w, s, a);
    CausesStay(s, Apply(w, s, a));
    hide InWindow, GrantedHere, RecordedShared, Consume, ConsumeRef;
    assert other in s.calls ==> LocalCause(s, other) && SharedCause(s, other);
  }

  lemma AskLocalHasCause(w: World, s: State, id: CallId, read: int, now: int)
    requires CauseInv(s) && Enabled(w, s, AskLocal(id, read, now))
    ensures CauseInv(Apply(w, s, AskLocal(id, read, now)))
  {
    var a := AskLocal(id, read, now);
    var t := Apply(w, s, a);
    LocalRefusalHasCause(w, s, id, read, now);
    StepForgetsNothing(w, s, a);
    CausesStay(s, t);
    hide Consume, InWindow, GrantedHere, RecordedShared, LocalCause, SharedCause, NothingForgotten;
    forall i, u | i in t.locals && u in t.locals[i].last ensures GrantedHere(t, i, u, t.locals[i].last[u].value) {
      LocalRecordHasCause(w, s, id, read, now, i, u);
    }
    forall other <- t.calls ensures LocalCause(t, other) && SharedCause(t, other) {
      OthersKeepCause(w, s, a, other);
    }
  }

  lemma SharedRecordHasCause(w: World, s: State, id: CallId, now: int, answer: Answer, u: UserId)
    requires CauseInv(s) && Enabled(w, s, AskShared(id, now, answer)) && u in Apply(w, s, AskShared(id, now, answer)).shared
    ensures var t := Apply(w, s, AskShared(id, now, answer)); RecordedShared(t, u, t.shared[u].value)
  {
    var t, c := Apply(w, s, AskShared(id, now, answer)), s.calls[id];
    StepForgetsNothing(w, s, AskShared(id, now, answer));
    CausesStay(s, t);
    hide InWindow, LocalCause, SharedCause;
    if t.calls[id].recorded && u == c.user {
      assert RecordedShared(t, u, c.step);
    } else {
      assert u in s.shared && s.shared[u] == t.shared[u];
    }
  }

  lemma AskSharedHasCause(w: World, s: State, id: CallId, now: int, answer: Answer)
    requires CauseInv(s) && Enabled(w, s, AskShared(id, now, answer))
    ensures CauseInv(Apply(w, s, AskShared(id, now, answer)))
  {
    var a := AskShared(id, now, answer);
    var t := Apply(w, s, a);
    SharedRefusalHasCause(w, s, id, now, answer);
    StepForgetsNothing(w, s, a);
    CausesStay(s, t);
    hide ConsumeRef, InWindow, GrantedHere, RecordedShared, LocalCause, SharedCause, NothingForgotten;
    forall u <- t.shared ensures RecordedShared(t, u, t.shared[u].value) {
      SharedRecordHasCause(w, s, id, now, answer, u);
    }
    forall other <- t.calls ensures LocalCause(t, other) && SharedCause(t, other) {
      OthersKeepCause(w, s, a, other);
    }
  }

  lemma OtherHasCause(w: World, s: State, a: Action)
    requires CauseInv(s) && Enabled(w, s, a) && !a.AskLocal? && !a.AskShared?
    ensures CauseInv(Apply(w, s, a))
  {
    StepForgetsNothing(w, s, a);
    CausesStay(s, Apply(w, s, a));
    hide InWindow, GrantedHere, RecordedShared, LocalCause, SharedCause, NothingForgotten;
    forall other <- Apply(w, s, a).calls ensures LocalCause(Apply(w, s, a), other) && SharedCause(Apply(w, s, a), other) {
      OthersKeepCause(w, s, a, other);
    }
  }

  lemma {:induction false} RunHasCause(w: World, s: State, run: seq<Action>)
    requires CauseInv(s) && Legal(w, s, run)
    ensures CauseInv(After(w, s, run))
    decreases |run|
  {
    if run != [] {
      match run[0] {
        case AskLocal(id, read, now) => AskLocalHasCause(w, s, id, read, now);
        case AskShared(id, now, answer) => AskSharedHasCause(w, s, id, now, answer);
        case _ => OtherHasCause(w, s, run[0]);
      }
      hide CauseInv;
      RunHasCause(w, Apply(w, s, run[0]), run[1..]);
    }
  }

  /** Another call of the same user, for as late a step, that a guard granted or recorded before. */
  predicate Spender(s: State, id: CallId, o: CallId)
    requires id in s.calls
  {
    && o in s.calls && o != id && s.calls[o].user == s.calls[id].user && s.calls[id].step <= s.calls[o].step
    && ((s.calls[id].localFresh == Some(false) && s.calls[o].inst == s.calls[id].inst && Yes(s.calls[o].localFresh))
        || (s.calls[id].sharedFresh == Some(false) && s.calls[o].recorded))
  }

  /**
   * A fresh step is accepted, outages or not: in every reachable state of any
   * world a call that was refused has another call of its user, with a step at
   * least as late, that the guard which refused it had granted or recorded.
   */
  lemma RefusedOnlyWhenSpent(w: World, s: State, id: CallId)
    requires Reachable(w, s) && id in s.calls && s.calls[id].stage.Returned? && !s.calls[id].Accepted()
    ensures exists o :: Spender(s, id, o)
  {
    var start, run :| Legal(w, Initial(start), run) && After(w, Initial(start), run) == s;
    RunHasCause(w, Initial(start), run);
    var c := s.calls[id];
    assert LocalCause(s, id) && SharedCause(s, id);
    if c.localFresh == Some(false) {
      var step :| c.step <= step && GrantedHere(s, c.inst, c.user, step);
      var o :| o in s.calls && s.calls[o].inst == c.inst && s.calls[o].user == c.user && s.calls[o].step == step && Yes(s.calls[o].localFresh);
      assert Spender(s, id, o);
    } else if c.sharedFresh == Some(false) {
      var step :| c.step <= step && RecordedShared(s, c.user, step);
      var o :| o in s.calls && s.calls[o].user == c.user && s.calls[o].step == step && s.calls[o].recorded;
      assert Spender(s, id, o);
    }
  }

  // ------------------------------------------------------- exact bounds

  lemma OneMore(w: World, s: State, a: Action, run: seq<Action>)
    requires Enabled(w, s, a) && Legal(w, Apply(w, s, a), run)
    ensures Legal(w, s, [a] + run) && After(w, s, [a] + run) == After(w, Apply(w, s, a), run)
  {
    assert ([a] + run)[1..] == run;
  }

  /** A whole call on its own, both guards asked at one moment and answering. */
  function Call(id: CallId, inst: Instance, step: int, matchedAt: int, now: int): seq<Action> {
    [Begin(id, inst, 0, step, matchedAt)] + ([AskLocal(id, now, now)] + ([AskShared(id, now, Answers)] + []))
  }

  lemma OneCall(w: World, s: State, id: CallId, inst: Instance, step: int, matchedAt: int, now: int)
    requires id !in s.calls && matchedAt <= s.now <= now <= matchedAt + w.delay
    requires w.since <= Local(w, inst, matchedAt) && InWindow(step, Local(w, inst, matchedAt))
    requires 0 in LocalOf(s, inst).last ==> LocalOf(s, inst).last[0].expiresAt <= Local(w, inst, now)
    requires 0 in s.shared ==> s.shared[0].expiresAt <= now
    ensures Legal(w, s, Call(id, inst, step, matchedAt, now))
    ensures var t := After(w, s, Call(id, inst, step, matchedAt, now));
            && t.now == now && t.calls == s.calls[id := Spend(inst, 0, step, matchedAt, Returned, Some(true), Some(true), true)]
            && t.shared == s.shared[0 := Entry(step, now + MEMORY_STEP_TTL)]
            && (forall i: Instance :: 0 in LocalOf(t, i).last ==>
                  if i == inst then LocalOf(t, i).last[0].expiresAt == Local(w, inst, now) + MEMORY_STEP_TTL
                  else LocalOf(t, i) == LocalOf(s, i))
  {
    hide InWindow;
    var a, b, c := Begin(id, inst, 0, step, matchedAt), AskLocal(id, now, now), AskShared(id, now, Answers);
    var s1 := Apply(w, s, a);
    var s2 := Apply(w, s1, b);
    var s3 := Apply(w, s2, c);
    OneMore(w, s2, c, []);
    OneMore(w, s1, b, [c] + []);
    OneMore(w, s, a, [b] + ([c] + []));
  }

  lemma {:induction false} RunsCompose(w: World, s: State, a: seq<Action>, b: seq<Action>)
    requires Legal(w, s, a) && Legal(w, After(w, s, a), b)
    ensures Legal(w, s, a + b) && After(w, s, a + b) == After(w, After(w, s, a), b)
    decreases |a|
  {
    if a == [] {
      assert a + b == b;
    } else {
      assert (a + b)[1..] == a[1..] + b;
      RunsCompose(w, Apply(w, s, a[0]), a[1..], b);
    }
  }

  /** A first call on i, and time passing. */
  lemma FirstThenWait(w: World, i: Instance, step: int, start: int, asked: int) returns (run: seq<Action>, s: State)
    requires w.since <= Local(w, i, start) && InWindow(step, Local(w, i, start)) && start <= asked
    ensures Legal(w, Initial(start), run) && After(w, Initial(start), run) == s && s.now == asked
    ensures s.calls == map[1 := Spend(i, 0, step, start, Returned, Some(true), Some(true), true)]
    ensures s.shared == map[0 := Entry(step, start + MEMORY_STEP_TTL)]
    ensures forall k: Instance :: 0 in LocalOf(s, k).last ==> k == i && LocalOf(s, k).last[0].expiresAt == Local(w, i, start) + MEMORY_STEP_TTL
  {
    hide InWindow;
    var first := Call(1, i, step, start, start);
    OneCall(w, Initial(start), 1, i, step, start, start);
    var s1 := After(w, Initial(start), first);
    s := Apply(w, s1, Tick(asked));
    OneMore(w, s1, Tick(asked), []);
    hide Legal, After;
    RunsCompose(w, Initial(start), first, [Tick(asked)] + []);
    run := first + ([Tick(asked)] + []);
    assert forall k: Instance :: LocalOf(s, k) == LocalOf(s1, k);
  }

  /**
   * With a longer wait, or clocks further apart, a step is accepted twice by
   * two calls both guards answer: first on i, whose clock is ahead, then on j
   * as soon as the records have expired.
   */
  lemma StepReplays(w: World, i: Instance, j: Instance) returns (s: State)
    requires w.skew(i) - w.skew(j) + w.delay > MaxWait(w.since)
    ensures Reachable(w, s) && 1 in s.calls && 2 in s.calls
    ensures s.calls[1].Accepted() && s.calls[2].Accepted()
    ensures s.calls[1].inst == i && s.calls[2].inst == j
    ensures s.calls[1].sharedFresh.Some? && s.calls[2].sharedFresh.Some?
    ensures s.calls[1].user == s.calls[2].user && s.calls[1].step == s.calls[2].step
  {
    var m, step, later := LongestWindow(w.since);
    var start, matched := m - w.skew(i), later - w.skew(j);
    var asked := if matched < start + MEMORY_STEP_TTL then start + MEMORY_STEP_TTL else matched;
    hide InWindow, MaxWait;
    var run, s2 := FirstThenWait(w, i, step, start, asked);
    hide Initial, Apply;
    OneCall(w, s2, 2, j, step, matched, asked);
    var second := Call(2, j, step, matched, asked);
    RunsCompose(w, Initial(start), run, second);
    s := After(w, s2, second);
  }

  /** On one instance, whatever the outages: single use exactly when no guard is asked too late after the match. */
  lemma InstanceBoundExact(w: World)
    ensures (forall s :: Reachable(w, s) ==> OnceOnInstance(s)) <==> w.delay <= MaxWait(w.since)
  {
    if w.delay <= MaxWait(w.since) {
      forall s | Reachable(w, s) ensures OnceOnInstance(s) {
        StepAcceptedOncePerInstance(w, s);
      }
    } else {
      var s := StepReplays(w, 0, 0);
      assert !OnceOnInstance(s);
    }
  }

  /** Across instances, while the shared guard answers: exactly when wait and clock difference together stay within it. */
  lemma SharedBoundExact(w: World)
    ensures (forall s :: Reachable(w, s) ==> OnceWhileAnswered(s)) <==> Across(w)
  {
    if Across(w) {
      forall s | Reachable(w, s) ensures OnceWhileAnswered(s) {
        StepAcceptedOnce(w, s);
      }
    } else {
      var i: Instance, j: Instance :| w.skew(i) - w.skew(j) + w.delay > MaxWait(w.since);
      var s := StepReplays(w, i, j);
      assert !OnceWhileAnswered(s);
    }
  }

  /** Two calls of one step that were asked locally in this order. */
  predicate BothAtShared(s: State, step: int, t: int) {
    && s.now == t && s.shared == map[] && 1 in s.calls && 2 in s.calls
    && s.calls[1] == Spend(0, 0, step, t, AtShared, Some(true), None, false)
    && s.calls[2] == Spend(0, 0, step, t, AtShared, Some(false), None, false)
  }

  lemma BothAsked(w: World, step: int, t: int) returns (run: seq<Action>, s: State)
    requires w.since <= Local(w, 0, t) && InWindow(step, Local(w, 0, t))
    ensures Legal(w, Initial(t), run) && After(w, Initial(t), run) == s && BothAtShared(s, step, t)
  {
    hide InWindow, Local;
    var a1, a2 := Begin(1, 0, 0, step, t), Begin(2, 0, 0, step, t);
    var a3, a4 := AskLocal(1, t, t), AskLocal(2, t, t);
    var s1 := Apply(w, Initial(t), a1);
    var s2 := Apply(w, s1, a2);
    var s3 := Apply(w, s2, a3);
    s := Apply(w, s3, a4);
    OneMore(w, s3, a4, []);
    OneMore(w, s2, a3, [a4] + []);
    OneMore(w, s1, a2, [a3] + ([a4] + []));
    OneMore(w, Initial(t), a1, [a2] + ([a3] + ([a4] + [])));
    run := [a1] + ([a2] + ([a3] + ([a4] + [])));
  }

  /**
   * At most one is not always one: two concurrent calls with the same step can
   * refuse each other although every guard answers, because each wins at one.
   */
  lemma BothCanBeRefused(w: World) returns (s: State)
    ensures Reachable(w, s) && 1 in s.calls && 2 in s.calls
    ensures s.calls[1].step == s.calls[2].step && s.calls[1].user == s.calls[2].user && s.calls[1].inst == s.calls[2].inst
    ensures s.calls[1].stage.Returned? && s.calls[1].sharedFresh.Some? && !s.calls[1].Accepted()
    ensures s.calls[2].stage.Returned? && s.calls[2].sharedFresh.Some? && !s.calls[2].Accepted()
  {
    var m, step, _ := LongestWindow(w.since);
    var t := m - w.skew(0);
    hide InWindow, MaxWait;
    var run, s4 := BothAsked(w, step, t);
    hide Initial;
    var a, b := AskShared(2, t, Answers), AskShared(1, t, Answers);
    var s5 := Apply(w, s4, a);
    s := Apply(w, s5, b);
    OneMore(w, s5, b, []);
    OneMore(w, s4, a, [b] + []);
    RunsCompose(w, Initial(t), run, [a] + ([b] + []));
  }
}

/** spendTOTPStep as one call makes it. */
module TotpSpendService {
  import opened Wrappers
  import opened ExpiringMap
  import opened TotpStep
  import opened TotpSpend

  datatype GuardError = GuardError

  /** The shared record: expired keys are gone, and the script is atomic. */
  class SharedReplayGuard {
    var last: Steps

    constructor ()
      ensures last == map[]
    {
      last := map[];
    }

    /** `answer` is how the call goes: it may fail before or after the step is recorded. */
    method ConsumeTOTPStep(now: int, user: UserId, step: int, answer: Answer) returns (r: Result<bool, GuardError>)
      modifies this
      ensures r == if answer.Answers? then Ok(ConsumeRef(old(last), now, user, step).1) else Err(GuardError)
      ensures last == if answer.Fails? then old(last) else ConsumeRef(old(last), now, user, step).0
    {
      r := Err(GuardError);
      if answer.Fails? {
        return;
      }
      var unspent := !(user in last && now < last[user].expiresAt && step <= last[user].value);
      if unspent {
        last := last[user := Entry(step, now + MEMORY_STEP_TTL)];
      }
      if answer.Answers? {
        r := Ok(unspent);
      }
    }
  }

  /** What other calls make of the two guards between this call's two questions: anything. */
  type Meanwhile = (Guard, Steps) -> (Guard, Steps)

  method Interfere(local: MemoryTOTPReplayGuard, shared: SharedReplayGuard, others: Meanwhile)
    modifies local, shared
    ensures (local.Value(), shared.last) == others(old(local.Value()), old(shared.last))
  {
    var (guard, steps) := others(Guard(local.last, local.lastSweep), shared.last);
    local.last, local.lastSweep := guard.last, guard.lastSweep;
    shared.last := steps;
  }

  /**
   * The two steps AskLocal and AskShared of TotpSpend with anything in between,
   * both guards left as those steps leave them. A null shared guard is one that
   * is not wired: the local guard alone decides.
   */
  method SpendTOTPStep(local: MemoryTOTPReplayGuard, shared: SharedReplayGuard?, others: Meanwhile,
                       read: int, later: int, user: UserId, step: int, answer: Answer)
    returns (accepted: bool)
    modifies local, if shared == null then {} else {shared}
    ensures shared == null ==> (local.Value(), accepted) == Consume(old(local.Value()), read, user, step)
    ensures shared != null ==>
              var (asked, localFresh) := Consume(old(local.Value()), read, user, step);
              var (guard, steps) := others(asked, old(shared.last));
              var (next, sharedFresh) := ConsumeRef(steps, later, user, step);
              && local.Value() == guard
              && shared.last == (if answer.Fails? then steps else next)
              && (accepted <==> localFresh && (answer.Answers? ==> sharedFresh))
  {
    var localFresh := local.ConsumeTOTPStep(read, user, step);
    if shared != null {
      Interfere(local, shared, others);
      var r := shared.ConsumeTOTPStep(later, user, step, answer);
      if r.Ok? {
        return r.value && localFresh;
      }
    }
    accepted := localFresh;
  }
}
