/**
 * VerifyTOTPLogin and redeemTOTPChallenge as program counters: any number of
 * verifies of any challenges, on any number of instances whose clocks differ,
 * with a shared guard that may fail before or after recording. Times are the
 * shared guard's; each instance's clock differs from it by its own skew.
 */
module TotpLogin {
  import opened Wrappers
  import opened ExpiringMap
  import opened TotpChallenge

  type UserId = nat
  type Instance = nat
  type CallId = nat

  /** What the challenge token carries; a jti names one token. */
  datatype Claims = Claims(user: UserId, epoch: nat, expiresAt: int)

  /**
   * The setting: the claims behind each jti, each instance's clock against the
   * shared guard's, and within how long of validating a challenge a call
   * redeems it, the wait for the local guard's lock included.
   */
  datatype World = World(claims: Jti -> Claims, skew: Instance -> int, delay: nat)

  function Local(w: World, inst: Instance, t: int): int { t + w.skew(inst) }

  function Expiry(w: World, jti: Jti): int { w.claims(jti).expiresAt }

  datatype Stage = AtUser | AtFactor | AtShared | AtLocal | AtIssue | Done(minted: bool)

  datatype Said = NotAsked | Granted | Refused | Unanswered

  /** asOf is when the call took its last timed step. */
  datatype Verify = Verify(jti: Jti, inst: Instance, stage: Stage, validatedAt: int, asOf: int, ttl: int,
                           shared: Said, local: Said)
  {
    /** redeemTOTPChallenge returned true. */
    predicate Redeemed() { local.Granted? }

    predicate Finished() { stage.Done? }
  }

  datatype User = User(epoch: nat, totpEnabled: bool)

  datatype State = State(
    now: int,
    users: map<UserId, User>,
    shared: Burns,
    locals: map<Instance, Guard>,
    calls: map<CallId, Verify>,
    sessions: map<CallId, Jti>)    // sign-ins minted, by the call that minted them

  function Initial(start: int): State { State(start, map[], map[], map[], map[], map[]) }

  datatype Action =
    | Begin(id: CallId, jti: Jti, inst: Instance)
    | ReadUser(id: CallId)
    | CheckFactor(id: CallId, correct: bool)
    | AskShared(id: CallId, now: int, answer: Answer)
    | AskLocal(id: CallId, read: int, now: int)   // the clock was read at `read`, the lock taken at `now`
    | Issue(id: CallId, works: bool)
    | Tick(now: int)
    | WriteUser(user: UserId, row: User)

  function LocalOf(s: State, inst: Instance): Guard {
    if inst in s.locals then s.locals[inst] else EMPTY
  }

  ghost predicate AtSharedBy(w: World, s: State, id: CallId, now: int) {
    id in s.calls && s.calls[id].stage.AtShared? && s.now <= now < s.calls[id].validatedAt + w.delay
  }

  /** The shared guard goes first, and a loss there leaves the local record alone. */
  function SharedStep(s: State, id: CallId, now: int, answer: Answer): State
    requires id in s.calls
  {
    var c := s.calls[id];
    var (next, told) := SharedRedeem(s.shared, now, c.jti, c.ttl, answer);
    var said := if told.None? then Unanswered else if told.value then Granted else Refused;
    s.(now := now, shared := next,
       calls := s.calls[id := c.(shared := said, asOf := now, stage := if said.Refused? then Done(false) else AtLocal)])
  }

  ghost predicate AtLocalBy(w: World, s: State, id: CallId, read: int, now: int) {
    && id in s.calls && s.calls[id].stage.AtLocal?
    && s.calls[id].asOf <= read <= now && s.now <= now < s.calls[id].validatedAt + w.delay
  }

  function LocalStep(w: World, s: State, id: CallId, read: int, now: int): State
    requires id in s.calls
  {
    var c := s.calls[id];
    var (next, first) := Redeem(LocalOf(s, c.inst), Local(w, c.inst, read), c.jti, c.ttl);
    s.(now := now, locals := s.locals[c.inst := next],
       calls := s.calls[id := c.(local := if first then Granted else Refused, asOf := now,
                                 stage := if first then AtIssue else Done(false))])
  }

  ghost predicate Enabled(w: World, s: State, a: Action) {
    match a
    case Begin(id, jti, inst) =>
      // ValidateAccessToken refuses a token after its expiry, by the instance's clock.
      id !in s.calls && Local(w, inst, s.now) <= Expiry(w, jti)
    case ReadUser(id) => id in s.calls && s.calls[id].stage.AtUser?
    case CheckFactor(id, _) => id in s.calls && s.calls[id].stage.AtFactor?
    case AskShared(id, now, _) => AtSharedBy(w, s, id, now)
    case AskLocal(id, read, now) => AtLocalBy(w, s, id, read, now)
    case Issue(id, _) => id in s.calls && s.calls[id].stage.AtIssue?
    case Tick(now) => s.now <= now
    // Epochs only move up.
    case WriteUser(user, row) => user in s.users ==> s.users[user].epoch <= row.epoch
  }

  function Apply(w: World, s: State, a: Action): State
    requires Enabled(w, s, a)
  {
    match a
    case Begin(id, jti, inst) =>
      s.(calls := s.calls[id := Verify(jti, inst, AtUser, s.now, s.now, 0, NotAsked, NotAsked)])
    case ReadUser(id) =>
      var c := s.calls[id];
      var user := w.claims(c.jti).user;
      var ok := user in s.users && s.users[user].totpEnabled && s.users[user].epoch == w.claims(c.jti).epoch;
      s.(calls := s.calls[id := c.(stage := if ok then AtFactor else Done(false))])
    case CheckFactor(id, correct) =>
      var c := s.calls[id];
      // time.Until(expiresAt) + challengeBurnSlack, by the instance's clock
      var ttl := Expiry(w, c.jti) - Local(w, c.inst, s.now) + CHALLENGE_BURN_SLACK;
      s.(calls := s.calls[id := if correct then c.(stage := AtShared, asOf := s.now, ttl := ttl) else c.(stage := Done(false))])
    case AskShared(id, now, answer) => SharedStep(s, id, now, answer)
    case AskLocal(id, read, now) => LocalStep(w, s, id, read, now)
    case Issue(id, works) =>
      s.(calls := s.calls[id := s.calls[id].(stage := Done(works))],
         sessions := if works then s.sessions[id := s.calls[id].jti] else s.sessions)
    case Tick(now) => s.(now := now)
    case WriteUser(user, row) => s.(users := s.users[user := row])
  }

  ghost predicate Legal(w: World, s: State, run: seq<Action>)
    decreases |run|
  {
    run == [] || (Enabled(w, s, run[0]) && Legal(w, Apply(w, s, run[0]), run[1..]))
  }

  ghost function After(w: World, s: State, run: seq<Action>): State
    requires Legal(w, s, run)
    decreases |run|
  {
    if run == [] then s else After(w, Apply(w, s, run[0]), run[1..])
  }

  ghost predicate Reachable(w: World, s: State) {
    exists start, run :: Legal(w, Initial(start), run) && After(w, Initial(start), run) == s
  }

  // ------------------------------------------------ what every run keeps

  predicate StageOk(w: World, s: State, c: Verify) {
    && c.validatedAt <= c.asOf <= s.now
    && Local(w, c.inst, c.validatedAt) <= Expiry(w, c.jti)
    && (c.stage.AtUser? || c.stage.AtFactor? || c.stage.AtShared? ==> c.local.NotAsked? && c.shared.NotAsked?)
    && (c.stage.AtLocal? ==> c.local.NotAsked? && (c.shared.Granted? || c.shared.Unanswered?))
    && (c.stage.AtShared? || c.stage.AtLocal? ==>
          Local(w, c.inst, c.asOf) + c.ttl >= Expiry(w, c.jti) + CHALLENGE_BURN_SLACK)
    && (c.stage.AtIssue? ==> c.local.Granted?)
    && (c.local.Granted? ==> c.shared.Granted? || c.shared.Unanswered?)
    && (c.stage.Done? && c.shared.Granted? ==> !c.local.NotAsked?)
    && !c.local.Unanswered?
  }

  ghost predicate CallsOk(w: World, s: State) {
    forall id <- s.calls :: StageOk(w, s, s.calls[id])
  }

  ghost predicate SessionsOk(s: State) {
    forall id <- s.sessions :: id in s.calls && s.calls[id].jti == s.sessions[id] && s.calls[id].Redeemed()
                               && s.calls[id].stage == Done(true)
  }

  /** Whoever is told of a session has one. */
  ghost predicate NoneWithout(s: State) {
    forall id <- s.calls :: s.calls[id].stage == Done(true) ==> id in s.sessions
  }

  ghost predicate GrantedLocally(s: State, inst: Instance, jti: Jti) {
    exists id <- s.calls :: s.calls[id].jti == jti && s.calls[id].inst == inst && s.calls[id].local.Granted?
  }

  ghost predicate GrantedShared(s: State, jti: Jti) {
    exists id <- s.calls :: s.calls[id].jti == jti && (s.calls[id].shared.Granted? || s.calls[id].shared.Unanswered?)
  }

  /** A refusal is there because some call was granted or left unanswered. */
  ghost predicate RefusalsExplained(s: State) {
    && (forall i <- s.locals, jti <- s.locals[i].spent :: GrantedLocally(s, i, jti))
    && (forall jti <- s.shared :: GrantedShared(s, jti))
    && (forall id <- s.calls :: s.calls[id].local.Refused? ==> GrantedLocally(s, s.calls[id].inst, s.calls[id].jti))
    && (forall id <- s.calls :: s.calls[id].shared.Refused? ==> GrantedShared(s, s.calls[id].jti))
  }

  ghost predicate BaseInv(w: World, s: State) {
    CallsOk(w, s) && SessionsOk(s) && RefusalsExplained(s)
  }

  /** Calls keep their challenge and instance, and what the guards told them. */
  ghost predicate CallsGrow(s: State, t: State) {
    forall id <- s.calls ::
      && id in t.calls && t.calls[id].jti == s.calls[id].jti && t.calls[id].inst == s.calls[id].inst
      && (s.calls[id].local.Granted? ==> t.calls[id].local.Granted?)
      && (!s.calls[id].shared.NotAsked? ==> t.calls[id].shared == s.calls[id].shared)
  }

  /** Grants are never taken back. */
  lemma GrantsKept(s: State, t: State)
    requires CallsGrow(s, t)
    ensures forall i, jti :: GrantedLocally(s, i, jti) ==> GrantedLocally(t, i, jti)
    ensures forall jti :: GrantedShared(s, jti) ==> GrantedShared(t, jti)
  {
    forall i, jti | GrantedLocally(s, i, jti) ensures GrantedLocally(t, i, jti) {
      var id :| id in s.calls && s.calls[id].jti == jti && s.calls[id].inst == i && s.calls[id].local.Granted?;
      assert t.calls[id].jti == jti;
    }
    forall jti | GrantedShared(s, jti) ensures GrantedShared(t, jti) {
      var id :| id in s.calls && s.calls[id].jti == jti && (s.calls[id].shared.Granted? || s.calls[id].shared.Unanswered?);
      assert t.calls[id].jti == jti;
    }
  }

  lemma CallsOnlyGrow(w: World, s: State, a: Action)
    requires Enabled(w, s, a) && CallsOk(w, s)
    ensures CallsGrow(s, Apply(w, s, a))
  {
    hide Redeem, SharedRedeem;
  }

  lemma StepKeepsStage(w: World, s: State, a: Action, id: CallId)
    requires CallsOk(w, s) && Enabled(w, s, a) && id in Apply(w, s, a).calls
    ensures StageOk(w, Apply(w, s, a), Apply(w, s, a).calls[id])
  {
    hide Redeem, SharedRedeem;
    assert id in s.calls ==> StageOk(w, s, s.calls[id]);
    hide CallsOk;
  }

  lemma StepsKeepCalls(w: World, s: State, a: Action)
    requires CallsOk(w, s) && Enabled(w, s, a)
    ensures CallsGrow(s, Apply(w, s, a)) && CallsOk(w, Apply(w, s, a))
  {
    hide Apply, Enabled, StageOk, CallsGrow;
    CallsOnlyGrow(w, s, a);
    forall id <- Apply(w, s, a).calls ensures StageOk(w, Apply(w, s, a), Apply(w, s, a).calls[id]) {
      StepKeepsStage(w, s, a, id);
    }
  }

  lemma StepsKeepSessions(w: World, s: State, a: Action)
    requires CallsOk(w, s) && SessionsOk(s) && Enabled(w, s, a)
    ensures SessionsOk(Apply(w, s, a))
  {
    hide Redeem, SharedRedeem;
    if a.Issue? {
      assert StageOk(w, s, s.calls[a.id]);
    }
  }

  lemma SharedExplained(w: World, s: State, id: CallId, now: int, answer: Answer)
    requires CallsOk(w, s) && RefusalsExplained(s) && AtSharedBy(w, s, id, now)
    ensures RefusalsExplained(SharedStep(s, id, now, answer))
  {
    var t := SharedStep(s, id, now, answer);
    assert StageOk(w, s, s.calls[id]);
    GrantsKept(s, t);
    forall jti <- t.shared ensures GrantedShared(t, jti) {
      assert jti in s.shared || t.calls[id].jti == jti;
    }
    forall other <- t.calls | t.calls[other].shared.Refused? ensures GrantedShared(t, t.calls[other].jti) {
      assert other == id ==> GrantedShared(s, t.calls[id].jti);
    }
    forall other <- t.calls | t.calls[other].local.Refused?
      ensures GrantedLocally(t, t.calls[other].inst, t.calls[other].jti)
    {
      assert t.calls[other].local == s.calls[other].local;
    }
  }

  /** The local step by its effect: the caller is told, and one jti may be recorded at its instance. */
  lemma LocalEffect(w: World, s: State, id: CallId, read: int, now: int)
    requires CallsOk(w, s) && RefusalsExplained(s) && AtLocalBy(w, s, id, read, now)
    ensures var t := LocalStep(w, s, id, read, now);
            && (forall i <- t.locals, jti <- t.locals[i].spent ::
                  (i in s.locals && jti in s.locals[i].spent)
                  || (t.calls[id].jti == jti && t.calls[id].inst == i && t.calls[id].local.Granted?))
            && (t.calls[id].local.Refused? ==> GrantedLocally(s, t.calls[id].inst, t.calls[id].jti))
  {
    assert StageOk(w, s, s.calls[id]);
  }

  lemma LocalGrantsExplain(s: State, t: State, id: CallId)
    requires RefusalsExplained(s) && id in s.calls && t.calls.Keys == s.calls.Keys && t.shared == s.shared
    requires forall other <- s.calls :: other != id ==> t.calls[other] == s.calls[other]
    requires t.calls[id].shared == s.calls[id].shared && t.calls[id].jti == s.calls[id].jti && t.calls[id].inst == s.calls[id].inst
    requires forall i, jti :: GrantedLocally(s, i, jti) ==> GrantedLocally(t, i, jti)
    requires forall jti :: GrantedShared(s, jti) ==> GrantedShared(t, jti)
    requires forall i <- t.locals, jti <- t.locals[i].spent ::
               (i in s.locals && jti in s.locals[i].spent)
               || (t.calls[id].jti == jti && t.calls[id].inst == i && t.calls[id].local.Granted?)
    requires t.calls[id].local.Refused? ==> GrantedLocally(s, t.calls[id].inst, t.calls[id].jti)
    ensures RefusalsExplained(t)
  {
    forall i <- t.locals, jti <- t.locals[i].spent ensures GrantedLocally(t, i, jti) {
      assert (i in s.locals && jti in s.locals[i].spent) || (t.calls[id].jti == jti && t.calls[id].inst == i);
    }
    hide GrantedLocally, GrantedShared;
  }

  /** Both guards, and what calls were told, as before. */
  ghost predicate GuardsAlone(s: State, t: State) {
    && t.shared == s.shared && t.locals == s.locals && s.now <= t.now
    && (forall id <- s.calls :: id in t.calls)
    && (forall id <- t.calls :: id in s.calls ==>
          && t.calls[id].jti == s.calls[id].jti && t.calls[id].inst == s.calls[id].inst
          && t.calls[id].shared == s.calls[id].shared && t.calls[id].local == s.calls[id].local)
    && (forall id <- t.calls :: id !in s.calls ==> t.calls[id].shared.NotAsked? && t.calls[id].local.NotAsked?)
  }

  lemma OthersLeaveGuards(w: World, s: State, a: Action)
    requires Enabled(w, s, a) && !a.AskShared? && !a.AskLocal?
    ensures GuardsAlone(s, Apply(w, s, a))
  {
  }

  lemma AloneKeepsExplained(s: State, t: State)
    requires RefusalsExplained(s) && GuardsAlone(s, t)
    ensures RefusalsExplained(t)
  {
    GrantsKept(s, t);
    hide GrantedLocally, GrantedShared;
  }

  lemma StepKeepsBase(w: World, s: State, a: Action)
    requires BaseInv(w, s) && Enabled(w, s, a)
    ensures BaseInv(w, Apply(w, s, a))
  {
    StepsKeepCalls(w, s, a);
    StepsKeepSessions(w, s, a);
    match a
    case AskShared(id, now, answer) => SharedExplained(w, s, id, now, answer);
    case AskLocal(id, read, now) =>
      LocalEffect(w, s, id, read, now);
      assert StageOk(w, s, s.calls[id]);
      GrantsKept(s, Apply(w, s, a));
      hide Redeem;
      LocalGrantsExplain(s, Apply(w, s, a), id);
    case _ =>
      OthersLeaveGuards(w, s, a);
      AloneKeepsExplained(s, Apply(w, s, a));
  }

  // ------------------------------------------------------ on one instance

  /** A local guard that granted this call still has its record, or the record's time is over. */
  predicate LocalRecord(w: World, s: State, c: Verify) {
    c.local.Granted? ==>
      || (c.jti in LocalOf(s, c.inst).spent
          && Expiry(w, c.jti) + CHALLENGE_BURN_SLACK <= LocalOf(s, c.inst).spent[c.jti].expiresAt)
      || Expiry(w, c.jti) + CHALLENGE_BURN_SLACK <= Local(w, c.inst, s.now)
  }

  ghost predicate LocalsDiffer(s: State) {
    forall a <- s.calls, b <- s.calls ::
      (a != b && s.calls[a].jti == s.calls[b].jti && s.calls[a].inst == s.calls[b].inst
       && s.calls[a].local.Granted?) ==> !s.calls[b].local.Granted?
  }

  ghost predicate LocalInv(w: World, s: State) {
    BaseInv(w, s) && LocalsDiffer(s) && forall id <- s.calls :: LocalRecord(w, s, s.calls[id])
  }

  lemma AskLocalKeepsRecord(w: World, s: State, id: CallId, read: int, now: int, other: CallId)
    requires w.delay <= CHALLENGE_BURN_SLACK && LocalInv(w, s) && AtLocalBy(w, s, id, read, now) && other in s.calls
    ensures var t := LocalStep(w, s, id, read, now);
            && LocalRecord(w, t, t.calls[other])
            && (other != id && s.calls[other].jti == s.calls[id].jti && s.calls[other].inst == s.calls[id].inst
                && s.calls[other].local.Granted?
                ==> !t.calls[id].local.Granted?)
  {
    assert StageOk(w, s, s.calls[id]) && StageOk(w, s, s.calls[other]) && LocalRecord(w, s, s.calls[other]);
  }

  lemma AskLocalKeeps(w: World, s: State, id: CallId, read: int, now: int)
    requires w.delay <= CHALLENGE_BURN_SLACK && LocalInv(w, s) && AtLocalBy(w, s, id, read, now)
    ensures var t := LocalStep(w, s, id, read, now);
            LocalsDiffer(t) && forall other <- t.calls :: LocalRecord(w, t, t.calls[other])
  {
    var t := LocalStep(w, s, id, read, now);
    assert LocalsDiffer(s);
    forall other <- s.calls
      ensures LocalRecord(w, t, t.calls[other])
      ensures other != id && s.calls[other].jti == s.calls[id].jti && s.calls[other].inst == s.calls[id].inst
              && s.calls[other].local.Granted?
              ==> !t.calls[id].local.Granted?
    {
      AskLocalKeepsRecord(w, s, id, read, now, other);
    }
    hide LocalInv, Redeem, LocalRecord;
  }

  lemma AskSharedLeavesLocal(w: World, s: State, id: CallId, now: int, answer: Answer)
    requires LocalInv(w, s) && AtSharedBy(w, s, id, now)
    ensures var t := SharedStep(s, id, now, answer);
            LocalsDiffer(t) && forall other <- t.calls :: LocalRecord(w, t, t.calls[other])
  {
    var t := SharedStep(s, id, now, answer);
    hide SharedRedeem, BaseInv;
    forall other <- t.calls ensures LocalRecord(w, t, t.calls[other]) {
      assert LocalRecord(w, s, s.calls[other]);
    }
  }

  lemma AloneKeepsLocal(w: World, s: State, t: State)
    requires LocalInv(w, s) && GuardsAlone(s, t)
    ensures LocalsDiffer(t) && forall other <- t.calls :: LocalRecord(w, t, t.calls[other])
  {
    hide BaseInv;
    forall other <- t.calls ensures LocalRecord(w, t, t.calls[other]) {
      assert other in s.calls ==> LocalRecord(w, s, s.calls[other]);
    }
  }

  lemma StepKeepsLocal(w: World, s: State, a: Action)
    requires w.delay <= CHALLENGE_BURN_SLACK && LocalInv(w, s) && Enabled(w, s, a)
    ensures LocalInv(w, Apply(w, s, a))
  {
    StepKeepsBase(w, s, a);
    match a
    case AskLocal(id, read, now) => AskLocalKeeps(w, s, id, read, now);
    case AskShared(id, now, answer) => AskSharedLeavesLocal(w, s, id, now, answer);
    case _ =>
      OthersLeaveGuards(w, s, a);
      AloneKeepsLocal(w, s, Apply(w, s, a));
  }

  lemma {:induction false} RunKeepsLocal(w: World, s: State, run: seq<Action>)
    requires w.delay <= CHALLENGE_BURN_SLACK && LocalInv(w, s) && Legal(w, s, run)
    ensures LocalInv(w, After(w, s, run))
    decreases |run|
  {
    if run != [] {
      StepKeepsLocal(w, s, run[0]);
      hide LocalInv;
      RunKeepsLocal(w, Apply(w, s, run[0]), run[1..]);
    }
  }

  /** No two verifies on one instance mint a session from one challenge. */
  ghost predicate OnceOnInstance(s: State) {
    forall a <- s.sessions, b <- s.sessions ::
      (s.sessions[a] == s.sessions[b] && a in s.calls && b in s.calls && s.calls[a].inst == s.calls[b].inst) ==> a == b
  }

  lemma MintsOncePerInstance(w: World, s: State)
    requires w.delay <= CHALLENGE_BURN_SLACK && Reachable(w, s)
    ensures OnceOnInstance(s)
  {
    var start, run :| Legal(w, Initial(start), run) && After(w, Initial(start), run) == s;
    RunKeepsLocal(w, Initial(start), run);
  }

  // ----------------------------------------------------- across instances

  /** The delay and the difference of any two clocks together stay within the slack. */
  ghost predicate Across(w: World) {
    w.delay == 0 || forall i: Instance, j: Instance :: w.skew(i) - w.skew(j) + w.delay <= CHALLENGE_BURN_SLACK
  }

  /** The shared guard still refuses whoever can ask after it granted this call. */
  predicate SharedRecord(w: World, s: State, c: Verify) {
    c.shared.Granted? ==>
      c.jti in s.shared && Expiry(w, c.jti) + CHALLENGE_BURN_SLACK <= Local(w, c.inst, s.shared[c.jti].expiresAt)
  }

  ghost predicate SharedDiffer(s: State) {
    forall a <- s.calls, b <- s.calls ::
      (a != b && s.calls[a].jti == s.calls[b].jti && s.calls[a].shared.Granted?) ==> !s.calls[b].shared.Granted?
  }

  ghost predicate SharedInv(w: World, s: State) {
    BaseInv(w, s) && SharedDiffer(s) && forall id <- s.calls :: SharedRecord(w, s, s.calls[id])
  }

  lemma AskSharedKeepsRecord(w: World, s: State, id: CallId, now: int, answer: Answer, other: CallId)
    requires Across(w) && SharedInv(w, s) && AtSharedBy(w, s, id, now) && other in s.calls
    ensures var t := SharedStep(s, id, now, answer);
            && SharedRecord(w, t, t.calls[other])
            && (other != id && s.calls[other].jti == s.calls[id].jti && s.calls[other].shared.Granted?
                ==> !t.calls[id].shared.Granted?)
  {
    assert StageOk(w, s, s.calls[id]) && StageOk(w, s, s.calls[other]) && SharedRecord(w, s, s.calls[other]);
    assert w.delay == 0 || w.skew(s.calls[other].inst) - w.skew(s.calls[id].inst) + w.delay <= CHALLENGE_BURN_SLACK;
  }

  lemma AskSharedKeeps(w: World, s: State, id: CallId, now: int, answer: Answer)
    requires Across(w) && SharedInv(w, s) && AtSharedBy(w, s, id, now)
    ensures var t := SharedStep(s, id, now, answer);
            SharedDiffer(t) && forall other <- t.calls :: SharedRecord(w, t, t.calls[other])
  {
    var t := SharedStep(s, id, now, answer);
    assert SharedDiffer(s);
    forall other <- s.calls
      ensures SharedRecord(w, t, t.calls[other])
      ensures other != id && s.calls[other].jti == s.calls[id].jti && s.calls[other].shared.Granted?
              ==> !t.calls[id].shared.Granted?
    {
      AskSharedKeepsRecord(w, s, id, now, answer, other);
    }
    hide SharedInv, SharedRedeem, SharedRecord, Across;
  }

  lemma AskLocalLeavesShared(w: World, s: State, id: CallId, read: int, now: int)
    requires SharedInv(w, s) && AtLocalBy(w, s, id, read, now)
    ensures var t := LocalStep(w, s, id, read, now);
            SharedDiffer(t) && forall other <- t.calls :: SharedRecord(w, t, t.calls[other])
  {
    var t := LocalStep(w, s, id, read, now);
    hide Redeem, BaseInv;
    forall other <- t.calls ensures SharedRecord(w, t, t.calls[other]) {
      assert SharedRecord(w, s, s.calls[other]);
    }
  }

  lemma AloneKeepsShared(w: World, s: State, t: State)
    requires SharedInv(w, s) && GuardsAlone(s, t)
    ensures SharedDiffer(t) && forall other <- t.calls :: SharedRecord(w, t, t.calls[other])
  {
    hide BaseInv;
    forall other <- t.calls ensures SharedRecord(w, t, t.calls[other]) {
      assert other in s.calls ==> SharedRecord(w, s, s.calls[other]);
    }
  }

  lemma StepKeepsShared(w: World, s: State, a: Action)
    requires Across(w) && SharedInv(w, s) && Enabled(w, s, a)
    ensures SharedInv(w, Apply(w, s, a))
  {
    StepKeepsBase(w, s, a);
    match a
    case AskShared(id, now, answer) => AskSharedKeeps(w, s, id, now, answer);
    case AskLocal(id, read, now) => AskLocalLeavesShared(w, s, id, read, now);
    case _ =>
      OthersLeaveGuards(w, s, a);
      AloneKeepsShared(w, s, Apply(w, s, a));
  }

  lemma {:induction false} RunKeepsShared(w: World, s: State, run: seq<Action>)
    requires Across(w) && SharedInv(w, s) && Legal(w, s, run)
    ensures SharedInv(w, After(w, s, run))
    decreases |run|
  {
    if run != [] {
      StepKeepsShared(w, s, run[0]);
      hide SharedInv, Across;
      RunKeepsShared(w, Apply(w, s, run[0]), run[1..]);
    }
  }

  lemma ReachableShared(w: World, s: State)
    requires Across(w) && Reachable(w, s)
    ensures SharedInv(w, s)
  {
    var start, run :| Legal(w, Initial(start), run) && After(w, Initial(start), run) == s;
    RunKeepsShared(w, Initial(start), run);
  }

  /** The shared guard answered every call that asked it about this challenge. */
  ghost predicate AlwaysAnswered(s: State, jti: Jti) {
    forall id <- s.calls :: s.calls[id].jti == jti ==> !s.calls[id].shared.Unanswered?
  }

  /** No two verifies mint a session from a challenge about which the shared guard always answered. */
  ghost predicate OnceWhileAnswered(s: State) {
    forall a <- s.sessions, b <- s.sessions ::
      (s.sessions[a] == s.sessions[b] && AlwaysAnswered(s, s.sessions[a])) ==> a == b
  }

  lemma ChallengeMintsOnce(w: World, s: State)
    requires Across(w) && Reachable(w, s)
    ensures OnceWhileAnswered(s)
  {
    ReachableShared(w, s);
    forall a <- s.sessions, b <- s.sessions | s.sessions[a] == s.sessions[b] && AlwaysAnswered(s, s.sessions[a])
      ensures a == b
    {
      assert StageOk(w, s, s.calls[a]) && StageOk(w, s, s.calls[b]);
    }
  }

  ghost predicate OnlyWinner(s: State, jti: Jti, winner: CallId) {
    && winner in s.calls && s.calls[winner].jti == jti && s.calls[winner].Redeemed()
    && forall id <- s.calls :: s.calls[id].jti == jti && id != winner ==> !s.calls[id].Redeemed()
  }

  /**
   * While the shared guard answers, exactly one of any number of concurrent
   * redeems of a challenge wins, on whichever instances they run.
   */
  lemma ExactlyOneRedeems(w: World, s: State, jti: Jti, asked: CallId)
    requires Across(w) && Reachable(w, s) && AlwaysAnswered(s, jti)
    requires asked in s.calls && s.calls[asked].jti == jti && !s.calls[asked].shared.NotAsked?
    requires forall id <- s.calls :: s.calls[id].jti == jti ==> s.calls[id].Finished()
    ensures exists winner :: OnlyWinner(s, jti, winner)
  {
    ReachableShared(w, s);
    assert RefusalsExplained(s) && StageOk(w, s, s.calls[asked]);
    var g :| g in s.calls && s.calls[g].jti == jti && s.calls[g].shared.Granted?;
    assert StageOk(w, s, s.calls[g]);
    forall id <- s.calls | s.calls[id].jti == jti && id != g ensures !s.calls[id].Redeemed() {
      assert StageOk(w, s, s.calls[id]);
    }
    assert OnlyWinner(s, jti, g);
  }

  // ------------------------------------------------------- exact bounds

  lemma OneMore(w: World, s: State, a: Action, run: seq<Action>)
    requires Enabled(w, s, a) && Legal(w, Apply(w, s, a), run)
    ensures Legal(w, s, [a] + run) && After(w, s, [a] + run) == After(w, Apply(w, s, a), run)
  {
    assert ([a] + run)[1..] == run;
  }

  lemma {:induction false} RunsCompose(w: World, s: State, a: seq<Action>, b: seq<Action>)
    requires Legal(w, s, a) && Legal(w, After(w, s, a), b)
    ensures Legal(w, s, a + b) && After(w, s, a + b) == After(w, After(w, s, a), b)
    decreases |a|
  {
    if a == [] {
      assert a + b == b;
    } else {
      assert (a + b)[1..] == a[1..] + b;
      RunsCompose(w, Apply(w, s, a[0]), a[1..], b);
    }
  }

  /** A verify that checks the factor at once and redeems at `asks`, every guard answering. */
  function Verified(id: CallId, jti: Jti, inst: Instance, asks: int): seq<Action> {
    [Begin(id, jti, inst)] + ([ReadUser(id)] + ([CheckFactor(id, true)] + Redeems(id, asks)))
  }

  function Redeems(id: CallId, asks: int): seq<Action> {
    [AskShared(id, asks, Answers)] + ([AskLocal(id, asks, asks)] + ([Issue(id, true)] + []))
  }

  /** The user of the challenge exists, has the second factor on and has not been signed out since the challenge was given. */
  predicate Ready(w: World, s: State, jti: Jti) {
    var user := w.claims(jti).user;
    user in s.users && s.users[user].totpEnabled && s.users[user].epoch == w.claims(jti).epoch
  }

  /** Nothing alive is recorded of the challenge where it is asked for. */
  predicate Unburned(w: World, s: State, jti: Jti, inst: Instance, asks: int) {
    && !Burned(s.shared, asks, jti) && !Burned(LocalOf(s, inst).spent, Local(w, inst, asks), jti)
  }

  lemma RedeemsInTime(w: World, s: State, id: CallId, asks: int)
    requires id in s.calls && s.calls[id].stage.AtShared? && s.calls[id].ttl > 0 && s.calls[id].asOf <= asks
    requires s.now <= asks < s.calls[id].validatedAt + w.delay
    requires Unburned(w, s, s.calls[id].jti, s.calls[id].inst, asks)
    ensures Legal(w, s, Redeems(id, asks))
    ensures var t, c := After(w, s, Redeems(id, asks)), s.calls[id];
            && t.now == asks && t.users == s.users && t.sessions == s.sessions[id := c.jti]
            && t.calls == s.calls[id := c.(stage := Done(true), asOf := asks, shared := Granted, local := Granted)]
            && t.shared == s.shared[c.jti := Entry((), asks + c.ttl)]
            && (forall i: Instance, k: Jti :: k in LocalOf(t, i).spent ==>
                  (k in LocalOf(s, i).spent && LocalOf(t, i).spent[k] == LocalOf(s, i).spent[k])
                  || (k == c.jti && i == c.inst && LocalOf(t, i).spent[k].expiresAt == Local(w, i, asks) + c.ttl))
  {
    var a, b, c := AskShared(id, asks, Answers), AskLocal(id, asks, asks), Issue(id, true);
    var s1 := Apply(w, s, a);
    var s2 := Apply(w, s1, b);
    OneMore(w, s2, c, []);
    OneMore(w, s1, b, [c] + []);
    OneMore(w, s, a, [b] + ([c] + []));
  }

  /** A verify up to its first question to a guard. */
  lemma ComesToShared(w: World, s: State, id: CallId, jti: Jti, inst: Instance, rest: seq<Action>) returns (s3: State)
    requires id !in s.calls && Local(w, inst, s.now) <= Expiry(w, jti) && Ready(w, s, jti)
    ensures var ttl := Expiry(w, jti) - Local(w, inst, s.now) + CHALLENGE_BURN_SLACK;
            s3 == s.(calls := s.calls[id := Verify(jti, inst, AtShared, s.now, s.now, ttl, NotAsked, NotAsked)])
    ensures Legal(w, s3, rest) ==>
              var run := [Begin(id, jti, inst)] + ([ReadUser(id)] + ([CheckFactor(id, true)] + rest));
              Legal(w, s, run) && After(w, s, run) == After(w, s3, rest)
  {
    var a, b, c := Begin(id, jti, inst), ReadUser(id), CheckFactor(id, true);
    var s1 := Apply(w, s, a);
    var s2 := Apply(w, s1, b);
    s3 := Apply(w, s2, c);
    if Legal(w, s3, rest) {
      OneMore(w, s2, c, rest);
      OneMore(w, s1, b, [c] + rest);
      OneMore(w, s, a, [b] + ([c] + rest));
    }
  }

  lemma VerifiesInTime(w: World, s: State, id: CallId, jti: Jti, inst: Instance, asks: int)
    requires id !in s.calls && Local(w, inst, s.now) <= Expiry(w, jti) && Ready(w, s, jti)
    requires s.now <= asks < s.now + w.delay && Unburned(w, s, jti, inst, asks)
    ensures Legal(w, s, Verified(id, jti, inst, asks))
    ensures var t := After(w, s, Verified(id, jti, inst, asks));
            var expires := asks - s.now + Expiry(w, jti) + CHALLENGE_BURN_SLACK;
            && t.now == asks && t.users == s.users && t.sessions == s.sessions[id := jti]
            && t.calls.Keys == s.calls.Keys + {id} && (forall other <- s.calls :: other != id ==> t.calls[other] == s.calls[other])
            && t.calls[id].jti == jti && t.calls[id].inst == inst && t.calls[id].shared.Granted?
            && jti in t.shared && Local(w, inst, t.shared[jti].expiresAt) == expires
            && (forall i: Instance :: jti in LocalOf(t, i).spent ==>
                  (jti in LocalOf(s, i).spent && LocalOf(t, i).spent[jti] == LocalOf(s, i).spent[jti])
                  || (i == inst && LocalOf(t, i).spent[jti].expiresAt == expires))
  {
    hide Apply, Enabled, Redeem, RedeemRef, SharedRedeem;
    var s3 := ComesToShared(w, s, id, jti, inst, Redeems(id, asks));
    RedeemsInTime(w, s3, id, asks);
  }

  /** i redeems the challenge, at a moment when it is valid there: its records go at its expiry and the slack. */
  lemma FirstMint(w: World, i: Instance, jti: Jti, start: int) returns (run: seq<Action>)
    requires w.delay > 0 && Local(w, i, start) <= Expiry(w, jti)
    ensures Legal(w, Initial(start), run)
    ensures var t, dead := After(w, Initial(start), run), Expiry(w, jti) + CHALLENGE_BURN_SLACK;
            && t.now == start && Ready(w, t, jti) && t.sessions == map[1 := jti]
            && t.calls.Keys == {1} && t.calls[1].jti == jti && t.calls[1].inst == i && t.calls[1].shared.Granted?
            && jti in t.shared && Local(w, i, t.shared[jti].expiresAt) == dead
            && (forall k: Instance :: jti in LocalOf(t, k).spent ==> k == i && LocalOf(t, k).spent[jti].expiresAt == dead)
  {
    var user := WriteUser(w.claims(jti).user, User(w.claims(jti).epoch, true));
    var s0 := Apply(w, Initial(start), user);
    OneMore(w, Initial(start), user, []);
    VerifiesInTime(w, s0, 1, jti, i, start);
    RunsCompose(w, Initial(start), [user] + [], Verified(1, jti, i, start));
    run := [user] + [] + Verified(1, jti, i, start);
  }

  /**
   * With a longer delay, or clocks further apart, one challenge mints twice
   * though every guard answers: i redeems it, and j, which validated it at the
   * last moment by its own clock, redeems it when the records have gone.
   */
  lemma MintsTwice(w: World, i: Instance, j: Instance, jti: Jti) returns (s: State)
    requires w.delay > 0 && w.skew(i) - w.skew(j) + w.delay > CHALLENGE_BURN_SLACK
    ensures Reachable(w, s) && AlwaysAnswered(s, jti)
    ensures 1 in s.sessions && 2 in s.sessions && s.sessions[1] == s.sessions[2] == jti
    ensures 1 in s.calls && 2 in s.calls && s.calls[1].inst == i && s.calls[2].inst == j
  {
    var dead := Expiry(w, jti) + CHALLENGE_BURN_SLACK - w.skew(i);
    var last := Expiry(w, jti) - w.skew(j);
    var start := if last < Expiry(w, jti) - w.skew(i) then last else Expiry(w, jti) - w.skew(i);
    var asks := if dead < last then last else dead;
    var first := FirstMint(w, i, jti, start);
    var s1 := After(w, Initial(start), first);
    var s2 := Apply(w, s1, Tick(last));
    OneMore(w, s1, Tick(last), []);
    RunsCompose(w, Initial(start), first, [Tick(last)] + []);
    assert LocalOf(s2, j) == LocalOf(s1, j);
    VerifiesInTime(w, s2, 2, jti, j, asks);
    hide Legal, After, Apply;
    RunsCompose(w, Initial(start), first + ([Tick(last)] + []), Verified(2, jti, j, asks));
    s := After(w, s2, Verified(2, jti, j, asks));
  }

  /** On one instance, whatever the outages: one session per challenge exactly when redeemed within the slack of validation. */
  lemma InstanceBoundExact(w: World)
    ensures (forall s :: Reachable(w, s) ==> OnceOnInstance(s)) <==> w.delay <= CHALLENGE_BURN_SLACK
  {
    if w.delay <= CHALLENGE_BURN_SLACK {
      forall s | Reachable(w, s) ensures OnceOnInstance(s) {
        MintsOncePerInstance(w, s);
      }
    } else {
      var s := MintsTwice(w, 0, 0, 0);
      assert !OnceOnInstance(s);
    }
  }

  /** Across instances, while the shared guard answers: exactly when delay and clock difference together are within the slack. */
  lemma SharedBoundExact(w: World)
    ensures (forall s :: Reachable(w, s) ==> OnceWhileAnswered(s)) <==> Across(w)
  {
    if Across(w) {
      forall s | Reachable(w, s) ensures OnceWhileAnswered(s) {
        ChallengeMintsOnce(w, s);
      }
    } else {
      var i: Instance, j: Instance :| w.skew(i) - w.skew(j) + w.delay > CHALLENGE_BURN_SLACK;
      var s := MintsTwice(w, i, j, 0);
      assert !OnceWhileAnswered(s);
    }
  }

  /** The user's epoch has moved past the challenge's, and the call has not read it yet or has been refused. */
  ghost predicate Stale(w: World, s: State, id: CallId, jti: Jti) {
    && w.claims(jti).user in s.users && w.claims(jti).epoch < s.users[w.claims(jti).user].epoch
    && (id in s.calls && s.calls[id].jti == jti ==> s.calls[id].stage.AtUser? || s.calls[id].stage == Done(false))
    && (id in s.sessions ==> s.sessions[id] != jti)
  }

  lemma ApplyKeepsStale(w: World, s: State, a: Action, id: CallId, jti: Jti)
    requires Stale(w, s, id, jti) && Enabled(w, s, a)
    ensures Stale(w, Apply(w, s, a), id, jti)
  {
  }

  /**
   * A challenge dies with the session epoch: once the user's epoch has moved
   * since the password step, no verify that has yet to read the user mints a
   * session for it, however often it is retried.
   */
  lemma {:induction false} MovedEpochKillsChallenge(w: World, s: State, run: seq<Action>, id: CallId, jti: Jti)
    requires Stale(w, s, id, jti) && Legal(w, s, run)
    ensures id in After(w, s, run).sessions ==> After(w, s, run).sessions[id] != jti
    decreases |run|
  {
    if run != [] {
      ApplyKeepsStale(w, s, run[0], id, jti);
      MovedEpochKillsChallenge(w, Apply(w, s, run[0]), run[1..], id, jti);
    }
  }

  // -------------------------------------------------------- the second factor

  lemma {:induction false} RunKeepsBase(w: World, s: State, run: seq<Action>)
    requires BaseInv(w, s) && Legal(w, s, run)
    ensures BaseInv(w, After(w, s, run))
    decreases |run|
  {
    if run != [] {
      StepKeepsBase(w, s, run[0]);
      hide BaseInv;
      RunKeepsBase(w, Apply(w, s, run[0]), run[1..]);
    }
  }

  /** Past the second factor, on the way to a session or with one. */
  predicate PastFactor(c: Verify) { c.stage.AtShared? || c.stage.AtLocal? || c.stage.AtIssue? || c.stage == Done(true) }

  /** Somewhere in the run the call read its user, and found it so. */
  ghost predicate ReadAndAllowed(w: World, s: State, run: seq<Action>, id: CallId, jti: Jti)
    requires Legal(w, s, run)
    decreases |run|
  {
    run != [] && ((run[0] == ReadUser(id) && Ready(w, s, jti)) || ReadAndAllowed(w, Apply(w, s, run[0]), run[1..], id, jti))
  }

  /** One action takes a call past the factor only by checking it, and past the user only by reading it. */
  lemma OnlyByChecking(w: World, s: State, a: Action, id: CallId)
    requires Enabled(w, s, a) && id in Apply(w, s, a).calls
    ensures id in s.calls ==> Apply(w, s, a).calls[id].jti == s.calls[id].jti
    ensures PastFactor(Apply(w, s, a).calls[id]) ==> id in s.calls && (PastFactor(s.calls[id]) || a == CheckFactor(id, true))
    ensures PastUser(Apply(w, s, a).calls[id]) ==>
              && id in s.calls
              && (PastUser(s.calls[id]) || (a == ReadUser(id) && Ready(w, s, s.calls[id].jti)))
  {
    hide Redeem, SharedRedeem;
  }

  lemma {:induction false} FactorWasChecked(w: World, s: State, run: seq<Action>, id: CallId)
    requires Legal(w, s, run) && id in After(w, s, run).calls && PastFactor(After(w, s, run).calls[id])
    requires id in s.calls ==> !PastFactor(s.calls[id])
    ensures CheckFactor(id, true) in run
    decreases |run|
  {
    hide Apply, Enabled, PastFactor, Ready;
    if run != [] {
      var t := Apply(w, s, run[0]);
      if id in t.calls && PastFactor(t.calls[id]) {
        OnlyByChecking(w, s, run[0], id);
        assert run[0] in run;
      } else {
        FactorWasChecked(w, t, run[1..], id);
        assert CheckFactor(id, true) in run[1..];
      }
    }
  }

  /** At the factor or past it: the user has been read. */
  predicate PastUser(c: Verify) { PastFactor(c) || c.stage.AtFactor? }

  lemma {:induction false} UserWasRead(w: World, s: State, run: seq<Action>, id: CallId)
    requires Legal(w, s, run) && id in After(w, s, run).calls && PastUser(After(w, s, run).calls[id])
    requires id in s.calls ==> !PastUser(s.calls[id])
    ensures ReadAndAllowed(w, s, run, id, After(w, s, run).calls[id].jti)
    decreases |run|
  {
    hide Apply, Enabled, PastUser, Ready;
    if run != [] {
      var t := Apply(w, s, run[0]);
      if id in t.calls && PastUser(t.calls[id]) {
        OnlyByReading(w, s, run[0], id);
        JtiStays(w, t, run[1..], id);
      } else {
        UserWasRead(w, t, run[1..], id);
      }
    }
  }

  lemma OnlyByReading(w: World, s: State, a: Action, id: CallId)
    requires Enabled(w, s, a) && id in Apply(w, s, a).calls && PastUser(Apply(w, s, a).calls[id])
    requires id in s.calls ==> !PastUser(s.calls[id])
    ensures a == ReadUser(id) && Ready(w, s, Apply(w, s, a).calls[id].jti)
  {
    OnlyByChecking(w, s, a, id);
    hide Apply;
  }

  lemma {:induction false} JtiStays(w: World, s: State, run: seq<Action>, id: CallId)
    requires Legal(w, s, run) && id in s.calls
    ensures id in After(w, s, run).calls && After(w, s, run).calls[id].jti == s.calls[id].jti
    decreases |run|
  {
    hide Apply, Enabled;
    if run != [] {
      OneKeepsJti(w, s, run[0], id);
      JtiStays(w, Apply(w, s, run[0]), run[1..], id);
    }
  }

  lemma OneKeepsJti(w: World, s: State, a: Action, id: CallId)
    requires Enabled(w, s, a) && id in s.calls
    ensures id in Apply(w, s, a).calls && Apply(w, s, a).calls[id].jti == s.calls[id].jti
  {
    hide Redeem, SharedRedeem;
  }

  /**
   * No session without the second factor: whoever has one, which is whoever is
   * told so, checked it with success, after reading a user that had it on and
   * was not signed out since.
   */
  lemma SessionNeedsFactor(w: World, start: int, run: seq<Action>, id: CallId)
    requires Legal(w, Initial(start), run)
    ensures var s := After(w, Initial(start), run);
            && (id in s.sessions <==> id in s.calls && s.calls[id].stage == Done(true))
            && (id in s.sessions ==>
                  && s.calls[id].jti == s.sessions[id]
                  && CheckFactor(id, true) in run && ReadAndAllowed(w, Initial(start), run, id, s.sessions[id]))
  {
    RunKeepsBase(w, Initial(start), run);
    RunNoneWithout(w, Initial(start), run);
    if id in After(w, Initial(start), run).sessions {
      CheckedAndRead(w, start, run, id);
    }
  }

  lemma CheckedAndRead(w: World, start: int, run: seq<Action>, id: CallId)
    requires Legal(w, Initial(start), run) && id in After(w, Initial(start), run).calls
    requires After(w, Initial(start), run).calls[id].stage == Done(true)
    ensures CheckFactor(id, true) in run
    ensures ReadAndAllowed(w, Initial(start), run, id, After(w, Initial(start), run).calls[id].jti)
  {
    FactorWasChecked(w, Initial(start), run, id);
    UserWasRead(w, Initial(start), run, id);
  }

  lemma StepNoneWithout(w: World, s: State, a: Action)
    requires Enabled(w, s, a) && NoneWithout(s)
    ensures NoneWithout(Apply(w, s, a))
  {
    hide Redeem, SharedRedeem;
  }

  lemma {:induction false} RunNoneWithout(w: World, s: State, run: seq<Action>)
    requires Legal(w, s, run) && NoneWithout(s)
    ensures NoneWithout(After(w, s, run))
    decreases |run|
  {
    hide Apply, Enabled, NoneWithout;
    if run != [] {
      StepNoneWithout(w, s, run[0]);
      RunNoneWithout(w, Apply(w, s, run[0]), run[1..]);
    }
  }

  predicate Asks(a: Action, id: CallId) { (a.AskShared? || a.AskLocal?) && a.id == id }

  lemma OneLeavesDone(w: World, s: State, a: Action, id: CallId)
    requires Enabled(w, s, a) && id in s.calls && s.calls[id].stage == Done(false)
    ensures !Asks(a, id) && id in Apply(w, s, a).calls && Apply(w, s, a).calls[id] == s.calls[id]
    ensures id in Apply(w, s, a).sessions ==> id in s.sessions
  {
    hide Redeem, SharedRedeem;
  }

  lemma {:induction false} DoneStays(w: World, s: State, run: seq<Action>, id: CallId)
    requires Legal(w, s, run) && id in s.calls && s.calls[id].stage == Done(false)
    ensures var t := After(w, s, run);
            id in t.calls && t.calls[id] == s.calls[id] && (id in t.sessions ==> id in s.sessions)
    ensures forall a <- run :: !Asks(a, id)
    decreases |run|
  {
    hide Apply, Enabled, Asks;
    if run != [] {
      OneLeavesDone(w, s, run[0], id);
      DoneStays(w, Apply(w, s, run[0]), run[1..], id);
      forall a | a in run ensures !Asks(a, id) {
        assert a == run[0] || a in run[1..];
      }
    }
  }

  /** A wrong code costs the challenge nothing: the guards are as they were, and this call never asks them. */
  lemma WrongCodeBurnsNothing(w: World, s: State, id: CallId, run: seq<Action>)
    requires Enabled(w, s, CheckFactor(id, false)) && Legal(w, Apply(w, s, CheckFactor(id, false)), run)
    ensures var t := Apply(w, s, CheckFactor(id, false));
            && t.shared == s.shared && t.locals == s.locals && t.sessions == s.sessions
            && id in After(w, t, run).calls && After(w, t, run).calls[id].stage == Done(false)
            && (id in After(w, t, run).sessions ==> id in s.sessions)
    ensures forall a <- run :: !Asks(a, id)
  {
    DoneStays(w, Apply(w, s, CheckFactor(id, false)), run, id);
  }
}
