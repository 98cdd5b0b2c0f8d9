/**
 * Where a digest is mailed twice: after a change of the schedule or of the
 * frequency, and when a run stalls between reading its clock and claiming.
 * Which plans may follow one another, and how long a run may stall under them,
 * is settled exactly.
 */
module DigestResend {
  import opened Wrappers
  import opened DigestPeriod
  import opened DigestSend
  import Calendar

  // ----------------------------------------------------------- claims in time

  /**
   * How far a run's clock may be ahead of the claim it makes, and how far
   * behind it: a fast clock, and a stall (the listing, the users before this
   * one, the pauses between mails) or a slow clock.
   */
  datatype Leeway = Leeway(early: nat, late: nat)

  predicate InTime(s: State, a: Action, w: Leeway) {
    a.Claim? && a.run < |s.runs| && s.runs[a.run].Waiting? ==>
      s.runs[a.run].read - w.early <= s.now <= s.runs[a.run].read + w.late
  }

  ghost predicate Prompt(s: State, acts: seq<Action>, w: Leeway)
    requires Legal(s, acts)
    decreases |acts|
  {
    acts == [] || (InTime(s, acts[0], w) && Prompt(Apply(s, acts[0]), acts[1..], w))
  }

  /** Every listing was under one of the plans, in any order: the schedule and the frequency may change at any time. */
  predicate Among(plans: set<Plan>, acts: seq<Action>) {
    forall a <- acts :: a.List? ==> a.plan in plans
  }

  predicate AllValid(plans: set<Plan>) { forall p <- plans :: ValidPlan(p) }

  // -------------------------------------------------------------- detours

  /** A period and a clock reading at which it is due. */
  datatype Moment = Moment(slot: int, key: string, at: int)

  ghost predicate DueBy(p: Plan, m: Moment) {
    Latest(p.freq, p.cfg, m.at, m.slot) && m.at - m.slot < SEND_GRACE && m.key == Key(p, m.slot)
  }

  ghost predicate Due(plans: set<Plan>, m: Moment) {
    exists p <- plans :: DueBy(p, m)
  }

  /** Claims can be made at both moments, in this order. */
  predicate Then(a: Moment, b: Moment, w: Leeway) { a.at - w.early <= b.at + w.late }

  /** One period is due, then another, then the first one again. */
  ghost predicate Detour(plans: set<Plan>, w: Leeway, v: Moment, u: Moment, t: Moment) {
    && Due(plans, v) && Due(plans, u) && Due(plans, t) && v.key == t.key != u.key
    && Then(v, u, w) && Then(u, t, w) && Then(v, t, w)
  }

  ghost predicate Crossed(plans: set<Plan>, w: Leeway) {
    exists v, u, t :: Detour(plans, w, v, u, t)
  }

  // -------------------------------------------------------------- invariant

  /** It was due by now; and while its key can still come due, last_period holds it. */
  ghost predicate Guarded(plans: set<Plan>, w: Leeway, s: State, slot: int, key: string) {
    && (exists v :: Due(plans, v) && v.slot == slot && v.key == key && v.at - w.early <= s.now)
    && (forall t :: Due(plans, t) && t.key == key && s.now <= t.at + w.late ==> s.last == Some(key))
  }

  ghost predicate AllGuarded(plans: set<Plan>, w: Leeway, s: State) {
    && (forall i :: 0 <= i < |s.settled| ==> Guarded(plans, w, s, s.settled[i].slot, s.settled[i].key))
    && (forall i :: 0 <= i < |s.runs| && Holds(s.runs[i]) ==> Guarded(plans, w, s, s.runs[i].slot, s.runs[i].key))
  }

  /** No period is mailed, found empty or held twice. */
  predicate KeysDiffer(s: State) {
    && (forall i, j :: 0 <= i < j < |s.settled| ==> s.settled[i].key != s.settled[j].key)
    && (forall i, j :: 0 <= i < |s.runs| && 0 <= j < |s.settled| && Holds(s.runs[i]) ==> s.runs[i].key != s.settled[j].key)
    && (forall i, j :: 0 <= i < j < |s.runs| && Holds(s.runs[i]) && Holds(s.runs[j]) ==> s.runs[i].key != s.runs[j].key)
  }

  function ReadBy(r: Run): Moment
    requires r.Waiting?
  {
    Moment(r.slot, r.key, r.read)
  }

  ghost predicate DetourInv(plans: set<Plan>, w: Leeway, s: State) {
    && KeysDiffer(s) && AllGuarded(plans, w, s)
    && (forall i :: 0 <= i < |s.runs| && s.runs[i].Waiting? ==> Due(plans, ReadBy(s.runs[i])))
  }

  /** A claim that goes through finds nothing taken under its key, and comes after the last time anything taken can come due. */
  lemma ClaimGuards(plans: set<Plan>, w: Leeway, s: State, a: Action, slot: int, key: string)
    requires !Crossed(plans, w) && a.Claim? && Enabled(s, a) && InTime(s, a, w) && Guarded(plans, w, s, slot, key)
    requires Due(plans, ReadBy(s.runs[a.run])) && Apply(s, a).last != s.last
    ensures key != s.runs[a.run].key && Guarded(plans, w, Apply(s, a), slot, key)
  {
    hide Due, PeriodAt;
    var u := ReadBy(s.runs[a.run]);
    assert key == u.key ==> s.last == Some(key);
    var v :| Due(plans, v) && v.slot == slot && v.key == key && v.at - w.early <= s.now;
    forall t ensures !(Due(plans, t) && t.key == key && s.now <= t.at + w.late) {
      assert !Detour(plans, w, v, u, t);
    }
  }

  lemma ClaimKeepsDetourInv(plans: set<Plan>, w: Leeway, s: State, a: Action)
    requires !Crossed(plans, w) && a.Claim? && Enabled(s, a) && InTime(s, a, w) && DetourInv(plans, w, s)
    ensures DetourInv(plans, w, Apply(s, a))
  {
    hide Due, Crossed, PeriodAt;
    var t, r := Apply(s, a), s.runs[a.run];
    if t.last != s.last {
      assert Due(plans, ReadBy(r)) && Guarded(plans, w, t, r.slot, r.key);
      forall i | 0 <= i < |s.settled| ensures s.settled[i].key != r.key && Guarded(plans, w, t, s.settled[i].slot, s.settled[i].key) {
        ClaimGuards(plans, w, s, a, s.settled[i].slot, s.settled[i].key);
      }
      forall i | 0 <= i < |s.runs| && Holds(s.runs[i])
        ensures s.runs[i].key != r.key && Guarded(plans, w, t, s.runs[i].slot, s.runs[i].key)
      {
        ClaimGuards(plans, w, s, a, s.runs[i].slot, s.runs[i].key);
      }
    }
  }

  /** A release takes last_period from nobody but its own run. */
  lemma ReleaseKeepsDetourInv(plans: set<Plan>, w: Leeway, s: State, a: Action)
    requires a.Release? && Enabled(s, a) && DetourInv(plans, w, s)
    ensures DetourInv(plans, w, Apply(s, a))
  {
    hide Due, PeriodAt;
    var t, r := Apply(s, a), s.runs[a.run];
    forall i | 0 <= i < |s.settled| ensures Guarded(plans, w, t, s.settled[i].slot, s.settled[i].key) {
      assert Guarded(plans, w, s, s.settled[i].slot, s.settled[i].key) && s.settled[i].key != r.key;
    }
    forall i | 0 <= i < |t.runs| && Holds(t.runs[i]) ensures Guarded(plans, w, t, t.runs[i].slot, t.runs[i].key) {
      assert Guarded(plans, w, s, s.runs[i].slot, s.runs[i].key) && s.runs[i].key != r.key;
    }
  }

  lemma GuardedStill(plans: set<Plan>, w: Leeway, s: State, t: State, slot: int, key: string)
    requires Guarded(plans, w, s, slot, key) && s.now <= t.now && t.last == s.last
    ensures Guarded(plans, w, t, slot, key)
  {
    hide Due;
  }

  /** Nothing is newly held, and time and last_period do not work against what is. */
  lemma NoClaimKeepsGuards(plans: set<Plan>, w: Leeway, s: State, a: Action)
    requires !a.Claim? && !a.Release? && Enabled(s, a) && AllGuarded(plans, w, s)
    ensures AllGuarded(plans, w, Apply(s, a))
  {
    var t := Apply(s, a);
    hide PeriodAt, Guarded;
    forall i | 0 <= i < |t.settled| ensures Guarded(plans, w, t, t.settled[i].slot, t.settled[i].key) {
      if i < |s.settled| {
        GuardedStill(plans, w, s, t, s.settled[i].slot, s.settled[i].key);
      } else {
        GuardedStill(plans, w, s, t, s.runs[a.run].slot, s.runs[a.run].key);
      }
    }
    forall i | 0 <= i < |t.runs| && Holds(t.runs[i]) ensures Guarded(plans, w, t, t.runs[i].slot, t.runs[i].key) {
      GuardedStill(plans, w, s, t, s.runs[i].slot, s.runs[i].key);
    }
  }

  lemma NoClaimKeepsKeys(s: State, a: Action)
    requires !a.Claim? && Enabled(s, a) && KeysDiffer(s)
    ensures KeysDiffer(Apply(s, a))
  {
    hide PeriodAt, Latest;
  }

  lemma NoClaimKeepsReadings(plans: set<Plan>, s: State, a: Action, i: nat)
    requires Enabled(s, a) && (a.List? ==> a.plan in plans) && i < |Apply(s, a).runs| && Apply(s, a).runs[i].Waiting?
    requires i < |s.runs| && s.runs[i].Waiting? ==> Due(plans, ReadBy(s.runs[i]))
    ensures Due(plans, ReadBy(Apply(s, a).runs[i]))
  {
    if a.List? && a.run == i {
      assert DueBy(a.plan, ReadBy(Apply(s, a).runs[i]));
    }
  }

  lemma OtherKeepsDetourInv(plans: set<Plan>, w: Leeway, s: State, a: Action)
    requires !a.Claim? && !a.Release? && Enabled(s, a) && (a.List? ==> a.plan in plans) && DetourInv(plans, w, s)
    ensures DetourInv(plans, w, Apply(s, a))
  {
    hide Apply, Enabled, KeysDiffer, AllGuarded, Due;
    NoClaimKeepsGuards(plans, w, s, a);
    NoClaimKeepsKeys(s, a);
    forall i | 0 <= i < |Apply(s, a).runs| && Apply(s, a).runs[i].Waiting? ensures Due(plans, ReadBy(Apply(s, a).runs[i])) {
      NoClaimKeepsReadings(plans, s, a, i);
    }
  }

  lemma {:induction false} RunKeepsDetourInv(plans: set<Plan>, w: Leeway, s: State, acts: seq<Action>)
    requires !Crossed(plans, w) && DetourInv(plans, w, s) && Legal(s, acts) && Prompt(s, acts, w) && Among(plans, acts)
    ensures DetourInv(plans, w, After(s, acts))
    decreases |acts|
  {
    hide DetourInv, Crossed, Enabled, Apply, InTime;
    if acts != [] {
      assert acts[0] in acts;
      match acts[0] {
        case Claim(_, _) => ClaimKeepsDetourInv(plans, w, s, acts[0]);
        case Release(_, _) => ReleaseKeepsDetourInv(plans, w, s, acts[0]);
        case _ => OtherKeepsDetourInv(plans, w, s, acts[0]);
      }
      RunKeepsDetourInv(plans, w, Apply(s, acts[0]), acts[1..]);
    }
  }

  // ---------------------------------------------------------- building runs

  lemma {:induction false} RunsCompose(s: State, a: seq<Action>, b: seq<Action>, w: Leeway)
    requires Legal(s, a) && Legal(After(s, a), b)
    ensures Legal(s, a + b) && After(s, a + b) == After(After(s, a), b)
    ensures Prompt(s, a, w) && Prompt(After(s, a), b, w) ==> Prompt(s, a + b, w)
    decreases |a|
  {
    if a == [] {
      assert a + b == b;
    } else {
      assert (a + b)[1..] == a[1..] + b && (a + b)[0] == a[0];
      RunsCompose(Apply(s, a[0]), a[1..], b, w);
    }
  }

  lemma TwoSteps(s: State, a: Action, b: Action, w: Leeway)
    requires Enabled(s, a) && Enabled(Apply(s, a), b)
    ensures Legal(s, [a, b]) && After(s, [a, b]) == Apply(Apply(s, a), b)
    ensures InTime(s, a, w) && InTime(Apply(s, a), b, w) ==> Prompt(s, [a, b], w)
  {
    var t := Apply(Apply(s, a), b);
    assert [a, b][1..] == [b] && [b][1..] == [];
    assert Legal(t, []) && Prompt(t, [], w);
    assert Legal(Apply(s, a), [b]) && After(Apply(s, a), [b]) == t;
  }

  /** A run whose clock shows `read` at time `at` does all its steps at once. */
  function Solo(i: nat, plan: Plan, at: int, read: int, slot: int): seq<Action> {
    [Tick(at), Begin] + [List(i, plan, read, slot), Claim(i, Fine)] + [Send(i, true)]
  }

  /** It mails a due period whose key is not the last one. */
  lemma SoloRun(s: State, plan: Plan, at: int, read: int, slot: int, w: Leeway)
    requires ValidPlan(plan) && Latest(plan.freq, plan.cfg, read, slot) && read - slot < SEND_GRACE
    requires s.now <= at && !s.off && s.last != Some(Key(plan, slot))
    ensures Legal(s, Solo(|s.runs|, plan, at, read, slot))
    ensures read - w.early <= at <= read + w.late ==> Prompt(s, Solo(|s.runs|, plan, at, read, slot), w)
    ensures var t := After(s, Solo(|s.runs|, plan, at, read, slot));
            && t.now == at && !t.off && t.last == Some(Key(plan, slot))
            && t.settled == s.settled + [Digest(slot, Key(plan, slot))]
            && |t.runs| == |s.runs| + 1 && t.runs[..|s.runs|] == s.runs
  {
    hide PeriodAt, Latest;
    var i := |s.runs|;
    var list, claim, send := List(i, plan, read, slot), Claim(i, Fine), Send(i, true);
    TwoSteps(s, Tick(at), Begin, w);
    var s2 := Apply(Apply(s, Tick(at)), Begin);
    TwoSteps(s2, list, claim, w);
    var s4 := Apply(Apply(s2, list), claim);
    LastStep(s4, send, w);
    RunsCompose(s, [Tick(at), Begin], [list, claim], w);
    RunsCompose(s, [Tick(at), Begin] + [list, claim], [send], w);
  }

  lemma LastStep(s: State, a: Action, w: Leeway)
    requires Enabled(s, a)
    ensures Legal(s, [a]) && After(s, [a]) == Apply(s, a) && (InTime(s, a, w) ==> Prompt(s, [a], w))
  {
    assert [a][1..] == [];
    assert Legal(Apply(s, a), []) && Prompt(Apply(s, a), [], w);
  }

  /** Three runs on their own, each for a period with another key than the one before. */
  lemma ThreeRuns(p: Plan, q: Plan, r: Plan, v: Moment, u: Moment, t: Moment, vt: int, ut: int, tt: int, w: Leeway)
    requires ValidPlan(p) && ValidPlan(q) && ValidPlan(r) && DueBy(p, v) && DueBy(q, u) && DueBy(r, t)
    requires v.key != u.key && u.key != t.key && vt <= ut <= tt && Within(v, vt, w) && Within(u, ut, w) && Within(t, tt, w)
    ensures var acts := Solo(0, p, vt, v.at, v.slot) + Solo(1, q, ut, u.at, u.slot) + Solo(2, r, tt, t.at, t.slot);
            && Legal(Initial(vt), acts) && Prompt(Initial(vt), acts, w)
            && After(Initial(vt), acts).settled == [Digest(v.slot, v.key), Digest(u.slot, u.key), Digest(t.slot, t.key)]
  {
    hide PeriodAt, Latest;
    var s := Initial(vt);
    var a, b, c := Solo(0, p, vt, v.at, v.slot), Solo(1, q, ut, u.at, u.slot), Solo(2, r, tt, t.at, t.slot);
    SoloRun(s, p, vt, v.at, v.slot, w);
    hide Solo;
    SoloRun(After(s, a), q, ut, u.at, u.slot, w);
    RunsCompose(s, a, b, w);
    SoloRun(After(s, a + b), r, tt, t.at, t.slot, w);
    RunsCompose(s, a + b, c, w);
  }

  lemma AmongThree(plans: set<Plan>, p: Plan, q: Plan, r: Plan, v: Moment, u: Moment, t: Moment, vt: int, ut: int, tt: int)
    requires p in plans && q in plans && r in plans
    ensures Among(plans, Solo(0, p, vt, v.at, v.slot) + Solo(1, q, ut, u.at, u.slot) + Solo(2, r, tt, t.at, t.slot))
  {
  }

  /** A claim for what is due at the moment can be made then. */
  predicate Within(m: Moment, at: int, w: Leeway) { m.at - w.early <= at <= m.at + w.late }

  /** A detour can be run, and its third run mails what the first did. */
  lemma DetourRuns(plans: set<Plan>, w: Leeway, v: Moment, u: Moment, t: Moment) returns (start: int, acts: seq<Action>)
    requires AllValid(plans) && Detour(plans, w, v, u, t)
    ensures Legal(Initial(start), acts) && Prompt(Initial(start), acts, w) && Among(plans, acts)
    ensures After(Initial(start), acts).settled == [Digest(v.slot, v.key), Digest(u.slot, u.key), Digest(t.slot, t.key)]
  {
    var p, q, r :| p in plans && q in plans && r in plans && DueBy(p, v) && DueBy(q, u) && DueBy(r, t);
    var vt := v.at - w.early;
    var ut := if vt < u.at - w.early then u.at - w.early else vt;
    var tt := if ut < t.at - w.early then t.at - w.early else ut;
    assert Within(v, vt, w) && Within(u, ut, w) && Within(t, tt, w);
    AmongThree(plans, p, q, r, v, u, t, vt, ut, tt);
    hide DueBy, Due, Legal, Prompt, After, ValidPlan, Among, Solo;
    ThreeRuns(p, q, r, v, u, t, vt, ut, tt, w);
    start, acts := vt, Solo(0, p, vt, v.at, v.slot) + Solo(1, q, ut, u.at, u.slot) + Solo(2, r, tt, t.at, t.slot);
  }

  // ---------------------------------------------------------- once, exactly

  predicate OnceEach(done: seq<Digest>) {
    forall i, j :: 0 <= i < j < |done| ==> done[i].key != done[j].key
  }

  /** No run under the plans, however they alternate, mails a period twice. */
  ghost predicate AlwaysOnceAmong(plans: set<Plan>, w: Leeway) {
    forall start, acts ::
      Legal(Initial(start), acts) && Among(plans, acts) && Prompt(Initial(start), acts, w) ==>
      OnceEach(After(Initial(start), acts).settled)
  }

  /** Whatever the plans: once each, exactly when no period can come due again after another one did. */
  lemma DetoursExactly(plans: set<Plan>, w: Leeway)
    requires AllValid(plans)
    ensures AlwaysOnceAmong(plans, w) <==> !Crossed(plans, w)
  {
    if Crossed(plans, w) {
      var v, u, t :| Detour(plans, w, v, u, t);
      var start, acts := DetourRuns(plans, w, v, u, t);
      var done := After(Initial(start), acts).settled;
      assert done[0].key == done[2].key;
    } else {
      forall start, acts | Legal(Initial(start), acts) && Among(plans, acts) && Prompt(Initial(start), acts, w)
        ensures OnceEach(After(Initial(start), acts).settled)
      {
        RunKeepsDetourInv(plans, w, Initial(start), acts);
      }
    }
  }

  // ------------------------------------------------ the plans as a calendar

  /** The least time between two sends of a plan; February is the shortest month. */
  function Gap(freq: Frequency): int { if freq.Weekly? then WEEK else 28 * DAY }

  /** How far into its week (from Monday on) or month a plan sends. */
  function Offset(p: Plan): int {
    if p.freq.Weekly? then (p.cfg.weekday + 6) % 7 * DAY + p.cfg.hour * HOUR else p.cfg.hour * HOUR
  }

  /** The week or month of a moment, and where it begins. */
  function Number(freq: Frequency, t: int): int {
    if freq.Weekly? then DayOf(t) / 7 else Calendar.MonthOf(DayOf(t))
  }

  function Begins(freq: Frequency, n: int): int {
    if freq.Weekly? then n * WEEK else Calendar.DaysBeforeMonth(n) * DAY
  }

  lemma SlotParts(p: Plan, slot: int)
    requires ValidPlan(p) && Slot(p.freq, p.cfg, slot)
    ensures slot == Begins(p.freq, Number(p.freq, slot)) + Offset(p)
  {
    hide Calendar.MonthOf, Calendar.DaysBeforeMonth;
    if p.freq.Weekly? {
      var day := DayOf(slot);
      assert slot == day * DAY + p.cfg.hour * HOUR;
      assert (day + 1) % 7 == p.cfg.weekday;
      assert day % 7 == (p.cfg.weekday + 6) % 7;
      assert day == day / 7 * 7 + day % 7;
    }
  }

  lemma BeginsApart(freq: Frequency, m: int, n: int)
    requires m < n
    ensures Begins(freq, m) + Gap(freq) <= Begins(freq, n)
  {
    hide Calendar.DaysBeforeMonth;
    if !freq.Weekly? {
      Calendar.MonthsGrow(m, n);
    }
  }

  /** Two sends of one frequency share a key exactly in one week or month. */
  lemma KeyIsNumber(freq: Frequency, s: int, t: int)
    requires !freq.Other?
    ensures PeriodAt(freq, s).key == PeriodAt(freq, t).key <==> Number(freq, s) == Number(freq, t)
  {
    hide Calendar.MonthOf, Calendar.DaysBeforeMonth, Calendar.ISOWeek, MonthKey, WeekKey;
    var a, b := Number(freq, s), Number(freq, t);
    if freq.Monthly? {
      if MonthKey(a - 1) == MonthKey(b - 1) {
        MonthKeysDiffer(a - 1, b - 1);
      }
    } else if a == b {
      Calendar.WeekShared(DayOf(s), DayOf(t));
    } else {
      Calendar.WeeksInOrder(if a < b then DayOf(s) else DayOf(t), if a < b then DayOf(t) else DayOf(s));
      if PeriodAt(freq, s).key == PeriodAt(freq, t).key {
        WeekKeysDiffer(Calendar.ISOWeek(DayOf(s)), Calendar.ISOWeek(DayOf(t)));
      }
    }
  }

  /** The send of week or month n is the latest one for at least the gap. */
  lemma LatestInGap(p: Plan, n: int, t: int)
    requires ValidPlan(p) && Begins(p.freq, n) + Offset(p) <= t < Begins(p.freq, n) + Offset(p) + Gap(p.freq)
    ensures Latest(p.freq, p.cfg, t, Begins(p.freq, n) + Offset(p)) && Number(p.freq, Begins(p.freq, n) + Offset(p)) == n
  {
    hide Latest, Calendar.MonthOf, Calendar.DaysBeforeMonth;
    if p.freq.Weekly? {
      WeekInGap(p, n, t);
    } else {
      MonthlySlotIn(p.cfg, n);
      MonthlySlotsGrow(p.cfg, n, n + 1);
      MonthlyLatest(p.cfg, t, n);
    }
  }

  lemma WeekInGap(p: Plan, n: int, t: int)
    requires ValidPlan(p) && p.freq.Weekly? && n * WEEK + Offset(p) <= t < n * WEEK + Offset(p) + WEEK
    ensures Latest(Weekly, p.cfg, t, n * WEEK + Offset(p)) && DayOf(n * WEEK + Offset(p)) / 7 == n
  {
    hide Latest;
    var into := (p.cfg.weekday + 6) % 7;
    var day := 7 * n + into;
    DayOfMoment(day, p.cfg.hour * HOUR);
    assert n * WEEK + Offset(p) == day * DAY + p.cfg.hour * HOUR;
    assert day / 7 == n && (day + 1) % 7 == (into + 1) % 7 == p.cfg.weekday;
    WeeklyLatest(p.cfg, t, n * WEEK + Offset(p));
  }

  function Abs(n: int): nat { if n < 0 then -n else n }

  /** What clock error and stall may come to under two plans of one frequency. */
  function Room(a: Plan, b: Plan): int { Gap(a.freq) - Abs(Offset(a) - Offset(b)) - SEND_GRACE }

  predicate Agree(a: Plan, b: Plan, w: Leeway) {
    a.freq == b.freq && w.early + w.late <= Room(a, b)
  }

  predicate AllAgree(plans: set<Plan>, w: Leeway) {
    forall a <- plans, b <- plans :: Agree(a, b, w)
  }

  /** Different periods of two plans that agree are not due one after the other the wrong way round. */
  lemma NotBefore(p: Plan, q: Plan, w: Leeway, early: Moment, late: Moment)
    requires ValidPlan(p) && ValidPlan(q) && Agree(p, q, w) && DueBy(p, early) && DueBy(q, late)
    requires Number(p.freq, early.slot) < Number(p.freq, late.slot)
    ensures !Then(late, early, w)
  {
    hide PeriodAt, Latest, Slot, Number, Begins, Offset;
    DueAtSlot(p, early);
    DueAtSlot(q, late);
    SlotParts(p, early.slot);
    SlotParts(q, late.slot);
    BeginsApart(p.freq, Number(p.freq, early.slot), Number(p.freq, late.slot));
  }

  lemma DueAtSlot(p: Plan, m: Moment)
    requires DueBy(p, m)
    ensures Slot(p.freq, p.cfg, m.slot) && m.slot <= m.at < m.slot + SEND_GRACE && m.key == PeriodAt(p.freq, m.slot).key
  {
  }

  lemma AgreedIsUncrossed(plans: set<Plan>, w: Leeway)
    requires AllValid(plans) && AllAgree(plans, w)
    ensures !Crossed(plans, w)
  {
    forall v, u, t ensures !Detour(plans, w, v, u, t) {
      if Detour(plans, w, v, u, t) {
        var p, q, r :| p in plans && q in plans && r in plans && DueBy(p, v) && DueBy(q, u) && DueBy(r, t);
        assert Agree(p, q, w) && Agree(r, q, w);
        hide Detour, Due, Agree, Latest, PeriodAt, Number;
        DueAtSlot(p, v);
        DueAtSlot(q, u);
        DueAtSlot(r, t);
        KeyIsNumber(p.freq, v.slot, u.slot);
        KeyIsNumber(p.freq, v.slot, t.slot);
        if Number(p.freq, v.slot) < Number(p.freq, u.slot) {
          NotBefore(r, q, w, t, u);
        } else {
          NotBefore(q, p, w, u, v);
        }
        assert false;
      }
    }
  }

  /** Where two plans of one frequency leave too little room: the one that sends late in its week or month, then the other in the next. */
  lemma TooLittleRoom(late: Plan, soon: Plan, w: Leeway) returns (x: Moment, y: Moment)
    requires ValidPlan(late) && ValidPlan(soon) && late.freq == soon.freq && Offset(soon) <= Offset(late)
    requires w.early + w.late > Room(late, soon)
    ensures DueBy(late, x) && DueBy(soon, y) && x.key != y.key && Then(x, y, w) && Then(y, x, w)
  {
    hide PeriodAt, Latest, Number, Calendar.DaysBeforeMonth;
    OffsetsWithin(late, soon);
    var n := ClosestBegins(late.freq);
    var a, b := Begins(late.freq, n) + Offset(late), Begins(soon.freq, n + 1) + Offset(soon);
    var at := if b < a + SEND_GRACE then b else a + SEND_GRACE - 1;
    LatestInGap(late, n, at);
    LatestInGap(soon, n + 1, b);
    KeyIsNumber(late.freq, a, b);
    x, y := Moment(a, Key(late, a), at), Moment(b, Key(soon, b), b);
  }

  lemma OffsetsWithin(p: Plan, q: Plan)
    requires ValidPlan(p) && ValidPlan(q) && p.freq == q.freq && Offset(q) <= Offset(p)
    ensures 0 <= Offset(p) - Offset(q) < Gap(p.freq) && 0 < SEND_GRACE < Gap(p.freq)
  {
  }

  /** Any two weeks; February and March of year 1, which is no leap year. */
  lemma ClosestBegins(freq: Frequency) returns (n: int)
    ensures Begins(freq, n + 1) == Begins(freq, n) + Gap(freq)
  {
    n := 13;
    assert Calendar.DaysBeforeYear(1) == 0;
    assert Calendar.DaysBeforeMonth(13) == 31 && Calendar.DaysBeforeMonth(14) == 59;
  }

  lemma WeekAndMonthDiffer(s: int, t: int)
    ensures PeriodAt(Weekly, s).key != PeriodAt(Monthly, t).key
  {
    hide Calendar.DaysBeforeMonth, Calendar.MonthOf, Calendar.ISOWeek, WeekKey, MonthKey;
    WeekIsNoMonth(Calendar.ISOWeek(DayOf(s)), Calendar.MonthOf(DayOf(t)) - 1);
  }

  /** A month of year 1 that begins on the given day of the week, counted from Monday. */
  lemma MonthBeginningOn(day: int) returns (n: int)
    requires 0 <= day < 7
    ensures Calendar.DaysBeforeMonth(n) % 7 == day
  {
    assert Calendar.DaysBeforeYear(1) == 0;
    n := 12 + if day == 0 then 0 else if day == 1 then 4 else if day == 2 then 7 else if day == 3 then 1
              else if day == 4 then 5 else if day == 5 then 8 else 3;
    assert n / 12 == 1 && n % 12 == n - 12;
  }

  /** A weekly and a monthly plan fall due on one day some time, and their keys always differ. */
  lemma WeekMeetsMonth(weekly: Plan, monthly: Plan) returns (x: Moment, y: Moment)
    requires ValidPlan(weekly) && ValidPlan(monthly) && weekly.freq.Weekly? && monthly.freq.Monthly?
    ensures DueBy(weekly, x) && DueBy(monthly, y) && x.key != y.key && x.at == y.at
  {
    hide PeriodAt, Latest, Number;
    var n := MonthBeginningOn((weekly.cfg.weekday + 6) % 7);
    var day := Calendar.DaysBeforeMonth(n);
    hide Calendar.DaysBeforeMonth;
    var a, b := day * DAY + weekly.cfg.hour * HOUR, day * DAY + monthly.cfg.hour * HOUR;
    assert a == Begins(Weekly, day / 7) + Offset(weekly) && b == Begins(Monthly, n) + Offset(monthly);
    var at := if a < b then b else a;
    LatestInGap(weekly, day / 7, at);
    LatestInGap(monthly, n, at);
    WeekAndMonthDiffer(a, b);
    x, y := Moment(a, Key(weekly, a), at), Moment(b, Key(monthly, b), at);
  }

  /** Two plans that do not agree have a detour. */
  lemma DisagreeingMeet(p: Plan, q: Plan, w: Leeway) returns (x: Moment, y: Moment)
    requires ValidPlan(p) && ValidPlan(q) && !Agree(p, q, w)
    ensures Due({p, q}, x) && Due({p, q}, y) && x.key != y.key && Then(x, y, w) && Then(y, x, w)
  {
    hide DueBy, Offset, Gap;
    if p.freq != q.freq {
      if p.freq.Weekly? {
        x, y := WeekMeetsMonth(p, q);
      } else {
        y, x := WeekMeetsMonth(q, p);
      }
    } else if Offset(q) <= Offset(p) {
      x, y := TooLittleRoom(p, q, w);
    } else {
      y, x := TooLittleRoom(q, p, w);
    }
  }

  lemma DisagreeingCross(plans: set<Plan>, p: Plan, q: Plan, w: Leeway)
    requires AllValid(plans) && p in plans && q in plans && !Agree(p, q, w)
    ensures Crossed(plans, w)
  {
    var x, y := DisagreeingMeet(p, q, w);
    hide DueBy;
    assert Due(plans, x) && Due(plans, y);
    assert Detour(plans, w, x, y, x);
  }

  /**
   * Which plans may follow one another. However the schedule and the frequency
   * change among them, no run ever mails a period twice exactly when all are of
   * one frequency and, for any two, clock error and stall together stay within
   * the time between two sends, less what their offsets in the week or month
   * differ by, less the grace.
   */
  lemma PlansExactly(plans: set<Plan>, w: Leeway)
    requires AllValid(plans)
    ensures AlwaysOnceAmong(plans, w) <==> AllAgree(plans, w)
  {
    hide Agree, Crossed, AlwaysOnceAmong;
    DetoursExactly(plans, w);
    if AllAgree(plans, w) {
      AgreedIsUncrossed(plans, w);
    } else {
      var p, q :| p in plans && q in plans && !Agree(p, q, w);
      DisagreeingCross(plans, p, q, w);
    }
  }

  // ------------------------------------------------------------ special cases

  const PUNCTUAL := Leeway(0, 0)

  /**
   * An operator moves the weekly send, or the monthly one: without stalls and
   * clock error this is harmless exactly if it moves by at most five days
   * within the week, Monday to Sunday; a monthly send may always move.
   */
  lemma MovedSendExactly(before: Plan, after: Plan)
    requires ValidPlan(before) && ValidPlan(after) && before.freq == after.freq
    ensures AlwaysOnceAmong({before, after}, PUNCTUAL)
            <==> before.freq.Monthly? || Abs(Offset(before) - Offset(after)) <= 5 * DAY
  {
    hide AlwaysOnceAmong;
    PlansExactly({before, after}, PUNCTUAL);
    var some: set<Plan> := {before, after};
    assert before in some && after in some;
    assert Agree(before, after, PUNCTUAL) <==> before.freq.Monthly? || Abs(Offset(before) - Offset(after)) <= 5 * DAY;
  }

  /** A user who switches between weekly and monthly can always get a period twice. */
  lemma ChangedFrequencyResends(weekly: Plan, monthly: Plan, w: Leeway) returns (start: int, acts: seq<Action>)
    requires ValidPlan(weekly) && ValidPlan(monthly) && weekly.freq.Weekly? && monthly.freq.Monthly?
    ensures Legal(Initial(start), acts) && Prompt(Initial(start), acts, w) && Among({weekly, monthly}, acts)
    ensures Resent(After(Initial(start), acts).settled)
  {
    var x, y := WeekMeetsMonth(weekly, monthly);
    hide DueBy, Legal, Prompt, After;
    assert Due({weekly, monthly}, x) && Due({weekly, monthly}, y);
    start, acts := DetourRuns({weekly, monthly}, w, x, y, x);
  }

  /** Of three digests mailed the first and the last are one. */
  predicate Resent(done: seq<Digest>) { |done| == 3 && done[0] == done[2] }

  /** Moving the weekly send day from Sunday to Monday and back, at any hours, can mail the Sunday period twice. */
  lemma MovedSendDayResends(sunday: Plan, monday: Plan) returns (start: int, acts: seq<Action>)
    requires ValidPlan(sunday) && sunday.freq.Weekly? && sunday.cfg.weekday == 0
    requires ValidPlan(monday) && monday.freq.Weekly? && monday.cfg.weekday == 1
    ensures Legal(Initial(start), acts) && Prompt(Initial(start), acts, PUNCTUAL) && Among({sunday, monday}, acts)
    ensures Resent(After(Initial(start), acts).settled)
  {
    var x, y := TooLittleRoom(sunday, monday, PUNCTUAL);
    hide DueBy, Legal, Prompt, After;
    assert Due({sunday, monday}, x) && Due({sunday, monday}, y);
    start, acts := DetourRuns({sunday, monday}, PUNCTUAL, x, y, x);
  }

  ghost predicate AlwaysOnce(plan: Plan, w: Leeway) {
    forall start, acts ::
      Legal(Initial(start), acts) && Unchanging(plan, acts) && Prompt(Initial(start), acts, w) ==>
      Once(After(Initial(start), acts).settled)
  }

  /**
   * While nothing is reconfigured: exactly when clock error and stall together
   * stay within five days for a weekly digest, twenty-six for a monthly one.
   */
  lemma StallBoundExact(plan: Plan, w: Leeway)
    requires ValidPlan(plan)
    ensures AlwaysOnce(plan, w) <==> w.early + w.late <= Gap(plan.freq) - SEND_GRACE
  {
    var alone: set<Plan> := {plan};
    assert plan in alone;
    PlansExactly(alone, w);
    assert AllAgree(alone, w) <==> w.early + w.late <= Gap(plan.freq) - SEND_GRACE;
    forall start, acts | Legal(Initial(start), acts) && Prompt(Initial(start), acts, w)
      ensures Unchanging(plan, acts) <==> Among(alone, acts)
      ensures Unchanging(plan, acts) && !Crossed(alone, w) ==>
                (Once(After(Initial(start), acts).settled) <==> OnceEach(After(Initial(start), acts).settled))
    {
      assert Unchanging(plan, acts) <==> Among(alone, acts);
      if Unchanging(plan, acts) && !Crossed(alone, w) {
        RunKeepsDetourInv(alone, w, Initial(start), acts);
        SlotsFollowKeys(plan, w, After(Initial(start), acts));
      }
    }
    DetoursExactly(alone, w);
  }

  /** Under one plan a send moment has one key. */
  lemma SlotsFollowKeys(plan: Plan, w: Leeway, s: State)
    requires DetourInv({plan}, w, s)
    ensures Once(s.settled)
  {
    hide Latest, PeriodAt;
    forall i | 0 <= i < |s.settled| ensures s.settled[i].key == Key(plan, s.settled[i].slot) {
      assert Guarded({plan}, w, s, s.settled[i].slot, s.settled[i].key);
    }
  }

  /** Past that bound a stalled or badly clocked run mails its period again, under any unchanging plan. */
  lemma StalledRunResends(plan: Plan, w: Leeway) returns (start: int, acts: seq<Action>)
    requires ValidPlan(plan) && w.early + w.late > Gap(plan.freq) - SEND_GRACE
    ensures Legal(Initial(start), acts) && Unchanging(plan, acts) && Prompt(Initial(start), acts, w)
    ensures !Once(After(Initial(start), acts).settled)
  {
    var x, y := TooLittleRoom(plan, plan, w);
    hide DueBy, Legal, Prompt, After;
    assert Due({plan}, x) && Due({plan}, y);
    start, acts := DetourRuns({plan}, w, x, y, x);
    var done := After(Initial(start), acts).settled;
    assert done[0].key == done[2].key;
  }

  // --------------------------------------------------------- a failed mail

  /**
   * A mail that fails is not lost: in every state a run can bring about, if its
   * claim still stands, the next run to list the user mails the period again,
   * as long as it is due.
   */
  lemma FailedMailIsRetried(start: int, acts: seq<Action>, i: nat, plan: Plan, at: int, read: int)
    requires Legal(Initial(start), acts) && i < |After(Initial(start), acts).runs| && ValidPlan(plan)
    requires var s := After(Initial(start), acts); var r := s.runs[i];
             && r.Sending? && s.last == Some(r.key) && !s.off && s.now <= at
             && r.key == Key(plan, r.slot) && Latest(plan.freq, plan.cfg, read, r.slot) && read - r.slot < SEND_GRACE
    ensures var s := After(Initial(start), acts); var r := s.runs[i];
            var more := [Send(i, false), Release(i, true)] + Solo(|s.runs|, plan, at, read, r.slot);
            && Legal(s, more) && After(s, more).settled == s.settled + [Digest(r.slot, r.key)]
  {
    hide PeriodAt, Latest;
    var s := After(Initial(start), acts);
    var r, w := s.runs[i], Leeway(0, 0);
    RunListedOther(Initial(start), acts);
    TwoSteps(s, Send(i, false), Release(i, true), w);
    var t := After(s, [Send(i, false), Release(i, true)]);
    assert t.last == r.last && t.settled == s.settled && |t.runs| == |s.runs|;
    SoloRun(t, plan, at, read, r.slot, w);
    RunsCompose(s, [Send(i, false), Release(i, true)], Solo(|s.runs|, plan, at, read, r.slot), w);
  }
}
