/**
 * One user's digest under any number of overlapping digest_send runs
 * (internal/digest/service.go, SendDue and release; the queries of
 * internal/db/queries/digest.sql). Each action is one step of one run, the
 * user switching the digest off or on, or time passing.
 */
module DigestSend {
  import opened Wrappers
  import opened DigestPeriod

  /** The user's frequency and the server's schedule. */
  datatype Plan = Plan(freq: Frequency, cfg: DigestConfig)

  predicate ValidPlan(p: Plan) { Valid(p.cfg) && !p.freq.Other? }

  function Key(p: Plan, slot: int): string { PeriodAt(p.freq, slot).key }

  /** A run between listing the user with period (slot, key) and finishing; read is its clock, last the listed last_period. */
  datatype Run =
    | Begun
    | Waiting(slot: int, key: string, last: Option<string>, read: int)
    | Sending(slot: int, key: string, last: Option<string>)
    | Releasing(slot: int, key: string, last: Option<string>)
    | Ended

  datatype Digest = Digest(slot: int, key: string)

  /** newest is the newest send moment claimed so far; settled lists the digests mailed or found empty. */
  datatype State = State(now: int, off: bool, last: Option<string>, newest: Option<int>, runs: seq<Run>, settled: seq<Digest>)

  function Initial(start: int): State { State(start, false, None, None, [], []) }

  datatype Claimed = Fine | Failed | LostReply

  datatype Action =
    | Begin
    | List(run: nat, plan: Plan, read: int, slot: int)
    | Claim(run: nat, fault: Claimed)
    | Send(run: nat, ok: bool)
    | Release(run: nat, ok: bool)
    | Abort(run: nat)
    | Switch(off: bool)
    | Tick(now: int)

  ghost predicate Enabled(s: State, a: Action) {
    match a
    case Begin => true
    case Switch(_) => true
    case Tick(now) => s.now <= now
    case List(i, plan, read, slot) =>
      i < |s.runs| && s.runs[i].Begun? && !s.off && ValidPlan(plan) && Latest(plan.freq, plan.cfg, read, slot)
    case Claim(i, _) => i < |s.runs| && s.runs[i].Waiting?
    case Send(i, _) => i < |s.runs| && s.runs[i].Sending?
    case Release(i, _) => i < |s.runs| && s.runs[i].Releasing?
    case Abort(i) => i < |s.runs|
  }

  predicate Holds(r: Run) { r.Sending? || r.Releasing? }

  function Apply(s: State, a: Action): State
    requires Enabled(s, a)
  {
    match a
    case Begin => s.(runs := s.runs + [Begun])
    case Switch(off) => s.(off := off)
    case Tick(now) => s.(now := now)
    case List(i, plan, read, slot) =>
      var due := read - slot < SEND_GRACE && s.last != Some(Key(plan, slot));
      s.(runs := s.runs[i := if due then Waiting(slot, Key(plan, slot), s.last, read) else Ended])
    case Claim(i, fault) =>
      var r := s.runs[i];
      var t := s.(newest := Some(if s.newest.Some? && s.newest.value > r.slot then s.newest.value else r.slot));
      if s.off || s.last == Some(r.key) || fault.Failed? then s.(runs := s.runs[i := Ended])
      else t.(last := Some(r.key), runs := s.runs[i := if fault.Fine? then Sending(r.slot, r.key, r.last) else Ended])
    case Send(i, ok) =>
      var r := s.runs[i];
      if ok then s.(settled := s.settled + [Digest(r.slot, r.key)], runs := s.runs[i := Ended])
      else s.(runs := s.runs[i := Releasing(r.slot, r.key, r.last)])
    case Release(i, ok) =>
      var r := s.runs[i];
      s.(last := if ok && s.last == Some(r.key) then r.last else s.last, runs := s.runs[i := Ended])
    case Abort(i) => s.(runs := s.runs[i := Ended])
  }

  ghost predicate Legal(s: State, acts: seq<Action>)
    decreases |acts|
  {
    acts == [] || (Enabled(s, acts[0]) && Legal(Apply(s, acts[0]), acts[1..]))
  }

  ghost function After(s: State, acts: seq<Action>): State
    requires Legal(s, acts)
    decreases |acts|
  {
    if acts == [] then s else After(Apply(s, acts[0]), acts[1..])
  }

  /** A run claims no period older than one already claimed: it has not been overtaken by a run a whole period younger. */
  predicate InOrder(s: State, a: Action) {
    a.Claim? && a.run < |s.runs| && s.runs[a.run].Waiting? && s.newest.Some? ==> s.newest.value <= s.runs[a.run].slot
  }

  ghost predicate Orderly(s: State, acts: seq<Action>)
    requires Legal(s, acts)
    decreases |acts|
  {
    acts == [] || (InOrder(s, acts[0]) && Orderly(Apply(s, acts[0]), acts[1..]))
  }

  /** Neither the schedule nor the user's frequency changes during the run. */
  predicate Unchanging(plan: Plan, acts: seq<Action>) {
    forall a <- acts :: a.List? ==> a.plan == plan
  }

  // -------------------------------------------------------------- invariant

  predicate Named(p: Plan, slot: int, key: string) { Slot(p.freq, p.cfg, slot) && key == Key(p, slot) }

  predicate NamedAll(p: Plan, s: State) {
    && (s.newest.Some? ==> Slot(p.freq, p.cfg, s.newest.value))
    && (forall i :: 0 <= i < |s.settled| ==> Named(p, s.settled[i].slot, s.settled[i].key))
    && (forall i :: 0 <= i < |s.runs| && (s.runs[i].Waiting? || Holds(s.runs[i])) ==> Named(p, s.runs[i].slot, s.runs[i].key))
  }

  /** Nothing is newer than the newest claim, and what is as new as it still has its key in last_period. */
  predicate Current(p: Plan, s: State, slot: int) {
    s.newest.Some? && slot <= s.newest.value && (slot == s.newest.value ==> s.last == Some(Key(p, slot)))
  }

  predicate CurrentAll(p: Plan, s: State) {
    && (forall i :: 0 <= i < |s.settled| ==> Current(p, s, s.settled[i].slot))
    && (forall i :: 0 <= i < |s.runs| && Holds(s.runs[i]) ==> Current(p, s, s.runs[i].slot))
  }

  predicate Unique(s: State) {
    && (forall i, j :: 0 <= i < j < |s.settled| ==> s.settled[i].slot != s.settled[j].slot)
    && (forall i, j :: 0 <= i < |s.runs| && 0 <= j < |s.settled| && Holds(s.runs[i]) ==> s.runs[i].slot != s.settled[j].slot)
    && (forall i, j :: 0 <= i < j < |s.runs| && Holds(s.runs[i]) && Holds(s.runs[j]) ==> s.runs[i].slot != s.runs[j].slot)
  }

  predicate Inv(p: Plan, s: State) { NamedAll(p, s) && CurrentAll(p, s) && Unique(s) }

  lemma SameKeySameSlot(p: Plan, a: int, b: int)
    requires ValidPlan(p) && Slot(p.freq, p.cfg, a) && Slot(p.freq, p.cfg, b)
    ensures Key(p, a) == Key(p, b) <==> a == b
  {
    KeysAdvance(p.freq, p.cfg, a, b);
  }

  lemma ClaimKeepsInv(p: Plan, s: State, a: Action)
    requires ValidPlan(p) && Inv(p, s) && a.Claim? && Enabled(s, a) && InOrder(s, a)
    ensures Inv(p, Apply(s, a))
  {
    hide PeriodAt, Slot;
    var t := Apply(s, a);
    var slot := s.runs[a.run].slot;
    assert Named(p, slot, s.runs[a.run].key);
    if t.last != s.last {
      forall i | 0 <= i < |s.settled| ensures s.settled[i].slot < slot {
        assert Current(p, s, s.settled[i].slot);
      }
      forall i | 0 <= i < |s.runs| && Holds(s.runs[i]) ensures s.runs[i].slot < slot {
        assert Current(p, s, s.runs[i].slot);
      }
    }
  }

  lemma ReleaseKeepsInv(p: Plan, s: State, a: Action)
    requires ValidPlan(p) && Inv(p, s) && a.Release? && Enabled(s, a)
    ensures Inv(p, Apply(s, a))
  {
    hide PeriodAt, Slot;
    var t := Apply(s, a);
    var r := s.runs[a.run];
    assert Named(p, r.slot, r.key) && Current(p, s, r.slot);
    if t.last != s.last {
      SameKeySameSlot(p, r.slot, s.newest.value);
      if s.newest.value != r.slot {
        OthersAreOlder(p, s, r.slot);
      }
    }
  }

  /** While last_period holds an older key, nothing settled or held is as new as the newest claim. */
  lemma OthersAreOlder(p: Plan, s: State, slot: int)
    requires ValidPlan(p) && Inv(p, s) && s.newest.Some? && s.last == Some(Key(p, slot))
    requires Slot(p.freq, p.cfg, slot) && slot != s.newest.value
    ensures forall i :: 0 <= i < |s.settled| ==> s.settled[i].slot < s.newest.value
    ensures forall i :: 0 <= i < |s.runs| && Holds(s.runs[i]) ==> s.runs[i].slot < s.newest.value
  {
    hide PeriodAt, Slot;
    SameKeySameSlot(p, slot, s.newest.value);
    forall i | 0 <= i < |s.settled| ensures s.settled[i].slot < s.newest.value {
      assert Current(p, s, s.settled[i].slot);
    }
    forall i | 0 <= i < |s.runs| && Holds(s.runs[i]) ensures s.runs[i].slot < s.newest.value {
      assert Current(p, s, s.runs[i].slot);
    }
  }

  lemma SendKeepsInv(p: Plan, s: State, a: Action)
    requires Inv(p, s) && a.Send? && Enabled(s, a)
    ensures Inv(p, Apply(s, a))
  {
    hide PeriodAt, Slot;
    assert Current(p, s, s.runs[a.run].slot);
  }

  lemma LocalKeepsInv(p: Plan, s: State, a: Action)
    requires Inv(p, s) && Enabled(s, a) && (a.List? ==> a.plan == p) && (a.Begin? || a.List? || a.Abort? || a.Switch? || a.Tick?)
    ensures Inv(p, Apply(s, a))
  {
    hide PeriodAt, Slot;
  }

  lemma StepKeepsInv(p: Plan, s: State, a: Action)
    requires ValidPlan(p) && Inv(p, s) && Enabled(s, a) && InOrder(s, a) && (a.List? ==> a.plan == p)
    ensures Inv(p, Apply(s, a))
  {
    hide PeriodAt, Slot, Inv;
    match a
    case Claim(_, _) => ClaimKeepsInv(p, s, a);
    case Release(_, _) => ReleaseKeepsInv(p, s, a);
    case Send(_, _) => SendKeepsInv(p, s, a);
    case _ => LocalKeepsInv(p, s, a);
  }

  lemma {:induction false} RunKeepsInv(p: Plan, s: State, acts: seq<Action>)
    requires ValidPlan(p) && Inv(p, s) && Legal(s, acts) && Orderly(s, acts) && Unchanging(p, acts)
    ensures Inv(p, After(s, acts))
    decreases |acts|
  {
    if acts != [] {
      assert acts[0] in acts;
      StepKeepsInv(p, s, acts[0]);
      RunKeepsInv(p, Apply(s, acts[0]), acts[1..]);
    }
  }

  /**
   * However runs overlap, fail, retry, lose a claim's reply or die: while the
   * schedule stays and no run is overtaken by a run of a newer period, no
   * period is mailed (or found empty) twice.
   */
  lemma EachPeriodOnce(p: Plan, start: int, acts: seq<Action>)
    requires ValidPlan(p) && Legal(Initial(start), acts) && Orderly(Initial(start), acts) && Unchanging(p, acts)
    ensures Once(After(Initial(start), acts).settled)
  {
    RunKeepsInv(p, Initial(start), acts);
    NoneTwice(p, After(Initial(start), acts));
  }

  /** No period is mailed or found empty twice. */
  predicate Once(done: seq<Digest>) {
    forall i, j :: 0 <= i < j < |done| ==> done[i].key != done[j].key && done[i].slot != done[j].slot
  }

  lemma NoneTwice(p: Plan, s: State)
    requires ValidPlan(p) && Inv(p, s)
    ensures Once(s.settled)
  {
    hide PeriodAt, Slot;
    forall i, j | 0 <= i < j < |s.settled| ensures s.settled[i].key != s.settled[j].key {
      assert Named(p, s.settled[i].slot, s.settled[i].key) && Named(p, s.settled[j].slot, s.settled[j].key);
      SameKeySameSlot(p, s.settled[i].slot, s.settled[j].slot);
    }
  }

  /**
   * The step that mails a settled period again: its claim goes through exactly
   * when the digest is on, the statement commits and answers, and another key
   * has taken its place in last_period; and the run has then been overtaken.
   */
  lemma SettledClaimExactly(p: Plan, s: State, i: nat, fault: Claimed, k: nat)
    requires ValidPlan(p) && Inv(p, s) && Enabled(s, Claim(i, fault)) && k < |s.settled| && s.settled[k].key == s.runs[i].key
    ensures var through := Apply(s, Claim(i, fault)).runs[i].Sending?;
            && (through <==> !s.off && fault.Fine? && s.last != Some(s.settled[k].key))
            && (through ==> !InOrder(s, Claim(i, fault)))
  {
    hide PeriodAt, Slot;
    assert Named(p, s.runs[i].slot, s.runs[i].key) && Named(p, s.settled[k].slot, s.settled[k].key);
    SameKeySameSlot(p, s.runs[i].slot, s.settled[k].slot);
    assert Current(p, s, s.settled[k].slot);
  }

  // ------------------------------------------------------- switched off

  /** Every run that holds a period held it before. */
  predicate HeldBefore(s: State, t: State) {
    forall i :: 0 <= i < |t.runs| && Holds(t.runs[i]) ==>
      i < |s.runs| && Holds(s.runs[i]) && t.runs[i].slot == s.runs[i].slot && t.runs[i].key == s.runs[i].key
  }

  /** What has been mailed or found empty since was held already. */
  predicate OnlyHeldSettled(s: State, t: State) {
    s.settled <= t.settled && forall k :: |s.settled| <= k < |t.settled| ==> Held(s, t.settled[k])
  }

  predicate Held(s: State, d: Digest) {
    exists i :: 0 <= i < |s.runs| && Holds(s.runs[i]) && d == Digest(s.runs[i].slot, s.runs[i].key)
  }

  /** Whoever is about to claim a period was listed with it before. */
  predicate ListedBefore(s: State, t: State) {
    forall i :: 0 <= i < |t.runs| && t.runs[i].Waiting? ==> i < |s.runs| && t.runs[i] == s.runs[i]
  }

  lemma OffStep(s: State, t: State, a: Action)
    requires t.off && Enabled(t, a) && a != Switch(false) && HeldBefore(s, t) && OnlyHeldSettled(s, t)
    ensures Apply(t, a).off && HeldBefore(s, Apply(t, a)) && OnlyHeldSettled(s, Apply(t, a))
    ensures ListedBefore(s, t) ==> ListedBefore(s, Apply(t, a))
    ensures !a.Release? ==> Apply(t, a).last == t.last
  {
    hide PeriodAt, Latest;
    var u := Apply(t, a);
    assert s.settled <= t.settled <= u.settled;
    forall k | |s.settled| <= k < |u.settled| ensures Held(s, u.settled[k]) {
      if k < |t.settled| {
        assert u.settled[k] == t.settled[k];
      } else {
        assert Holds(t.runs[a.run]) && u.settled[k] == Digest(s.runs[a.run].slot, s.runs[a.run].key);
      }
    }
  }

  /**
   * A user who has switched the digest off gets nothing that was not on its
   * way: until it is switched on, whatever runs do, only periods claimed
   * before are still mailed, and no run lists the user.
   */
  lemma OffMailsNothingNew(s: State, acts: seq<Action>)
    requires Legal(Apply(s, Switch(true)), acts) && Switch(false) !in acts
    ensures var t := After(Apply(s, Switch(true)), acts);
            t.off && OnlyHeldSettled(s, t) && ListedBefore(s, t)
  {
    OffRun(s, Apply(s, Switch(true)), acts);
  }

  lemma {:induction false} OffRun(s: State, t: State, acts: seq<Action>)
    requires t.off && Legal(t, acts) && Switch(false) !in acts
    requires HeldBefore(s, t) && OnlyHeldSettled(s, t) && ListedBefore(s, t)
    ensures After(t, acts).off && OnlyHeldSettled(s, After(t, acts)) && ListedBefore(s, After(t, acts))
    decreases |acts|
  {
    hide Apply, Enabled, HeldBefore, OnlyHeldSettled, ListedBefore;
    if acts != [] {
      assert acts[0] in acts && forall a <- acts[1..] :: a in acts;
      OffStep(s, t, acts[0]);
      OffRun(s, Apply(t, acts[0]), acts[1..]);
    }
  }

  // ------------------------------------------------------- a failed mail

  /** Whoever is about to claim, mail or release a period listed another one as the user's last. */
  predicate ListedOther(s: State) {
    forall i :: 0 <= i < |s.runs| && (s.runs[i].Waiting? || Holds(s.runs[i])) ==> s.runs[i].last != Some(s.runs[i].key)
  }

  lemma {:induction false} RunListedOther(s: State, acts: seq<Action>)
    requires ListedOther(s) && Legal(s, acts)
    ensures ListedOther(After(s, acts))
    decreases |acts|
  {
    if acts != [] {
      StepListedOther(s, acts[0]);
      hide Apply, Enabled, ListedOther;
      RunListedOther(Apply(s, acts[0]), acts[1..]);
    }
  }

  lemma StepListedOther(s: State, a: Action)
    requires ListedOther(s) && Enabled(s, a)
    ensures ListedOther(Apply(s, a))
  {
    hide PeriodAt, Latest;
  }

  /**
   * A run that lists the user, claims the period, fails to mail it and gives
   * it back leaves last_period as it was and nothing settled.
   */
  lemma FailedMailRestores(s: State, i: nat, plan: Plan, read: int, slot: int)
    requires Enabled(s, List(i, plan, read, slot)) && read - slot < SEND_GRACE && s.last != Some(Key(plan, slot))
    ensures var acts := [List(i, plan, read, slot), Claim(i, Fine), Send(i, false), Release(i, true)];
            Legal(s, acts) && After(s, acts).last == s.last && After(s, acts).settled == s.settled
  {
    hide PeriodAt, Latest;
    var a := Apply(s, List(i, plan, read, slot));
    var b := Apply(a, Claim(i, Fine));
    var c := Apply(b, Send(i, false));
    var d := Apply(c, Release(i, true));
    assert Legal(c, [Release(i, true)]) && After(c, [Release(i, true)]) == d;
    assert [Send(i, false), Release(i, true)][1..] == [Release(i, true)];
    assert Legal(b, [Send(i, false), Release(i, true)]) && After(b, [Send(i, false), Release(i, true)]) == d;
    var two := [Claim(i, Fine), Send(i, false), Release(i, true)];
    assert two[1..] == [Send(i, false), Release(i, true)];
    assert Legal(a, two) && After(a, two) == d;
    var acts := [List(i, plan, read, slot), Claim(i, Fine), Send(i, false), Release(i, true)];
    assert acts[1..] == two;
  }

  /**
   * A claim that commits without the run hearing of it uses the period up: it
   * is not mailed by that run, and no run that lists the user before another
   * period is claimed takes it on.
   */
  lemma LostClaimIsSkipped(s: State, i: nat, more: seq<Action>)
    requires Enabled(s, Claim(i, LostReply)) && !s.off && Legal(Apply(s, Claim(i, LostReply)), more)
    requires forall a <- more :: !a.Claim? && !a.Release?
    ensures var key := s.runs[i].key;
            var t := After(Apply(s, Claim(i, LostReply)), more);
            && t.last == Some(key)
            && forall j: nat, plan, read, slot :: Enabled(t, List(j, plan, read, slot)) && Key(plan, slot) == key ==>
                 Apply(t, List(j, plan, read, slot)).runs[j].Ended?
    ensures Apply(s, Claim(i, LostReply)).runs[i].Ended?
  {
    hide PeriodAt, Latest;
    var t := Apply(s, Claim(i, LostReply));
    assert t.last == Some(s.runs[i].key);
    LastStays(t, more);
  }

  lemma {:induction false} LastStays(s: State, acts: seq<Action>)
    requires Legal(s, acts) && forall a <- acts :: !a.Claim? && !a.Release?
    ensures After(s, acts).last == s.last
    decreases |acts|
  {
    if acts != [] {
      assert acts[0] in acts && forall a <- acts[1..] :: a in acts;
      assert Apply(s, acts[0]).last == s.last;
      hide Apply, Enabled;
      LastStays(Apply(s, acts[0]), acts[1..]);
    }
  }

  /** A run that has died sends nothing any more. */
  lemma AbortedSendsNothing(s: State, i: nat, acts: seq<Action>)
    requires Enabled(s, Abort(i)) && Legal(Apply(s, Abort(i)), acts)
    ensures forall a <- acts :: !((a.List? || a.Claim? || a.Send? || a.Release?) && a.run == i)
  {
    EndedForGood(Apply(s, Abort(i)), i, acts);
  }

  lemma {:induction false} EndedForGood(s: State, i: nat, acts: seq<Action>)
    requires i < |s.runs| && s.runs[i].Ended? && Legal(s, acts)
    ensures forall a <- acts :: !((a.List? || a.Claim? || a.Send? || a.Release?) && a.run == i)
    decreases |acts|
  {
    if acts != [] {
      var a := acts[0];
      assert !((a.List? || a.Claim? || a.Send? || a.Release?) && a.run == i);
      assert i < |Apply(s, a).runs| && Apply(s, a).runs[i].Ended?;
      hide Apply, Enabled;
      EndedForGood(Apply(s, a), i, acts[1..]);
      assert acts == [a] + acts[1..];
    }
  }
}
