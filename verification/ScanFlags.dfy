/**
 * Scan de-duplication (scanEnqueuer in cmd/server/main.go): goroutines that
 * claim a flag, work and release it, interleaved in any order.
 */
module ScanFlags {
  import opened Wrappers
  import opened EventLog

  /** The text of a UUID: 36 characters, none of them a bar. */
  predicate Uuid(s: string) { |s| == 36 && '|' !in s }

  /** A key of scanInFlight, detectInFlight or dirScanInFlight. */
  datatype Flag = ScanFlag(lib: string) | DetectFlag(lib: string) | DirFlag(joined: string)

  datatype Task = FullScan(lib: string) | Detect(lib: string) | DirScan(lib: string, dir: string)

  function FlagOf(t: Task): Flag {
    match t
    case FullScan(lib) => ScanFlag(lib)
    case Detect(lib) => DetectFlag(lib)
    case DirScan(lib, dir) => DirFlag(lib + "|" + dir)
  }

  /**
   * Where a goroutine is. A full scan claims its flag and then looks its
   * library up; a directory scan looks up first; detection just claims.
   */
  datatype Pc = ToFind | ToClaim | LookingUp | Undoing | Running | Finishing | Ended

  function First(t: Task): Pc { if t.DirScan? then ToFind else ToClaim }

  /** A goroutine's next place: `taken` is what LoadOrStore finds, `found` whether the library was. */
  function Next(t: Task, pc: Pc, taken: bool, found: bool): Pc {
    match pc
    case ToFind => if found then ToClaim else Ended
    case ToClaim => if taken then Ended else if t.FullScan? then LookingUp else Running
    case LookingUp => if found then Running else Undoing
    case Undoing => Ended
    case Running => Finishing
    case Finishing => Ended
    case Ended => Ended
  }

  /** What a goroutine's step does to the flags: LoadOrStore sets its own, the Deletes clear it. */
  function Flagged(t: Task, pc: Pc, flags: set<Flag>): set<Flag> {
    if pc.ToClaim? then flags + {FlagOf(t)}
    else if pc.Undoing? || pc.Finishing? then flags - {FlagOf(t)}
    else flags
  }

  /** Between claim and release. */
  predicate Claiming(pc: Pc) { pc.LookingUp? || pc.Undoing? || pc.Running? || pc.Finishing? }

  datatype Thread = Thread(task: Task, pc: Pc)

  /** watchers is the map's keys; watching the goroutines started for them. */
  datatype State = State(flags: set<Flag>, threads: seq<Thread>, watchers: set<string>, watching: seq<string>)

  const INITIAL := State({}, [], {}, [])

  /** Watch is watchLibrary, whole under its mutex; `opens` says whether the watcher could be set up. */
  datatype Action = Spawn(task: Task) | Step(i: nat, found: bool) | Watch(lib: string, opens: bool)

  predicate WellNamed(t: Task) { Uuid(t.lib) }

  predicate Enabled(s: State, a: Action) {
    match a
    case Spawn(t) => WellNamed(t) && (t.Detect? ==> exists th <- s.threads :: th == Thread(FullScan(t.lib), Running))
    case Step(i, _) => i < |s.threads| && !s.threads[i].pc.Ended?
    case Watch(_, _) => true
  }

  function Apply(s: State, a: Action): State
    requires Enabled(s, a)
  {
    match a
    case Spawn(t) => s.(threads := s.threads + [Thread(t, First(t))])
    case Step(i, found) =>
      var t, pc := s.threads[i].task, s.threads[i].pc;
      s.(threads := s.threads[i := Thread(t, Next(t, pc, FlagOf(t) in s.flags, found))],
         flags := Flagged(t, pc, s.flags))
    case Watch(lib, opens) =>
      if lib in s.watchers || !opens then s else s.(watchers := s.watchers + {lib}, watching := s.watching + [lib])
  }

  ghost predicate Legal(s: State, acts: seq<Action>)
    decreases |acts|
  {
    acts == [] || (Enabled(s, acts[0]) && Legal(Apply(s, acts[0]), acts[1..]))
  }

  ghost function After(s: State, acts: seq<Action>): State
    requires Legal(s, acts)
    decreases |acts|
  {
    if acts == [] then s else After(Apply(s, acts[0]), acts[1..])
  }

  ghost predicate Reachable(s: State) { exists acts :: Legal(INITIAL, acts) && After(INITIAL, acts) == s }

  // ------------------------------------------------------------ the key

  /** The joined key says which library and which directory: bars in the path do not confuse it. */
  lemma JoinedKeyInjective(a: Task, b: Task)
    requires WellNamed(a) && WellNamed(b) && FlagOf(a) == FlagOf(b)
    ensures a == b
  {
    if a.DirScan? {
      var k := a.lib + "|" + a.dir;
      assert k[..36] == a.lib && k[37..] == a.dir;
      assert k == b.lib + "|" + b.dir && k[..36] == b.lib && k[37..] == b.dir;
    }
  }

  // ---------------------------------------------------------- invariant

  predicate Holder(s: State, i: int) { 0 <= i < |s.threads| && Claiming(s.threads[i].pc) }

  /** Each flag is set exactly while one goroutine is between its claim and its release. */
  ghost predicate FlagsInv(s: State) {
    && (forall th <- s.threads :: WellNamed(th.task))
    && (forall i :: Holder(s, i) ==> FlagOf(s.threads[i].task) in s.flags)
    && (forall f <- s.flags :: exists i :: Holder(s, i) && FlagOf(s.threads[i].task) == f)
    && (forall i, j :: Holder(s, i) && Holder(s, j) && i != j ==> FlagOf(s.threads[i].task) != FlagOf(s.threads[j].task))
  }

  /** The watchers' map lists exactly the libraries watched, each by one goroutine. */
  ghost predicate WatchInv(s: State) {
    && (forall i, j :: 0 <= i < j < |s.watching| ==> s.watching[i] != s.watching[j])
    && (forall lib :: lib in s.watchers <==> lib in s.watching)
  }

  ghost predicate Inv(s: State) { FlagsInv(s) && WatchInv(s) }

  lemma StepKeepsInv(s: State, a: Action)
    requires Inv(s) && Enabled(s, a) && a.Step?
    ensures Inv(Apply(s, a))
  {
    hide WellNamed, FlagOf;
    var t := Apply(s, a);
    var flag := FlagOf(s.threads[a.i].task);
    forall j | j != a.i ensures Holder(t, j) <==> Holder(s, j) {}
    forall f | f in t.flags ensures exists i :: Holder(t, i) && FlagOf(t.threads[i].task) == f {
      if f == flag && Holder(t, a.i) {
      } else {
        var i :| Holder(s, i) && FlagOf(s.threads[i].task) == f;
        assert Holder(t, i) && FlagOf(t.threads[i].task) == f;
      }
    }
  }

  /** Flags and their owners as before, and any new goroutine still without one. */
  predicate SameOwners(s: State, t: State) {
    && t.flags == s.flags && |t.threads| >= |s.threads|
    && (forall i :: 0 <= i < |s.threads| ==> t.threads[i] == s.threads[i])
    && (forall i :: |s.threads| <= i < |t.threads| ==> !Claiming(t.threads[i].pc) && WellNamed(t.threads[i].task))
  }

  lemma SameHolder(s: State, t: State, i: int)
    requires SameOwners(s, t)
    ensures Holder(t, i) <==> Holder(s, i)
    ensures Holder(s, i) ==> t.threads[i] == s.threads[i]
  {
    hide Claiming, WellNamed;
  }

  lemma NamesKept(s: State, t: State)
    requires SameOwners(s, t) && forall th <- s.threads :: WellNamed(th.task)
    ensures forall th <- t.threads :: WellNamed(th.task)
  {
    hide Claiming, WellNamed;
    forall th | th in t.threads ensures WellNamed(th.task) {
      var i :| 0 <= i < |t.threads| && t.threads[i] == th;
      assert i < |s.threads| ==> s.threads[i] in s.threads;
    }
  }

  lemma OwnersKeepFlags(s: State, t: State)
    requires FlagsInv(s) && SameOwners(s, t)
    ensures FlagsInv(t)
  {
    assert t.flags == s.flags;
    NamesKept(s, t);
    hide WellNamed, FlagOf, SameOwners, Holder;
    forall i ensures Holder(t, i) <==> Holder(s, i) ensures Holder(s, i) ==> t.threads[i] == s.threads[i] {
      SameHolder(s, t, i);
    }
    forall f | f in t.flags ensures exists i :: Holder(t, i) && FlagOf(t.threads[i].task) == f {
      var i :| Holder(s, i) && FlagOf(s.threads[i].task) == f;
      assert Holder(t, i) && FlagOf(t.threads[i].task) == f;
    }
  }

  lemma SpawnKeepsInv(s: State, a: Action)
    requires Inv(s) && Enabled(s, a) && a.Spawn?
    ensures Inv(Apply(s, a))
  {
    hide FlagsInv;
    OwnersKeepFlags(s, Apply(s, a));
  }

  lemma WatchKeepsInv(s: State, a: Action)
    requires Inv(s) && Enabled(s, a) && a.Watch?
    ensures Inv(Apply(s, a))
  {
    hide FlagsInv;
    OwnersKeepFlags(s, Apply(s, a));
  }

  lemma ApplyKeepsInv(s: State, a: Action)
    requires Inv(s) && Enabled(s, a)
    ensures Inv(Apply(s, a))
  {
    hide Inv, Apply, Enabled;
    match a
    case Step(_, _) => StepKeepsInv(s, a);
    case Spawn(_) => SpawnKeepsInv(s, a);
    case Watch(_, _) => WatchKeepsInv(s, a);
  }

  lemma {:induction false} RunKeepsInv(s: State, acts: seq<Action>)
    requires Inv(s) && Legal(s, acts)
    ensures Inv(After(s, acts))
    decreases |acts|
  {
    if acts != [] {
      ApplyKeepsInv(s, acts[0]);
      RunKeepsInv(Apply(s, acts[0]), acts[1..]);
    }
  }

  /** In every reachable state no two goroutines run the same scan, and each flag set has exactly its one owner. */
  lemma OneScanEach(s: State)
    requires Reachable(s)
    ensures forall i, j :: Holder(s, i) && Holder(s, j) && i != j ==> s.threads[i].task != s.threads[j].task
    ensures forall t: Task :: WellNamed(t) ==> (FlagOf(t) in s.flags <==> exists i :: Holder(s, i) && s.threads[i].task == t)
  {
    var acts :| Legal(INITIAL, acts) && After(INITIAL, acts) == s;
    RunKeepsInv(INITIAL, acts);
    forall t: Task | WellNamed(t) && FlagOf(t) in s.flags ensures exists i :: Holder(s, i) && s.threads[i].task == t {
      var i :| Holder(s, i) && FlagOf(s.threads[i].task) == FlagOf(t);
      assert s.threads[i] in s.threads;
      JoinedKeyInjective(s.threads[i].task, t);
    }
  }

  /** A goroutine is turned away only while another one is at the same library, or the same directory of it. */
  lemma TurnedAwayByItsTwin(s: State, i: nat, found: bool)
    requires Reachable(s) && i < |s.threads| && s.threads[i].pc.ToClaim?
    requires Apply(s, Step(i, found)).threads[i].pc.Ended?
    ensures exists j :: Holder(s, j) && j != i && s.threads[j].task == s.threads[i].task
  {
    OneScanEach(s);
    var acts :| Legal(INITIAL, acts) && After(INITIAL, acts) == s;
    RunKeepsInv(INITIAL, acts);
    assert s.threads[i] in s.threads;
    assert WellNamed(s.threads[i].task);
    var j :| Holder(s, j) && s.threads[j].task == s.threads[i].task;
  }

  /** No flag leaks: once every goroutine has ended, failed lookups included, all flags are clear. */
  lemma NoFlagLeft(s: State)
    requires Reachable(s) && forall th <- s.threads :: th.pc.Ended?
    ensures s.flags == {}
  {
    var acts :| Legal(INITIAL, acts) && After(INITIAL, acts) == s;
    RunKeepsInv(INITIAL, acts);
    forall i ensures !Holder(s, i) {
      assert 0 <= i < |s.threads| ==> s.threads[i] in s.threads;
    }
  }

  /** At its library lookup. */
  predicate AtLookup(pc: Pc) { pc.ToFind? || pc.LookingUp? }

  /** Somewhere in the run the goroutine looked its library up, with this result. */
  ghost predicate LookedUp(s: State, acts: seq<Action>, i: nat, found: bool)
    requires Legal(s, acts)
    decreases |acts|
  {
    acts != [] &&
    ((acts[0] == Step(i, found) && i < |s.threads| && AtLookup(s.threads[i].pc)) || LookedUp(Apply(s, acts[0]), acts[1..], i, found))
  }

  /** At work, or a directory scan on its way there from its lookup. */
  predicate Found(th: Thread) {
    th.pc.Running? || th.pc.Finishing? || (th.task.DirScan? && th.pc.ToClaim?)
  }

  lemma OnlyByFinding(s: State, a: Action, i: nat)
    requires Enabled(s, a) && i < |Apply(s, a).threads| && Found(Apply(s, a).threads[i]) && !Apply(s, a).threads[i].task.Detect?
    ensures i < |s.threads|
    ensures Found(s.threads[i]) || (a == Step(i, true) && AtLookup(s.threads[i].pc))
  {
  }

  lemma {:induction false} NoScanUnfound(s: State, acts: seq<Action>, i: nat)
    requires Legal(s, acts) && i < |After(s, acts).threads|
    requires Found(After(s, acts).threads[i]) && !After(s, acts).threads[i].task.Detect?
    requires i < |s.threads| ==> !Found(s.threads[i])
    ensures LookedUp(s, acts, i, true)
    decreases |acts|
  {
    hide Apply, Enabled, Found, AtLookup;
    if acts != [] {
      var t := Apply(s, acts[0]);
      if i < |t.threads| && Found(t.threads[i]) {
        TasksStay(t, acts[1..], i);
        OnlyByFinding(s, acts[0], i);
      } else {
        NoScanUnfound(t, acts[1..], i);
      }
    }
  }

  lemma OneKeepsTask(s: State, a: Action, i: nat)
    requires Enabled(s, a) && i < |s.threads|
    ensures i < |Apply(s, a).threads| && Apply(s, a).threads[i].task == s.threads[i].task
    ensures s.threads[i].pc.Undoing? || s.threads[i].pc.Ended? ==>
              Apply(s, a).threads[i].pc.Undoing? || Apply(s, a).threads[i].pc.Ended?
    ensures a == Step(i, false) && AtLookup(s.threads[i].pc) ==>
              Apply(s, a).threads[i].pc.Undoing? || Apply(s, a).threads[i].pc.Ended?
  {
  }

  lemma {:induction false} TasksStay(s: State, acts: seq<Action>, i: nat)
    requires Legal(s, acts) && i < |s.threads|
    ensures i < |After(s, acts).threads| && After(s, acts).threads[i].task == s.threads[i].task
    ensures s.threads[i].pc.Undoing? || s.threads[i].pc.Ended? ==>
              After(s, acts).threads[i].pc.Undoing? || After(s, acts).threads[i].pc.Ended?
    decreases |acts|
  {
    hide Apply, Enabled, AtLookup;
    if acts != [] {
      OneKeepsTask(s, acts[0], i);
      TasksStay(Apply(s, acts[0]), acts[1..], i);
    }
  }

  lemma {:induction false} UnfoundNeverRuns(s: State, acts: seq<Action>, i: nat)
    requires Legal(s, acts) && LookedUp(s, acts, i, false)
    ensures i < |After(s, acts).threads| && (After(s, acts).threads[i].pc.Undoing? || After(s, acts).threads[i].pc.Ended?)
    decreases |acts|
  {
    hide Apply, Enabled, AtLookup;
    if acts[0] == Step(i, false) && i < |s.threads| && AtLookup(s.threads[i].pc) {
      OneKeepsTask(s, acts[0], i);
      TasksStay(Apply(s, acts[0]), acts[1..], i);
    } else {
      UnfoundNeverRuns(Apply(s, acts[0]), acts[1..], i);
    }
  }

  /**
   * Only libraries that are there are scanned: in every run, a full or a
   * directory scan at work has looked its library up and found it, and one
   * that did not find it is not at work and never will be.
   */
  lemma OnlyFoundIsScanned(acts: seq<Action>, i: nat)
    requires Legal(INITIAL, acts) && i < |After(INITIAL, acts).threads|
    ensures var th := After(INITIAL, acts).threads[i];
            && (!th.task.Detect? && (th.pc.Running? || th.pc.Finishing?) ==> LookedUp(INITIAL, acts, i, true))
            && (LookedUp(INITIAL, acts, i, false) ==> th.pc.Undoing? || th.pc.Ended?)
  {
    var th := After(INITIAL, acts).threads[i];
    if !th.task.Detect? && Found(th) {
      NoScanUnfound(INITIAL, acts, i);
    }
    if LookedUp(INITIAL, acts, i, false) {
      UnfoundNeverRuns(INITIAL, acts, i);
    }
  }

  /** A library whose watcher could not be set up is not listed, so the next attempt is made; one that is watched stays so. */
  lemma WatchedExactly(s: State, lib: string, opens: bool)
    ensures var t := Apply(s, Watch(lib, opens));
            && (lib in t.watchers <==> lib in s.watchers || opens)
            && (forall other :: other != lib ==> (other in t.watchers <==> other in s.watchers))
            && t.flags == s.flags && t.threads == s.threads
  {
  }

  /** At most one watcher runs per library. */
  lemma OneWatcherEach(s: State)
    requires Reachable(s)
    ensures forall i, j :: 0 <= i < j < |s.watching| ==> s.watching[i] != s.watching[j]
    ensures forall lib :: lib in s.watchers <==> lib in s.watching
  {
    var acts :| Legal(INITIAL, acts) && After(INITIAL, acts) == s;
    RunKeepsInv(INITIAL, acts);
  }

  // ------------------------------------------------- the code's own form

  type FlagEvent = Event<set<Flag>, bool>

  /** One statement on the flags, or one beside them; the choice is whether a library lookup finds it. */
  type Statement = Move<set<Flag>, bool>

  /** Where the statements take a goroutine, None when one of them is not its next step. */
  function Walk(t: Task, pc: Pc, moves: seq<Statement>): Option<Pc>
    decreases |moves|
  {
    if moves == [] then Some(pc)
    else if pc.Ended? || moves[0].after != Flagged(t, pc, moves[0].before) then None
    else Walk(t, Next(t, pc, FlagOf(t) in moves[0].before, moves[0].choice), moves[1..])
  }

  lemma {:induction false} WalkOneMore(t: Task, pc: Pc, moves: seq<Statement>, m: Statement)
    requires Walk(t, pc, moves).Some? && !Walk(t, pc, moves).value.Ended?
    requires m.after == Flagged(t, Walk(t, pc, moves).value, m.before)
    ensures Walk(t, pc, moves + [m]) == Some(Next(t, Walk(t, pc, moves).value, FlagOf(t) in m.before, m.choice))
    decreases |moves|
  {
    if moves == [] {
      assert (moves + [m])[1..] == [];
    } else {
      assert (moves + [m])[1..] == moves[1..] + [m];
      WalkOneMore(t, Next(t, pc, FlagOf(t) in moves[0].before, moves[0].choice), moves[1..], m);
    }
  }

  /** Others and chance act as they were going to. */
  ghost predicate Genuine(log: seq<FlagEvent>, others: nat -> set<Flag>, luck: nat -> bool) {
    forall k: nat :: k < |log| ==> if log[k].Own? then log[k].choice == luck(k) else log[k].after == others(k)
  }

  /** The goroutine that was at `from` at the mark has come to pc. */
  ghost predicate Stands(log: seq<FlagEvent>, mark: nat, t: Task, from: Pc, pc: Pc) {
    mark <= |log| && Walk(t, from, Owns(log[mark..])) == Some(pc)
  }

  lemma StandsAtFirst(log: seq<FlagEvent>, t: Task, from: Pc)
    ensures Stands(log, |log|, t, from, from)
  {
    assert log[|log|..] == [];
  }

  lemma OtherTurn(log: seq<FlagEvent>, e: FlagEvent, mark: nat, t: Task, from: Pc, pc: Pc)
    requires Stands(log, mark, t, from, pc) && e.Other?
    ensures Stands(log + [e], mark, t, from, pc)
  {
    OwnsSince(log, e, mark);
    assert Owns(log[mark..]) + [] == Owns(log[mark..]);
  }

  lemma OwnTurn(log: seq<FlagEvent>, e: FlagEvent, mark: nat, t: Task, from: Pc, pc: Pc)
    requires Stands(log, mark, t, from, pc) && !pc.Ended? && e.Own? && e.after == Flagged(t, pc, e.before)
    ensures Stands(log + [e], mark, t, from, Next(t, pc, FlagOf(t) in e.before, e.choice))
  {
    OwnsSince(log, e, mark);
    WalkOneMore(t, from, Owns(log[mark..]), Move(e.before, e.choice, e.after));
  }

  /**
   * The three sync.Maps and the library service, as one goroutine meets them.
   * What others do at their turn and what a lookup finds at its turn are fixed
   * beforehand, so nothing a goroutine does can pass for somebody else's.
   */
  class InFlight {
    var flags: set<Flag>
    var turn: nat
    const others: nat -> set<Flag>
    const luck: nat -> bool
    ghost const start: set<Flag>
    ghost var log: seq<FlagEvent>

    ghost predicate Valid()
      reads this
    {
      turn == |log| && Chained(start, log) && Genuine(log, others, luck) && flags == EndOf(start, log)
    }

    constructor (flags: set<Flag>, others: nat -> set<Flag>, luck: nat -> bool)
      ensures Valid() && this.flags == flags && log == []
      ensures this.others == others && this.luck == luck
    {
      this.flags, turn := flags, 0;
      this.others, this.luck := others, luck;
      start, log := flags, [];
    }

    /** Other goroutines at work between two statements of this one. */
    method Interfere()
      requires Valid()
      modifies this
      ensures Valid() && log == old(log) + [Other(old(flags), flags)] && flags == others(|old(log)|)
    {
      ghost var before := flags;
      flags := others(turn);
      ChainGrows(start, log, Other(before, flags));
      log := log + [Other(before, flags)];
      turn := turn + 1;
    }

    method LoadOrStore(f: Flag) returns (loaded: bool)
      requires Valid()
      modifies this
      ensures Valid() && loaded == (f in old(flags)) && flags == old(flags) + {f}
      ensures log == old(log) + [Own(old(flags), luck(|old(log)|), flags)]
    {
      ghost var before := flags;
      loaded := f in flags;
      flags := flags + {f};
      ChainGrows(start, log, Own(before, luck(turn), flags));
      log := log + [Own(before, luck(turn), flags)];
      turn := turn + 1;
    }

    method Delete(f: Flag)
      requires Valid()
      modifies this
      ensures Valid() && flags == old(flags) - {f}
      ensures log == old(log) + [Own(old(flags), luck(|old(log)|), flags)]
    {
      ghost var before := flags;
      flags := flags - {f};
      ChainGrows(start, log, Own(before, luck(turn), flags));
      log := log + [Own(before, luck(turn), flags)];
      turn := turn + 1;
    }

    /** libSvc.Get, or the scan itself: no flag is touched, and it may come to nothing. */
    method Work() returns (found: bool)
      requires Valid()
      modifies this
      ensures Valid() && flags == old(flags) && found == luck(|old(log)|)
      ensures log == old(log) + [Own(old(flags), luck(|old(log)|), flags)]
    {
      found := luck(turn);
      ChainGrows(start, log, Own(flags, luck(turn), flags));
      log := log + [Own(flags, luck(turn), flags)];
      turn := turn + 1;
    }
  }

  datatype Enqueued = Started | AlreadyRunning | LookupFailed

  /** The log went on from the mark by this goroutine's walk, and nothing before it changed. */
  twostate predicate Went(inFlight: InFlight, mark: nat, t: Task, from: Pc, pc: Pc)
    reads inFlight
  {
    inFlight.Valid() && old(inFlight.log) <= inFlight.log && Stands(inFlight.log, mark, t, from, pc)
  }

  /** EnqueueScan up to its `go`. */
  method EnqueueScan(inFlight: InFlight, lib: string) returns (r: Enqueued)
    requires inFlight.Valid()
    modifies inFlight
    ensures Went(inFlight, |old(inFlight.log)|, FullScan(lib), ToClaim, if r.Started? then Running else Ended)
    ensures r.AlreadyRunning? <==> ScanFlag(lib) in old(inFlight.flags)
    ensures r.LookupFailed? <==> ScanFlag(lib) !in old(inFlight.flags) && !inFlight.luck(|old(inFlight.log)| + 2)
  {
    hide Stands, Chained, Genuine, EndOf, Walk;
    ghost var t, mark, was := FullScan(lib), |inFlight.log|, inFlight.log;
    StandsAtFirst(was, t, ToClaim);
    var loaded := inFlight.LoadOrStore(ScanFlag(lib));
    OwnTurn(was, inFlight.log[|was|], mark, t, ToClaim, ToClaim);
    if loaded {
      return AlreadyRunning;
    }
    was := inFlight.log;
    inFlight.Interfere();
    OtherTurn(was, inFlight.log[|was|], mark, t, ToClaim, LookingUp);
    was := inFlight.log;
    var found := inFlight.Work();
    OwnTurn(was, inFlight.log[|was|], mark, t, ToClaim, LookingUp);
    if !found {
      was := inFlight.log;
      inFlight.Interfere();
      OtherTurn(was, inFlight.log[|was|], mark, t, ToClaim, Undoing);
      was := inFlight.log;
      inFlight.Delete(ScanFlag(lib));
      OwnTurn(was, inFlight.log[|was|], mark, t, ToClaim, Undoing);
      return LookupFailed;
    }
    return Started;
  }

  /** TriggerDirectoryScan up to its `go`: it looks up before it claims, so a failed lookup has no flag to undo. */
  method TriggerDirectoryScan(inFlight: InFlight, lib: string, dir: string) returns (r: Enqueued)
    requires inFlight.Valid()
    modifies inFlight
    ensures Went(inFlight, |old(inFlight.log)|, DirScan(lib, dir), ToFind, if r.Started? then Running else Ended)
    ensures r.LookupFailed? <==> !inFlight.luck(|old(inFlight.log)|)
    ensures r.AlreadyRunning? <==>
              inFlight.luck(|old(inFlight.log)|) && DirFlag(lib + "|" + dir) in inFlight.others(|old(inFlight.log)| + 1)
  {
    hide Stands, Chained, Genuine, EndOf, Walk;
    ghost var t, mark, was := DirScan(lib, dir), |inFlight.log|, inFlight.log;
    StandsAtFirst(was, t, ToFind);
    var found := inFlight.Work();
    OwnTurn(was, inFlight.log[|was|], mark, t, ToFind, ToFind);
    if !found {
      return LookupFailed;
    }
    was := inFlight.log;
    inFlight.Interfere();
    OtherTurn(was, inFlight.log[|was|], mark, t, ToFind, ToClaim);
    was := inFlight.log;
    var loaded := inFlight.LoadOrStore(DirFlag(lib + "|" + dir));
    OwnTurn(was, inFlight.log[|was|], mark, t, ToFind, ToClaim);
    return if loaded then AlreadyRunning else Started;
  }

  /** The goroutine of any task that runs: whatever comes of the work, its deferred Delete follows. */
  method RunAndRelease(inFlight: InFlight, t: Task, ghost from: Pc, ghost mark: nat)
    requires inFlight.Valid() && Stands(inFlight.log, mark, t, from, Running)
    modifies inFlight
    ensures Went(inFlight, mark, t, from, Ended)
  {
    hide Stands, Chained, Genuine, EndOf, Walk;
    ghost var was := inFlight.log;
    inFlight.Interfere();
    OtherTurn(was, inFlight.log[|was|], mark, t, from, Running);
    was := inFlight.log;
    var done := inFlight.Work();
    OwnTurn(was, inFlight.log[|was|], mark, t, from, Running);
    was := inFlight.log;
    inFlight.Interfere();
    OtherTurn(was, inFlight.log[|was|], mark, t, from, Finishing);
    was := inFlight.log;
    inFlight.Delete(FlagOf(t));
    OwnTurn(was, inFlight.log[|was|], mark, t, from, Finishing);
  }

  /** runIntroDetection. */
  method RunIntroDetection(inFlight: InFlight, lib: string) returns (ran: bool)
    requires inFlight.Valid()
    modifies inFlight
    ensures Went(inFlight, |old(inFlight.log)|, Detect(lib), ToClaim, Ended)
    ensures ran <==> DetectFlag(lib) !in old(inFlight.flags)
  {
    hide Stands, Chained, Genuine, EndOf, Walk;
    ghost var mark, was := |inFlight.log|, inFlight.log;
    StandsAtFirst(was, Detect(lib), ToClaim);
    var loaded := inFlight.LoadOrStore(DetectFlag(lib));
    OwnTurn(was, inFlight.log[|was|], mark, Detect(lib), ToClaim, ToClaim);
    if loaded {
      return false;
    }
    RunAndRelease(inFlight, Detect(lib), ToClaim, mark);
    return true;
  }

  // ------------------------------------------- the log as a run of the machine

  /** The other entries of the log are legal actions of everybody else, one list for each. */
  ghost predicate Surrounded(s: State, i: nat, log: seq<FlagEvent>, others: seq<seq<Action>>)
    decreases |log|
  {
    && |others| == |log|
    && (log == [] ||
        match log[0]
        case Own(_, found, _) =>
          i < |s.threads| && !s.threads[i].pc.Ended? && Surrounded(Apply(s, Step(i, found)), i, log[1..], others[1..])
        case Other(_, after) =>
          && Legal(s, others[0]) && (forall a <- others[0] :: !(a.Step? && a.i == i))
          && After(s, others[0]).flags == after
          && Surrounded(After(s, others[0]), i, log[1..], others[1..]))
  }

  function RunOf(i: nat, log: seq<FlagEvent>, others: seq<seq<Action>>): seq<Action>
    requires |others| == |log|
  {
    if log == [] then []
    else (if log[0].Own? then [Step(i, log[0].choice)] else others[0]) + RunOf(i, log[1..], others[1..])
  }

  lemma {:induction false} ThreadWaits(s: State, run: seq<Action>, i: nat)
    requires Legal(s, run) && i < |s.threads| && forall a <- run :: !(a.Step? && a.i == i)
    ensures i < |After(s, run).threads| && After(s, run).threads[i] == s.threads[i]
    decreases |run|
  {
    if run != [] {
      assert run[0] in run;
      ThreadWaits(Apply(s, run[0]), run[1..], i);
    }
  }

  lemma {:induction false} RunsCompose(s: State, a: seq<Action>, b: seq<Action>)
    requires Legal(s, a) && Legal(After(s, a), b)
    ensures Legal(s, a + b) && After(s, a + b) == After(After(s, a), b)
    decreases |a|
  {
    if a == [] {
      assert a + b == b;
    } else {
      assert (a + b)[1..] == a[1..] + b;
      RunsCompose(Apply(s, a[0]), a[1..], b);
    }
  }

  /**
   * So a log written by one of these methods among other goroutines of the
   * machine is a run of the machine: what is proved of every reachable state
   * holds between any two of its entries.
   */
  lemma {:induction false} LogIsARun(s: State, i: nat, log: seq<FlagEvent>, others: seq<seq<Action>>, end: Pc)
    requires i < |s.threads| && Chained(s.flags, log)
    requires Walk(s.threads[i].task, s.threads[i].pc, Owns(log)) == Some(end)
    requires Surrounded(s, i, log, others)
    ensures Legal(s, RunOf(i, log, others))
    ensures var t := After(s, RunOf(i, log, others));
            i < |t.threads| && t.threads[i] == Thread(s.threads[i].task, end) && t.flags == EndOf(s.flags, log)
    decreases |log|
  {
    if log != [] {
      OwnsFirst(log);
      ChainRest(s.flags, log);
      var rest, left := log[1..], others[1..];
      if log[0].Own? {
        var step := Step(i, log[0].choice);
        assert Owns(log)[1..] == Owns(rest);
        LogIsARun(Apply(s, step), i, rest, left, end);
        assert ([step] + RunOf(i, rest, left))[1..] == RunOf(i, rest, left);
      } else {
        assert Owns(log) == Owns(rest);
        ThreadWaits(s, others[0], i);
        LogIsARun(After(s, others[0]), i, rest, left, end);
        RunsCompose(s, others[0], RunOf(i, rest, left));
      }
    }
  }
}
