/**
 * The log of a shared object as one call meets it: the call's own statements,
 * and in between whatever the rest of the world does.
 */
module EventLog {

  /** A statement of the call with what chance decided of it, or other work on the object. */
  datatype Event<+D, +C> =
    | Own(before: D, choice: C, after: D)
    | Other(before: D, after: D)

  /** One statement: the object it met, how it went, and the object it left. */
  datatype Move<+D, +C> = Move(before: D, choice: C, after: D)

  function MovesOf<D, C>(e: Event<D, C>): seq<Move<D, C>> {
    if e.Own? then [Move(e.before, e.choice, e.after)] else []
  }

  /** The call's own statements, in order. */
  function Owns<D, C>(log: seq<Event<D, C>>): seq<Move<D, C>> {
    if log == [] then [] else Owns(log[..|log| - 1]) + MovesOf(log[|log| - 1])
  }

  /** Each entry meets the object as the one before it left it. */
  ghost predicate Chained<D, C>(start: D, log: seq<Event<D, C>>) {
    log == [] ||
    (var m := |log| - 1; Chained(start, log[..m]) && log[m].before == EndOf(start, log[..m]))
  }

  function EndOf<D, C>(start: D, log: seq<Event<D, C>>): D {
    if log == [] then start else log[|log| - 1].after
  }

  lemma ChainGrows<D, C>(start: D, log: seq<Event<D, C>>, e: Event<D, C>)
    requires Chained(start, log) && e.before == EndOf(start, log)
    ensures Chained(start, log + [e]) && EndOf(start, log + [e]) == e.after
  {
    assert (log + [e])[..|log|] == log;
  }

  lemma {:induction false} ChainRest<D, C>(start: D, log: seq<Event<D, C>>)
    requires Chained(start, log) && log != []
    ensures log[0].before == start
    ensures Chained(log[0].after, log[1..]) && EndOf(log[0].after, log[1..]) == EndOf(start, log)
  {
    var m := |log| - 1;
    if m == 0 {
      assert log[..0] == [] && log[1..] == [];
    } else {
      ChainRest(start, log[..m]);
      assert log[1..][..m - 1] == log[..m][1..];
    }
  }

  lemma OwnsSince<D, C>(log: seq<Event<D, C>>, e: Event<D, C>, mark: nat)
    requires mark <= |log|
    ensures Owns((log + [e])[mark..]) == Owns(log[mark..]) + MovesOf(e)
  {
    var more := (log + [e])[mark..];
    assert more[..|more| - 1] == log[mark..];
  }

  lemma {:induction false} OwnsBoth<D, C>(a: seq<Event<D, C>>, b: seq<Event<D, C>>)
    ensures Owns(a + b) == Owns(a) + Owns(b)
  {
    if b == [] {
      assert a + b == a;
    } else {
      var m := |b| - 1;
      assert (a + b)[..|a + b| - 1] == a + b[..m];
      OwnsBoth(a, b[..m]);
    }
  }

  lemma OwnsFirst<D, C>(log: seq<Event<D, C>>)
    requires log != []
    ensures Owns(log) == MovesOf(log[0]) + Owns(log[1..])
  {
    assert [log[0]][..0] == [];
    assert log == [log[0]] + log[1..];
    OwnsBoth([log[0]], log[1..]);
  }
}
