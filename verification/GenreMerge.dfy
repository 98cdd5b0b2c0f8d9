/**
 * MergeGenres (internal/bulkedit/bulkedit.go): the case-insensitive, ordered
 * merge of a genre list. `lower` stands for strings.ToLower; what is proved
 * holds of any such key function.
 */
module GenreMerge {
  import SortedInts

  type Genres = seq<string>

  type Key = string -> string

  function Keys(lower: Key, list: Genres): set<string> {
    set i | 0 <= i < |list| :: lower(list[i])
  }

  /** The first of the n genres of each key outside `barred`, in order. */
  function Picked(lower: Key, list: Genres, barred: set<string>, n: nat): Genres
    requires n <= |list|
  {
    if n == 0 then []
    else
      Picked(lower, list, barred, n - 1)
      + if lower(list[n - 1]) !in barred && lower(list[n - 1]) !in Keys(lower, list[..n - 1]) then [list[n - 1]] else []
  }

  /** The item's genres that stay. */
  function Survivors(lower: Key, current: Genres, remove: Genres): Genres {
    Picked(lower, current, Keys(lower, remove), |current|)
  }

  /** What is appended. */
  function Additions(lower: Key, current: Genres, add: Genres, remove: Genres): Genres {
    Picked(lower, add, Keys(lower, Survivors(lower, current, remove)), |add|)
  }

  function Merge(lower: Key, current: Genres, add: Genres, remove: Genres): Genres {
    Survivors(lower, current, remove) + Additions(lower, current, add, remove)
  }

  predicate Distinct(lower: Key, list: Genres) {
    forall i, j :: 0 <= i < j < |list| ==> lower(list[i]) != lower(list[j])
  }

  // ---------------------------------------------------------- the method

  lemma KeysOfMore(lower: Key, list: Genres, g: string)
    ensures Keys(lower, list + [g]) == Keys(lower, list) + {lower(g)}
  {
    var more := list + [g];
    forall k | k in Keys(lower, list) ensures k in Keys(lower, more) {
      var i :| 0 <= i < |list| && lower(list[i]) == k;
      assert more[i] == list[i];
    }
    assert more[|list|] == g;
  }

  /** The keys picked so far are those seen so far, but for the barred ones. */
  lemma {:induction false} PickedKeys(lower: Key, list: Genres, barred: set<string>, n: nat)
    requires n <= |list|
    ensures Keys(lower, Picked(lower, list, barred, n)) == Keys(lower, list[..n]) - barred
  {
    if n == 0 {
    } else {
      PickedKeys(lower, list, barred, n - 1);
      assert list[..n] == list[..n - 1] + [list[n - 1]];
      KeysOfMore(lower, list[..n - 1], list[n - 1]);
      KeysOfMore(lower, Picked(lower, list, barred, n - 1), list[n - 1]);
      assert Picked(lower, list, barred, n - 1) + [] == Picked(lower, list, barred, n - 1);
    }
  }

  /** MergeGenres. */
  method MergeGenres(lower: Key, current: Genres, add: Genres, remove: Genres) returns (out: Genres, changed: bool)
    ensures out == Merge(lower, current, add, remove)
    ensures changed <==> out != current
  {
    var drop: set<string> := {};
    var i := 0;
    while i < |remove|
      invariant 0 <= i <= |remove| && drop == Keys(lower, remove[..i])
    {
      assert remove[..i + 1] == remove[..i] + [remove[i]];
      KeysOfMore(lower, remove[..i], remove[i]);
      drop := drop + {lower(remove[i])};
      i := i + 1;
    }
    assert remove[..i] == remove;
    out := [];
    var seen: set<string> := {};
    i := 0;
    while i < |current|
      invariant 0 <= i <= |current| && out == Picked(lower, current, drop, i) && seen == Keys(lower, out)
    {
      PickedKeys(lower, current, drop, i);
      KeysOfMore(lower, out, current[i]);
      var k := lower(current[i]);
      if k in drop || k in seen {
        assert out + [] == out;
        i := i + 1;
        continue;
      }
      seen := seen + {k};
      out := out + [current[i]];
      i := i + 1;
    }
    ghost var kept := out;
    ghost var added: Genres := [];
    i := 0;
    while i < |add|
      invariant 0 <= i <= |add| && added == Picked(lower, add, Keys(lower, kept), i)
      invariant out == kept + added && seen == Keys(lower, out)
    {
      PickedKeys(lower, add, Keys(lower, kept), i);
      KeysOfBoth(lower, kept, added);
      KeysOfMore(lower, out, add[i]);
      var k := lower(add[i]);
      if k in seen {
        assert added + [] == added;
        i := i + 1;
        continue;
      }
      seen := seen + {k};
      out := out + [add[i]];
      added := added + [add[i]];
      i := i + 1;
    }
    changed := out != current;
  }

  lemma {:induction false} KeysOfBoth(lower: Key, a: Genres, b: Genres)
    ensures Keys(lower, a + b) == Keys(lower, a) + Keys(lower, b)
  {
    if b == [] {
      assert a + b == a;
    } else {
      var m := |b| - 1;
      assert a + b == (a + b[..m]) + [b[m]] && b == b[..m] + [b[m]];
      KeysOfBoth(lower, a, b[..m]);
      KeysOfMore(lower, a + b[..m], b[m]);
      KeysOfMore(lower, b[..m], b[m]);
    }
  }

  // ------------------------------------------------------- what it means

  /** A genre is there afterwards, in some case, exactly if it was added, or was there and not removed. */
  lemma MergeKeys(lower: Key, current: Genres, add: Genres, remove: Genres)
    ensures Keys(lower, Merge(lower, current, add, remove)) == Keys(lower, current) - Keys(lower, remove) + Keys(lower, add)
  {
    var kept := Survivors(lower, current, remove);
    assert current[..|current|] == current && add[..|add|] == add;
    PickedKeys(lower, current, Keys(lower, remove), |current|);
    PickedKeys(lower, add, Keys(lower, kept), |add|);
    KeysOfBoth(lower, kept, Additions(lower, current, add, remove));
  }

  lemma {:induction false} PickedDistinct(lower: Key, list: Genres, barred: set<string>, n: nat)
    requires n <= |list|
    ensures Distinct(lower, Picked(lower, list, barred, n))
  {
    if n > 0 {
      PickedDistinct(lower, list, barred, n - 1);
      PickedKeys(lower, list, barred, n - 1);
      var rest := Picked(lower, list, barred, n - 1);
      forall i | 0 <= i < |rest| ensures lower(rest[i]) in Keys(lower, list[..n - 1]) {
        assert lower(rest[i]) in Keys(lower, rest);
      }
    }
  }

  /** No two genres of the result are equal ignoring case. */
  lemma MergeDistinct(lower: Key, current: Genres, add: Genres, remove: Genres)
    ensures Distinct(lower, Merge(lower, current, add, remove))
  {
    var kept, added := Survivors(lower, current, remove), Additions(lower, current, add, remove);
    PickedDistinct(lower, current, Keys(lower, remove), |current|);
    PickedDistinct(lower, add, Keys(lower, kept), |add|);
    PickedKeys(lower, add, Keys(lower, kept), |add|);
    forall i, j | 0 <= i < |kept| && 0 <= j < |added| ensures lower(kept[i]) != lower(added[j]) {
      assert lower(kept[i]) in Keys(lower, kept) && lower(added[j]) in Keys(lower, added);
    }
  }

  /** The place in `list` of a genre that is picked: the first of its key, and that not barred. */
  predicate Picks(lower: Key, list: Genres, barred: set<string>, i: nat) {
    i < |list| && lower(list[i]) !in barred && forall j :: 0 <= j < i ==> lower(list[j]) != lower(list[i])
  }

  function Places(lower: Key, list: Genres, barred: set<string>, n: nat): seq<nat> {
    if n == 0 then []
    else
      Places(lower, list, barred, n - 1) + if Picks(lower, list, barred, n - 1) then [n - 1] else []
  }

  lemma {:induction false} PlacesAscend(lower: Key, list: Genres, barred: set<string>, n: nat)
    ensures var at := Places(lower, list, barred, n);
            && (forall k, l :: 0 <= k < l < |at| ==> at[k] < at[l])
            && (forall i: nat :: i in at <==> i < n && Picks(lower, list, barred, i))
  {
    hide Picks;
    if n > 0 {
      PlacesAscend(lower, list, barred, n - 1);
      var rest := Places(lower, list, barred, n - 1);
      forall k | 0 <= k < |rest| ensures rest[k] < n - 1 {
        assert rest[k] in rest;
      }
    }
  }

  /** What is picked is exactly the genres at those places, spelled and ordered as in the list. */
  lemma {:induction false} PickedAtPlaces(lower: Key, list: Genres, barred: set<string>, n: nat)
    requires n <= |list|
    ensures var at, p := Places(lower, list, barred, n), Picked(lower, list, barred, n);
            |at| == |p| && forall k :: 0 <= k < |p| ==> at[k] < |list| && p[k] == list[at[k]]
  {
    if n > 0 {
      PickedAtPlaces(lower, list, barred, n - 1);
      PicksMeansUnseen(lower, list, barred, n - 1);
      hide Picks, Keys;
      assert Picked(lower, list, barred, n - 1) + [] == Picked(lower, list, barred, n - 1);
    }
  }

  lemma PicksMeansUnseen(lower: Key, list: Genres, barred: set<string>, i: nat)
    requires i < |list|
    ensures Picks(lower, list, barred, i) <==> lower(list[i]) !in barred && lower(list[i]) !in Keys(lower, list[..i])
  {
    var front := list[..i];
    forall j | 0 <= j < i ensures front[j] == list[j] && lower(list[j]) in Keys(lower, front) {
      assert front[j] == list[j];
    }
  }

  /** The genres of `list` whose key is (in) or is not (!in) among the keys. */
  function Filter(lower: Key, list: Genres, keys: set<string>, inside: bool): Genres {
    if list == [] then []
    else
      var m := |list| - 1;
      Filter(lower, list[..m], keys, inside) + if (lower(list[m]) in keys) == inside then [list[m]] else []
  }

  /** Where no key repeats, picking is filtering: order and spelling are the list's own. */
  lemma {:induction false} PickedIsFilter(lower: Key, list: Genres, barred: set<string>, n: nat)
    requires n <= |list| && Distinct(lower, list)
    ensures Picked(lower, list, barred, n) == Filter(lower, list[..n], barred, false)
  {
    if n > 0 {
      PickedIsFilter(lower, list, barred, n - 1);
      assert list[..n][..n - 1] == list[..n - 1];
    }
  }

  lemma {:induction false} FilterBoth(lower: Key, a: Genres, b: Genres, keys: set<string>, inside: bool)
    ensures Filter(lower, a + b, keys, inside) == Filter(lower, a, keys, inside) + Filter(lower, b, keys, inside)
  {
    if b == [] {
      assert a + b == a;
      assert Filter(lower, a, keys, inside) + [] == Filter(lower, a, keys, inside);
    } else {
      var m := |b| - 1;
      assert (a + b)[..|a + b| - 1] == a + b[..m];
      FilterBoth(lower, a, b[..m], keys, inside);
    }
  }

  lemma {:induction false} FilterAll(lower: Key, list: Genres, keys: set<string>, inside: bool)
    requires forall i :: 0 <= i < |list| ==> (lower(list[i]) in keys) == inside
    ensures Filter(lower, list, keys, inside) == list
  {
    if list != [] {
      FilterAll(lower, list[..|list| - 1], keys, inside);
    }
  }

  lemma {:induction false} FilterSame(lower: Key, list: Genres, a: set<string>, inA: bool, b: set<string>, inB: bool)
    requires forall i :: 0 <= i < |list| ==> ((lower(list[i]) in a) == inA <==> (lower(list[i]) in b) == inB)
    ensures Filter(lower, list, a, inA) == Filter(lower, list, b, inB)
  {
    if list != [] {
      FilterSame(lower, list[..|list| - 1], a, inA, b, inB);
    }
  }

  /** Barring more keys filters what was picked. */
  lemma {:induction false} PickedFewer(lower: Key, list: Genres, barred: set<string>, more: set<string>, n: nat)
    requires n <= |list| && barred <= more
    ensures Picked(lower, list, more, n) == Filter(lower, Picked(lower, list, barred, n), more, false)
  {
    if n > 0 {
      PickedFewer(lower, list, barred, more, n - 1);
      var rest := Picked(lower, list, barred, n - 1);
      FilterBoth(lower, rest, [list[n - 1]], more, false);
      assert [list[n - 1]][..0] == [];
      assert rest + [] == rest;
    }
  }

  lemma {:induction false} FilterKeys(lower: Key, list: Genres, keys: set<string>)
    ensures Keys(lower, Filter(lower, list, keys, false)) == Keys(lower, list) - keys
  {
    if list != [] {
      var m := |list| - 1;
      FilterKeys(lower, list[..m], keys);
      assert list == list[..m] + [list[m]];
      KeysOfMore(lower, list[..m], list[m]);
      KeysOfMore(lower, Filter(lower, list[..m], keys, false), list[m]);
      assert Filter(lower, list[..m], keys, false) + [] == Filter(lower, list[..m], keys, false);
    }
  }

  /**
   * Merging again into a list that is kept genres followed by additions: the
   * additions named in remove go, and come back at the end.
   */
  lemma MergeAgain(lower: Key, kept: Genres, tail: Genres, add: Genres, remove: Genres)
    requires Distinct(lower, kept + tail) && Keys(lower, kept) !! Keys(lower, remove)
    requires Keys(lower, kept + tail) == Keys(lower, kept) + Keys(lower, add)
    requires Filter(lower, tail, Keys(lower, remove), true)
             == Filter(lower, Picked(lower, add, Keys(lower, kept), |add|), Keys(lower, remove), true)
    ensures Merge(lower, kept + tail, add, remove)
            == kept + Filter(lower, tail, Keys(lower, remove), false) + Filter(lower, tail, Keys(lower, remove), true)
  {
    var drop, all := Keys(lower, remove), kept + tail;
    var stays := Filter(lower, tail, drop, false);
    PickedIsFilter(lower, all, drop, |all|);
    assert all[..|all|] == all;
    FilterBoth(lower, kept, tail, drop, false);
    forall i | 0 <= i < |kept| ensures (lower(kept[i]) in drop) == false {
      assert lower(kept[i]) in Keys(lower, kept);
    }
    FilterAll(lower, kept, drop, false);
    assert Survivors(lower, all, remove) == kept + stays;
    KeysOfBoth(lower, kept, stays);
    FilterKeys(lower, tail, drop);
    KeysOfBoth(lower, kept, tail);
    AddedBack(lower, kept, tail, add, drop);
  }

  lemma AddedBack(lower: Key, kept: Genres, tail: Genres, add: Genres, drop: set<string>)
    requires Keys(lower, kept) !! drop && Distinct(lower, kept + tail)
    requires Keys(lower, kept) + Keys(lower, tail) == Keys(lower, kept) + Keys(lower, add)
    requires Filter(lower, tail, drop, true) == Filter(lower, Picked(lower, add, Keys(lower, kept), |add|), drop, true)
    ensures Picked(lower, add, Keys(lower, kept) + (Keys(lower, tail) - drop), |add|) == Filter(lower, tail, drop, true)
  {
    var more := Keys(lower, kept) + (Keys(lower, tail) - drop);
    var picked := Picked(lower, add, Keys(lower, kept), |add|);
    PickedFewer(lower, add, Keys(lower, kept), more, |add|);
    PickedKeys(lower, add, Keys(lower, kept), |add|);
    assert add[..|add|] == add;
    forall i | 0 <= i < |picked| ensures (lower(picked[i]) in more) == false <==> (lower(picked[i]) in drop) == true {
      assert lower(picked[i]) in Keys(lower, picked);
    }
    FilterSame(lower, picked, more, false, drop, true);
  }

  /** The result of a second, equal merge: additions also named in remove move behind the others. */
  lemma SecondMerge(lower: Key, current: Genres, add: Genres, remove: Genres)
    ensures var first := Merge(lower, current, add, remove);
            var added := Additions(lower, current, add, remove);
            Merge(lower, first, add, remove)
            == Survivors(lower, current, remove)
               + Filter(lower, added, Keys(lower, remove), false) + Filter(lower, added, Keys(lower, remove), true)
  {
    var kept, added := Survivors(lower, current, remove), Additions(lower, current, add, remove);
    MergeDistinct(lower, current, add, remove);
    MergeKeys(lower, current, add, remove);
    PickedKeys(lower, current, Keys(lower, remove), |current|);
    assert current[..|current|] == current;
    MergeAgain(lower, kept, added, add, remove);
  }

  /** No addition named in remove comes before one that is not. */
  predicate RemovedLast(lower: Key, added: Genres, drop: set<string>) {
    forall i, j :: 0 <= i < j < |added| && lower(added[i]) in drop ==> lower(added[j]) in drop
  }

  lemma {:induction false} PartitionKeeps(lower: Key, added: Genres, drop: set<string>)
    requires RemovedLast(lower, added, drop)
    ensures Filter(lower, added, drop, false) + Filter(lower, added, drop, true) == added
  {
    if added != [] {
      var m := |added| - 1;
      var front := added[..m];
      PartitionKeeps(lower, front, drop);
      if lower(added[m]) !in drop {
        forall i | 0 <= i < |front| ensures (lower(front[i]) in drop) == false {
          assert front[i] == added[i];
        }
        FilterAll(lower, front, drop, false);
        FilterNone(lower, front, drop);
      } else {
        assert Filter(lower, front, drop, false) + (Filter(lower, front, drop, true) + [added[m]]) == front + [added[m]];
      }
    }
  }

  lemma PartitionMeans(lower: Key, added: Genres, drop: set<string>)
    requires Filter(lower, added, drop, false) + Filter(lower, added, drop, true) == added
    ensures RemovedLast(lower, added, drop)
  {
    var a, b := Filter(lower, added, drop, false), Filter(lower, added, drop, true);
    FilterMembers(lower, added, drop, false);
    FilterMembers(lower, added, drop, true);
    forall k | 0 <= k < |added| ensures lower(added[k]) in drop <==> k >= |a| {
      assert added[k] == (a + b)[k];
    }
  }

  predicate AllSide(lower: Key, list: Genres, keys: set<string>, inside: bool) {
    forall i :: 0 <= i < |list| ==> (lower(list[i]) in keys) == inside
  }

  lemma {:induction false} FilterMembers(lower: Key, list: Genres, keys: set<string>, inside: bool)
    ensures AllSide(lower, Filter(lower, list, keys, inside), keys, inside)
  {
    if list != [] {
      var m := |list| - 1;
      FilterMembers(lower, list[..m], keys, inside);
      var f, rest := Filter(lower, list, keys, inside), Filter(lower, list[..m], keys, inside);
      forall i | 0 <= i < |f| ensures (lower(f[i]) in keys) == inside {
        if i < |rest| {
          assert f[i] == rest[i];
        }
      }
    }
  }

  lemma {:induction false} FilterNone(lower: Key, list: Genres, keys: set<string>)
    requires forall i :: 0 <= i < |list| ==> lower(list[i]) !in keys
    ensures Filter(lower, list, keys, true) == []
  {
    if list != [] {
      FilterNone(lower, list[..|list| - 1], keys);
    }
  }

  /** A genre of add that is news: the first of its key there, neither the item's own nor named in remove. */
  predicate News(lower: Key, current: Genres, add: Genres, remove: Genres, j: nat) {
    Picks(lower, add, Keys(lower, current) + Keys(lower, remove), j)
  }

  /** In add, a genre that remove names comes before one that is news. */
  predicate RemovedBeforeNews(lower: Key, current: Genres, add: Genres, remove: Genres) {
    exists i: nat, j: nat :: i < j < |add| && lower(add[i]) in Keys(lower, remove) && News(lower, current, add, remove, j)
  }

  lemma {:induction false} FirstOfItsKey(lower: Key, list: Genres, i: nat) returns (f: nat)
    requires i < |list|
    ensures f <= i && lower(list[f]) == lower(list[i]) && forall j :: 0 <= j < f ==> lower(list[j]) != lower(list[f])
  {
    f := i;
    if j :| 0 <= j < i && lower(list[j]) == lower(list[i]) {
      f := FirstOfItsKey(lower, list, j);
    }
  }

  /** Which genres of add are appended, and where. */
  lemma AdditionsAtPlaces(lower: Key, current: Genres, add: Genres, remove: Genres) returns (at: seq<nat>)
    ensures var added, own, drop := Additions(lower, current, add, remove), Keys(lower, current), Keys(lower, remove);
            && |at| == |added| && (forall k, l :: 0 <= k < l < |at| ==> at[k] < at[l])
            && (forall k :: 0 <= k < |at| ==> at[k] < |add| && added[k] == add[at[k]])
            && (forall i: nat :: i in at <==> Picks(lower, add, own - drop, i))
  {
    hide Keys;
    var barred := Keys(lower, Survivors(lower, current, remove));
    PickedKeys(lower, current, Keys(lower, remove), |current|);
    assert current[..|current|] == current;
    at := Places(lower, add, barred, |add|);
    PickedAtPlaces(lower, add, barred, |add|);
    PlacesAscend(lower, add, barred, |add|);
  }

  /** What is appended keeps the order of add, so the two orders are one. */
  lemma RemovedLastExactly(lower: Key, current: Genres, add: Genres, remove: Genres)
    ensures RemovedLast(lower, Additions(lower, current, add, remove), Keys(lower, remove))
            <==> !RemovedBeforeNews(lower, current, add, remove)
  {
    hide Keys, Additions, RemovedLast, RemovedBeforeNews;
    if RemovedBeforeNews(lower, current, add, remove) {
      NewsAfterRemoved(lower, current, add, remove);
    } else if !RemovedLast(lower, Additions(lower, current, add, remove), Keys(lower, remove)) {
      NewsIsWhy(lower, current, add, remove);
    }
  }

  lemma NewsIsWhy(lower: Key, current: Genres, add: Genres, remove: Genres)
    requires !RemovedLast(lower, Additions(lower, current, add, remove), Keys(lower, remove))
    ensures RemovedBeforeNews(lower, current, add, remove)
  {
    hide Keys, Additions;
    var drop, added := Keys(lower, remove), Additions(lower, current, add, remove);
    var at := AdditionsAtPlaces(lower, current, add, remove);
    var k, l :| 0 <= k < l < |added| && lower(added[k]) in drop && lower(added[l]) !in drop;
    assert at[l] in at;
    assert News(lower, current, add, remove, at[l]);
  }

  lemma NewsAfterRemoved(lower: Key, current: Genres, add: Genres, remove: Genres)
    requires RemovedBeforeNews(lower, current, add, remove)
    ensures !RemovedLast(lower, Additions(lower, current, add, remove), Keys(lower, remove))
  {
    hide Keys, Additions;
    var drop, added := Keys(lower, remove), Additions(lower, current, add, remove);
    var at := AdditionsAtPlaces(lower, current, add, remove);
    var i: nat, j: nat :| i < j < |add| && lower(add[i]) in drop && News(lower, current, add, remove, j);
    var f := FirstOfItsKey(lower, add, i);
    assert f in at && j in at;
    var k, l :| 0 <= k < |at| && 0 <= l < |at| && at[k] == f && at[l] == j;
    assert k < l;
    assert lower(added[k]) in drop && lower(added[l]) !in drop;
  }

  /**
   * Merging twice is merging once exactly when, in add, no genre that remove
   * also names comes before one that is news to the item.
   */
  lemma IdempotentExactly(lower: Key, current: Genres, add: Genres, remove: Genres)
    ensures Merge(lower, Merge(lower, current, add, remove), add, remove) == Merge(lower, current, add, remove)
            <==> !RemovedBeforeNews(lower, current, add, remove)
  {
    var kept, added := Survivors(lower, current, remove), Additions(lower, current, add, remove);
    var parts := Filter(lower, added, Keys(lower, remove), false) + Filter(lower, added, Keys(lower, remove), true);
    SecondMerge(lower, current, add, remove);
    RemovedLastExactly(lower, current, add, remove);
    if RemovedLast(lower, added, Keys(lower, remove)) {
      PartitionKeeps(lower, added, Keys(lower, remove));
    }
    assert kept + Filter(lower, added, Keys(lower, remove), false) + Filter(lower, added, Keys(lower, remove), true) == kept + parts;
    if kept + parts == kept + added {
      assert parts == (kept + parts)[|kept|..] == (kept + added)[|kept|..] == added;
      PartitionMeans(lower, added, Keys(lower, remove));
    }
  }

  /** So it is idempotent whenever add and remove share no genre ignoring case. */
  lemma DisjointIsIdempotent(lower: Key, current: Genres, add: Genres, remove: Genres)
    requires Keys(lower, add) !! Keys(lower, remove)
    ensures Merge(lower, Merge(lower, current, add, remove), add, remove) == Merge(lower, current, add, remove)
  {
    forall i | 0 <= i < |add| ensures lower(add[i]) !in Keys(lower, remove) {
      assert lower(add[i]) in Keys(lower, add);
    }
    IdempotentExactly(lower, current, add, remove);
  }

  // ------------------------------------------------- when nothing changes

  /**
   * Remove names the item's genres from the n-th on, and add puts them back: in
   * their order and their spelling, each at the first mention of its key.
   */
  predicate PutBack(lower: Key, current: Genres, add: Genres, remove: Genres, n: nat, at: seq<nat>) {
    && n + |at| == |current|
    && (forall i :: 0 <= i < |current| ==> (lower(current[i]) in Keys(lower, remove) <==> n <= i))
    && (forall k, l :: 0 <= k < l < |at| ==> at[k] < at[l])
    && (forall k :: 0 <= k < |at| ==> Picks(lower, add, {}, at[k]) && add[at[k]] == current[n + k])
  }

  /** No genre repeats, add has none that is new, and remove takes none that add does not put back. */
  ghost predicate Unmoved(lower: Key, current: Genres, add: Genres, remove: Genres) {
    && Distinct(lower, current) && Keys(lower, add) <= Keys(lower, current)
    && exists n: nat, at: seq<nat> :: PutBack(lower, current, add, remove, n, at)
  }

  lemma SurvivorsInFront(lower: Key, current: Genres, remove: Genres, n: nat)
    requires n <= |current| && Distinct(lower, current)
    requires forall i :: 0 <= i < |current| ==> (lower(current[i]) in Keys(lower, remove) <==> n <= i)
    ensures Survivors(lower, current, remove) == current[..n]
  {
    var drop := Keys(lower, remove);
    PickedIsFilter(lower, current, drop, |current|);
    hide Keys, Distinct, Filter, Picked;
    assert current[..|current|] == current == current[..n] + current[n..];
    FilterBoth(lower, current[..n], current[n..], drop, false);
    FilterAll(lower, current[..n], drop, false);
    FilterNotAny(lower, current[n..], drop);
  }

  lemma {:induction false} FilterNotAny(lower: Key, list: Genres, keys: set<string>)
    requires forall i :: 0 <= i < |list| ==> lower(list[i]) in keys
    ensures Filter(lower, list, keys, false) == []
  {
    if list != [] {
      FilterNotAny(lower, list[..|list| - 1], keys);
    }
  }

  lemma PutBackIsAdded(lower: Key, current: Genres, add: Genres, remove: Genres, n: nat, at: seq<nat>)
    requires Keys(lower, add) <= Keys(lower, current) && PutBack(lower, current, add, remove, n, at)
    ensures Additions(lower, current, add, remove) == current[n..]
  {
    var own, drop := Keys(lower, current), Keys(lower, remove);
    var places := AdditionsAtPlaces(lower, current, add, remove);
    forall i: nat ensures i in at <==> i in places {
      if i in at {
        assert Picks(lower, add, own - drop, i);
      }
      if i in places {
        assert lower(add[i]) in Keys(lower, add);
        var m :| 0 <= m < |current| && lower(current[m]) == lower(add[i]);
        assert lower(current[m]) in own;
        assert add[at[m - n]] == current[m];
        assert i == at[m - n];
      }
    }
    hide PutBack;
    forall i: int ensures i in at <==> i in places {
      assert i < 0 ==> i !in at && i !in places;
      if i >= 0 {
        var j: nat := i;
        assert j in at <==> j in places;
      }
    }
    SortedInts.AscendingIsUnique(at, places);
  }

  /** Exactly then the merge leaves the genres as they are. */
  lemma UnchangedExactly(lower: Key, current: Genres, add: Genres, remove: Genres)
    ensures Merge(lower, current, add, remove) == current <==> Unmoved(lower, current, add, remove)
  {
    if Unmoved(lower, current, add, remove) {
      var n: nat, at: seq<nat> :| PutBack(lower, current, add, remove, n, at);
      hide Additions, Survivors, Keys;
      SurvivorsInFront(lower, current, remove, n);
      PutBackIsAdded(lower, current, add, remove, n, at);
      assert current == current[..n] + current[n..];
    }
    if Merge(lower, current, add, remove) == current {
      UnchangedIsUnmoved(lower, current, add, remove);
    }
  }

  lemma UnchangedIsUnmoved(lower: Key, current: Genres, add: Genres, remove: Genres)
    requires Merge(lower, current, add, remove) == current
    ensures Unmoved(lower, current, add, remove)
  {
    var kept, drop := Survivors(lower, current, remove), Keys(lower, remove);
    MergeDistinct(lower, current, add, remove);
    MergeKeys(lower, current, add, remove);
    var at := AdditionsAtPlaces(lower, current, add, remove);
    PickedKeys(lower, current, drop, |current|);
    assert current[..|current|] == current;
    var n := |kept|;
    forall i | 0 <= i < |current| ensures lower(current[i]) in drop <==> n <= i {
      assert lower(current[i]) in Keys(lower, current);
      if i < n {
        assert lower(kept[i]) in Keys(lower, kept);
      } else {
        assert at[i - n] in at;
      }
    }
    forall k | 0 <= k < |at| ensures Picks(lower, add, {}, at[k]) {
      assert at[k] in at;
    }
    assert PutBack(lower, current, add, remove, n, at);
  }
}
