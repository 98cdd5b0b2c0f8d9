/**
 * The labels of a bulk edit: RemoveMediaItemLabels and AddMediaItemLabels of
 * internal/db/queries/labels.sql, one row at a time. `order` stands for ORDER BY.
 */
module BulkLabels {

  type Labels = seq<string>

  type Sorter = Labels -> Labels

  /** What ORDER BY does at least: it loses and invents nothing. */
  ghost predicate Sorts(order: Sorter) { forall labels: Labels :: multiset(order(labels)) == multiset(labels) }

  predicate Common(labels: Labels, gone: Labels) { exists l <- labels :: l in gone }

  function Without(labels: Labels, gone: Labels): Labels {
    if labels == [] then []
    else (if labels[0] in gone then [] else [labels[0]]) + Without(labels[1..], gone)
  }

  /** SELECT DISTINCT. */
  function DistinctOf(labels: Labels): Labels {
    if labels == [] then []
    else (if labels[0] in labels[1..] then [] else [labels[0]]) + DistinctOf(labels[1..])
  }

  /** A row after the remove; items carrying none of the labels are untouched. */
  function Removed(order: Sorter, labels: Labels, gone: Labels): Labels {
    if Common(labels, gone) then order(Without(labels, gone)) else labels
  }

  /** A row after the add; an item that would exceed the cap is left unchanged. */
  function Added(order: Sorter, labels: Labels, more: Labels, cap: int): Labels {
    var merged := order(DistinctOf(labels + more));
    if merged != labels && |merged| <= cap then merged else labels
  }

  /** A row after both, neither being issued for an empty list. */
  function Relabelled(order: Sorter, labels: Labels, gone: Labels, more: Labels, cap: int): Labels {
    var left := Removed(order, labels, gone);
    if more == [] then left else Added(order, left, more, cap)
  }

  lemma {:induction false} WithoutMembers(labels: Labels, gone: Labels)
    ensures forall l :: l in Without(labels, gone) <==> l in labels && l !in gone
  {
    if labels != [] {
      WithoutMembers(labels[1..], gone);
    }
  }

  lemma {:induction false} DistinctMembers(labels: Labels)
    ensures forall l :: l in DistinctOf(labels) <==> l in labels
    ensures |DistinctOf(labels)| == |set l | l in labels|
  {
    if labels != [] {
      var rest := labels[1..];
      DistinctMembers(rest);
      assert labels == [labels[0]] + rest;
      var all, left := set l | l in labels, set l | l in rest;
      assert all == left + {labels[0]};
      if labels[0] in rest {
        assert all == left;
      } else {
        assert |all| == |left| + 1;
      }
    }
  }

  lemma SortedMembers(order: Sorter, labels: Labels)
    requires Sorts(order)
    ensures forall l :: l in order(labels) <==> l in labels
    ensures |order(labels)| == |labels|
  {
    assert multiset(order(labels)) == multiset(labels);
    forall l ensures l in order(labels) <==> l in labels {
      assert l in multiset(order(labels)) <==> l in multiset(labels);
    }
    assert |multiset(order(labels))| == |multiset(labels)|;
  }

  /** What the item would carry if everything could be added. */
  function Wanted(labels: Labels, gone: Labels, more: Labels): set<string> {
    (set l | l in labels && l !in gone) + (set l | l in more)
  }

  /**
   * The labels come out as asked: without the removed ones, with the added ones
   * unless they would take the item past the cap; and an add never takes it there.
   */
  lemma RelabelledMeans(order: Sorter, labels: Labels, gone: Labels, more: Labels, cap: int)
    requires Sorts(order)
    ensures var after := Relabelled(order, labels, gone, more, cap);
            && (forall l :: l in after <==> (l in labels && l !in gone) || (l in more && |Wanted(labels, gone, more)| <= cap))
            && (|after| <= cap || forall l <- after :: l in labels)
  {
    var left := Removed(order, labels, gone);
    WithoutMembers(labels, gone);
    SortedMembers(order, Without(labels, gone));
    DistinctMembers(left + more);
    SortedMembers(order, DistinctOf(left + more));
    assert (set l | l in left + more) == Wanted(labels, gone, more);
  }
}
