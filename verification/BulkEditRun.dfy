/**
 * Run and Apply of internal/bulkedit/bulkedit.go: one request over the locked
 * rows and their labels, in one transaction.
 */
module BulkEditRun {
  import opened Wrappers
  import opened GenreMerge
  import opened BulkEdit
  import opened BulkLabels
  import opened SortedInts

  /** The live items by id. */
  type Items = map<int, Item>

  predicate Keyed(items: Items) { forall id <- items :: items[id].id == id }

  /** The labels of the same items. */
  type Tags = map<int, Labels>

  datatype BulkResult = BulkResult(matched: nat, updated: seq<int>, labelsAdded: nat, labelsRemoved: nat, skipped: seq<Skip>)

  datatype DbError = DbError

  datatype EditOutcome = Stored | NoRows | Failed

  /** A failing commit stores nothing, or everything with the reply lost. */
  datatype CommitFate = Committed | NotCommitted | ReplyLost

  /** How one request's statements will go: BEGIN, the locking SELECT, each item's one UPDATE, the labels' two, COMMIT. */
  datatype Luck = Luck(
    begins: bool, locks: bool, edits: int -> EditOutcome, removesLabels: bool, addsLabels: bool, commit: CommitFate)

  class Media {
    var items: Items
    var tags: Tags
    const order: Sorter
    const luck: Luck

    constructor (items: Items, tags: Tags, order: Sorter, luck: Luck)
      ensures this.items == items && this.tags == tags && this.order == order && this.luck == luck
    {
      this.items, this.tags, this.order, this.luck := items, tags, order, luck;
    }

    ghost predicate Valid()
      reads this
    {
      Keyed(items) && tags.Keys == items.Keys
    }

    /** LockMediaItemsForBulkEdit: the live rows among the ids, each once, by id. */
    method LockItems(ids: seq<int>) returns (r: Option<seq<int>>)
      ensures r.Some? <==> luck.locks
      ensures r.Some? ==>
                && (forall i, j :: 0 <= i < j < |r.value| ==> r.value[i] < r.value[j])
                && (forall id :: id in r.value <==> id in ids && id in items)
    {
      if !luck.locks {
        return None;
      }
      var todo: set<int> := set id | id in ids && id in items;
      var wanted := todo;
      var found: seq<int> := [];
      while todo != {}
        invariant todo <= wanted
        invariant forall id :: id in found <==> id in wanted && id !in todo
        invariant forall i, j :: 0 <= i < j < |found| ==> found[i] != found[j]
        decreases |todo|
      {
        var id := Any(todo);
        assert id !in found;
        found := found + [id];
        todo := todo - {id};
      }
      SortSorts(found);
      SortedDistinct(found, Sort(found));
      return Some(Sort(found));
    }

    /** EditMediaItemMetadata on one row. */
    method EditItem(id: int, p: Params) returns (outcome: EditOutcome)
      modifies this`items
      ensures outcome == luck.edits(id)
      ensures items == if outcome.Stored? && id in old(items) then old(items)[id := Edit(old(items)[id], p)] else old(items)
    {
      outcome := luck.edits(id);
      if outcome.Stored? && id in items {
        items := items[id := Edit(items[id], p)];
      }
    }

    /** RemoveMediaItemLabels; the number is that of the rows it changed. */
    method RemoveLabels(ids: seq<int>, gone: Labels) returns (r: Option<nat>)
      modifies this`tags
      ensures r == if luck.removesLabels then Some(|Losing(old(tags), ids, gone)|) else None
      ensures tags == if luck.removesLabels then AfterRemove(order, old(tags), ids, gone) else old(tags)
    {
      if !luck.removesLabels {
        return None;
      }
      r := Some(|Losing(tags, ids, gone)|);
      tags := AfterRemove(order, tags, ids, gone);
    }

    /** AddMediaItemLabels, likewise. */
    method AddLabels(ids: seq<int>, more: Labels, cap: int) returns (r: Option<nat>)
      modifies this`tags
      ensures r == if luck.addsLabels then Some(|Gaining(order, old(tags), ids, more, cap)|) else None
      ensures tags == if luck.addsLabels then AfterAdd(order, old(tags), ids, more, cap) else old(tags)
    {
      if !luck.addsLabels {
        return None;
      }
      r := Some(|Gaining(order, tags, ids, more, cap)|);
      tags := AfterAdd(order, tags, ids, more, cap);
    }

    /** COMMIT of all since BEGIN, when the rows were `saved` and `savedTags`. */
    method Commit(saved: Items, savedTags: Tags) returns (ok: bool)
      modifies this
      ensures ok <==> luck.commit.Committed?
      ensures items == if luck.commit.NotCommitted? then saved else old(items)
      ensures tags == if luck.commit.NotCommitted? then savedTags else old(tags)
    {
      ok := luck.commit.Committed?;
      if luck.commit.NotCommitted? {
        items, tags := saved, savedTags;
      }
    }
  }

  // The labels' two statements over all rows at once, and the rows each of them changes.

  function AfterRemove(order: Sorter, tags: Tags, ids: seq<int>, gone: Labels): Tags {
    map id | id in tags :: if id in ids then Removed(order, tags[id], gone) else tags[id]
  }

  function Losing(tags: Tags, ids: seq<int>, gone: Labels): set<int> {
    set id | id in tags && id in ids && Common(tags[id], gone)
  }

  function AfterAdd(order: Sorter, tags: Tags, ids: seq<int>, more: Labels, cap: int): Tags {
    map id | id in tags :: if id in ids then Added(order, tags[id], more, cap) else tags[id]
  }

  function Gaining(order: Sorter, tags: Tags, ids: seq<int>, more: Labels, cap: int): set<int> {
    set id | id in tags && id in ids && Added(order, tags[id], more, cap) != tags[id]
  }

  /** What a run reports of one live requested item, and what it leaves of it. */
  ghost predicate Done(lower: Key, req: Request, before: Item, after: Item, outcome: EditOutcome, res: BulkResult) {
    && (if before.id in res.updated then outcome.Stored? && after == Edited(lower, before, req)
        else after == before
             && (Edited(lower, before, req) == before
                 || (outcome.NoRows? && Skip(before.id, before.title, None, NotFound) in res.skipped)))
    && (forall f: Field, s: Skip :: s in Skips(before, req, f) ==> s in res.skipped)
  }

  ghost predicate Honest(before: Items, req: Request, luck: Luck, s: Skip) {
    && s.item in req.ids
    && (s.field.Some? ==> s.item in before && s in Skips(before[s.item], req, s.field.value))
    && (s.field.None? ==> s.reason.NotFound? && (s.item !in before || luck.edits(s.item).NoRows?))
  }

  /**
   * A finished run: every requested item got its edit or is reported, no other
   * item is touched, and every skip reported is true of the items as they were.
   */
  ghost predicate Finished(lower: Key, req: Request, before: Items, after: Items, luck: Luck, res: BulkResult) {
    && after.Keys == before.Keys
    && (forall id <- before ::
          if id in req.ids then Done(lower, req, before[id], after[id], luck.edits(id), res) else after[id] == before[id])
    && (forall id <- res.updated :: id in req.ids && id in before)
    && (forall id <- req.ids :: id !in before ==> Skip(id, "", None, NotFound) in res.skipped)
    && (forall s <- res.skipped :: Honest(before, req, luck, s))
    && res.matched == |set id | id in req.ids && id in before|
  }

  /** Every requested item's labels come out as asked, no other item's change, and the counts are of the rows changed. */
  ghost predicate Retagged(order: Sorter, req: Request, before: Tags, after: Tags, res: BulkResult) {
    && after.Keys == before.Keys
    && (forall id <- before ::
          after[id] == if id in req.ids then Relabelled(order, before[id], req.removeLabels, req.addLabels, req.maxLabels) else before[id])
    && res.labelsRemoved == |set id | id in before && id in req.ids && Common(before[id], req.removeLabels)|
    && res.labelsAdded == |set id | id in before && id in req.ids && after[id] != Removed(order, before[id], req.removeLabels)|
  }

  /** A statement before the commit fails. */
  ghost predicate Broken(req: Request, before: Items, luck: Luck) {
    || !luck.locks || (exists id <- req.ids :: id in before && luck.edits(id).Failed?)
    || ((exists id <- req.ids :: id in before)
        && ((req.removeLabels != [] && !luck.removesLabels) || (req.addLabels != [] && !luck.addsLabels)))
  }

  lemma {:induction false} AscendingCount(ids: seq<int>)
    requires forall i, j :: 0 <= i < j < |ids| ==> ids[i] < ids[j]
    ensures |set id | id in ids| == |ids|
  {
    if ids != [] {
      var front, last := ids[..|ids| - 1], ids[|ids| - 1];
      AscendingCount(front);
      assert ids == front + [last];
      assert (set id | id in ids) == (set id | id in front) + {last};
    }
  }

  method Missing(ids: seq<int>, found: seq<int>) returns (skipped: seq<Skip>)
    ensures forall id <- ids :: id !in found ==> Skip(id, "", None, NotFound) in skipped
    ensures forall s <- skipped :: s.item in ids && s.item !in found && s.field.None? && s.reason.NotFound?
  {
    skipped := [];
    var i := 0;
    while i < |ids|
      invariant 0 <= i <= |ids|
      invariant forall id <- ids[..i] :: id !in found ==> Skip(id, "", None, NotFound) in skipped
      invariant forall s <- skipped :: s.item in ids && s.item !in found && s.field.None? && s.reason.NotFound?
    {
      assert ids[..i + 1] == ids[..i] + [ids[i]];
      if ids[i] !in found {
        skipped := skipped + [Skip(ids[i], "", None, NotFound)];
      }
      i := i + 1;
    }
    assert ids[..i] == ids;
  }

  /** What has happened after the first n of the rows. */
  ghost predicate SoFar(lower: Key, req: Request, before: Items, now: Items, luck: Luck, rows: seq<int>, n: nat, res: BulkResult) {
    && n <= |rows| && now.Keys == before.Keys
    && (forall k :: 0 <= k < n ==> rows[k] in before && Done(lower, req, before[rows[k]], now[rows[k]], luck.edits(rows[k]), res))
    && (forall id <- before :: id !in rows[..n] ==> now[id] == before[id])
    && (forall id <- res.updated :: id in rows[..n])
    && (forall s <- res.skipped :: Honest(before, req, luck, s))
  }

  /** One more row: its result is added and no earlier row's report is lost. */
  lemma OneMore(lower: Key, req: Request, before: Items, now: Items, next: Items, luck: Luck,
                rows: seq<int>, n: nat, res: BulkResult, more: BulkResult, skips: seq<Skip>, outcome: Option<EditOutcome>)
    requires Keyed(before) && SoFar(lower, req, before, now, luck, rows, n, res) && n < |rows|
    requires rows[n] in before && rows[n] in req.ids
    requires forall i, j :: 0 <= i < j < |rows| ==> rows[i] < rows[j]
    requires skips == Skips(before[rows[n]], req, ContentRating) + Skips(before[rows[n]], req, GenreList)
    requires outcome.Some? ==> outcome.value == luck.edits(rows[n]) && !outcome.value.Failed?
    requires outcome.None? ==> Edited(lower, before[rows[n]], req) == before[rows[n]]
    requires outcome.None? || outcome.value.NoRows? ==> next == now
    requires outcome.Some? && !outcome.value.NoRows? ==> next == now[rows[n] := Edited(lower, before[rows[n]], req)]
    requires more == res.(
                 skipped := res.skipped + skips +
                   if outcome.Some? && outcome.value.NoRows? then [Skip(rows[n], before[rows[n]].title, None, NotFound)] else [],
                 updated := res.updated + if outcome.Some? && !outcome.value.NoRows? then [rows[n]] else [])
    ensures SoFar(lower, req, before, next, luck, rows, n + 1, more)
  {
    hide Edited;
    var id := rows[n];
    assert rows[..n + 1] == rows[..n] + [id];
    assert id !in rows[..n];
    assert id !in res.updated;
    forall s | s in more.skipped ensures Honest(before, req, luck, s) {
      assert s in res.skipped || s in skips || s == Skip(id, before[id].title, None, NotFound);
    }
    forall f: Field, s: Skip | s in Skips(before[id], req, f) ensures s in more.skipped {
      assert s in skips;
    }
    assert Done(lower, req, before[id], next[id], luck.edits(id), more);
    forall k | 0 <= k < n ensures Done(lower, req, before[rows[k]], next[rows[k]], luck.edits(rows[k]), more) {
      assert rows[k] < id;
      EarlierKept(lower, req, before[rows[k]], now[rows[k]], luck.edits(rows[k]), res, more, id);
    }
  }

  lemma EarlierKept(lower: Key, req: Request, before: Item, after: Item, outcome: EditOutcome, res: BulkResult, more: BulkResult, id: int)
    requires Done(lower, req, before, after, outcome, res) && before.id != id
    requires res.skipped <= more.skipped && (more.updated == res.updated || more.updated == res.updated + [id])
    ensures Done(lower, req, before, after, outcome, more)
  {
    hide Edited, Skips;
    assert more.skipped == res.skipped + more.skipped[|res.skipped|..];
    assert before.id in more.updated <==> before.id in res.updated;
  }

  /** Run's loop over the locked rows. A failure part-way leaves earlier rows edited; Apply's transaction undoes them. */
  method EditRows(media: Media, lower: Key, req: Request, rows: seq<int>) returns (r: Result<BulkResult, DbError>)
    requires Keyed(media.items)
    requires forall i, j :: 0 <= i < j < |rows| ==> rows[i] < rows[j]
    requires forall id :: id in rows <==> id in req.ids && id in media.items
    modifies media`items
    ensures r.Ok? ==> Finished(lower, req, old(media.items), media.items, media.luck, r.value)
    ensures r.Err? ==> Broken(req, old(media.items), media.luck)
  {
    ghost var before := media.items;
    var skipped := Missing(req.ids, rows);
    ghost var missing := skipped;
    var res := BulkResult(|rows|, [], 0, 0, skipped);
    var i := 0;
    while i < |rows|
      invariant 0 <= i <= |rows| && res.matched == |rows|
      invariant SoFar(lower, req, before, media.items, media.luck, rows, i, res)
      invariant missing <= res.skipped
    {
      var id := rows[i];
      assert id !in rows[..i] by {
        forall k | 0 <= k < i ensures rows[k] != id {}
      }
      var row := media.items[id];
      ghost var now, was := media.items, res;
      var p, skips, write := Plan(lower, row, req);
      res := res.(skipped := res.skipped + skips);
      if !write {
        assert res == was.(skipped := was.skipped + skips + [], updated := was.updated + []);
        OneMore(lower, req, before, now, media.items, media.luck, rows, i, was, res, skips, None);
        i := i + 1;
        continue;
      }
      var outcome := media.EditItem(id, p);
      if outcome.Failed? {
        return Err(DbError);
      }
      if outcome.NoRows? {
        res := res.(skipped := res.skipped + [Skip(id, row.title, None, NotFound)]);
        assert res == was.(skipped := was.skipped + skips + [Skip(id, row.title, None, NotFound)], updated := was.updated + []);
      } else {
        res := res.(updated := res.updated + [id]);
        assert res == was.(skipped := was.skipped + skips + [], updated := was.updated + [id]);
      }
      OneMore(lower, req, before, now, media.items, media.luck, rows, i, was, res, skips, Some(outcome));
      i := i + 1;
    }
    AllRows(lower, req, before, media.items, media.luck, rows, res, missing);
    return Ok(res);
  }

  lemma AllRows(lower: Key, req: Request, before: Items, after: Items, luck: Luck, rows: seq<int>, res: BulkResult, missing: seq<Skip>)
    requires Keyed(before) && SoFar(lower, req, before, after, luck, rows, |rows|, res)
    requires forall i, j :: 0 <= i < j < |rows| ==> rows[i] < rows[j]
    requires forall id :: id in rows <==> id in req.ids && id in before
    requires missing <= res.skipped && forall id <- req.ids :: id !in rows ==> Skip(id, "", None, NotFound) in missing
    requires res.matched == |rows|
    ensures Finished(lower, req, before, after, luck, res)
  {
    assert rows[..|rows|] == rows;
    AscendingCount(rows);
    var live := set id | id in req.ids && id in before;
    forall id ensures id in live <==> id in (set x | x in rows) {
      assert id in live <==> id in rows;
    }
    assert live == set id | id in rows;
    forall id | id in before && id in req.ids ensures Done(lower, req, before[id], after[id], luck.edits(id), res) {
      var k :| 0 <= k < |rows| && rows[k] == id;
    }
  }

  /** The labels, after the rows: first the remove, then the add. */
  method EditLabels(media: Media, req: Request, rows: seq<int>, res: BulkResult) returns (r: Result<BulkResult, DbError>)
    requires forall id :: id in rows <==> id in req.ids && id in media.tags
    modifies media`tags
    ensures r.Ok? ==> Retagged(media.order, req, old(media.tags), media.tags, r.value)
    ensures r.Ok? ==> r.value.(labelsAdded := res.labelsAdded, labelsRemoved := res.labelsRemoved) == res
    ensures r.Err? ==> rows != []
    ensures r.Err? ==> (req.removeLabels != [] && !media.luck.removesLabels) || (req.addLabels != [] && !media.luck.addsLabels)
  {
    var removed, added := 0, 0;
    ghost var before := media.tags;
    if req.removeLabels != [] && rows != [] {
      var n := media.RemoveLabels(rows, req.removeLabels);
      if n.None? {
        return Err(DbError);
      }
      removed := n.value;
    }
    if req.removeLabels == [] || rows == [] {
      NothingToRemove(media.order, before, rows, req.removeLabels);
    }
    ghost var between := media.tags;
    if req.addLabels != [] && rows != [] {
      var n := media.AddLabels(rows, req.addLabels, req.maxLabels);
      if n.None? {
        return Err(DbError);
      }
      added := n.value;
    }
    r := Ok(res.(labelsAdded := added, labelsRemoved := removed));
    BothDone(media.order, req, before, between, media.tags, rows, r.value);
  }

  lemma NothingToRemove(order: Sorter, tags: Tags, ids: seq<int>, gone: Labels)
    requires gone == [] || ids == []
    ensures AfterRemove(order, tags, ids, gone) == tags && Losing(tags, ids, gone) == {}
  {
    forall id | id in tags ensures !(id in ids && Common(tags[id], gone)) {
      assert ids == [] ==> id !in ids;
    }
    forall id <- tags ensures AfterRemove(order, tags, ids, gone)[id] == tags[id] {}
  }

  lemma BothDone(order: Sorter, req: Request, before: Tags, between: Tags, after: Tags, rows: seq<int>, res: BulkResult)
    requires forall id :: id in rows <==> id in req.ids && id in before
    requires between == AfterRemove(order, before, rows, req.removeLabels)
    requires res.labelsRemoved == |Losing(before, rows, req.removeLabels)|
    requires after == if req.addLabels != [] && rows != [] then AfterAdd(order, between, rows, req.addLabels, req.maxLabels) else between
    requires res.labelsAdded == if req.addLabels != [] && rows != []
                                then |Gaining(order, between, rows, req.addLabels, req.maxLabels)| else 0
    ensures Retagged(order, req, before, after, res)
  {
    hide Removed, Added, Common;
    assert forall id <- before :: id in req.ids <==> id in rows;
    var losing := set id | id in before && id in req.ids && Common(before[id], req.removeLabels);
    forall id ensures id in losing <==> id in Losing(before, rows, req.removeLabels) {}
    assert losing == Losing(before, rows, req.removeLabels);
    var gaining := set id | id in before && id in req.ids && after[id] != Removed(order, before[id], req.removeLabels);
    if req.addLabels != [] && rows != [] {
      forall id ensures id in gaining <==> id in Gaining(order, between, rows, req.addLabels, req.maxLabels) {}
      assert gaining == Gaining(order, between, rows, req.addLabels, req.maxLabels);
    } else {
      forall id ensures id !in gaining {
        assert rows == [] ==> id !in rows;
      }
      assert gaining == {};
    }
    forall id <- before
      ensures after[id] == if id in req.ids then Relabelled(order, before[id], req.removeLabels, req.addLabels, req.maxLabels) else before[id]
    {
      assert id in req.ids <==> id in rows;
    }
  }

  /** What a run that went through leaves and reports. */
  twostate predicate RunDone(media: Media, lower: Key, req: Request, res: BulkResult)
    reads media
  {
    && Finished(lower, req, old(media.items), media.items, media.luck, res)
    && Retagged(media.order, req, old(media.tags), media.tags, res)
  }

  /** Run. */
  method Run(media: Media, lower: Key, req: Request) returns (r: Result<BulkResult, DbError>)
    requires media.Valid()
    modifies media
    ensures r.Ok? ==> RunDone(media, lower, req, r.value)
    ensures r.Err? ==> Broken(req, old(media.items), media.luck)
  {
    var locked := media.LockItems(req.ids);
    if locked.None? {
      return Err(DbError);
    }
    var rows := locked.value;
    r := EditRows(media, lower, req, rows);
    if r.Err? {
      return;
    }
    ghost var res := r.value;
    r := EditLabels(media, req, rows, r.value);
    assert rows != [] ==> rows[0] in rows;
    if r.Ok? {
      FinishedStill(lower, req, old(media.items), media.items, media.luck, res, r.value);
    }
  }

  /** The label counts are not part of what the rows' loop reports. */
  lemma FinishedStill(lower: Key, req: Request, before: Items, after: Items, luck: Luck, res: BulkResult, more: BulkResult)
    requires Finished(lower, req, before, after, luck, res)
    requires more.updated == res.updated && more.skipped == res.skipped && more.matched == res.matched
    ensures Finished(lower, req, before, after, luck, more)
  {
    hide Edited, Skips, Honest;
    forall id | id in before && id in req.ids ensures Done(lower, req, before[id], after[id], luck.edits(id), more) {
      assert Done(lower, req, before[id], after[id], luck.edits(id), res);
    }
  }

  /**
   * Apply: the request is answered as done only if it is, and otherwise none of
   * it is, or all of it when the commit's reply was lost.
   */
  method Apply(media: Media, lower: Key, req: Request) returns (r: Result<BulkResult, DbError>, ghost done: BulkResult)
    requires media.Valid()
    modifies media
    ensures r.Ok? ==> r.value == done && media.luck.commit.Committed?
    ensures r.Ok? || media.items != old(media.items) || media.tags != old(media.tags) ==>
              !media.luck.commit.NotCommitted? && RunDone(media, lower, req, done)
    ensures r.Err? ==> !media.luck.begins || Broken(req, old(media.items), media.luck) || !media.luck.commit.Committed?
    ensures r.Err? && media.luck.commit.Committed? ==> media.items == old(media.items) && media.tags == old(media.tags)
  {
    done := BulkResult(0, [], 0, 0, []);
    if !media.luck.begins {
      return Err(DbError), done;
    }
    var saved, savedTags := media.items, media.tags;
    r := Run(media, lower, req);
    if r.Err? {
      media.items, media.tags := saved, savedTags;
      return r, done;
    }
    done := r.value;
    var ok := media.Commit(saved, savedTags);
    if !ok {
      r := Err(DbError);
    }
  }
}
