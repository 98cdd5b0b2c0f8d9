/**
 * Choosing the grab to blocklist (internal/arr/regrab.go): filter the history,
 * sort it stably newest first, and search it for the grab behind the newest
 * import.
 */
module Regrab {
  import opened Wrappers

  datatype Event = Grabbed | Imported | Other(name: string)

  datatype HistoryRecord = HistoryRecord(id: int, event: Event, date: int, sourceTitle: string, downloadId: string, episodeId: int)

  /** The sort's less function: newer date first, then the larger id. */
  predicate Newer(a: HistoryRecord, b: HistoryRecord) {
    a.date > b.date || (a.date == b.date && a.id > b.id)
  }

  /** The narrowing of regrabSeries: an episode's re-grab keeps that episode's rows, every other keeps all. */
  datatype Keep = All | Episodes(ids: set<int>)

  predicate Kept(keep: Keep, h: HistoryRecord) {
    keep.All? || h.episodeId in keep.ids
  }

  predicate IsGrab(h: HistoryRecord) { h.event.Grabbed? }

  predicate IsImport(h: HistoryRecord) { h.event.Imported? && h.downloadId != "" }

  predicate IsGrabOf(h: HistoryRecord, download: string) { h.event.Grabbed? && h.downloadId == download }

  /** What the search looks for. */
  datatype Query = AnyGrab | AnyImport | GrabOf(download: string)

  predicate Wanted(q: Query, h: HistoryRecord) {
    match q
    case AnyGrab => IsGrab(h)
    case AnyImport => IsImport(h)
    case GrabOf(download) => IsGrabOf(h, download)
  }

  /** The rows kept, in the order the instance sent them. */
  function KeptRows(hist: seq<HistoryRecord>, keep: Keep): seq<HistoryRecord> {
    if hist == [] then []
    else (if Kept(keep, hist[0]) then [hist[0]] else []) + KeptRows(hist[1..], keep)
  }

  /**
   * Declaratively: the row at i is the newest wanted one of the history. Among
   * rows equal in date and id the stable sort leaves the first in front.
   */
  ghost predicate IsNewest(hist: seq<HistoryRecord>, keep: Keep, q: Query, i: nat) {
    && i < |hist| && Kept(keep, hist[i]) && Wanted(q, hist[i])
    && forall j :: 0 <= j < |hist| && j != i && Kept(keep, hist[j]) && Wanted(q, hist[j])
         ==> Newer(hist[i], hist[j]) || (!Newer(hist[j], hist[i]) && i < j)
  }

  ghost predicate NoneWanted(hist: seq<HistoryRecord>, keep: Keep, q: Query) {
    forall h <- hist :: !(Kept(keep, h) && Wanted(q, h))
  }

  ghost predicate Newest(hist: seq<HistoryRecord>, keep: Keep, q: Query, r: Option<HistoryRecord>) {
    match r
    case None => NoneWanted(hist, keep, q)
    case Some(h) => exists i: nat :: IsNewest(hist, keep, q, i) && hist[i] == h
  }

  /**
   * What the choice means: the newest kept grab that shares the download id of
   * the newest kept import with one, otherwise the newest kept grab.
   */
  ghost predicate IsChoice(hist: seq<HistoryRecord>, keep: Keep, r: Option<HistoryRecord>) {
    exists imp :: Newest(hist, keep, AnyImport, imp) &&
      if imp.Some? && !NoneWanted(hist, keep, GrabOf(imp.value.downloadId))
      then Newest(hist, keep, GrabOf(imp.value.downloadId), r)
      else Newest(hist, keep, AnyGrab, r)
  }

  /** Stable insertion: x comes first among its equals. */
  function Insert(x: HistoryRecord, s: seq<HistoryRecord>): seq<HistoryRecord> {
    if s == [] then [x] else if Newer(s[0], x) then [s[0]] + Insert(x, s[1..]) else [x] + s
  }

  /** sort.SliceStable with Newer as less. */
  function SortNewestFirst(s: seq<HistoryRecord>): seq<HistoryRecord> {
    if s == [] then [] else Insert(s[0], SortNewestFirst(s[1..]))
  }

  predicate Sorted(s: seq<HistoryRecord>) {
    forall i, j :: 0 <= i < j < |s| ==> !Newer(s[j], s[i])
  }

  lemma {:induction false} InsertPermutes(x: HistoryRecord, s: seq<HistoryRecord>)
    ensures multiset(Insert(x, s)) == multiset(s) + multiset{x}
  {
    if s != [] && Newer(s[0], x) {
      InsertPermutes(x, s[1..]);
      assert s == [s[0]] + s[1..];
    } else if s != [] {
      assert Insert(x, s) == [x] + s;
    }
  }

  lemma {:induction false} InsertSorts(x: HistoryRecord, s: seq<HistoryRecord>)
    requires Sorted(s)
    ensures Sorted(Insert(x, s))
  {
    if s != [] && Newer(s[0], x) {
      InsertSorts(x, s[1..]);
      InsertPermutes(x, s[1..]);
      var rest := Insert(x, s[1..]);
      forall k | 0 <= k < |rest| ensures !Newer(rest[k], s[0]) {
        assert rest[k] in multiset(rest);
        assert rest[k] == x || rest[k] in s[1..];
      }
    }
  }

  /** What sort.SliceStable promises of the order; its stability is in FirstIsNewest. */
  lemma {:induction false} SortSorts(s: seq<HistoryRecord>)
    ensures Sorted(SortNewestFirst(s)) && multiset(SortNewestFirst(s)) == multiset(s)
  {
    if s != [] {
      SortSorts(s[1..]);
      InsertSorts(s[0], SortNewestFirst(s[1..]));
      InsertPermutes(s[0], SortNewestFirst(s[1..]));
      assert s == [s[0]] + s[1..];
    }
  }

  function First(s: seq<HistoryRecord>, q: Query): Option<HistoryRecord> {
    if s == [] then None else if Wanted(q, s[0]) then Some(s[0]) else First(s[1..], q)
  }

  lemma {:induction false} FirstOfInsert(x: HistoryRecord, s: seq<HistoryRecord>, q: Query)
    requires Sorted(s)
    ensures First(Insert(x, s), q) ==
            if !Wanted(q, x) then First(s, q)
            else if First(s, q).Some? && Newer(First(s, q).value, x) then First(s, q) else Some(x)
  {
    if s != [] && Newer(s[0], x) {
      FirstOfInsert(x, s[1..], q);
      assert Insert(x, s)[1..] == Insert(x, s[1..]);
    } else if s != [] {
      assert Insert(x, s)[1..] == s;
      FirstIn(s, q);
    } else {
      assert Insert(x, s)[1..] == [];
    }
  }

  lemma {:induction false} FirstIn(s: seq<HistoryRecord>, q: Query)
    ensures First(s, q).Some? ==> First(s, q).value in s && Wanted(q, First(s, q).value)
  {
    if s != [] && !Wanted(q, s[0]) {
      FirstIn(s[1..], q);
    }
  }

  /** The newest of the tail stays the newest unless the head displaces it. */
  lemma Extend(hist: seq<HistoryRecord>, keep: Keep, q: Query, i: nat)
    requires hist != [] && IsNewest(hist[1..], keep, q, i)
    requires !(Kept(keep, hist[0]) && Wanted(q, hist[0])) || Newer(hist[1..][i], hist[0])
    ensures IsNewest(hist, keep, q, i + 1)
  {
    forall j | 0 <= j < |hist| && j != i + 1 && Kept(keep, hist[j]) && Wanted(q, hist[j])
      ensures Newer(hist[i + 1], hist[j]) || (!Newer(hist[j], hist[i + 1]) && i + 1 < j)
    {
      if j > 0 {
        assert hist[1..][j - 1] == hist[j];
      }
    }
  }

  lemma HeadIsNewest(hist: seq<HistoryRecord>, keep: Keep, q: Query, r: Option<HistoryRecord>)
    requires hist != [] && Kept(keep, hist[0]) && Wanted(q, hist[0])
    requires Newest(hist[1..], keep, q, r) && (r.None? || !Newer(r.value, hist[0]))
    ensures IsNewest(hist, keep, q, 0)
  {
    forall j | 0 < j < |hist| && Kept(keep, hist[j]) && Wanted(q, hist[j])
      ensures !Newer(hist[j], hist[0])
    {
      assert hist[1..][j - 1] == hist[j] && hist[j] in hist[1..];
    }
  }

  /** One more row in front: the newest so far stays, or the new row takes its place. */
  lemma NewestGrows(hist: seq<HistoryRecord>, keep: Keep, q: Query, r: Option<HistoryRecord>)
    requires hist != [] && Newest(hist[1..], keep, q, r)
    ensures Newest(hist, keep, q,
              if Kept(keep, hist[0]) && Wanted(q, hist[0]) && (r.None? || !Newer(r.value, hist[0]))
              then Some(hist[0]) else r)
  {
    if Kept(keep, hist[0]) && Wanted(q, hist[0]) && (r.None? || !Newer(r.value, hist[0])) {
      HeadIsNewest(hist, keep, q, r);
    } else if r.Some? {
      var i: nat :| IsNewest(hist[1..], keep, q, i) && hist[1..][i] == r.value;
      Extend(hist, keep, q, i);
      assert hist[i + 1] == r.value;
    } else {
      assert hist == [hist[0]] + hist[1..];
    }
  }

  /** Searching the sorted rows finds the declaratively newest row, stability included. */
  lemma {:induction false} FirstIsNewest(hist: seq<HistoryRecord>, keep: Keep, q: Query)
    ensures Newest(hist, keep, q, First(SortNewestFirst(KeptRows(hist, keep)), q))
  {
    if hist != [] {
      FirstIsNewest(hist[1..], keep, q);
      NewestGrows(hist, keep, q, First(SortNewestFirst(KeptRows(hist[1..], keep)), q));
      FirstOfRest(hist, keep, q);
    }
  }

  lemma FirstOfRest(hist: seq<HistoryRecord>, keep: Keep, q: Query)
    requires hist != []
    ensures var r := First(SortNewestFirst(KeptRows(hist[1..], keep)), q);
            First(SortNewestFirst(KeptRows(hist, keep)), q) ==
            if Kept(keep, hist[0]) && Wanted(q, hist[0]) && (r.None? || !Newer(r.value, hist[0]))
            then Some(hist[0]) else r
  {
    var rest := KeptRows(hist[1..], keep);
    if Kept(keep, hist[0]) {
      SortSorts(rest);
      assert KeptRows(hist, keep) == [hist[0]] + rest;
      assert ([hist[0]] + rest)[1..] == rest;
      FirstOfInsert(hist[0], SortNewestFirst(rest), q);
    } else {
      assert KeptRows(hist, keep) == rest;
    }
  }

  /** First over a prefix without a wanted row. */
  lemma {:induction false} FirstSkips(s: seq<HistoryRecord>, q: Query, k: nat)
    requires k <= |s| && forall j :: 0 <= j < k ==> !Wanted(q, s[j])
    ensures First(s, q) == First(s[k..], q)
  {
    if k > 0 {
      FirstSkips(s[1..], q, k - 1);
      assert s[1..][k - 1..] == s[k..];
    } else {
      assert s[0..] == s;
    }
  }

  lemma KeptNext(hist: seq<HistoryRecord>, keep: Keep, k: nat)
    requires k < |hist|
    ensures KeptRows(hist[k..], keep) == (if Kept(keep, hist[k]) then [hist[k]] else []) + KeptRows(hist[k + 1..], keep)
  {
    assert hist[k..][1..] == hist[k + 1..];
  }

  method KeepRows(hist: seq<HistoryRecord>, keep: Keep) returns (rows: seq<HistoryRecord>)
    ensures rows == KeptRows(hist, keep)
  {
    rows := [];
    var k := 0;
    while k < |hist|
      invariant 0 <= k <= |hist| && KeptRows(hist, keep) == rows + KeptRows(hist[k..], keep)
    {
      KeptNext(hist, keep, k);
      if Kept(keep, hist[k]) {
        rows := rows + [hist[k]];
      }
      k := k + 1;
    }
    assert hist[k..] == [];
  }

  /** The nested search over the sorted rows. */
  method SearchRows(rows: seq<HistoryRecord>) returns (r: Option<HistoryRecord>)
    ensures var imp := First(rows, AnyImport);
            r == if imp.Some? && First(rows, GrabOf(imp.value.downloadId)).Some?
                 then First(rows, GrabOf(imp.value.downloadId)) else First(rows, AnyGrab)
  {
    var k := 0;
    while k < |rows|
      invariant 0 <= k <= |rows| && forall j :: 0 <= j < k ==> !Wanted(AnyImport, rows[j])
    {
      var imp := rows[k];
      if !imp.event.Imported? || imp.downloadId == "" {
        k := k + 1;
        continue;
      }
      FirstSkips(rows, AnyImport, k);
      var i := 0;
      while i < |rows|
        invariant 0 <= i <= |rows| && forall j :: 0 <= j < i ==> !Wanted(GrabOf(imp.downloadId), rows[j])
      {
        if rows[i].event.Grabbed? && rows[i].downloadId == imp.downloadId {
          FirstSkips(rows, GrabOf(imp.downloadId), i);
          return Some(rows[i]);
        }
        i := i + 1;
      }
      FirstSkips(rows, GrabOf(imp.downloadId), |rows|);
      break;
    }
    if k == |rows| {
      FirstSkips(rows, AnyImport, k);
    }
    var i := 0;
    while i < |rows|
      invariant 0 <= i <= |rows| && forall j :: 0 <= j < i ==> !Wanted(AnyGrab, rows[j])
    {
      if rows[i].event.Grabbed? {
        FirstSkips(rows, AnyGrab, i);
        return Some(rows[i]);
      }
      i := i + 1;
    }
    FirstSkips(rows, AnyGrab, |rows|);
    return None;
  }

  /**
   * pickGrabToBlocklist. Nothing is returned exactly when no grab is kept, and
   * what is returned is the declared choice.
   */
  method PickGrabToBlocklist(hist: seq<HistoryRecord>, keep: Keep) returns (r: Option<HistoryRecord>)
    ensures IsChoice(hist, keep, r)
    ensures r.None? <==> NoneWanted(hist, keep, AnyGrab)
  {
    var rows := KeepRows(hist, keep);
    rows := SortNewestFirst(rows);
    r := SearchRows(rows);
    SearchMeansChoice(hist, keep, rows, r);
  }

  lemma SearchMeansChoice(hist: seq<HistoryRecord>, keep: Keep, rows: seq<HistoryRecord>, r: Option<HistoryRecord>)
    requires rows == SortNewestFirst(KeptRows(hist, keep))
    requires var imp := First(rows, AnyImport);
             r == if imp.Some? && First(rows, GrabOf(imp.value.downloadId)).Some?
                  then First(rows, GrabOf(imp.value.downloadId)) else First(rows, AnyGrab)
    ensures IsChoice(hist, keep, r)
    ensures r.None? <==> NoneWanted(hist, keep, AnyGrab)
  {
    var imp := First(rows, AnyImport);
    FirstIsNewest(hist, keep, AnyImport);
    FirstIsNewest(hist, keep, AnyGrab);
    if imp.Some? {
      FirstIsNewest(hist, keep, GrabOf(imp.value.downloadId));
    }
    Chosen(hist, keep, imp, r);
  }

  lemma Chosen(hist: seq<HistoryRecord>, keep: Keep, imp: Option<HistoryRecord>, r: Option<HistoryRecord>)
    requires Newest(hist, keep, AnyImport, imp)
    requires if imp.Some? && !NoneWanted(hist, keep, GrabOf(imp.value.downloadId))
             then Newest(hist, keep, GrabOf(imp.value.downloadId), r)
             else Newest(hist, keep, AnyGrab, r)
    ensures IsChoice(hist, keep, r)
    ensures r.None? <==> NoneWanted(hist, keep, AnyGrab)
  {
    if r.Some? {
      assert r.value in hist && IsGrab(r.value);
    }
  }

  /** No two rows share both date and id: Newer is then a total order on them. */
  ghost predicate DistinctRows(hist: seq<HistoryRecord>) {
    forall i, j :: 0 <= i < j < |hist| ==> hist[i].date != hist[j].date || hist[i].id != hist[j].id
  }

  lemma NewestSame(a: seq<HistoryRecord>, b: seq<HistoryRecord>, keep: Keep, q: Query,
                   x: Option<HistoryRecord>, y: Option<HistoryRecord>)
    requires multiset(a) == multiset(b) && DistinctRows(a)
    requires Newest(a, keep, q, x) && Newest(b, keep, q, y)
    ensures x == y
  {
    forall h ensures h in a <==> h in b {
      assert h in a <==> h in multiset(a);
    }
    if x.Some? {
      assert x.value in b;
      assert y.Some?;
      assert y.value in a;
    }
  }

  /** With distinct (date, id) pairs the order the instance sent its rows in does not matter. */
  lemma ChoiceIgnoresOrder(a: seq<HistoryRecord>, b: seq<HistoryRecord>, keep: Keep,
                           x: Option<HistoryRecord>, y: Option<HistoryRecord>)
    requires multiset(a) == multiset(b) && DistinctRows(a)
    requires IsChoice(a, keep, x) && IsChoice(b, keep, y)
    ensures x == y
  {
    var impA :| Newest(a, keep, AnyImport, impA) &&
      if impA.Some? && !NoneWanted(a, keep, GrabOf(impA.value.downloadId))
      then Newest(a, keep, GrabOf(impA.value.downloadId), x)
      else Newest(a, keep, AnyGrab, x);
    var impB :| Newest(b, keep, AnyImport, impB) &&
      if impB.Some? && !NoneWanted(b, keep, GrabOf(impB.value.downloadId))
      then Newest(b, keep, GrabOf(impB.value.downloadId), y)
      else Newest(b, keep, AnyGrab, y);
    NewestSame(a, b, keep, AnyImport, impA, impB);
    forall h ensures h in a <==> h in b {
      assert h in a <==> h in multiset(a);
    }
    if impA.Some? && !NoneWanted(a, keep, GrabOf(impA.value.downloadId)) {
      NewestSame(a, b, keep, GrabOf(impA.value.downloadId), x, y);
    } else {
      NewestSame(a, b, keep, AnyGrab, x, y);
    }
  }

  // ------------------------------------------------------ the choice in full

  /** Earlier, or of the same moment with a smaller id or the same. */
  predicate NotAfter(a: HistoryRecord, b: HistoryRecord) { a.date < b.date || (a.date == b.date && a.id <= b.id) }

  predicate InScope(keep: Keep, h: HistoryRecord) { keep.All? || h.episodeId in keep.ids }

  /** The latest of the rows in scope that satisfy the query, one of them. */
  ghost predicate IsLatest(hist: seq<HistoryRecord>, keep: Keep, q: Query, h: HistoryRecord) {
    && h in hist && InScope(keep, h) && Wanted(q, h)
    && forall other <- hist :: InScope(keep, other) && Wanted(q, other) ==> NotAfter(other, h)
  }

  lemma NewestIsLatest(hist: seq<HistoryRecord>, keep: Keep, q: Query, h: HistoryRecord)
    requires Newest(hist, keep, q, Some(h))
    ensures IsLatest(hist, keep, q, h)
  {
    var i: nat :| IsNewest(hist, keep, q, i) && hist[i] == h;
    forall other <- hist | InScope(keep, other) && Wanted(q, other) ensures NotAfter(other, h) {
      var j :| 0 <= j < |hist| && hist[j] == other;
    }
  }

  /** An import that names its download, and none in scope that does is later. */
  ghost predicate LatestImport(hist: seq<HistoryRecord>, keep: Keep, imp: HistoryRecord) {
    && imp in hist && InScope(keep, imp) && imp.event.Imported? && imp.downloadId != ""
    && forall other <- hist :: InScope(keep, other) && other.event.Imported? && other.downloadId != "" ==> NotAfter(other, imp)
  }

  /** A grab for the same download as the import. */
  predicate Behind(grab: HistoryRecord, imp: HistoryRecord) { grab.event.Grabbed? && grab.downloadId == imp.downloadId }

  ghost predicate NoImports(hist: seq<HistoryRecord>, keep: Keep) {
    forall other <- hist :: !(InScope(keep, other) && other.event.Imported? && other.downloadId != "")
  }

  /**
   * In dates: the latest import in scope that names its download decides, and
   * the choice is the latest grab in scope of that download; with no such
   * import or no such grab, it is the latest grab in scope.
   */
  lemma ChoiceIsLatest(hist: seq<HistoryRecord>, keep: Keep, h: HistoryRecord)
    requires IsChoice(hist, keep, Some(h))
    ensures h in hist && InScope(keep, h) && h.event.Grabbed?
    ensures
      || (exists imp :: LatestImport(hist, keep, imp) && Behind(h, imp)
                        && forall g <- hist :: InScope(keep, g) && Behind(g, imp) ==> NotAfter(g, h))
      || ((forall g <- hist :: InScope(keep, g) && g.event.Grabbed? ==> NotAfter(g, h))
          && (NoImports(hist, keep)
              || exists imp :: LatestImport(hist, keep, imp) && forall g <- hist :: InScope(keep, g) ==> !Behind(g, imp)))
  {
    var imp :| Newest(hist, keep, AnyImport, imp) &&
      if imp.Some? && !NoneWanted(hist, keep, GrabOf(imp.value.downloadId))
      then Newest(hist, keep, GrabOf(imp.value.downloadId), Some(h))
      else Newest(hist, keep, AnyGrab, Some(h));
    if imp.Some? {
      NewestIsLatest(hist, keep, AnyImport, imp.value);
      forall other <- hist | InScope(keep, other) && other.event.Imported? && other.downloadId != "" ensures NotAfter(other, imp.value) {
        assert Wanted(AnyImport, other);
      }
      assert LatestImport(hist, keep, imp.value);
    } else {
      forall other <- hist ensures !(InScope(keep, other) && other.event.Imported? && other.downloadId != "") {
        assert !(Kept(keep, other) && Wanted(AnyImport, other));
      }
    }
    if imp.Some? && !NoneWanted(hist, keep, GrabOf(imp.value.downloadId)) {
      NewestIsLatest(hist, keep, GrabOf(imp.value.downloadId), h);
      forall g <- hist | InScope(keep, g) && Behind(g, imp.value) ensures NotAfter(g, h) {
        assert Wanted(GrabOf(imp.value.downloadId), g);
      }
    } else {
      NewestIsLatest(hist, keep, AnyGrab, h);
      forall g <- hist | InScope(keep, g) && g.event.Grabbed? ensures NotAfter(g, h) {
        assert Wanted(AnyGrab, g);
      }
      if imp.Some? {
        forall g <- hist | InScope(keep, g) ensures !Behind(g, imp.value) {
          assert !(Kept(keep, g) && Wanted(GrabOf(imp.value.downloadId), g));
        }
      }
    }
  }
}
