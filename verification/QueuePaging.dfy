/**
 * Walking the download queue page by page (internal/arr/queue.go) and decoding
 * either shape of a list (internal/arr/lenient.go). A server is whatever it
 * answers each page number with; each is asked for at most once.
 */
module QueuePaging {
  import opened Wrappers

  const QUEUE_PAGE_SIZE: nat := 250
  const QUEUE_MAX_PAGES: nat := 20

  /** A raw row: a JSON object, or something that is not one. */
  datatype Raw = Row(id: int) | NoObject

  /** A response: no reply, an empty or null body, a body that does not parse, a bare array, or an envelope. */
  datatype Response = Down | Nothing | Broken | Bare(rows: seq<Raw>) | Envelope(totalRecords: int, rows: seq<Raw>)

  type Server = nat -> Response

  datatype RecordList = RecordList(records: seq<Raw>, total: int, paged: bool)

  /** decodeRecordList. */
  function DecodeRecordList(body: Response): (r: Option<RecordList>)
    ensures r.Some? ==> |r.value.records| <= r.value.total
  {
    match body
    case Down => None
    case Broken => None
    case Nothing => Some(RecordList([], 0, false))
    case Bare(rows) => Some(RecordList(rows, |rows|, false))
    case Envelope(total, rows) => Some(RecordList(rows, if total < |rows| then |rows| else total, true))
  }

  /** The rows that are JSON objects. */
  function WellFormed(rows: seq<Raw>): seq<Raw> {
    if rows == [] then []
    else if rows[|rows| - 1].Row? then WellFormed(rows[..|rows| - 1]) + [rows[|rows| - 1]]
    else WellFormed(rows[..|rows| - 1])
  }

  lemma {:induction false} WellFormedBoth(a: seq<Raw>, b: seq<Raw>)
    ensures WellFormed(a + b) == WellFormed(a) + WellFormed(b)
  {
    if b == [] {
      assert a + b == a;
    } else {
      var m := |b| - 1;
      assert (a + b)[..|a + b| - 1] == a + b[..m];
      WellFormedBoth(a, b[..m]);
    }
  }

  datatype Queue = Queue(records: seq<Raw>, totalRecords: int, truncated: bool)

  predicate Answers(server: Server, page: nat) { DecodeRecordList(server(page)).Some? }

  function PageOf(server: Server, page: nat): RecordList
    requires Answers(server, page)
  {
    DecodeRecordList(server(page)).value
  }

  /** The end of the list, as far as a response shows it. */
  predicate Stops(server: Server, page: nat)
    requires Answers(server, page)
  {
    var p := PageOf(server, page);
    !p.paged || |p.records| < QUEUE_PAGE_SIZE || page * QUEUE_PAGE_SIZE >= p.total
  }

  /** The walk gets to page k: it is answered, and goes on, at every page before. */
  predicate WalksOn(server: Server, k: nat) {
    forall p :: 1 <= p < k ==> Answers(server, p) && !Stops(server, p)
  }

  /** The well-formed rows of pages 1 to k, in order. */
  function Collected(server: Server, k: nat): seq<Raw> {
    if k == 0 then []
    else Collected(server, k - 1) + if Answers(server, k) then WellFormed(PageOf(server, k).records) else []
  }

  /** A server that pages a fixed list properly; past the end its pages are empty. */
  ghost predicate Pages(server: Server, list: seq<Raw>) {
    forall p: nat :: 1 <= p ==> server(p) == Envelope(|list|, Slice(list, (p - 1) * QUEUE_PAGE_SIZE, p * QUEUE_PAGE_SIZE))
  }

  function Clip(list: seq<Raw>, n: nat): (k: nat)
    ensures k <= |list|
  {
    if n < |list| then n else |list|
  }

  function Slice(list: seq<Raw>, from: nat, to: nat): seq<Raw>
    requires from <= to
  {
    list[Clip(list, from)..Clip(list, to)]
  }

  /** What a walk must have done, whatever the server. */
  ghost predicate Walked(server: Server, r: Option<Queue>) {
    match r
    case None => exists k :: 1 <= k <= QUEUE_MAX_PAGES && WalksOn(server, k) && !Answers(server, k)
    case Some(q) => exists k :: 1 <= k <= QUEUE_MAX_PAGES && WalksOn(server, k) && Answers(server, k) && ReadTo(server, k, q)
  }

  predicate ReadTo(server: Server, k: nat, q: Queue)
    requires Answers(server, k)
  {
    && (q.truncated <==> !Stops(server, k)) && (q.truncated ==> k == QUEUE_MAX_PAGES)
    && q.records == Collected(server, k) && q.totalRecords == PageOf(server, k).total
  }

  /** The inner loop: a row that is no JSON object is left out. */
  method AppendObjects(records: seq<Raw>, rows: seq<Raw>) returns (out: seq<Raw>)
    ensures out == records + WellFormed(rows)
  {
    out := records;
    var i := 0;
    while i < |rows|
      invariant 0 <= i <= |rows| && out == records + WellFormed(rows[..i])
    {
      assert rows[..i + 1][..i] == rows[..i];
      if rows[i].Row? {
        out := out + [rows[i]];
      }
      i := i + 1;
    }
    assert rows[..i] == rows;
  }

  /** queue: at most twenty requests against any server, and the whole of a list that is paged properly. */
  method FetchQueue(server: Server) returns (r: Option<Queue>)
    ensures Walked(server, r)
  {
    var records: seq<Raw>, total: int := [], 0;
    var page := 1;
    while page <= QUEUE_MAX_PAGES
      invariant 1 <= page <= QUEUE_MAX_PAGES + 1
      invariant WalksOn(server, page) && records == Collected(server, page - 1)
      invariant page > 1 ==> total == PageOf(server, page - 1).total
    {
      var body := DecodeRecordList(server(page));
      if body.None? {
        assert !Answers(server, page);
        return None;
      }
      total := body.value.total;
      var rows := body.value.records;
      records := AppendObjects(records, rows);
      if !body.value.paged || |rows| < QUEUE_PAGE_SIZE || page * QUEUE_PAGE_SIZE >= total {
        assert ReadTo(server, page, Queue(records, total, false));
        return Some(Queue(records, total, false));
      }
      page := page + 1;
    }
    assert ReadTo(server, QUEUE_MAX_PAGES, Queue(records, total, true)) && WalksOn(server, QUEUE_MAX_PAGES);
    return Some(Queue(records, total, true));
  }

  lemma {:induction false} CollectedIsPrefix(server: Server, list: seq<Raw>, k: nat)
    requires Pages(server, list)
    ensures Collected(server, k) == WellFormed(list[..Clip(list, k * QUEUE_PAGE_SIZE)])
  {
    hide Pages, PageOf, Answers;
    if k == 0 {
      assert list[..0] == [];
    } else {
      hide WellFormed;
      CollectedIsPrefix(server, list, k - 1);
      PageSlice(server, list, k);
      WellFormedPrefix(list, Clip(list, (k - 1) * QUEUE_PAGE_SIZE), Clip(list, k * QUEUE_PAGE_SIZE));
    }
  }

  lemma WellFormedPrefix(list: seq<Raw>, a: nat, b: nat)
    requires a <= b <= |list|
    ensures WellFormed(list[..b]) == WellFormed(list[..a]) + WellFormed(list[a..b])
  {
    WellFormedBoth(list[..a], list[a..b]);
    assert list[..a] + list[a..b] == list[..b];
  }

  lemma PageSlice(server: Server, list: seq<Raw>, k: nat)
    requires Pages(server, list) && k >= 1
    ensures var a, b := Clip(list, (k - 1) * QUEUE_PAGE_SIZE), Clip(list, k * QUEUE_PAGE_SIZE);
            a <= b && Answers(server, k) && PageOf(server, k).records == list[a..b]
  {
    assert server(k) == Envelope(|list|, Slice(list, (k - 1) * QUEUE_PAGE_SIZE, k * QUEUE_PAGE_SIZE));
  }

  lemma StopsAtTheEnd(server: Server, list: seq<Raw>, p: nat)
    requires Pages(server, list) && p >= 1
    ensures Answers(server, p) && PageOf(server, p).total == |list|
    ensures Stops(server, p) <==> |list| <= p * QUEUE_PAGE_SIZE
  {
    assert server(p) == Envelope(|list|, Slice(list, (p - 1) * QUEUE_PAGE_SIZE, p * QUEUE_PAGE_SIZE));
    assert (p - 1) * QUEUE_PAGE_SIZE + QUEUE_PAGE_SIZE == p * QUEUE_PAGE_SIZE;
  }

  /**
   * Of a list paged properly the walk returns every well-formed row among the
   * first 5000, once and in order, and says truncated exactly when there are more.
   */
  lemma ProperPagingIsRead(server: Server, list: seq<Raw>, r: Option<Queue>)
    requires Pages(server, list) && Walked(server, r)
    ensures var bound := QUEUE_PAGE_SIZE * QUEUE_MAX_PAGES;
            r == Some(Queue(WellFormed(list[..Clip(list, bound)]), |list|, |list| > bound)) && bound == 5000
  {
    if r.None? {
      var k :| 1 <= k <= QUEUE_MAX_PAGES && WalksOn(server, k) && !Answers(server, k);
      StopsAtTheEnd(server, list, k);
    } else {
      var k :| 1 <= k <= QUEUE_MAX_PAGES && WalksOn(server, k) && Answers(server, k) && ReadTo(server, k, r.value);
      StopsAtTheEnd(server, list, k);
      CollectedIsPrefix(server, list, k);
      assert |list| > 5000 ==> !Stops(server, k);
      assert |list| <= 5000 ==> Clip(list, k * QUEUE_PAGE_SIZE) == |list|;
    }
  }

  lemma FirstPage(server: Server, rows: seq<Raw>)
    requires server(1) == Bare(rows)
    ensures Answers(server, 1) && Stops(server, 1) && PageOf(server, 1).total == |rows|
    ensures forall k: nat :: k == 1 ==> Collected(server, k) == WellFormed(rows)
  {
    forall k: nat | k == 1 ensures Collected(server, k) == WellFormed(rows) {
      assert Collected(server, k - 1) == [];
      assert Collected(server, k) == [] + WellFormed(rows);
    }
  }

  /** A bare array is the whole list: one request, nothing truncated. */
  lemma BareArrayIsRead(server: Server, rows: seq<Raw>, r: Option<Queue>)
    requires server(1) == Bare(rows) && Walked(server, r)
    ensures r == Some(Queue(WellFormed(rows), |rows|, false))
  {
    assert Answers(server, 1) && Stops(server, 1);
    FirstPage(server, rows);
    if r.None? {
      var k :| 1 <= k <= QUEUE_MAX_PAGES && WalksOn(server, k) && !Answers(server, k);
    } else {
      var k :| 1 <= k <= QUEUE_MAX_PAGES && WalksOn(server, k) && Answers(server, k) && ReadTo(server, k, r.value);
      assert k == 1;
    }
  }

  // ------------------------------------------------------- what a walk meets

  /** No reply, or a body that does not parse. */
  predicate Unreadable(body: Response) { body.Down? || body.Broken? }

  /** A full page of an envelope that says there is more. */
  predicate GoesOn(body: Response, page: nat) {
    body.Envelope? && |body.rows| >= 250 && (page * 250 < body.totalRecords || page * 250 < |body.rows|)
  }

  /** The walk gets to this page. */
  predicate Reached(server: Server, page: nat) {
    1 <= page <= 20 && forall p :: 1 <= p < page ==> GoesOn(server(p), p)
  }

  lemma ReadsOn(server: Server, p: nat)
    requires p >= 1
    ensures Answers(server, p) <==> !Unreadable(server(p))
    ensures Answers(server, p) && !Stops(server, p) <==> GoesOn(server(p), p)
  {
  }

  lemma WalkIsReached(server: Server, k: nat)
    requires 1 <= k <= QUEUE_MAX_PAGES
    ensures WalksOn(server, k) <==> Reached(server, k)
  {
    forall p | 1 <= p < k ensures Answers(server, p) && !Stops(server, p) <==> GoesOn(server(p), p) {
      ReadsOn(server, p);
    }
    hide Answers, Stops, GoesOn;
  }

  /** Beyond the page it ended at the walk does not get. */
  lemma NotReachedAfter(server: Server, k: nat, j: nat)
    requires Reached(server, j) && Answers(server, k) && 1 <= k < j
    ensures !Stops(server, k)
  {
    ReadsOn(server, k);
    assert GoesOn(server(k), k);
  }

  /**
   * The walk fails exactly if a page it gets to is unreadable; an empty or null
   * body is the end of the list, not an error.
   */
  lemma FailsExactly(server: Server, r: Option<Queue>)
    requires Walked(server, r)
    ensures r.None? <==> exists k :: Reached(server, k) && Unreadable(server(k))
  {
    hide Answers, Stops, GoesOn, Unreadable, WalksOn;
    if r.None? {
      var k :| 1 <= k <= QUEUE_MAX_PAGES && WalksOn(server, k) && !Answers(server, k);
      WalkIsReached(server, k);
      ReadsOn(server, k);
    } else {
      var k :| 1 <= k <= QUEUE_MAX_PAGES && WalksOn(server, k) && Answers(server, k) && ReadTo(server, k, r.value);
      WalkIsReached(server, k);
      forall j | Reached(server, j) ensures !Unreadable(server(j)) {
        ReadBefore(server, k, j, r.value);
      }
    }
  }

  lemma ReadBefore(server: Server, k: nat, j: nat, q: Queue)
    requires 1 <= k <= QUEUE_MAX_PAGES && Reached(server, k) && Answers(server, k) && ReadTo(server, k, q) && Reached(server, j)
    ensures !Unreadable(server(j))
  {
    ReadsOn(server, j);
    if j < k {
      assert GoesOn(server(j), j);
    } else if j > k {
      NotReachedAfter(server, k, j);
    }
  }

  /** What is kept of a page is its rows that are objects, all of them, in order. */
  lemma {:induction false} WellFormedKeeps(rows: seq<Raw>, i: nat)
    requires i < |rows|
    ensures rows[i].Row? ==> WellFormed(rows) == WellFormed(rows[..i]) + [rows[i]] + WellFormed(rows[i + 1..])
    ensures rows[i].NoObject? ==> WellFormed(rows) == WellFormed(rows[..i]) + WellFormed(rows[i + 1..])
  {
    var front, back := rows[..i], rows[i + 1..];
    assert rows == front + ([rows[i]] + back);
    WellFormedBoth(front, [rows[i]] + back);
    WellFormedBoth([rows[i]], back);
    assert [rows[i]][..0] == [];
  }
}
