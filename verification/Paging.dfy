/**
 Keyset pagination of the usage log. The first page fixes an ID bound; each
 cursor carries that bound and the last row's (start, ID) pair. Times are
 nanoseconds, and the table is read in its index order, newest first.
 */
module Paging {
  import opened Durations
  import opened Options

  // --------------------------------------------------------------- the table

  datatype Row = Row(id: nat, started: int, labels: map<string, string>)

  /** Descending (start, ID) order. */
  predicate Before(a: Row, b: Row) { a.started > b.started || (a.started == b.started && a.id > b.id) }

  ghost predicate Ahead(r: Row, log: seq<Row>) { forall x | x in log :: Before(r, x) }

  ghost predicate Ordered(log: seq<Row>) { log != [] ==> Ahead(log[0], log[1..]) && Ordered(log[1..]) }

  /** Database times have microsecond precision and IDs start at one. */
  ghost predicate ValidLog(log: seq<Row>) {
    Ordered(log) && forall r | r in log :: 0 < r.id && r.started % MICROSECOND == 0
  }

  function MaxId(log: seq<Row>): nat {
    if log == [] then 0 else if log[0].id > MaxId(log[1..]) then log[0].id else MaxId(log[1..])
  }

  /** A new row goes to its place in the index. */
  function Insert(log: seq<Row>, r: Row): seq<Row> {
    if log == [] || Before(r, log[0]) then [r] + log else [log[0]] + Insert(log[1..], r)
  }

  // ------------------------------------------------------------------ queries

  /** A canonical query: window, page size and the non-empty label filters. */
  datatype Query = Query(from: int, to: int, size: nat, labels: map<string, string>)

  const MAX_RANGE := 90 * DAY

  predicate ValidRange(from: int, to: int) { from < to && to - from <= MAX_RANGE }

  predicate ValidSize(size: nat) { size == 25 || size == 50 || size == 100 }

  predicate ValidQuery(q: Query) {
    ValidRange(q.from, q.to) && ValidSize(q.size) && q.from % MICROSECOND == 0 && q.to % MICROSECOND == 0
  }

  predicate Matches(q: Query, r: Row) {
    q.from <= r.started < q.to && forall k | k in q.labels :: k in r.labels && r.labels[k] == q.labels[k]
  }

  function Restrict(log: seq<Row>, bound: nat): seq<Row> {
    if log == [] then []
    else if log[0].id <= bound then [log[0]] + Restrict(log[1..], bound) else Restrict(log[1..], bound)
  }

  function Filter(log: seq<Row>, q: Query): seq<Row> {
    if log == [] then []
    else if Matches(q, log[0]) then [log[0]] + Filter(log[1..], q) else Filter(log[1..], q)
  }

  predicate Beyond(r: Row, at: int, id: nat) { r.started < at || (r.started == at && r.id < id) }

  /** The rows strictly after a position, in index order. */
  function After(log: seq<Row>, at: int, id: nat): seq<Row> {
    if log == [] then []
    else if Beyond(log[0], at, id) then [log[0]] + After(log[1..], at, id) else After(log[1..], at, id)
  }

  function Take(log: seq<Row>, limit: nat): seq<Row> { if |log| <= limit then log else log[..limit] }

  // ------------------------------------------------------------------ cursors

  /** What a cursor signs. The query stands for its hash, the rest for its text forms. */
  datatype Cursor = Cursor(version: nat, subject: nat, query: Query, bound: nat, lastAt: int, lastId: nat,
                           issued: int, expires: int)

  const CURSOR_SECONDS := 1800
  const CLOCK_SKEW := 30

  datatype Decoded = Accepted | InvalidCursor | CursorExpired

  predicate WellFormed(c: Cursor, subject: nat, now: int) {
    && c.version == 1 && c.subject == subject && c.subject != 0 && c.lastId != 0 && c.lastId <= c.bound
    && ValidSize(c.query.size) && c.lastAt % MICROSECOND == 0 && c.query.from <= c.lastAt < c.query.to
    && ValidRange(c.query.from, c.query.to)
    && c.issued <= now / SECOND + CLOCK_SKEW && c.expires - c.issued == CURSOR_SECONDS
  }

  function Decode(c: Cursor, subject: nat, now: int): Decoded {
    if !WellFormed(c, subject, now) then InvalidCursor
    else if now / SECOND >= c.expires then CursorExpired
    else Accepted
  }

  // -------------------------------------------------------------------- pages

  datatype Page = Page(items: seq<Row>, bound: nat, next: Option<Cursor>)

  datatype Reply = Served(page: Page) | BadCursor(reason: Decoded) | BadQuery | FilterMismatch

  function BoundOf(log: seq<Row>, cursor: Option<Cursor>): nat {
    if cursor.Some? then cursor.value.bound else MaxId(log)
  }

  /** All rows a request still has to return. */
  function Rest(log: seq<Row>, q: Query, cursor: Option<Cursor>): seq<Row> {
    var rows := Filter(Restrict(log, BoundOf(log, cursor)), q);
    if cursor.Some? then After(rows, cursor.value.lastAt, cursor.value.lastId) else rows
  }

  /** A full page of the remaining rows, and a cursor at its last row when more remain. */
  function PageOf(rest: seq<Row>, bound: nat, subject: nat, q: Query, cursor: Option<Cursor>, now: int): Page
    requires 0 < q.size
  {
    if |rest| <= q.size then Page(rest, bound, None)
    else
      var last := rest[q.size - 1];
      var issued := if cursor.Some? then cursor.value.issued else now / SECOND;
      Page(rest[..q.size], bound,
           Some(Cursor(1, subject, q, bound, last.started, last.id, issued,
                       if cursor.Some? then cursor.value.expires else issued + CURSOR_SECONDS)))
  }

  function Serve(log: seq<Row>, subject: nat, q: Query, cursor: Option<Cursor>, now: int): Reply {
    if cursor.Some? && Decode(cursor.value, subject, now) != Accepted then BadCursor(Decode(cursor.value, subject, now))
    else if !ValidQuery(q) then BadQuery
    else if cursor.Some? && cursor.value.query != q then FilterMismatch
    else Served(PageOf(Rest(log, q, cursor), BoundOf(log, cursor), subject, q, cursor, now))
  }

  /** One request of an administrator, with the cursor of the page before if there is one. */
  method List(log: seq<Row>, subject: nat, q: Query, cursor: Option<Cursor>, now: int) returns (r: Reply)
    ensures r == Serve(log, subject, q, cursor, now)
    ensures r.Served? && cursor.Some? ==> ServableCursor(cursor.value, subject, q, now / SECOND)
  {
    if cursor.Some? {
      var reason := Decode(cursor.value, subject, now);
      if reason != Accepted {
        return BadCursor(reason);
      }
    }
    if !ValidQuery(q) {
      return BadQuery;
    }
    if cursor.Some? && cursor.value.query != q {
      return FilterMismatch;
    }
    var items: seq<Row>, bound: nat := [], 0;
    if cursor.None? {
      bound := MaxId(log);
      items := Take(Filter(Restrict(log, bound), q), q.size + 1);
    } else {
      bound := cursor.value.bound;
      items := Take(After(Filter(Restrict(log, bound), q), cursor.value.lastAt, cursor.value.lastId), q.size + 1);
    }
    var next := None;
    if |items| > q.size {
      items := items[..q.size];
      var last := items[|items| - 1];
      var issued, expires := now / SECOND, (now + 30 * MINUTE) / SECOND;
      if cursor.Some? {
        issued, expires := cursor.value.issued, cursor.value.expires;
      }
      next := Some(Cursor(1, subject, q, bound, last.started, last.id, issued, expires));
    }
    return Served(Page(items, bound, next));
  }

  /** A page is served exactly for a valid query, to the subject and for the query that its cursor was issued for, in time. */
  lemma ServedIff(log: seq<Row>, subject: nat, q: Query, cursor: Option<Cursor>, now: int)
    ensures Serve(log, subject, q, cursor, now).Served? <==>
      && q.from < q.to <= q.from + 90 * DAY && q.size in {25, 50, 100} && q.from % MICROSECOND == 0 && q.to % MICROSECOND == 0
      && (cursor.Some? ==> ServableCursor(cursor.value, subject, q, now / SECOND))
    ensures cursor.Some? && (cursor.value.subject != subject || cursor.value.query != q) ==>
      !Serve(log, subject, q, cursor, now).Served?
  {
  }

  /** The cursor is this subject's and this query's, stands inside its window, and is in its half hour. */
  predicate ServableCursor(c: Cursor, subject: nat, q: Query, second: int) {
    && c.subject == subject && subject != 0 && c.query == q && c.version == 1
    && 1 <= c.lastId <= c.bound && q.from <= c.lastAt < q.to && c.lastAt % MICROSECOND == 0
    && c.expires == c.issued + 1800 && c.issued - 30 <= second < c.expires
  }

  // -------------------------------------------------------------------- order

  lemma {:induction false} RestrictKeeps(log: seq<Row>, bound: nat)
    requires Ordered(log)
    ensures Ordered(Restrict(log, bound))
    ensures forall r :: r in Restrict(log, bound) <==> r in log && r.id <= bound
  {
    if log != [] {
      RestrictKeeps(log[1..], bound);
    }
  }

  lemma {:induction false} FilterKeeps(log: seq<Row>, q: Query)
    requires Ordered(log)
    ensures Ordered(Filter(log, q))
    ensures forall r :: r in Filter(log, q) <==> r in log && Matches(q, r)
  {
    if log != [] {
      FilterKeeps(log[1..], q);
    }
  }

  /** The first page's bound hides nothing that is there. */
  lemma {:induction false} MaxIdBounds(log: seq<Row>)
    ensures forall r | r in log :: r.id <= MaxId(log)
  {
    if log != [] {
      MaxIdBounds(log[1..]);
    }
  }

  lemma {:induction false} RestrictAll(log: seq<Row>, bound: nat)
    requires forall r | r in log :: r.id <= bound
    ensures Restrict(log, bound) == log
  {
    if log != [] {
      RestrictAll(log[1..], bound);
    }
  }

  /** In an ordered list, the rows after a row are exactly those behind it. */
  lemma {:induction false} AfterRow(log: seq<Row>, m: nat)
    requires Ordered(log) && m < |log|
    ensures After(log, log[m].started, log[m].id) == log[m + 1..]
  {
    if m == 0 {
      AfterAll(log[1..], log[0]);
    } else {
      assert log[m] == log[1..][m - 1] && log[m] in log[1..];
      AfterRow(log[1..], m - 1);
      assert log[1..][m..] == log[m + 1..];
    }
  }

  lemma {:induction false} AfterAll(log: seq<Row>, r: Row)
    requires Ahead(r, log)
    ensures After(log, r.started, r.id) == log
  {
    if log != [] {
      assert Before(r, log[0]);
      AfterAll(log[1..], r);
    }
  }

  /** A row inserted with a larger ID keeps the index order and stays invisible under the bound. */
  lemma {:induction false} InsertIsInvisible(log: seq<Row>, r: Row, bound: nat)
    requires Ordered(log) && bound < r.id && forall x | x in log :: x.id != r.id
    ensures Ordered(Insert(log, r)) && Restrict(Insert(log, r), bound) == Restrict(log, bound)
    ensures forall x :: x in Insert(log, r) <==> x in log || x == r
  {
    if log != [] && !Before(r, log[0]) {
      InsertIsInvisible(log[1..], r, bound);
      assert Insert(log, r)[1..] == Insert(log[1..], r);
    } else {
      assert ([r] + log)[1..] == log;
      if log != [] {
        assert forall x | x in log :: x == log[0] || x in log[1..];
      }
    }
  }

  // ----------------------------------------------------------------- crawling

  /** A client follows the cursors; page k is served from log k at time k. */
  ghost predicate Crawl(logs: seq<seq<Row>>, times: seq<int>, pages: seq<Page>, subject: nat, q: Query) {
    && 0 < |pages| == |logs| == |times|
    && Serve(logs[0], subject, q, None, times[0]) == Served(pages[0])
    && forall k | 0 < k < |pages| :: Follows(logs[k], times[k], pages[k - 1], pages[k], subject, q)
  }

  predicate Follows(log: seq<Row>, now: int, previous: Page, page: Page, subject: nat, q: Query) {
    previous.next.Some? && Serve(log, subject, q, previous.next, now) == Served(page)
  }

  /** No visible row changed while the client was reading. */
  ghost predicate Stable(logs: seq<seq<Row>>, bound: nat) {
    forall k | 0 <= k < |logs| :: Restrict(logs[k], bound) == Restrict(logs[0], bound)
  }

  function Items(pages: seq<Page>): seq<Row> { if pages == [] then [] else Items(pages[..|pages| - 1]) + pages[|pages| - 1].items }

  /** The client holds a prefix of the answer, whole unless a cursor stands at its last row. */
  ghost predicate Progressed(got: seq<Row>, all: seq<Row>, bound: nat, page: Page) {
    && got <= all && page.bound == bound
    && (page.next.None? ==> got == all)
    && (page.next.Some? ==> 0 < |got| && AtRow(page.next.value, bound, got[|got| - 1]))
  }

  predicate AtRow(c: Cursor, bound: nat, r: Row) { c.bound == bound && c.lastAt == r.started && c.lastId == r.id }

  lemma PageProgresses(got: seq<Row>, all: seq<Row>, bound: nat, subject: nat, q: Query, cursor: Option<Cursor>, now: int)
    requires got <= all && 0 < q.size
    ensures var page := PageOf(all[|got|..], bound, subject, q, cursor, now);
      Progressed(got + page.items, all, bound, page)
  {
  }

  lemma RestAfter(log: seq<Row>, q: Query, c: Cursor, got: seq<Row>, all: seq<Row>)
    requires all == Filter(Restrict(log, c.bound), q) && Ordered(all)
    requires got <= all && 0 < |got| && AtRow(c, c.bound, got[|got| - 1])
    ensures Rest(log, q, Some(c)) == all[|got|..]
  {
    AfterRow(all, |got| - 1);
    assert all[|got| - 1] == got[|got| - 1];
  }

  lemma {:induction false} CrawledPrefix(logs: seq<seq<Row>>, times: seq<int>, pages: seq<Page>, subject: nat, q: Query, k: nat)
    requires Crawl(logs, times, pages, subject, q) && Stable(logs, pages[0].bound) && Ordered(logs[0]) && k < |pages|
    ensures Progressed(Items(pages[..k + 1]), Filter(Restrict(logs[0], pages[0].bound), q), pages[0].bound, pages[k])
  {
    var bound := pages[0].bound;
    var all := Filter(Restrict(logs[0], bound), q);
    assert pages[..k + 1][..k] == pages[..k];
    var got := Items(pages[..k]);
    assert Items(pages[..k + 1]) == got + pages[k].items;
    if k == 0 {
      PageProgresses([], all, bound, subject, q, None, times[0]);
      assert all[0..] == all && [] + pages[0].items == pages[0].items;
    } else {
      CrawledPrefix(logs, times, pages, subject, q, k - 1);
      assert Follows(logs[k], times[k], pages[k - 1], pages[k], subject, q);
      var c := pages[k - 1].next.value;
      RestrictKeeps(logs[0], bound);
      FilterKeeps(Restrict(logs[0], bound), q);
      RestAfter(logs[k], q, c, got, all);
      PageProgresses(got, all, bound, subject, q, Some(c), times[k]);
    }
  }

  /**
   Reading until no cursor is left returns exactly the rows of the first page's
   log that match, each once and newest first.
   */
  lemma CrawlIsComplete(logs: seq<seq<Row>>, times: seq<int>, pages: seq<Page>, subject: nat, q: Query)
    requires Crawl(logs, times, pages, subject, q) && Stable(logs, pages[0].bound) && Ordered(logs[0])
    requires pages[|pages| - 1].next.None?
    ensures Items(pages) == Filter(logs[0], q) && Ordered(Items(pages))
    ensures forall r :: r in Items(pages) <==>
      r in logs[0] && q.from <= r.started < q.to && forall k | k in q.labels :: k in r.labels && r.labels[k] == q.labels[k]
  {
    CrawledPrefix(logs, times, pages, subject, q, |pages| - 1);
    assert pages[..|pages|] == pages;
    MaxIdBounds(logs[0]);
    RestrictAll(logs[0], pages[0].bound);
    FilterKeeps(logs[0], q);
  }

  /** Every cursor issued from a valid log is accepted until it expires, unless the clock runs back over the skew. */
  lemma IssuedCursorAccepted(logs: seq<seq<Row>>, times: seq<int>, pages: seq<Page>, subject: nat, q: Query, k: nat, now: int)
    requires Crawl(logs, times, pages, subject, q) && Stable(logs, pages[0].bound) && ValidLog(logs[0])
    requires k < |pages| && pages[k].next.Some? && subject != 0
    ensures pages[k].next.value.issued == times[0] / SECOND && pages[k].next.value.expires == times[0] / SECOND + 1800
    ensures Decode(pages[k].next.value, subject, now) == Accepted
      <==> times[0] / SECOND - CLOCK_SKEW <= now / SECOND < times[0] / SECOND + 1800
    ensures Decode(pages[k].next.value, subject, now) == Accepted ==> Serve(logs[0], subject, q, pages[k].next, now).Served?
  {
    IssuedTimes(logs, times, pages, subject, q, k);
    CrawledPrefix(logs, times, pages, subject, q, k);
    var got := Items(pages[..k + 1]);
    RestrictKeeps(logs[0], pages[0].bound);
    FilterKeeps(Restrict(logs[0], pages[0].bound), q);
    var last := got[|got| - 1];
    assert last in Filter(Restrict(logs[0], pages[0].bound), q);
  }

  lemma {:induction false} IssuedTimes(logs: seq<seq<Row>>, times: seq<int>, pages: seq<Page>, subject: nat, q: Query, k: nat)
    requires Crawl(logs, times, pages, subject, q) && k < |pages| && pages[k].next.Some?
    ensures var c := pages[k].next.value;
      c.version == 1 && c.subject == subject && c.query == q
      && c.issued == times[0] / SECOND && c.expires == times[0] / SECOND + 1800
  {
    if k > 0 {
      assert Follows(logs[k], times[k], pages[k - 1], pages[k], subject, q);
      IssuedTimes(logs, times, pages, subject, q, k - 1);
    }
  }

  // ------------------------------------------------- inserts between requests

  function InsertAll(log: seq<Row>, rows: seq<Row>): seq<Row> {
    if rows == [] then log else Insert(InsertAll(log, rows[..|rows| - 1]), rows[|rows| - 1])
  }

  /** New rows get IDs from the sequence: beyond the bound, never used before, each once. */
  ghost predicate NewRows(log: seq<Row>, rows: seq<Row>, bound: nat) {
    rows != [] ==>
      && bound < rows[|rows| - 1].id && NewRows(log, rows[..|rows| - 1], bound)
      && forall x | x in InsertAll(log, rows[..|rows| - 1]) :: x.id != rows[|rows| - 1].id
  }

  lemma {:induction false} InsertsAreInvisible(log: seq<Row>, rows: seq<Row>, bound: nat)
    requires Ordered(log) && NewRows(log, rows, bound)
    ensures Ordered(InsertAll(log, rows)) && Restrict(InsertAll(log, rows), bound) == Restrict(log, bound)
    ensures forall x :: x in InsertAll(log, rows) <==> x in log || x in rows
  {
    if rows != [] {
      var init := rows[..|rows| - 1];
      InsertsAreInvisible(log, init, bound);
      InsertIsInvisible(InsertAll(log, init), rows[|rows| - 1], bound);
    }
  }

  /** Between page k and page k + 1 any number of rows are inserted. */
  ghost predicate OnlyInserts(logs: seq<seq<Row>>, batches: seq<seq<Row>>, bound: nat) {
    && |logs| == |batches| + 1
    && forall k | 0 <= k < |batches| ::
         NewRows(logs[k], batches[k], bound) && logs[k + 1] == InsertAll(logs[k], batches[k])
  }

  lemma {:induction false} InsertsAreStable(logs: seq<seq<Row>>, batches: seq<seq<Row>>, bound: nat, k: nat)
    requires OnlyInserts(logs, batches, bound) && Ordered(logs[0]) && k < |logs|
    ensures Ordered(logs[k]) && Restrict(logs[k], bound) == Restrict(logs[0], bound)
  {
    if k > 0 {
      InsertsAreStable(logs, batches, bound, k - 1);
      InsertsAreInvisible(logs[k - 1], batches[k - 1], bound);
    }
  }

  /** A crawl is complete whatever rows are inserted between its requests. */
  lemma CrawlDespiteInserts(logs: seq<seq<Row>>, batches: seq<seq<Row>>, times: seq<int>, pages: seq<Page>, subject: nat, q: Query)
    requires Crawl(logs, times, pages, subject, q) && Ordered(logs[0]) && OnlyInserts(logs, batches, pages[0].bound)
    requires pages[|pages| - 1].next.None?
    ensures Items(pages) == Filter(logs[0], q) && Ordered(Items(pages))
    ensures forall r :: r in Items(pages) <==>
      r in logs[0] && q.from <= r.started < q.to && forall k | k in q.labels :: k in r.labels && r.labels[k] == q.labels[k]
  {
    forall k | 0 <= k < |logs|
      ensures Restrict(logs[k], pages[0].bound) == Restrict(logs[0], pages[0].bound)
    {
      InsertsAreStable(logs, batches, pages[0].bound, k);
    }
    CrawlIsComplete(logs, times, pages, subject, q);
  }
}
