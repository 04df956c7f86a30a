/** Offline sync: the paginated backfill of a reconnecting user's inbox
    (server/internal/sync/offline.go, server/internal/inbox/store.go). */
module Offline {
  import opened Wrappers
  import opened Hex
  import opened TimeQuery
  import opened Sync
  import Pipeline

  const DEFAULT_PAGE_SIZE: nat := 100

  /** What the pipeline guarantees of an inbox: message ids are present and unique per user. */
  ghost predicate TableOk(table: seq<InboxRow>) {
    && (forall m :: m in table ==> m.messageId != [])
    && (forall m, n :: m in table && n in table && m.userId == n.userId && m.messageId == n.messageId ==> m == n)
  }

  lemma ReachableInboxIsTable(steps: seq<Pipeline.PipeStep>)
    requires Pipeline.IsRun(Pipeline.INIT, steps)
    ensures TableOk(Pipeline.Final(Pipeline.INIT, steps).sync.inbox)
  {
    var p := Pipeline.Final(Pipeline.INIT, steps);
    Pipeline.PipeRunKeepsInv(Pipeline.INIT, steps);
    forall m | m in p.sync.inbox
      ensures m.messageId != []
    {
      assert RowTraced(p.out.log, m);
    }
  }

  // The queries.

  function RowTime(m: InboxRow): int {
    m.createdAt
  }

  function Mine(table: seq<InboxRow>, user: Bytes): set<InboxRow> {
    set m | m in table && m.userId == user
  }

  function Undelivered(table: seq<InboxRow>, user: Bytes): set<InboxRow> {
    set m | m in table && m.userId == user && !m.delivered
  }

  function After(table: seq<InboxRow>, user: Bytes, time: int): set<InboxRow> {
    set m | m in table && m.userId == user && m.createdAt > time
  }

  predicate Knows(table: seq<InboxRow>, user: Bytes, messageId: Bytes) {
    exists m :: m in table && m.userId == user && m.messageId == messageId
  }

  /** The rows a request asks for; comparing with the time of an unknown cursor selects nothing. */
  ghost function Requested(table: seq<InboxRow>, user: Bytes, cursor: Bytes): set<InboxRow> {
    if cursor == [] then Undelivered(table, user)
    else if Knows(table, user, cursor) then
      var m :| m in table && m.userId == user && m.messageId == cursor;
      After(table, user, m.createdAt)
    else {}
  }

  lemma RequestedAfter(table: seq<InboxRow>, m: InboxRow)
    requires TableOk(table) && m in table
    ensures Requested(table, m.userId, m.messageId) == After(table, m.userId, m.createdAt)
  {
    var n :| n in table && n.userId == m.userId && n.messageId == m.messageId;
    assert n == m;
  }

  lemma RequestedIsMine(table: seq<InboxRow>, user: Bytes, cursor: Bytes)
    ensures Requested(table, user, cursor) <= Mine(table, user)
  {
  }

  /** What moving the cursor to a row of the user's asks for next. */
  lemma CursorMoved(table: seq<InboxRow>, user: Bytes, last: InboxRow)
    requires TableOk(table) && last in Mine(table, user)
    ensures last.messageId != [] && Requested(table, user, last.messageId) == After(table, user, last.createdAt)
  {
    RequestedAfter(table, last);
  }

  datatype SyncResult = SyncResult(messages: seq<InboxRow>, hasMore: bool)

  /** Fetching one row more than a page and cutting it off again gives a page and tells if more follow. */
  lemma TrimmedPage(all: set<InboxRow>, size: nat, fetched: seq<InboxRow>)
    requires IsPage(all, RowTime, size + 1, fetched)
    ensures |fetched| > size <==> |all| > size
    ensures IsPage(all, RowTime, size, if |fetched| > size then fetched[..size] else fetched)
  {
    if |fetched| > size {
      assert fetched == fetched[..size] + fetched[size..];
      forall x, y | x in all && y in fetched[..size] && x !in fetched[..size]
        ensures RowTime(y) <= RowTime(x)
      {
        BeyondPrefix(fetched, size, x, y);
      }
    }
  }

  lemma BeyondPrefix(s: seq<InboxRow>, n: nat, x: InboxRow, y: InboxRow)
    requires SortedBy(s, RowTime) && n <= |s| && y in s[..n]
    ensures x in s[n..] ==> RowTime(y) <= RowTime(x)
  {
    var i :| 0 <= i < n && s[..n][i] == y;
    if x in s[n..] {
      var j :| 0 <= j < |s| - n && s[n..][j] == x;
      assert RowTime(s[i]) <= RowTime(s[n + j]);
    }
  }

  // What a paginated sync hands to its callback.

  function Last(page: seq<InboxRow>): InboxRow
    requires page != []
  {
    page[|page| - 1]
  }

  /** A backfill of one user's rows in pages of `size`, starting with the rows in `first`. The n-th request
      finds the inbox as `tables(n)`: workers may add rows between two requests. */
  datatype Backfill = Backfill(tables: nat -> seq<InboxRow>, user: Bytes, size: nat, first: set<InboxRow>)

  /** Rows are only ever added, with any creation time, and no more than those of `final`. */
  ghost predicate GrowsTo(tables: nat -> seq<InboxRow>, final: seq<InboxRow>) {
    && (forall m: nat, n: nat :: m <= n ==> Extends(tables, m, n))
    && (forall n: nat :: IsPart(tables, n, final))
  }

  predicate Extends(tables: nat -> seq<InboxRow>, m: nat, n: nat) {
    tables(m) <= tables(n)
  }

  predicate IsPart(tables: nat -> seq<InboxRow>, n: nat, final: seq<InboxRow>) {
    tables(n) <= final
  }

  /** The requests begin with rows of the user's. */
  ghost predicate StartsWithin(b: Backfill, final: seq<InboxRow>) {
    GrowsTo(b.tables, final) && b.first <= Mine(b.tables(0), b.user)
  }

  lemma TableAtOk(tables: nat -> seq<InboxRow>, final: seq<InboxRow>, n: nat)
    requires TableOk(final) && GrowsTo(tables, final)
    ensures TableOk(tables(n))
  {
    assert IsPart(tables, n, final);
    assert forall m :: m in tables(n) ==> m in final;
  }

  /** The rows the p-th request asks for: first those of the caller's cursor, then all of the user's
      rows later than the last one handed over. */
  function RequestedAt(b: Backfill, pages: seq<seq<InboxRow>>, p: nat): set<InboxRow>
    requires p <= |pages|
  {
    if p == 0 || pages[p - 1] == [] then b.first else After(b.tables(p), b.user, Last(pages[p - 1]).createdAt)
  }

  /** The p-th page answers the p-th request, and more rows were left if another page follows. */
  ghost predicate PageAt(b: Backfill, pages: seq<seq<InboxRow>>, p: nat)
    requires p < |pages|
  {
    && pages[p] != []
    && IsPage(RequestedAt(b, pages, p), RowTime, b.size, pages[p])
    && (p + 1 < |pages| ==> |RequestedAt(b, pages, p)| > b.size)
  }

  ghost predicate IsChain(b: Backfill, pages: seq<seq<InboxRow>>) {
    forall p :: 0 <= p < |pages| ==> PageAt(b, pages, p)
  }

  /** The last request was answered in full. After a page with more to come that request is the next
      one, which ties can leave without rows. */
  predicate IsFinished(b: Backfill, pages: seq<seq<InboxRow>>) {
    || b.size == 0
    || RequestedAt(b, pages, |pages|) == {}
    || (pages != [] && |RequestedAt(b, pages, |pages| - 1)| <= b.size)
  }

  lemma ChainExtends(b: Backfill, pages: seq<seq<InboxRow>>, page: seq<InboxRow>)
    requires IsChain(b, pages) && page != []
    requires IsPage(RequestedAt(b, pages, |pages|), RowTime, b.size, page)
    requires pages != [] ==> |RequestedAt(b, pages, |pages| - 1)| > b.size
    ensures IsChain(b, pages + [page])
    ensures RequestedAt(b, pages + [page], |pages|) == RequestedAt(b, pages, |pages|)
  {
    var next := pages + [page];
    forall p | 0 <= p < |next|
      ensures PageAt(b, next, p)
    {
      assert p > 0 ==> next[p - 1] == pages[p - 1];
      if p < |pages| {
        assert next[p] == pages[p];
        assert PageAt(b, pages, p);
      }
    }
  }

  lemma SmallerSet<T>(a: set<T>, b: set<T>)
    requires a < b
    ensures |a| < |b|
  {
    assert b == a + (b - a);
  }

  /** The rows of the user, of all there will be, that no request has gone past yet. */
  ghost function Left(b: Backfill, final: seq<InboxRow>, pages: seq<seq<InboxRow>>): set<InboxRow> {
    if pages == [] || Trailing(pages) == [] then Mine(final, b.user)
    else After(final, b.user, Last(Trailing(pages)).createdAt)
  }

  function Trailing(pages: seq<seq<InboxRow>>): seq<InboxRow>
    requires pages != []
  {
    pages[|pages| - 1]
  }

  lemma RequestedIsLeft(b: Backfill, final: seq<InboxRow>, pages: seq<seq<InboxRow>>)
    requires StartsWithin(b, final)
    ensures RequestedAt(b, pages, |pages|) <= Left(b, final, pages)
  {
    forall n: nat, m | m in b.tables(n)
      ensures m in final
    {
      assert IsPart(b.tables, n, final);
    }
  }

  /** Each page handed over extends the chain and leaves strictly fewer rows: the cursor moves on in time. */
  lemma CursorAdvances(b: Backfill, final: seq<InboxRow>, pages: seq<seq<InboxRow>>, page: seq<InboxRow>)
    requires IsChain(b, pages) && page != [] && StartsWithin(b, final)
    requires IsPage(RequestedAt(b, pages, |pages|), RowTime, b.size, page)
    requires pages != [] ==> |RequestedAt(b, pages, |pages| - 1)| > b.size
    ensures IsChain(b, pages + [page])
    ensures RequestedAt(b, pages + [page], |pages|) == RequestedAt(b, pages, |pages|)
    ensures RequestedAt(b, pages + [page], |pages| + 1) == After(b.tables(|pages| + 1), b.user, Last(page).createdAt)
    ensures Last(page) in Mine(b.tables(|pages| + 1), b.user)
    ensures |Left(b, final, pages + [page])| < |Left(b, final, pages)|
  {
    ChainExtends(b, pages, page);
    RequestedIsLeft(b, final, pages);
    var last := Last(page);
    assert last in page && last in RequestedAt(b, pages, |pages|);
    LastIsThere(b, final, pages, last);
    var rest := After(final, b.user, last.createdAt);
    assert Left(b, final, pages + [page]) == rest && last !in rest && rest <= Left(b, final, pages);
    SmallerSet(rest, Left(b, final, pages));
  }

  /** A requested row is still there at the next request. */
  lemma LastIsThere(b: Backfill, final: seq<InboxRow>, pages: seq<seq<InboxRow>>, x: InboxRow)
    requires StartsWithin(b, final) && x in RequestedAt(b, pages, |pages|)
    ensures x in Mine(b.tables(|pages| + 1), b.user)
  {
    assert Extends(b.tables, 0, |pages| + 1) && Extends(b.tables, |pages|, |pages| + 1);
  }

  /** The pages so far are a chain, the last of them had more to come, and the cursor asks for the rest. */
  ghost predicate IsReady(b: Backfill, cursor: Bytes, pages: seq<seq<InboxRow>>) {
    && IsChain(b, pages)
    && Requested(b.tables(|pages|), b.user, cursor) == RequestedAt(b, pages, |pages|)
    && (pages != [] ==> |RequestedAt(b, pages, |pages| - 1)| > b.size)
  }

  /** What the page's last row, as the cursor, asks for next. */
  lemma NextRequest(b: Backfill, final: seq<InboxRow>, pages: seq<seq<InboxRow>>, page: seq<InboxRow>)
    requires TableOk(final) && IsChain(b, pages) && page != [] && StartsWithin(b, final)
    requires IsPage(RequestedAt(b, pages, |pages|), RowTime, b.size, page)
    requires pages != [] ==> |RequestedAt(b, pages, |pages| - 1)| > b.size
    ensures IsChain(b, pages + [page])
    ensures RequestedAt(b, pages + [page], |pages|) == RequestedAt(b, pages, |pages|)
    ensures Requested(b.tables(|pages| + 1), b.user, Last(page).messageId) == RequestedAt(b, pages + [page], |pages| + 1)
    ensures |Left(b, final, pages + [page])| < |Left(b, final, pages)|
  {
    CursorAdvances(b, final, pages, page);
    TableAtOk(b.tables, final, |pages| + 1);
    CursorMoved(b.tables(|pages| + 1), b.user, Last(page));
  }

  lemma EmptyPageFinishes(b: Backfill, pages: seq<seq<InboxRow>>)
    requires IsPage(RequestedAt(b, pages, |pages|), RowTime, b.size, [])
    ensures IsFinished(b, pages)
  {
    PageIsWhole(RequestedAt(b, pages, |pages|), RowTime, b.size, []);
  }

  /** The inbox a query finds is an argument, as others write to it. */
  class OfflineSync {
    const pageSize: nat

    constructor ()
      ensures pageSize == 100
    {
      this.pageSize := DEFAULT_PAGE_SIZE;
    }

    method GetUndelivered(table: seq<InboxRow>, user: Bytes, limit: nat) returns (rows: seq<InboxRow>)
      ensures IsPage(Undelivered(table, user), RowTime, limit, rows)
    {
      rows := Select(Undelivered(table, user), RowTime, limit);
    }

    method GetAfterMessageID(table: seq<InboxRow>, user: Bytes, messageId: Bytes, limit: nat) returns (rows: seq<InboxRow>)
      requires TableOk(table) && messageId != []
      ensures IsPage(Requested(table, user, messageId), RowTime, limit, rows)
    {
      for i := 0 to |table|
        invariant forall j :: 0 <= j < i ==> table[j].userId != user || table[j].messageId != messageId
      {
        if table[i].userId == user && table[i].messageId == messageId {
          RequestedAfter(table, table[i]);
          rows := Select(After(table, user, table[i].createdAt), RowTime, limit);
          return;
        }
      }
      assert !Knows(table, user, messageId);
      rows := [];
    }

    /** One page of the rows requested, and whether more remain. */
    method GetMissedMessages(table: seq<InboxRow>, user: Bytes, lastSeen: Bytes, dbOk: bool) returns (r: Result<SyncResult>)
      requires TableOk(table)
      ensures r.Ok? == dbOk
      ensures r.Ok? ==> IsPage(Requested(table, user, lastSeen), RowTime, pageSize, r.value.messages)
      ensures r.Ok? ==> (r.value.hasMore <==> |Requested(table, user, lastSeen)| > pageSize)
    {
      if !dbOk {
        return Err("query");
      }
      var rows;
      if |lastSeen| == 0 {
        rows := GetUndelivered(table, user, pageSize + 1);
      } else {
        rows := GetAfterMessageID(table, user, lastSeen, pageSize + 1);
      }
      TrimmedPage(Requested(table, user, lastSeen), pageSize, rows);
      if |rows| > pageSize {
        return Ok(SyncResult(rows[..pageSize], true));
      }
      return Ok(SyncResult(rows, false));
    }

    /** The query of one round of the loop below: without rows it ends the backfill, otherwise its page
        extends the chain and its last row is the next cursor. */
    method GetNextPage(user: Bytes, cursor: Bytes, dbOk: bool, table: seq<InboxRow>,
                       ghost b: Backfill, ghost final: seq<InboxRow>, ghost pages: seq<seq<InboxRow>>)
      returns (r: Result<SyncResult>)
      requires b.user == user && b.size == pageSize && b.tables(|pages|) == table && TableOk(final) && StartsWithin(b, final)
      requires IsReady(b, cursor, pages)
      ensures r.Ok? == dbOk
      ensures r.Ok? && r.value.messages == [] ==> IsFinished(b, pages)
      ensures r.Ok? && r.value.messages != [] ==>
        var next := pages + [r.value.messages];
        && IsChain(b, next)
        && |Left(b, final, next)| < |Left(b, final, pages)|
        && (if r.value.hasMore then IsReady(b, Last(r.value.messages).messageId, next) else IsFinished(b, next))
    {
      TableAtOk(b.tables, final, |pages|);
      r := GetMissedMessages(table, user, cursor, dbOk);
      if r.Ok? {
        if r.value.messages == [] {
          EmptyPageFinishes(b, pages);
        } else {
          NextRequest(b, final, pages, r.value.messages);
        }
      }
    }

    /** The pages handed to the callback, one for each call of it. The loop terminates as long as only
        finitely many rows are added; it stops early only on a query or callback error, and its pages up
        to then are still a chain. */
    method GetMissedMessagesPaginated(tables: nat -> seq<InboxRow>, ghost final: seq<InboxRow>, user: Bytes, lastSeen: Bytes,
                                      dbOk: nat -> bool, callbackOk: nat -> bool)
      returns (r: Result<()>, pages: seq<seq<InboxRow>>)
      requires TableOk(final) && GrowsTo(tables, final)
      ensures IsChain(Backfill(tables, user, pageSize, Requested(tables(0), user, lastSeen)), pages)
      ensures r.Ok? ==> IsFinished(Backfill(tables, user, pageSize, Requested(tables(0), user, lastSeen)), pages)
      ensures r.Err? ==> !dbOk(|pages|) || (pages != [] && !callbackOk(|pages| - 1))
      ensures forall i :: 0 <= i < |pages| ==> dbOk(i) && (i < |pages| - 1 || r.Ok? ==> callbackOk(i))
    {
      var cursor := lastSeen;
      ghost var b := Backfill(tables, user, pageSize, Requested(tables(0), user, lastSeen));
      RequestedIsMine(tables(0), user, lastSeen);
      pages := [];
      while true
        invariant IsReady(b, cursor, pages)
        invariant forall i :: 0 <= i < |pages| ==> dbOk(i) && callbackOk(i)
        decreases |Left(b, final, pages)|
      {
        var result := GetNextPage(user, cursor, dbOk(|pages|), tables(|pages|), b, final, pages);
        if result.Err? {
          return Err(result.error), pages;
        }
        var page := result.value.messages;
        if |page| == 0 {
          return Ok(()), pages;
        }
        pages := pages + [page];
        if !callbackOk(|pages| - 1) {
          return Err("callback"), pages;
        }
        if !result.value.hasMore {
          return Ok(()), pages;
        }
        cursor := page[|page| - 1].messageId;
      }
    }
  }

  // What the pages are worth.

  function Flatten(pages: seq<seq<InboxRow>>): seq<InboxRow> {
    if pages == [] then [] else Flatten(pages[..|pages| - 1]) + pages[|pages| - 1]
  }

  lemma {:induction false} InFlatten(pages: seq<seq<InboxRow>>, x: InboxRow)
    ensures x in Flatten(pages) <==> exists p :: 0 <= p < |pages| && x in pages[p]
  {
    if pages != [] {
      var init := pages[..|pages| - 1];
      InFlatten(init, x);
      assert pages == init + [pages[|pages| - 1]];
    }
  }

  /** A page bounded by its last row: its own rows are no later, the rows it leaves out no earlier. */
  lemma PageBounds(b: Backfill, pages: seq<seq<InboxRow>>, p: nat)
    requires IsChain(b, pages) && p < |pages|
    ensures 1 <= |pages[p]| <= |RequestedAt(b, pages, p)|
    ensures forall x :: x in pages[p] ==> x in RequestedAt(b, pages, p) && x.createdAt <= Last(pages[p]).createdAt
    ensures forall x :: x in RequestedAt(b, pages, p) && x !in pages[p] ==> Last(pages[p]).createdAt <= x.createdAt
    ensures |RequestedAt(b, pages, p)| <= b.size ==> forall x :: x in RequestedAt(b, pages, p) ==> x in pages[p]
    ensures p + 1 < |pages| ==> |pages[p]| == b.size
  {
    assert PageAt(b, pages, p);
    var page, all := pages[p], RequestedAt(b, pages, p);
    assert Last(page) in page;
    forall x | x in page
      ensures x.createdAt <= Last(page).createdAt
    {
      var i :| 0 <= i < |page| && page[i] == x;
      assert RowTime(page[i]) <= RowTime(page[|page| - 1]);
    }
    forall x | x in all && x !in page
      ensures Last(page).createdAt <= x.createdAt
    {
      assert RowTime(Last(page)) <= RowTime(x);
    }
    PageIsWhole(all, RowTime, b.size, page);
    assert forall x :: x in Elems(page) ==> x in page;
  }

  /** Rows of a later page are strictly later. */
  lemma {:induction false} PagesIncrease(b: Backfill, pages: seq<seq<InboxRow>>, p: nat, q: nat)
    requires IsChain(b, pages) && p < q < |pages|
    ensures forall x, y :: x in pages[p] && y in pages[q] ==> x.createdAt < y.createdAt
    decreases q
  {
    PageBounds(b, pages, q);
    PageBounds(b, pages, q - 1);
    assert Last(pages[q - 1]) in pages[q - 1];
    if p < q - 1 {
      PagesIncrease(b, pages, p, q - 1);
    }
  }

  /** No row is handed over twice, and they come in time order across all pages. */
  lemma {:induction false} NeverRepeats(b: Backfill, pages: seq<seq<InboxRow>>, n: nat)
    requires IsChain(b, pages) && n <= |pages|
    ensures Distinct(Flatten(pages[..n])) && SortedBy(Flatten(pages[..n]), RowTime)
    decreases n
  {
    if n > 0 {
      var m := n - 1;
      NeverRepeats(b, pages, m);
      assert pages[..n][..m] == pages[..m];
      forall x, y | x in Flatten(pages[..m]) && y in pages[m]
        ensures x.createdAt < y.createdAt
      {
        InFlatten(pages[..m], x);
        var p :| 0 <= p < m && x in pages[..m][p];
        PagesIncrease(b, pages, p, m);
      }
      assert PageAt(b, pages, m);
      AppendLater(Flatten(pages[..m]), pages[m]);
    }
  }

  lemma AppendLater(a: seq<InboxRow>, b: seq<InboxRow>)
    requires Distinct(a) && SortedBy(a, RowTime) && Distinct(b) && SortedBy(b, RowTime)
    requires forall x, y :: x in a && y in b ==> x.createdAt < y.createdAt
    ensures Distinct(a + b) && SortedBy(a + b, RowTime)
  {
    var c := a + b;
    forall i, j | 0 <= i < j < |c|
      ensures c[i] != c[j] && RowTime(c[i]) <= RowTime(c[j])
    {
      if i < |a| <= j {
        assert c[i] in a && c[j] in b;
      }
    }
  }

  /** The row shares its time with the last row of a page that does not hold it. */
  predicate IsTied(pages: seq<seq<InboxRow>>, x: InboxRow) {
    exists p :: 0 <= p < |pages| && TiedAt(pages[p], x)
  }

  predicate TiedAt(page: seq<InboxRow>, x: InboxRow) {
    page != [] && Last(page).createdAt == x.createdAt && x !in page
  }

  lemma {:induction false} ReachedFrom(b: Backfill, final: seq<InboxRow>, pages: seq<seq<InboxRow>>, p: nat, x: InboxRow)
    requires IsChain(b, pages) && IsFinished(b, pages) && b.size >= 1 && StartsWithin(b, final)
    requires p <= |pages| && x in RequestedAt(b, pages, p)
    requires 0 < p == |pages| ==> |RequestedAt(b, pages, p - 1)| > b.size
    requires !IsTied(pages, x)
    ensures exists q :: 0 <= q < |pages| && x in pages[q]
    decreases |pages| - p
  {
    if p < |pages| && x !in pages[p] {
      PageBounds(b, pages, p);
      assert !TiedAt(pages[p], x);
      assert Extends(b.tables, 0, p + 1) && Extends(b.tables, p, p + 1);
      ReachedFrom(b, final, pages, p + 1, x);
    }
  }

  lemma HandedOverIsNotTied(b: Backfill, pages: seq<seq<InboxRow>>, p: nat, q: nat, x: InboxRow)
    requires IsChain(b, pages) && p < |pages| && q < |pages| && x in pages[q]
    ensures !TiedAt(pages[p], x)
  {
    if p < q {
      PagesIncrease(b, pages, p, q);
    } else if q < p {
      PagesIncrease(b, pages, q, p);
    }
    assert pages[p] != [] ==> Last(pages[p]) in pages[p];
  }

  /** Some request asked for the row. */
  ghost predicate IsRequested(b: Backfill, pages: seq<seq<InboxRow>>, x: InboxRow) {
    exists p :: 0 <= p < |pages| && x in RequestedAt(b, pages, p)
  }

  lemma FirstIsRequested(b: Backfill, pages: seq<seq<InboxRow>>, x: InboxRow)
    requires IsFinished(b, pages) && b.size >= 1 && x in b.first
    ensures IsRequested(b, pages, x)
  {
    assert x in RequestedAt(b, pages, 0);
  }

  /** Exactly which rows a finished sync hands over, of those there at its start and those added meanwhile: the
      rows some request asked for, among them all that were first requested, but those tied in time with the
      last row of a page that does not hold them. */
  lemma HandsOverAllButTies(b: Backfill, final: seq<InboxRow>, pages: seq<seq<InboxRow>>, x: InboxRow)
    requires IsChain(b, pages) && IsFinished(b, pages) && b.size >= 1 && StartsWithin(b, final)
    ensures x in Flatten(pages) <==> IsRequested(b, pages, x) && !IsTied(pages, x)
    ensures x in b.first ==> IsRequested(b, pages, x)
  {
    InFlatten(pages, x);
    if x in b.first {
      FirstIsRequested(b, pages, x);
    }
    if x in Flatten(pages) {
      var q :| 0 <= q < |pages| && x in pages[q];
      PageBounds(b, pages, q);
      forall p | 0 <= p < |pages|
        ensures !TiedAt(pages[p], x)
      {
        HandedOverIsNotTied(b, pages, p, q, x);
      }
    } else if IsRequested(b, pages, x) && !IsTied(pages, x) {
      var p :| 0 <= p < |pages| && x in RequestedAt(b, pages, p);
      ReachedFrom(b, final, pages, p, x);
    }
  }

  lemma PagesAreMine(b: Backfill, final: seq<InboxRow>, pages: seq<seq<InboxRow>>, p: nat, x: InboxRow)
    requires IsChain(b, pages) && StartsWithin(b, final)
    requires p < |pages| && x in pages[p]
    ensures x in Mine(final, b.user)
  {
    PageBounds(b, pages, p);
    assert IsPart(b.tables, p, final) && IsPart(b.tables, 0, final);
  }

  /** From a known cursor, nothing is handed over that is not later than it. */
  lemma OnlyLaterRows(b: Backfill, final: seq<InboxRow>, time: int, pages: seq<seq<InboxRow>>, x: InboxRow)
    requires b.first == After(b.tables(0), b.user, time) && GrowsTo(b.tables, final)
    requires IsChain(b, pages) && x in Flatten(pages)
    ensures x in After(final, b.user, time)
  {
    InFlatten(pages, x);
    var q :| 0 <= q < |pages| && x in pages[q];
    PagesAreMine(b, final, pages, q, x);
    PageBounds(b, pages, 0);
    assert pages[0][0] in pages[0];
    if q > 0 {
      PagesIncrease(b, pages, 0, q);
    }
  }

  ghost predicate DistinctTimes(table: seq<InboxRow>, user: Bytes) {
    forall m, n :: m in Mine(table, user) && n in Mine(table, user) && m.createdAt == n.createdAt ==> m == n
  }

  lemma NotTied(b: Backfill, final: seq<InboxRow>, pages: seq<seq<InboxRow>>, x: InboxRow)
    requires IsChain(b, pages) && StartsWithin(b, final)
    requires DistinctTimes(final, b.user) && x in Mine(b.tables(0), b.user)
    ensures !IsTied(pages, x)
  {
    assert IsPart(b.tables, 0, final);
    forall p | 0 <= p < |pages|
      ensures !TiedAt(pages[p], x)
    {
      if pages[p] != [] {
        assert Last(pages[p]) in pages[p];
        PagesAreMine(b, final, pages, p, Last(pages[p]));
      }
    }
  }

  lemma FullPages(b: Backfill, pages: seq<seq<InboxRow>>)
    requires IsChain(b, pages)
    ensures forall p :: 0 <= p < |pages| - 1 ==> |pages[p]| == b.size
  {
    forall p | 0 <= p < |pages| - 1
      ensures |pages[p]| == b.size
    {
      PageBounds(b, pages, p);
    }
  }

  /** What every finished or interrupted sync keeps: no repeats, time order, full pages but the last. */
  lemma PagesInOrder(b: Backfill, pages: seq<seq<InboxRow>>)
    requires IsChain(b, pages)
    ensures Distinct(Flatten(pages)) && SortedBy(Flatten(pages), RowTime)
    ensures forall p :: 0 <= p < |pages| - 1 ==> |pages[p]| == b.size
  {
    NeverRepeats(b, pages, |pages|);
    assert pages[..|pages|] == pages;
    FullPages(b, pages);
  }

  /** With distinct times no row is tied, so a finished sync from a known cursor hands over each of the
      user's later rows there were at its start exactly once and in time order, on pages that are all full
      but the last, and besides them only later rows added meanwhile; so exactly the later rows if the
      inbox did not change. */
  lemma BackfillIsExact(tables: nat -> seq<InboxRow>, final: seq<InboxRow>, m: InboxRow, size: nat, pages: seq<seq<InboxRow>>)
    requires TableOk(final) && GrowsTo(tables, final) && m in tables(0) && DistinctTimes(final, m.userId) && size >= 1
    requires IsChain(Backfill(tables, m.userId, size, Requested(tables(0), m.userId, m.messageId)), pages)
    requires IsFinished(Backfill(tables, m.userId, size, Requested(tables(0), m.userId, m.messageId)), pages)
    ensures After(tables(0), m.userId, m.createdAt) <= Elems(Flatten(pages)) <= After(final, m.userId, m.createdAt)
    ensures tables(0) == final ==> Elems(Flatten(pages)) == After(final, m.userId, m.createdAt)
    ensures Distinct(Flatten(pages)) && SortedBy(Flatten(pages), RowTime)
    ensures forall p :: 0 <= p < |pages| - 1 ==> |pages[p]| == size
  {
    TableAtOk(tables, final, 0);
    RequestedAfter(tables(0), m);
    var b := Backfill(tables, m.userId, size, After(tables(0), m.userId, m.createdAt));
    PagesInOrder(b, pages);
    forall x | x in b.first
      ensures x in Flatten(pages)
    {
      NotTied(b, final, pages, x);
      HandsOverAllButTies(b, final, pages, x);
    }
    forall x | x in Flatten(pages)
      ensures x in After(final, m.userId, m.createdAt)
    {
      OnlyLaterRows(b, final, m.createdAt, pages, x);
    }
  }

  /** With an empty cursor it hands over every row undelivered at its start exactly once. */
  lemma BackfillCoversUndelivered(tables: nat -> seq<InboxRow>, final: seq<InboxRow>, user: Bytes, size: nat, pages: seq<seq<InboxRow>>)
    requires GrowsTo(tables, final) && DistinctTimes(final, user) && size >= 1
    requires IsChain(Backfill(tables, user, size, Requested(tables(0), user, [])), pages)
    requires IsFinished(Backfill(tables, user, size, Requested(tables(0), user, [])), pages)
    ensures Undelivered(tables(0), user) <= Elems(Flatten(pages)) <= Mine(final, user)
    ensures Distinct(Flatten(pages)) && SortedBy(Flatten(pages), RowTime)
    ensures forall p :: 0 <= p < |pages| - 1 ==> |pages[p]| == size
  {
    var b := Backfill(tables, user, size, Undelivered(tables(0), user));
    PagesInOrder(b, pages);
    forall x | x in b.first
      ensures x in Flatten(pages)
    {
      NotTied(b, final, pages, x);
      HandsOverAllButTies(b, final, pages, x);
    }
    forall x | x in Flatten(pages)
      ensures x in Mine(final, user)
    {
      InFlatten(pages, x);
      var p :| 0 <= p < |pages| && x in pages[p];
      PagesAreMine(b, final, pages, p, x);
    }
  }

  /** A request for nothing gets no callback at all. */
  lemma NothingRequested(b: Backfill, pages: seq<seq<InboxRow>>)
    requires IsChain(b, pages) && b.first == {}
    ensures pages == []
  {
    if 0 < |pages| {
      PageBounds(b, pages, 0);
    }
  }

  /** Nor does a cursor that names no row of the user's inbox. */
  lemma UnknownCursorGetsNothing(tables: nat -> seq<InboxRow>, user: Bytes, size: nat, cursor: Bytes, pages: seq<seq<InboxRow>>)
    requires cursor != [] && !Knows(tables(0), user, cursor)
    requires IsChain(Backfill(tables, user, size, Requested(tables(0), user, cursor)), pages)
    ensures pages == []
  {
    NothingRequested(Backfill(tables, user, size, {}), pages);
  }

  lemma FirstPageIsRequested(b: Backfill, pages: seq<seq<InboxRow>>)
    requires IsChain(b, pages) && pages != []
    ensures forall m :: m in pages[0] ==> m in b.first
  {
    PageBounds(b, pages, 0);
  }

  /** A backfill as it is set up by default, with no call failing, of an inbox that does not change and has
      distinct times. From a row of the user's it hands over exactly the rows of the user's created later. From
      no row it hands over all those not delivered, and on the first page only such. */
  method BackfillAll(table: seq<InboxRow>, user: Bytes, lastSeen: Bytes) returns (pages: seq<seq<InboxRow>>)
    requires TableOk(table) && DistinctTimes(table, user)
    ensures Distinct(Flatten(pages)) && SortedBy(Flatten(pages), RowTime)
    ensures forall c :: c in table && c.userId == user && c.messageId == lastSeen ==>
      forall m :: m in Flatten(pages) <==> m in table && m.userId == user && m.createdAt > c.createdAt
    ensures lastSeen == [] ==> forall m :: m in table && m.userId == user && !m.delivered ==> m in Flatten(pages)
    ensures lastSeen == [] && pages != [] ==> forall m :: m in pages[0] ==> m in table && m.userId == user && !m.delivered
  {
    var sync := new OfflineSync();
    var tables := (n: nat) => table;
    var r;
    r, pages := sync.GetMissedMessagesPaginated(tables, table, user, lastSeen, _ => true, _ => true);
    ghost var b := Backfill(tables, user, 100, Requested(table, user, lastSeen));
    PagesInOrder(b, pages);
    forall c | c in table && c.userId == user && c.messageId == lastSeen
      ensures forall m :: m in Flatten(pages) <==> m in table && m.userId == user && m.createdAt > c.createdAt
    {
      BackfillIsExact(tables, table, c, 100, pages);
      assert forall m :: m in Flatten(pages) <==> m in Elems(Flatten(pages));
    }
    if lastSeen == [] {
      BackfillCoversUndelivered(tables, table, user, 100, pages);
      assert forall m :: m in Flatten(pages) <==> m in Elems(Flatten(pages));
      if pages != [] {
        FirstPageIsRequested(b, pages);
      }
    }
  }
}
