/** Exactly when a paginated backfill is complete: when no two rows with the same time fall on either
    side of a page boundary in the user's rows sorted by time. */
module OfflineTies {
  import opened TimeQuery
  import opened Sync
  import opened Offline

  /** The rows in time order, ties in some order. */
  ghost predicate IsSorting(all: set<InboxRow>, s: seq<InboxRow>) {
    Distinct(s) && SortedBy(s, RowTime) && Elems(s) == all
  }

  /** Consecutive rows on two sides of a page boundary differ in time. */
  predicate CleanBoundaries(s: seq<InboxRow>, size: nat)
    requires size >= 1
    decreases |s|
  {
    |s| > size ==> s[size - 1].createdAt < s[size].createdAt && CleanBoundaries(s[size..], size)
  }

  lemma SubsetOfPrefix(a: seq<InboxRow>, b: seq<InboxRow>)
    requires Distinct(a) && Distinct(b) && forall x :: x in a ==> x in b
    ensures |a| <= |b|
  {
    DistinctSize(a);
    DistinctSize(b);
    assert Elems(a) <= Elems(b);
    assert Elems(b) == Elems(a) + (Elems(b) - Elems(a));
  }

  /** A page ends no earlier than the sorted rows of its length do. */
  lemma PageEndsNotBefore(all: set<InboxRow>, size: nat, page: seq<InboxRow>, s: seq<InboxRow>)
    requires IsPage(all, RowTime, size, page) && IsSorting(all, s) && 1 <= size <= |s| && |page| == size
    ensures s[size - 1].createdAt <= page[size - 1].createdAt
  {
    if page[size - 1].createdAt < s[size - 1].createdAt {
      forall x | x in page
        ensures x in s[..size - 1]
      {
        var i :| 0 <= i < |page| && page[i] == x;
        assert RowTime(page[i]) <= RowTime(page[size - 1]);
        assert x in Elems(s);
        var j :| 0 <= j < |s| && s[j] == x;
        assert RowTime(s[j]) < RowTime(s[size - 1]);
      }
      SubsetOfPrefix(page, s[..size - 1]);
    }
  }

  /** Rows sorted before the end of a page that ends later than they do are on the page, and not last. */
  lemma EarlierIsOnPage(all: set<InboxRow>, size: nat, page: seq<InboxRow>, x: InboxRow)
    requires IsPage(all, RowTime, size, page) && |page| == size >= 1
    requires x in all && x.createdAt < page[size - 1].createdAt
    ensures x in page[..size - 1]
  {
    assert page == page[..size - 1] + [page[size - 1]];
    assert page[size - 1] in page;
  }

  /** Nor any later. */
  lemma PageEndsNotAfter(all: set<InboxRow>, size: nat, page: seq<InboxRow>, s: seq<InboxRow>)
    requires IsPage(all, RowTime, size, page) && IsSorting(all, s) && 1 <= size <= |s| && |page| == size
    ensures page[size - 1].createdAt <= s[size - 1].createdAt
  {
    if s[size - 1].createdAt < page[size - 1].createdAt {
      forall x | x in s[..size]
        ensures x in page[..size - 1]
      {
        var i :| 0 <= i < size && s[..size][i] == x;
        assert RowTime(s[i]) <= RowTime(s[size - 1]);
        assert x in Elems(s);
        EarlierIsOnPage(all, size, page, x);
      }
      SubsetOfPrefix(s[..size], page[..size - 1]);
    }
  }

  /** The inbox does not change during the backfill. */
  ghost predicate IsStill(b: Backfill) {
    forall n: nat :: b.tables(n) == b.tables(0)
  }

  ghost function Rest(b: Backfill, page: seq<InboxRow>): Backfill
    requires page != []
  {
    b.(first := After(b.tables(0), b.user, Last(page).createdAt))
  }

  lemma ChainTail(b: Backfill, pages: seq<seq<InboxRow>>)
    requires IsStill(b) && IsChain(b, pages) && pages != []
    ensures pages[0] != [] && IsChain(Rest(b, pages[0]), pages[1..])
    ensures IsFinished(b, pages) && (b.size < |b.first| || |pages| > 1) ==> IsFinished(Rest(b, pages[0]), pages[1..])
  {
    assert PageAt(b, pages, 0);
    var c, tail := Rest(b, pages[0]), pages[1..];
    forall p | 0 <= p <= |tail|
      ensures RequestedAt(c, tail, p) == RequestedAt(b, pages, p + 1)
    {
      if p > 0 {
        assert PageAt(b, pages, p);
      }
    }
    forall p | 0 <= p < |tail|
      ensures PageAt(c, tail, p)
    {
      assert PageAt(b, pages, p + 1);
    }
  }

  lemma FlattenTail(pages: seq<seq<InboxRow>>, x: InboxRow)
    requires pages != []
    ensures x in Flatten(pages) <==> x in pages[0] || x in Flatten(pages[1..])
  {
    InFlatten(pages, x);
    InFlatten(pages[1..], x);
    if x in Flatten(pages[1..]) {
      var p :| 0 <= p < |pages| - 1 && x in pages[1..][p];
      assert x in pages[p + 1];
    }
    if x in Flatten(pages) && x !in pages[0] {
      var p :| 0 <= p < |pages| && x in pages[p];
      assert x in pages[1..][p - 1];
    }
  }

  ghost predicate IsComplete(b: Backfill, pages: seq<seq<InboxRow>>) {
    Elems(Flatten(pages)) == b.first
  }

  /** If the first boundary is clean, the first page is the first rows. */
  lemma CleanPage(all: set<InboxRow>, n: nat, page: seq<InboxRow>, s: seq<InboxRow>)
    requires IsPage(all, RowTime, n, page) && |page| == n && IsSorting(all, s) && 1 <= n < |s|
    requires s[n - 1].createdAt < s[n].createdAt
    ensures page[n - 1].createdAt == s[n - 1].createdAt
    ensures Elems(page) == Elems(s[..n])
  {
    PageEndsNotBefore(all, n, page, s);
    PageEndsNotAfter(all, n, page, s);
    forall x | x in page
      ensures x in s[..n]
    {
      var i :| 0 <= i < |page| && page[i] == x;
      assert RowTime(page[i]) <= RowTime(page[n - 1]);
      assert x in Elems(s);
      SplitAt(all, s, n);
    }
    DistinctSize(page);
    DistinctSize(s[..n]);
    SubsetOfSameSize(Elems(page), Elems(s[..n]));
  }

  /** And the rows after it are the rest. */
  lemma CleanFirstPage(b: Backfill, time: int, page: seq<InboxRow>, s: seq<InboxRow>)
    requires b.first == After(b.tables(0), b.user, time) && 1 <= b.size < |s|
    requires IsPage(b.first, RowTime, b.size, page) && page != [] && IsSorting(b.first, s)
    requires s[b.size - 1].createdAt < s[b.size].createdAt && |page| == b.size
    ensures Elems(page) == Elems(s[..b.size])
    ensures IsSorting(Rest(b, page).first, s[b.size..])
  {
    CleanPage(b.first, b.size, page, s);
    SplitAt(b.first, s, b.size);
    assert s[b.size - 1] in Elems(s);
  }

  /** A strict step in time splits the rows by time. */
  lemma SplitAt(all: set<InboxRow>, s: seq<InboxRow>, n: nat)
    requires IsSorting(all, s) && 1 <= n < |s| && s[n - 1].createdAt < s[n].createdAt
    ensures forall x :: x in all ==> (x in s[..n] <==> x.createdAt <= s[n - 1].createdAt)
    ensures forall x :: x in all ==> (x in s[n..] <==> x.createdAt > s[n - 1].createdAt)
    ensures Elems(s[n..]) == set x | x in all && x.createdAt > s[n - 1].createdAt
  {
    assert s == s[..n] + s[n..];
    forall x | x in s[..n]
      ensures x.createdAt <= s[n - 1].createdAt
    {
      var i :| 0 <= i < n && s[..n][i] == x;
      assert RowTime(s[i]) <= RowTime(s[n - 1]);
    }
    forall x | x in s[n..]
      ensures x.createdAt > s[n - 1].createdAt
    {
      var i :| 0 <= i < |s| - n && s[n..][i] == x;
      assert RowTime(s[n]) <= RowTime(s[n + i]);
    }
    assert forall x :: x in all ==> x in Elems(s);
  }

  /** If the backfill is complete the first boundary is clean: a row tied across it would be missed. */
  lemma CompleteIsClean(b: Backfill, pages: seq<seq<InboxRow>>, s: seq<InboxRow>)
    requires IsChain(b, pages) && pages != [] && IsSorting(b.first, s) && 1 <= b.size < |s|
    requires IsComplete(b, pages)
    ensures s[b.size - 1].createdAt < s[b.size].createdAt
  {
    var n, page := b.size, pages[0];
    assert PageAt(b, pages, 0);
    DistinctSize(s);
    PageEndsNotBefore(b.first, n, page, s);
    PageEndsNotAfter(b.first, n, page, s);
    assert RowTime(s[n - 1]) <= RowTime(s[n]);
    if s[n].createdAt <= s[n - 1].createdAt {
      forall x | x in s[..n + 1]
        ensures x in page
      {
        var i :| 0 <= i < n + 1 && s[..n + 1][i] == x;
        assert RowTime(s[i]) <= RowTime(s[n]);
        assert x in Elems(s) && x in Elems(Flatten(pages));
        InFlatten(pages, x);
        var q :| 0 <= q < |pages| && x in pages[q];
        assert Last(page) in page;
        if q > 0 {
          PagesIncrease(b, pages, 0, q);
        }
      }
      SubsetOfPrefix(s[..n + 1], page);
    }
  }

  /** Exactly when a finished backfill from a known cursor is complete, as a condition on the stored rows
      alone: with ties across a page boundary it misses rows, whatever order the database picks. */
  lemma {:induction false} CompleteIffBoundariesClean(b: Backfill, time: int, pages: seq<seq<InboxRow>>, s: seq<InboxRow>)
    requires IsStill(b)
    requires b.first == After(b.tables(0), b.user, time) && b.size >= 1
    requires IsChain(b, pages) && IsFinished(b, pages) && IsSorting(b.first, s)
    ensures IsComplete(b, pages) <==> CleanBoundaries(s, b.size)
    decreases |pages|
  {
    DistinctSize(s);
    if pages == [] {
      assert RequestedAt(b, pages, 0) == {};
      assert Elems(Flatten(pages)) == {};
    } else if |s| <= b.size {
      OnePage(b, pages);
    } else {
      assert PageAt(b, pages, 0);
      ChainTail(b, pages);
      if IsComplete(b, pages) {
        CompleteIsClean(b, pages, s);
      }
      if s[b.size - 1].createdAt < s[b.size].createdAt {
        var c := Rest(b, pages[0]);
        CleanFirstPage(b, time, pages[0], s);
        CompleteIffBoundariesClean(c, Last(pages[0]).createdAt, pages[1..], s[b.size..]);
        CompleteTail(b, time, pages, s);
      }
    }
  }

  lemma OnePage(b: Backfill, pages: seq<seq<InboxRow>>)
    requires IsChain(b, pages) && pages != [] && |b.first| <= b.size
    ensures IsComplete(b, pages)
  {
    assert PageAt(b, pages, 0);
    PageIsWhole(b.first, RowTime, b.size, pages[0]);
    assert pages == [pages[0]];
    assert pages[..0] == [] && Flatten(pages) == pages[0];
  }

  /** Completeness of the whole is completeness of what follows the first page. */
  lemma CompleteTail(b: Backfill, time: int, pages: seq<seq<InboxRow>>, s: seq<InboxRow>)
    requires b.first == After(b.tables(0), b.user, time) && 1 <= b.size < |s|
    requires IsChain(b, pages) && pages != [] && pages[0] != [] && IsSorting(b.first, s)
    requires Elems(pages[0]) == Elems(s[..b.size]) && IsSorting(Rest(b, pages[0]).first, s[b.size..])
    requires IsStill(b) && IsChain(Rest(b, pages[0]), pages[1..])
    ensures IsComplete(b, pages) <==> IsComplete(Rest(b, pages[0]), pages[1..])
  {
    var c := Rest(b, pages[0]);
    assert s == s[..b.size] + s[b.size..];
    assert forall x :: x in b.first <==> x in pages[0] || x in c.first by {
      forall x
        ensures x in b.first <==> x in pages[0] || x in c.first
      {
        assert x in b.first <==> x in Elems(s);
        assert x in pages[0] <==> x in Elems(pages[0]);
        assert x in c.first <==> x in Elems(s[b.size..]);
      }
    }
    forall x
      ensures x in Flatten(pages) <==> x in pages[0] || x in Flatten(pages[1..])
      ensures x in Flatten(pages[1..]) ==> x in c.first
      ensures x in c.first ==> x !in pages[0]
    {
      FlattenTail(pages, x);
      if x in Flatten(pages[1..]) {
        OnlyLaterRows(c, b.tables(0), Last(pages[0]).createdAt, pages[1..], x);
      }
      PageBounds(b, pages, 0);
    }
  }

  // The empty cursor.

  ghost predicate HoldsUpTo(page: seq<InboxRow>, all: set<InboxRow>, time: int) {
    forall x :: x in all && x.createdAt <= time ==> x in page
  }

  lemma CleanHoldsAll(all: set<InboxRow>, n: nat, page: seq<InboxRow>, u: seq<InboxRow>)
    requires IsPage(all, RowTime, n, page) && |page| == n && IsSorting(all, u) && 1 <= n < |u|
    requires u[n - 1].createdAt < u[n].createdAt
    ensures HoldsUpTo(page, all, u[n - 1].createdAt)
  {
    CleanPage(all, n, page, u);
    SplitAt(all, u, n);
    forall x | x in all && x.createdAt <= u[n - 1].createdAt
      ensures x in page
    {
      assert x in Elems(u[..n]);
    }
  }

  lemma HoldsAllIsClean(all: set<InboxRow>, n: nat, page: seq<InboxRow>, u: seq<InboxRow>)
    requires |page| == n && Distinct(page) && IsSorting(all, u) && 1 <= n < |u|
    requires HoldsUpTo(page, all, u[n - 1].createdAt)
    ensures u[n - 1].createdAt < u[n].createdAt
  {
    if u[n].createdAt <= u[n - 1].createdAt {
      forall x | x in u[..n + 1]
        ensures x in page
      {
        var i :| 0 <= i < n + 1 && u[..n + 1][i] == x;
        assert RowTime(u[i]) <= RowTime(u[n]);
        assert x in Elems(u);
      }
      SubsetOfPrefix(u[..n + 1], page);
    }
  }

  /** A full page holds every row up to the time it ends at exactly if the boundary after it is clean. */
  lemma FirstPageCoversIff(all: set<InboxRow>, n: nat, page: seq<InboxRow>, u: seq<InboxRow>)
    requires IsPage(all, RowTime, n, page) && |page| == n && IsSorting(all, u) && 1 <= n < |u|
    ensures HoldsUpTo(page, all, u[n - 1].createdAt) <==> u[n - 1].createdAt < u[n].createdAt
  {
    if u[n - 1].createdAt < u[n].createdAt {
      CleanHoldsAll(all, n, page, u);
    }
    if HoldsUpTo(page, all, u[n - 1].createdAt) {
      HoldsAllIsClean(all, n, page, u);
    }
  }

  /** What an empty cursor promises, given the undelivered rows in time order: all of them, and once there is
      a second page all rows later than the first. */
  ghost function Promised(b: Backfill, u: seq<InboxRow>): set<InboxRow>
    requires b.size >= 1
  {
    if |u| <= b.size then b.first else b.first + After(b.tables(0), b.user, u[b.size - 1].createdAt)
  }

  lemma FirstPageEnds(b: Backfill, pages: seq<seq<InboxRow>>, u: seq<InboxRow>)
    requires IsStill(b) && IsChain(b, pages) && IsFinished(b, pages) && 1 <= b.size < |u| && IsSorting(b.first, u)
    ensures pages != [] && IsPage(b.first, RowTime, b.size, pages[0]) && |pages[0]| == b.size
    ensures Last(pages[0]).createdAt == u[b.size - 1].createdAt
    ensures IsChain(Rest(b, pages[0]), pages[1..]) && IsFinished(Rest(b, pages[0]), pages[1..])
  {
    DistinctSize(u);
    if pages != [] {
      assert PageAt(b, pages, 0);
      PageEndsNotBefore(b.first, b.size, pages[0], u);
      PageEndsNotAfter(b.first, b.size, pages[0], u);
      ChainTail(b, pages);
    }
  }

  /** Exactly when a finished backfill from an empty cursor keeps that promise, as a condition on the stored
      rows alone: the first boundary is clean in the undelivered rows `u`, and the later ones in all rows `s`
      after it. */
  lemma CompleteFromStartIff(b: Backfill, pages: seq<seq<InboxRow>>, u: seq<InboxRow>, s: seq<InboxRow>)
    requires IsStill(b) && b.first == Undelivered(b.tables(0), b.user) && b.size >= 1
    requires IsChain(b, pages) && IsFinished(b, pages) && IsSorting(b.first, u)
    requires |u| > b.size ==> IsSorting(After(b.tables(0), b.user, u[b.size - 1].createdAt), s)
    ensures Elems(Flatten(pages)) == Promised(b, u) <==>
      (|u| > b.size ==> u[b.size - 1].createdAt < u[b.size].createdAt && CleanBoundaries(s, b.size))
  {
    DistinctSize(u);
    if |u| > b.size {
      FirstPageEnds(b, pages, u);
      FirstPageCoversIff(b.first, b.size, pages[0], u);
      CompleteIffBoundariesClean(Rest(b, pages[0]), Last(pages[0]).createdAt, pages[1..], s);
      SplitPromise(b, pages, u);
    } else if pages == [] {
      assert RequestedAt(b, pages, 0) == {} && Elems(Flatten(pages)) == {};
    } else {
      OnePage(b, pages);
    }
  }

  lemma FlattenElems(pages: seq<seq<InboxRow>>)
    requires pages != []
    ensures Elems(Flatten(pages)) == Elems(pages[0]) + Elems(Flatten(pages[1..]))
  {
    forall x
      ensures x in Elems(Flatten(pages)) <==> x in Elems(pages[0]) + Elems(Flatten(pages[1..]))
    {
      FlattenTail(pages, x);
    }
  }

  lemma TailIsLater(c: Backfill, time: int, pages: seq<seq<InboxRow>>)
    requires IsStill(c) && IsChain(c, pages) && c.first == After(c.tables(0), c.user, time)
    ensures Elems(Flatten(pages)) <= c.first
  {
    forall x | x in Flatten(pages)
      ensures x in c.first
    {
      OnlyLaterRows(c, c.tables(0), time, pages, x);
    }
  }

  lemma FirstPageIsEarly(b: Backfill, pages: seq<seq<InboxRow>>)
    requires IsChain(b, pages) && pages != []
    ensures pages[0] != [] && Elems(pages[0]) <= b.first
    ensures forall x :: x in Elems(pages[0]) ==> x.createdAt <= Last(pages[0]).createdAt
  {
    PageBounds(b, pages, 0);
  }

  /** The promise is kept exactly if the first page holds all rows up to its end and the others all rows after. */
  lemma SplitPromise(b: Backfill, pages: seq<seq<InboxRow>>, u: seq<InboxRow>)
    requires IsStill(b) && 1 <= b.size < |u| && b.first == Undelivered(b.tables(0), b.user)
    requires IsChain(b, pages) && pages != [] && pages[0] != [] && Last(pages[0]).createdAt == u[b.size - 1].createdAt
    requires IsChain(Rest(b, pages[0]), pages[1..])
    ensures Elems(Flatten(pages)) == Promised(b, u) <==>
      (HoldsUpTo(pages[0], b.first, u[b.size - 1].createdAt) && IsComplete(Rest(b, pages[0]), pages[1..]))
  {
    var c, time := Rest(b, pages[0]), u[b.size - 1].createdAt;
    FirstPageIsEarly(b, pages);
    TailIsLater(c, time, pages[1..]);
    FlattenElems(pages);
    PromiseParts(b.first, c.first, pages[0], Elems(Flatten(pages[1..])), time);
  }

  /** Of two parts, one up to a time and one after it, the union is right exactly if each part is. */
  lemma PromiseParts(first: set<InboxRow>, later: set<InboxRow>, page: seq<InboxRow>, rest: set<InboxRow>, time: int)
    requires Elems(page) <= first && rest <= later
    requires (forall x :: x in Elems(page) ==> x.createdAt <= time) && (forall x :: x in later ==> x.createdAt > time)
    requires forall x :: x in first && x.createdAt > time ==> x in later
    ensures Elems(page) + rest == first + later <==> (HoldsUpTo(page, first, time) && rest == later)
  {
    if Elems(page) + rest == first + later {
      forall x | x in first && x.createdAt <= time
        ensures x in page
      {
        assert x in Elems(page) + rest;
      }
      forall x | x in later
        ensures x in rest
      {
        assert x in Elems(page) + rest;
      }
    }
    if HoldsUpTo(page, first, time) && rest == later {
      forall x | x in first + later
        ensures x in Elems(page) + rest
      {
        assert x in first && x.createdAt <= time ==> x in page;
      }
    }
  }
}
