/** Exactly which polls keep the published rows a prefix of all rows in creation order, whatever calls fail. */
module PollOrder {
  import opened Outbox
  import opened RelayService
  import opened Order

  /** `publish` returns nil. */
  predicate Publishes(o: Outcome) {
    o.sendOk && o.markOk
  }

  /** Exactly the first `k` rows are published; the others are pending or failed. */
  ghost predicate PublishedExactly(rows: seq<Row>, k: nat) {
    k <= |rows| && forall i :: 0 <= i < |rows| ==> (rows[i].status.Published? <==> i < k)
  }

  ghost predicate PublishedIsPrefix(rows: seq<Row>) {
    exists k: nat :: PublishedExactly(rows, k)
  }

  /** No publish of the batch succeeds after one that failed. */
  predicate SuccessesFirst(outcomes: seq<Outcome>) {
    forall i, j :: 0 <= i < j < |outcomes| && Publishes(outcomes[j]) ==> Publishes(outcomes[i])
  }

  /** No publish succeeds for a row behind a dead-lettered one. */
  predicate NoneBehindFailed(rows: seq<Row>, batch: seq<Entry>, outcomes: seq<Outcome>)
    requires |batch| == |outcomes|
  {
    forall i, j :: 0 <= i < |rows| && 0 <= j < |batch| && i < batch[j].id && Publishes(outcomes[j]) ==> !rows[i].status.Failed?
  }

  /** The j-th entry, if its publish succeeds, is row `k + j`. */
  predicate NoGap(k: nat, batch: seq<Entry>, outcomes: seq<Outcome>)
    requires |batch| == |outcomes|
  {
    forall j :: 0 <= j < |batch| && Publishes(outcomes[j]) ==> batch[j].id == k + j
  }

  predicate PublishesRow(batch: seq<Entry>, outcomes: seq<Outcome>, i: nat)
    requires |batch| == |outcomes|
  {
    exists j :: 0 <= j < |batch| && batch[j].id == i && Publishes(outcomes[j])
  }

  lemma PublishesRowFirst(batch: seq<Entry>, outcomes: seq<Outcome>, i: nat)
    requires |batch| == |outcomes| && batch != []
    ensures PublishesRow(batch, outcomes, i) <==>
      (batch[0].id == i && Publishes(outcomes[0])) || PublishesRow(batch[1..], outcomes[1..], i)
  {
    if PublishesRow(batch[1..], outcomes[1..], i) {
      var j :| 0 <= j < |batch| - 1 && batch[1..][j].id == i && Publishes(outcomes[1..][j]);
      assert batch[j + 1].id == i && Publishes(outcomes[j + 1]);
    }
    if PublishesRow(batch, outcomes, i) {
      var j :| 0 <= j < |batch| && batch[j].id == i && Publishes(outcomes[j]);
      assert j > 0 ==> batch[1..][j - 1].id == i && Publishes(outcomes[1..][j - 1]);
    }
  }

  /** A row is published after a poll exactly if it was before or its own publish succeeded. */
  lemma {:induction false} PublishedAfter(rows: seq<Row>, log: seq<Record>, batch: seq<Entry>, outcomes: seq<Outcome>, i: nat)
    requires |batch| == |outcomes| && BatchOk(rows, batch) && i < |rows|
    ensures var after := ProcessBatch(rows, log, batch, outcomes).0;
      && |after| == |rows|
      && (after[i].status.Published? <==> rows[i].status.Published? || PublishesRow(batch, outcomes, i))
    decreases |batch|
  {
    if batch != [] {
      var e := batch[0];
      var (r, l) := ProcessEntry(rows, log, e, outcomes[0]);
      assert Current(rows, e) && r == rows[e.id := r[e.id]];
      BatchFrame(rows, e.id, r[e.id], batch[1..]);
      PublishedAfter(r, l, batch[1..], outcomes[1..], i);
      PublishesRowFirst(batch, outcomes, i);
    }
  }

  /** A fetched batch, in the order of its rows, all from the `k`-th on. */
  ghost predicate InRowOrder(rows: seq<Row>, k: nat, batch: seq<Entry>) {
    && (forall i :: 0 <= i < |batch| ==> k <= batch[i].id < |rows|)
    && (forall i, j :: 0 <= i < j < |batch| ==> batch[i].id < batch[j].id)
  }

  lemma FetchInRowOrder(rows: seq<Row>, k: nat, limit: nat, batch: seq<Entry>)
    requires Increasing(rows) && PublishedExactly(rows, k) && IsFetch(rows, limit, batch)
    ensures InRowOrder(rows, k, batch)
  {
    FetchedAreRows(rows, limit, batch);
    FetchIncreases(rows, limit, batch);
  }

  /** Rows in row order cannot be closer together than consecutive ones. */
  lemma {:induction false} SpreadOut(rows: seq<Row>, k: nat, batch: seq<Entry>, i: nat, j: nat)
    requires InRowOrder(rows, k, batch) && i <= j < |batch|
    ensures k + i <= batch[i].id && batch[i].id + (j - i) <= batch[j].id
    decreases j
  {
    if i < j {
      SpreadOut(rows, k, batch, i, j - 1);
    } else if i > 0 {
      SpreadOut(rows, k, batch, i - 1, i - 1);
    }
  }

  /** A pending row no later than a fetched one is fetched too, no later. */
  lemma FetchedUpTo(rows: seq<Row>, k: nat, limit: nat, batch: seq<Entry>, i: nat, r: nat) returns (x: nat)
    requires Increasing(rows) && IsFetch(rows, limit, batch) && InRowOrder(rows, k, batch) && i < |batch|
    requires r <= batch[i].id && rows[r].status.Pending?
    ensures x <= i && batch[x].id == r
  {
    FetchedAreRows(rows, limit, batch);
    var e, last := Entry(r, rows[r]), batch[i];
    assert e in PendingEntries(rows) && last in batch;
    assert e == last || CreatedAt(e) < CreatedAt(last);
    assert e in batch || CreatedAt(last) <= CreatedAt(e);
    x :| 0 <= x < |batch| && batch[x] == e;
  }

  /** Without failed rows in between, the rows of a fetch up to the j-th entry follow on from the `k`-th. */
  lemma {:induction false} FollowsOn(rows: seq<Row>, k: nat, limit: nat, batch: seq<Entry>, j: nat, n: nat)
    requires Increasing(rows) && PublishedExactly(rows, k) && IsFetch(rows, limit, batch) && n <= j + 1 <= |batch|
    requires InRowOrder(rows, k, batch)
    requires forall i :: k <= i < batch[j].id ==> !rows[i].status.Failed?
    ensures forall i :: 0 <= i < n ==> batch[i].id == k + i
    decreases n
  {
    if n > 0 {
      var i := n - 1;
      FollowsOn(rows, k, limit, batch, j, i);
      FetchedAreRows(rows, limit, batch);
      SpreadOut(rows, k, batch, i, j);
      assert rows[k + i].status.Pending?;
      var x := FetchedUpTo(rows, k, limit, batch, i, k + i);
      assert batch[x].id == k + x || x == i;
    }
  }

  /** Where the entries with a successful publish stand tells whether a failed row is before them. */
  lemma GapIffFailed(rows: seq<Row>, k: nat, limit: nat, batch: seq<Entry>, j: nat)
    requires Increasing(rows) && PublishedExactly(rows, k) && IsFetch(rows, limit, batch) && j < |batch|
    requires InRowOrder(rows, k, batch)
    ensures batch[j].id == k + j <==> forall i :: 0 <= i < batch[j].id ==> !rows[i].status.Failed?
  {
    FetchedAreRows(rows, limit, batch);
    if batch[j].id == k + j {
      forall i | 0 <= i < batch[j].id
        ensures !rows[i].status.Failed?
      {
        if k <= i {
          SpreadOut(rows, k, batch, i - k, j);
          assert batch[i - k].id == i;
        }
      }
    }
    if forall i :: 0 <= i < batch[j].id ==> !rows[i].status.Failed? {
      FollowsOn(rows, k, limit, batch, j, j + 1);
    }
  }

  lemma NoGapIff(rows: seq<Row>, k: nat, limit: nat, batch: seq<Entry>, outcomes: seq<Outcome>)
    requires Increasing(rows) && PublishedExactly(rows, k) && IsFetch(rows, limit, batch) && |batch| == |outcomes|
    requires InRowOrder(rows, k, batch)
    ensures NoGap(k, batch, outcomes) <==> NoneBehindFailed(rows, batch, outcomes)
  {
    forall j | 0 <= j < |batch|
      ensures batch[j].id == k + j <==> forall i :: 0 <= i < batch[j].id ==> !rows[i].status.Failed?
    {
      GapIffFailed(rows, k, limit, batch, j);
    }
  }

  lemma {:induction false} SuccessesAreFirst(outcomes: seq<Outcome>) returns (m: nat)
    requires SuccessesFirst(outcomes)
    ensures m <= |outcomes| && forall j :: 0 <= j < |outcomes| ==> (Publishes(outcomes[j]) <==> j < m)
  {
    m := 0;
    if outcomes != [] {
      var n := |outcomes| - 1;
      m := SuccessesAreFirst(outcomes[..n]);
      if Publishes(outcomes[n]) {
        m := n + 1;
      }
    }
  }

  /** The entries up to a successful one that ends in a published prefix all succeeded, without a gap. */
  lemma {:induction false} InTurnUpTo(rows: seq<Row>, k: nat, batch: seq<Entry>, outcomes: seq<Outcome>, j: nat, n: nat)
    requires |batch| == |outcomes| && InRowOrder(rows, k, batch) && n <= j + 1 <= |batch|
    requires forall r :: k <= r <= batch[j].id ==> PublishesRow(batch, outcomes, r)
    ensures forall i :: 0 <= i < n ==> batch[i].id == k + i && Publishes(outcomes[i])
    decreases n
  {
    if n > 0 {
      var i := n - 1;
      InTurnUpTo(rows, k, batch, outcomes, j, i);
      assert i > 0 ==> batch[i - 1].id < batch[i].id;
      assert batch[i].id <= batch[j].id;
      assert PublishesRow(batch, outcomes, k + i);
      var x :| 0 <= x < |batch| && batch[x].id == k + i && Publishes(outcomes[x]);
      assert x >= i;
    }
  }

  lemma PrefixIfInTurn(rows: seq<Row>, log: seq<Record>, k: nat, batch: seq<Entry>, outcomes: seq<Outcome>)
    requires |batch| == |outcomes| && BatchOk(rows, batch) && PublishedExactly(rows, k) && InRowOrder(rows, k, batch)
    requires SuccessesFirst(outcomes) && NoGap(k, batch, outcomes)
    ensures PublishedIsPrefix(ProcessBatch(rows, log, batch, outcomes).0)
  {
    var after := ProcessBatch(rows, log, batch, outcomes).0;
    var m := SuccessesAreFirst(outcomes);
    BatchKeepsLength(rows, log, batch, outcomes);
    assert m > 0 ==> batch[m - 1].id == k + (m - 1);
    forall i | 0 <= i < |after|
      ensures after[i].status.Published? <==> i < k + m
    {
      PublishedAfter(rows, log, batch, outcomes, i);
      if k <= i < k + m {
        assert batch[i - k].id == i && Publishes(outcomes[i - k]);
      }
    }
    assert PublishedExactly(after, k + m);
  }

  lemma InTurnIfPrefix(rows: seq<Row>, log: seq<Record>, k: nat, batch: seq<Entry>, outcomes: seq<Outcome>, k': nat, j: nat)
    requires |batch| == |outcomes| && BatchOk(rows, batch) && PublishedExactly(rows, k) && InRowOrder(rows, k, batch)
    requires PublishedExactly(ProcessBatch(rows, log, batch, outcomes).0, k')
    requires j < |batch| && Publishes(outcomes[j])
    ensures batch[j].id == k + j && forall i :: 0 <= i < j ==> Publishes(outcomes[i])
  {
    var after := ProcessBatch(rows, log, batch, outcomes).0;
    PublishedAfter(rows, log, batch, outcomes, batch[j].id);
    assert PublishesRow(batch, outcomes, batch[j].id);
    forall r | k <= r <= batch[j].id
      ensures PublishesRow(batch, outcomes, r)
    {
      PublishedAfter(rows, log, batch, outcomes, r);
    }
    InTurnUpTo(rows, k, batch, outcomes, j, j + 1);
  }

  /** For any table whose published rows are a prefix, any fetch and any outcomes: they are a prefix again
      after the poll if and only if no publish succeeds after a failed one and none succeeds behind a row
      that was dead-lettered before. */
  lemma PollKeepsOrderIff(rows: seq<Row>, log: seq<Record>, k: nat, limit: nat, batch: seq<Entry>, outcomes: seq<Outcome>)
    requires Increasing(rows) && PublishedExactly(rows, k)
    requires IsFetch(rows, limit, batch) && |batch| == |outcomes|
    ensures PublishedIsPrefix(ProcessBatch(rows, log, batch, outcomes).0) <==>
      (SuccessesFirst(outcomes) && NoneBehindFailed(rows, batch, outcomes))
  {
    FetchOk(rows, limit, batch);
    FetchInRowOrder(rows, k, limit, batch);
    NoGapIff(rows, k, limit, batch, outcomes);
    if SuccessesFirst(outcomes) && NoGap(k, batch, outcomes) {
      PrefixIfInTurn(rows, log, k, batch, outcomes);
    }
    if PublishedIsPrefix(ProcessBatch(rows, log, batch, outcomes).0) {
      var k': nat :| PublishedExactly(ProcessBatch(rows, log, batch, outcomes).0, k');
      forall j | 0 <= j < |batch| && Publishes(outcomes[j])
        ensures batch[j].id == k + j && forall i :: 0 <= i < j ==> Publishes(outcomes[i])
      {
        InTurnIfPrefix(rows, log, k, batch, outcomes, k', j);
      }
    }
  }

  /** While no row has been dead-lettered, failures alone decide: the order survives a poll if and only if
      no publish succeeds after a failed one. */
  lemma OrderSurvivesIff(rows: seq<Row>, log: seq<Record>, k: nat, limit: nat, batch: seq<Entry>, outcomes: seq<Outcome>)
    requires Increasing(rows) && PublishedUpTo(rows, k)
    requires IsFetch(rows, limit, batch) && |batch| == |outcomes|
    ensures PublishedIsPrefix(ProcessBatch(rows, log, batch, outcomes).0) <==> SuccessesFirst(outcomes)
  {
    assert PublishedExactly(rows, k);
    PollKeepsOrderIff(rows, log, k, limit, batch, outcomes);
  }
}
