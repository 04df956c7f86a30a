/** Publication order. While no publish fails, rows are published in creation order across any number
    of limited polls, concurrent inserts and relay crashes; a failed publish can break it. */
module Order {
  import opened Outbox
  import opened OutboxRuns
  import opened RelayService

  /** No publish fails, and an insert is later than every row there is. */
  ghost predicate OrderlyStep(s: State, st: Step) {
    && st != Send(false)
    && st != Mark(false)
    && (st.Dispatch? ==> forall i :: 0 <= i < |s.rows| ==> s.rows[i].createdAt < st.now)
  }

  ghost predicate IsOrderlyRun(s: State, steps: seq<Step>)
    requires IsRun(s, steps)
    decreases |steps|
  {
    steps != [] ==> OrderlyStep(s, steps[0]) && IsOrderlyRun(Apply(s, steps[0]), steps[1..])
  }

  ghost predicate Increasing(rows: seq<Row>) {
    forall i, j :: 0 <= i < j < |rows| ==> rows[i].createdAt < rows[j].createdAt
  }

  /** Exactly the first `k` rows are published, the others are pending. */
  ghost predicate PublishedUpTo(rows: seq<Row>, k: nat) {
    && k <= |rows|
    && (forall i :: 0 <= i < k ==> rows[i].status.Published?)
    && (forall i :: k <= i < |rows| ==> rows[i].status.Pending?)
  }

  /** The relay's entries are the rows from `k` on, without gaps. */
  ghost predicate Consecutive(s: State, k: nat) {
    s.relay.Working? ==>
      && s.relay.entry.id == k
      && s.relay.phase in {ToSend, ToMark}
      && k + 1 + |s.relay.rest| <= |s.rows|
      && (forall m :: 0 <= m < |s.relay.rest| ==> s.relay.rest[m].id == k + 1 + m)
  }

  ghost predicate RowsInOrder(s: State, k: nat) {
    Increasing(s.rows) && PublishedUpTo(s.rows, k) && Consecutive(s, k)
  }

  function Records(rows: seq<Row>): seq<Record> {
    seq(|rows|, i requires 0 <= i < |rows| => TopicRecord(rows[i]))
  }

  /** A log with each block of equal neighbours reduced to one. */
  function Collapse(log: seq<Record>): seq<Record> {
    if |log| < 2 then log
    else
      var init := log[..|log| - 1];
      if log[|log| - 1] == log[|log| - 2] then Collapse(init) else Collapse(init) + [log[|log| - 1]]
  }

  /** Up to repeats caused by crashes, the log is the first `n` rows in order: those published and
      possibly the next one, which is sent but not marked. */
  ghost predicate LogInOrder(s: State, k: nat, n: nat) {
    && k <= n <= k + 1
    && n <= |s.rows|
    && Collapse(s.log) == Records(s.rows[..n])
    && (n == 0 <==> s.log == [])
    && (n > 0 ==> s.log[|s.log| - 1] == TopicRecord(s.rows[n - 1]))
    && (InPhase(s, ToMark) ==> n == k + 1)
  }

  ghost predicate OrderInv(s: State, k: nat, n: nat) {
    Inv(s) && RowsInOrder(s, k) && LogInOrder(s, k, n)
  }

  lemma FetchedAreRows(rows: seq<Row>, limit: nat, batch: seq<Entry>)
    requires IsFetch(rows, limit, batch)
    ensures forall i :: 0 <= i < |batch| ==>
      batch[i].id < |rows| && batch[i].row == rows[batch[i].id] && rows[batch[i].id].status.Pending?
  {
    forall i | 0 <= i < |batch|
      ensures batch[i].id < |rows| && batch[i].row == rows[batch[i].id] && rows[batch[i].id].status.Pending?
    {
      assert batch[i] in batch;
    }
  }

  lemma FetchIncreases(rows: seq<Row>, limit: nat, batch: seq<Entry>)
    requires Increasing(rows) && IsFetch(rows, limit, batch)
    ensures forall i, j :: 0 <= i < j < |batch| ==> batch[i].id < batch[j].id
  {
    FetchedAreRows(rows, limit, batch);
    forall i, j | 0 <= i < j < |batch|
      ensures batch[i].id < batch[j].id
    {
      assert batch[i] != batch[j] && CreatedAt(batch[i]) <= CreatedAt(batch[j]);
    }
  }

  lemma {:induction false} FetchIsConsecutive(rows: seq<Row>, k: nat, limit: nat, batch: seq<Entry>, m: nat)
    requires Increasing(rows) && PublishedUpTo(rows, k) && IsFetch(rows, limit, batch)
    requires m <= |batch|
    ensures forall i :: 0 <= i < m ==> batch[i].id == k + i
    decreases m
  {
    if m > 0 {
      var j := m - 1;
      FetchIsConsecutive(rows, k, limit, batch, j);
      FetchedAreRows(rows, limit, batch);
      FetchIncreases(rows, limit, batch);
      assert j > 0 ==> batch[j - 1].id < batch[j].id;
      var e := Entry(k + j, rows[k + j]);
      if e in batch {
        var i :| 0 <= i < |batch| && batch[i] == e;
        assert i >= j;
      } else {
        assert e in PendingEntries(rows);
        assert CreatedAt(batch[j]) <= CreatedAt(e);
      }
    }
  }

  lemma CollapseAppend(log: seq<Record>, rec: Record)
    ensures Collapse(log + [rec]) ==
      if log != [] && log[|log| - 1] == rec then Collapse(log) else Collapse(log) + [rec]
  {
    if log == [] {
      assert log + [rec] == [rec];
    } else {
      assert (log + [rec])[..|log|] == log;
    }
  }

  lemma RecordsFrame(a: seq<Row>, b: seq<Row>, n: nat)
    requires RowsAdvance(a, b) && n <= |a|
    ensures Records(a[..n]) == Records(b[..n])
  {
    forall i | 0 <= i < n
      ensures TopicRecord(a[..n][i]) == TopicRecord(b[..n][i])
    {
      assert SameMessage(a[i], b[i]);
    }
  }

  lemma RecordsSnoc(rows: seq<Row>, k: nat)
    requires k < |rows|
    ensures Records(rows[..k + 1]) == Records(rows[..k]) + [TopicRecord(rows[k])]
  {
    assert rows[..k + 1] == rows[..k] + [rows[k]];
  }

  lemma SentInOrder(log: seq<Record>, rows: seq<Row>, k: nat, n: nat)
    requires k <= n <= k + 1 && k < |rows| && n <= |rows|
    requires Collapse(log) == Records(rows[..n])
    requires n == 0 <==> log == []
    requires n > 0 ==> log[|log| - 1] == TopicRecord(rows[n - 1])
    requires n == k && k > 0 ==> TopicRecord(rows[k - 1]) != TopicRecord(rows[k])
    ensures Collapse(log + [TopicRecord(rows[k])]) == Records(rows[..k + 1])
  {
    var rec := TopicRecord(rows[k]);
    CollapseAppend(log, rec);
    RecordsSnoc(rows, k);
  }

  lemma SendKeepsOrder(s: State, k: nat, n: nat)
    requires OrderInv(s, k, n) && InPhase(s, ToSend)
    ensures LogInOrder(Apply(s, Send(true)), k, k + 1)
  {
    assert SameMessage(s.relay.entry.row, s.rows[k]);
    assert TopicRecord(s.relay.entry.row) == TopicRecord(s.rows[k]);
    if k > 0 {
      RecordsApart(s.rows, k - 1, k);
    }
    SentInOrder(s.log, s.rows, k, n);
  }

  lemma FetchKeepsOrder(s: State, k: nat, limit: nat, batch: seq<Entry>)
    requires RowsInOrder(s, k) && IsFetch(s.rows, limit, batch)
    ensures RowsInOrder(s.(relay := Start(batch)), k)
  {
    FetchIsConsecutive(s.rows, k, limit, batch, |batch|);
    FetchedAreRows(s.rows, limit, batch);
    if batch != [] {
      var last := |batch| - 1;
      assert batch[last].id == k + last;
    }
  }

  lemma RowsOrderStep(s: State, st: Step, k: nat)
    requires RowsInOrder(s, k) && Enabled(s, st) && OrderlyStep(s, st)
    ensures RowsInOrder(Apply(s, st), if st == Mark(true) then k + 1 else k)
  {
    if st.Fetch? {
      FetchKeepsOrder(s, k, st.limit, st.batch);
    }
  }

  /** Orderly steps other than a send leave the logs alone and do not reach a mark. */
  lemma OnlySendsLog(s: State, st: Step, k: nat)
    requires Consecutive(s, k) && Enabled(s, st) && OrderlyStep(s, st) && !st.Send?
    ensures Apply(s, st).log == s.log
    ensures InPhase(Apply(s, st), ToMark) ==> InPhase(s, ToMark) && !st.Mark? && st != Crash
    ensures InPhase(s, ToMark) && !st.Mark? && st != Crash ==> InPhase(Apply(s, st), ToMark)
  {
  }

  lemma LogFrame(s: State, t: State, k: nat, k': nat, n: nat)
    requires LogInOrder(s, k, n) && RowsAdvance(s.rows, t.rows) && t.log == s.log
    requires k' <= n <= k' + 1 && (InPhase(t, ToMark) ==> n == k' + 1)
    ensures LogInOrder(t, k', n)
  {
    RecordsFrame(s.rows, t.rows, n);
    assert n > 0 ==> SameMessage(s.rows[n - 1], t.rows[n - 1]);
  }

  lemma LogOrderStep(s: State, st: Step, k: nat, n: nat)
    requires OrderInv(s, k, n) && Enabled(s, st) && OrderlyStep(s, st)
    ensures LogInOrder(Apply(s, st), if st == Mark(true) then k + 1 else k, if st == Send(true) then k + 1 else n)
  {
    if st.Send? {
      SendKeepsOrder(s, k, n);
    } else {
      OnlySendsLog(s, st, k);
      assert RowsAdvance(s.rows, Apply(s, st).rows) by { RowsOkStep(s, st); }
      LogFrame(s, Apply(s, st), k, if st == Mark(true) then k + 1 else k, n);
    }
  }

  /** A mark extends the published prefix by one; no other step moves it. */
  lemma OrderStep(s: State, st: Step, k: nat, n: nat) returns (k': nat, n': nat)
    requires OrderInv(s, k, n) && Enabled(s, st) && OrderlyStep(s, st)
    ensures OrderInv(Apply(s, st), k', n')
    ensures k' == if st == Mark(true) then k + 1 else k
    ensures n' == if st == Send(true) then k + 1 else n
  {
    InvStep(s, st);
    RowsOrderStep(s, st, k);
    LogOrderStep(s, st, k, n);
    k' := if st == Mark(true) then k + 1 else k;
    n' := if st == Send(true) then k + 1 else n;
  }

  lemma {:induction false} OrderRun(s: State, steps: seq<Step>, k: nat, n: nat) returns (k': nat, n': nat)
    requires OrderInv(s, k, n) && IsRun(s, steps) && IsOrderlyRun(s, steps)
    ensures OrderInv(Final(s, steps), k', n')
    decreases |steps|
  {
    k', n' := k, n;
    if steps != [] {
      k', n' := OrderStep(s, steps[0], k, n);
      k', n' := OrderRun(Apply(s, steps[0]), steps[1..], k', n');
    }
  }

  /** While no publish fails, the published rows are always a prefix of all rows in creation order,
      and the logs hold them in that order, a crash adding at most repeats of a neighbour. */
  lemma PublishedInCreationOrder(steps: seq<Step>)
    requires IsRun(EMPTY, steps) && IsOrderlyRun(EMPTY, steps)
    ensures var s := Final(EMPTY, steps);
      && Increasing(s.rows)
      && exists k: nat, n: nat :: PublishedUpTo(s.rows, k) && k <= n <= k + 1 && n <= |s.rows|
           && Collapse(s.log) == Records(s.rows[..n])
  {
    assert OrderInv(EMPTY, 0, 0);
    var k, n := OrderRun(EMPTY, steps, 0, 0);
  }

  /** The rows whose record must be in the log: the published ones and the one about to be marked. */
  function Logged(s: State, k: nat): nat {
    if InPhase(s, ToMark) then k + 1 else k
  }

  ghost predicate LogExact(s: State, k: nat, n: nat) {
    n == Logged(s, k) && n <= |s.rows| && s.log == Records(s.rows[..n])
  }

  /** The log is the first `k` rows, all published, and the one about to be marked. */
  ghost predicate LogsPublished(s: State, k: nat) {
    PublishedUpTo(s.rows, k) && LogExact(s, k, Logged(s, k))
  }

  lemma ExactStep(s: State, st: Step, k: nat, n: nat)
    requires OrderInv(s, k, n) && Enabled(s, st) && OrderlyStep(s, st) && st != Crash
    requires LogExact(s, k, n)
    ensures LogExact(Apply(s, st), if st == Mark(true) then k + 1 else k, if st == Send(true) then k + 1 else n)
  {
    if st.Send? {
      assert TopicRecord(s.relay.entry.row) == TopicRecord(s.rows[k]);
      RecordsSnoc(s.rows, k);
    } else {
      OnlySendsLog(s, st, k);
      assert RowsAdvance(s.rows, Apply(s, st).rows) by { RowsOkStep(s, st); }
      RecordsFrame(s.rows, Apply(s, st).rows, n);
    }
  }

  lemma {:induction false} ExactRun(s: State, steps: seq<Step>, k: nat, n: nat) returns (k': nat, n': nat)
    requires OrderInv(s, k, n) && IsRun(s, steps) && IsOrderlyRun(s, steps)
    requires LogExact(s, k, n)
    requires forall st :: st in steps ==> st != Crash
    ensures OrderInv(Final(s, steps), k', n') && LogExact(Final(s, steps), k', n')
    decreases |steps|
  {
    k', n' := k, n;
    if steps != [] {
      assert steps[0] in steps;
      ExactStep(s, steps[0], k, n);
      k', n' := OrderStep(s, steps[0], k, n);
      assert forall st :: st in steps[1..] ==> st in steps;
      k', n' := ExactRun(Apply(s, steps[0]), steps[1..], k', n');
    }
  }

  /** Without crashes either, the log is exactly the published rows in creation order, followed by
      the one that is sent and about to be marked. */
  lemma LogIsPublishedPrefix(steps: seq<Step>)
    requires IsRun(EMPTY, steps) && IsOrderlyRun(EMPTY, steps)
    requires forall st :: st in steps ==> st != Crash
    ensures exists k: nat :: LogsPublished(Final(EMPTY, steps), k)
  {
    assert OrderInv(EMPTY, 0, 0) && LogExact(EMPTY, 0, 0);
    var k, n := ExactRun(EMPTY, steps, 0, 0);
    assert LogsPublished(Final(EMPTY, steps), k);
  }

  /** How a failed publish can break the order: when the relay fails to send an entry that still has retries
      and the next one goes through, a later row is published before an earlier one. Module PollOrder says
      exactly which polls break it. */
  lemma FailureBreaksOrder(s: State, incrementOk: bool)
    requires Inv(s) && Increasing(s.rows) && InPhase(s, ToSend)
    requires s.relay.rest != [] && s.relay.entry.id < s.relay.rest[0].id
    requires s.relay.entry.row.retryCount + 1 < MAX_RETRIES
    ensures var steps := [Send(false), Increment(incrementOk), Send(true), Mark(true)];
      && IsRun(s, steps)
      && var t := Final(s, steps);
         var i, j := s.relay.entry.id, s.relay.rest[0].id;
         && i < j < |t.rows| && t.rows[i].createdAt < t.rows[j].createdAt
         && t.rows[i].status.Pending? && t.rows[j].status.Published?
  {
    var a := [Send(false), Increment(incrementOk)];
    TwoSteps(s, a[0], a[1]);
    var m := Final(s, a);
    TwoSteps(m, Send(true), Mark(true));
    RunConcat(s, a, [Send(true), Mark(true)]);
    assert a + [Send(true), Mark(true)] == [Send(false), Increment(incrementOk), Send(true), Mark(true)];
  }
}
