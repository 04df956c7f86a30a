/** Publication order when creation times may be equal: while no publish fails, records enter the logs in
    the order of their rows' creation times, across limited polls, concurrent inserts and relay crashes. */
module TimeOrder {
  import opened Outbox
  import opened OutboxRuns

  /** No publish fails, and an insert is not earlier than any row there is. */
  ghost predicate TimelyStep(s: State, st: Step) {
    && st != Send(false)
    && st != Mark(false)
    && (st.Dispatch? ==> forall i :: 0 <= i < |s.rows| ==> s.rows[i].createdAt <= st.now)
  }

  ghost predicate IsTimelyRun(s: State, steps: seq<Step>)
    requires IsRun(s, steps)
    decreases |steps|
  {
    steps != [] ==> TimelyStep(s, steps[0]) && IsTimelyRun(Apply(s, steps[0]), steps[1..])
  }

  /** No pending row was created before time `t`. */
  ghost predicate NoneBefore(rows: seq<Row>, t: int) {
    forall j :: 0 <= j < |rows| && rows[j].status.Pending? ==> t <= rows[j].createdAt
  }

  predicate ComesBefore(batch: seq<Entry>, k: nat, id: nat)
    requires k <= |batch|
  {
    exists m :: 0 <= m < k && batch[m].id == id
  }

  /** Each entry of the batch is no later than the pending rows that are not ahead of it. */
  ghost predicate BatchTimely(rows: seq<Row>, batch: seq<Entry>) {
    forall k, j :: 0 <= k < |batch| && 0 <= j < |rows| && rows[j].status.Pending? ==>
      CreatedAt(batch[k]) <= rows[j].createdAt || ComesBefore(batch, k, j)
  }

  ghost predicate RelayTimely(s: State) {
    s.relay.Working? ==> s.relay.phase in {ToSend, ToMark} && BatchTimely(s.rows, [s.relay.entry] + s.relay.rest)
  }

  /** The a-th record is that of row `ids[a]`, which was created no later than any pending row. */
  ghost predicate LogTraced(s: State, ids: seq<nat>) {
    && |ids| == |s.log|
    && (forall a :: 0 <= a < |ids| ==> ids[a] < |s.rows|)
    && (forall a :: 0 <= a < |ids| ==> s.log[a] == TopicRecord(s.rows[ids[a]]) && NoneBefore(s.rows, s.rows[ids[a]].createdAt))
  }

  ghost predicate LogSorted(s: State, ids: seq<nat>)
    requires LogTraced(s, ids)
  {
    forall a, b :: 0 <= a < b < |ids| ==> s.rows[ids[a]].createdAt <= s.rows[ids[b]].createdAt
  }

  ghost predicate TimeInv(s: State, ids: seq<nat>) {
    Inv(s) && RelayTimely(s) && LogTraced(s, ids) && LogSorted(s, ids)
  }

  lemma FetchIsTimely(rows: seq<Row>, limit: nat, batch: seq<Entry>)
    requires IsFetch(rows, limit, batch)
    ensures BatchTimely(rows, batch)
  {
    forall k, j | 0 <= k < |batch| && 0 <= j < |rows| && rows[j].status.Pending?
      ensures CreatedAt(batch[k]) <= rows[j].createdAt || ComesBefore(batch, k, j)
    {
      var e := Entry(j, rows[j]);
      assert e in PendingEntries(rows) && batch[k] in batch;
      if e in batch {
        var m :| 0 <= m < |batch| && batch[m] == e;
        assert k <= m ==> CreatedAt(batch[k]) <= CreatedAt(batch[m]);
      } else {
        assert CreatedAt(batch[k]) <= CreatedAt(e);
      }
    }
  }

  /** Once the first entry's row has left `pending`, the rest of the batch is timely. */
  lemma RestIsTimely(rows: seq<Row>, batch: seq<Entry>)
    requires BatchTimely(rows, batch) && batch != [] && batch[0].id < |rows|
    ensures BatchTimely(WithStatus(rows, batch[0].id, Published), batch[1..])
  {
    var after, rest := WithStatus(rows, batch[0].id, Published), batch[1..];
    forall k, j | 0 <= k < |rest| && 0 <= j < |after| && after[j].status.Pending?
      ensures CreatedAt(rest[k]) <= after[j].createdAt || ComesBefore(rest, k, j)
    {
      assert rest[k] == batch[k + 1];
      if ComesBefore(batch, k + 1, j) {
        var m :| 0 <= m < k + 1 && batch[m].id == j;
        assert rest[m - 1].id == j;
      }
    }
  }

  lemma InsertIsTimely(rows: seq<Row>, batch: seq<Entry>, r: Row)
    requires BatchTimely(rows, batch)
    requires forall k :: 0 <= k < |batch| ==> CreatedAt(batch[k]) <= r.createdAt
    ensures BatchTimely(rows + [r], batch)
  {
    forall k, j | 0 <= k < |batch| && 0 <= j < |rows| + 1 && (rows + [r])[j].status.Pending?
      ensures CreatedAt(batch[k]) <= (rows + [r])[j].createdAt || ComesBefore(batch, k, j)
    {
      assert j < |rows| ==> (rows + [r])[j] == rows[j];
    }
  }

  lemma DispatchIsTimely(s: State, st: Step)
    requires Inv(s) && RelayTimely(s) && TimelyStep(s, st) && st.Dispatch?
    ensures RelayTimely(Apply(s, st))
  {
    var t := Apply(s, st);
    if t.rows != s.rows && s.relay.Working? {
      var batch := [s.relay.entry] + s.relay.rest;
      forall k | 0 <= k < |batch|
        ensures CreatedAt(batch[k]) <= st.now
      {
        assert Current(s.rows, batch[k]);
      }
      InsertIsTimely(s.rows, batch, t.rows[|s.rows|]);
    }
  }

  lemma StartIsTimely(s: State, batch: seq<Entry>)
    requires BatchTimely(s.rows, batch)
    ensures RelayTimely(s.(relay := Start(batch)))
  {
    assert batch != [] ==> [batch[0]] + batch[1..] == batch;
  }

  lemma RelayTimelyStep(s: State, st: Step)
    requires Inv(s) && RelayTimely(s) && Enabled(s, st) && TimelyStep(s, st)
    ensures RelayTimely(Apply(s, st))
  {
    match st
    case Dispatch(_, _, _) =>
      DispatchIsTimely(s, st);
    case Fetch(limit, batch) =>
      FetchIsTimely(s.rows, limit, batch);
      StartIsTimely(s, batch);
    case Mark(_) =>
      var batch := [s.relay.entry] + s.relay.rest;
      RestIsTimely(s.rows, batch);
      assert batch[1..] == s.relay.rest;
      StartIsTimely(Apply(s, st), s.relay.rest);
    case _ =>
  }

  /** A step that leaves the logs alone keeps what they record. */
  lemma LogTracedStep(s: State, st: Step, ids: seq<nat>)
    requires TimeInv(s, ids) && Enabled(s, st) && TimelyStep(s, st) && !st.Send?
    ensures LogTraced(Apply(s, st), ids) && LogSorted(Apply(s, st), ids)
  {
    var t := Apply(s, st);
    assert RowsAdvance(s.rows, t.rows) by { RowsOkStep(s, st); }
    assert t.log == s.log;
    forall a | 0 <= a < |ids|
      ensures SameMessage(s.rows[ids[a]], t.rows[ids[a]]) && NoneBefore(t.rows, t.rows[ids[a]].createdAt)
    {
      assert SameMessage(s.rows[ids[a]], t.rows[ids[a]]);
      PendingStep(s, st, s.rows[ids[a]].createdAt);
    }
  }

  lemma PendingStep(s: State, st: Step, time: int)
    requires Inv(s) && Enabled(s, st) && TimelyStep(s, st) && NoneBefore(s.rows, time)
    requires exists i :: 0 <= i < |s.rows| && s.rows[i].createdAt == time
    ensures NoneBefore(Apply(s, st).rows, time)
  {
  }

  lemma EntryIsOldest(s: State)
    requires Inv(s) && RelayTimely(s) && InPhase(s, ToSend)
    ensures TopicRecord(s.relay.entry.row) == TopicRecord(s.rows[s.relay.entry.id])
    ensures NoneBefore(s.rows, s.rows[s.relay.entry.id].createdAt)
  {
    var i, batch := s.relay.entry.id, [s.relay.entry] + s.relay.rest;
    assert SameMessage(s.relay.entry.row, s.rows[i]) && batch[0] == s.relay.entry;
    forall j | 0 <= j < |s.rows| && s.rows[j].status.Pending?
      ensures s.rows[i].createdAt <= s.rows[j].createdAt
    {
      assert CreatedAt(batch[0]) <= s.rows[j].createdAt || ComesBefore(batch, 0, j);
    }
  }

  /** A send appends a record no earlier than all before it and no later than all that will follow. */
  lemma SendIsTimely(s: State, ids: seq<nat>)
    requires TimeInv(s, ids) && InPhase(s, ToSend)
    ensures LogTraced(Apply(s, Send(true)), ids + [s.relay.entry.id])
    ensures LogSorted(Apply(s, Send(true)), ids + [s.relay.entry.id])
  {
    EntryIsOldest(s);
    AppendIsTimely(s, ids, s.relay.entry.id, Apply(s, Send(true)));
  }

  lemma AppendIsTimely(s: State, ids: seq<nat>, i: nat, t: State)
    requires LogTraced(s, ids) && LogSorted(s, ids) && i < |s.rows| && s.rows[i].status.Pending?
    requires NoneBefore(s.rows, s.rows[i].createdAt)
    requires t.rows == s.rows && t.log == s.log + [TopicRecord(s.rows[i])]
    ensures LogTraced(t, ids + [i]) && LogSorted(t, ids + [i])
  {
  }

  lemma {:induction false} TimeRun(s: State, steps: seq<Step>, ids: seq<nat>) returns (after: seq<nat>)
    requires TimeInv(s, ids) && IsRun(s, steps) && IsTimelyRun(s, steps)
    ensures TimeInv(Final(s, steps), after)
    decreases |steps|
  {
    after := ids;
    if steps != [] {
      InvStep(s, steps[0]);
      RelayTimelyStep(s, steps[0]);
      if steps[0].Send? {
        SendIsTimely(s, ids);
        after := ids + [s.relay.entry.id];
      } else {
        LogTracedStep(s, steps[0], ids);
      }
      after := TimeRun(Apply(s, steps[0]), steps[1..], after);
    }
  }

  lemma SortedAt(s: State, ids: seq<nat>, a: nat, b: nat, i: nat, j: nat)
    requires RowsOk(s.rows) && LogTraced(s, ids) && LogSorted(s, ids) && a < b < |s.log| && i < |s.rows| && j < |s.rows|
    requires s.log[a] == TopicRecord(s.rows[i]) && s.log[b] == TopicRecord(s.rows[j])
    ensures s.rows[i].createdAt <= s.rows[j].createdAt
  {
    RecordsApart(s.rows, ids[a], i);
    RecordsApart(s.rows, ids[b], j);
  }

  lemma SentIsOldest(s: State, ids: seq<nat>, a: nat, i: nat, j: nat)
    requires RowsOk(s.rows) && LogTraced(s, ids) && a < |s.log| && i < |s.rows| && j < |s.rows|
    requires s.log[a] == TopicRecord(s.rows[i]) && s.rows[j].status.Pending?
    ensures s.rows[i].createdAt <= s.rows[j].createdAt
  {
    RecordsApart(s.rows, ids[a], i);
  }

  /** Records of row `i` before those of row `j`, or while row `j` is pending, mean it is no younger. */
  ghost predicate InTimeOrder(s: State, i: nat, j: nat)
    requires i < |s.rows| && j < |s.rows|
  {
    && (forall a, b :: 0 <= a < b < |s.log| && s.log[a] == TopicRecord(s.rows[i]) && s.log[b] == TopicRecord(s.rows[j])
          ==> s.rows[i].createdAt <= s.rows[j].createdAt)
    && (TopicRecord(s.rows[i]) in s.log && s.rows[j].status.Pending? ==> s.rows[i].createdAt <= s.rows[j].createdAt)
  }

  lemma TracedInTimeOrder(s: State, ids: seq<nat>, i: nat, j: nat)
    requires RowsOk(s.rows) && LogTraced(s, ids) && LogSorted(s, ids) && i < |s.rows| && j < |s.rows|
    ensures InTimeOrder(s, i, j)
  {
    forall a, b | 0 <= a < b < |s.log| && s.log[a] == TopicRecord(s.rows[i]) && s.log[b] == TopicRecord(s.rows[j])
      ensures s.rows[i].createdAt <= s.rows[j].createdAt
    {
      SortedAt(s, ids, a, b, i, j);
    }
    if TopicRecord(s.rows[i]) in s.log && s.rows[j].status.Pending? {
      var a :| 0 <= a < |s.log| && s.log[a] == TopicRecord(s.rows[i]);
      SentIsOldest(s, ids, a, i, j);
    }
  }

  /** While no publish fails, whatever ties there are and however the database breaks them: of two records
      in the logs the earlier is of a row created no later, and no row still pending was created before a
      row that was sent. */
  lemma PublishedInTimeOrder(steps: seq<Step>, i: nat, j: nat)
    requires IsRun(EMPTY, steps) && IsTimelyRun(EMPTY, steps)
    requires i < |Final(EMPTY, steps).rows| && j < |Final(EMPTY, steps).rows|
    ensures InTimeOrder(Final(EMPTY, steps), i, j)
  {
    var ids := TimeRun(EMPTY, steps, []);
    TracedInTimeOrder(Final(EMPTY, steps), ids, i, j);
  }
}
