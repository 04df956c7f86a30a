/** With a working database and dead-letter topic the outbox drains, whatever pattern of topic sends
    fails: each poll lowers a measure by at least the rows it fetched, and each row ends exactly
    once in its topic log or in the dead-letter log. */
module Drain {
  import opened Outbox
  import opened OutboxRuns
  import opened RelayService

  /** The polls a pending row can still take. A row whose dead-lettering failed before may have
      used up its retries and still costs one. */
  function Weight(r: Row): nat {
    if !r.status.Pending? then 0
    else if r.retryCount + 1 < MAX_RETRIES then MAX_RETRIES - r.retryCount
    else 1
  }

  function Load(rows: seq<Row>): nat {
    if rows == [] then 0 else Load(rows[..|rows| - 1]) + Weight(rows[|rows| - 1])
  }

  lemma {:induction false} LoadUpdate(rows: seq<Row>, i: nat, r: Row)
    requires i < |rows|
    ensures Load(rows[i := r]) == Load(rows) - Weight(rows[i]) + Weight(r)
    decreases |rows|
  {
    var n := |rows| - 1;
    if i == n {
      assert rows[i := r][..n] == rows[..n];
    } else {
      LoadUpdate(rows[..n], i, r);
      assert rows[i := r][..n] == rows[..n][i := r];
    }
  }

  lemma {:induction false} PendingHasLoad(rows: seq<Row>, i: nat)
    requires i < |rows| && rows[i].status.Pending?
    ensures Load(rows) > 0
    decreases |rows|
  {
    var n := |rows| - 1;
    if i < n {
      PendingHasLoad(rows[..n], i);
    }
  }

  /** Every call but the topic send succeeds. */
  predicate OnlySendsFail(outcomes: seq<Outcome>) {
    forall o :: o in outcomes ==> o.markOk && o.incrementOk && o.deadOk && o.failMarkOk
  }

  lemma EntryDrop(rows: seq<Row>, log: seq<Record>, e: Entry, o: Outcome)
    requires Current(rows, e) && e.row.retryCount == rows[e.id].retryCount
    requires OnlySendsFail([o])
    ensures var after := ProcessEntry(rows, log, e, o).0;
      Load(after) < Load(rows) && |after| == |rows| && after == rows[e.id := after[e.id]]
  {
    assert o in [o];
    var after := ProcessEntry(rows, log, e, o).0;
    assert after == rows[e.id := after[e.id]];
    LoadUpdate(rows, e.id, after[e.id]);
  }

  /** The measure drops by at least one for each entry of the batch. */
  lemma {:induction false} BatchDrop(rows: seq<Row>, log: seq<Record>, batch: seq<Entry>, outcomes: seq<Outcome>)
    requires |batch| == |outcomes| && BatchOk(rows, batch) && OnlySendsFail(outcomes)
    ensures Load(ProcessBatch(rows, log, batch, outcomes).0) + |batch| <= Load(rows)
    decreases |batch|
  {
    if batch != [] {
      var e := batch[0];
      assert outcomes[0] in outcomes;
      EntryDrop(rows, log, e, outcomes[0]);
      var (r, l) := ProcessEntry(rows, log, e, outcomes[0]);
      BatchFrame(rows, e.id, r[e.id], batch[1..]);
      BatchDrop(r, l, batch[1..], outcomes[1..]);
    }
  }

  // Sequences of polls.

  datatype PollRun = PollRun(limit: nat, batch: seq<Entry>, outcomes: seq<Outcome>)

  ghost predicate IsPoll(s: State, p: PollRun) {
    && s.relay.Idle?
    && p.limit >= 1
    && IsFetch(s.rows, p.limit, p.batch)
    && |p.outcomes| == |p.batch|
    && OnlySendsFail(p.outcomes)
  }

  ghost function AfterPoll(s: State, p: PollRun): State
    requires IsPoll(s, p)
  {
    var (rows, log) := ProcessBatch(s.rows, s.log, p.batch, p.outcomes);
    State(rows, log, Idle)
  }

  ghost predicate ArePolls(s: State, polls: seq<PollRun>)
    decreases |polls|
  {
    polls != [] ==> IsPoll(s, polls[0]) && ArePolls(AfterPoll(s, polls[0]), polls[1..])
  }

  ghost function AfterPolls(s: State, polls: seq<PollRun>): State
    requires ArePolls(s, polls)
    decreases |polls|
  {
    if polls == [] then s else AfterPolls(AfterPoll(s, polls[0]), polls[1..])
  }

  /** One poll lowers the measure by at least the number of rows fetched, and fetches some row
      whenever one is pending. */
  lemma PollDrops(s: State, p: PollRun)
    requires IsPoll(s, p)
    ensures Load(AfterPoll(s, p).rows) + |p.batch| <= Load(s.rows)
    ensures (exists i :: 0 <= i < |s.rows| && s.rows[i].status.Pending?) ==> |p.batch| >= 1
  {
    FetchOk(s.rows, p.limit, p.batch);
    BatchDrop(s.rows, s.log, p.batch, p.outcomes);
    if i :| 0 <= i < |s.rows| && s.rows[i].status.Pending? {
      assert Entry(i, s.rows[i]) in PendingEntries(s.rows);
    }
  }

  lemma NoLoadNoPending(rows: seq<Row>)
    requires Load(rows) == 0
    ensures forall i :: 0 <= i < |rows| ==> !rows[i].status.Pending?
  {
    forall i | 0 <= i < |rows|
      ensures !rows[i].status.Pending?
    {
      if rows[i].status.Pending? {
        PendingHasLoad(rows, i);
      }
    }
  }

  lemma {:induction false} NoPendingNoLoad(rows: seq<Row>)
    requires forall i :: 0 <= i < |rows| ==> !rows[i].status.Pending?
    ensures Load(rows) == 0
  {
    if rows != [] {
      NoPendingNoLoad(rows[..|rows| - 1]);
    }
  }

  lemma {:induction false} PollsDrop(s: State, polls: seq<PollRun>)
    requires ArePolls(s, polls)
    ensures Load(AfterPolls(s, polls).rows) <= if Load(s.rows) < |polls| then 0 else Load(s.rows) - |polls|
    decreases |polls|
  {
    if polls != [] {
      PollDrops(s, polls[0]);
      if forall i :: 0 <= i < |s.rows| ==> !s.rows[i].status.Pending? {
        NoPendingNoLoad(s.rows);
      }
      PollsDrop(AfterPoll(s, polls[0]), polls[1..]);
    }
  }

  /** The outbox is empty of pending rows after at most as many polls as the measure. */
  lemma OutboxDrains(s: State, polls: seq<PollRun>)
    requires ArePolls(s, polls) && |polls| >= Load(s.rows)
    ensures forall i :: 0 <= i < |AfterPolls(s, polls).rows| ==> !AfterPolls(s, polls).rows[i].status.Pending?
  {
    PollsDrop(s, polls);
    NoLoadNoPending(AfterPolls(s, polls).rows);
  }

  // Where the rows end up.

  predicate LosesNoMark(st: Step) {
    st != Mark(false) && st != MarkFailed(false) && st != Crash
  }

  lemma {:induction false} NoMarkLost(s: State, steps: seq<Step>, i: nat)
    requires IsRun(s, steps)
    requires forall st :: st in steps ==> LosesNoMark(st)
    ensures Count(s, steps, LostMark(i)) == 0 && Count(s, steps, LostFailMark(i)) == 0
    decreases |steps|
  {
    if steps != [] {
      assert LosesNoMark(steps[0]);
      NoMarkLost(Apply(s, steps[0]), steps[1..], i);
    }
  }

  lemma {:induction false} BatchLosesNoMark(batch: seq<Entry>, outcomes: seq<Outcome>)
    requires |batch| == |outcomes| && OnlySendsFail(outcomes)
    ensures forall st :: st in BatchSteps(batch, outcomes) ==> LosesNoMark(st)
  {
    if batch != [] {
      assert outcomes[0] in outcomes;
      BatchLosesNoMark(batch[1..], outcomes[1..]);
    }
  }

  /** One poll adds a copy of a row exactly when it settles it, in the log its new status names. */
  lemma PollSettles(s: State, p: PollRun, i: nat)
    requires Inv(s) && IsPoll(s, p) && i < |s.rows|
    ensures var t := AfterPoll(s, p);
      && Inv(t) && RowsAdvance(s.rows, t.rows) && |t.rows| == |s.rows|
      && CopyBalance(t, i) == CopyBalance(s, i) && DeadBalance(t, i) == DeadBalance(s, i)
  {
    var steps := [Fetch(p.limit, p.batch)] + BatchSteps(p.batch, p.outcomes);
    PollIsRun(s, p.limit, p.batch, p.outcomes);
    RunKeepsInv(s, steps);
    RunAccount(s, steps, i);
    BatchLosesNoMark(p.batch, p.outcomes);
    NoMarkLost(s, steps, i);
    BatchKeepsLength(s.rows, s.log, p.batch, p.outcomes);
  }

  lemma {:induction false} PollsSettle(s: State, polls: seq<PollRun>, i: nat)
    requires Inv(s) && ArePolls(s, polls) && i < |s.rows|
    ensures var t := AfterPolls(s, polls);
      && RowsAdvance(s.rows, t.rows) && |t.rows| == |s.rows|
      && CopyBalance(t, i) == CopyBalance(s, i) && DeadBalance(t, i) == DeadBalance(s, i)
      && (polls != [] || s.relay.Idle? ==> t.relay.Idle?)
    decreases |polls|
  {
    if polls != [] {
      var t := AfterPoll(s, polls[0]);
      PollSettles(s, polls[0], i);
      PollsSettle(t, polls[1..], i);
      RowsAdvanceTransitive(s.rows, t.rows, AfterPolls(s, polls).rows);
    }
  }

  /** From any reachable state, once the polls outnumber the measure every row that was pending has
      gained exactly one record: in its topic log and then it is published, or in the dead-letter
      log and then it is failed, never in both. Settled rows gain none. */
  lemma EachRowEndsOnce(s: State, polls: seq<PollRun>, i: nat)
    requires Inv(s) && s.relay.Idle? && ArePolls(s, polls) && |polls| >= Load(s.rows) && i < |s.rows|
    ensures i < |AfterPolls(s, polls).rows|
    ensures var t := AfterPolls(s, polls);
      var sent := Copies(t.log, TopicRecord(s.rows[i])) - Copies(s.log, TopicRecord(s.rows[i]));
      var dead := Copies(t.log, DeadRecord(s.rows[i])) - Copies(s.log, DeadRecord(s.rows[i]));
      if s.rows[i].status.Pending? then
        (sent == 1 && dead == 0 && t.rows[i].status.Published?) || (sent == 0 && dead == 1 && t.rows[i].status.Failed?)
      else
        sent == 0 && dead == 0 && t.rows[i] == s.rows[i]
  {
    var t := AfterPolls(s, polls);
    PollsSettle(s, polls, i);
    OutboxDrains(s, polls);
    assert SameMessage(s.rows[i], t.rows[i]);
  }
}
