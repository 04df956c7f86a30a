/** A message can be both in its topic log and in the dead-letter log, since a publish whose mark fails
    counts as failed (server/internal/outbox/relay.go). When exactly, and a run that gets there. */
module BothLogs {
  import opened Wrappers
  import opened Messages
  import opened Router
  import opened Outbox
  import opened OutboxRuns
  import opened RelayService

  predicate InBothLogs(s: State, i: nat)
    requires i < |s.rows|
  {
    TopicRecord(s.rows[i]) in s.log && DeadRecord(s.rows[i]) in s.log
  }

  /** Exactly when a row is in both logs, over every run, by what happened to its marks: it was sent, and it
      was dead-lettered, each either with the mark that goes with it made or about to be made, or with a
      mark lost. So it takes a lost mark; a failed row is in both exactly if a publish mark of it was
      lost, a published one exactly if a failure mark was. */
  lemma InBothLogsIff(steps: seq<Step>, i: nat)
    requires IsRun(EMPTY, steps) && i < |Final(EMPTY, steps).rows|
    ensures var s := Final(EMPTY, steps); var r := s.rows[i];
      && (InBothLogs(s, i) <==>
          (AsInt(r.status.Published?) + AsInt(RowInPhase(s, i, ToMark)) + Count(EMPTY, steps, LostMark(i)) > 0
           && AsInt(r.status.Failed?) + AsInt(RowInPhase(s, i, ToMarkFailed)) + Count(EMPTY, steps, LostFailMark(i)) > 0))
      && (InBothLogs(s, i) ==> Count(EMPTY, steps, LostMark(i)) + Count(EMPTY, steps, LostFailMark(i)) > 0)
      && (r.status.Failed? ==> (InBothLogs(s, i) <==> Count(EMPTY, steps, LostMark(i)) > 0))
      && (r.status.Published? ==> (InBothLogs(s, i) <==> Count(EMPTY, steps, LostFailMark(i)) > 0))
  {
    ExactAccounting(steps, i);
    RunKeepsInv(EMPTY, steps);
    OnePhase(Final(EMPTY, steps), i);
  }

  lemma OnePhase(s: State, i: nat)
    requires RelayOk(s) && i < |s.rows|
    ensures RowInPhase(s, i, ToMark) ==> s.rows[i].status.Pending? && !RowInPhase(s, i, ToMarkFailed)
    ensures RowInPhase(s, i, ToMarkFailed) ==> s.rows[i].status.Pending?
  {
  }

  // A run that gets there.

  /** The topic send works, the mark after it does not, and every other call does. */
  const MARK_FAILS := Outcome(true, false, true, true, true)

  function OnlyRow(r: Row, log: seq<Record>): State {
    State([r], log, Idle)
  }

  lemma FetchesOnlyRow(r: Row)
    requires r.status.Pending?
    ensures IsFetch([r], DEFAULT_BATCH_SIZE, [Entry(0, r)])
  {
    assert [r][0] == r && Entry(0, [r][0]) in PendingEntries([r]);
    assert PendingEntries([r]) == {Entry(0, r)};
  }

  /** One poll whose mark fails: the record is sent, and with the last retry used up dead-lettered too. */
  lemma FailingPoll(r: Row, log: seq<Record>) returns (steps: seq<Step>)
    requires r.status.Pending?
    ensures IsRun(OnlyRow(r, log), steps)
    ensures Final(OnlyRow(r, log), steps) ==
      if r.retryCount + 1 >= MAX_RETRIES then
        OnlyRow(r.(retryCount := r.retryCount + 1, status := Failed), log + [TopicRecord(r)] + [DeadRecord(r)])
      else OnlyRow(r.(retryCount := r.retryCount + 1), log + [TopicRecord(r)])
  {
    FetchesOnlyRow(r);
    var batch, outcomes := [Entry(0, r)], [MARK_FAILS];
    PollIsRun(OnlyRow(r, log), DEFAULT_BATCH_SIZE, batch, outcomes);
    steps := [Fetch(DEFAULT_BATCH_SIZE, batch)] + BatchSteps(batch, outcomes);
    assert batch[1..] == [] && outcomes[1..] == [];
    var (rows, after) := ProcessEntry([r], log, batch[0], MARK_FAILS);
    assert ProcessBatch([r], log, batch, outcomes) == (rows, after);
  }

  lemma {:induction false} FailingPolls(r: Row, log: seq<Record>) returns (steps: seq<Step>)
    requires r.status.Pending? && r.retryCount < MAX_RETRIES && TopicRecord(r) != DeadRecord(r)
    ensures IsRun(OnlyRow(r, log), steps)
    ensures var s := Final(OnlyRow(r, log), steps);
      && s.relay.Idle? && |s.rows| == 1 && SameMessage(r, s.rows[0]) && s.rows[0].status.Failed?
      && Copies(s.log, TopicRecord(r)) == Copies(log, TopicRecord(r)) + (MAX_RETRIES - r.retryCount)
      && Copies(s.log, DeadRecord(r)) == Copies(log, DeadRecord(r)) + 1
    decreases MAX_RETRIES - r.retryCount
  {
    steps := FailingPoll(r, log);
    AppendCopies(log, TopicRecord(r), TopicRecord(r));
    AppendCopies(log, TopicRecord(r), DeadRecord(r));
    AppendCopies(log + [TopicRecord(r)], DeadRecord(r), TopicRecord(r));
    AppendCopies(log + [TopicRecord(r)], DeadRecord(r), DeadRecord(r));
    if r.retryCount + 1 < MAX_RETRIES {
      var more := FailingPolls(r.(retryCount := r.retryCount + 1), log + [TopicRecord(r)]);
      RunConcat(OnlyRow(r, log), steps, more);
      steps := steps + more;
    }
  }

  /** For every message an empty outbox accepts: five polls whose sends work and whose marks fail leave it
      five times in its topic log, in the dead-letter log, and marked failed. */
  lemma SentFiveTimesAndDeadLettered(msg: AppMessage, now: int) returns (steps: seq<Step>)
    requires Accepts([], Some(msg))
    ensures IsRun(EMPTY, steps) && |Final(EMPTY, steps).rows| == 1
    ensures var s := Final(EMPTY, steps);
      && s.rows[0].payload == msg && s.rows[0].status.Failed? && InBothLogs(s, 0)
      && Copies(s.log, TopicRecord(s.rows[0])) == 5 && Copies(s.log, DeadRecord(s.rows[0])) == 1
  {
    var row := NewRow(msg, RouteMessage(Some(msg)).value, now);
    OneStep(EMPTY, Dispatch(Some(msg), now, true));
    assert [] + [row] == [row];
    RouteThenExtract(msg);
    assert TopicRecord(row) != DeadRecord(row);
    var more := FailingPolls(row, []);
    RunConcat(EMPTY, [Dispatch(Some(msg), now, true)], more);
    steps := [Dispatch(Some(msg), now, true)] + more;
  }
}
