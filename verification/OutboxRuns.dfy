/** Whole runs of the outbox and its single relay: safety, monotonicity and exact accounting. */
module OutboxRuns {
  import opened Outbox
  import Hex
  import Topics

  ghost predicate IsRun(s: State, steps: seq<Step>)
    decreases |steps|
  {
    steps != [] ==> Enabled(s, steps[0]) && IsRun(Apply(s, steps[0]), steps[1..])
  }

  ghost function Final(s: State, steps: seq<Step>): State
    requires IsRun(s, steps)
    decreases |steps|
  {
    if steps == [] then s else Final(Apply(s, steps[0]), steps[1..])
  }

  /** How often `event` holds of the state and the step taken from it. */
  ghost function Count(s: State, steps: seq<Step>, event: (State, Step) -> bool): nat
    requires IsRun(s, steps)
    decreases |steps|
  {
    if steps == [] then 0
    else (if event(s, steps[0]) then 1 else 0) + Count(Apply(s, steps[0]), steps[1..], event)
  }

  function LostMark(i: nat): (State, Step) -> bool { (s, st) => LosesMark(s, st, i) }
  function LostFailMark(i: nat): (State, Step) -> bool { (s, st) => LosesFailMark(s, st, i) }
  function FailedPublish(i: nat): (State, Step) -> bool { (s, st) => FailsPublish(s, st, i) }
  function LostIncrement(i: nat): (State, Step) -> bool { (s, st) => LosesIncrement(s, st, i) }

  lemma RowsAdvanceTransitive(a: seq<Row>, b: seq<Row>, c: seq<Row>)
    requires RowsAdvance(a, b) && RowsAdvance(b, c)
    ensures RowsAdvance(a, c)
  {
  }

  lemma {:induction false} RunConcat(s: State, a: seq<Step>, b: seq<Step>)
    requires IsRun(s, a) && IsRun(Final(s, a), b)
    ensures IsRun(s, a + b) && Final(s, a + b) == Final(Final(s, a), b)
    decreases |a|
  {
    if a == [] {
      assert a + b == b;
    } else {
      RunConcat(Apply(s, a[0]), a[1..], b);
      assert (a + b)[1..] == a[1..] + b;
    }
  }

  /** Every run keeps the invariant, never loses or rewrites an accepted row, never leaves
      `published` or `failed`, and only appends to the logs. */
  lemma {:induction false} RunKeepsInv(s: State, steps: seq<Step>)
    requires Inv(s) && IsRun(s, steps)
    ensures Inv(Final(s, steps))
    ensures RowsAdvance(s.rows, Final(s, steps).rows)
    ensures s.log <= Final(s, steps).log
    decreases |steps|
  {
    if steps != [] {
      var t := Apply(s, steps[0]);
      InvStep(s, steps[0]);
      RunKeepsInv(t, steps[1..]);
      RowsAdvanceTransitive(s.rows, t.rows, Final(s, steps).rows);
    }
  }

  /** In every reachable state a published row is in its topic log under its partition key and a
      failed one is in the dead-letter log keyed by its topic. */
  lemma StatusMeansLogged(steps: seq<Step>, i: nat)
    requires IsRun(EMPTY, steps) && i < |Final(EMPTY, steps).rows|
    ensures var s := Final(EMPTY, steps); var r := s.rows[i];
      && (r.status.Published? ==> Record(r.topic, r.partitionKey, r.payload) in s.log)
      && (r.status.Failed? ==> Record("dead-letter", Hex.StringBytes(r.topic), r.payload) in s.log)
  {
    RunKeepsInv(EMPTY, steps);
  }

  lemma {:induction false} RunAccount(s: State, steps: seq<Step>, i: nat)
    requires Inv(s) && IsRun(s, steps)
    ensures var t := Final(s, steps);
      && CopyBalance(t, i) == CopyBalance(s, i) + Count(s, steps, LostMark(i))
      && DeadBalance(t, i) == DeadBalance(s, i) + Count(s, steps, LostFailMark(i))
      && RetryBalance(t, i) == RetryBalance(s, i) + Count(s, steps, FailedPublish(i)) - Count(s, steps, LostIncrement(i))
    decreases |steps|
  {
    if steps != [] {
      InvStep(s, steps[0]);
      AccountStep(s, steps[0], i);
      RunAccount(Apply(s, steps[0]), steps[1..], i);
    }
  }

  lemma {:induction false} RunDeadOnlyAfter(s: State, steps: seq<Step>, i: nat, failures: int)
    requires Inv(s) && IsRun(s, steps) && DeadOnlyAfter(s, i, failures)
    ensures DeadOnlyAfter(Final(s, steps), i, failures + Count(s, steps, FailedPublish(i)))
    decreases |steps|
  {
    if steps != [] {
      InvStep(s, steps[0]);
      DeadOnlyAfterStep(s, steps[0], i, failures);
      RunDeadOnlyAfter(Apply(s, steps[0]), steps[1..], i, failures + AsInt(FailsPublish(s, steps[0], i)));
    }
  }

  /** Exact accounting over every run: topic copies are 1 if published (or sent and about to be marked)
      plus the lost marks; dead-letter copies likewise; the retry counter is the failed publishes
      less the increments that were lost or are still to come. */
  lemma ExactAccounting(steps: seq<Step>, i: nat)
    requires IsRun(EMPTY, steps) && i < |Final(EMPTY, steps).rows|
    ensures var s := Final(EMPTY, steps); var r := s.rows[i];
      && Copies(s.log, TopicRecord(r)) ==
         AsInt(r.status.Published?) + AsInt(RowInPhase(s, i, ToMark)) + Count(EMPTY, steps, LostMark(i))
      && Copies(s.log, DeadRecord(r)) ==
         AsInt(r.status.Failed?) + AsInt(RowInPhase(s, i, ToMarkFailed)) + Count(EMPTY, steps, LostFailMark(i))
      && r.retryCount + AsInt(RowInPhase(s, i, ToIncrement)) + Count(EMPTY, steps, LostIncrement(i)) ==
         Count(EMPTY, steps, FailedPublish(i))
  {
    RunAccount(EMPTY, steps, i);
  }

  /** A row reaches the dead-letter log only after at least five failed publishes. */
  lemma DeadLetteredAfterFiveFailures(steps: seq<Step>, i: nat)
    requires IsRun(EMPTY, steps) && i < |Final(EMPTY, steps).rows|
    ensures var s := Final(EMPTY, steps);
      DeadRecord(s.rows[i]) in s.log ==> Count(EMPTY, steps, FailedPublish(i)) >= 5
  {
    RunDeadOnlyAfter(EMPTY, steps, i, 0);
  }
}
