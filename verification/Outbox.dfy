/** The outbox table, the topic logs and the relay as a step system
    (server/internal/outbox, server/internal/dispatcher/dispatcher.go). Every database or broker
    call is one step that succeeds or has no effect, and the relay may crash between any two. */
module Outbox {
  import opened Wrappers
  import opened Hex
  import opened Messages
  import opened Topics
  import opened Router
  import opened TimeQuery

  const MAX_RETRIES: nat := 5
  const DEFAULT_BATCH_SIZE: nat := 100

  datatype Status = Pending | Published | Failed

  /** A row is identified by its position: rows are never deleted. */
  datatype Row = Row(messageId: Bytes, topic: string, partitionKey: Bytes, payload: AppMessage,
                     status: Status, retryCount: nat, createdAt: int)

  /** A fetched copy of a row. */
  datatype Entry = Entry(id: nat, row: Row)

  datatype Record = Record(topic: string, key: Bytes, value: AppMessage)

  function TopicRecord(r: Row): Record {
    Record(r.topic, r.partitionKey, r.payload)
  }

  function DeadRecord(r: Row): Record {
    Record(DEAD_LETTER, StringBytes(r.topic), r.payload)
  }

  // The table's operations.

  /** The UNIQUE and NOT NULL constraints on an insert. */
  predicate Insertable(rows: seq<Row>, messageId: Bytes, partitionKey: Bytes) {
    messageId != [] && partitionKey != [] && forall i :: 0 <= i < |rows| ==> rows[i].messageId != messageId
  }

  predicate Accepts(rows: seq<Row>, msg: Option<AppMessage>) {
    && RouteMessage(msg).Ok?
    && msg.Some?
    && Insertable(rows, msg.value.messageId, RouteMessage(msg).value.partitionKey)
  }

  function NewRow(msg: AppMessage, route: Route, now: int): Row {
    Row(msg.messageId, route.topic, route.partitionKey, msg, Pending, 0, now)
  }

  function WithStatus(rows: seq<Row>, id: nat, status: Status): seq<Row> {
    if id < |rows| then rows[id := rows[id].(status := status)] else rows
  }

  function WithRetry(rows: seq<Row>, id: nat): seq<Row> {
    if id < |rows| then rows[id := rows[id].(retryCount := rows[id].retryCount + 1)] else rows
  }

  function PendingEntries(rows: seq<Row>): set<Entry> {
    set i | 0 <= i < |rows| && rows[i].status.Pending? :: Entry(i, rows[i])
  }

  function CreatedAt(e: Entry): int {
    e.row.createdAt
  }

  /** The answers FetchPending may give. */
  ghost predicate IsFetch(rows: seq<Row>, limit: nat, batch: seq<Entry>) {
    IsPage(PendingEntries(rows), CreatedAt, limit, batch)
  }

  // The step system.

  /** The call the relay makes next for its current entry. */
  datatype Phase = ToSend | ToMark | ToIncrement | ToDeadLetter | ToMarkFailed

  datatype RelayState = Idle | Working(entry: Entry, phase: Phase, rest: seq<Entry>)

  datatype State = State(rows: seq<Row>, log: seq<Record>, relay: RelayState)

  datatype Step =
    | Dispatch(msg: Option<AppMessage>, now: int, dbOk: bool)
    | Fetch(limit: nat, batch: seq<Entry>)
    | Send(ok: bool)
    | Mark(ok: bool)
    | Increment(ok: bool)
    | DeadLetter(ok: bool)
    | MarkFailed(ok: bool)
    | Crash

  const EMPTY := State([], [], Idle)

  function Start(batch: seq<Entry>): RelayState {
    if batch == [] then Idle else Working(batch[0], ToSend, batch[1..])
  }

  predicate InPhase(s: State, phase: Phase) {
    s.relay.Working? && s.relay.phase == phase
  }

  predicate RowInPhase(s: State, i: nat, phase: Phase) {
    InPhase(s, phase) && s.relay.entry.id == i
  }

  ghost predicate Enabled(s: State, st: Step) {
    match st
    case Dispatch(_, _, _) => true
    case Fetch(limit, batch) => s.relay.Idle? && IsFetch(s.rows, limit, batch)
    case Send(_) => InPhase(s, ToSend)
    case Mark(_) => InPhase(s, ToMark)
    case Increment(_) => InPhase(s, ToIncrement)
    case DeadLetter(_) => InPhase(s, ToDeadLetter)
    case MarkFailed(_) => InPhase(s, ToMarkFailed)
    case Crash => true
  }

  ghost function Apply(s: State, st: Step): State
    requires Enabled(s, st)
  {
    match st
    case Dispatch(msg, now, dbOk) =>
      if dbOk && Accepts(s.rows, msg) then
        s.(rows := s.rows + [NewRow(msg.value, RouteMessage(msg).value, now)])
      else s
    case Fetch(_, batch) => s.(relay := Start(batch))
    case Send(ok) =>
      if ok then s.(log := s.log + [TopicRecord(s.relay.entry.row)], relay := s.relay.(phase := ToMark))
      else s.(relay := s.relay.(phase := ToIncrement))
    case Mark(ok) =>
      if ok then s.(rows := WithStatus(s.rows, s.relay.entry.id, Published), relay := Start(s.relay.rest))
      else s.(relay := s.relay.(phase := ToIncrement))
    case Increment(ok) =>
      var rows := if ok then WithRetry(s.rows, s.relay.entry.id) else s.rows;
      // The relay tests its fetched copy of the counter, not the stored one.
      if s.relay.entry.row.retryCount + 1 >= MAX_RETRIES then s.(rows := rows, relay := s.relay.(phase := ToDeadLetter))
      else s.(rows := rows, relay := Start(s.relay.rest))
    case DeadLetter(ok) =>
      if ok then s.(log := s.log + [DeadRecord(s.relay.entry.row)], relay := s.relay.(phase := ToMarkFailed))
      else s.(relay := Start(s.relay.rest))
    case MarkFailed(ok) =>
      if ok then s.(rows := WithStatus(s.rows, s.relay.entry.id, Failed), relay := Start(s.relay.rest))
      else s.(relay := Start(s.relay.rest))
    case Crash => s.(relay := Idle)
  }

  // The invariant.

  ghost predicate RowOk(r: Row) {
    && r.messageId != []
    && r.partitionKey != []
    && r.payload.messageId == r.messageId
    && RouteMessage(Some(r.payload)) == Ok(Route(r.topic, r.partitionKey))
  }

  ghost predicate RowsOk(rows: seq<Row>) {
    && (forall i :: 0 <= i < |rows| ==> RowOk(rows[i]))
    && (forall i, j :: 0 <= i < j < |rows| ==> rows[i].messageId != rows[j].messageId)
  }

  predicate SameMessage(a: Row, b: Row) {
    && a.messageId == b.messageId
    && a.topic == b.topic
    && a.partitionKey == b.partitionKey
    && a.payload == b.payload
    && a.createdAt == b.createdAt
  }

  /** A fetched entry that still stands for a pending row. */
  predicate Current(rows: seq<Row>, e: Entry) {
    e.id < |rows| && SameMessage(e.row, rows[e.id]) && rows[e.id].status.Pending?
  }

  ghost predicate BatchOk(rows: seq<Row>, batch: seq<Entry>) {
    && (forall k :: 0 <= k < |batch| ==> Current(rows, batch[k]) && batch[k].row.retryCount == rows[batch[k].id].retryCount)
    && (forall j, k :: 0 <= j < k < |batch| ==> batch[j].id != batch[k].id)
  }

  ghost predicate RelayOk(s: State) {
    s.relay.Working? ==>
      && BatchOk(s.rows, s.relay.rest)
      && Current(s.rows, s.relay.entry)
      && (forall k :: 0 <= k < |s.relay.rest| ==> s.relay.rest[k].id != s.relay.entry.id)
      && (s.relay.phase in {ToSend, ToMark, ToIncrement} ==>
            s.relay.entry.row.retryCount == s.rows[s.relay.entry.id].retryCount)
      && (s.relay.phase in {ToDeadLetter, ToMarkFailed} ==> s.relay.entry.row.retryCount + 1 >= MAX_RETRIES)
  }

  predicate Traced(rows: seq<Row>, rec: Record) {
    exists i :: 0 <= i < |rows| && (rec == TopicRecord(rows[i]) || rec == DeadRecord(rows[i]))
  }

  ghost predicate LogOk(s: State) {
    forall rec :: rec in s.log ==> Traced(s.rows, rec)
  }

  /** What a status promises about the logs. */
  predicate IsLogged(log: seq<Record>, r: Row) {
    && (r.status.Published? ==> TopicRecord(r) in log)
    && (r.status.Failed? ==> DeadRecord(r) in log)
  }

  ghost predicate StatusOk(s: State) {
    && (forall i :: 0 <= i < |s.rows| ==> IsLogged(s.log, s.rows[i]))
    && (InPhase(s, ToMark) ==> TopicRecord(s.relay.entry.row) in s.log)
    && (InPhase(s, ToMarkFailed) ==> DeadRecord(s.relay.entry.row) in s.log)
  }

  ghost predicate Inv(s: State) {
    RowsOk(s.rows) && RelayOk(s) && LogOk(s) && StatusOk(s)
  }

  /** Rows are only ever added, keep their message, and leave `pending` at most once. */
  ghost predicate RowsAdvance(a: seq<Row>, b: seq<Row>) {
    && |a| <= |b|
    && forall i :: 0 <= i < |a| ==>
         SameMessage(a[i], b[i]) && a[i].retryCount <= b[i].retryCount && (!a[i].status.Pending? ==> b[i] == a[i])
  }

  lemma StartOk(s: State, batch: seq<Entry>)
    requires BatchOk(s.rows, batch)
    ensures RelayOk(s.(relay := Start(batch)))
  {
  }

  lemma FetchOk(rows: seq<Row>, limit: nat, batch: seq<Entry>)
    requires IsFetch(rows, limit, batch)
    ensures BatchOk(rows, batch)
  {
    forall k | 0 <= k < |batch|
      ensures batch[k].id < |rows| && batch[k].row == rows[batch[k].id] && rows[batch[k].id].status.Pending?
    {
      assert batch[k] in batch;
    }
  }

  /** Updating one row's status or counter keeps a batch that does not hold it. */
  lemma BatchFrame(rows: seq<Row>, id: nat, r: Row, batch: seq<Entry>)
    requires BatchOk(rows, batch)
    requires id < |rows|
    requires forall k :: 0 <= k < |batch| ==> batch[k].id != id
    ensures BatchOk(rows[id := r], batch)
  {
  }

  lemma RowsUpdate(rows: seq<Row>, id: nat, r: Row)
    requires RowsOk(rows) && id < |rows|
    requires SameMessage(rows[id], r) && rows[id].status.Pending? && rows[id].retryCount <= r.retryCount
    ensures RowsOk(rows[id := r]) && RowsAdvance(rows, rows[id := r])
  {
    assert RowOk(rows[id]);
  }

  lemma RowsAppend(rows: seq<Row>, msg: AppMessage, now: int)
    requires RowsOk(rows) && Accepts(rows, Some(msg))
    ensures var t := rows + [NewRow(msg, RouteMessage(Some(msg)).value, now)]; RowsOk(t) && RowsAdvance(rows, t)
  {
  }

  lemma RowsOkStep(s: State, st: Step)
    requires Inv(s) && Enabled(s, st)
    ensures RowsOk(Apply(s, st).rows)
    ensures RowsAdvance(s.rows, Apply(s, st).rows)
    ensures s.log <= Apply(s, st).log
  {
    var t := Apply(s, st);
    if st.Dispatch? {
      if t != s {
        RowsAppend(s.rows, st.msg.value, st.now);
      }
    } else if t.rows != s.rows {
      var id := s.relay.entry.id;
      RowsUpdate(s.rows, id, t.rows[id]);
    }
  }

  lemma RelayOkStep(s: State, st: Step)
    requires Inv(s) && Enabled(s, st)
    ensures RelayOk(Apply(s, st))
  {
    var t := Apply(s, st);
    match st
    case Fetch(limit, batch) =>
      FetchOk(s.rows, limit, batch);
      StartOk(s, batch);
    case Mark(ok) =>
      if ok {
        BatchFrame(s.rows, s.relay.entry.id, t.rows[s.relay.entry.id], s.relay.rest);
        StartOk(t, s.relay.rest);
      }
    case Increment(ok) =>
      BatchFrame(s.rows, s.relay.entry.id, t.rows[s.relay.entry.id], s.relay.rest);
      assert BatchOk(t.rows, s.relay.rest);
      StartOk(t, s.relay.rest);
    case DeadLetter(ok) =>
      StartOk(t, s.relay.rest);
    case MarkFailed(ok) =>
      BatchFrame(s.rows, s.relay.entry.id, t.rows[s.relay.entry.id], s.relay.rest);
      StartOk(t, s.relay.rest);
    case _ =>
  }

  lemma TracedMonotone(a: seq<Row>, b: seq<Row>, rec: Record)
    requires RowsAdvance(a, b) && Traced(a, rec)
    ensures Traced(b, rec)
  {
    var i :| 0 <= i < |a| && (rec == TopicRecord(a[i]) || rec == DeadRecord(a[i]));
    assert SameMessage(a[i], b[i]);
  }

  lemma LogOkStep(s: State, st: Step)
    requires Inv(s) && Enabled(s, st)
    ensures LogOk(Apply(s, st))
  {
    var t := Apply(s, st);
    assert RowsAdvance(s.rows, t.rows) by { RowsOkStep(s, st); }
    forall rec | rec in t.log
      ensures Traced(t.rows, rec)
    {
      if rec in s.log {
        TracedMonotone(s.rows, t.rows, rec);
      } else {
        var i := s.relay.entry.id;
        assert Current(s.rows, s.relay.entry) && t.rows == s.rows;
        assert rec == TopicRecord(t.rows[i]) || rec == DeadRecord(t.rows[i]);
      }
    }
  }

  lemma IsLoggedStep(s: State, st: Step, i: nat)
    requires Enabled(s, st) && RelayOk(s) && StatusOk(s) && i < |Apply(s, st).rows|
    ensures IsLogged(Apply(s, st).log, Apply(s, st).rows[i])
  {
    assert i < |s.rows| ==> IsLogged(s.log, s.rows[i]);
  }

  lemma StatusOkStep(s: State, st: Step)
    requires Enabled(s, st) && RelayOk(s) && StatusOk(s)
    ensures StatusOk(Apply(s, st))
  {
    forall i | 0 <= i < |Apply(s, st).rows|
      ensures IsLogged(Apply(s, st).log, Apply(s, st).rows[i])
    {
      IsLoggedStep(s, st, i);
    }
  }

  lemma InvStep(s: State, st: Step)
    requires Inv(s) && Enabled(s, st)
    ensures Inv(Apply(s, st))
    ensures RowsAdvance(s.rows, Apply(s, st).rows)
    ensures s.log <= Apply(s, st).log
  {
    RowsOkStep(s, st);
    RelayOkStep(s, st);
    LogOkStep(s, st);
    StatusOkStep(s, st);
  }

  // Accounting.

  function AsInt(b: bool): int {
    if b then 1 else 0
  }

  /** How often a record occurs in the logs. */
  function Copies(log: seq<Record>, rec: Record): int {
    multiset(log)[rec]
  }

  /** Copies of a row in its topic log, beyond those its status and the relay's next call explain. */
  function CopyBalance(s: State, i: nat): int {
    if i < |s.rows| then
      Copies(s.log, TopicRecord(s.rows[i])) - AsInt(s.rows[i].status.Published?) - AsInt(RowInPhase(s, i, ToMark))
    else 0
  }

  /** The same for the dead-letter log. */
  function DeadBalance(s: State, i: nat): int {
    if i < |s.rows| then
      Copies(s.log, DeadRecord(s.rows[i])) - AsInt(s.rows[i].status.Failed?) - AsInt(RowInPhase(s, i, ToMarkFailed))
    else 0
  }

  function RetryBalance(s: State, i: nat): int {
    if i < |s.rows| then s.rows[i].retryCount + AsInt(RowInPhase(s, i, ToIncrement)) else 0
  }

  /** A send whose mark failed or was cut off by a crash. */
  predicate LosesMark(s: State, st: Step, i: nat) {
    RowInPhase(s, i, ToMark) && (st == Mark(false) || st == Crash)
  }

  /** A dead-letter send whose mark failed or was cut off by a crash. */
  predicate LosesFailMark(s: State, st: Step, i: nat) {
    RowInPhase(s, i, ToMarkFailed) && (st == MarkFailed(false) || st == Crash)
  }

  /** `publish` returns an error: the send failed, or the mark after it did. */
  predicate FailsPublish(s: State, st: Step, i: nat) {
    (RowInPhase(s, i, ToSend) && st == Send(false)) || (RowInPhase(s, i, ToMark) && st == Mark(false))
  }

  predicate LosesIncrement(s: State, st: Step, i: nat) {
    RowInPhase(s, i, ToIncrement) && (st == Increment(false) || st == Crash)
  }

  /** Records of different rows differ, and no topic record is a dead-letter record. */
  lemma RecordsApart(rows: seq<Row>, i: nat, j: nat)
    requires RowsOk(rows) && i < |rows| && j < |rows|
    ensures TopicRecord(rows[i]) != DeadRecord(rows[j])
    ensures i != j ==> TopicRecord(rows[i]) != TopicRecord(rows[j]) && DeadRecord(rows[i]) != DeadRecord(rows[j])
  {
    assert RowOk(rows[i]);
    RouteThenExtract(rows[i].payload);
    if i != j {
      assert rows[i].payload.messageId != rows[j].payload.messageId;
    }
  }

  /** A row about to be inserted has no copies yet. */
  lemma FreshHasNoCopies(s: State, r: Row)
    requires Inv(s)
    requires r.payload.messageId == r.messageId
    requires forall i :: 0 <= i < |s.rows| ==> s.rows[i].messageId != r.messageId
    ensures TopicRecord(r) !in s.log && DeadRecord(r) !in s.log
  {
    forall rec | rec in s.log
      ensures rec.value != r.payload
    {
      assert Traced(s.rows, rec);
      var i :| 0 <= i < |s.rows| && (rec == TopicRecord(s.rows[i]) || rec == DeadRecord(s.rows[i]));
      assert RowOk(s.rows[i]);
    }
  }

  lemma AppendCopies(log: seq<Record>, rec: Record, x: Record)
    ensures Copies(log + [rec], x) == Copies(log, x) + AsInt(rec == x)
  {
  }

  /** The only record a step can add is one of the current entry's two. */
  ghost predicate AppendsOwn(s: State, i: nat)
    requires i < |s.rows|
  {
    s.relay.Working? ==>
      var e, mine, dead := s.relay.entry, TopicRecord(s.rows[i]), DeadRecord(s.rows[i]);
      && Current(s.rows, e)
      && Copies(s.log + [TopicRecord(e.row)], mine) == Copies(s.log, mine) + AsInt(e.id == i)
      && Copies(s.log + [DeadRecord(e.row)], mine) == Copies(s.log, mine)
      && Copies(s.log + [TopicRecord(e.row)], dead) == Copies(s.log, dead)
      && Copies(s.log + [DeadRecord(e.row)], dead) == Copies(s.log, dead) + AsInt(e.id == i)
  }

  lemma AppendedCopies(s: State, i: nat)
    requires Inv(s) && i < |s.rows|
    ensures AppendsOwn(s, i)
  {
    if s.relay.Working? {
      var e := s.relay.entry;
      RecordsApart(s.rows, i, e.id);
      RecordsApart(s.rows, e.id, i);
      AppendCopies(s.log, TopicRecord(e.row), TopicRecord(s.rows[i]));
      AppendCopies(s.log, TopicRecord(e.row), DeadRecord(s.rows[i]));
      AppendCopies(s.log, DeadRecord(e.row), TopicRecord(s.rows[i]));
      AppendCopies(s.log, DeadRecord(e.row), DeadRecord(s.rows[i]));
    }
  }

  /** The two balances of row `i` change by exactly the marks the step loses. */
  ghost predicate BalancesKept(s: State, st: Step, i: nat)
    requires Enabled(s, st)
  {
    && CopyBalance(Apply(s, st), i) == CopyBalance(s, i) + AsInt(LosesMark(s, st, i))
    && DeadBalance(Apply(s, st), i) == DeadBalance(s, i) + AsInt(LosesFailMark(s, st, i))
  }

  lemma SendBalances(s: State, st: Step, i: nat)
    requires Enabled(s, st) && st.Send? && i < |s.rows| && AppendsOwn(s, i)
    ensures BalancesKept(s, st, i)
  {
  }

  lemma MarkBalances(s: State, st: Step, i: nat)
    requires Enabled(s, st) && st.Mark? && i < |s.rows| && AppendsOwn(s, i)
    ensures BalancesKept(s, st, i)
  {
    NextDiffers(s, i);
  }

  lemma DeadLetterBalances(s: State, st: Step, i: nat)
    requires Enabled(s, st) && st.DeadLetter? && i < |s.rows| && AppendsOwn(s, i)
    ensures BalancesKept(s, st, i)
  {
    NextDiffers(s, i);
  }

  lemma MarkFailedBalances(s: State, st: Step, i: nat)
    requires Enabled(s, st) && st.MarkFailed? && i < |s.rows| && AppendsOwn(s, i)
    ensures BalancesKept(s, st, i)
  {
    NextDiffers(s, i);
  }

  /** The steps that change neither the logs nor a status. */
  lemma QuietBalances(s: State, st: Step, i: nat)
    requires Enabled(s, st) && i < |s.rows| && (st.Dispatch? || st.Fetch? || st.Increment? || st.Crash?)
    ensures BalancesKept(s, st, i)
  {
    NextDiffers(s, i);
    var t := Apply(s, st);
    assert t.log == s.log && TopicRecord(t.rows[i]) == TopicRecord(s.rows[i]) && DeadRecord(t.rows[i]) == DeadRecord(s.rows[i]);
    assert t.rows[i].status == s.rows[i].status;
  }

  /** A batch's next entry starts at its send. */
  lemma NextDiffers(s: State, i: nat)
    ensures s.relay.Working? ==> var t := s.(relay := Start(s.relay.rest));
      !RowInPhase(t, i, ToMark) && !RowInPhase(t, i, ToMarkFailed) && !RowInPhase(t, i, ToIncrement) && !RowInPhase(t, i, ToDeadLetter)
  {
  }

  lemma BalancesStep(s: State, st: Step, i: nat)
    requires Inv(s) && Enabled(s, st) && i < |s.rows|
    ensures BalancesKept(s, st, i)
  {
    AppendedCopies(s, i);
    match st
    case Send(_) => SendBalances(s, st, i);
    case Mark(_) => MarkBalances(s, st, i);
    case DeadLetter(_) => DeadLetterBalances(s, st, i);
    case MarkFailed(_) => MarkFailedBalances(s, st, i);
    case _ => QuietBalances(s, st, i);
  }

  lemma RetriesStep(s: State, st: Step, i: nat)
    requires RelayOk(s) && Enabled(s, st)
    ensures RetryBalance(Apply(s, st), i) == RetryBalance(s, i) + AsInt(FailsPublish(s, st, i)) - AsInt(LosesIncrement(s, st, i))
  {
  }

  lemma AccountStep(s: State, st: Step, i: nat)
    requires Inv(s) && Enabled(s, st)
    ensures CopyBalance(Apply(s, st), i) == CopyBalance(s, i) + AsInt(LosesMark(s, st, i))
    ensures DeadBalance(Apply(s, st), i) == DeadBalance(s, i) + AsInt(LosesFailMark(s, st, i))
    ensures RetryBalance(Apply(s, st), i) == RetryBalance(s, i) + AsInt(FailsPublish(s, st, i)) - AsInt(LosesIncrement(s, st, i))
  {
    var t := Apply(s, st);
    if i < |s.rows| {
      BalancesStep(s, st, i);
    } else if i < |t.rows| {
      FreshHasNoCopies(s, t.rows[i]);
    }
    RetriesStep(s, st, i);
  }

  /** The dead-letter log holds a row, or is about to, only after `failures` of at least five. */
  ghost predicate DeadOnlyAfter(s: State, i: nat, failures: int) {
    && RetryBalance(s, i) <= failures
    && (i < |s.rows| && DeadRecord(s.rows[i]) in s.log ==> failures >= MAX_RETRIES)
    && (RowInPhase(s, i, ToDeadLetter) || RowInPhase(s, i, ToMarkFailed) ==> failures >= MAX_RETRIES)
  }

  lemma DeadOnlyAfterStep(s: State, st: Step, i: nat, failures: int)
    requires Inv(s) && Enabled(s, st)
    requires DeadOnlyAfter(s, i, failures)
    ensures DeadOnlyAfter(Apply(s, st), i, failures + AsInt(FailsPublish(s, st, i)))
  {
    AccountStep(s, st, i);
    var t := Apply(s, st);
    if i < |s.rows| {
      assert SameMessage(s.rows[i], t.rows[i]) by { RowsOkStep(s, st); }
      if s.relay.Working? {
        RecordsApart(s.rows, i, s.relay.entry.id);
        RecordsApart(s.rows, s.relay.entry.id, i);
      }
    } else if i < |t.rows| {
      FreshHasNoCopies(s, t.rows[i]);
    }
  }
}
