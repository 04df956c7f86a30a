/** The dispatcher and the relay as the objects they are: a table updated in place, a producer that
    appends to the topic logs, and the polling loop (server/internal/outbox/relay.go and store.go,
    server/internal/dispatcher/dispatcher.go). Whether a call to the database or broker succeeds is
    an argument; `Poll` is proved to be a run of the step system. */
module RelayService {
  import opened Wrappers
  import opened Hex
  import opened Messages
  import opened Topics
  import opened Router
  import opened TimeQuery
  import opened Outbox
  import opened OutboxRuns

  /** How the calls made for one entry turn out. */
  datatype Outcome = Outcome(sendOk: bool, markOk: bool, incrementOk: bool, deadOk: bool, failMarkOk: bool)

  /** The rows and logs after one pass of the polling loop. */
  function ProcessEntry(rows: seq<Row>, log: seq<Record>, e: Entry, o: Outcome): (seq<Row>, seq<Record>) {
    var sent := if o.sendOk then log + [TopicRecord(e.row)] else log;
    if o.sendOk && o.markOk then
      (WithStatus(rows, e.id, Published), sent)
    else
      var counted := if o.incrementOk then WithRetry(rows, e.id) else rows;
      if e.row.retryCount + 1 >= MAX_RETRIES && o.deadOk then
        (if o.failMarkOk then WithStatus(counted, e.id, Failed) else counted, sent + [DeadRecord(e.row)])
      else
        (counted, sent)
  }

  function ProcessBatch(rows: seq<Row>, log: seq<Record>, batch: seq<Entry>, outcomes: seq<Outcome>): (seq<Row>, seq<Record>)
    requires |batch| == |outcomes|
    decreases |batch|
  {
    if batch == [] then (rows, log)
    else
      var (r, l) := ProcessEntry(rows, log, batch[0], outcomes[0]);
      ProcessBatch(r, l, batch[1..], outcomes[1..])
  }

  lemma {:induction false} BatchKeepsLength(rows: seq<Row>, log: seq<Record>, batch: seq<Entry>, outcomes: seq<Outcome>)
    requires |batch| == |outcomes|
    ensures |ProcessBatch(rows, log, batch, outcomes).0| == |rows|
    decreases |batch|
  {
    if batch != [] {
      var (r, l) := ProcessEntry(rows, log, batch[0], outcomes[0]);
      BatchKeepsLength(r, l, batch[1..], outcomes[1..]);
    }
  }

  /** The row of an entry after its pass: published, or one retry up and failed if it was dead-lettered. */
  function Settled(r: Row, fetchedRetries: nat, o: Outcome): Row {
    if o.sendOk && o.markOk then r.(status := Published)
    else
      r.(retryCount := if o.incrementOk then r.retryCount + 1 else r.retryCount,
         status := if fetchedRetries >= 4 && o.deadOk && o.failMarkOk then Failed else r.status)
  }

  /** The outcomes the environment has in store for a batch of `n` entries. */
  function Outcomes(env: nat -> Outcome, n: nat): seq<Outcome> {
    seq(n, (i: nat) => env(i))
  }

  class Store {
    var rows: seq<Row>

    constructor ()
      ensures rows == []
    {
      rows := [];
    }

    method Insert(messageId: Bytes, route: Route, payload: AppMessage, now: int, dbOk: bool) returns (ok: bool)
      modifies this
      ensures ok == (dbOk && Insertable(old(rows), messageId, route.partitionKey))
      ensures rows == if ok
        then old(rows) + [Row(messageId, route.topic, route.partitionKey, payload, Pending, 0, now)]
        else old(rows)
    {
      ok := dbOk && messageId != [] && route.partitionKey != [];
      for i := 0 to |rows|
        invariant ok == (dbOk && Insertable(rows[..i], messageId, route.partitionKey))
        invariant rows == old(rows)
      {
        ok := ok && rows[i].messageId != messageId;
        assert rows[..i + 1] == rows[..i] + [rows[i]];
      }
      assert rows[..|rows|] == rows;
      if ok {
        rows := rows + [Row(messageId, route.topic, route.partitionKey, payload, Pending, 0, now)];
      }
    }

    method FetchPending(limit: nat) returns (batch: seq<Entry>)
      ensures IsFetch(rows, limit, batch)
    {
      batch := Select(PendingEntries(rows), CreatedAt, limit);
    }

    method MarkPublished(id: nat, dbOk: bool) returns (ok: bool)
      modifies this
      ensures ok == dbOk && rows == if ok then WithStatus(old(rows), id, Published) else old(rows)
    {
      ok := dbOk;
      if ok && id < |rows| {
        rows := rows[id := rows[id].(status := Published)];
      }
    }

    method MarkFailed(id: nat, dbOk: bool) returns (ok: bool)
      modifies this
      ensures ok == dbOk && rows == if ok then WithStatus(old(rows), id, Failed) else old(rows)
    {
      ok := dbOk;
      if ok && id < |rows| {
        rows := rows[id := rows[id].(status := Failed)];
      }
    }

    method IncrementRetry(id: nat, dbOk: bool) returns (ok: bool)
      modifies this
      ensures ok == dbOk && rows == if ok then WithRetry(old(rows), id) else old(rows)
    {
      ok := dbOk;
      if ok && id < |rows| {
        rows := rows[id := rows[id].(retryCount := rows[id].retryCount + 1)];
      }
    }
  }

  class Producer {
    var log: seq<Record>

    constructor ()
      ensures log == []
    {
      log := [];
    }

    method SendTo(topic: string, key: Bytes, value: AppMessage, brokerOk: bool) returns (ok: bool)
      modifies this
      ensures ok == brokerOk && log == if ok then old(log) + [Record(topic, key, value)] else old(log)
    {
      ok := brokerOk;
      if ok {
        log := log + [Record(topic, key, value)];
      }
    }
  }

  class Dispatcher {
    const store: Store

    constructor (store: Store)
      ensures this.store == store
    {
      this.store := store;
    }

    /** The table after a call is that of the step system, and an error leaves it as it was. */
    method DispatchMessage(msg: Option<AppMessage>, now: int, dbOk: bool) returns (r: Result<()>)
      modifies store
      ensures r.Ok? <==>
        && dbOk && RouteMessage(msg).Ok? && msg.value.messageId != [] && RouteMessage(msg).value.partitionKey != []
        && (forall i :: 0 <= i < |old(store.rows)| ==> old(store.rows)[i].messageId != msg.value.messageId)
      ensures r.Ok? ==>
        var route := RouteMessage(msg).value;
        store.rows == old(store.rows) + [Row(msg.value.messageId, route.topic, route.partitionKey, msg.value, Pending, 0, now)]
      ensures store.rows == Apply(EMPTY.(rows := old(store.rows)), Dispatch(msg, now, dbOk)).rows
      ensures r.Err? ==> store.rows == old(store.rows)
    {
      var route := RouteMessage(msg);
      if route.Err? {
        return Err("route: " + route.error);
      }
      var ok := store.Insert(msg.value.messageId, route.value, msg.value, now, dbOk);
      if !ok {
        return Err("outbox insert");
      }
      return Ok(());
    }
  }

  class Relay {
    const store: Store
    const producer: Producer
    const batchSize: nat

    constructor (store: Store, producer: Producer)
      ensures this.store == store && this.producer == producer && batchSize == 100
    {
      this.store, this.producer, this.batchSize := store, producer, DEFAULT_BATCH_SIZE;
    }

    method Publish(e: Entry, o: Outcome) returns (ok: bool)
      modifies store, producer
      ensures ok == (o.sendOk && o.markOk)
      ensures producer.log == if o.sendOk then old(producer.log) + [TopicRecord(e.row)] else old(producer.log)
      ensures store.rows == if ok then WithStatus(old(store.rows), e.id, Published) else old(store.rows)
    {
      ok := producer.SendTo(e.row.topic, e.row.partitionKey, e.row.payload, o.sendOk);
      if ok {
        ok := store.MarkPublished(e.id, o.markOk);
      }
    }

    method SendToDeadLetter(e: Entry, o: Outcome)
      modifies store, producer
      ensures producer.log == if o.deadOk then old(producer.log) + [DeadRecord(e.row)] else old(producer.log)
      ensures store.rows ==
        if o.deadOk && o.failMarkOk then WithStatus(old(store.rows), e.id, Failed) else old(store.rows)
    {
      var ok := producer.SendTo(DEAD_LETTER, StringBytes(e.row.topic), e.row.payload, o.deadOk);
      if ok {
        var _ := store.MarkFailed(e.id, o.failMarkOk);
      }
    }

    /** The body of the polling loop. */
    method PollEntry(e: Entry, o: Outcome)
      modifies store, producer
      ensures (store.rows, producer.log) == ProcessEntry(old(store.rows), old(producer.log), e, o)
      ensures producer.log == old(producer.log)
        + (if o.sendOk then [Record(e.row.topic, e.row.partitionKey, e.row.payload)] else [])
        + (if !(o.sendOk && o.markOk) && e.row.retryCount >= 4 && o.deadOk
           then [Record("dead-letter", StringBytes(e.row.topic), e.row.payload)] else [])
      ensures |store.rows| == |old(store.rows)|
      ensures forall i :: 0 <= i < |store.rows| && i != e.id ==> store.rows[i] == old(store.rows)[i]
      ensures e.id < |store.rows| ==> store.rows[e.id] == Settled(old(store.rows)[e.id], e.row.retryCount, o)
    {
      var ok := Publish(e, o);
      if !ok {
        var _ := store.IncrementRetry(e.id, o.incrementOk);
        if e.row.retryCount + 1 >= MAX_RETRIES {
          SendToDeadLetter(e, o);
        }
      }
    }

    /** One poll, for every outcome of the calls it makes; a failed fetch changes nothing. */
    method Poll(fetchOk: bool, env: nat -> Outcome) returns (batch: seq<Entry>)
      modifies store, producer
      ensures fetchOk ==> IsFetch(old(store.rows), batchSize, batch)
      ensures !fetchOk ==> batch == []
      ensures (store.rows, producer.log) ==
        ProcessBatch(old(store.rows), old(producer.log), batch, Outcomes(env, |batch|))
    {
      if !fetchOk {
        return [];
      }
      batch := store.FetchPending(batchSize);
      ghost var outcomes := Outcomes(env, |batch|);
      for i := 0 to |batch|
        invariant ProcessBatch(store.rows, producer.log, batch[i..], outcomes[i..])
          == ProcessBatch(old(store.rows), old(producer.log), batch, outcomes)
      {
        PollEntry(batch[i], env(i));
        assert batch[i..][1..] == batch[i + 1..] && outcomes[i..][1..] == outcomes[i + 1..];
      }
    }
  }

  // A poll is a run of the step system.

  function EntrySteps(e: Entry, o: Outcome): seq<Step> {
    if o.sendOk && o.markOk then [Send(true), Mark(true)]
    else
      (if o.sendOk then [Send(true), Mark(false)] else [Send(false)]) + [Increment(o.incrementOk)] +
      if e.row.retryCount + 1 < MAX_RETRIES then []
      else if o.deadOk then [DeadLetter(true), MarkFailed(o.failMarkOk)]
      else [DeadLetter(false)]
  }

  function BatchSteps(batch: seq<Entry>, outcomes: seq<Outcome>): seq<Step>
    requires |batch| == |outcomes|
  {
    if batch == [] then [] else EntrySteps(batch[0], outcomes[0]) + BatchSteps(batch[1..], outcomes[1..])
  }

  lemma EntryIsRun(s: State, o: Outcome)
    requires InPhase(s, ToSend)
    ensures var (rows, log) := ProcessEntry(s.rows, s.log, s.relay.entry, o);
      var steps := EntrySteps(s.relay.entry, o);
      IsRun(s, steps) && Final(s, steps) == State(rows, log, Start(s.relay.rest))
  {
    var e := s.relay.entry;
    var a := if o.sendOk then [Send(true), Mark(o.markOk)] else [Send(false)];
    PublishIsRun(s, o);
    if !(o.sendOk && o.markOk) {
      var t := Final(s, a);
      var b := [Increment(o.incrementOk)] +
        if e.row.retryCount + 1 < MAX_RETRIES then []
        else if o.deadOk then [DeadLetter(true), MarkFailed(o.failMarkOk)]
        else [DeadLetter(false)];
      RetryIsRun(t, o);
      RunConcat(s, a, b);
      assert a + b == EntrySteps(e, o);
    }
  }

  lemma PublishIsRun(s: State, o: Outcome)
    requires InPhase(s, ToSend)
    ensures var steps := if o.sendOk then [Send(true), Mark(o.markOk)] else [Send(false)];
      var log := if o.sendOk then s.log + [TopicRecord(s.relay.entry.row)] else s.log;
      && IsRun(s, steps)
      && Final(s, steps) ==
         if o.sendOk && o.markOk then State(WithStatus(s.rows, s.relay.entry.id, Published), log, Start(s.relay.rest))
         else State(s.rows, log, s.relay.(phase := ToIncrement))
  {
    if o.sendOk {
      TwoSteps(s, Send(true), Mark(o.markOk));
    } else {
      OneStep(s, Send(false));
    }
  }

  lemma OneStep(s: State, a: Step)
    requires Enabled(s, a)
    ensures IsRun(s, [a]) && Final(s, [a]) == Apply(s, a)
  {
    assert [a][1..] == [];
  }

  lemma TwoSteps(s: State, a: Step, b: Step)
    requires Enabled(s, a) && Enabled(Apply(s, a), b)
    ensures IsRun(s, [a, b]) && Final(s, [a, b]) == Apply(Apply(s, a), b)
  {
    OneStep(Apply(s, a), b);
    assert [a, b][1..] == [b];
  }

  lemma RetryIsRun(s: State, o: Outcome)
    requires InPhase(s, ToIncrement)
    ensures var e := s.relay.entry;
      var steps := [Increment(o.incrementOk)] +
        if e.row.retryCount + 1 < MAX_RETRIES then []
        else if o.deadOk then [DeadLetter(true), MarkFailed(o.failMarkOk)]
        else [DeadLetter(false)];
      var counted := if o.incrementOk then WithRetry(s.rows, e.id) else s.rows;
      && IsRun(s, steps)
      && Final(s, steps) ==
         if e.row.retryCount + 1 >= MAX_RETRIES && o.deadOk then
           State(if o.failMarkOk then WithStatus(counted, e.id, Failed) else counted, s.log + [DeadRecord(e.row)], Start(s.relay.rest))
         else State(counted, s.log, Start(s.relay.rest))
  {
    var e := s.relay.entry;
    var t := Apply(s, Increment(o.incrementOk));
    OneStep(s, Increment(o.incrementOk));
    if e.row.retryCount + 1 >= MAX_RETRIES {
      if o.deadOk {
        TwoSteps(t, DeadLetter(true), MarkFailed(o.failMarkOk));
        RunConcat(s, [Increment(o.incrementOk)], [DeadLetter(true), MarkFailed(o.failMarkOk)]);
      } else {
        OneStep(t, DeadLetter(false));
        RunConcat(s, [Increment(o.incrementOk)], [DeadLetter(false)]);
      }
    }
  }

  lemma {:induction false} BatchIsRun(s: State, batch: seq<Entry>, outcomes: seq<Outcome>)
    requires |batch| == |outcomes|
    requires s.relay == Start(batch)
    ensures var (rows, log) := ProcessBatch(s.rows, s.log, batch, outcomes);
      var steps := BatchSteps(batch, outcomes);
      IsRun(s, steps) && Final(s, steps) == State(rows, log, Idle)
    decreases |batch|
  {
    if batch != [] {
      EntryIsRun(s, outcomes[0]);
      var steps := EntrySteps(batch[0], outcomes[0]);
      var t := Final(s, steps);
      BatchIsRun(t, batch[1..], outcomes[1..]);
      RunConcat(s, steps, BatchSteps(batch[1..], outcomes[1..]));
    }
  }

  /** Whatever `Poll` does to the table and the logs is a run of the step system. */
  lemma PollIsRun(s: State, limit: nat, batch: seq<Entry>, outcomes: seq<Outcome>)
    requires s.relay.Idle? && IsFetch(s.rows, limit, batch) && |batch| == |outcomes|
    ensures var (rows, log) := ProcessBatch(s.rows, s.log, batch, outcomes);
      var steps := [Fetch(limit, batch)] + BatchSteps(batch, outcomes);
      IsRun(s, steps) && Final(s, steps) == State(rows, log, Idle)
  {
    OneStep(s, Fetch(limit, batch));
    BatchIsRun(Apply(s, Fetch(limit, batch)), batch, outcomes);
    RunConcat(s, [Fetch(limit, batch)], BatchSteps(batch, outcomes));
  }
}
