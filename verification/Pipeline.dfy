/** The whole delivery pipeline, from dispatch to inbox and push, over every interleaving of the
    outbox's steps with the sync service's. */
module Pipeline {
  import opened Wrappers
  import opened Topics
  import opened Router
  import opened Outbox
  import OutboxRuns
  import opened Sync

  datatype Pipe = Pipe(out: State, sync: SyncState)

  datatype PipeStep = OutStep(o: Step) | InStep(i: SyncStep)

  const INIT := Pipe(EMPTY, QUIET)

  ghost predicate PipeEnabled(p: Pipe, st: PipeStep) {
    match st
    case OutStep(o) => Enabled(p.out, o)
    case InStep(i) => SyncEnabled(p.out.log, p.sync, i)
  }

  ghost function PipeApply(p: Pipe, st: PipeStep): Pipe
    requires PipeEnabled(p, st)
  {
    match st
    case OutStep(o) => p.(out := Apply(p.out, o))
    case InStep(i) => p.(sync := SyncApply(p.out.log, p.sync, i))
  }

  ghost predicate IsRun(p: Pipe, steps: seq<PipeStep>)
    decreases |steps|
  {
    steps != [] ==> PipeEnabled(p, steps[0]) && IsRun(PipeApply(p, steps[0]), steps[1..])
  }

  ghost function Final(p: Pipe, steps: seq<PipeStep>): Pipe
    requires IsRun(p, steps)
    decreases |steps|
  {
    if steps == [] then p else Final(PipeApply(p, steps[0]), steps[1..])
  }

  /** How often `event` holds of a sync step and the state it is taken in. */
  ghost function Count(p: Pipe, steps: seq<PipeStep>, event: (SyncState, SyncStep) -> bool): nat
    requires IsRun(p, steps)
    decreases |steps|
  {
    if steps == [] then 0
    else
      (if steps[0].InStep? && event(p.sync, steps[0].i) then 1 else 0)
      + Count(PipeApply(p, steps[0]), steps[1..], event)
  }

  /** The same for the outbox's steps. */
  ghost function OutCount(p: Pipe, steps: seq<PipeStep>, event: (State, Step) -> bool): nat
    requires IsRun(p, steps)
    decreases |steps|
  {
    if steps == [] then 0
    else
      (if steps[0].OutStep? && event(p.out, steps[0].o) then 1 else 0)
      + OutCount(PipeApply(p, steps[0]), steps[1..], event)
  }

  function LostInsert(k: Key): (SyncState, SyncStep) -> bool { (s, st) => LosesInsert(s, st, k) }
  function MadeInsert(k: Key): (SyncState, SyncStep) -> bool { (s, st) => MakesInsert(s, st, k) }
  function LostPush(k: Key): (SyncState, SyncStep) -> bool { (s, st) => LosesPush(s, st, k) }
  function Expired(k: Key): (SyncState, SyncStep) -> bool { (s, st) => Expires(s, st, k) }

  /** The outbox's part of a run. */
  function OutSteps(steps: seq<PipeStep>): seq<Step> {
    if steps == [] then []
    else (if steps[0].OutStep? then [steps[0].o] else []) + OutSteps(steps[1..])
  }

  /** It is a run of the outbox alone, with the same counts. */
  lemma {:induction false} OutPart(p: Pipe, steps: seq<PipeStep>, event: (State, Step) -> bool)
    requires IsRun(p, steps)
    ensures OutboxRuns.IsRun(p.out, OutSteps(steps))
    ensures OutboxRuns.Final(p.out, OutSteps(steps)) == Final(p, steps).out
    ensures OutboxRuns.Count(p.out, OutSteps(steps), event) == OutCount(p, steps, event)
    decreases |steps|
  {
    if steps != [] {
      OutPart(PipeApply(p, steps[0]), steps[1..], event);
      if steps[0].OutStep? {
        assert OutSteps(steps)[1..] == OutSteps(steps[1..]);
      } else {
        assert OutSteps(steps) == OutSteps(steps[1..]);
      }
    }
  }

  function Outs(steps: seq<Step>): seq<PipeStep> {
    if steps == [] then [] else [OutStep(steps[0])] + Outs(steps[1..])
  }

  /** Conversely every run of the outbox, such as a poll of the relay, is a run of the pipeline. */
  lemma {:induction false} OutRunIsRun(p: Pipe, steps: seq<Step>)
    requires OutboxRuns.IsRun(p.out, steps)
    ensures IsRun(p, Outs(steps))
    ensures Final(p, Outs(steps)) == p.(out := OutboxRuns.Final(p.out, steps))
    decreases |steps|
  {
    if steps != [] {
      OutRunIsRun(PipeApply(p, OutStep(steps[0])), steps[1..]);
      FirstStep(p, OutStep(steps[0]), Outs(steps[1..]));
    }
  }

  ghost predicate PipeInv(p: Pipe) {
    Inv(p.out) && SyncInv(p.out.log, p.sync)
  }

  lemma PipeInvStep(p: Pipe, st: PipeStep)
    requires PipeInv(p) && PipeEnabled(p, st)
    ensures PipeInv(PipeApply(p, st))
    ensures p.sync.inbox <= PipeApply(p, st).sync.inbox
  {
    match st
    case OutStep(o) =>
      InvStep(p.out, o);
      SyncInvMonotone(p.out.log, Apply(p.out, o).log, p.sync);
    case InStep(i) =>
      SyncInvStep(p.out.log, p.sync, i);
  }

  /** Every run keeps the invariant and only adds to the inbox. */
  lemma {:induction false} PipeRunKeepsInv(p: Pipe, steps: seq<PipeStep>)
    requires PipeInv(p) && IsRun(p, steps)
    ensures PipeInv(Final(p, steps))
    ensures p.sync.inbox <= Final(p, steps).sync.inbox
    decreases |steps|
  {
    if steps != [] {
      PipeInvStep(p, steps[0]);
      PipeRunKeepsInv(PipeApply(p, steps[0]), steps[1..]);
    }
  }

  // Provenance.

  /** The outbox row and the inbox row carry the same message, addressed to the inbox row's user. */
  predicate SourceOf(r: Row, m: InboxRow) {
    && r.messageId == m.messageId
    && r.payload == m.payload
    && IsConsumed(r.topic)
    && Recipient(r.payload, r.topic) == Some(m.userId)
    && r.payload.body.Chat?
    && r.payload.body.chat.Some?
    && m.senderId == r.payload.body.chat.value.senderId != []
    && m.conversationId == r.partitionKey
  }

  /** A consumed record of the logs is the topic record of the row with its message id. */
  lemma ConsumedIsTopicRecord(s: State, rec: Record) returns (i: nat)
    requires Inv(s) && rec in s.log && IsConsumed(rec.topic)
    ensures i < |s.rows| && rec == TopicRecord(s.rows[i]) && s.rows[i].messageId == rec.value.messageId
  {
    assert Traced(s.rows, rec);
    i :| 0 <= i < |s.rows| && (rec == TopicRecord(s.rows[i]) || rec == DeadRecord(s.rows[i]));
    assert RowOk(s.rows[i]);
    TopicsDisjoint([], [], DEAD_LETTER);
  }

  lemma InboxRowHasSource(p: Pipe, j: nat) returns (i: nat)
    requires PipeInv(p) && j < |p.sync.inbox|
    ensures i < |p.out.rows| && SourceOf(p.out.rows[i], p.sync.inbox[j]) && TopicRecord(p.out.rows[i]) in p.out.log
    ensures forall i' :: 0 <= i' < |p.out.rows| && p.out.rows[i'].messageId == p.sync.inbox[j].messageId ==> i' == i
  {
    var m := p.sync.inbox[j];
    assert RowTraced(p.out.log, m);
    var rec :| Addressed(p.out.log, rec, m.userId) && Storable(rec) && m == RowFor(rec, m.userId, m.createdAt);
    i := ConsumedIsTopicRecord(p.out, rec);
    assert RowOk(p.out.rows[i]);
    RouteThenExtract(rec.value);
  }

  /** Row `i`, and no other row, has the inbox row's message. */
  ghost predicate OnlySource(rows: seq<Row>, m: InboxRow, i: nat) {
    && i < |rows|
    && SourceOf(rows[i], m)
    && (forall j :: 0 <= j < |rows| && rows[j].messageId == m.messageId ==> j == i)
  }

  /** In every run each inbox row comes from exactly one outbox row, with the same message id and
      payload, its user being the recipient that message and topic name; and no user has a message
      twice. */
  lemma EveryInboxRowHasOneSource(steps: seq<PipeStep>)
    requires IsRun(INIT, steps)
    ensures forall m :: m in Final(INIT, steps).sync.inbox ==>
      exists i: nat :: OnlySource(Final(INIT, steps).out.rows, m, i)
    ensures forall a, b :: 0 <= a < b < |Final(INIT, steps).sync.inbox| ==>
      var inbox := Final(INIT, steps).sync.inbox;
      inbox[a].userId != inbox[b].userId || inbox[a].messageId != inbox[b].messageId
  {
    PipeRunKeepsInv(INIT, steps);
    var p := Final(INIT, steps);
    forall m | m in p.sync.inbox
      ensures exists i: nat :: OnlySource(p.out.rows, m, i)
    {
      var j :| 0 <= j < |p.sync.inbox| && p.sync.inbox[j] == m;
      var i := InboxRowHasSource(p, j);
      assert OnlySource(p.out.rows, m, i);
    }
  }

  /** Row `j` of the inbox is the pushed message in the inbox of the user it was pushed to. */
  predicate IsPushedRow(inbox: seq<InboxRow>, p: Pushed, j: nat) {
    j < |inbox| && inbox[j].userId == p.user && inbox[j].payload == p.message
  }

  lemma PushHasRow(p: Pipe, push: Pushed) returns (j: nat)
    requires PipeInv(p) && push in p.sync.pushes
    ensures IsPushedRow(p.sync.inbox, push, j)
  {
    var a :| 0 <= a < |p.sync.pushes| && p.sync.pushes[a] == push;
    var k := Key(push.user, push.message.messageId);
    assert Stored(p.sync.inbox, k);
    j :| 0 <= j < |p.sync.inbox| && IsRowOf(p.sync.inbox[j], k);
    var i := InboxRowHasSource(p, j);
    assert PushTraced(p.out.log, push);
    var rec :| Addressed(p.out.log, rec, push.user) && push.message == rec.value;
    var i' := ConsumedIsTopicRecord(p.out, rec);
  }

  /** In every run whatever was pushed to a user is, to the byte, a message in that user's inbox. */
  lemma EveryPushIsInInbox(steps: seq<PipeStep>, push: Pushed)
    requires IsRun(INIT, steps) && push in Final(INIT, steps).sync.pushes
    ensures exists j: nat :: IsPushedRow(Final(INIT, steps).sync.inbox, push, j)
  {
    PipeRunKeepsInv(INIT, steps);
    var j := PushHasRow(Final(INIT, steps), push);
  }

  // Nothing is lost.

  /** The message can reach an inbox at all. */
  predicate Deliverable(r: Row) {
    IsConsumed(r.topic) && Recipient(r.payload, r.topic).Some? && Sender(r.payload) != []
  }

  function DeliveryKey(r: Row): Key
    requires Deliverable(r)
  {
    Key(Recipient(r.payload, r.topic).value, r.messageId)
  }

  /** Every one-to-one chat with a sender is deliverable, to the recipient it names. */
  lemma DirectChatsAreDeliverable(r: Row)
    requires RowOk(r) && IsDirectChat(r.payload) && r.payload.body.chat.value.senderId != []
    ensures Deliverable(r) && DeliveryKey(r) == Key(r.payload.body.chat.value.recipientId, r.messageId)
  {
    RouteThenExtract(r.payload);
  }

  predicate AwaitsPublishing(p: Pipe, i: nat)
    requires i < |p.out.rows|
  {
    p.out.rows[i].status.Pending? && !RowInPhase(p.out, i, ToMark)
  }

  predicate IsDeadLettered(p: Pipe, i: nat)
    requires i < |p.out.rows|
  {
    p.out.rows[i].status.Failed? && DeadRecord(p.out.rows[i]) in p.out.log
  }

  /** In its topic log and not yet stored, with nothing to stop a consumer from storing it: no dedup
      key is held against it, or the worker that took the key is about to insert. */
  ghost predicate AwaitsHandling(p: Pipe, i: nat)
    requires i < |p.out.rows| && Deliverable(p.out.rows[i])
  {
    var k := DeliveryKey(p.out.rows[i]);
    && TopicRecord(p.out.rows[i]) in p.out.log
    && !Stored(p.sync.inbox, k)
    && (k !in p.sync.keys || exists w :: w in p.sync.workers && Inserts(p.sync.workers[w], k))
  }

  predicate IsDelivered(p: Pipe, i: nat)
    requires i < |p.out.rows|
  {
    exists j :: 0 <= j < |p.sync.inbox| && SourceOf(p.out.rows[i], p.sync.inbox[j])
  }

  /** The message is waiting to be published, dead-lettered, waiting to be handled, or delivered. */
  ghost predicate HasPlace(p: Pipe, i: nat)
    requires i < |p.out.rows| && Deliverable(p.out.rows[i])
  {
    AwaitsPublishing(p, i) || IsDeadLettered(p, i) || AwaitsHandling(p, i) || IsDelivered(p, i)
  }

  /** What is stored under a row's key is that row's message. */
  lemma StoredIsDelivered(p: Pipe, i: nat)
    requires PipeInv(p) && i < |p.out.rows| && Deliverable(p.out.rows[i])
    ensures Stored(p.sync.inbox, DeliveryKey(p.out.rows[i])) <==> IsDelivered(p, i)
    ensures IsDelivered(p, i) ==> TopicRecord(p.out.rows[i]) in p.out.log
  {
    var k := DeliveryKey(p.out.rows[i]);
    if Stored(p.sync.inbox, k) {
      var j :| 0 <= j < |p.sync.inbox| && IsRowOf(p.sync.inbox[j], k);
      var i' := InboxRowHasSource(p, j);
    }
    if IsDelivered(p, i) {
      var j :| 0 <= j < |p.sync.inbox| && SourceOf(p.out.rows[i], p.sync.inbox[j]);
      var i' := InboxRowHasSource(p, j);
      assert IsRowOf(p.sync.inbox[j], k);
    }
  }

  lemma {:induction false} CacheRun(p: Pipe, steps: seq<PipeStep>, k: Key)
    requires PipeInv(p) && IsRun(p, steps) && CacheOk(p.sync, k)
    requires Count(p, steps, LostInsert(k)) == 0
    ensures CacheOk(Final(p, steps).sync, k)
    decreases |steps|
  {
    if steps != [] {
      PipeInvStep(p, steps[0]);
      if steps[0].InStep? {
        CacheStep(p.out.log, p.sync, steps[0].i, k);
      }
      CacheRun(PipeApply(p, steps[0]), steps[1..], k);
    }
  }

  /** In every run, however calls fail, processes crash and records are redelivered, a live dedup key
      whose insert was never lost has its row, or a worker is about to insert it. */
  lemma LiveKeyHasRow(steps: seq<PipeStep>, k: Key)
    requires IsRun(INIT, steps) && Count(INIT, steps, LostInsert(k)) == 0
    ensures var s := Final(INIT, steps).sync;
      k in s.keys ==> Stored(s.inbox, k) || exists w :: w in s.workers && Inserts(s.workers[w], k)
  {
    CacheRun(INIT, steps, k);
  }

  /** Nothing is lost: at every moment of every run each accepted deliverable message whose inbox
      insert was not lost waits to be published, or is dead-lettered, or waits in its topic log to be
      handled, or is in its recipient's inbox. */
  lemma NothingIsLost(steps: seq<PipeStep>, i: nat)
    requires IsRun(INIT, steps) && i < |Final(INIT, steps).out.rows|
    requires Deliverable(Final(INIT, steps).out.rows[i])
    requires Count(INIT, steps, LostInsert(DeliveryKey(Final(INIT, steps).out.rows[i]))) == 0
    ensures HasPlace(Final(INIT, steps), i)
  {
    var p := Final(INIT, steps);
    PipeRunKeepsInv(INIT, steps);
    CacheRun(INIT, steps, DeliveryKey(p.out.rows[i]));
    StoredIsDelivered(p, i);
  }

  /** A row all of whose copies are explained by its status is in at most one place. */
  lemma PlacesExclude(p: Pipe, i: nat)
    requires PipeInv(p) && i < |p.out.rows| && Deliverable(p.out.rows[i])
    requires CopyBalance(p.out, i) == 0
    ensures AsInt(AwaitsPublishing(p, i)) + AsInt(IsDeadLettered(p, i)) + AsInt(AwaitsHandling(p, i)) + AsInt(IsDelivered(p, i)) <= 1
  {
    StoredIsDelivered(p, i);
    NotMarkingSettled(p.out, i);
    assert TopicRecord(p.out.rows[i]) in p.out.log ==> Copies(p.out.log, TopicRecord(p.out.rows[i])) >= 1;
  }

  lemma NotMarkingSettled(s: State, i: nat)
    requires Inv(s) && i < |s.rows|
    ensures RowInPhase(s, i, ToMark) ==> s.rows[i].status.Pending?
  {
  }

  /** If moreover no send of the row lost its mark, it is in exactly one of the four places. */
  lemma InExactlyOnePlace(steps: seq<PipeStep>, i: nat)
    requires IsRun(INIT, steps) && i < |Final(INIT, steps).out.rows|
    requires Deliverable(Final(INIT, steps).out.rows[i])
    requires Count(INIT, steps, LostInsert(DeliveryKey(Final(INIT, steps).out.rows[i]))) == 0
    requires OutCount(INIT, steps, OutboxRuns.LostMark(i)) == 0
    ensures var p := Final(INIT, steps);
      AsInt(AwaitsPublishing(p, i)) + AsInt(IsDeadLettered(p, i)) + AsInt(AwaitsHandling(p, i)) + AsInt(IsDelivered(p, i)) == 1
  {
    NothingIsLost(steps, i);
    PipeRunKeepsInv(INIT, steps);
    OutPart(INIT, steps, OutboxRuns.LostMark(i));
    OutboxRuns.RunAccount(EMPTY, OutSteps(steps), i);
    PlacesExclude(Final(INIT, steps), i);
  }

  /** A message waiting in its log with its key free is stored by the next worker to handle it. */
  lemma WaitingCanBeStored(p: Pipe, i: nat, w: nat, now: int)
    requires PipeInv(p) && i < |p.out.rows| && Deliverable(p.out.rows[i])
    requires TopicRecord(p.out.rows[i]) in p.out.log && DeliveryKey(p.out.rows[i]) !in p.sync.keys
    requires w !in p.sync.workers
    ensures var steps := [InStep(Take(w, TopicRecord(p.out.rows[i]))), InStep(Dedup(w, true)), InStep(Insert(w, true, now))];
      IsRun(p, steps) && Stored(Final(p, steps).sync.inbox, DeliveryKey(p.out.rows[i]))
  {
    var rec, k := TopicRecord(p.out.rows[i]), DeliveryKey(p.out.rows[i]);
    assert Storable(rec) by { assert RowOk(p.out.rows[i]); }
    ThreeSteps(p, InStep(Take(w, rec)), InStep(Dedup(w, true)), InStep(Insert(w, true, now)));
    UpsertStores(p.sync.inbox, RowFor(rec, k.user, now));
  }

  lemma FirstStep(p: Pipe, a: PipeStep, rest: seq<PipeStep>)
    requires PipeEnabled(p, a) && IsRun(PipeApply(p, a), rest)
    ensures IsRun(p, [a] + rest) && Final(p, [a] + rest) == Final(PipeApply(p, a), rest)
  {
    assert ([a] + rest)[1..] == rest;
  }

  lemma ThreeSteps(p: Pipe, a: PipeStep, b: PipeStep, c: PipeStep)
    requires PipeEnabled(p, a) && PipeEnabled(PipeApply(p, a), b) && PipeEnabled(PipeApply(PipeApply(p, a), b), c)
    ensures IsRun(p, [a, b, c]) && Final(p, [a, b, c]) == PipeApply(PipeApply(PipeApply(p, a), b), c)
  {
    var q := PipeApply(p, a);
    FirstStep(PipeApply(q, b), c, []);
    FirstStep(q, b, [c]);
    FirstStep(p, a, [b, c]);
    assert [c] + [] == [c] && [b] + [c] == [b, c] && [a] + [b, c] == [a, b, c];
  }

  /** The condition is exact: an accepted message that is not deliverable, such as a group chat
      without a recipient or any signaling message, never reaches an inbox in any run. */
  lemma UndeliverableIsNeverStored(steps: seq<PipeStep>, i: nat)
    requires IsRun(INIT, steps) && i < |Final(INIT, steps).out.rows|
    requires !Deliverable(Final(INIT, steps).out.rows[i])
    ensures forall j :: 0 <= j < |Final(INIT, steps).sync.inbox| ==>
      Final(INIT, steps).sync.inbox[j].messageId != Final(INIT, steps).out.rows[i].messageId
  {
    var p := Final(INIT, steps);
    PipeRunKeepsInv(INIT, steps);
    forall j | 0 <= j < |p.sync.inbox|
      ensures p.sync.inbox[j].messageId != p.out.rows[i].messageId
    {
      var i' := InboxRowHasSource(p, j);
    }
  }

  /** The key is held, but nothing is stored under it and no worker will store it. */
  ghost predicate IsStranded(s: SyncState, k: Key) {
    && k in s.keys
    && !Stored(s.inbox, k)
    && forall w :: w in s.workers ==> !Inserts(s.workers[w], k)
  }

  lemma StrandedStep(log: seq<Record>, s: SyncState, st: SyncStep, k: Key)
    requires SyncEnabled(log, s, st) && IsStranded(s, k) && st != Expire(k)
    ensures IsStranded(SyncApply(log, s, st), k)
  {
    if st.Insert? && st.ok && Storable(s.workers[st.w].rec) {
      UpsertStores(s.inbox, RowFor(s.workers[st.w].rec, s.workers[st.w].user, st.now));
    }
  }

  /** What a lost insert costs: the dedup key was taken first, so until it expires every redelivery is
      skipped and the message stays out of the inbox, whatever else happens. */
  lemma {:induction false} StrandedUntilExpiry(p: Pipe, steps: seq<PipeStep>, k: Key)
    requires IsRun(p, steps) && IsStranded(p.sync, k) && Count(p, steps, Expired(k)) == 0
    ensures IsStranded(Final(p, steps).sync, k)
    decreases |steps|
  {
    if steps != [] {
      if steps[0].InStep? {
        StrandedStep(p.out.log, p.sync, steps[0].i, k);
      }
      StrandedUntilExpiry(PipeApply(p, steps[0]), steps[1..], k);
    }
  }

  lemma LostInsertStrands(log: seq<Record>, s: SyncState, st: SyncStep, k: Key)
    requires SyncEnabled(log, s, st) && LosesInsert(s, st, k)
    requires k in s.keys && !Stored(s.inbox, k)
    requires forall w :: w in s.workers && w != st.w ==> !Inserts(s.workers[w], k)
    ensures IsStranded(SyncApply(log, s, st), k)
  {
  }

  /** It takes one failed insert: a message waiting in its log with its key free and no worker at it is
      stranded by the next worker whose insert fails. */
  lemma FailedInsertStrands(p: Pipe, i: nat, w: nat, now: int)
    requires PipeInv(p) && i < |p.out.rows| && Deliverable(p.out.rows[i])
    requires TopicRecord(p.out.rows[i]) in p.out.log && !Stored(p.sync.inbox, DeliveryKey(p.out.rows[i]))
    requires DeliveryKey(p.out.rows[i]) !in p.sync.keys && w !in p.sync.workers
    requires Inserters(p.sync.workers, DeliveryKey(p.out.rows[i])) == {}
    ensures var steps := [InStep(Take(w, TopicRecord(p.out.rows[i]))), InStep(Dedup(w, true)), InStep(Insert(w, false, now))];
      IsRun(p, steps) && IsStranded(Final(p, steps).sync, DeliveryKey(p.out.rows[i]))
  {
    var rec, k := TopicRecord(p.out.rows[i]), DeliveryKey(p.out.rows[i]);
    ThreeSteps(p, InStep(Take(w, rec)), InStep(Dedup(w, true)), InStep(Insert(w, false, now)));
    var q := PipeApply(PipeApply(p, InStep(Take(w, rec))), InStep(Dedup(w, true)));
    forall v | v in q.sync.workers && v != w
      ensures !Inserts(q.sync.workers[v], k)
    {
      assert v !in Inserters(p.sync.workers, k);
    }
    LostInsertStrands(q.out.log, q.sync, Insert(w, false, now), k);
  }

  // What happened in the run decides what is stored.

  lemma {:induction false} InsertRun(p: Pipe, steps: seq<PipeStep>, k: Key)
    requires IsRun(p, steps)
    ensures InsertBalance(Final(p, steps).sync, k) ==
      InsertBalance(p.sync, k) + Count(p, steps, Expired(k)) - Count(p, steps, LostInsert(k)) - Count(p, steps, MadeInsert(k))
    ensures Stored(Final(p, steps).sync.inbox, k) <==> Stored(p.sync.inbox, k) || Count(p, steps, MadeInsert(k)) > 0
    decreases |steps|
  {
    if steps != [] {
      if steps[0].InStep? {
        InsertBalanceStep(p.out.log, p.sync, steps[0].i, k);
        StoredStep(p.out.log, p.sync, steps[0].i, k);
      }
      InsertRun(PipeApply(p, steps[0]), steps[1..], k);
    }
  }

  /** Exact accounting of inserts over every run: each time the key is taken an insert is begun, which is
      made, lost or still to come, and the key was taken once for each expiration and once more if it is
      live. So a message is in the inbox if and only if fewer inserts were lost or are to come than that. */
  lemma StoredIff(steps: seq<PipeStep>, k: Key)
    requires IsRun(INIT, steps)
    ensures var s := Final(INIT, steps).sync;
      && Count(INIT, steps, MadeInsert(k)) + Count(INIT, steps, LostInsert(k)) + |Inserters(s.workers, k)| ==
         Count(INIT, steps, Expired(k)) + AsInt(k in s.keys)
      && (Stored(s.inbox, k) <==>
          Count(INIT, steps, LostInsert(k)) + |Inserters(s.workers, k)| < Count(INIT, steps, Expired(k)) + AsInt(k in s.keys))
  {
    InsertRun(INIT, steps, k);
    assert Inserters(INIT.sync.workers, k) == {};
  }

  /** Exactly when a message has no place, over every run, by what happened to its key: it was sent, its key
      is live, nobody is inserting, and all the inserts ever begun under the key were lost, which are one
      more than its expirations. */
  lemma LostIffEveryInsertLost(steps: seq<PipeStep>, i: nat)
    requires IsRun(INIT, steps) && i < |Final(INIT, steps).out.rows|
    requires Deliverable(Final(INIT, steps).out.rows[i])
    ensures var p := Final(INIT, steps); var k := DeliveryKey(p.out.rows[i]);
      !HasPlace(p, i) <==>
        && (p.out.rows[i].status.Published? || RowInPhase(p.out, i, ToMark))
        && k in p.sync.keys
        && Inserters(p.sync.workers, k) == {}
        && Count(INIT, steps, LostInsert(k)) == Count(INIT, steps, Expired(k)) + 1
  {
    var p := Final(INIT, steps);
    PipeRunKeepsInv(INIT, steps);
    StoredIsDelivered(p, i);
    NotMarkingSettled(p.out, i);
    StoredIff(steps, DeliveryKey(p.out.rows[i]));
    InsertersEmpty(p.sync.workers, DeliveryKey(p.out.rows[i]));
  }

  lemma InsertersEmpty(workers: map<nat, Worker>, k: Key)
    ensures Inserters(workers, k) == {} <==> !exists w :: w in workers && Inserts(workers[w], k)
  {
    forall w | w in workers
      ensures w in Inserters(workers, k) <==> Inserts(workers[w], k)
    {
    }
  }

  lemma SignalingIsNeverDeliverable(r: Row)
    requires RowOk(r) && r.payload.body.Signaling?
    ensures IsConsumed(r.topic) && Recipient(r.payload, r.topic) == Some(r.payload.body.signaling.value.recipientId)
    ensures !Deliverable(r)
  {
    SignalingHasNoSender(r.payload);
    RouteThenExtract(r.payload);
  }

  // Pushes.

  lemma {:induction false} PushRun(p: Pipe, steps: seq<PipeStep>, k: Key)
    requires IsRun(p, steps)
    ensures PushBalance(Final(p, steps).sync, k) ==
      PushBalance(p.sync, k) + Count(p, steps, Expired(k)) - Count(p, steps, LostPush(k))
    decreases |steps|
  {
    if steps != [] {
      if steps[0].InStep? {
        PushBalanceStep(p.out.log, p.sync, steps[0].i, k);
      }
      PushRun(PipeApply(p, steps[0]), steps[1..], k);
    }
  }

  /** Exact accounting of pushes over every run: those made, still held by a worker or lost are
      together the expirations of the key plus one if it is live. So pushes of a message to a user
      are at most one more than the expirations of its key, and each has its row in the inbox. */
  lemma PushesAreBounded(steps: seq<PipeStep>, k: Key)
    requires IsRun(INIT, steps)
    ensures var s := Final(INIT, steps).sync;
      && PushesOf(s.pushes, k) + |Holders(s.workers, k)| + Count(INIT, steps, LostPush(k)) ==
         Count(INIT, steps, Expired(k)) + AsInt(k in s.keys)
      && PushesOf(s.pushes, k) <= 1 + Count(INIT, steps, Expired(k))
      && (forall i :: 0 <= i < |s.pushes| ==> Stored(s.inbox, Key(s.pushes[i].user, s.pushes[i].message.messageId)))
  {
    PushRun(INIT, steps, k);
    assert Holders(INIT.sync.workers, k) == {};
    PipeRunKeepsInv(INIT, steps);
  }
}
