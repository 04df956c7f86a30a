/** The sync handler as an object (server/internal/sync/handler.go), and its dedup cache against a
    handler that has none. */
module Handler {
  import opened Wrappers
  import opened Hex
  import opened Messages
  import opened Router
  import opened Outbox
  import opened Sync
  import Pipeline

  /** The stores a handler works on. */
  datatype Stores = Stores(keys: set<Key>, inbox: seq<InboxRow>, pushes: seq<Pushed>)

  /** How the calls made for one record turn out; `pushOk` is false without a push client. */
  datatype Calls = Calls(dedupOk: bool, insertOk: bool, pushOk: bool, now: int)

  function Handled(s: Stores, rec: Record, c: Calls): Stores {
    var recipient := Recipient(rec.value, rec.topic);
    if recipient.None? || !c.dedupOk then s
    else
      var user := recipient.value;
      if KeyOf(rec, user) in s.keys then s
      else
        var taken := s.(keys := s.keys + {KeyOf(rec, user)});
        if !(c.insertOk && Storable(rec)) then taken
        else
          var stored := taken.(inbox := Upsert(s.inbox, RowFor(rec, user, c.now)));
          if c.pushOk then stored.(pushes := s.pushes + [Pushed(user, rec.value)]) else stored
  }

  /** The call returns no error: there is no recipient, or the key is taken, or the insert goes through. */
  predicate Succeeds(s: Stores, rec: Record, c: Calls) {
    || Recipient(rec.value, rec.topic).None?
    || (c.dedupOk && (KeyOf(rec, Recipient(rec.value, rec.topic).value) in s.keys || (c.insertOk && Storable(rec))))
  }

  class SyncHandler {
    var keys: set<Key>
    var inbox: seq<InboxRow>
    var pushes: seq<Pushed>

    constructor ()
      ensures keys == {} && inbox == [] && pushes == []
    {
      keys, inbox, pushes := {}, [], [];
    }

    /** SETNX: tests and takes the key at once. */
    method IsDuplicate(k: Key, redisOk: bool) returns (r: Result<bool>)
      modifies this`keys
      ensures r.Ok? == redisOk
      ensures r.Ok? ==> r.value == (k in old(keys)) && keys == old(keys) + {k}
      ensures r.Err? ==> keys == old(keys)
    {
      if !redisOk {
        return Err("dedup setnx");
      }
      r := Ok(k in keys);
      keys := keys + {k};
    }

    method InsertInbox(row: InboxRow, dbOk: bool) returns (ok: bool)
      modifies this`inbox
      ensures ok == (dbOk && row.senderId != [] && row.messageId != [])
      ensures inbox == if ok then Upsert(old(inbox), row) else old(inbox)
      ensures ok && (forall i :: 0 <= i < |old(inbox)| ==> old(inbox)[i].userId != row.userId || old(inbox)[i].messageId != row.messageId)
        ==> inbox == old(inbox) + [row]
      ensures (exists i :: 0 <= i < |old(inbox)| && old(inbox)[i].userId == row.userId && old(inbox)[i].messageId == row.messageId)
        ==> inbox == old(inbox)
    {
      ok := dbOk && row.senderId != [] && row.messageId != [];
      if ok {
        var conflict := false;
        for i := 0 to |inbox|
          invariant inbox == old(inbox)
          invariant conflict <==> Stored(inbox[..i], Key(row.userId, row.messageId))
        {
          conflict := conflict || (inbox[i].userId == row.userId && inbox[i].messageId == row.messageId);
          assert inbox[..i + 1] == inbox[..i] + [inbox[i]];
          StoredAppend(inbox[..i], inbox[i], Key(row.userId, row.messageId));
        }
        assert inbox[..|inbox|] == inbox;
        if !conflict {
          inbox := inbox + [row];
        }
      }
    }

    method Handle(rec: Record, c: Calls) returns (r: Result<()>)
      modifies this
      ensures Stores(keys, inbox, pushes) == Handled(Stores(old(keys), old(inbox), old(pushes)), rec, c)
      ensures r.Ok? <==> Succeeds(Stores(old(keys), old(inbox), old(pushes)), rec, c)
      ensures Recipient(rec.value, rec.topic).None? ==>
        r.Ok? && keys == old(keys) && inbox == old(inbox) && pushes == old(pushes)
      ensures r.Err? <==>
        Recipient(rec.value, rec.topic).Some? &&
        (!c.dedupOk || (KeyOf(rec, Recipient(rec.value, rec.topic).value) !in old(keys) && !(c.insertOk && Storable(rec))))
      ensures r.Err? ==> inbox == old(inbox) && pushes == old(pushes)
    {
      var recipient := Recipient(rec.value, rec.topic);
      if recipient.None? {
        return Ok(());
      }
      var user := recipient.value;
      var dup := IsDuplicate(KeyOf(rec, user), c.dedupOk);
      if dup.Err? {
        return Err("dedup check");
      }
      if dup.value {
        assert keys == old(keys);
        return Ok(());
      }
      var ok := InsertInbox(RowFor(rec, user, c.now), c.insertOk);
      if !ok {
        return Err("inbox insert");
      }
      if c.pushOk {
        pushes := pushes + [Pushed(user, rec.value)];
      }
      return Ok(());
    }
  }

  lemma StoredAppend(inbox: seq<InboxRow>, row: InboxRow, k: Key)
    ensures Stored(inbox + [row], k) <==> Stored(inbox, k) || IsRowOf(row, k)
  {
    if Stored(inbox, k) {
      StoredMonotone(inbox, inbox + [row], k);
    }
    if IsRowOf(row, k) {
      assert IsRowOf((inbox + [row])[|inbox|], k);
    }
  }

  /** When handling a record leaves its message in the inbox, whether or not it returns an error. */
  lemma WhenHandledIsStored(s: Stores, rec: Record, c: Calls, user: Bytes)
    requires Recipient(rec.value, rec.topic) == Some(user)
    ensures Stored(Handled(s, rec, c).inbox, KeyOf(rec, user)) <==>
      || Stored(s.inbox, KeyOf(rec, user))
      || (c.dedupOk && KeyOf(rec, user) !in s.keys && c.insertOk && Storable(rec))
  {
    UpsertStores(s.inbox, RowFor(rec, user, c.now));
  }

  /** A call without error, after which the message is marked as consumed, does not mean it is stored: it is
      exactly if it was stored before or its key was free. After an error it is exactly if it was before. */
  lemma WhenSuccessMeansStored(s: Stores, rec: Record, c: Calls, user: Bytes)
    requires Recipient(rec.value, rec.topic) == Some(user)
    ensures Succeeds(s, rec, c) ==>
      (Stored(Handled(s, rec, c).inbox, KeyOf(rec, user)) <==> Stored(s.inbox, KeyOf(rec, user)) || KeyOf(rec, user) !in s.keys)
    ensures !Succeeds(s, rec, c) ==>
      (Stored(Handled(s, rec, c).inbox, KeyOf(rec, user)) <==> Stored(s.inbox, KeyOf(rec, user)))
  {
    WhenHandledIsStored(s, rec, c, user);
  }

  predicate IsGroupOnly(msg: AppMessage) {
    msg.body.Chat? && msg.body.chat.Some? && msg.body.chat.value.groupId != [] && msg.body.chat.value.recipientId == []
  }

  /** A group chat that names no recipient is skipped: once published it is handled without error and without any
      effect, whatever the calls and the stores. */
  lemma GroupChatIsSkipped(steps: seq<Pipeline.PipeStep>, i: nat, s: Stores, c: Calls)
    requires Pipeline.IsRun(Pipeline.INIT, steps) && i < |Pipeline.Final(Pipeline.INIT, steps).out.rows|
    requires IsGroupOnly(Pipeline.Final(Pipeline.INIT, steps).out.rows[i].payload)
    ensures var rec := TopicRecord(Pipeline.Final(Pipeline.INIT, steps).out.rows[i]);
      Topics.IsConsumed(rec.topic) && Succeeds(s, rec, c) && Handled(s, rec, c) == s
  {
    Pipeline.PipeRunKeepsInv(Pipeline.INIT, steps);
    var r := Pipeline.Final(Pipeline.INIT, steps).out.rows[i];
    assert RowOk(r);
    RouteThenExtract(r.payload);
  }

  /** The calls of one `Handle` as steps of the sync service. */
  function HandleSteps(s: SyncState, w: nat, rec: Record, c: Calls): seq<SyncStep> {
    var recipient := Recipient(rec.value, rec.topic);
    [Take(w, rec), Dedup(w, c.dedupOk)] +
    if recipient.None? || !c.dedupOk || KeyOf(rec, recipient.value) in s.keys then []
    else if !(c.insertOk && Storable(rec)) then [Insert(w, c.insertOk, c.now)]
    else [Insert(w, true, c.now), Push(w, c.pushOk)]
  }

  function Ins(steps: seq<SyncStep>): seq<Pipeline.PipeStep> {
    if steps == [] then [] else [Pipeline.InStep(steps[0])] + Ins(steps[1..])
  }

  lemma InsFirst(p: Pipeline.Pipe, a: SyncStep, rest: seq<SyncStep>)
    requires SyncEnabled(p.out.log, p.sync, a)
    requires Pipeline.IsRun(p.(sync := SyncApply(p.out.log, p.sync, a)), Ins(rest))
    ensures Pipeline.IsRun(p, Ins([a] + rest))
    ensures Pipeline.Final(p, Ins([a] + rest)) == Pipeline.Final(p.(sync := SyncApply(p.out.log, p.sync, a)), Ins(rest))
  {
    assert ([a] + rest)[1..] == rest;
    Pipeline.FirstStep(p, Pipeline.InStep(a), Ins(rest));
  }

  /** Whatever `Handle` does is a run of the pipeline, by a worker that nothing interrupts. */
  lemma HandleIsRun(p: Pipeline.Pipe, w: nat, rec: Record, c: Calls)
    requires w !in p.sync.workers && rec in p.out.log && Topics.IsConsumed(rec.topic)
    ensures var t := Handled(Stores(p.sync.keys, p.sync.inbox, p.sync.pushes), rec, c);
      var steps := Ins(HandleSteps(p.sync, w, rec, c));
      && Pipeline.IsRun(p, steps)
      && Pipeline.Final(p, steps) == p.(sync := SyncState(t.keys, t.inbox, t.pushes, p.sync.workers))
  {
    var steps := HandleSteps(p.sync, w, rec, c);
    HandleTail(p.(sync := SyncApply(p.out.log, p.sync, Take(w, rec))), w, rec, c);
    InsFirst(p, Take(w, rec), steps[1..]);
    assert [Take(w, rec)] + steps[1..] == steps;
    assert p.sync.workers[w := Received(rec)] - {w} == p.sync.workers;
  }

  lemma HandleTail(p: Pipeline.Pipe, w: nat, rec: Record, c: Calls)
    requires w in p.sync.workers && p.sync.workers[w] == Received(rec)
    ensures var t := Handled(Stores(p.sync.keys, p.sync.inbox, p.sync.pushes), rec, c);
      var steps := Ins(HandleSteps(p.sync, w, rec, c)[1..]);
      && Pipeline.IsRun(p, steps)
      && Pipeline.Final(p, steps) == p.(sync := SyncState(t.keys, t.inbox, t.pushes, p.sync.workers - {w}))
  {
    var rest := HandleSteps(p.sync, w, rec, c)[2..];
    var q := p.(sync := SyncApply(p.out.log, p.sync, Dedup(w, c.dedupOk)));
    if rest != [] {
      HandleInsert(q, w, c);
    }
    InsFirst(p, Dedup(w, c.dedupOk), rest);
    assert [Dedup(w, c.dedupOk)] + rest == HandleSteps(p.sync, w, rec, c)[1..];
  }

  lemma HandleInsert(p: Pipeline.Pipe, w: nat, c: Calls)
    requires w in p.sync.workers && p.sync.workers[w].Storing?
    ensures var rec, user := p.sync.workers[w].rec, p.sync.workers[w].user;
      var ok := c.insertOk && Storable(rec);
      var steps := Ins(if ok then [Insert(w, true, c.now), Push(w, c.pushOk)] else [Insert(w, c.insertOk, c.now)]);
      && Pipeline.IsRun(p, steps)
      && Pipeline.Final(p, steps) == p.(sync := p.sync.(
           inbox := if ok then Upsert(p.sync.inbox, RowFor(rec, user, c.now)) else p.sync.inbox,
           pushes := if ok && c.pushOk then p.sync.pushes + [Pushed(user, rec.value)] else p.sync.pushes,
           workers := p.sync.workers - {w}))
  {
    var rec, user := p.sync.workers[w].rec, p.sync.workers[w].user;
    var q := p.(sync := SyncApply(p.out.log, p.sync, Insert(w, c.insertOk, c.now)));
    if c.insertOk && Storable(rec) {
      InsFirst(q, Push(w, c.pushOk), []);
      InsFirst(p, Insert(w, true, c.now), [Push(w, c.pushOk)]);
      assert q.sync.workers - {w} == p.sync.workers - {w};
    } else {
      InsFirst(p, Insert(w, c.insertOk, c.now), []);
    }
  }

  // The handler against one without a cache.

  datatype Delivery = Deliver(rec: Record, calls: Calls) | KeyExpires(key: Key)

  function Delivered(s: Stores, d: Delivery): Stores {
    match d
    case Deliver(rec, c) => Handled(s, rec, c)
    case KeyExpires(k) => s.(keys := s.keys - {k})
  }

  function Run(s: Stores, ds: seq<Delivery>): Stores
    decreases |ds|
  {
    if ds == [] then s
    else
      Run(Delivered(s, ds[0]), ds[1..])
  }

  /** A handler with no cache: it inserts every record that has a recipient, relying on the inbox's
      unique constraint alone. A record whose handling stops at a Redis error counts as not delivered. */
  function RunUncached(inbox: seq<InboxRow>, ds: seq<Delivery>): seq<InboxRow>
    decreases |ds|
  {
    if ds == [] then inbox
    else
      var next :=
        if ds[0].Deliver? && Recipient(ds[0].rec.value, ds[0].rec.topic).Some? && ds[0].calls.dedupOk
           && ds[0].calls.insertOk && Storable(ds[0].rec)
        then Upsert(inbox, RowFor(ds[0].rec, Recipient(ds[0].rec.value, ds[0].rec.topic).value, ds[0].calls.now))
        else inbox;
      RunUncached(next, ds[1..])
  }

  /** Handling the record reaches the inbox insert. */
  predicate Attempts(s: Stores, rec: Record, c: Calls) {
    && c.dedupOk
    && Recipient(rec.value, rec.topic).Some?
    && KeyOf(rec, Recipient(rec.value, rec.topic).value) !in s.keys
  }

  /** Every insert the handler attempts succeeds. */
  predicate NoInsertError(s: Stores, ds: seq<Delivery>)
    decreases |ds|
  {
    ds != [] ==>
      match ds[0]
      case Deliver(rec, c) =>
        && (Attempts(s, rec, c) ==> c.insertOk && Storable(rec))
        && NoInsertError(Handled(s, rec, c), ds[1..])
      case KeyExpires(k) => NoInsertError(s.(keys := s.keys - {k}), ds[1..])
  }

  ghost predicate KeysStored(s: Stores) {
    forall k :: k in s.keys ==> Stored(s.inbox, k)
  }

  lemma HandledKeepsKeysStored(s: Stores, rec: Record, c: Calls)
    requires KeysStored(s) && NoInsertError(s, [Deliver(rec, c)])
    ensures KeysStored(Handled(s, rec, c))
  {
    var recipient := Recipient(rec.value, rec.topic);
    if recipient.Some? {
      UpsertStores(s.inbox, RowFor(rec, recipient.value, c.now));
      var t := Handled(s, rec, c);
      forall k | k in t.keys
        ensures Stored(t.inbox, k)
      {
        if k in s.keys && t.inbox != s.inbox {
          StoredMonotone(s.inbox, t.inbox, k);
        }
      }
    }
  }

  /** The cache changes nothing but the work done: for any deliveries, with duplicates, in any order
      and with keys expiring at any point, if no attempted insert fails the inbox is that of a handler
      without the cache, and every live key has its row. */
  lemma {:induction false} CacheIsTransparent(s: Stores, ds: seq<Delivery>)
    requires KeysStored(s) && NoInsertError(s, ds)
    ensures Run(s, ds).inbox == RunUncached(s.inbox, ds)
    ensures KeysStored(Run(s, ds))
    decreases |ds|
  {
    if ds != [] {
      match ds[0]
      case Deliver(rec, c) =>
        HandledKeepsKeysStored(s, rec, c);
        CacheIsTransparent(Handled(s, rec, c), ds[1..]);
      case KeyExpires(k) =>
        CacheIsTransparent(s.(keys := s.keys - {k}), ds[1..]);
    }
  }

  /** The delivery is skipped for a live key that has no row, although its insert would go through. */
  predicate IsHidden(s: Stores, d: Delivery) {
    && d.Deliver?
    && Recipient(d.rec.value, d.rec.topic).Some?
    && d.calls.dedupOk && d.calls.insertOk && Storable(d.rec)
    && var k := KeyOf(d.rec, Recipient(d.rec.value, d.rec.topic).value);
       k in s.keys && !Stored(s.inbox, k)
  }

  predicate NothingHidden(s: Stores, ds: seq<Delivery>)
    decreases |ds|
  {
    ds != [] ==> !IsHidden(s, ds[0]) && NothingHidden(Delivered(s, ds[0]), ds[1..])
  }

  /** After the first `n` deliveries the inbox is that of a handler without the cache. */
  predicate SameInbox(s: Stores, ds: seq<Delivery>, n: nat)
    requires n <= |ds|
  {
    Run(s, ds[..n]).inbox == RunUncached(s.inbox, ds[..n])
  }

  lemma FirstDelivery(s: Stores, d: Delivery)
    ensures RunUncached(s.inbox, [d]) == Delivered(s, d).inbox <==> !IsHidden(s, d)
  {
    assert [d][1..] == [];
  }

  lemma SameInboxTail(s: Stores, ds: seq<Delivery>, n: nat)
    requires n < |ds| && !IsHidden(s, ds[0])
    ensures SameInbox(s, ds, n + 1) <==> SameInbox(Delivered(s, ds[0]), ds[1..], n)
  {
    assert ds[..n + 1][0] == ds[0] && ds[..n + 1][1..] == ds[1..][..n];
    assert [ds[0]][1..] == [];
    FirstDelivery(s, ds[0]);
  }

  /** The exact condition, for stores in any state: the inbox is that of a handler without the cache
      after each and every delivery if and only if none of them is hidden. */
  lemma {:induction false} TransparentIffNothingHidden(s: Stores, ds: seq<Delivery>)
    ensures (forall n :: 0 <= n <= |ds| ==> SameInbox(s, ds, n)) <==> NothingHidden(s, ds)
    decreases |ds|
  {
    assert ds[..0] == [];
    if ds != [] {
      var next := Delivered(s, ds[0]);
      if IsHidden(s, ds[0]) {
        FirstDelivery(s, ds[0]);
        assert ds[..1] == [ds[0]] && [ds[0]][1..] == [];
        assert Run(s, [ds[0]]) == Run(next, []);
        assert !SameInbox(s, ds, 1);
      } else {
        TransparentIffNothingHidden(next, ds[1..]);
        forall n | 0 <= n < |ds|
          ensures SameInbox(s, ds, n + 1) <==> SameInbox(next, ds[1..], n)
        {
          SameInboxTail(s, ds, n);
        }
        if NothingHidden(next, ds[1..]) {
          forall n | 0 <= n <= |ds|
            ensures SameInbox(s, ds, n)
          {
            if n > 0 {
              assert SameInbox(next, ds[1..], n - 1);
            }
          }
        } else {
          var n :| 0 <= n <= |ds[1..]| && !SameInbox(next, ds[1..], n);
          assert !SameInbox(s, ds, n + 1);
        }
      }
    }
  }

  /** Hidden deliveries do occur: after one failed insert a redelivery that an
      uncached handler would store is skipped, without an error. */
  lemma CacheHidesRedelivery(rec: Record, user: Bytes, c: Calls)
    requires Recipient(rec.value, rec.topic) == Some(user) && Storable(rec)
    requires c.dedupOk && c.insertOk
    ensures var ds := [Deliver(rec, c.(insertOk := false)), Deliver(rec, c)];
      && Succeeds(Handled(Stores({}, [], []), rec, c.(insertOk := false)), rec, c)
      && Run(Stores({}, [], []), ds).inbox == []
      && RunUncached([], ds) == [RowFor(rec, user, c.now)]
  {
    var ds := [Deliver(rec, c.(insertOk := false)), Deliver(rec, c)];
    var s := Handled(Stores({}, [], []), rec, c.(insertOk := false));
    assert ds[1..] == [ds[1]] && ds[1..][1..] == [];
    assert s.keys == {KeyOf(rec, user)} && s.inbox == [];
    assert Run(s, ds[1..]).inbox == [];
    assert RunUncached([], ds) == RunUncached([], [ds[1]]);
    assert Upsert([], RowFor(rec, user, c.now)) == [RowFor(rec, user, c.now)];
    assert RunUncached([], [ds[1]]) == RunUncached([RowFor(rec, user, c.now)], []) by { assert [ds[1]][1..] == []; }
  }
}
