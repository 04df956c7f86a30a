/** The sync service as a step system (server/internal/sync/handler.go, dedup.go, service.go and
    server/internal/inbox/store.go). Any number of workers consume records of the topic logs, in any
    order and any number of times; each takes the dedup key, inserts into the inbox and pushes, one
    call a step; a call may fail, a worker may die, and a dedup key may expire at any moment. */
module Sync {
  import opened Wrappers
  import opened Hex
  import opened Messages
  import opened Topics
  import opened Router
  import opened Outbox

  /** What identifies a delivery, in the dedup cache and in the inbox. */
  datatype Key = Key(user: Bytes, messageId: Bytes)

  datatype InboxRow = InboxRow(userId: Bytes, messageId: Bytes, conversationId: Bytes, senderId: Bytes,
                               payload: AppMessage, delivered: bool, createdAt: int)

  datatype Pushed = Pushed(user: Bytes, message: AppMessage)

  /** A worker, by the call it makes next. */
  datatype Worker =
    | Received(rec: Record)
    | Storing(rec: Record, user: Bytes)
    | Pushing(rec: Record, user: Bytes)

  datatype SyncState = SyncState(keys: set<Key>, inbox: seq<InboxRow>, pushes: seq<Pushed>, workers: map<nat, Worker>)

  datatype SyncStep =
    | Take(w: nat, rec: Record)
    | Dedup(w: nat, ok: bool)
    | Insert(w: nat, ok: bool, now: int)
    | Push(w: nat, ok: bool)
    | Die(w: nat)
    | Expire(key: Key)

  const QUIET := SyncState({}, [], [], map[])

  /** The Redis key of a delivery. */
  function DedupKey(k: Key): string {
    "dedup:" + (Encode(k.user) + ":" + Encode(k.messageId))
  }

  predicate ColonAt(s: string, n: nat) {
    n < |s| && s[n] == ':' && forall i :: 0 <= i < n ==> s[i] != ':'
  }

  lemma ColonAfterHex(b: Bytes, rest: string)
    ensures ColonAt(Encode(b) + ":" + rest, |Encode(b)|)
  {
    EncodedIsCanonical(b);
    assert forall i :: 0 <= i < |Encode(b)| ==> IsLowerHex(Encode(b)[i]);
  }

  lemma ColonUnique(s: string, m: nat, n: nat)
    requires ColonAt(s, m) && ColonAt(s, n)
    ensures m == n
  {
  }

  /** Distinct deliveries never share a Redis key. */
  lemma DedupKeyInjective(a: Key, b: Key)
    requires DedupKey(a) == DedupKey(b)
    ensures a == b
  {
    var s := Encode(a.user) + ":" + Encode(a.messageId);
    assert s == DedupKey(a)[6..] == DedupKey(b)[6..] == Encode(b.user) + ":" + Encode(b.messageId);
    ColonAfterHex(a.user, Encode(a.messageId));
    ColonAfterHex(b.user, Encode(b.messageId));
    var n := |Encode(a.user)|;
    ColonUnique(s, n, |Encode(b.user)|);
    assert Encode(a.user) == s[..n] == Encode(b.user);
    assert Encode(a.messageId) == s[n + 1..] == Encode(b.messageId);
    EncodeInjective(a.user, b.user);
    EncodeInjective(a.messageId, b.messageId);
  }

  lemma DedupKeyIs(user: Bytes, messageId: Bytes)
    ensures DedupKey(Key(user, messageId)) == "dedup:" + Encode(user) + ":" + Encode(messageId)
  {
  }

  function KeyOf(rec: Record, user: Bytes): Key {
    Key(user, rec.value.messageId)
  }

  function RowFor(rec: Record, user: Bytes, now: int): InboxRow {
    InboxRow(user, rec.value.messageId, Conversation(rec.value, rec.topic), Sender(rec.value), rec.value, false, now)
  }

  predicate IsRowOf(row: InboxRow, k: Key) {
    row.userId == k.user && row.messageId == k.messageId
  }

  predicate Stored(inbox: seq<InboxRow>, k: Key) {
    exists i :: 0 <= i < |inbox| && IsRowOf(inbox[i], k)
  }

  /** INSERT ... ON CONFLICT (user_id, message_id) DO NOTHING. */
  function Upsert(inbox: seq<InboxRow>, row: InboxRow): seq<InboxRow> {
    if Stored(inbox, Key(row.userId, row.messageId)) then inbox else inbox + [row]
  }

  /** The NOT NULL columns that an insert fills from message fields are there. */
  predicate Storable(rec: Record) {
    Sender(rec.value) != [] && rec.value.messageId != []
  }

  ghost predicate SyncEnabled(log: seq<Record>, s: SyncState, st: SyncStep) {
    match st
    case Take(w, rec) => w !in s.workers && rec in log && IsConsumed(rec.topic)
    case Dedup(w, _) => w in s.workers && s.workers[w].Received?
    case Insert(w, _, _) => w in s.workers && s.workers[w].Storing?
    case Push(w, _) => w in s.workers && s.workers[w].Pushing?
    case Die(w) => w in s.workers
    case Expire(_) => true
  }

  function Finish(s: SyncState, w: nat): SyncState {
    s.(workers := s.workers - {w})
  }

  ghost function SyncApply(log: seq<Record>, s: SyncState, st: SyncStep): SyncState
    requires SyncEnabled(log, s, st)
  {
    match st
    case Take(w, rec) => s.(workers := s.workers[w := Received(rec)])
    case Dedup(w, ok) =>
      var rec := s.workers[w].rec;
      var recipient := Recipient(rec.value, rec.topic);
      if recipient.None? || !ok then Finish(s, w)
      else
        var k := KeyOf(rec, recipient.value);
        if k in s.keys then Finish(s, w)
        else s.(keys := s.keys + {k}, workers := s.workers[w := Storing(rec, recipient.value)])
    case Insert(w, ok, now) =>
      var rec, user := s.workers[w].rec, s.workers[w].user;
      if ok && Storable(rec) then
        s.(inbox := Upsert(s.inbox, RowFor(rec, user, now)), workers := s.workers[w := Pushing(rec, user)])
      else Finish(s, w)
    case Push(w, ok) =>
      var rec, user := s.workers[w].rec, s.workers[w].user;
      Finish(if ok then s.(pushes := s.pushes + [Pushed(user, rec.value)]) else s, w)
    case Die(w) => Finish(s, w)
    case Expire(k) => s.(keys := s.keys - {k})
  }

  // The invariant.

  /** The record is one the service consumes, and `user` is the recipient it names. */
  predicate Addressed(log: seq<Record>, rec: Record, user: Bytes) {
    rec in log && IsConsumed(rec.topic) && Recipient(rec.value, rec.topic) == Some(user)
  }

  ghost predicate WorkersOk(log: seq<Record>, s: SyncState) {
    forall w :: w in s.workers ==>
      && s.workers[w].rec in log
      && IsConsumed(s.workers[w].rec.topic)
      && (!s.workers[w].Received? ==> Addressed(log, s.workers[w].rec, s.workers[w].user))
      && (s.workers[w].Pushing? ==> Stored(s.inbox, KeyOf(s.workers[w].rec, s.workers[w].user)))
  }

  ghost predicate RowTraced(log: seq<Record>, row: InboxRow) {
    exists rec :: Addressed(log, rec, row.userId) && Storable(rec) && row == RowFor(rec, row.userId, row.createdAt)
  }

  ghost predicate InboxOk(log: seq<Record>, inbox: seq<InboxRow>) {
    && (forall i :: 0 <= i < |inbox| ==> RowTraced(log, inbox[i]))
    && (forall i, j :: 0 <= i < j < |inbox| ==> inbox[i].userId != inbox[j].userId || inbox[i].messageId != inbox[j].messageId)
  }

  ghost predicate PushesOk(s: SyncState) {
    forall i :: 0 <= i < |s.pushes| ==> Stored(s.inbox, Key(s.pushes[i].user, s.pushes[i].message.messageId))
  }

  /** What was pushed is a consumed message, to the recipient it names. */
  ghost predicate PushTraced(log: seq<Record>, p: Pushed) {
    exists rec :: Addressed(log, rec, p.user) && p.message == rec.value
  }

  ghost predicate SyncInv(log: seq<Record>, s: SyncState) {
    && WorkersOk(log, s) && InboxOk(log, s.inbox) && PushesOk(s)
    && forall p :: p in s.pushes ==> PushTraced(log, p)
  }

  lemma PushTracedMonotone(a: seq<Record>, b: seq<Record>, p: Pushed)
    requires PushTraced(a, p) && a <= b
    ensures PushTraced(b, p)
  {
    var rec :| Addressed(a, rec, p.user) && p.message == rec.value;
    assert Addressed(b, rec, p.user);
  }

  lemma StoredMonotone(a: seq<InboxRow>, b: seq<InboxRow>, k: Key)
    requires a <= b && Stored(a, k)
    ensures Stored(b, k)
  {
    var i :| 0 <= i < |a| && IsRowOf(a[i], k);
    assert IsRowOf(b[i], k);
  }

  lemma UpsertStores(inbox: seq<InboxRow>, row: InboxRow)
    ensures inbox <= Upsert(inbox, row)
    ensures Stored(Upsert(inbox, row), Key(row.userId, row.messageId))
    ensures forall k :: k != Key(row.userId, row.messageId) ==> (Stored(Upsert(inbox, row), k) <==> Stored(inbox, k))
  {
    var k, after := Key(row.userId, row.messageId), Upsert(inbox, row);
    if !Stored(inbox, k) {
      assert IsRowOf(after[|inbox|], k);
    }
    forall k' | k' != k
      ensures Stored(after, k') <==> Stored(inbox, k')
    {
      if Stored(inbox, k') {
        StoredMonotone(inbox, after, k');
      }
    }
  }

  lemma UpsertOk(log: seq<Record>, inbox: seq<InboxRow>, rec: Record, user: Bytes, now: int)
    requires InboxOk(log, inbox) && Addressed(log, rec, user) && Storable(rec)
    ensures InboxOk(log, Upsert(inbox, RowFor(rec, user, now)))
  {
    var row := RowFor(rec, user, now);
    assert RowTraced(log, row);
    var after := Upsert(inbox, row);
    if after != inbox {
      forall i | 0 <= i < |inbox|
        ensures inbox[i].userId != row.userId || inbox[i].messageId != row.messageId
      {
        assert !IsRowOf(inbox[i], Key(row.userId, row.messageId));
      }
    }
  }

  /** The inbox only grows: a stored row is never changed or removed. */
  lemma InboxStep(log: seq<Record>, s: SyncState, st: SyncStep)
    requires SyncInv(log, s) && SyncEnabled(log, s, st)
    ensures s.inbox <= SyncApply(log, s, st).inbox
    ensures InboxOk(log, SyncApply(log, s, st).inbox)
  {
    if st.Insert? {
      var wk := s.workers[st.w];
      if st.ok && Storable(wk.rec) {
        UpsertStores(s.inbox, RowFor(wk.rec, wk.user, st.now));
        UpsertOk(log, s.inbox, wk.rec, wk.user, st.now);
      }
    }
  }

  lemma SyncInvStep(log: seq<Record>, s: SyncState, st: SyncStep)
    requires SyncInv(log, s) && SyncEnabled(log, s, st)
    ensures SyncInv(log, SyncApply(log, s, st))
    ensures s.inbox <= SyncApply(log, s, st).inbox
  {
    var t := SyncApply(log, s, st);
    InboxStep(log, s, st);
    forall k | Stored(s.inbox, k)
      ensures Stored(t.inbox, k)
    {
      StoredMonotone(s.inbox, t.inbox, k);
    }
    if st.Insert? && st.w in t.workers {
      var wk := s.workers[st.w];
      UpsertStores(s.inbox, RowFor(wk.rec, wk.user, st.now));
    }
    PushTracedStep(log, s, st);
  }

  lemma PushTracedStep(log: seq<Record>, s: SyncState, st: SyncStep)
    requires SyncInv(log, s) && SyncEnabled(log, s, st)
    ensures forall p :: p in SyncApply(log, s, st).pushes ==> PushTraced(log, p)
  {
    if st.Push? {
      assert Addressed(log, s.workers[st.w].rec, s.workers[st.w].user);
    }
  }

  lemma RowTracedMonotone(a: seq<Record>, b: seq<Record>, row: InboxRow)
    requires RowTraced(a, row) && a <= b
    ensures RowTraced(b, row)
  {
    var rec :| Addressed(a, rec, row.userId) && Storable(rec) && row == RowFor(rec, row.userId, row.createdAt);
    assert Addressed(b, rec, row.userId);
  }

  /** Growing logs keep the invariant. */
  lemma SyncInvMonotone(a: seq<Record>, b: seq<Record>, s: SyncState)
    requires SyncInv(a, s) && a <= b
    ensures SyncInv(b, s)
  {
    forall i | 0 <= i < |s.inbox|
      ensures RowTraced(b, s.inbox[i])
    {
      RowTracedMonotone(a, b, s.inbox[i]);
    }
    forall p | p in s.pushes
      ensures PushTraced(b, p)
    {
      PushTracedMonotone(a, b, p);
    }
  }

  // The dedup cache agrees with the table it speeds up.

  predicate Inserts(wk: Worker, k: Key) {
    wk.Storing? && KeyOf(wk.rec, wk.user) == k
  }

  predicate Holds(wk: Worker, k: Key) {
    !wk.Received? && KeyOf(wk.rec, wk.user) == k
  }

  /** A live key has its row, or a worker is about to insert it. */
  ghost predicate CacheOk(s: SyncState, k: Key) {
    k in s.keys ==> Stored(s.inbox, k) || exists w :: w in s.workers && Inserts(s.workers[w], k)
  }

  /** The insert for `k` fails, or its worker dies first. */
  predicate LosesInsert(s: SyncState, st: SyncStep, k: Key) {
    match st
    case Insert(w, ok, _) => w in s.workers && Inserts(s.workers[w], k) && !(ok && Storable(s.workers[w].rec))
    case Die(w) => w in s.workers && Inserts(s.workers[w], k)
    case _ => false
  }

  lemma CacheStep(log: seq<Record>, s: SyncState, st: SyncStep, k: Key)
    requires SyncInv(log, s) && SyncEnabled(log, s, st)
    requires CacheOk(s, k) && !LosesInsert(s, st, k)
    ensures CacheOk(SyncApply(log, s, st), k)
  {
    var t := SyncApply(log, s, st);
    InboxStep(log, s, st);
    if Stored(s.inbox, k) {
      StoredMonotone(s.inbox, t.inbox, k);
    } else if k in t.keys {
      if k in s.keys {
        var w :| w in s.workers && Inserts(s.workers[w], k);
        if st.Insert? && st.w == w {
          UpsertStores(s.inbox, RowFor(s.workers[w].rec, s.workers[w].user, st.now));
        } else {
          assert w in t.workers && Inserts(t.workers[w], k);
        }
      } else {
        assert Inserts(t.workers[st.w], k);
      }
    }
  }

  // Counting pushes.

  function PushesOf(pushes: seq<Pushed>, k: Key): nat {
    if pushes == [] then 0
    else
      var p := pushes[|pushes| - 1];
      PushesOf(pushes[..|pushes| - 1], k) + if Key(p.user, p.message.messageId) == k then 1 else 0
  }

  /** The workers a test picks out. */
  ghost function Matching(workers: map<nat, Worker>, test: Worker -> bool): set<nat> {
    set w | w in workers && test(workers[w])
  }

  lemma MatchingUpdate(workers: map<nat, Worker>, w: nat, wk: Worker, test: Worker -> bool)
    ensures |Matching(workers[w := wk], test)| == |Matching(workers - {w}, test)| + AsInt(test(wk))
  {
    var rest := Matching(workers - {w}, test);
    assert Matching(workers[w := wk], test) == if test(wk) then rest + {w} else rest;
  }

  lemma MatchingRemove(workers: map<nat, Worker>, w: nat, test: Worker -> bool)
    ensures |Matching(workers - {w}, test)| == |Matching(workers, test)| - AsInt(w in workers && test(workers[w]))
  {
    if w in workers {
      MatchingUpdate(workers, w, workers[w], test);
      assert workers[w := workers[w]] == workers;
    } else {
      assert workers - {w} == workers;
    }
  }

  function HoldsKey(k: Key): Worker -> bool { wk => Holds(wk, k) }
  function InsertsKey(k: Key): Worker -> bool { wk => Inserts(wk, k) }

  /** The workers that took the key and have not finished. */
  ghost function Holders(workers: map<nat, Worker>, k: Key): set<nat> {
    Matching(workers, HoldsKey(k))
  }

  /** The workers about to insert under the key. */
  ghost function Inserters(workers: map<nat, Worker>, k: Key): set<nat> {
    Matching(workers, InsertsKey(k))
  }

  /** Pushes made or still to be decided, less the live key that stands for one of them. */
  ghost function PushBalance(s: SyncState, k: Key): int {
    PushesOf(s.pushes, k) + |Holders(s.workers, k)| - AsInt(k in s.keys)
  }

  predicate Expires(s: SyncState, st: SyncStep, k: Key) {
    st == Expire(k) && k in s.keys
  }

  /** A worker that took the key ends without pushing. */
  predicate LosesPush(s: SyncState, st: SyncStep, k: Key) {
    match st
    case Insert(w, ok, _) => w in s.workers && Holds(s.workers[w], k) && !(ok && Storable(s.workers[w].rec))
    case Push(w, ok) => w in s.workers && Holds(s.workers[w], k) && !ok
    case Die(w) => w in s.workers && Holds(s.workers[w], k)
    case _ => false
  }

  lemma PushBalanceStep(log: seq<Record>, s: SyncState, st: SyncStep, k: Key)
    requires SyncEnabled(log, s, st)
    ensures PushBalance(SyncApply(log, s, st), k) == PushBalance(s, k) + AsInt(Expires(s, st, k)) - AsInt(LosesPush(s, st, k))
  {
    var t := SyncApply(log, s, st);
    if !st.Expire? {
      MatchingRemove(s.workers, st.w, HoldsKey(k));
      if st.w in t.workers {
        MatchingUpdate(s.workers, st.w, t.workers[st.w], HoldsKey(k));
      }
      if t.pushes != s.pushes {
        assert t.pushes[..|s.pushes|] == s.pushes;
      }
    }
  }

  // Counting inserts.

  /** The insert for `k` goes through, or finds the row already there. */
  predicate MakesInsert(s: SyncState, st: SyncStep, k: Key) {
    st.Insert? && st.w in s.workers && Inserts(s.workers[st.w], k) && st.ok && Storable(s.workers[st.w].rec)
  }

  /** Inserts still to come, less the live key that stands for one that was begun. */
  ghost function InsertBalance(s: SyncState, k: Key): int {
    |Inserters(s.workers, k)| - AsInt(k in s.keys)
  }

  lemma InsertBalanceStep(log: seq<Record>, s: SyncState, st: SyncStep, k: Key)
    requires SyncEnabled(log, s, st)
    ensures InsertBalance(SyncApply(log, s, st), k) ==
      InsertBalance(s, k) + AsInt(Expires(s, st, k)) - AsInt(LosesInsert(s, st, k)) - AsInt(MakesInsert(s, st, k))
  {
    var t := SyncApply(log, s, st);
    if !st.Expire? {
      MatchingRemove(s.workers, st.w, InsertsKey(k));
      if st.w in t.workers {
        MatchingUpdate(s.workers, st.w, t.workers[st.w], InsertsKey(k));
      }
    }
  }

  lemma StoredStep(log: seq<Record>, s: SyncState, st: SyncStep, k: Key)
    requires SyncEnabled(log, s, st)
    ensures Stored(SyncApply(log, s, st).inbox, k) <==> Stored(s.inbox, k) || MakesInsert(s, st, k)
  {
    if st.Insert? && st.ok && Storable(s.workers[st.w].rec) {
      UpsertStores(s.inbox, RowFor(s.workers[st.w].rec, s.workers[st.w].user, st.now));
      assert Stored(s.inbox, k) ==> Stored(SyncApply(log, s, st).inbox, k) by {
        if Stored(s.inbox, k) {
          StoredMonotone(s.inbox, SyncApply(log, s, st).inbox, k);
        }
      }
    }
  }
}
