/** The ties that a backfill misses rows by do occur: runs of the whole pipeline that leave any number of rows
    of one user at any times in the inbox. */
module ReachableTies {
  import opened Wrappers
  import opened Hex
  import opened Messages
  import opened Topics
  import opened Router
  import opened TimeQuery
  import opened Outbox
  import OutboxRuns
  import opened RelayService
  import opened Sync
  import opened Pipeline
  import opened Handler
  import Offline
  import OfflineTies

  /** The message id of the n-th chat. */
  function IdOf(n: nat): (id: Bytes)
    ensures |id| == n + 1
  {
    seq(n + 1, _ => 0)
  }

  function ChatTo(user: Bytes, sender: Bytes, n: nat): AppMessage {
    AppMessage(IdOf(n), 0, Chat(Some(ChatMessage([], sender, user, [], []))))
  }

  const ALL_WELL := Outcome(true, true, true, true, true)

  // One chat through the outbox.

  /** `n` chats have gone through the outbox. */
  ghost predicate SentOff(s: State, n: nat) {
    && s.relay.Idle? && |s.rows| == n
    && (forall i :: 0 <= i < n ==> s.rows[i].messageId == IdOf(i) && s.rows[i].status.Published?)
  }

  function RowOf(user: Bytes, sender: Bytes, n: nat): Row {
    Row(IdOf(n), UserTopic(user), user, ChatTo(user, sender, n), Pending, 0, 0)
  }

  lemma FetchesTheNew(rows: seq<Row>, r: Row)
    requires r.status.Pending? && forall i :: 0 <= i < |rows| ==> rows[i].status.Published?
    ensures IsFetch(rows + [r], DEFAULT_BATCH_SIZE, [Entry(|rows|, r)])
  {
    var all := rows + [r];
    assert all[|rows|] == r && forall i :: 0 <= i < |rows| ==> all[i] == rows[i];
    assert Entry(|rows|, all[|rows|]) in PendingEntries(all);
    assert PendingEntries(all) == {Entry(|rows|, r)};
  }

  lemma SendsOneOff(s: State, user: Bytes, sender: Bytes, n: nat) returns (steps: seq<Step>)
    requires SentOff(s, n) && user != []
    ensures OutboxRuns.IsRun(s, steps)
    ensures var t := OutboxRuns.Final(s, steps);
      SentOff(t, n + 1) && t.log == s.log + [TopicRecord(RowOf(user, sender, n))]
  {
    var r, msg := RowOf(user, sender, n), ChatTo(user, sender, n);
    assert Accepts(s.rows, Some(msg));
    OneStep(s, Dispatch(Some(msg), 0, true));
    var t := Apply(s, Dispatch(Some(msg), 0, true));
    assert t == s.(rows := s.rows + [r]);
    FetchesTheNew(s.rows, r);
    var batch, outcomes := [Entry(n, r)], [ALL_WELL];
    PollIsRun(t, DEFAULT_BATCH_SIZE, batch, outcomes);
    assert batch[1..] == [] && outcomes[1..] == [];
    assert ProcessBatch(t.rows, t.log, batch, outcomes) == ProcessEntry(t.rows, t.log, batch[0], ALL_WELL);
    var poll := [Fetch(DEFAULT_BATCH_SIZE, batch)] + BatchSteps(batch, outcomes);
    OutboxRuns.RunConcat(s, [Dispatch(Some(msg), 0, true)], poll);
    steps := [Dispatch(Some(msg), 0, true)] + poll;
  }

  // One chat through the sync service.

  /** The user's inbox holds `n` chats, the i-th stored at time `when(i)`. */
  ghost predicate TakenIn(s: SyncState, user: Bytes, when: nat -> int, n: nat) {
    && s.workers == map[] && |s.inbox| == n
    && (forall i :: 0 <= i < n ==> IsRowOf(s.inbox[i], Key(user, IdOf(i))) && s.inbox[i].createdAt == when(i) && !s.inbox[i].delivered)
    && (forall k :: k in s.keys ==> |k.messageId| <= n)
  }

  lemma TakesOneIn(p: Pipe, user: Bytes, sender: Bytes, when: nat -> int, n: nat) returns (steps: seq<PipeStep>)
    requires TakenIn(p.sync, user, when, n) && user != [] && sender != []
    requires TopicRecord(RowOf(user, sender, n)) in p.out.log
    ensures IsRun(p, steps)
    ensures Final(p, steps).out == p.out && TakenIn(Final(p, steps).sync, user, when, n + 1)
  {
    var rec, c := TopicRecord(RowOf(user, sender, n)), Calls(true, true, false, when(n));
    TopicKinds(user, DEAD_LETTER);
    HandleIsRun(p, 0, rec, c);
    steps := Ins(HandleSteps(p.sync, 0, rec, c));
    NotThereYet(p.sync.inbox, user, n);
    assert Recipient(rec.value, rec.topic) == Some(user);
  }

  lemma NotThereYet(inbox: seq<InboxRow>, user: Bytes, n: nat)
    requires |inbox| == n && forall i :: 0 <= i < n ==> IsRowOf(inbox[i], Key(user, IdOf(i)))
    ensures !Stored(inbox, Key(user, IdOf(n)))
  {
    forall i | 0 <= i < n
      ensures !IsRowOf(inbox[i], Key(user, IdOf(n)))
    {
      assert IsRowOf(inbox[i], Key(user, IdOf(i)));
      assert |IdOf(i)| != |IdOf(n)|;
    }
  }

  // Any number of chats.

  lemma {:induction false} RunConcat(p: Pipe, a: seq<PipeStep>, b: seq<PipeStep>)
    requires IsRun(p, a) && IsRun(Final(p, a), b)
    ensures IsRun(p, a + b) && Final(p, a + b) == Final(Final(p, a), b)
    decreases |a|
  {
    if a == [] {
      assert a + b == b;
    } else {
      RunConcat(PipeApply(p, a[0]), a[1..], b);
      assert (a + b)[1..] == a[1..] + b;
    }
  }

  /** For every user, sender and times there is a run that leaves one row for each time in the user's inbox. */
  lemma {:induction false} AnyInboxIsReachable(user: Bytes, sender: Bytes, when: nat -> int, n: nat) returns (steps: seq<PipeStep>)
    requires user != [] && sender != []
    ensures IsRun(INIT, steps)
    ensures SentOff(Final(INIT, steps).out, n) && TakenIn(Final(INIT, steps).sync, user, when, n)
  {
    steps := [];
    if n > 0 {
      steps := AnyInboxIsReachable(user, sender, when, n - 1);
      var p := Final(INIT, steps);
      var out := SendsOneOff(p.out, user, sender, n - 1);
      OutRunIsRun(p, out);
      var q := Final(p, Outs(out));
      var more := TakesOneIn(q, user, sender, when, n - 1);
      RunConcat(p, Outs(out), more);
      RunConcat(INIT, steps, Outs(out) + more);
      steps := steps + (Outs(out) + more);
    }
  }

  // The ties.

  /** The inbox from its `from`-th row on holds rows of the user's of one time. */
  ghost predicate TiedFrom(inbox: seq<InboxRow>, user: Bytes, time: int, from: nat) {
    && from <= |inbox|
    && (forall i :: 0 <= i < |inbox| ==> IsRowOf(inbox[i], Key(user, IdOf(i))))
    && (forall i :: from <= i < |inbox| ==> inbox[i].createdAt == time)
  }

  lemma TiedIsSorting(inbox: seq<InboxRow>, user: Bytes, time: int, from: nat)
    requires TiedFrom(inbox, user, time, from)
    ensures OfflineTies.IsSorting(Elems(inbox[from..]), inbox[from..])
  {
    var s := inbox[from..];
    forall i, j | 0 <= i < j < |s|
      ensures s[i] != s[j]
    {
      assert IsRowOf(inbox[from + i], Key(user, IdOf(from + i))) && IsRowOf(inbox[from + j], Key(user, IdOf(from + j)));
      assert |IdOf(from + i)| != |IdOf(from + j)|;
    }
  }

  function Steady(inbox: seq<InboxRow>): nat -> seq<InboxRow> {
    _ => inbox
  }

  /** The pages are those of a finished backfill of an inbox that does not change. */
  ghost predicate IsBackfill(inbox: seq<InboxRow>, user: Bytes, size: nat, cursor: Bytes, pages: seq<seq<InboxRow>>) {
    var b := Offline.Backfill(Steady(inbox), user, size, Offline.Requested(inbox, user, cursor));
    Offline.IsChain(b, pages) && Offline.IsFinished(b, pages)
  }

  /** Some row that the cursor asks for is on none of the pages. */
  ghost predicate MissesRow(inbox: seq<InboxRow>, user: Bytes, cursor: Bytes, pages: seq<seq<InboxRow>>) {
    exists x :: x in Offline.Requested(inbox, user, cursor) && x !in Offline.Flatten(pages)
  }

  lemma ProperPartMisses(all: set<InboxRow>, s: seq<InboxRow>)
    requires Elems(s) <= all && Elems(s) != all
    ensures exists x :: x in all && x !in s
  {
    var x :| x in all && x !in Elems(s);
    assert x !in s;
  }

  lemma EmptyCursorMisses(inbox: seq<InboxRow>, user: Bytes, time: int, size: nat, pages: seq<seq<InboxRow>>)
    requires TiedFrom(inbox, user, time, 0) && |inbox| == size + 1 && size >= 1
    requires forall i :: 0 <= i < |inbox| ==> !inbox[i].delivered
    requires IsBackfill(inbox, user, size, [], pages)
    ensures MissesRow(inbox, user, [], pages)
  {
    var b := Offline.Backfill(Steady(inbox), user, size, Offline.Undelivered(inbox, user));
    assert inbox[0..] == inbox && b.first == Elems(inbox) == Offline.Mine(inbox, user);
    TiedIsSorting(inbox, user, time, 0);
    assert Offline.After(inbox, user, time) == {} && Elems<InboxRow>([]) == {};
    OfflineTies.CompleteFromStartIff(b, pages, inbox, []);
    assert OfflineTies.Promised(b, inbox) == b.first;
    forall x | x in Offline.Flatten(pages)
      ensures x in b.first
    {
      Offline.InFlatten(pages, x);
      var p :| 0 <= p < |pages| && x in pages[p];
      Offline.PagesAreMine(b, inbox, pages, p, x);
    }
    ProperPartMisses(b.first, Offline.Flatten(pages));
  }

  lemma KnownCursorMisses(inbox: seq<InboxRow>, user: Bytes, early: int, time: int, size: nat, pages: seq<seq<InboxRow>>)
    requires Offline.TableOk(inbox) && TiedFrom(inbox, user, time, 1) && |inbox| == size + 2 && size >= 1
    requires inbox[0].createdAt == early < time
    requires IsBackfill(inbox, user, size, IdOf(0), pages)
    ensures MissesRow(inbox, user, IdOf(0), pages)
  {
    var b := Offline.Backfill(Steady(inbox), user, size, Offline.Requested(inbox, user, IdOf(0)));
    assert IsRowOf(inbox[0], Key(user, IdOf(0)));
    Offline.RequestedAfter(inbox, inbox[0]);
    AfterFirst(inbox, user, early, time);
    TiedIsSorting(inbox, user, time, 1);
    OfflineTies.CompleteIffBoundariesClean(b, early, pages, inbox[1..]);
    forall x | x in Offline.Flatten(pages)
      ensures x in b.first
    {
      Offline.OnlyLaterRows(b, inbox, early, pages, x);
    }
    ProperPartMisses(b.first, Offline.Flatten(pages));
  }

  lemma AfterFirst(inbox: seq<InboxRow>, user: Bytes, early: int, time: int)
    requires TiedFrom(inbox, user, time, 1) && inbox[0].createdAt == early < time
    ensures Offline.After(inbox, user, early) == Elems(inbox[1..])
  {
    assert inbox == [inbox[0]] + inbox[1..];
    forall x | x in inbox[1..]
      ensures x.userId == user && x.createdAt == time
    {
      var i :| 0 <= i < |inbox| - 1 && inbox[1..][i] == x;
      assert inbox[i + 1] == x && IsRowOf(inbox[i + 1], Key(user, IdOf(i + 1)));
    }
  }

  /** For every page size there is a run of the pipeline after which a user has one row more than a page, all stored
      at one time, and every finished backfill from an empty cursor misses one of them. */
  lemma TieFromStartIsReachable(user: Bytes, sender: Bytes, time: int, size: nat) returns (steps: seq<PipeStep>)
    requires user != [] && sender != [] && size >= 1
    ensures IsRun(INIT, steps)
    ensures forall pages :: IsBackfill(Final(INIT, steps).sync.inbox, user, size, [], pages) ==>
      MissesRow(Final(INIT, steps).sync.inbox, user, [], pages)
  {
    steps := AnyInboxIsReachable(user, sender, _ => time, size + 1);
    var inbox := Final(INIT, steps).sync.inbox;
    forall pages | IsBackfill(inbox, user, size, [], pages)
      ensures MissesRow(inbox, user, [], pages)
    {
      EmptyCursorMisses(inbox, user, time, size, pages);
    }
  }

  /** And one after which the same holds from the cursor of an earlier row. */
  lemma TieAfterCursorIsReachable(user: Bytes, sender: Bytes, early: int, time: int, size: nat) returns (steps: seq<PipeStep>)
    requires user != [] && sender != [] && size >= 1 && early < time
    ensures IsRun(INIT, steps)
    ensures Offline.Knows(Final(INIT, steps).sync.inbox, user, IdOf(0))
    ensures forall pages :: IsBackfill(Final(INIT, steps).sync.inbox, user, size, IdOf(0), pages) ==>
      MissesRow(Final(INIT, steps).sync.inbox, user, IdOf(0), pages)
  {
    steps := AnyInboxIsReachable(user, sender, i => if i == 0 then early else time, size + 2);
    var inbox := Final(INIT, steps).sync.inbox;
    Offline.ReachableInboxIsTable(steps);
    assert IsRowOf(inbox[0], Key(user, IdOf(0))) && inbox[0] in inbox;
    forall pages | IsBackfill(inbox, user, size, IdOf(0), pages)
      ensures MissesRow(inbox, user, IdOf(0), pages)
    {
      KnownCursorMisses(inbox, user, early, time, size, pages);
    }
  }
}
