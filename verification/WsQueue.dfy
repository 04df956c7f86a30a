/** The queue-and-waiters receive side of the WebSocket transports (starters/node/src/transport.ts;
    sdk/typescript/src/transport.ts is the same without the close handler). A read is a numbered call
    whose promise is resolved at once or later. */
module WsQueue {
  import opened Hex

  /** What a read's promise comes to. `Closed` is the empty buffer given to reads that wait when the
      connection closes. */
  datatype Reading = Message(data: Bytes) | Closed | Rejected

  datatype Conn = Conn(queue: seq<Bytes>, waiters: seq<nat>, closed: bool, calls: nat, results: map<nat, Reading>)

  datatype Event = Arrive(data: Bytes) | Read | Close

  const OPEN := Conn([], [], false, 0, map[])

  function ResolvedAll(results: map<nat, Reading>, waiters: seq<nat>): map<nat, Reading> {
    if waiters == [] then results else ResolvedAll(results, waiters[..|waiters| - 1])[waiters[|waiters| - 1] := Closed]
  }

  function Apply(s: Conn, e: Event): Conn {
    match e
    case Arrive(data) =>
      if |s.waiters| > 0 then s.(waiters := s.waiters[1..], results := s.results[s.waiters[0] := Message(data)])
      else s.(queue := s.queue + [data])
    case Read =>
      if |s.queue| > 0 then s.(queue := s.queue[1..], calls := s.calls + 1, results := s.results[s.calls := Message(s.queue[0])])
      else if s.closed then s.(calls := s.calls + 1, results := s.results[s.calls := Rejected])
      else s.(calls := s.calls + 1, waiters := s.waiters + [s.calls])
    case Close =>
      s.(closed := true, waiters := [], results := ResolvedAll(s.results, s.waiters))
  }

  class WsConn {
    var queue: seq<Bytes>
    var waiters: seq<nat>
    var closed: bool
    var calls: nat
    var results: map<nat, Reading>

    constructor ()
      ensures Contents() == OPEN
    {
      queue, waiters, closed, calls, results := [], [], false, 0, map[];
    }

    function Contents(): Conn
      reads this
    {
      Conn(queue, waiters, closed, calls, results)
    }

    method OnMessage(data: Bytes)
      modifies this
      ensures Contents() == Apply(old(Contents()), Arrive(data))
    {
      if |waiters| > 0 {
        results := results[waiters[0] := Message(data)];
        waiters := waiters[1..];
      } else {
        queue := queue + [data];
      }
    }

    method OnClose()
      modifies this
      ensures Contents() == Apply(old(Contents()), Close)
    {
      closed := true;
      for i := 0 to |waiters|
        invariant closed && queue == old(queue) && waiters == old(waiters) && calls == old(calls)
        invariant results == ResolvedAll(old(results), waiters[..i])
      {
        results := results[waiters[i] := Closed];
        assert waiters[..i + 1][..i] == waiters[..i];
      }
      assert waiters[..|waiters|] == waiters;
      waiters := [];
    }

    /** Returns the number of the call, by which its result is found. */
    method ReadMessage() returns (call: nat)
      modifies this
      ensures call == old(calls)
      ensures Contents() == Apply(old(Contents()), Read)
    {
      call := calls;
      calls := calls + 1;
      if |queue| > 0 {
        results := results[call := Message(queue[0])];
        queue := queue[1..];
      } else if closed {
        results := results[call := Rejected];
      } else {
        waiters := waiters + [call];
      }
    }
  }

  // Runs.

  function Run(s: Conn, events: seq<Event>): Conn {
    if events == [] then s else Apply(Run(s, events[..|events| - 1]), events[|events| - 1])
  }

  /** The messages in order of arrival. */
  function Arrived(events: seq<Event>): seq<Bytes> {
    if events == [] then []
    else
      var e := events[|events| - 1];
      Arrived(events[..|events| - 1]) + if e.Arrive? then [e.data] else []
  }

  function Reads(events: seq<Event>): nat {
    if events == [] then 0 else Reads(events[..|events| - 1]) + if events[|events| - 1].Read? then 1 else 0
  }

  /** The messages the first `n` calls were given, in order of call. */
  function Delivered(results: map<nat, Reading>, n: nat): seq<Bytes> {
    if n == 0 then []
    else
      Delivered(results, n - 1) +
      if n - 1 in results && results[n - 1].Message? then [results[n - 1].data] else []
  }

  /** Calls are answered in order: those still waiting are the latest ones. */
  ghost predicate IsOrdered(s: Conn) {
    && |s.waiters| <= s.calls
    && (forall i :: 0 <= i < |s.waiters| ==> s.waiters[i] == s.calls - |s.waiters| + i)
    && (forall k: nat :: k in s.results <==> k < s.calls - |s.waiters|)
    && (s.queue == [] || s.waiters == [])
    && (s.closed ==> s.waiters == [])
  }

  ghost predicate IsFifo(s: Conn, arrived: seq<Bytes>) {
    IsOrdered(s) && Delivered(s.results, s.calls) + s.queue == arrived
  }

  lemma {:induction false} DeliveredFrame(a: map<nat, Reading>, b: map<nat, Reading>, n: nat)
    requires forall k: nat :: k < n ==> (k in a <==> k in b) && (k in a ==> a[k] == b[k])
    ensures Delivered(a, n) == Delivered(b, n)
  {
    if n > 0 {
      DeliveredFrame(a, b, n - 1);
    }
  }

  /** Calls without a message among the latest add nothing. */
  lemma {:induction false} DeliveredTail(results: map<nat, Reading>, m: nat, n: nat)
    requires m <= n
    requires forall k: nat :: m <= k < n ==> !(k in results && results[k].Message?)
    ensures Delivered(results, n) == Delivered(results, m)
    decreases n
  {
    if m < n {
      DeliveredTail(results, m, n - 1);
    }
  }

  lemma {:induction false} ResolvedAllAt(results: map<nat, Reading>, waiters: seq<nat>)
    ensures forall k: nat :: k in ResolvedAll(results, waiters) <==> k in results || k in waiters
    ensures forall k: nat :: k in ResolvedAll(results, waiters) ==>
      ResolvedAll(results, waiters)[k] == if k in waiters then Closed else results[k]
  {
    if waiters != [] {
      var n := |waiters| - 1;
      ResolvedAllAt(results, waiters[..n]);
      assert waiters == waiters[..n] + [waiters[n]];
    }
  }

  lemma OrderedStep(s: Conn, e: Event)
    requires IsOrdered(s)
    ensures IsOrdered(Apply(s, e))
  {
    if e.Close? {
      ResolvedAllAt(s.results, s.waiters);
      forall k: nat
        ensures k in s.waiters <==> s.calls - |s.waiters| <= k < s.calls
      {
        if s.calls - |s.waiters| <= k < s.calls {
          assert s.waiters[k - (s.calls - |s.waiters|)] == k;
        }
      }
    }
  }

  lemma Regroup(a: seq<Bytes>, b: seq<Bytes>, c: seq<Bytes>)
    ensures (a + b) + c == a + (b + c)
  {
  }

  lemma ArriveIsFifo(s: Conn, data: Bytes, arrived: seq<Bytes>)
    requires IsFifo(s, arrived)
    ensures IsFifo(Apply(s, Arrive(data)), arrived + [data])
  {
    var t := Apply(s, Arrive(data));
    OrderedStep(s, Arrive(data));
    Regroup(Delivered(s.results, s.calls), s.queue, [data]);
    if |s.waiters| > 0 {
      var n := s.calls - |s.waiters|;
      assert arrived == Delivered(s.results, s.calls);
      DeliveredTail(s.results, n, s.calls);
      DeliveredFrame(s.results, t.results, n);
      assert Delivered(t.results, n + 1) == Delivered(t.results, n) + [data];
      DeliveredTail(t.results, n + 1, s.calls);
    }
  }

  lemma ReadIsFifo(s: Conn, arrived: seq<Bytes>)
    requires IsFifo(s, arrived)
    ensures IsFifo(Apply(s, Read), arrived)
  {
    var t := Apply(s, Read);
    OrderedStep(s, Read);
    DeliveredFrame(s.results, t.results, s.calls);
    if |s.queue| > 0 {
      Regroup(Delivered(s.results, s.calls), [s.queue[0]], s.queue[1..]);
      assert [s.queue[0]] + s.queue[1..] == s.queue;
    }
  }

  lemma CloseIsFifo(s: Conn, arrived: seq<Bytes>)
    requires IsFifo(s, arrived)
    ensures IsFifo(Apply(s, Close), arrived)
  {
    var t := Apply(s, Close);
    var n := s.calls - |s.waiters|;
    OrderedStep(s, Close);
    ResolvedAllAt(s.results, s.waiters);
    DeliveredTail(s.results, n, s.calls);
    DeliveredFrame(s.results, t.results, n);
    forall k: nat | n <= k < s.calls
      ensures k in s.waiters
    {
      assert s.waiters[k - n] == k;
    }
    DeliveredTail(t.results, n, s.calls);
  }

  lemma FifoStep(s: Conn, e: Event, arrived: seq<Bytes>)
    requires IsFifo(s, arrived)
    ensures IsFifo(Apply(s, e), arrived + if e.Arrive? then [e.data] else [])
  {
    assert arrived + [] == arrived;
    match e
    case Arrive(data) => ArriveIsFifo(s, data, arrived);
    case Read => ReadIsFifo(s, arrived);
    case Close => CloseIsFifo(s, arrived);
  }

  /** Over every run of arrivals, reads and closes: the queue or the waiter list is empty, and the
      messages handed to the reads, in call order, followed by those still queued are exactly the
      messages that arrived, in order, none lost and none twice. */
  lemma {:induction false} DeliversInOrder(events: seq<Event>)
    ensures var s := Run(OPEN, events);
      && IsOrdered(s) && (s.queue == [] || s.waiters == [])
      && Delivered(s.results, s.calls) + s.queue == Arrived(events)
      && s.calls == Reads(events)
  {
    if events != [] {
      var init := events[..|events| - 1];
      DeliversInOrder(init);
      FifoStep(Run(OPEN, init), events[|events| - 1], Arrived(init));
    }
  }

  // Without a close: a plain FIFO.

  ghost predicate AnswersInTurn(s: Conn, arrived: seq<Bytes>) {
    && !s.closed
    && IsOrdered(s)
    && (forall k: nat :: k in s.results ==> k < |arrived| && s.results[k] == Message(arrived[k]))
    && s.calls - |s.waiters| <= |arrived|
    && s.queue == arrived[s.calls - |s.waiters|..]
  }

  lemma TurnStep(s: Conn, e: Event, arrived: seq<Bytes>)
    requires AnswersInTurn(s, arrived) && !e.Close?
    ensures AnswersInTurn(Apply(s, e), arrived + if e.Arrive? then [e.data] else [])
  {
    OrderedStep(s, e);
  }

  lemma {:induction false} TurnRun(events: seq<Event>)
    requires forall e :: e in events ==> !e.Close?
    ensures AnswersInTurn(Run(OPEN, events), Arrived(events)) && Run(OPEN, events).calls == Reads(events)
  {
    if events != [] {
      var n := |events| - 1;
      assert events == events[..n] + [events[n]];
      TurnRun(events[..n]);
      assert events[n] in events;
      TurnStep(Run(OPEN, events[..n]), events[n], Arrived(events[..n]));
    }
  }

  /** In every run without a close the k-th read is given the k-th message to arrive, as soon as both
      have happened, and nothing else. */
  lemma KthReadGetsKthMessage(events: seq<Event>, k: nat)
    requires forall e :: e in events ==> !e.Close?
    ensures var s := Run(OPEN, events);
      && (k in s.results <==> k < Reads(events) && k < |Arrived(events)|)
      && (k in s.results ==> s.results[k] == Message(Arrived(events)[k]))
  {
    TurnRun(events);
  }

  // After a close.

  /** A close answers exactly the reads that are waiting, and leaves the queue and all earlier results. */
  lemma CloseAnswersTheWaiting(s: Conn)
    requires IsOrdered(s)
    ensures var t := Apply(s, Close);
      && t.queue == s.queue && t.waiters == [] && t.closed
      && forall k: nat :: k < s.calls ==>
           k in t.results && t.results[k] == if k in s.results then s.results[k] else Closed
  {
    ResolvedAllAt(s.results, s.waiters);
    forall k: nat | k < s.calls
      ensures k in s.waiters <==> k !in s.results
    {
      if k !in s.results {
        assert s.waiters[k - (s.calls - |s.waiters|)] == k;
      }
    }
  }

  function Readings(n: nat): seq<Event> {
    seq(n, _ => Read)
  }

  /** What `n` reads on a closed connection come to: the queued messages in order, then rejections. */
  ghost predicate IsDrained(s: Conn, t: Conn, n: nat) {
    && t.closed && t.calls == s.calls + n && t.waiters == s.waiters
    && t.queue == (if n <= |s.queue| then s.queue[n..] else [])
    && (forall k: nat :: s.calls <= k < s.calls + n ==> k in t.results)
    && (forall k: nat :: s.calls <= k < s.calls + n ==>
          t.results[k] == if k - s.calls < |s.queue| then Message(s.queue[k - s.calls]) else Rejected)
  }

  lemma DrainStep(s: Conn, t: Conn, n: nat)
    requires IsDrained(s, t, n)
    ensures IsDrained(s, Apply(t, Read), n + 1)
  {
  }

  /** On a closed connection the next reads get the queued messages in order, and only then rejections. */
  lemma {:induction false} ClosedDrainsThenRejects(s: Conn, n: nat)
    requires s.closed
    ensures IsDrained(s, Run(s, Readings(n)), n)
  {
    if n > 0 {
      ClosedDrainsThenRejects(s, n - 1);
      assert Readings(n)[..n - 1] == Readings(n - 1);
      DrainStep(s, Run(s, Readings(n - 1)), n - 1);
    }
  }
}
