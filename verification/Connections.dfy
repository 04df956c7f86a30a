/** A session's connections over runs (proto-core/session/manager.go, redis_store.go). Registering one counts
    those there are and stores it in two calls, between which others may come. */
module Connections {
  import opened Hex
  import opened Session
  import opened SessionIndex

  /** Exactly where a registered connection comes from and what removes it. */
  lemma ConnectionStep(s: State, st: Step, id: Id, conn: string)
    ensures conn in ConnsOf(Apply(s, st), id) <==> Adds(st, id, conn) || (conn in ConnsOf(s, id) && !Drops(s, st, id, conn))
  {
    if st.id != id {
      OthersAreUntouched(s, st, id, []);
    } else {
      match st
      case Look(_, c, max, getOk) => LookedHas(s, id, c, max, getOk);
      case Add(_, c, writeOk) => AddedHas(s, id, c, writeOk);
      case Unregister(_, c, writeOk) => UnregisteredHas(s, id, c, writeOk);
      case Fire(_, _, _) => FiredHas(s, st);
      case _ =>
    }
  }

  predicate Adds(st: Step, id: Id, conn: string) {
    st.Add? && st.id == id && st.call.conn == conn && st.writeOk
  }

  predicate Drops(s: State, st: Step, id: Id, conn: string) {
    (st.Unregister? && st.id == id && st.conn == conn && st.writeOk) || Destroys(s, st, id)
  }

  predicate NeverDropped(s: State, steps: seq<Step>, id: Id, conn: string)
    decreases |steps|
  {
    steps != [] ==> !Drops(s, steps[0], id, conn) && NeverDropped(Apply(s, steps[0]), steps[1..], id, conn)
  }

  /** The connection was added at some step and not dropped after it. */
  predicate AddedForGood(s: State, steps: seq<Step>, id: Id, conn: string)
    decreases |steps|
  {
    && steps != []
    && (|| (Adds(steps[0], id, conn) && NeverDropped(Apply(s, steps[0]), steps[1..], id, conn))
        || AddedForGood(Apply(s, steps[0]), steps[1..], id, conn))
  }

  lemma {:induction false} ConnectionRun(s: State, steps: seq<Step>, id: Id, conn: string)
    ensures conn in ConnsOf(Final(s, steps), id) <==>
      AddedForGood(s, steps, id, conn) || (conn in ConnsOf(s, id) && NeverDropped(s, steps, id, conn))
    decreases |steps|
  {
    if steps != [] {
      ConnectionStep(s, steps[0], id, conn);
      ConnectionRun(Apply(s, steps[0]), steps[1..], id, conn);
    }
  }

  /** Over every run: a connection is registered exactly if it was added and since then neither unregistered nor
      its session destroyed. The expiry of the session's hash is not among these. */
  lemma RegisteredIff(steps: seq<Step>, id: Id, conn: string)
    ensures conn in ConnsOf(Final(NO_SESSIONS, steps), id) <==> AddedForGood(NO_SESSIONS, steps, id, conn)
  {
    ConnectionRun(NO_SESSIONS, steps, id, conn);
  }

  /** So connections outlive their session: its hash has a time to live and theirs has none. */
  lemma ConnectionsOutliveSession(id: Id, user: Bytes, device: Bytes, call: Call, max: nat)
    requires max > 0
    ensures var ok := Calls(true, true, true);
      var steps := [Create(id, user, device, ok), Look(id, call, max, true), Add(id, call, true), TtlExpires(id)];
      && IsRun(NO_SESSIONS, steps)
      && id !in Final(NO_SESSIONS, steps).redis && call.conn in ConnsOf(Final(NO_SESSIONS, steps), id)
      && id in IndexOf(Final(NO_SESSIONS, steps), user)
  {
    var a := Create(id, user, device, Calls(true, true, true));
    var s := Apply(NO_SESSIONS, a);
    LookedHas(s, id, call, max, true);
    AddedHas(Looked(s, id, call, max, true), id, call, true);
    FourSteps(NO_SESSIONS, a, Look(id, call, max, true), Add(id, call, true), TtlExpires(id));
  }

  lemma FourSteps(s: State, a: Step, b: Step, c: Step, d: Step)
    requires Enabled(s, a) && Enabled(Apply(s, a), b) && Enabled(Apply(Apply(s, a), b), c)
    requires Enabled(Apply(Apply(Apply(s, a), b), c), d)
    ensures IsRun(s, [a, b, c, d]) && Final(s, [a, b, c, d]) == Apply(Apply(Apply(Apply(s, a), b), c), d)
  {
    FirstStep(Apply(Apply(Apply(s, a), b), c), d, []);
    FirstStep(Apply(Apply(s, a), b), c, [d]);
    FirstStep(Apply(s, a), b, [c, d]);
    FirstStep(s, a, [b, c, d]);
    assert [d] + [] == [d] && [c] + [d] == [c, d] && [b] + [c, d] == [b, c, d] && [a] + [b, c, d] == [a, b, c, d];
  }

  /** Every look at the session's connections tests them against `max`, and at most `overlap` registrations of
      the session are under way once it passes. */
  predicate OverlapAtMost(s: State, steps: seq<Step>, id: Id, max: nat, overlap: nat)
    decreases |steps|
  {
    steps != [] ==>
      && (steps[0].Look? && steps[0].id == id ==> steps[0].max == max && |ComingOf(Apply(s, steps[0]), id)| <= overlap)
      && OverlapAtMost(Apply(s, steps[0]), steps[1..], id, max, overlap)
  }

  function InUse(s: State, id: Id): nat {
    |ConnsOf(s, id)| + |ComingOf(s, id)|
  }

  lemma LookedHas(s: State, id: Id, call: Call, max: nat, getOk: bool)
    ensures var t := Looked(s, id, call, max, getOk);
      && ConnsOf(t, id) == ConnsOf(s, id)
      && ComingOf(t, id) == if getOk && |ConnsOf(s, id)| < max then ComingOf(s, id) + {call} else ComingOf(s, id)
  {
  }

  lemma AddedHas(s: State, id: Id, call: Call, writeOk: bool)
    ensures var t := Added(s, id, call, writeOk);
      && ConnsOf(t, id) == (if writeOk then ConnsOf(s, id) + {call.conn} else ConnsOf(s, id))
      && ComingOf(t, id) == ComingOf(s, id) - {call}
  {
  }

  lemma UnregisteredHas(s: State, id: Id, conn: string, writeOk: bool)
    ensures var t := Unregistered(s, id, conn, writeOk);
      && ConnsOf(t, id) == (if writeOk then ConnsOf(s, id) - {conn} else ConnsOf(s, id))
      && ComingOf(t, id) == ComingOf(s, id)
  {
  }

  lemma FiredHas(s: State, st: Step)
    requires st.Fire?
    ensures var t := Apply(s, st);
      && ConnsOf(t, st.id) == (if Destroys(s, st, st.id) then {} else ConnsOf(s, st.id))
      && ComingOf(t, st.id) == ComingOf(s, st.id)
  {
  }

  lemma AddInUse(s: State, id: Id, call: Call, writeOk: bool)
    requires call in ComingOf(s, id)
    ensures InUse(Added(s, id, call, writeOk), id) <= InUse(s, id)
  {
    AddedHas(s, id, call, writeOk);
    AddKeepsInUse(ConnsOf(s, id), call.conn);
  }

  lemma UnregisterInUse(s: State, id: Id, conn: string, writeOk: bool)
    ensures InUse(Unregistered(s, id, conn, writeOk), id) <= InUse(s, id)
  {
    UnregisteredHas(s, id, conn, writeOk);
    SmallerWithout(ConnsOf(s, id), conn);
  }

  lemma LookInUse(s: State, id: Id, call: Call, max: nat, getOk: bool)
    ensures var t := Looked(s, id, call, max, getOk);
      InUse(t, id) <= InUse(s, id) || InUse(t, id) <= max - 1 + |ComingOf(t, id)|
  {
    LookedHas(s, id, call, max, getOk);
  }

  lemma OtherInUse(s: State, st: Step, id: Id)
    requires st.id == id && (st.Create? || st.Fire? || st.TtlExpires?)
    ensures InUse(Apply(s, st), id) <= InUse(s, id)
  {
    if st.Fire? {
      FiredHas(s, st);
    }
  }

  /** Only a look that passes raises the number of connections stored and coming. */
  lemma InUseStep(s: State, st: Step, id: Id)
    requires Enabled(s, st)
    ensures InUse(Apply(s, st), id) <= InUse(s, id) ||
      (st.Look? && st.id == id && InUse(Apply(s, st), id) <= st.max - 1 + |ComingOf(Apply(s, st), id)|)
  {
    if st.id != id {
      OthersAreUntouched(s, st, id, []);
    } else {
      match st
      case Look(_, call, max, getOk) => LookInUse(s, id, call, max, getOk);
      case Add(_, call, writeOk) => AddInUse(s, id, call, writeOk);
      case Unregister(_, conn, writeOk) => UnregisterInUse(s, id, conn, writeOk);
      case _ => OtherInUse(s, st, id);
    }
  }

  lemma AddKeepsInUse(conns: set<string>, conn: string)
    ensures |conns + {conn}| <= |conns| + 1
  {
    assert conn in conns ==> conns + {conn} == conns;
  }

  lemma SmallerWithout(conns: set<string>, conn: string)
    ensures |conns - {conn}| <= |conns|
  {
    assert conn !in conns ==> conns - {conn} == conns;
  }

  lemma {:induction false} InUseRun(s: State, steps: seq<Step>, id: Id, max: nat, overlap: nat)
    requires IsRun(s, steps) && OverlapAtMost(s, steps, id, max, overlap) && InUse(s, id) <= max - 1 + overlap
    ensures InUse(Final(s, steps), id) <= max - 1 + overlap
    decreases |steps|
  {
    if steps != [] {
      InUseStep(s, steps[0], id);
      InUseRun(Apply(s, steps[0]), steps[1..], id, max, overlap);
    }
  }

  /** Over every run in which at most `overlap` registrations of a session are under way at a time, it has at most
      `max - 1 + overlap` connections; so the maximum is kept while they do not overlap. */
  lemma ConnectionsStayBounded(steps: seq<Step>, id: Id, max: nat, overlap: nat)
    requires IsRun(NO_SESSIONS, steps) && overlap >= 1 && OverlapAtMost(NO_SESSIONS, steps, id, max, overlap)
    ensures |ConnsOf(Final(NO_SESSIONS, steps), id)| <= max - 1 + overlap
    ensures overlap == 1 ==> |ConnsOf(Final(NO_SESSIONS, steps), id)| <= max
  {
    InUseRun(NO_SESSIONS, steps, id, max, overlap);
  }

  lemma TwoMore(conns: set<string>, a: string, b: string)
    requires a != b && a !in conns && b !in conns
    ensures |conns + {a} + {b}| == |conns| + 2
  {
  }

  /** Two calls that overlap one below the maximum exceed it. */
  lemma OverlapExceedsMaximum(s: State, id: Id, a: Call, b: Call, max: nat)
    requires |ConnsOf(s, id)| + 1 == max && a.conn != b.conn && a.conn !in ConnsOf(s, id) && b.conn !in ConnsOf(s, id)
    requires a !in ComingOf(s, id) && b !in ComingOf(s, id)
    ensures var steps := [Look(id, a, max, true), Look(id, b, max, true), Add(id, a, true), Add(id, b, true)];
      IsRun(s, steps) && |ConnsOf(Final(s, steps), id)| == max + 1
  {
    var p := Looked(s, id, a, max, true);
    LookedHas(s, id, a, max, true);
    var q := Looked(p, id, b, max, true);
    LookedHas(p, id, b, max, true);
    var r := Added(q, id, a, true);
    AddedHas(q, id, a, true);
    AddedHas(r, id, b, true);
    TwoMore(ConnsOf(s, id), a.conn, b.conn);
    FourSteps(s, Look(id, a, max, true), Look(id, b, max, true), Add(id, a, true), Add(id, b, true));
  }

  /** What RegisterConnection does when nothing comes between its halves. */
  lemma RegisterIsRun(s: State, id: Id, call: Call, max: nat, writeOk: bool)
    requires |ConnsOf(s, id)| < max && call !in ComingOf(s, id)
    ensures var steps := [Look(id, call, max, true), Add(id, call, writeOk)];
      && IsRun(s, steps)
      && Final(s, steps).conns == (if writeOk then s.conns[id := ConnsOf(s, id) + {call.conn}] else s.conns)
      && ComingOf(Final(s, steps), id) == ComingOf(s, id)
  {
    var a, b := Look(id, call, max, true), Add(id, call, writeOk);
    LookedHas(s, id, call, max, true);
    AddedHas(Apply(s, a), id, call, writeOk);
    FirstStep(Apply(s, a), b, []);
    FirstStep(s, a, [b]);
    assert [b] + [] == [b] && [a] + [b] == [a, b];
  }
}
