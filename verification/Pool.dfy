/** The pool of transport connections of one session (proto-core/transport/pool.go). */
module Pool {
  import opened Wrappers
  import opened TimeQuery

  const DEFAULT_MAX_CONNS: nat := 5

  datatype Transport = QUIC | WebSocket | GRPC | Unlisted(name: string)

  /** A type missing from the priority table counts as zero. */
  function Priority(t: Transport): nat {
    match t
    case QUIC => 3
    case WebSocket => 2
    case GRPC => 1
    case Unlisted(_) => 0
  }

  datatype PoolEntry = PoolEntry(transport: Transport, lastPacketSeq: nat)

  /** The entry is preferred to the other one for pushing. */
  predicate Beats(a: PoolEntry, b: PoolEntry) {
    || a.lastPacketSeq > b.lastPacketSeq
    || (a.lastPacketSeq == b.lastPacketSeq && Priority(a.transport) > Priority(b.transport))
  }

  predicate IsBest(conns: map<string, PoolEntry>, id: string) {
    id in conns && forall other :: other in conns ==> !Beats(conns[other], conns[id])
  }

  predicate NoneBest(conns: map<string, PoolEntry>, ids: seq<string>) {
    forall j :: 0 <= j < |ids| ==> !IsBest(conns, ids[j])
  }

  /** An order in which a map with these keys may be iterated. */
  ghost predicate IsOrderOf(order: seq<string>, keys: set<string>) {
    Distinct(order) && Elems(order) == keys
  }

  datatype Op = Add(id: string, transport: Transport) | Remove(id: string) | UpdateSeq(id: string, seqNo: nat)

  function Apply(conns: map<string, PoolEntry>, maxConns: nat, op: Op): map<string, PoolEntry> {
    match op
    case Add(id, transport) => if |conns| >= maxConns then conns else conns[id := PoolEntry(transport, 0)]
    case Remove(id) => conns - {id}
    case UpdateSeq(id, n) => if id in conns then conns[id := conns[id].(lastPacketSeq := n)] else conns
  }

  class ConnPool {
    var conns: map<string, PoolEntry>
    const maxConns: nat

    constructor (maxConns: int)
      ensures conns == map[] && this.maxConns == (if maxConns <= 0 then 5 else maxConns)
    {
      conns := map[];
      this.maxConns := if maxConns <= 0 then DEFAULT_MAX_CONNS else maxConns;
    }

    method AddConn(id: string, transport: Transport) returns (ok: bool)
      modifies this
      ensures ok == (|old(conns)| < maxConns)
      ensures conns == Apply(old(conns), maxConns, Add(id, transport))
      ensures conns == if ok then old(conns)[id := PoolEntry(transport, 0)] else old(conns)
    {
      ok := |conns| < maxConns;
      if ok {
        conns := conns[id := PoolEntry(transport, 0)];
      }
    }

    method RemoveConn(id: string)
      modifies this
      ensures conns == Apply(old(conns), maxConns, Remove(id)) == old(conns) - {id}
    {
      conns := conns - {id};
    }

    method UpdateSeqOf(id: string, n: nat)
      modifies this
      ensures conns == Apply(old(conns), maxConns, UpdateSeq(id, n))
      ensures conns == if id in old(conns) then old(conns)[id := PoolEntry(old(conns)[id].transport, n)] else old(conns)
    {
      if id in conns {
        conns := conns[id := conns[id].(lastPacketSeq := n)];
      }
    }

    /** For every iteration order, the choice is the first best entry of that order, and there is one
        exactly when the pool is not empty. */
    method Best(order: seq<string>) returns (r: Option<string>)
      requires IsOrderOf(order, conns.Keys)
      ensures r.Some? <==> conns != map[]
      ensures r.Some? ==> IsBest(conns, r.value)
      ensures r.Some? ==> exists i :: 0 <= i < |order| && order[i] == r.value && NoneBest(conns, order[..i])
    {
      assert forall id :: id in order <==> id in Elems(order);
      if |order| == 0 {
        assert conns.Keys == {};
        return None;
      }
      var best := 0;
      for i := 1 to |order|
        invariant 0 <= best < i
        invariant forall j :: 0 <= j < i ==> !Beats(conns[order[j]], conns[order[best]])
        invariant forall j :: 0 <= j < best ==> Beats(conns[order[best]], conns[order[j]])
      {
        assert order[i] in order && order[best] in order;
        if Beats(conns[order[i]], conns[order[best]]) {
          BeatsAll(conns, order, i, best);
          best := i;
        }
      }
      r := Some(order[best]);
      assert order[best] in order;
      assert NoneBest(conns, order[..best]) by {
        forall j | 0 <= j < best
          ensures !IsBest(conns, order[..best][j])
        {
          assert order[j] in order;
        }
      }
    }
  }

  lemma BeatsAll(conns: map<string, PoolEntry>, order: seq<string>, i: nat, best: nat)
    requires best < i < |order|
    requires forall id :: id in order ==> id in conns
    requires forall j :: 0 <= j < i ==> !Beats(conns[order[j]], conns[order[best]])
    requires Beats(conns[order[i]], conns[order[best]])
    ensures forall j :: 0 <= j < i ==> Beats(conns[order[i]], conns[order[j]])
  {
    forall j | 0 <= j < i
      ensures Beats(conns[order[i]], conns[order[j]])
    {
      assert !Beats(conns[order[j]], conns[order[best]]);
    }
  }

  /** The connection has received a later packet than any other. */
  predicate Leads(conns: map<string, PoolEntry>, id: string) {
    id in conns && forall other :: other in conns && other != id ==> conns[other].lastPacketSeq < conns[id].lastPacketSeq
  }

  lemma LeaderIsOnlyBest(conns: map<string, PoolEntry>, id: string)
    requires Leads(conns, id)
    ensures forall other :: IsBest(conns, other) <==> other == id
  {
    forall other | other in conns && other != id
      ensures Beats(conns[id], conns[other])
    {
    }
  }

  predicate HasTransport(conns: map<string, PoolEntry>, transport: Transport) {
    exists id :: id in conns && conns[id].transport == transport
  }

  /** Among connections that received the same packet last, QUIC is preferred to WebSocket, WebSocket to gRPC, and
      these to any other transport. */
  lemma TransportDecides(conns: map<string, PoolEntry>, id: string, n: nat)
    requires id in conns && forall other :: other in conns ==> conns[other].lastPacketSeq == n
    ensures IsBest(conns, id) <==>
      match conns[id].transport
      case QUIC => true
      case WebSocket => !HasTransport(conns, QUIC)
      case GRPC => !HasTransport(conns, QUIC) && !HasTransport(conns, WebSocket)
      case Unlisted(_) => !HasTransport(conns, QUIC) && !HasTransport(conns, WebSocket) && !HasTransport(conns, GRPC)
  {
  }

  function Run(conns: map<string, PoolEntry>, maxConns: nat, ops: seq<Op>): map<string, PoolEntry> {
    if ops == [] then conns else Apply(Run(conns, maxConns, ops[..|ops| - 1]), maxConns, ops[|ops| - 1])
  }

  /** No run of operations takes the pool over its capacity. */
  lemma {:induction false} PoolStaysWithinCapacity(maxConns: nat, ops: seq<Op>)
    ensures |Run(map[], maxConns, ops)| <= maxConns
  {
    if ops != [] {
      PoolStaysWithinCapacity(maxConns, ops[..|ops| - 1]);
      var conns, op := Run(map[], maxConns, ops[..|ops| - 1]), ops[|ops| - 1];
      match op
      case Add(id, transport) =>
        assert conns[id := PoolEntry(transport, 0)].Keys == conns.Keys + {id};
      case Remove(id) =>
        assert (conns - {id}).Keys <= conns.Keys;
        SubsetSize((conns - {id}).Keys, conns.Keys);
      case UpdateSeq(id, n) =>
        if id in conns {
          assert conns[id := conns[id].(lastPacketSeq := n)].Keys == conns.Keys;
        }
    }
  }

  ghost predicate SeqsBelow(conns: map<string, PoolEntry>, n: nat) {
    forall id :: id in conns ==> conns[id].lastPacketSeq < n
  }

  lemma SeqsBelowStep(conns: map<string, PoolEntry>, maxConns: nat, op: Op, n: nat)
    requires SeqsBelow(conns, n) && n > 0 && (op.UpdateSeq? ==> op.seqNo < n)
    ensures SeqsBelow(Apply(conns, maxConns, op), n)
  {
  }

  lemma {:induction false} RunSeqsBelow(maxConns: nat, ops: seq<Op>, n: nat)
    requires n > 0 && forall op :: op in ops && op.UpdateSeq? ==> op.seqNo < n
    ensures SeqsBelow(Run(map[], maxConns, ops), n)
  {
    if ops != [] {
      var init := ops[..|ops| - 1];
      assert ops == init + [ops[|ops| - 1]];
      RunSeqsBelow(maxConns, init, n);
      SeqsBelowStep(Run(map[], maxConns, init), maxConns, ops[|ops| - 1], n);
    }
  }

  /** Only its own removal or another connection's packet can take the lead away. */
  lemma LeaderStep(conns: map<string, PoolEntry>, maxConns: nat, id: string, op: Op)
    requires Leads(conns, id) && conns[id].lastPacketSeq > 0 && !op.UpdateSeq? && op.id != id
    ensures Leads(Apply(conns, maxConns, op), id) && Apply(conns, maxConns, op)[id].lastPacketSeq > 0
  {
  }

  lemma {:induction false} LeaderStays(maxConns: nat, before: seq<Op>, id: string, after: seq<Op>)
    requires Leads(Run(map[], maxConns, before), id) && Run(map[], maxConns, before)[id].lastPacketSeq > 0
    requires forall op :: op in after ==> !op.UpdateSeq? && op.id != id
    ensures Leads(Run(map[], maxConns, before + after), id)
    ensures Run(map[], maxConns, before + after)[id].lastPacketSeq > 0
    decreases |after|
  {
    if after == [] {
      assert before + after == before;
    } else {
      var init, op := after[..|after| - 1], after[|after| - 1];
      assert after == init + [op];
      assert (before + after)[..|before + after| - 1] == before + init && (before + after)[|before + after| - 1] == op;
      assert op in after && forall o :: o in init ==> o in after;
      LeaderStays(maxConns, before, id, init);
      LeaderStep(Run(map[], maxConns, before + init), maxConns, id, op);
    }
  }

  /** Over every run in which packet numbers grow: the connection that received the latest packet is the only
      best one, however many connections come and go after it, until it is itself removed or added anew. */
  lemma LatestReceiverIsBest(maxConns: nat, before: seq<Op>, id: string, n: nat, after: seq<Op>)
    requires id in Run(map[], maxConns, before) && n > 0
    requires forall op :: op in before && op.UpdateSeq? ==> op.seqNo < n
    requires forall op :: op in after ==> !op.UpdateSeq? && op.id != id
    ensures var conns := Run(map[], maxConns, before + [UpdateSeq(id, n)] + after);
      id in conns && forall other :: IsBest(conns, other) <==> other == id
  {
    RunSeqsBelow(maxConns, before, n);
    var ops := before + [UpdateSeq(id, n)];
    assert ops[..|ops| - 1] == before;
    assert Leads(Run(map[], maxConns, ops), id);
    LeaderStays(maxConns, ops, id, after);
    LeaderIsOnlyBest(Run(map[], maxConns, ops + after), id);
  }

  lemma SubsetSize<T>(a: set<T>, b: set<T>)
    requires a <= b
    ensures |a| <= |b|
  {
    assert b == a + (b - a);
  }
}
