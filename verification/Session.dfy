/** Sessions: the status automaton (proto-core/session/machine.go) and the manager that keeps it in
    Redis and mirrors it to PostgreSQL, ignoring mirror errors (manager.go, redis_store.go, pg_store.go). */
module Session {
  import opened Wrappers
  import opened Hex

  datatype Status = Connecting | Active | Sleeping | Expired

  datatype Event = HandshakeOK | HandshakeFail | PacketReceived | IdleTimeout | ExpiryTimeout | ExplicitLogout

  datatype Outcome = Next(status: Status) | Destroyed | Invalid

  function Transition(current: Status, event: Event): Outcome {
    match (current, event)
    case (Connecting, HandshakeOK) => Next(Active)
    case (Connecting, HandshakeFail) => Destroyed
    case (Active, PacketReceived) => Next(Active)
    case (Active, IdleTimeout) => Next(Sleeping)
    case (Active, ExplicitLogout) => Next(Expired)
    case (Sleeping, PacketReceived) => Next(Active)
    case (Sleeping, ExpiryTimeout) => Next(Expired)
    case _ => Invalid
  }

  predicate IsEdge(a: Status, b: Status) {
    exists e :: Transition(a, e) == Next(b)
  }

  /** The event that labels an edge of the documented state diagram. */
  predicate Takes(a: Status, b: Status, e: Event) {
    match b
    case Active => if a == Connecting then e == HandshakeOK else e == PacketReceived
    case Sleeping => e == IdleTimeout
    case Expired => if a == Active then e == ExplicitLogout else e == ExpiryTimeout
    case Connecting => false
  }

  /** The edges of the documented state diagram, each with the events that take it. */
  lemma EdgesAre(a: Status, b: Status, e: Event)
    ensures IsEdge(a, b) <==> (a, b) in {(Connecting, Active), (Active, Active), (Active, Sleeping), (Active, Expired),
                                         (Sleeping, Active), (Sleeping, Expired)}
    ensures Transition(a, e) == Next(b) <==> (IsEdge(a, b) && Takes(a, b, e))
    ensures Transition(a, e) == Destroyed <==> a == Connecting && e == HandshakeFail
  {
    assert Transition(Connecting, HandshakeOK) == Next(Active) && Transition(Active, PacketReceived) == Next(Active);
    assert Transition(Active, IdleTimeout) == Next(Sleeping) && Transition(Active, ExplicitLogout) == Next(Expired);
    assert Transition(Sleeping, PacketReceived) == Next(Active) && Transition(Sleeping, ExpiryTimeout) == Next(Expired);
  }

  /** A walk of the transition table that starts at connecting. */
  predicate IsWalk(h: seq<Status>) {
    && (h != [] ==> h[0] == Connecting)
    && (forall i :: 0 <= i < |h| - 1 ==> IsEdge(h[i], h[i + 1]))
  }

  /** Only the last status of a walk can be expired, and none comes back to connecting. */
  lemma WalkEndsAtExpired(h: seq<Status>, i: nat)
    requires IsWalk(h) && i < |h|
    ensures h[i] == Expired ==> i == |h| - 1
    ensures h[i] == Connecting ==> i == 0
  {
    if i > 0 {
      EdgesAre(h[i - 1], h[i], HandshakeOK);
    }
    if i < |h| - 1 {
      EdgesAre(h[i], h[i + 1], HandshakeOK);
    }
  }

  ghost predicate ExpiredIsLast(h: seq<Status>) {
    forall i :: 0 <= i < |h| && h[i] == Expired ==> i == |h| - 1
  }

  lemma WalkIsExpiredLast(h: seq<Status>)
    requires IsWalk(h)
    ensures ExpiredIsLast(h)
  {
    forall i | 0 <= i < |h| && h[i] == Expired
      ensures i == |h| - 1
    {
      WalkEndsAtExpired(h, i);
    }
  }

  type Id = Bytes

  datatype SessionRow = SessionRow(userId: Bytes, deviceId: Bytes, status: Status)

  /** A call of RegisterConnection, by a number that tells it from others. */
  datatype Call = Call(nr: nat, conn: string)

  /** Redis's session hashes, user index and connection hashes, and PostgreSQL's table. `drawn` are the
      random session ids in use so far, `coming` the calls that passed the test of the maximum and
      have not stored their connection yet. */
  datatype State = State(redis: map<Id, SessionRow>, index: map<Bytes, set<Id>>, conns: map<Id, set<string>>,
                         pg: map<Id, SessionRow>, drawn: set<Id>, coming: map<Id, set<Call>>)

  const NO_SESSIONS := State(map[], map[], map[], map[], {}, map[])

  /** Whether each call to a store succeeds. */
  datatype Calls = Calls(getOk: bool, writeOk: bool, pgOk: bool)

  function IndexOf(s: State, user: Bytes): set<Id> {
    if user in s.index then s.index[user] else {}
  }

  function ConnsOf(s: State, id: Id): set<string> {
    if id in s.conns then s.conns[id] else {}
  }

  function ComingOf(s: State, id: Id): set<Call> {
    if id in s.coming then s.coming[id] else {}
  }

  // The manager's operations, on values.

  function Created(s: State, id: Id, user: Bytes, device: Bytes, c: Calls): State {
    var row := SessionRow(user, device, Connecting);
    if !c.writeOk then s.(drawn := s.drawn + {id})
    else
      s.(redis := s.redis[id := row], index := s.index[user := IndexOf(s, user) + {id}],
         pg := if c.pgOk then s.pg[id := row] else s.pg, drawn := s.drawn + {id})
  }

  function Removed(s: State, id: Id): State
    requires id in s.redis
  {
    var user := s.redis[id].userId;
    s.(redis := s.redis - {id}, conns := s.conns - {id}, index := s.index[user := IndexOf(s, user) - {id}])
  }

  /** An UPDATE of an absent row changes nothing and is no error. */
  function PgUpdated(pg: map<Id, SessionRow>, id: Id, status: Status): map<Id, SessionRow> {
    if id in pg then pg[id := pg[id].(status := status)] else pg
  }

  function Fired(s: State, id: Id, e: Event, c: Calls): State {
    if !c.getOk || id !in s.redis then s
    else
      match Transition(s.redis[id].status, e)
      case Invalid => s
      case Destroyed =>
        if !c.writeOk then s
        else var t := Removed(s, id); if c.pgOk then t.(pg := t.pg - {id}) else t
      case Next(status) =>
        if !c.writeOk then s
        else
          s.(redis := s.redis[id := s.redis[id].(status := status)],
             pg := if c.pgOk then PgUpdated(s.pg, id, status) else s.pg)
  }

  function Got(s: State, id: Id, getOk: bool, pgOk: bool): Option<SessionRow> {
    if getOk && id in s.redis then Some(s.redis[id])
    else if pgOk && id in s.pg then Some(s.pg[id])
    else None
  }

  class Manager {
    var redis: map<Id, SessionRow>
    var index: map<Bytes, set<Id>>
    var conns: map<Id, set<string>>
    var pg: map<Id, SessionRow>
    ghost var drawn: set<Id>
    const hasPg: bool
    const maxConnections: nat

    constructor (hasPg: bool, maxConnections: nat)
      ensures this.hasPg == hasPg && this.maxConnections == maxConnections
      ensures Contents() == NO_SESSIONS
    {
      this.hasPg, this.maxConnections := hasPg, maxConnections;
      redis, index, conns, pg, drawn := map[], map[], map[], map[], {};
    }

    /** Without a PostgreSQL store nothing is mirrored. */
    function Effective(c: Calls): Calls {
      c.(pgOk := c.pgOk && hasPg)
    }

    ghost function Contents(): State
      reads this
    {
      State(redis, index, conns, pg, drawn, map[])
    }

    /** `id` is the random id drawn for the session. A PostgreSQL error is reported although the session
        is live in Redis by then. */
    method CreateSession(id: Id, user: Bytes, device: Bytes, c: Calls) returns (r: Result<SessionRow>)
      modifies this
      ensures Contents() == Created(old(Contents()), id, user, device, Effective(c))
      ensures r.Ok? == (c.writeOk && (c.pgOk || !hasPg))
      ensures r.Ok? ==> r.value == SessionRow(user, device, Connecting)
      ensures c.writeOk ==> id in redis
    {
      var row := SessionRow(user, device, Connecting);
      drawn := drawn + {id};
      if !c.writeOk {
        return Err("redis create");
      }
      redis := redis[id := row];
      index := index[user := (if user in index then index[user] else {}) + {id}];
      if hasPg {
        if !c.pgOk {
          return Err("pg create");
        }
        pg := pg[id := row];
      }
      return Ok(row);
    }

    method GetSession(id: Id, getOk: bool, pgOk: bool) returns (r: Option<SessionRow>)
      ensures r == Got(Contents(), id, getOk, pgOk && hasPg)
    {
      if getOk && id in redis {
        return Some(redis[id]);
      }
      if hasPg && pgOk && id in pg {
        return Some(pg[id]);
      }
      return None;
    }

    method DeleteFromRedis(id: Id)
      requires id in redis
      modifies this`redis, this`conns, this`index
      ensures Contents() == Removed(old(Contents()), id)
    {
      var user := redis[id].userId;
      redis, conns := redis - {id}, conns - {id};
      index := index[user := (if user in index then index[user] else {}) - {id}];
    }

    method TransitionSession(id: Id, e: Event, c: Calls) returns (r: Result<Option<SessionRow>>)
      modifies this
      ensures Contents() == Fired(old(Contents()), id, e, Effective(c))
      ensures r.Ok? <==> c.getOk && c.writeOk && id in old(redis) && !Transition(old(redis)[id].status, e).Invalid?
      ensures r.Err? ==> Contents() == old(Contents())
      ensures r.Ok? && r.value.Some? ==> id in redis && redis[id] == r.value.value
      ensures r.Ok? ==> id in old(redis)
      ensures r.Ok? && r.value.Some? ==> r.value.value.userId == old(redis)[id].userId
      ensures r.Ok? && r.value.Some? ==> r.value.value.deviceId == old(redis)[id].deviceId
      ensures r.Ok? && r.value.None? ==> id !in redis
    {
      if !c.getOk || id !in redis {
        return Err("session not found");
      }
      var s := redis[id];
      match Transition(s.status, e) {
        case Invalid =>
          return Err("invalid session state transition");
        case Destroyed =>
          if !c.writeOk {
            return Err("delete session");
          }
          DeleteFromRedis(id);
          if hasPg && c.pgOk {
            pg := pg - {id};
          }
          return Ok(None);
        case Next(status) =>
          if !c.writeOk {
            return Err("redis update status");
          }
          redis := redis[id := s.(status := status)];
          if hasPg && c.pgOk && id in pg {
            pg := pg[id := pg[id].(status := status)];
          }
          return Ok(Some(s.(status := status)));
      }
    }

    /** The number returned on success is the true one exactly when the connection id is new; the one
        returned with the refusal at the maximum always is. */
    method RegisterConnection(id: Id, conn: string, c: Calls) returns (r: Result<()>, count: nat)
      modifies this`conns
      ensures r.Ok? <==> c.getOk && c.writeOk && |ConnsOf(old(Contents()), id)| < maxConnections
      ensures conns == if r.Ok? then old(conns)[id := ConnsOf(old(Contents()), id) + {conn}] else old(conns)
      ensures r.Ok? ==> |conns[id]| <= maxConnections
      ensures r.Ok? ==> (count == |conns[id]| <==> conn !in ConnsOf(old(Contents()), id))
      ensures r.Err? ==> count == if c.getOk && |ConnsOf(Contents(), id)| >= maxConnections then |ConnsOf(Contents(), id)| else 0
    {
      if !c.getOk {
        return Err("redis"), 0;
      }
      var existing := if id in conns then conns[id] else {};
      if |existing| >= maxConnections {
        return Err("max connections"), |existing|;
      }
      if !c.writeOk {
        return Err("redis"), 0;
      }
      conns := conns[id := existing + {conn}];
      assert conn in existing ==> existing + {conn} == existing;
      return Ok(()), |existing| + 1;
    }

    method UnregisterConnection(id: Id, conn: string, writeOk: bool) returns (ok: bool)
      modifies this`conns
      ensures ok == writeOk
      ensures conns == if ok && id in old(conns) then old(conns)[id := old(conns)[id] - {conn}] else old(conns)
    {
      ok := writeOk;
      if ok && id in conns {
        conns := conns[id := conns[id] - {conn}];
      }
    }
  }

  // Runs.

  datatype Step =
    | Create(id: Id, user: Bytes, device: Bytes, calls: Calls)
    | Fire(id: Id, event: Event, calls: Calls)
    | TtlExpires(id: Id)
    | Look(id: Id, call: Call, max: nat, getOk: bool)
    | Add(id: Id, call: Call, writeOk: bool)
    | Unregister(id: Id, conn: string, writeOk: bool)

  predicate Enabled(s: State, st: Step) {
    && (st.Create? ==> st.id !in s.drawn)
    && (st.Look? ==> st.call !in ComingOf(s, st.id))
    && (st.Add? ==> st.call in ComingOf(s, st.id))
  }

  /** The first half of RegisterConnection: it counts the connections there are. */
  function Looked(s: State, id: Id, call: Call, max: nat, getOk: bool): State {
    if getOk && |ConnsOf(s, id)| < max then s.(coming := s.coming[id := ComingOf(s, id) + {call}]) else s
  }

  /** The second half: it stores the new one, in whatever state the connections are by then. */
  function Added(s: State, id: Id, call: Call, writeOk: bool): State {
    var t := s.(coming := s.coming[id := ComingOf(s, id) - {call}]);
    if writeOk then t.(conns := s.conns[id := ConnsOf(s, id) + {call.conn}]) else t
  }

  function Unregistered(s: State, id: Id, conn: string, writeOk: bool): State {
    if writeOk && id in s.conns then s.(conns := s.conns[id := s.conns[id] - {conn}]) else s
  }

  function Apply(s: State, st: Step): State {
    match st
    case Create(id, user, device, c) => Created(s, id, user, device, c)
    case Fire(id, e, c) => Fired(s, id, e, c)
    case TtlExpires(id) => s.(redis := s.redis - {id})
    case Look(id, call, max, getOk) => Looked(s, id, call, max, getOk)
    case Add(id, call, writeOk) => Added(s, id, call, writeOk)
    case Unregister(id, conn, writeOk) => Unregistered(s, id, conn, writeOk)
  }

  predicate IsRun(s: State, steps: seq<Step>)
    decreases |steps|
  {
    steps != [] ==> Enabled(s, steps[0]) && IsRun(Apply(s, steps[0]), steps[1..])
  }

  function Final(s: State, steps: seq<Step>): State
    decreases |steps|
  {
    if steps == [] then s else Final(Apply(s, steps[0]), steps[1..])
  }

  lemma FirstStep(s: State, a: Step, rest: seq<Step>)
    requires Enabled(s, a) && IsRun(Apply(s, a), rest)
    ensures IsRun(s, [a] + rest) && Final(s, [a] + rest) == Final(Apply(s, a), rest)
  {
    assert ([a] + rest)[1..] == rest;
  }

  /** The statuses a step writes to the session's Redis hash. */
  function Written(s: State, st: Step, id: Id): seq<Status> {
    match st
    case Create(i, _, _, c) => if i == id && c.writeOk then [Connecting] else []
    case Fire(i, e, c) =>
      if i == id && c.getOk && c.writeOk && id in s.redis && Transition(s.redis[id].status, e).Next?
      then [Transition(s.redis[id].status, e).status] else []
    case _ => []
  }

  /** Every status the session has held in Redis, in order. */
  function History(s: State, steps: seq<Step>, id: Id): seq<Status>
    decreases |steps|
  {
    if steps == [] then [] else Written(s, steps[0], id) + History(Apply(s, steps[0]), steps[1..], id)
  }

  /** A call that should have mirrored the session to PostgreSQL failed. */
  predicate MissesMirror(st: Step, id: Id) {
    (st.Create? || st.Fire?) && st.id == id && !st.calls.pgOk
  }

  /** A session's stores agree with the statuses `h` it has held so far. */
  ghost predicate Agrees(s: State, id: Id, h: seq<Status>) {
    && IsWalk(h)
    && (id !in s.drawn ==> h == [] && id !in s.pg && id !in s.redis)
    && (id in s.redis ==> h != [] && h[|h| - 1] == s.redis[id].status)
    && (id in s.pg ==> s.pg[id].status in h)
  }

  ghost predicate Indexed(s: State, id: Id) {
    id in s.redis ==> id in IndexOf(s, s.redis[id].userId)
  }

  lemma IndexedStep(s: State, st: Step, id: Id)
    requires Indexed(s, id) && Enabled(s, st)
    ensures Indexed(Apply(s, st), id)
  {
  }

  lemma WalkExtends(h: seq<Status>, status: Status)
    requires IsWalk(h) && h != [] && IsEdge(h[|h| - 1], status)
    ensures IsWalk(h + [status])
  {
  }

  lemma AgreesCreated(s: State, id: Id, user: Bytes, device: Bytes, c: Calls)
    requires Agrees(s, id, []) && id !in s.drawn
    ensures Agrees(Created(s, id, user, device, c), id, if c.writeOk then [Connecting] else [])
  {
  }

  lemma AgreesFired(s: State, id: Id, e: Event, c: Calls, h: seq<Status>)
    requires Agrees(s, id, h)
    ensures Agrees(Fired(s, id, e, c), id, h + Written(s, Fire(id, e, c), id))
  {
    var w := Written(s, Fire(id, e, c), id);
    if w == [] {
      assert h + w == h;
    } else {
      assert Transition(s.redis[id].status, e) == Next(w[0]) && w == [w[0]];
      WalkExtends(h, w[0]);
    }
  }

  lemma AgreesOther(s: State, st: Step, id: Id, h: seq<Status>)
    requires Agrees(s, id, h) && (st.id != id || !(st.Create? || st.Fire?))
    ensures Agrees(Apply(s, st), id, h)
  {
    if st.id != id {
      OthersAreUntouched(s, st, id, []);
    }
  }

  lemma AgreesStep(s: State, st: Step, id: Id, h: seq<Status>)
    requires Agrees(s, id, h) && Enabled(s, st)
    ensures Agrees(Apply(s, st), id, h + Written(s, st, id))
  {
    if st.id != id || !(st.Create? || st.Fire?) {
      AgreesOther(s, st, id, h);
      assert h + Written(s, st, id) == h;
    } else if st.Create? {
      AgreesCreated(s, id, st.user, st.device, st.calls);
      assert h + Written(s, st, id) == Written(s, st, id);
    } else {
      AgreesFired(s, id, st.event, st.calls, h);
    }
  }

  lemma {:induction false} AgreesRun(s: State, steps: seq<Step>, id: Id, h: seq<Status>)
    requires Agrees(s, id, h) && Indexed(s, id) && IsRun(s, steps)
    ensures Agrees(Final(s, steps), id, h + History(s, steps, id)) && Indexed(Final(s, steps), id)
    decreases |steps|
  {
    if steps == [] {
      assert h + [] == h;
    } else {
      AgreesStep(s, steps[0], id, h);
      IndexedStep(s, steps[0], id);
      AgreesRun(Apply(s, steps[0]), steps[1..], id, h + Written(s, steps[0], id));
      assert h + History(s, steps, id) == h + Written(s, steps[0], id) + History(Apply(s, steps[0]), steps[1..], id);
    }
  }

  /** In every run, with either store failing at any call and Redis hashes expiring at any time: the
      statuses a session holds in Redis are a walk of the transition table from connecting, ending at
      the current one, with nothing after expired; its PostgreSQL status, and any status GetSession
      reports, is one it has held; and a live session is in its user's index. */
  lemma EverySessionIsAWalk(steps: seq<Step>, id: Id, getOk: bool, pgOk: bool)
    requires IsRun(NO_SESSIONS, steps)
    ensures var s := Final(NO_SESSIONS, steps); var h := History(NO_SESSIONS, steps, id);
      && IsWalk(h) && ExpiredIsLast(h)
      && (id in s.redis ==> h != [] && h[|h| - 1] == s.redis[id].status && id in IndexOf(s, s.redis[id].userId))
      && (id in s.pg ==> s.pg[id].status in h)
      && (Got(s, id, getOk, pgOk).Some? ==> Got(s, id, getOk, pgOk).value.status in h)
      && (id in s.redis && getOk ==> h != [] && Got(s, id, getOk, pgOk).Some? && Got(s, id, getOk, pgOk).value.status == h[|h| - 1])
  {
    var h := History(NO_SESSIONS, steps, id);
    AgreesRun(NO_SESSIONS, steps, id, []);
    assert [] + h == h;
    WalkIsExpiredLast(h);
  }

  /** While no mirror call of the session fails its two copies are the same row. */
  ghost predicate Mirrored(s: State, id: Id) {
    && (id in s.redis ==> id in s.pg && s.pg[id] == s.redis[id])
    && (id !in s.drawn ==> id !in s.pg && id !in s.redis)
  }

  lemma MirroredStep(s: State, st: Step, id: Id)
    requires Mirrored(s, id) && Enabled(s, st) && !MissesMirror(st, id)
    ensures Mirrored(Apply(s, st), id)
  {
    if st.id != id {
      OthersAreUntouched(s, st, id, []);
    }
  }

  lemma {:induction false} MirroredRun(s: State, steps: seq<Step>, id: Id)
    requires Mirrored(s, id) && IsRun(s, steps)
    requires forall st :: st in steps ==> !MissesMirror(st, id)
    ensures Mirrored(Final(s, steps), id)
    decreases |steps|
  {
    if steps != [] {
      assert steps[0] in steps;
      MirroredStep(s, steps[0], id);
      MirroredRun(Apply(s, steps[0]), steps[1..], id);
    }
  }

  /** If no mirror call for it failed, PostgreSQL holds exactly the live session's current row. */
  lemma MirrorIsCurrent(steps: seq<Step>, id: Id)
    requires IsRun(NO_SESSIONS, steps)
    requires forall st :: st in steps ==> !MissesMirror(st, id)
    ensures var s := Final(NO_SESSIONS, steps);
      id in s.redis ==> id in s.pg && s.pg[id] == s.redis[id]
  {
    MirroredRun(NO_SESSIONS, steps, id);
  }

  /** Destroying a session clears every trace of it from Redis. */
  lemma DestroyCleansUp(s: State, id: Id, e: Event, c: Calls)
    requires c.getOk && c.writeOk && id in s.redis && Transition(s.redis[id].status, e).Destroyed?
    ensures var t := Fired(s, id, e, c);
      && id !in t.redis && id !in t.conns && id !in IndexOf(t, s.redis[id].userId) && t.drawn == s.drawn
      && (id in t.pg <==> id in s.pg && !c.pgOk) && (id in t.pg ==> t.pg[id] == s.pg[id])
  {
  }

  /** A session that is gone from Redis never comes back there, nor to the index, and nothing touches what
      PostgreSQL still holds of it. */
  lemma {:induction false} GoneStaysGone(s: State, steps: seq<Step>, id: Id, user: Bytes)
    requires id in s.drawn && id !in s.redis && IsRun(s, steps)
    ensures var t := Final(s, steps);
      && id !in t.redis
      && (id in t.pg <==> id in s.pg) && (id in s.pg ==> t.pg[id] == s.pg[id])
      && (id in IndexOf(t, user) ==> id in IndexOf(s, user))
    decreases |steps|
  {
    if steps != [] {
      GoneStep(s, steps[0], id, user);
      GoneStaysGone(Apply(s, steps[0]), steps[1..], id, user);
    }
  }

  lemma GoneStep(s: State, st: Step, id: Id, user: Bytes)
    requires id in s.drawn && id !in s.redis && Enabled(s, st)
    ensures var t := Apply(s, st);
      && id in t.drawn && id !in t.redis
      && (id in t.pg <==> id in s.pg) && (id in s.pg ==> t.pg[id] == s.pg[id])
      && (id in IndexOf(t, user) ==> id in IndexOf(s, user))
  {
    if st.id != id {
      OthersAreUntouched(s, st, id, user);
    }
  }

  /** Over every run, from any later moment on: a destroyed session is out of Redis and of its user's index
      for good, and GetSession finds it exactly if it had a PostgreSQL row whose deletion failed, always as
      still connecting. */
  lemma DestroyedMayLinger(before: seq<Step>, id: Id, e: Event, c: Calls, after: seq<Step>, getOk: bool)
    requires IsRun(NO_SESSIONS, before) && c.getOk && c.writeOk
    requires id in Final(NO_SESSIONS, before).redis
    requires Transition(Final(NO_SESSIONS, before).redis[id].status, e).Destroyed?
    requires IsRun(Fired(Final(NO_SESSIONS, before), id, e, c), after)
    ensures var s := Final(NO_SESSIONS, before); var t := Final(Fired(s, id, e, c), after);
      && id !in t.redis && id !in IndexOf(t, s.redis[id].userId)
      && (Got(t, id, getOk, true).Some? <==> id in s.pg && !c.pgOk)
      && (Got(t, id, getOk, true).Some? ==> Got(t, id, getOk, true).value.status == Connecting)
  {
    var s, h := Final(NO_SESSIONS, before), History(NO_SESSIONS, before, id);
    AgreesRun(NO_SESSIONS, before, id, []);
    assert [] + h == h;
    EdgesAre(s.redis[id].status, Connecting, e);
    WalkEndsAtExpired(h, |h| - 1);
    DestroyCleansUp(s, id, e, c);
    GoneStaysGone(Fired(s, id, e, c), after, id, s.redis[id].userId);
  }

  // Sessions do not interfere.

  /** The two states hold the same session under the id. */
  predicate SameSession(s: State, t: State, id: Id) {
    && (id in t.redis <==> id in s.redis) && (id in s.redis ==> t.redis[id] == s.redis[id])
    && (id in t.pg <==> id in s.pg) && (id in s.pg ==> t.pg[id] == s.pg[id])
    && ConnsOf(t, id) == ConnsOf(s, id) && ComingOf(t, id) == ComingOf(s, id)
    && (id in t.drawn <==> id in s.drawn)
  }

  lemma CreatedLeavesOthers(s: State, id: Id, user: Bytes, device: Bytes, c: Calls, other: Id, u: Bytes)
    requires other != id
    ensures var t := Created(s, id, user, device, c);
      SameSession(s, t, other) && (other in IndexOf(t, u) <==> other in IndexOf(s, u))
  {
  }

  lemma RemovedLeavesOthers(s: State, id: Id, other: Id, u: Bytes)
    requires other != id && id in s.redis
    ensures var t := Removed(s, id);
      SameSession(s, t, other) && (other in IndexOf(t, u) <==> other in IndexOf(s, u))
  {
  }

  lemma FiredLeavesOthers(s: State, id: Id, e: Event, c: Calls, other: Id, u: Bytes)
    requires other != id
    ensures var t := Fired(s, id, e, c);
      SameSession(s, t, other) && (other in IndexOf(t, u) <==> other in IndexOf(s, u))
  {
    if c.getOk && id in s.redis && Transition(s.redis[id].status, e).Destroyed? {
      RemovedLeavesOthers(s, id, other, u);
    }
  }

  lemma ComingLeavesOthers(s: State, id: Id, calls: set<Call>, other: Id)
    requires other != id
    ensures SameSession(s, s.(coming := s.coming[id := calls]), other)
  {
  }

  lemma LookedLeavesOthers(s: State, id: Id, call: Call, max: nat, getOk: bool, other: Id)
    requires other != id
    ensures SameSession(s, Looked(s, id, call, max, getOk), other)
  {
    ComingLeavesOthers(s, id, ComingOf(s, id) + {call}, other);
  }

  lemma AddedLeavesOthers(s: State, id: Id, call: Call, writeOk: bool, other: Id)
    requires other != id
    ensures SameSession(s, Added(s, id, call, writeOk), other)
  {
  }

  lemma UnregisteredLeavesOthers(s: State, id: Id, conn: string, writeOk: bool, other: Id)
    requires other != id
    ensures SameSession(s, Unregistered(s, id, conn, writeOk), other)
  {
  }

  /** No step touches another session: its rows, its connections and its place in any user's index. */
  lemma OthersAreUntouched(s: State, st: Step, other: Id, user: Bytes)
    requires other != st.id
    ensures SameSession(s, Apply(s, st), other)
    ensures other in IndexOf(Apply(s, st), user) <==> other in IndexOf(s, user)
  {
    match st
    case Create(id, u, device, c) => CreatedLeavesOthers(s, id, u, device, c, other, user);
    case Fire(id, e, c) => FiredLeavesOthers(s, id, e, c, other, user);
    case TtlExpires(_) =>
    case Look(id, call, max, getOk) => LookedLeavesOthers(s, id, call, max, getOk, other);
    case Add(id, call, writeOk) => AddedLeavesOthers(s, id, call, writeOk, other);
    case Unregister(id, conn, writeOk) => UnregisteredLeavesOthers(s, id, conn, writeOk, other);
  }

  lemma SameCreated(s: State, t: State, id: Id, user: Bytes, device: Bytes, c: Calls)
    requires SameSession(s, t, id)
    ensures SameSession(Created(s, id, user, device, c), Created(t, id, user, device, c), id)
  {
  }

  lemma SameRemoved(s: State, t: State, id: Id)
    requires SameSession(s, t, id) && id in s.redis
    ensures SameSession(Removed(s, id), Removed(t, id), id)
  {
  }

  lemma SameMoved(s: State, t: State, id: Id, e: Event, c: Calls)
    requires SameSession(s, t, id) && id in s.redis && !Transition(s.redis[id].status, e).Destroyed?
    ensures SameSession(Fired(s, id, e, c), Fired(t, id, e, c), id)
  {
  }

  lemma SameFired(s: State, t: State, id: Id, e: Event, c: Calls)
    requires SameSession(s, t, id)
    ensures SameSession(Fired(s, id, e, c), Fired(t, id, e, c), id)
  {
    if id in s.redis {
      if Transition(s.redis[id].status, e).Destroyed? {
        SameRemoved(s, t, id);
      } else {
        SameMoved(s, t, id, e, c);
      }
    }
  }

  lemma SameLooked(s: State, t: State, id: Id, call: Call, max: nat, getOk: bool)
    requires SameSession(s, t, id)
    ensures SameSession(Looked(s, id, call, max, getOk), Looked(t, id, call, max, getOk), id)
  {
  }

  lemma SameAdded(s: State, t: State, id: Id, call: Call, writeOk: bool)
    requires SameSession(s, t, id)
    ensures SameSession(Added(s, id, call, writeOk), Added(t, id, call, writeOk), id)
  {
  }

  lemma SameUnregistered(s: State, t: State, id: Id, conn: string, writeOk: bool)
    requires SameSession(s, t, id)
    ensures SameSession(Unregistered(s, id, conn, writeOk), Unregistered(t, id, conn, writeOk), id)
  {
    var r := Unregistered(s, id, conn, writeOk);
    assert ConnsOf(r, id) == if writeOk then ConnsOf(s, id) - {conn} else ConnsOf(s, id);
    var q := Unregistered(t, id, conn, writeOk);
    assert ConnsOf(q, id) == if writeOk then ConnsOf(t, id) - {conn} else ConnsOf(t, id);
  }

  lemma SameStep(s: State, t: State, st: Step)
    requires SameSession(s, t, st.id)
    ensures SameSession(Apply(s, st), Apply(t, st), st.id)
  {
    match st
    case Create(id, user, device, c) => SameCreated(s, t, id, user, device, c);
    case Fire(id, e, c) => SameFired(s, t, id, e, c);
    case TtlExpires(_) =>
    case Look(id, call, max, getOk) => SameLooked(s, t, id, call, max, getOk);
    case Add(id, call, writeOk) => SameAdded(s, t, id, call, writeOk);
    case Unregister(id, conn, writeOk) => SameUnregistered(s, t, id, conn, writeOk);
  }

  /** The steps of one session. */
  function OwnSteps(steps: seq<Step>, id: Id): seq<Step> {
    if steps == [] then []
    else (if steps[0].id == id then [steps[0]] else []) + OwnSteps(steps[1..], id)
  }

  lemma {:induction false} OwnStepsDecide(s: State, t: State, steps: seq<Step>, id: Id)
    requires SameSession(s, t, id) && IsRun(s, steps)
    ensures IsRun(t, OwnSteps(steps, id)) && SameSession(Final(s, steps), Final(t, OwnSteps(steps, id)), id)
    decreases |steps|
  {
    if steps != [] {
      var st := steps[0];
      if st.id == id {
        SameStep(s, t, st);
        OwnStepsDecide(Apply(s, st), Apply(t, st), steps[1..], id);
        assert OwnSteps(steps, id)[1..] == OwnSteps(steps[1..], id);
      } else {
        OthersAreUntouched(s, st, id, []);
        OwnStepsDecide(Apply(s, st), t, steps[1..], id);
        assert OwnSteps(steps, id) == OwnSteps(steps[1..], id);
      }
    }
  }

  /** Over every run, what the stores hold of a session is what they would hold had only its own steps been
      taken: no operation on any other session makes a difference. */
  lemma SessionsAreIndependent(steps: seq<Step>, id: Id)
    requires IsRun(NO_SESSIONS, steps)
    ensures IsRun(NO_SESSIONS, OwnSteps(steps, id))
    ensures SameSession(Final(NO_SESSIONS, steps), Final(NO_SESSIONS, OwnSteps(steps, id)), id)
  {
    OwnStepsDecide(NO_SESSIONS, NO_SESSIONS, steps, id);
  }

  // Whose session it is.

  /** Whatever the stores hold of the session is of this user and device. */
  predicate IsOwnedBy(s: State, id: Id, user: Bytes, device: Bytes) {
    && (id in s.redis ==> s.redis[id].userId == user && s.redis[id].deviceId == device)
    && (id in s.pg ==> s.pg[id].userId == user && s.pg[id].deviceId == device)
  }

  lemma OwnerFired(s: State, id: Id, e: Event, c: Calls, user: Bytes, device: Bytes)
    requires IsOwnedBy(s, id, user, device)
    ensures IsOwnedBy(Fired(s, id, e, c), id, user, device)
  {
  }

  lemma OwnerStep(s: State, st: Step, id: Id, user: Bytes, device: Bytes)
    requires id in s.drawn && IsOwnedBy(s, id, user, device) && Enabled(s, st)
    ensures id in Apply(s, st).drawn && IsOwnedBy(Apply(s, st), id, user, device)
  {
    if st.id != id {
      OthersAreUntouched(s, st, id, []);
    } else if st.Fire? {
      OwnerFired(s, id, st.event, st.calls, user, device);
    }
  }

  lemma {:induction false} OwnerStays(s: State, steps: seq<Step>, id: Id, user: Bytes, device: Bytes)
    requires id in s.drawn && IsOwnedBy(s, id, user, device) && IsRun(s, steps)
    ensures IsOwnedBy(Final(s, steps), id, user, device)
    decreases |steps|
  {
    if steps != [] {
      OwnerStep(s, steps[0], id, user, device);
      OwnerStays(Apply(s, steps[0]), steps[1..], id, user, device);
    }
  }

  /** The session was created for this user and device. */
  predicate IsCreatedFor(st: Step, id: Id, user: Bytes, device: Bytes) {
    st.Create? && st.id == id && st.user == user && st.device == device
  }

  predicate IsNew(s: State, id: Id) {
    id !in s.drawn && id !in s.redis && id !in s.pg
  }

  lemma {:induction false} OwnerIsCreator(s: State, steps: seq<Step>, id: Id, i: nat)
    requires IsNew(s, id) && IsRun(s, steps) && i < |steps| && Creates(steps[i], id)
    ensures IsOwnedBy(Final(s, steps), id, steps[i].user, steps[i].device)
    decreases |steps|
  {
    var st, rest := steps[0], steps[1..];
    if i == 0 {
      OwnerStays(Apply(s, st), rest, id, st.user, st.device);
    } else {
      assert rest[i - 1] == steps[i] && steps[i] in rest;
      if Creates(st, id) {
        CreatedOnce(Apply(s, st), rest, id);
      } else {
        NewStays(s, st, id);
        OwnerIsCreator(Apply(s, st), rest, id, i - 1);
      }
    }
  }

  predicate Creates(st: Step, id: Id) {
    st.Create? && st.id == id
  }

  lemma {:induction false} CreatedOnce(s: State, steps: seq<Step>, id: Id)
    requires id in s.drawn && IsRun(s, steps)
    ensures forall st :: st in steps ==> !Creates(st, id)
    decreases |steps|
  {
    if steps != [] {
      DrawnStays(s, steps[0], id);
      CreatedOnce(Apply(s, steps[0]), steps[1..], id);
      assert steps == [steps[0]] + steps[1..];
    }
  }

  lemma DrawnStays(s: State, st: Step, id: Id)
    requires id in s.drawn
    ensures id in Apply(s, st).drawn
  {
  }

  lemma NewStays(s: State, st: Step, id: Id)
    requires IsNew(s, id) && !Creates(st, id)
    ensures IsNew(Apply(s, st), id)
  {
    if st.id != id {
      OthersAreUntouched(s, st, id, []);
    }
  }

  lemma {:induction false} UncreatedIsNew(s: State, steps: seq<Step>, id: Id)
    requires IsNew(s, id) && IsRun(s, steps)
    requires forall st :: st in steps ==> !Creates(st, id)
    ensures IsNew(Final(s, steps), id)
    decreases |steps|
  {
    if steps != [] {
      NewStays(s, steps[0], id);
      assert steps == [steps[0]] + steps[1..];
      UncreatedIsNew(Apply(s, steps[0]), steps[1..], id);
    }
  }

  /** Over every run any session that GetSession reports, from either store, has the user and the device it was
      created for: no transition changes them. */
  lemma SessionKeepsOwner(steps: seq<Step>, id: Id, getOk: bool, pgOk: bool)
    requires IsRun(NO_SESSIONS, steps) && Got(Final(NO_SESSIONS, steps), id, getOk, pgOk).Some?
    ensures var row := Got(Final(NO_SESSIONS, steps), id, getOk, pgOk).value;
      exists i :: 0 <= i < |steps| && IsCreatedFor(steps[i], id, row.userId, row.deviceId)
  {
    if i :| 0 <= i < |steps| && Creates(steps[i], id) {
      OwnerIsCreator(NO_SESSIONS, steps, id, i);
      assert IsCreatedFor(steps[i], id, steps[i].user, steps[i].device);
    } else {
      UncreatedIsNew(NO_SESSIONS, steps, id);
    }
  }

  // A destroyed session does come back.

  /** A failed handshake whose PostgreSQL delete fails. */
  lemma DestroyedIsFound(id: Id, user: Bytes, device: Bytes)
    ensures var steps := [Create(id, user, device, Calls(true, true, true)), Fire(id, HandshakeFail, Calls(true, true, false))];
      && IsRun(NO_SESSIONS, steps)
      && id !in Final(NO_SESSIONS, steps).redis
      && Got(Final(NO_SESSIONS, steps), id, true, true) == Some(SessionRow(user, device, Connecting))
  {
    var a, b := Create(id, user, device, Calls(true, true, true)), Fire(id, HandshakeFail, Calls(true, true, false));
    FirstStep(Apply(NO_SESSIONS, a), b, []);
    FirstStep(NO_SESSIONS, a, [b]);
    assert [b] + [] == [b] && [a] + [b] == [a, b];
  }
}
