/** Transitions of one session that overlap (proto-core/session/manager.go): a transition reads the status and
    writes the next one in two calls, and the write sets the field of the hash whether or not it is still there. */
module SessionOverlap {
  import opened Wrappers
  import opened Session

  /** A transition that has read the status and decided what to do. */
  datatype Move = Move(nr: nat, target: Outcome)

  /** The status field of the session's hash, if there is one, and the transitions under way. */
  datatype Register = Register(status: Option<Status>, moves: set<Move>)

  datatype Access = Read(nr: nat, event: Event) | Write(move: Move, ok: bool) | Expire

  predicate IsPossible(r: Register, a: Access) {
    && (a.Read? ==> forall m :: m in r.moves ==> m.nr != a.nr)
    && (a.Write? ==> a.move in r.moves)
  }

  function After(r: Register, a: Access): Register {
    match a
    case Read(nr, e) =>
      if r.status.None? || Transition(r.status.value, e).Invalid? then r
      else r.(moves := r.moves + {Move(nr, Transition(r.status.value, e))})
    case Write(m, ok) =>
      var rest := r.moves - {m};
      if !ok then r.(moves := rest)
      else Register(if m.target.Next? then Some(m.target.status) else None, rest)
    case Expire => r.(status := None)
  }

  predicate AreAccesses(r: Register, accesses: seq<Access>)
    decreases |accesses|
  {
    accesses != [] ==> IsPossible(r, accesses[0]) && AreAccesses(After(r, accesses[0]), accesses[1..])
  }

  function AfterAll(r: Register, accesses: seq<Access>): Register
    decreases |accesses|
  {
    if accesses == [] then r else AfterAll(After(r, accesses[0]), accesses[1..])
  }

  lemma FirstAccess(r: Register, a: Access, rest: seq<Access>)
    requires IsPossible(r, a) && AreAccesses(After(r, a), rest)
    ensures AreAccesses(r, [a] + rest) && AfterAll(r, [a] + rest) == AfterAll(After(r, a), rest)
  {
    assert ([a] + rest)[1..] == rest;
  }

  /** The session has ended: it is expired or gone. */
  predicate HasEnded(r: Register) {
    r.status == None || r.status == Some(Expired)
  }

  /** The move goes back to a status before the end. */
  predicate Revives(m: Move) {
    m.target.Next? && m.target.status != Expired
  }

  ghost predicate EndedForGood(r: Register) {
    HasEnded(r) && forall m :: m in r.moves ==> !Revives(m)
  }

  lemma {:induction false} EndedStays(r: Register, accesses: seq<Access>)
    requires EndedForGood(r) && AreAccesses(r, accesses)
    ensures EndedForGood(AfterAll(r, accesses))
    decreases |accesses|
  {
    if accesses != [] {
      EndedStays(After(r, accesses[0]), accesses[1..]);
    }
  }

  /** Some accesses lead from here to a session that has not ended. */
  ghost predicate CanRevive(r: Register) {
    exists accesses :: LeadsBack(r, accesses)
  }

  predicate LeadsBack(r: Register, accesses: seq<Access>) {
    AreAccesses(r, accesses) && !HasEnded(AfterAll(r, accesses))
  }

  /** Exactly when a session that has ended, by logout, timeout, a failed handshake or expiry of its hash, can still
      come back: when a transition to a live status was under way. */
  lemma RevivedIff(r: Register)
    requires HasEnded(r)
    ensures CanRevive(r) <==> exists m :: m in r.moves && Revives(m)
  {
    if m :| m in r.moves && Revives(m) {
      FirstAccess(r, Write(m, true), []);
      assert [Write(m, true)] + [] == [Write(m, true)];
      assert LeadsBack(r, [Write(m, true)]);
    } else {
      forall accesses
        ensures !LeadsBack(r, accesses)
      {
        if AreAccesses(r, accesses) {
          EndedStays(r, accesses);
        }
      }
    }
  }

  /** A transition nothing comes between moves the status as the session's transitions on one state do. */
  lemma AloneIsFired(s: State, id: Id, e: Event, c: Session.Calls, nr: nat)
    requires id in s.redis && c.getOk && !Transition(s.redis[id].status, e).Invalid?
    ensures var r := Register(Some(s.redis[id].status), {});
      var accesses := [Read(nr, e), Write(Move(nr, Transition(s.redis[id].status, e)), c.writeOk)];
      && AreAccesses(r, accesses)
      && AfterAll(r, accesses).moves == {}
      && (AfterAll(r, accesses).status.Some? <==> id in Fired(s, id, e, c).redis)
      && (AfterAll(r, accesses).status.Some? ==> AfterAll(r, accesses).status.value == Fired(s, id, e, c).redis[id].status)
  {
    var r := Register(Some(s.redis[id].status), {});
    var m := Move(nr, Transition(s.redis[id].status, e));
    FirstAccess(After(r, Read(nr, e)), Write(m, c.writeOk), []);
    FirstAccess(r, Read(nr, e), [Write(m, c.writeOk)]);
    assert [Write(m, c.writeOk)] + [] == [Write(m, c.writeOk)];
    assert [Read(nr, e)] + [Write(m, c.writeOk)] == [Read(nr, e), Write(m, c.writeOk)];
  }

  /** It does occur: a packet that is handled while the user logs out makes the expired session active again. */
  lemma PacketRevivesExpired()
    ensures var packet, logout := Move(0, Next(Active)), Move(1, Next(Expired));
      var r := Register(Some(Active), {});
      var a := [Read(0, PacketReceived), Read(1, ExplicitLogout), Write(logout, true)];
      && AreAccesses(r, a) && AfterAll(r, a).status == Some(Expired)
      && IsPossible(AfterAll(r, a), Write(packet, true))
      && After(AfterAll(r, a), Write(packet, true)).status == Some(Active)
  {
    var packet, logout := Move(0, Next(Active)), Move(1, Next(Expired));
    var r := Register(Some(Active), {});
    var p := After(r, Read(0, PacketReceived));
    var q := After(p, Read(1, ExplicitLogout));
    FirstAccess(q, Write(logout, true), []);
    FirstAccess(p, Read(1, ExplicitLogout), [Write(logout, true)]);
    FirstAccess(r, Read(0, PacketReceived), [Read(1, ExplicitLogout), Write(logout, true)]);
    assert [Write(logout, true)] + [] == [Write(logout, true)];
    assert [Read(1, ExplicitLogout)] + [Write(logout, true)] == [Read(1, ExplicitLogout), Write(logout, true)];
    assert [Read(0, PacketReceived)] + [Read(1, ExplicitLogout), Write(logout, true)]
        == [Read(0, PacketReceived), Read(1, ExplicitLogout), Write(logout, true)];
  }
}
