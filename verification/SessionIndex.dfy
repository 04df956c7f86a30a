/** The index of a user's sessions in Redis (proto-core/session/redis_store.go) against the sessions there are. */
module SessionIndex {
  import opened Hex
  import opened Session

  /** How often `event` holds of the state and the step taken from it. */
  function Count(s: State, steps: seq<Step>, event: (State, Step) -> bool): nat
    decreases |steps|
  {
    if steps == [] then 0
    else (if event(s, steps[0]) then 1 else 0) + Count(Apply(s, steps[0]), steps[1..], event)
  }

  predicate Writes(st: Step, id: Id, user: Bytes) {
    st.Create? && st.id == id && st.user == user && st.calls.writeOk
  }

  predicate Destroys(s: State, st: Step, id: Id) {
    st.Fire? && st.id == id && st.calls.getOk && st.calls.writeOk && id in s.redis && Transition(s.redis[id].status, st.event).Destroyed?
  }

  predicate Expires(s: State, st: Step, id: Id) {
    st.TtlExpires? && st.id == id && id in s.redis
  }

  function Creation(id: Id, user: Bytes): (State, Step) -> bool { (s, st) => Writes(st, id, user) }
  function Destruction(id: Id): (State, Step) -> bool { (s, st) => Destroys(s, st, id) }
  function Expiry(id: Id): (State, Step) -> bool { (s, st) => Expires(s, st, id) }

  /** What the index and Redis hold of the session, by how often it was created for the user, destroyed and
      expired. */
  predicate Tracks(s: State, id: Id, user: Bytes, created: nat, destroyed: nat, expired: nat) {
    && (id in IndexOf(s, user) <==> created > 0 && destroyed == 0)
    && (id in s.redis && s.redis[id].userId == user <==> created > 0 && destroyed == 0 && expired == 0)
    && (id in s.redis && created > 0 ==> s.redis[id].userId == user)
    && (id !in s.drawn ==> created == destroyed == expired == 0 && id !in s.redis)
  }

  lemma TracksFired(s: State, id: Id, e: Event, c: Calls, user: Bytes, created: nat, destroyed: nat, expired: nat)
    requires Tracks(s, id, user, created, destroyed, expired)
    ensures Tracks(Fired(s, id, e, c), id, user, created, destroyed + (if Destroys(s, Fire(id, e, c), id) then 1 else 0), expired)
  {
  }

  lemma TracksStep(s: State, st: Step, id: Id, user: Bytes, created: nat, destroyed: nat, expired: nat)
    requires Tracks(s, id, user, created, destroyed, expired) && Enabled(s, st)
    ensures Tracks(Apply(s, st), id, user, created + (if Writes(st, id, user) then 1 else 0),
                   destroyed + (if Destroys(s, st, id) then 1 else 0), expired + (if Expires(s, st, id) then 1 else 0))
  {
    if st.id != id {
      OthersAreUntouched(s, st, id, user);
    } else if st.Fire? {
      TracksFired(s, id, st.event, st.calls, user, created, destroyed, expired);
    }
  }

  lemma {:induction false} TracksRun(s: State, steps: seq<Step>, id: Id, user: Bytes, created: nat, destroyed: nat, expired: nat)
    requires Tracks(s, id, user, created, destroyed, expired) && IsRun(s, steps)
    ensures Tracks(Final(s, steps), id, user, created + Count(s, steps, Creation(id, user)),
                   destroyed + Count(s, steps, Destruction(id)), expired + Count(s, steps, Expiry(id)))
    decreases |steps|
  {
    if steps != [] {
      var st := steps[0];
      TracksStep(s, st, id, user, created, destroyed, expired);
      TracksRun(Apply(s, st), steps[1..], id, user, created + (if Writes(st, id, user) then 1 else 0),
                destroyed + (if Destroys(s, st, id) then 1 else 0), expired + (if Expires(s, st, id) then 1 else 0));
    }
  }

  /** The index is not the set of active sessions. Over every run, it lists a session exactly if its hash was
      written for that user and it was not destroyed; the session behind the entry is gone exactly if the
      hash has expired since. */
  lemma IndexedIff(steps: seq<Step>, id: Id, user: Bytes)
    requires IsRun(NO_SESSIONS, steps)
    ensures var s := Final(NO_SESSIONS, steps);
      var kept := Count(NO_SESSIONS, steps, Creation(id, user)) > 0 && Count(NO_SESSIONS, steps, Destruction(id)) == 0;
      && (id in IndexOf(s, user) <==> kept)
      && (id in IndexOf(s, user) && id !in s.redis <==> kept && Count(NO_SESSIONS, steps, Expiry(id)) > 0)
  {
    TracksRun(NO_SESSIONS, steps, id, user, 0, 0, 0);
  }
}
