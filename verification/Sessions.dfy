/** Connection permits, the session registry and shutdown (src/server/tcp_server.rs).

Every method is one atomic step of the accept loop or of one session worker; `RunSteps` lets any
number of workers interleave with the loop in any order.
*/
module Sessions {
  import opened Common

  /** A session worker: serving, unwinding after a panic, done serving, registration dropped. */
  datatype Phase = Serving | Panicked | Leaving | Unregistered

  /** The accept loop: polling, between permit and registration, left, final shutdown pass made. */
  datatype LoopPhase = Polling | HoldsPermit | Left | Closed

  datatype Step =
    | Accept
    | Register(cloneFails: bool)
    | LeaveLoop
    | FinalPass(failing: set<nat>)
    | ServeEnds(id: nat, cancels: bool)
    | ServePanics(id: nat)
    | PanicPass(id: nat, failing: set<nat>)
    | DropRegistration(id: nat)
    | DropPermit(id: nat)

  predicate IsLeast(m: nat, s: set<nat>) {
    m in s && forall x :: x in s ==> m <= x
  }

  lemma {:induction false} LeastExists(s: set<nat>)
    requires s != {}
    ensures exists m :: IsLeast(m, s)
    decreases |s|
  {
    var x :| x in s;
    var rest := s - {x};
    if rest == {} {
      assert s == {x} by { assert forall y :: y in s ==> y == x || y in rest; }
      assert IsLeast(x, s);
    } else {
      LeastExists(rest);
      var m :| IsLeast(m, rest);
      assert IsLeast(if x < m then x else m, s) by { assert forall y :: y in s ==> y == x || y in rest; }
    }
  }

  method Least(s: set<nat>) returns (m: nat)
    requires s != {}
    ensures IsLeast(m, s)
  {
    LeastExists(s);
    m :| m in s && IsLeast(m, s);
  }

  ghost predicate Before(visited: set<nat>, todo: set<nat>) {
    forall x, y :: x in visited && y in todo ==> x < y
  }

  /** `first` is what a pass in id order over `visited` reports when the streams `failing` fail. */
  ghost predicate Reports(visited: set<nat>, failing: set<nat>, first: Option<nat>) {
    && (first.None? <==> visited * failing == {})
    && (first.Some? ==> IsLeast(first.value, visited * failing))
  }

  lemma VisitNext(visited: set<nat>, todo: set<nat>, id: nat, failing: set<nat>, first: Option<nat>)
    requires Reports(visited, failing, first) && IsLeast(id, todo)
    requires Before(visited, todo)
    ensures Reports(visited + {id}, failing, if id in failing && first.None? then Some(id) else first)
    ensures Before(visited + {id}, todo - {id})
  {
    var hits := (visited + {id}) * failing;
    assert hits == visited * failing + (if id in failing then {id} else {});
    if first.Some? {
      assert first.value in visited && id in todo;
    }
  }

  function Rank(p: Phase): nat {
    match p case Serving => 4 case Panicked => 3 case Leaving => 2 case Unregistered => 1
  }

  ghost function AtLeast(w: map<nat, Phase>, k: nat): set<nat> {
    set id | id in w && k <= Rank(w[id])
  }

  /** Steps the workers have left at most: each has as many as its rank. */
  ghost function Work(w: map<nat, Phase>): nat {
    |AtLeast(w, 1)| + |AtLeast(w, 2)| + |AtLeast(w, 3)| + |AtLeast(w, 4)|
  }

  /** One worker has taken a step and the others have not. */
  ghost predicate Moves(w: map<nat, Phase>, v: map<nat, Phase>, id: nat) {
    && id in w && v.Keys <= w.Keys && (forall x :: x in v && x != id ==> v[x] == w[x])
    && (id in v ==> Rank(v[id]) < Rank(w[id]))
  }

  predicate WorkerStep(step: Step) {
    step.ServeEnds? || step.ServePanics? || step.PanicPass? || step.DropRegistration? || step.DropPermit?
  }

  lemma WorkDrops(w: map<nat, Phase>, v: map<nat, Phase>, id: nat)
    requires Moves(w, v, id)
    ensures Work(v) < Work(w)
  {
    forall k: nat ensures |AtLeast(v, k)| <= |AtLeast(w, k)| {
      SubsetSize(AtLeast(v, k), AtLeast(w, k));
    }
    var top := Rank(w[id]);
    assert id in AtLeast(w, top) && id !in AtLeast(v, top);
    SubsetSize(AtLeast(v, top), AtLeast(w, top));
  }

  // ---------------------------------------------------------------- the steps on values

  datatype Server = Server(active: int, nextId: nat, sessions: set<nat>, cancelled: set<nat>,
                           workers: map<nat, Phase>, accept: LoopPhase, panicked: bool)

  predicate Enabled(s: Server, step: Step) {
    match step
    case Accept => s.accept.Polling?
    case Register(_) => s.accept.HoldsPermit?
    case LeaveLoop => s.accept.Polling?
    case FinalPass(_) => s.accept.Left?
    case ServeEnds(id, _) => id in s.workers && s.workers[id].Serving?
    case ServePanics(id) => id in s.workers && s.workers[id].Serving?
    case PanicPass(id, _) => id in s.workers && s.workers[id].Panicked?
    case DropRegistration(id) => id in s.workers && s.workers[id].Leaving?
    case DropPermit(id) => id in s.workers && s.workers[id].Unregistered?
  }

  function Registering(s: Server, cloneFails: bool): Server {
    if s.nextId == U64_MAX then s.(accept := Left, active := s.active - 1)
    else if cloneFails then s.(accept := Left, active := s.active - 1, nextId := s.nextId + 1)
    else s.(accept := Polling, nextId := s.nextId + 1, sessions := s.sessions + {s.nextId},
            workers := s.workers[s.nextId := Serving])
  }

  function Next(s: Server, limit: nat, step: Step): Server {
    match step
    case Accept => if s.active < limit then s.(active := s.active + 1, accept := HoldsPermit) else s
    case Register(cloneFails) => Registering(s, cloneFails)
    case LeaveLoop => s.(accept := Left)
    case FinalPass(_) => s.(accept := Closed, cancelled := s.cancelled + s.sessions)
    case ServeEnds(id, cancels) =>
      s.(workers := s.workers[id := Leaving], cancelled := s.cancelled + if cancels then {id} else {})
    case ServePanics(id) => s.(workers := s.workers[id := Panicked], panicked := true)
    case PanicPass(id, _) => s.(workers := s.workers[id := Leaving], cancelled := s.cancelled + s.sessions)
    case DropRegistration(id) => s.(workers := s.workers[id := Unregistered], sessions := s.sessions - {id})
    case DropPermit(id) => s.(workers := s.workers - {id}, active := s.active - 1)
  }

  /** The server after the first `n` of the steps, of which those that are not enabled are not taken. */
  function After(s: Server, limit: nat, steps: seq<Step>, n: nat): Server
    requires n <= |steps|
  {
    if n == 0 then s
    else
      var u := After(s, limit, steps, n - 1);
      if Enabled(u, steps[n - 1]) then Next(u, limit, steps[n - 1]) else u
  }

  /** How many of the first `n` steps are taken. */
  function Taken(s: Server, limit: nat, steps: seq<Step>, n: nat): nat
    requires n <= |steps|
  {
    if n == 0 then 0
    else Taken(s, limit, steps, n - 1) + if Enabled(After(s, limit, steps, n - 1), steps[n - 1]) then 1 else 0
  }

  /** After the final pass only workers take steps, each towards its end. */
  lemma ClosedStep(s: Server, limit: nat, step: Step)
    requires s.accept.Closed? && Enabled(s, step)
    ensures WorkerStep(step) && Moves(s.workers, Next(s, limit, step).workers, step.id)
    ensures Next(s, limit, step).accept.Closed? && s.cancelled <= Next(s, limit, step).cancelled
  {
  }

  /** After the final pass only boundedly many steps are left, in any order: those that are taken use
      up the work of the workers that were there. */
  lemma {:induction false} ShutdownIsBounded(s: Server, limit: nat, steps: seq<Step>, n: nat)
    requires s.accept.Closed? && n <= |steps|
    ensures var u := After(s, limit, steps, n);
            && u.accept.Closed? && u.workers.Keys <= s.workers.Keys && s.cancelled <= u.cancelled
            && Taken(s, limit, steps, n) + Work(u.workers) <= Work(s.workers)
    decreases n
  {
    if n > 0 {
      ShutdownIsBounded(s, limit, steps, n - 1);
      var u := After(s, limit, steps, n - 1);
      if Enabled(u, steps[n - 1]) {
        ClosedStep(u, limit, steps[n - 1]);
        WorkDrops(u.workers, Next(u, limit, steps[n - 1]).workers, steps[n - 1].id);
      }
    }
  }

  class ServerRuntime {
    const maxConnections: nat
    var active: nat
    var nextId: nat
    var sessions: set<nat>
    var cancelled: set<nat>
    var workers: map<nat, Phase>
    var accept: LoopPhase
    var panicked: bool

    function State(): Server
      reads this
    {
      Server(active, nextId, sessions, cancelled, workers, accept, panicked)
    }

    /** Session ids whose worker is still registered. */
    ghost function Registered(): set<nat>
      reads this
    {
      set id | id in workers && !workers[id].Unregistered?
    }

    /** Permits are held by live workers and by the loop between permit and registration. */
    ghost function Permits(): nat
      reads this
    {
      |workers| + if accept.HoldsPermit? then 1 else 0
    }

    ghost predicate Valid()
      reads this
    {
      && active == Permits() && active <= maxConnections
      && sessions == Registered()
      && 1 <= nextId <= U64_MAX
      && (forall id :: id in workers ==> id < nextId)
      && (accept.Closed? ==> Registered() <= cancelled)
      && (panicked || forall id :: id in workers ==> !workers[id].Panicked?)
    }

    /** What operators rely on: sessions never exceed permits, permits equal the connection counter,
        and the counter never exceeds its limit; after the final pass every worker that has not yet
        left its session has been cancelled. */
    lemma ValidMeans()
      requires Valid()
      ensures |sessions| <= Permits() == active <= maxConnections
      ensures accept.Closed? ==>
                forall id :: id in workers && (workers[id].Serving? || workers[id].Panicked?) ==> id in cancelled
    {
      assert Registered() <= workers.Keys;
      assert workers.Keys == Registered() + (workers.Keys - Registered());
    }

    constructor (limit: nat)
      ensures Valid() && maxConnections == limit && active == 0 && workers == map[] && accept == Polling
    {
      maxConnections := limit;
      active, nextId, sessions, cancelled, workers, accept, panicked := 0, 1, {}, {}, map[], Polling, false;
    }

    /** `acquire_connection`: takes a permit exactly when one is left. */
    method AcquireConnection() returns (ok: bool)
      requires Valid() && accept.Polling?
      modifies this
      ensures Valid() && (ok <==> old(active) < maxConnections)
      ensures State() ==
                if ok then old(State()).(accept := HoldsPermit, active := old(active) + 1) else old(State())
    {
      ok := active < maxConnections;
      if ok {
        active := active + 1;
        accept := HoldsPermit;
      }
    }

    /** `register_session`: a fresh id that replaces no session, or an error that ends the loop and
        gives the permit back. */
    method RegisterSession(cloneFails: bool) returns (id: Option<nat>)
      requires Valid() && accept.HoldsPermit?
      modifies this
      ensures Valid() && cancelled == old(cancelled) && panicked == old(panicked)
      ensures id.None? <==> old(nextId) == U64_MAX || cloneFails
      ensures id.None? ==>
                accept.Left? && workers == old(workers) && sessions == old(sessions) && active == old(active) - 1
      ensures nextId == if old(nextId) == U64_MAX then U64_MAX else old(nextId) + 1
      ensures id.Some? ==> id.value == old(nextId) && id.value !in old(sessions) && accept.Polling?
                           && active == old(active)
                           && workers == old(workers)[id.value := Serving] && sessions == old(sessions) + {id.value}
    {
      if nextId == U64_MAX {
        accept, active := Left, active - 1;
        return None;
      }
      var sessionId := nextId;
      nextId := nextId + 1;
      if cloneFails {
        accept, active := Left, active - 1;
        return None;
      }
      assert sessionId !in workers;
      assert workers[sessionId := Serving].Keys == workers.Keys + {sessionId};
      ghost var before := Registered();
      sessions, workers, accept := sessions + {sessionId}, workers[sessionId := Serving], Polling;
      assert Registered() == before + {sessionId};
      id := Some(sessionId);
    }

    /** `shutdown_sessions`: cancels every registered session even if closing some streams fails,
        and reports the failure of the lowest session id. */
    method ShutdownSessions(failing: set<nat>) returns (firstError: Option<nat>)
      modifies this`cancelled
      ensures cancelled == old(cancelled) + sessions
      ensures Reports(sessions, failing, firstError)
    {
      var todo := sessions;
      ghost var visited := {};
      firstError := None;
      while todo != {}
        invariant visited + todo == sessions && cancelled == old(cancelled) + visited
        invariant Before(visited, todo)
        invariant Reports(visited, failing, firstError)
        decreases todo
      {
        var id := Least(todo);
        VisitNext(visited, todo, id, failing, firstError);
        cancelled := cancelled + {id};
        if id in failing && firstError.None? {
          firstError := Some(id);
        }
        todo, visited := todo - {id}, visited + {id};
      }
    }

    /** The loop ends on shutdown, after a worker panic or on an accept error. */
    method LeaveLoop()
      requires Valid() && accept.Polling?
      modifies this`accept
      ensures Valid() && accept.Left?
    {
      accept := Left;
    }

    /** The pass after the loop: from here on every registered session is cancelled. */
    method FinalPass(failing: set<nat>) returns (firstError: Option<nat>)
      requires Valid() && accept.Left?
      modifies this`accept, this`cancelled
      ensures Valid() && accept.Closed? && cancelled == old(cancelled) + sessions
      ensures Reports(sessions, failing, firstError)
    {
      firstError := ShutdownSessions(failing);
      accept := Closed;
    }

    method SetPhase(id: nat, phase: Phase)
      requires id in workers
      modifies this`workers
      ensures workers == old(workers)[id := phase] && workers.Keys == old(workers).Keys && |workers| == |old(workers)|
    {
      assert workers[id := phase].Keys == workers.Keys;
      workers := workers[id := phase];
    }

    /** Serving returns; it cancels its own session unless it failed before reaching the protocol. */
    method ServeEnds(id: nat, cancels: bool)
      requires Valid() && id in workers && workers[id].Serving?
      modifies this
      ensures Valid() && State() == old(State()).(workers := old(workers)[id := Leaving],
                                                  cancelled := old(cancelled) + if cancels then {id} else {})
    {
      ghost var before := Registered();
      SetPhase(id, Leaving);
      cancelled := cancelled + (if cancels then {id} else {});
      assert Registered() == before;
    }

    /** Serving panics; the worker survives it and raises the flag that the loop polls. */
    method ServePanics(id: nat)
      requires Valid() && id in workers && workers[id].Serving?
      modifies this
      ensures Valid() && State() == old(State()).(workers := old(workers)[id := Panicked], panicked := true)
    {
      ghost var before := Registered();
      SetPhase(id, Panicked);
      panicked := true;
      assert Registered() == before;
    }

    /** The panicked worker's own shutdown pass; its result is dropped. */
    method PanicPass(id: nat, failing: set<nat>)
      requires Valid() && id in workers && workers[id].Panicked?
      modifies this
      ensures Valid() && State() == old(State()).(workers := old(workers)[id := Leaving],
                                                  cancelled := old(cancelled) + old(sessions))
    {
      var ignored := ShutdownSessions(failing);
      ghost var before := Registered();
      SetPhase(id, Leaving);
      assert Registered() == before;
    }

    /** The registration is dropped before the permit. */
    method DropRegistration(id: nat)
      requires Valid() && id in workers && workers[id].Leaving?
      modifies this
      ensures Valid() && State() == old(State()).(workers := old(workers)[id := Unregistered],
                                                  sessions := old(sessions) - {id})
    {
      ghost var before := Registered();
      SetPhase(id, Unregistered);
      sessions := sessions - {id};
      assert Registered() == before - {id};
    }

    method DropPermit(id: nat)
      requires Valid() && id in workers && workers[id].Unregistered?
      modifies this
      ensures Valid() && State() == old(State()).(workers := old(workers) - {id}, active := old(active) - 1)
    {
      ghost var before := Registered();
      assert (workers - {id}).Keys == workers.Keys - {id};
      assert |workers - {id}| == |workers| - 1 by { assert workers.Keys == (workers - {id}).Keys + {id}; }
      workers := workers - {id};
      active := active - 1;
      assert Registered() == before;
    }

    /** One step of whoever is scheduled. */
    method Take(step: Step)
      requires Valid() && Enabled(State(), step)
      modifies this
      ensures Valid() && State() == Next(old(State()), maxConnections, step)
    {
      match step {
        case Accept => var ok := AcquireConnection();
        case Register(cloneFails) => var id := RegisterSession(cloneFails);
        case LeaveLoop => LeaveLoop();
        case FinalPass(failing) => var e := FinalPass(failing);
        case ServeEnds(id, cancels) => ServeEnds(id, cancels);
        case ServePanics(id) => ServePanics(id);
        case PanicPass(id, failing) => PanicPass(id, failing);
        case DropRegistration(id) => DropRegistration(id);
        case DropPermit(id) => DropPermit(id);
      }
    }

    /** Shutdown cannot get stuck: once the final pass has been made, only an empty server has no
        enabled step, and then every permit and every registration is back. */
    lemma StuckMeansDrained()
      requires Valid() && accept.Closed?
      ensures (forall step :: !Enabled(State(), step)) ==> workers == map[] && active == 0 && sessions == {}
    {
      if id :| id in workers {
        assert Enabled(State(), match workers[id]
                                case Serving => Step.ServePanics(id)
                                case Panicked => Step.PanicPass(id, {})
                                case Leaving => Step.DropRegistration(id)
                                case Unregistered => Step.DropPermit(id));
      }
    }

    /** Every interleaving keeps the books: whatever steps are scheduled, the server is where taking the
        enabled ones in turn leads, registered sessions <= permits = counter <= limit, and once the final
        pass has been made every session still being served is cancelled, for ever after and even if
        workers panicked, and only boundedly many steps are left. */
    method RunSteps(steps: seq<Step>) returns (taken: nat)
      requires Valid()
      modifies this
      ensures State() == After(old(State()), maxConnections, steps, |steps|)
      ensures taken == Taken(old(State()), maxConnections, steps, |steps|)
      ensures Valid() && |sessions| <= active == Permits() <= maxConnections
      ensures accept.Closed? ==>
                forall id :: id in workers && (workers[id].Serving? || workers[id].Panicked?) ==> id in cancelled
      ensures old(accept).Closed? ==> accept.Closed? && taken + Work(workers) <= old(Work(workers))
    {
      taken := 0;
      for i := 0 to |steps|
        invariant Valid()
        invariant State() == After(old(State()), maxConnections, steps, i)
        invariant taken == Taken(old(State()), maxConnections, steps, i)
      {
        if Enabled(State(), steps[i]) {
          Take(steps[i]);
          taken := taken + 1;
        }
      }
      ValidMeans();
      if old(accept).Closed? {
        ShutdownIsBounded(old(State()), maxConnections, steps, |steps|);
      }
    }
  }
}
