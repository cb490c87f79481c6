/** What the scheduler's invariant means for claims, leases, retries and finalization. */
module JobClaims {
  import opened Common
  import opened Schedule
  import opened JobProtocol
  import Decimal

  /** Some run from the start of a definition version, whose unconditional updates store slots later
      than the newest claim, leads here. */
  ghost predicate Reachable(job: Job, w: World) {
    exists start, actions :: Leads(job, start, actions, w)
  }

  ghost predicate Leads(job: Job, start: World, actions: seq<Action>, w: World) {
    Initial(job, start) && OrderedRun(job, start, actions) && w == Run(job, start, actions)
  }

  lemma ReachableHasInv(job: Job, w: World)
    requires Reachable(job, w)
    ensures Inv(job, w)
  {
    var start, actions :| Leads(job, start, actions, w);
    InitialHasInv(job, start);
    RunKeepsInv(job, start, actions);
  }

  lemma PairIsClaimedOnce(job: Job, w: World, s: nat, t: nat)
    requires Inv(job, w) && s in w.log && t in w.log
    requires w.log[s].planned == w.log[t].planned && w.log[s].attempt == w.log[t].attempt
    ensures s == t
  {
    assert s < t ==> Precedes(w.log[s], w.log[t]);
    assert t < s ==> Precedes(w.log[t], w.log[s]);
  }

  /** Claims strictly increase in (slot, attempt), so no pair is ever claimed twice. */
  lemma ClaimsStrictlyIncrease(job: Job, w: World, s: nat, t: nat)
    requires Reachable(job, w) && s in w.log && t in w.log
    ensures s < t ==> Precedes(w.log[s], w.log[t])
    ensures w.log[s].planned == w.log[t].planned && w.log[s].attempt == w.log[t].attempt ==> s == t
  {
    ReachableHasInv(job, w);
    if w.log[s].planned == w.log[t].planned && w.log[s].attempt == w.log[t].attempt {
      PairIsClaimedOnce(job, w, s, t);
    }
  }

  /** A claim over a running row commits only after that very claim's lease ended on the claimer's clock. */
  lemma ClaimWaitsForLease(job: Job, w: World, id: nat)
    requires Reachable(job, w) && WorkerAt(w, id).Ready?
    requires Current(job, w) && w.view.row.value.status.Running?
    requires Step(job, w, TryClaim(id)).log != w.log
    ensures w.last.Some? && w.last.value in w.log
    ensures w.log[w.last.value].lease == w.view.row.value.leaseUntil <= WorkerAt(w, id).now
  {
    ReachableHasInv(job, w);
    var Ready(snapshot, attempt, key, now) := WorkerAt(w, id);
    assert WorkerInv(job, w, w.workers[id]);
    var s :| s in w.log && w.log[s].planned == snapshot.planned && w.log[s].attempt == snapshot.attempt
             && w.log[s].lease == snapshot.leaseUntil;
    ClaimsStrictlyIncrease(job, w, s, w.last.value);
  }

  // ---------------------------------------------------------------- finalization

  /** No open history row of an earlier definition version has the same slot, attempt and key. */
  ghost predicate NoTwin(w: World, planned: int, attempt: int, key: string) {
    forall s :: s in w.view.history && s < w.epoch ==> !Open(w.view.history[s], planned, attempt, key)
  }

  predicate NextSlotFits(job: Job, planned: I64, attempt: int, result: RunResult) {
    (result.RetryableFailure? && attempt < MAX_ATTEMPTS) || NextPlanned(job.schedule, planned).Ok?
  }

  lemma OpenEntriesOfHolder(job: Job, w: World, planned: I64, attempt: int, key: string)
    requires Inv(job, w) && Logged(w.log, planned, attempt, key) && Held(w.view.row, planned, attempt, key)
    ensures w.last.Some? && w.last.value in w.view.history
    ensures |OpenEntries(w.view.history, planned, attempt, key)| == 1 <==> NoTwin(w, planned, attempt, key)
    ensures w.last.value in OpenEntries(w.view.history, planned, attempt, key)
    ensures NoTwin(w, planned, attempt, key) ==>
              OpenEntries(w.view.history, planned, attempt, key) == {w.last.value}
  {
    var open := OpenEntries(w.view.history, planned, attempt, key);
    var newest := w.last.value;
    assert newest in open;
    forall s | s in open && s != newest ensures s < w.epoch {
      if s >= w.epoch {
        PairIsClaimedOnce(job, w, s, newest);
      }
    }
    if NoTwin(w, planned, attempt, key) {
      assert open == {newest};
    } else {
      var twin :| twin in w.view.history && twin < w.epoch && Open(w.view.history[twin], planned, attempt, key);
      assert {twin, newest} <= open && twin != newest;
      SubsetSize({twin, newest}, open);
    }
  }

  /** The row a finished attempt leaves: the same attempt waiting to be retried, the next slot, or
      the end of a one-time job. */
  function SettledRow(job: Job, row: Row, result: RunResult, finished: int): Row {
    if result.RetryableFailure? && row.attempt < MAX_ATTEMPTS then
      row.(status := Retry, retryAfter := RetryAfter(finished, row.attempt), leaseUntil := 0)
    else
      match job.schedule
      case EveryNs(interval) =>
        if IsI64(row.planned + interval) then Row(row.version, row.planned + interval, 0, Idle, 0, 0, "") else row
      case AtUnixNs(_) =>
        Row(row.version, row.planned, 0, if result.Success? then Complete else Failed, 0, 0, "")
  }

  /** What finishing does to any view. */
  lemma FinishEffect(job: Job, v: View, planned: I64, attempt: int, key: string, finished: int, result: RunResult)
    ensures var open := OpenEntries(v.history, planned, attempt, key);
            var (u, committed) := FinishTx(job, v, planned, attempt, key, finished, result);
            && (committed <==> Held(v.row, planned, attempt, key) && |open| == 1
                               && NextSlotFits(job, planned, attempt, result))
            && (!committed ==> u == v)
            && (committed ==>
                  && u.row == Some(SettledRow(job, v.row.value, result, finished))
                  && u.history == Close(v.history, open, finished, if result.Success? then Succeeded else Faulted))
  {
  }

  /** Finishing commits exactly when the worker still holds the row, no earlier version left an
      open twin, and the next slot fits. A commit settles the row and the newest history row
      together and touches no other history row; anything else changes neither relation. */
  lemma FinalizationIsExact(job: Job, w: World, id: nat, result: RunResult, finished: int)
    requires Reachable(job, w) && WorkerAt(w, id).Executing?
    ensures var Executing(planned, attempt, key) := WorkerAt(w, id);
            var (v, committed) := FinishTx(job, w.view, planned, attempt, key, finished, result);
            && (committed <==> Held(w.view.row, planned, attempt, key) && NoTwin(w, planned, attempt, key)
                               && NextSlotFits(job, planned, attempt, result))
            && (!committed ==> v == w.view)
            && (committed ==>
                  && w.last.Some? && w.last.value in w.view.history
                  && w.view.history[w.last.value].outcome.InProgress?
                  && v.row == Some(SettledRow(job, w.view.row.value, result, finished))
                  && v.history.Keys == w.view.history.Keys
                  && v.history[w.last.value] == w.view.history[w.last.value].(
                       finished := finished, outcome := if result.Success? then Succeeded else Faulted)
                  && (forall s :: s in v.history && s != w.last.value ==> v.history[s] == w.view.history[s]))
  {
    ReachableHasInv(job, w);
    var Executing(planned, attempt, key) := WorkerAt(w, id);
    assert WorkerInv(job, w, w.workers[id]);
    FinishEffect(job, w.view, planned, attempt, key, finished, result);
    if Held(w.view.row, planned, attempt, key) {
      OpenEntriesOfHolder(job, w, planned, attempt, key);
      assert w.last.value in OpenEntries(w.view.history, planned, attempt, key);
    }
  }

  /** A running row's history row is open and is the job's newest, so pruning spares it. */
  lemma RunningRowOwnsNewestEntry(job: Job, w: World)
    requires Reachable(job, w) && Current(job, w) && w.view.row.value.status.Running?
    ensures w.last.Some? && w.last.value in w.view.history
    ensures var row := w.view.row.value; Open(w.view.history[w.last.value], row.planned, row.attempt, row.key)
    ensures forall s :: s in w.view.history ==> s <= w.last.value
    ensures w.last.value !in Stale(w.view.history)
  {
    ReachableHasInv(job, w);
    assert Newer(w.view.history, w.last.value) == {};
  }

  /** Once another worker took the claim over, its former holder can no longer change anything. */
  lemma SupersededHolderIsPowerless(job: Job, w: World, id: nat, result: RunResult, finished: int)
    requires Reachable(job, w) && WorkerAt(w, id).Executing?
    requires w.last.Some? && w.last.value in w.log
    requires w.log[w.last.value].planned != WorkerAt(w, id).planned
             || w.log[w.last.value].attempt != WorkerAt(w, id).attempt
    ensures Step(job, w, Finish(id, result, finished)).view == w.view
  {
    FinalizationIsExact(job, w, id, result, finished);
    ReachableHasInv(job, w);
    assert WorkerInv(job, w, w.workers[id]);
  }

  /** A one-time job whose version 1 crashed while its first attempt ran. */
  function AlteredJob(): Job {
    Job("j", 2, AtUnixNs(5))
  }

  function AlteredStart(): World {
    var key := KeyFor(AlteredJob(), 5);
    World(View(Some(Row(1, 5, 1, Running, 0, 6 + ATTEMPT_LEASE_NS, key)),
               map[0 := Entry(5, 1, key, 6, 0, InProgress)], 1),
          map[], map[], None, 1)
  }

  function AlteredClaim(): seq<Action> {
    [Load(0, 7), Reset(0), Reload(0), TryClaim(0)]
  }

  lemma AlteredRun()
    ensures var job, start := AlteredJob(), AlteredStart();
            var w := Run(job, start, AlteredClaim());
            var key := KeyFor(job, 5);
            && Initial(job, start) && UndisturbedRun(job, start, AlteredClaim())
            && WorkerAt(w, 0) == Executing(5, 1, key) && Held(w.view.row, 5, 1, key)
            && w.view.history == map[0 := Entry(5, 1, key, 6, 0, InProgress), 1 := Entry(5, 1, key, 7, 0, InProgress)]
  {
    var job, start, actions := AlteredJob(), AlteredStart(), AlteredClaim();
    var w1 := Step(job, start, actions[0]);
    var w2 := Step(job, w1, actions[1]);
    var w3 := Step(job, w2, actions[2]);
    Unroll(job, start, actions);
    Unroll(job, w1, actions[1..]);
    assert actions[1..][1..] == actions[2..] && actions[2..][1..] == actions[3..] && actions[3..][1..] == [];
    Unroll(job, w2, actions[2..]);
    Unroll(job, w3, actions[3..]);
  }

  /** Reusing a slot after a definition change can leave an open twin. Finishing the attempt that
      the new version claimed then changes nothing, even though the attempt succeeded. */
  lemma ReusedSlotBlocksFinalization(finished: int)
    ensures var job, start := AlteredJob(), AlteredStart();
            var w := Run(job, start, AlteredClaim());
            && Initial(job, start) && UndisturbedRun(job, start, AlteredClaim())
            && WorkerAt(w, 0).Executing? && w.view.row.Some? && w.view.row.value.status.Running?
            && Step(job, w, Finish(0, Success, finished)).view == w.view
  {
    AlteredRun();
    var job := AlteredJob();
    var w := Run(job, AlteredStart(), AlteredClaim());
    var key := KeyFor(job, 5);
    assert {0, 1} <= OpenEntries(w.view.history, 5, 1, key);
    SubsetSize({0, 1}, OpenEntries(w.view.history, 5, 1, key));
  }

  lemma Unroll(job: Job, w: World, actions: seq<Action>)
    requires actions != []
    ensures Run(job, w, actions) == Run(job, Step(job, w, actions[0]), actions[1..])
    ensures UndisturbedRun(job, w, actions) <==>
              Undisturbed(job, w, actions[0]) && UndisturbedRun(job, Step(job, w, actions[0]), actions[1..])
    ensures OrderedRun(job, w, actions) <==>
              Ordered(job, w, actions[0]) && OrderedRun(job, Step(job, w, actions[0]), actions[1..])
  {
  }

  lemma {:induction false} RunConcat(job: Job, w: World, a: seq<Action>, b: seq<Action>)
    ensures Run(job, w, a + b) == Run(job, Run(job, w, a), b)
    ensures UndisturbedRun(job, w, a + b) <==> UndisturbedRun(job, w, a) && UndisturbedRun(job, Run(job, w, a), b)
    ensures OrderedRun(job, w, a + b) <==> OrderedRun(job, w, a) && OrderedRun(job, Run(job, w, a), b)
    decreases |a|
  {
    if a == [] {
      assert a + b == b;
    } else {
      assert (a + b)[1..] == a[1..] + b && (a + b)[0] == a[0];
      RunConcat(job, Step(job, w, a[0]), a[1..], b);
    }
  }

  // ---------------------------------------------------------------- bounded retries and keys

  lemma {:induction false} InjectionSize(a: set<nat>, f: map<nat, int>, b: set<int>)
    requires forall x :: x in a ==> x in f && f[x] in b
    requires forall x, y :: x in a && y in a && x != y ==> f[x] != f[y]
    ensures |a| <= |b|
    decreases |a|
  {
    if a != {} {
      var x :| x in a;
      InjectionSize(a - {x}, f, b - {f[x]});
    }
  }

  ghost function ClaimsOfSlot(w: World, planned: int): set<nat> {
    set s | s in w.log && w.log[s].planned == planned
  }

  /** A slot is claimed at most five times, always under the same key. */
  lemma FiveClaimsPerSlot(job: Job, w: World, planned: int)
    requires Reachable(job, w)
    ensures |ClaimsOfSlot(w, planned)| <= MAX_ATTEMPTS
    ensures forall s :: s in ClaimsOfSlot(w, planned) ==> w.log[s].key == KeyFor(job, planned)
  {
    ReachableHasInv(job, w);
    var a := ClaimsOfSlot(w, planned);
    var f := map s | s in w.log :: w.log[s].attempt;
    forall x, y | x in a && y in a && x != y ensures f[x] != f[y] {
      ClaimsStrictlyIncrease(job, w, x, y);
    }
    AttemptsBound(a, f);
  }

  lemma AttemptsBound(a: set<nat>, f: map<nat, int>)
    requires forall x :: x in a ==> x in f && 1 <= f[x] <= MAX_ATTEMPTS
    requires forall x, y :: x in a && y in a && x != y ==> f[x] != f[y]
    ensures |a| <= MAX_ATTEMPTS
  {
    InjectionSize(a, f, {1, 2, 3, 4, 5});
  }

  /** A one-time job is claimed at most five times per definition version. */
  lemma FiveClaimsPerOneTimeJob(job: Job, w: World)
    requires Reachable(job, w) && job.schedule.AtUnixNs?
    ensures |w.log| <= MAX_ATTEMPTS
  {
    ReachableHasInv(job, w);
    assert w.log.Keys == ClaimsOfSlot(w, job.schedule.timestamp);
    FiveClaimsPerSlot(job, w, job.schedule.timestamp);
  }

  predicate Terminal(job: Job, w: World) {
    Current(job, w) && (w.view.row.value.status.Complete? || w.view.row.value.status.Failed?)
  }

  lemma TerminalStep(job: Job, w: World, a: Action)
    requires LogInv(job, w) && StateInv(job, w) && Ordered(job, w, a) && Terminal(job, w)
    requires a.id in w.workers ==> WorkerInv(job, w, w.workers[a.id])
    ensures Terminal(job, Step(job, w, a)) && Step(job, w, a).log == w.log
    ensures Step(job, w, a).view.row == w.view.row <==> !FailsACompletedJob(w, a)
  {
  }

  /** A pending exhaustion is carried out although the job has completed meanwhile. */
  predicate FailsACompletedJob(w: World, a: Action) {
    a.Exhaust? && WorkerAt(w, a.id).Exhausting? && w.view.row.Some? && w.view.row.value.status.Complete?
  }

  predicate NoneFailsACompletedJob(job: Job, w: World, actions: seq<Action>)
    decreases |actions|
  {
    actions == [] ||
    (!FailsACompletedJob(w, actions[0]) && NoneFailsACompletedJob(job, Step(job, w, actions[0]), actions[1..]))
  }

  lemma {:induction false} TerminalRun(job: Job, w: World, actions: seq<Action>)
    requires Inv(job, w) && OrderedRun(job, w, actions) && Terminal(job, w)
    ensures Terminal(job, Run(job, w, actions)) && Run(job, w, actions).log == w.log
    ensures Run(job, w, actions).view.row == w.view.row <==> NoneFailsACompletedJob(job, w, actions)
    ensures w.view.row.value.status.Failed? ==> Run(job, w, actions).view.row == w.view.row
    decreases |actions|
  {
    if actions != [] {
      StepKeepsInv(job, w, actions[0]);
      TerminalStep(job, w, actions[0]);
      TerminalRun(job, Step(job, w, actions[0]), actions[1..]);
    }
  }

  /** A job that became complete or failed stays one of the two, unclaimed, for the rest of its
      definition version; its row changes exactly when a pending exhaustion hits a completed job. */
  lemma TerminalForever(job: Job, w: World, actions: seq<Action>)
    requires Reachable(job, w) && OrderedRun(job, w, actions) && Terminal(job, w)
    ensures Terminal(job, Run(job, w, actions)) && Run(job, w, actions).log == w.log
    ensures Run(job, w, actions).view.row == w.view.row <==> NoneFailsACompletedJob(job, w, actions)
  {
    ReachableHasInv(job, w);
    TerminalRun(job, w, actions);
  }

  /** Different slots have different keys, and so do equal slots of different jobs with ids of one length. */
  lemma KeysIdentifySlots(a: Job, b: Job, p: int, q: int)
    requires |a.id| == |b.id| && KeyFor(a, p) == KeyFor(b, q)
    ensures a.id == b.id && p == q
  {
    var n := |a.id|;
    assert KeyFor(a, p)[..n] == a.id && KeyFor(b, q)[..n] == b.id;
    assert KeyFor(a, p)[n + 1..] == Decimal.Signed(p) && KeyFor(b, q)[n + 1..] == Decimal.Signed(q);
    Decimal.SignedInjective(p, q);
  }

  // ---------------------------------------------------------------- one scheduler thread

  predicate BySelf(actions: seq<Action>, id: nat) {
    forall i :: 0 <= i < |actions| ==> actions[i].id == id || actions[i].OtherJobs?
  }

  /** What a lone worker decided on is still in the row. */
  ghost predicate Alone(job: Job, w: World, id: nat) {
    && w.workers.Keys <= {id}
    && (WorkerAt(w, id).Exhausting? ==> w.view.row == Some(WorkerAt(w, id).seen))
    && (WorkerAt(w, id).Resetting? ==> w.view.row.Some? && w.view.row.value.version != job.version)
  }

  /** One scheduler thread that may crash at any point never disturbs its own updates, so every
      theorem about reachable worlds covers the code as deployed. */
  lemma {:induction false} OneWorkerIsUndisturbed(job: Job, w: World, id: nat, actions: seq<Action>)
    requires Alone(job, w, id) && BySelf(actions, id)
    ensures UndisturbedRun(job, w, actions)
    ensures Inv(job, w) ==> OrderedRun(job, w, actions)
    decreases |actions|
  {
    if actions != [] {
      assert actions[0].id == id || actions[0].OtherJobs?;
      assert Alone(job, Step(job, w, actions[0]), id);
      assert BySelf(actions[1..], id);
      OneWorkerIsUndisturbed(job, Step(job, w, actions[0]), id, actions[1..]);
    }
    if Inv(job, w) {
      UndisturbedRunIsOrdered(job, w, actions);
    }
  }

  // ---------------------------------------------------------------- many workers, prompt updates

  /** The worker has decided to exhaust or to reset and has not done so yet. */
  predicate Pending(state: Worker) {
    state.Exhausting? || state.Resetting?
  }

  /** The action carries the pending decision out, or the worker dies. */
  predicate Settles(state: Worker, id: nat, a: Action) {
    a == Crash(id) || (state.Exhausting? && a == Exhaust(id)) || (state.Resetting? && a == Reset(id))
  }

  /** Whenever a worker decides to exhaust or to reset, the next action is that worker's own. */
  predicate Prompt(job: Job, w: World, actions: seq<Action>)
    decreases |actions|
  {
    actions == [] ||
    (var a, u := actions[0], Step(job, w, actions[0]);
     && (Pending(WorkerAt(u, a.id)) && |actions| > 1 ==> Settles(WorkerAt(u, a.id), a.id, actions[1]))
     && Prompt(job, u, actions[1..]))
  }

  /** Only the worker `due`, if any, has a pending decision, and the row is still the one it saw. */
  ghost predicate OnlyDue(job: Job, w: World, due: Option<nat>) {
    && (forall id :: id in w.workers && Pending(w.workers[id]) ==> due == Some(id))
    && (due.Some? && WorkerAt(w, due.value).Exhausting? ==> Undisturbed(job, w, Exhaust(due.value)))
    && (due.Some? && WorkerAt(w, due.value).Resetting? ==> Undisturbed(job, w, Reset(due.value)))
  }

  lemma PromptStep(job: Job, w: World, due: Option<nat>, a: Action)
    requires OnlyDue(job, w, due)
    requires due.Some? && Pending(WorkerAt(w, due.value)) ==> Settles(WorkerAt(w, due.value), due.value, a)
    ensures Undisturbed(job, w, a) && OnlyDue(job, Step(job, w, a), Some(a.id))
  {
    assert a.id in w.workers && Pending(w.workers[a.id]) ==> due == Some(a.id);
    var u := Step(job, w, a);
    assert forall id :: id in u.workers && id != a.id ==> id in w.workers && w.workers[id] == u.workers[id];
  }

  lemma {:induction false} PromptRun(job: Job, w: World, due: Option<nat>, actions: seq<Action>)
    requires OnlyDue(job, w, due) && Prompt(job, w, actions)
    requires actions != [] && due.Some? && Pending(WorkerAt(w, due.value)) ==>
               Settles(WorkerAt(w, due.value), due.value, actions[0])
    ensures UndisturbedRun(job, w, actions)
    decreases |actions|
  {
    if actions != [] {
      PromptStep(job, w, due, actions[0]);
      PromptRun(job, Step(job, w, actions[0]), Some(actions[0].id), actions[1..]);
    }
  }

  /** Any number of workers in any interleaving is covered when deciding to exhaust or to reset and
      doing it is one step: such runs are ordered, so the claim theorems hold of them. */
  lemma PromptUpdatesAreOrdered(job: Job, w: World, actions: seq<Action>)
    requires forall id :: id in w.workers ==> !Pending(w.workers[id])
    requires Prompt(job, w, actions)
    ensures UndisturbedRun(job, w, actions)
    ensures Inv(job, w) ==> OrderedRun(job, w, actions)
  {
    PromptRun(job, w, None, actions);
    if Inv(job, w) {
      UndisturbedRunIsOrdered(job, w, actions);
    }
  }

  /** So whatever a prompt run from the start of a version reaches is a reachable world. */
  lemma PromptRunsAreReachable(job: Job, start: World, actions: seq<Action>)
    requires Initial(job, start) && Prompt(job, start, actions)
    ensures Reachable(job, Run(job, start, actions))
  {
    InitialHasInv(job, start);
    PromptUpdatesAreOrdered(job, start, actions);
    assert Leads(job, start, actions, Run(job, start, actions));
  }
}
