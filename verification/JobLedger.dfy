/** The scheduler's two relations as mutable state, for all jobs (src/server/job_scheduler.rs).

Each method is one transaction or one scheduler routine. Its contract says what it does to the
job's `View` in terms of the protocol's transactions, and that no other job's rows change.
*/
module JobLedger {
  import opened Common
  import opened Schedule
  import opened JobProtocol
  import opened JobClaims

  datatype Filed = Filed(job: string, entry: Entry)

  /** `Aborted` is an error, which ends the whole cycle. */
  datatype ServiceOutcome = NothingDue | RanWell | RanBadly | Aborted

  /** What servicing one job leaves of its rows, and how it ended. */
  datatype Served = Served(view: View, outcome: ServiceOutcome)

  datatype ClaimResult = Claimed | Lost | LeaseOverflow

  function Share(history: map<nat, Filed>, id: string): map<nat, Entry> {
    map s | s in history && history[s].job == id :: history[s].entry
  }

  function CloseFiled(history: map<nat, Filed>, hits: set<nat>, finished: int, outcome: Outcome): map<nat, Filed> {
    map s | s in history ::
      if s in hits then history[s].(entry := history[s].entry.(finished := finished, outcome := outcome))
          else history[s]
  }

  lemma ShareOfClosed(history: map<nat, Filed>, id: string, hits: set<nat>, finished: int, outcome: Outcome)
    requires forall s :: s in hits ==> s in history && history[s].job == id
    ensures var closed := CloseFiled(history, hits, finished, outcome);
            && Share(closed, id) == Close(Share(history, id), hits, finished, outcome)
            && forall other :: other != id ==> Share(closed, other) == Share(history, other)
  {
  }

  lemma ShareOfRemaining(history: map<nat, Filed>, id: string, removed: set<nat>)
    requires forall s :: s in removed ==> s in history && history[s].job == id
    ensures Share(history - removed, id) == Share(history, id) - removed
    ensures forall other :: other != id ==> Share(history - removed, other) == Share(history, other)
  {
  }

  class Ledger {
    var states: map<string, Row>
    var history: map<nat, Filed>
    var nextSeq: nat

    ghost predicate Valid()
      reads this
    {
      forall s :: s in history ==> s < nextSeq
    }

    /** The rows that statements with `WHERE job_id = id` see. */
    function ViewOf(id: string): View
      reads this
    {
      View(if id in states then Some(states[id]) else None, Share(history, id), nextSeq)
    }

    twostate predicate OthersKept(id: string)
      reads this
    {
      && old(nextSeq) <= nextSeq
      && forall other :: other != id ==>
           ViewOf(other).row == old(ViewOf(other)).row && ViewOf(other).history == old(ViewOf(other)).history
    }

    constructor ()
      ensures Valid() && states == map[] && history == map[] && nextSeq == 0
    {
      states, history, nextSeq := map[], map[], 0;
    }

    method InsertState(job: Job, planned: I64) returns (ok: bool)
      requires Valid()
      modifies this
      ensures Valid() && OthersKept(job.id) && nextSeq == old(nextSeq)
      ensures ok <==> old(ViewOf(job.id)).row.None?
      ensures ViewOf(job.id) ==
                if ok then old(ViewOf(job.id)).(row := Some(FreshRow(job, planned))) else old(ViewOf(job.id))
    {
      ok := job.id !in states;
      if ok {
        states := states[job.id := FreshRow(job, planned)];
      }
    }

    method ResetState(job: Job, planned: I64)
      requires Valid()
      modifies this
      ensures Valid() && OthersKept(job.id) && nextSeq == old(nextSeq)
      ensures ViewOf(job.id) ==
                if old(ViewOf(job.id)).row.Some? then old(ViewOf(job.id)).(row := Some(FreshRow(job, planned)))
                else old(ViewOf(job.id))
    {
      if job.id in states {
        states := states[job.id := FreshRow(job, planned)];
      }
    }

    method ClaimAttempt(job: Job, snapshot: Row, attempt: int, key: string, now: I64) returns (r: ClaimResult)
      requires Valid()
      modifies this
      ensures Valid() && OthersKept(job.id)
      ensures (ViewOf(job.id), r.Claimed?) == ClaimTx(job, old(ViewOf(job.id)), snapshot, attempt, key, now)
      ensures r.LeaseOverflow? <==> !IsI64(now + ATTEMPT_LEASE_NS)
    {
      if !IsI64(now + ATTEMPT_LEASE_NS) {
        return LeaseOverflow;
      }
      if job.id !in states || !Unclaimed(job, states[job.id], snapshot) {
        return Lost;
      }
      states := states[job.id := states[job.id].(planned := snapshot.planned, attempt := attempt, status := Running,
                                                 retryAfter := 0, leaseUntil := now + ATTEMPT_LEASE_NS, key := key)];
      history := history[nextSeq := Filed(job.id, Entry(snapshot.planned, attempt, key, now, 0, InProgress))];
      nextSeq := nextSeq + 1;
      r := Claimed;
      assert Share(history, job.id) ==
             old(Share(history, job.id))[old(nextSeq) := Entry(snapshot.planned, attempt, key, now, 0, InProgress)];
      forall other | other != job.id ensures Share(history, other) == old(Share(history, other)) {
      }
    }

    method FinalizeAttempt(id: string, planned: I64, attempt: int, key: string, finished: int, outcome: Outcome,
                           status: Status, next: I64, retryAfter: int, retained: string) returns (committed: bool)
      requires Valid()
      modifies this
      ensures Valid() && OthersKept(id) && nextSeq == old(nextSeq)
      ensures (ViewOf(id), committed) ==
                FinalizeTx(old(ViewOf(id)), planned, attempt, key, finished, outcome, status, next, retryAfter,
                           retained)
    {
      var hits := set s | s in history && history[s].job == id && Open(history[s].entry, planned, attempt, key);
      assert hits == OpenEntries(Share(history, id), planned, attempt, key);
      var holds := id in states && states[id].status.Running? && states[id].planned == planned
                   && states[id].attempt == attempt && states[id].key == key;
      if |hits| != 1 || !holds {
        return false;
      }
      ShareOfClosed(history, id, hits, finished, outcome);
      history := CloseFiled(history, hits, finished, outcome);
      states := states[id := states[id].(planned := next, attempt := if status.Retry? then attempt else 0,
                                         status := status, retryAfter := retryAfter, leaseUntil := 0, key := retained)];
      committed := true;
    }

    method Finish(job: Job, planned: I64, attempt: int, key: string, finished: int, result: RunResult)
      returns (committed: bool)
      requires Valid()
      modifies this
      ensures Valid() && OthersKept(job.id) && nextSeq == old(nextSeq)
      ensures (ViewOf(job.id), committed) == FinishTx(job, old(ViewOf(job.id)), planned, attempt, key, finished, result)
    {
      if result.RetryableFailure? && attempt < MAX_ATTEMPTS {
        committed := FinalizeAttempt(job.id, planned, attempt, key, finished, Faulted, Retry, planned,
                                     RetryAfter(finished, attempt), key);
        return;
      }
      var outcome := if result.Success? then Succeeded else Faulted;
      match NextPlanned(job.schedule, planned) {
        case Err => committed := false;
        case Ok(Some(next)) =>
          committed := FinalizeAttempt(job.id, planned, attempt, key, finished, outcome, Idle, next, 0, "");
        case Ok(None) =>
          committed := FinalizeAttempt(job.id, planned, attempt, key, finished, outcome,
                                       if result.Success? then Complete else Failed, planned, 0, "");
      }
    }

    method FinalizeExhausted(job: Job, planned: I64) returns (ok: bool)
      requires Valid()
      modifies this
      ensures Valid() && OthersKept(job.id) && nextSeq == old(nextSeq)
      ensures ViewOf(job.id) == ExhaustUpdate(job, old(ViewOf(job.id)), planned)
      ensures ok <==> NextPlanned(job.schedule, planned).Ok?
    {
      match NextPlanned(job.schedule, planned) {
        case Err => ok := false;
        case Ok(next) =>
          ok := true;
          if job.id in states {
            states := states[job.id := states[job.id].(planned := if next.Some? then next.value else planned,
                                                       attempt := 0,
                                                       status := if next.Some? then Idle else Failed,
                                                       retryAfter := 0, leaseUntil := 0, key := "")];
          }
      }
    }

    /** Deletes the selected rows one by one, newest first. */
    method PruneHistory(job: Job)
      requires Valid()
      modifies this
      ensures Valid() && OthersKept(job.id) && nextSeq == old(nextSeq)
      ensures ViewOf(job.id) == Pruned(old(ViewOf(job.id)))
    {
      var stale := Stale(Share(history, job.id));
      ghost var selected, deleted := stale, {};
      while stale != {}
        invariant Valid() && nextSeq == old(nextSeq) && states == old(states)
        invariant stale + deleted == selected && history == old(history) - deleted
        decreases stale
      {
        var s := NewestOf(stale);
        history := history - {s};
        stale, deleted := stale - {s}, deleted + {s};
      }
      ShareOfRemaining(old(history), job.id, selected);
    }

    /** Loads the job's row, creating or resetting it first when the definition demands it. */
    method LoadRow(job: Job, now: I64, ghost w: World) returns (row: Option<Row>, ghost actions: seq<Action>)
      requires Valid() && w.view == ViewOf(job.id) && WorkerAt(w, 0).Free?
      modifies this
      ensures Valid() && OthersKept(job.id)
      ensures BySelf(actions, 0)
      ensures var u := Run(job, w, actions);
              && u.view == ViewOf(job.id) && u.view.nextSeq == old(nextSeq) && u.log == w.log
              && WorkerAt(u, 0) == if row.Some? then Next(job, row.value, now) else Free
      ensures row == LoadedRow(job, old(ViewOf(job.id)), now)
      ensures ViewOf(job.id) == if row.Some? then old(ViewOf(job.id)).(row := row) else old(ViewOf(job.id))
    {
      ghost var u := w;
      actions := [];
      if job.id in states && states[job.id].version == job.version {
        row := Some(states[job.id]);
        actions, u := Extend(job, w, actions, u, Load(0, now));
        return;
      }
      var initial := InitialPlanned(job.schedule, now);
      if initial.Err? {
        return None, [];
      }
      actions, u := Extend(job, w, actions, u, Load(0, now));
      if job.id in states {
        ResetState(job, initial.value);
        actions, u := Extend(job, w, actions, u, Reset(0));
      } else {
        var inserted := InsertState(job, initial.value);
        actions, u := Extend(job, w, actions, u, Insert(0));
      }
      row := Some(states[job.id]);
      actions, u := Extend(job, w, actions, u, Reload(0));
    }

    /** Executes a claimed attempt and settles it; `result` and `finished` come from the execution. */
    method SettleAttempt(job: Job, planned: I64, attempt: int, key: string, result: RunResult, finished: int,
                         ghost w: World)
      returns (outcome: ServiceOutcome, ghost actions: seq<Action>)
      requires Valid() && w.view == ViewOf(job.id) && WorkerAt(w, 0) == Executing(planned, attempt, key)
      modifies this
      ensures Valid() && OthersKept(job.id)
      ensures BySelf(actions, 0) && Run(job, w, actions).view == ViewOf(job.id) && Run(job, w, actions).log == w.log
      ensures Served(ViewOf(job.id), outcome) ==
                SettleTx(job, old(ViewOf(job.id)), planned, attempt, key, finished, result)
    {
      var committed := Finish(job, planned, attempt, key, finished, result);
      ghost var u := w;
      actions, u := Extend(job, w, [], u, Action.Finish(0, result, finished));
      if !committed {
        return Aborted, actions;
      }
      PruneHistory(job);
      ghost var pruning := PruneIsARun(job, u);
      RunConcat(job, w, actions, pruning);
      actions := actions + pruning;
      outcome := if result.Success? then RanWell else RanBadly;
    }

    /** Claims the attempt and, if that succeeds, executes and settles it. */
    method TryAttempt(job: Job, snapshot: Row, attempt: int, key: string, now: I64, result: RunResult, finished: int,
                      ghost w: World)
      returns (outcome: ServiceOutcome, ghost actions: seq<Action>)
      requires Valid() && w.view == ViewOf(job.id) && WorkerAt(w, 0) == Ready(snapshot, attempt, key, now)
      modifies this
      ensures Valid() && OthersKept(job.id)
      ensures BySelf(actions, 0) && Run(job, w, actions).view == ViewOf(job.id)
      ensures outcome.NothingDue? ==> Run(job, w, actions).log == w.log
      ensures outcome.RanWell? || outcome.RanBadly? ==> Run(job, w, actions).log.Keys == w.log.Keys + {old(nextSeq)}
      ensures Served(ViewOf(job.id), outcome) ==
                AttemptTx(job, old(ViewOf(job.id)), snapshot, attempt, key, now, result, finished)
    {
      var claimed := ClaimAttempt(job, snapshot, attempt, key, now);
      ghost var u := w;
      actions, u := Extend(job, w, [], u, TryClaim(0));
      if !claimed.Claimed? {
        return if claimed.Lost? then NothingDue else Aborted, actions;
      }
      ghost var settling;
      outcome, settling := SettleAttempt(job, snapshot.planned, attempt, key, result, finished, u);
      RunConcat(job, w, actions, settling);
      actions := actions + settling;
    }

    /** `service_job`: the rows it leaves and how it ends are those of loading, claiming, settling and
        pruning in turn, which is a run of one protocol worker. */
    method ServiceJob(job: Job, now: I64, result: RunResult, finished: int, ghost w: World)
      returns (outcome: ServiceOutcome, ghost actions: seq<Action>)
      requires Valid() && w.view == ViewOf(job.id) && WorkerAt(w, 0).Free?
      modifies this
      ensures Valid() && OthersKept(job.id)
      ensures BySelf(actions, 0) && Run(job, w, actions).view == ViewOf(job.id)
      ensures outcome.NothingDue? ==> Run(job, w, actions).log == w.log
      ensures outcome.RanWell? || outcome.RanBadly? ==>
                Run(job, w, actions).log.Keys == w.log.Keys + {old(nextSeq)}
      ensures Served(ViewOf(job.id), outcome) == ServiceTx(job, old(ViewOf(job.id)), now, result, finished)
    {
      var row;
      row, actions := LoadRow(job, now, w);
      ghost var u := Run(job, w, actions);
      if row.None? {
        return Aborted, actions;
      }
      match Decide(job, row.value, now) {
        case NotDue => outcome := NothingDue;
        case Broken => outcome := Aborted;
        case Exhausted =>
          var ok := FinalizeExhausted(job, row.value.planned);
          actions, u := Extend(job, w, actions, u, Exhaust(0));
          outcome := if ok then NothingDue else Aborted;
        case Attempt(snapshot, attempt, key) =>
          ghost var attempting;
          outcome, attempting := TryAttempt(job, snapshot, attempt, key, now, result, finished, u);
          RunConcat(job, w, actions, attempting);
          actions := actions + attempting;
      }
    }

    /** Every listed job's rows are where its trace leads its world. */
    ghost predicate Follows(jobs: seq<Job>, worlds: map<string, World>, traces: map<string, seq<Action>>)
      reads this
    {
      forall i :: 0 <= i < |jobs| ==>
        && jobs[i].id in worlds && jobs[i].id in traces && BySelf(traces[jobs[i].id], 0)
        && Run(jobs[i], worlds[jobs[i].id], traces[jobs[i].id]).view == ViewOf(jobs[i].id)
    }

    /** The rows are those that the turns so far have left, and the ones found for the other jobs. */
    ghost predicate Rows(cycle: Cycle, served: seq<Served>)
      reads this
    {
      && |served| <= |cycle.visits| && nextSeq == cycle.Number(served, |served|)
      && (forall i :: 0 <= i < |served| ==> SameRows(ViewOf(cycle.visits[i].job.id), served[i].view))
      && (forall i :: |served| <= i < |cycle.visits| ==>
            SameRows(ViewOf(cycle.visits[i].job.id), cycle.visits[i].view))
    }

    /** The cycle is what starting one now finds. */
    ghost predicate Starts(cycle: Cycle, jobs: seq<Job>, results: seq<RunResult>, finished: seq<int>)
      requires |results| == |finished| == |jobs|
      reads this
    {
      && cycle.start == nextSeq && |cycle.visits| == |jobs|
      && forall i :: 0 <= i < |jobs| ==>
           cycle.visits[i] == Visit(jobs[i], ViewOf(jobs[i].id), results[i], finished[i])
    }

    twostate predicate OthersUntouched(jobs: seq<Job>)
      reads this
    {
      forall id :: id !in Ids(jobs) ==> SameRows(ViewOf(id), old(ViewOf(id)))
    }

    /** `run_cycle`: services the snapshot's jobs in order until one errs or the server cancels, each as
        `service_job` does on the rows the cycle found. For each job the whole cycle is a run of one
        protocol worker. */
    method RunCycle(jobs: seq<Job>, now: I64, results: seq<RunResult>, finished: seq<int>, cancelled: seq<bool>,
                    ghost cycle: Cycle, ghost worlds: map<string, World>)
      returns (started: nat, succeeded: nat, failed: nat, ok: bool,
               ghost served: seq<Served>, ghost traces: map<string, seq<Action>>)
      requires Valid() && |results| == |finished| == |cancelled| == |jobs| && DistinctIds(jobs)
      requires cycle.now == now && Starts(cycle, jobs, results, finished)
      requires forall i :: 0 <= i < |jobs| ==>
                 jobs[i].id in worlds && worlds[jobs[i].id].view == ViewOf(jobs[i].id)
                     && WorkerAt(worlds[jobs[i].id], 0).Free?
      modifies this
      ensures Valid() && Follows(jobs, worlds, traces)
      ensures cycle.InTurn(served) && Rows(cycle, served) && Ended(served, cancelled)
      ensures started == succeeded + failed && Counts(served, succeeded, failed, if ok then 0 else 1)
      ensures OthersUntouched(jobs)
    {
      started, succeeded, failed, ok := 0, 0, 0, true;
      served, traces := [], map id | id in worlds :: [];
      assert cycle.Distinct();
      for k := 0 to |jobs|
        invariant k == |served| && Underway(jobs, k, worlds, traces) && OthersUntouched(jobs)
        invariant cycle.InTurn(served) && Rows(cycle, served) && GoesOn(served, cancelled)
        invariant ok && started == succeeded + failed && Counts(served, succeeded, failed, 0)
      {
        if cancelled[k] {
          return;
        }
        var outcome;
        outcome, served, traces :=
          TakeTurn(jobs, k, now, results[k], finished[k], cancelled, cycle, served, worlds, traces, succeeded, failed);
        match outcome {
          case NothingDue =>
          case RanWell => started, succeeded := started + 1, succeeded + 1;
          case RanBadly => started, failed := started + 1, failed + 1;
          case Aborted =>
            ok := false;
            return;
        }
      }
    }

    /** One turn of the loop. */
    method TakeTurn(jobs: seq<Job>, k: nat, now: I64, result: RunResult, finished: int, ghost cancelled: seq<bool>,
                    ghost cycle: Cycle, ghost served: seq<Served>, ghost worlds: map<string, World>,
                    ghost traces: map<string, seq<Action>>, ghost succeeded: nat, ghost failed: nat)
      returns (outcome: ServiceOutcome, ghost more: seq<Served>, ghost extended: map<string, seq<Action>>)
      requires k == |served| < |jobs| && DistinctIds(jobs) && Underway(jobs, k, worlds, traces)
      requires cycle.InTurn(served) && Rows(cycle, served) && cycle.Distinct()
      requires |cycle.visits| == |jobs| && cycle.Calls(k, jobs[k], now, result, finished)
      requires GoesOn(served, cancelled) && k < |cancelled| && !cancelled[k] && Counts(served, succeeded, failed, 0)
      modifies this
      ensures Underway(jobs, k + 1, worlds, extended) && OthersUntouched(jobs)
      ensures |more| == k + 1 && cycle.InTurn(more) && Rows(cycle, more)
      ensures if outcome.Aborted? then Ended(more, cancelled) else GoesOn(more, cancelled)
      ensures match outcome
              case NothingDue => Counts(more, succeeded, failed, 0)
              case RanWell => Counts(more, succeeded + 1, failed, 0)
              case RanBadly => Counts(more, succeeded, failed + 1, 0)
              case Aborted => Counts(more, succeeded, failed, 1)
    {
      outcome, extended := ServiceOne(jobs, k, now, result, finished, cycle, worlds, traces);
      ghost var next := Served(ViewOf(jobs[k].id), outcome);
      more := served + [next];
      OneMoreTurn(served, next, cancelled);
      assert jobs[k].id in Ids(jobs);
      forall i | 0 <= i < |jobs| && i != k ensures cycle.visits[i].job.id != jobs[k].id {
      }
    }

    ghost function Visits(jobs: seq<Job>, results: seq<RunResult>, finished: seq<int>): seq<Visit>
      requires |results| == |finished| == |jobs|
      reads this
    {
      seq(|jobs|, i requires 0 <= i < |jobs| reads this =>
                    Visit(jobs[i], ViewOf(jobs[i].id), results[i], finished[i]))
    }

    /** A cycle for which nothing but its inputs is known. */
    method PollAll(poll: Poll) returns (ok: bool, ghost cycle: Cycle, ghost served: seq<Served>)
      requires Valid() && Wellformed(poll)
      modifies this
      ensures Valid() && OthersUntouched(poll.jobs)
      ensures old(Starts(cycle, poll.jobs, poll.results, poll.finished))
      ensures cycle.InTurn(served) && Rows(cycle, served) && Ended(served, poll.cancelled)
      ensures Count(served, Aborted) == if ok then 0 else 1
    {
      cycle := Cycle(Visits(poll.jobs, poll.results, poll.finished), poll.now, nextSeq);
      ghost var worlds := map i | i in Ids(poll.jobs) :: World(ViewOf(i), map[], map[], None, 0);
      var started, succeeded, failed;
      ghost var traces;
      started, succeeded, failed, ok, served, traces :=
        RunCycle(poll.jobs, poll.now, poll.results, poll.finished, poll.cancelled, cycle, worlds);
    }

    /** One iteration of `run_loop` for one database; `bad` and `id` are any job and any job id. */
    method PollOnce(poll: Poll, ghost bad: Job, ghost id: string) returns (ok: bool)
      requires Valid() && Wellformed(poll)
      modifies this
      ensures Valid()
      ensures Unusable(bad) && !AtVersion(bad, old(ViewOf(bad.id))) && Shadows(bad, id, poll.jobs) ==>
                && SameRows(ViewOf(id), old(ViewOf(id))) && SameRows(ViewOf(bad.id), old(ViewOf(bad.id)))
                && (bad in poll.jobs && true !in poll.cancelled ==> !ok)
    {
      ghost var cycle, served;
      ok, cycle, served := PollAll(poll);
      if Unusable(bad) && !AtVersion(bad, old(ViewOf(bad.id))) && Shadows(bad, id, poll.jobs) {
        ShadowedRows(poll.jobs, cycle, served, poll.cancelled, bad, id);
        if bad in poll.jobs {
          ghost var j :| 0 <= j < |poll.jobs| && poll.jobs[j] == bad;
          UnusableJobEndsTheCycle(cycle, served, poll.cancelled, j);
          if true !in poll.cancelled {
            UncancelledCycleErrs(served, poll.cancelled, j);
          }
        }
        forall other | other == id || other == bad.id ensures SameRows(ViewOf(other), old(ViewOf(other))) {
          if other in Ids(poll.jobs) {
            var i :| 0 <= i < |poll.jobs| && poll.jobs[i].id == other;
          }
        }
      }
    }

    lemma ShadowedRows(jobs: seq<Job>, cycle: Cycle, served: seq<Served>, cancelled: seq<bool>, bad: Job, id: string)
      requires Rows(cycle, served) && cycle.InTurn(served) && Ended(served, cancelled)
      requires |cancelled| == |cycle.visits| == |jobs|
      requires forall i :: 0 <= i < |jobs| ==> cycle.visits[i].job == jobs[i]
      requires Unusable(bad) && Shadows(bad, id, jobs)
      requires forall i :: 0 <= i < |jobs| && jobs[i] == bad ==> !AtVersion(bad, cycle.visits[i].view)
      ensures forall i :: 0 <= i < |jobs| && (jobs[i].id == id || jobs[i].id == bad.id) ==>
                SameRows(ViewOf(jobs[i].id), cycle.visits[i].view)
    {
      forall i | 0 <= i < |jobs| && (jobs[i].id == id || jobs[i].id == bad.id)
        ensures SameRows(ViewOf(jobs[i].id), cycle.visits[i].view)
      {
        if jobs[i].id == bad.id {
          UnusableJobEndsTheCycle(cycle, served, cancelled, i);
        } else {
          var j :| 0 <= j < i && jobs[j] == bad;
          UnusableJobEndsTheCycle(cycle, served, cancelled, j);
        }
      }
    }

    /** `run_loop` for one database, with any snapshots, clocks and executions: an error ends only its
        cycle, but while a job whose interval does not fit 64 signed bits is listed before another
        job, every cycle errs unless cancelled and that other job is never serviced. */
    method RunLoop(polls: seq<Poll>, ghost bad: Job, ghost id: string) returns (errors: nat)
      requires Valid() && forall k :: 0 <= k < |polls| ==> Wellformed(polls[k])
      modifies this
      ensures Valid()
      ensures Blocked(polls, bad, id) && Unusable(bad) && !AtVersion(bad, old(ViewOf(bad.id))) ==>
                SameRows(ViewOf(id), old(ViewOf(id))) && (Uncancelled(polls, bad) ==> errors == |polls|)
    {
      errors := 0;
      for k := 0 to |polls|
        invariant Valid()
        invariant Blocked(polls, bad, id) && Unusable(bad) && !AtVersion(bad, old(ViewOf(bad.id))) ==>
                    && SameRows(ViewOf(id), old(ViewOf(id))) && SameRows(ViewOf(bad.id), old(ViewOf(bad.id)))
                    && (Uncancelled(polls, bad) ==> errors == k)
      {
        var ok := PollOnce(polls[k], bad, id);
        if !ok {
          errors := errors + 1;
        }
      }
    }

    /** The rows follow the traces, and the workers of the jobs still to come are free. */
    ghost predicate Underway(jobs: seq<Job>, k: nat, worlds: map<string, World>, traces: map<string, seq<Action>>)
      reads this
    {
      && Valid() && Follows(jobs, worlds, traces) && traces.Keys == worlds.Keys
      && forall i :: k <= i < |jobs| ==> WorkerAt(Run(jobs[i], worlds[jobs[i].id], traces[jobs[i].id]), 0).Free?
    }

    /** Services one job of the list and lets the other jobs see the sequence numbers it used. */
    method ServiceOne(jobs: seq<Job>, k: nat, now: I64, result: RunResult, finished: int, ghost cycle: Cycle,
                      ghost worlds: map<string, World>, ghost traces: map<string, seq<Action>>)
      returns (outcome: ServiceOutcome, ghost extended: map<string, seq<Action>>)
      requires k < |jobs| == |cycle.visits| && DistinctIds(jobs) && Underway(jobs, k, worlds, traces)
      requires cycle.Calls(k, jobs[k], now, result, finished)
      requires SameRows(ViewOf(jobs[k].id), cycle.visits[k].view)
      modifies this
      ensures Underway(jobs, k + 1, worlds, extended) && OthersKept(jobs[k].id)
      ensures Served(ViewOf(jobs[k].id), outcome) == cycle.Serviced(k, old(nextSeq))
    {
      ghost var id := jobs[k].id;
      assert ViewOf(id) == cycle.visits[k].view.(nextSeq := nextSeq);
      ghost var actions;
      outcome, actions := ServiceJob(jobs[k], now, result, finished, Run(jobs[k], worlds[id], traces[id]));
      RunConcat(jobs[k], worlds[id], traces[id], actions);
      ghost var inserted := nextSeq - old(nextSeq);
      extended := map i | i in traces :: if i == id then traces[i] + actions else traces[i] + [OtherJobs(0, inserted)];
      forall i | 0 <= i < |jobs| && i != k
        ensures jobs[i].id != id && BySelf(extended[jobs[i].id], 0)
        ensures var u := Run(jobs[i], worlds[jobs[i].id], traces[jobs[i].id]);
                var v := Run(jobs[i], worlds[jobs[i].id], extended[jobs[i].id]);
                v.view == ViewOf(jobs[i].id) && v.workers == u.workers
      {
        assert jobs[i].id != id;
        OtherJobsStep(jobs[i], worlds[jobs[i].id], traces[jobs[i].id], inserted);
      }
    }
  }

  // ---------------------------------------------------------------- one job that errs in every cycle

  /** What one iteration of the scheduler's loop gets from outside. */
  datatype Poll = Poll(jobs: seq<Job>, now: I64, results: seq<RunResult>, finished: seq<int>, cancelled: seq<bool>)

  predicate Wellformed(poll: Poll) {
    |poll.results| == |poll.finished| == |poll.cancelled| == |poll.jobs| && DistinctIds(poll.jobs)
  }

  /** An interval that fits the catalog's 64 unsigned bits but not the scheduler's signed ones. */
  predicate Unusable(job: Job) {
    job.schedule.EveryNs? && !IsI64(job.schedule.interval)
  }

  predicate AtVersion(job: Job, v: View) {
    v.row.Some? && v.row.value.version == job.version
  }

  /** If the snapshot lists the job `id`, then `bad` before it. */
  predicate Shadows(bad: Job, id: string, jobs: seq<Job>) {
    && (forall i :: 0 <= i < |jobs| && jobs[i].id == bad.id ==> jobs[i] == bad)
    && (forall i :: 0 <= i < |jobs| && jobs[i].id == id ==> bad in jobs[..i])
  }

  predicate Blocked(polls: seq<Poll>, bad: Job, id: string) {
    forall k :: 0 <= k < |polls| ==> Shadows(bad, id, polls[k].jobs)
  }

  predicate Uncancelled(polls: seq<Poll>, bad: Job) {
    forall k :: 0 <= k < |polls| ==> bad in polls[k].jobs && true !in polls[k].cancelled
  }

  /** A job with an unusable interval gets no row, so its turn is always an error and the last one. */
  lemma UnusableJobEndsTheCycle(cycle: Cycle, served: seq<Served>, cancelled: seq<bool>, j: nat)
    requires cycle.InTurn(served) && Ended(served, cancelled) && j < |cycle.visits| == |cancelled|
    requires Unusable(cycle.visits[j].job) && !AtVersion(cycle.visits[j].job, cycle.visits[j].view)
    ensures |served| <= j + 1
    ensures j < |served| ==> served[j].outcome.Aborted? && SameRows(served[j].view, cycle.visits[j].view)
  {
    if j < |served| {
      assert served[j] == cycle.Serviced(j, cycle.Number(served, j));
    }
  }

  lemma UncancelledCycleErrs(served: seq<Served>, cancelled: seq<bool>, j: nat)
    requires Ended(served, cancelled) && true !in cancelled && |served| <= j + 1 <= |cancelled|
    requires j < |served| ==> served[j].outcome.Aborted?
    ensures Count(served, Aborted) > 0
  {
    if |served| <= j {
      assert cancelled[|served|] in cancelled;
    }
  }

  lemma OtherJobsStep(job: Job, w: World, actions: seq<Action>, inserted: nat)
    requires BySelf(actions, 0)
    ensures var u := Run(job, w, actions);
            var v := Run(job, w, actions + [OtherJobs(0, inserted)]);
            && BySelf(actions + [OtherJobs(0, inserted)], 0) && v.workers == u.workers
            && v.view == u.view.(nextSeq := u.view.nextSeq + inserted)
  {
    var more, v := Extend(job, w, actions, Run(job, w, actions), OtherJobs(0, inserted));
  }

  lemma Extend(job: Job, w: World, actions: seq<Action>, u: World, a: Action) returns (more: seq<Action>, v: World)
    requires u == Run(job, w, actions) && BySelf(actions, 0) && a.id == 0
    ensures more == actions + [a] && v == Step(job, u, a)
    ensures v == Run(job, w, more) && BySelf(more, 0)
  {
    more, v := actions + [a], Step(job, u, a);
    RunConcat(job, w, actions, [a]);
    OneStep(job, u, a);
  }

  /** The row that servicing starts from: the stored one if it is of this version, else a fresh one. */
  function LoadedRow(job: Job, v: View, now: I64): Option<Row> {
    if v.row.Some? && v.row.value.version == job.version then v.row
    else
      match InitialPlanned(job.schedule, now)
      case Err => None
      case Ok(planned) => Some(FreshRow(job, planned))
  }

  /** Servicing in terms of the protocol's transactions: the rows it leaves and how it ends. */
  function ServiceTx(job: Job, v: View, now: I64, result: RunResult, finished: int): Served {
    match LoadedRow(job, v, now)
    case None => Served(v, Aborted)
    case Some(row) =>
      var u := v.(row := Some(row));
      match Decide(job, row, now)
      case NotDue => Served(u, NothingDue)
      case Broken => Served(u, Aborted)
      case Exhausted =>
        Served(ExhaustUpdate(job, u, row.planned),
               if NextPlanned(job.schedule, row.planned).Ok? then NothingDue else Aborted)
      case Attempt(snapshot, attempt, key) => AttemptTx(job, u, snapshot, attempt, key, now, result, finished)
  }

  function AttemptTx(job: Job, v: View, snapshot: Row, attempt: int, key: string, now: I64, result: RunResult,
                     finished: int): Served
  {
    var (u, claimed) := ClaimTx(job, v, snapshot, attempt, key, now);
    if !IsI64(now + ATTEMPT_LEASE_NS) then Served(v, Aborted)
    else if !claimed then Served(v, NothingDue)
    else SettleTx(job, u, snapshot.planned, attempt, key, finished, result)
  }

  function SettleTx(job: Job, v: View, planned: I64, attempt: int, key: string, finished: int,
                    result: RunResult): Served
  {
    var (u, committed) := FinishTx(job, v, planned, attempt, key, finished, result);
    if !committed then Served(u, Aborted) else Served(Pruned(u), if result.Success? then RanWell else RanBadly)
  }

  predicate SameRows(v: View, u: View) {
    v.row == u.row && v.history == u.history
  }

  function Ids(jobs: seq<Job>): set<string> {
    set i | 0 <= i < |jobs| :: jobs[i].id
  }

  predicate DistinctIds(jobs: seq<Job>) {
    forall i, j :: 0 <= i < j < |jobs| ==> jobs[i].id != jobs[j].id
  }

  /** A job's turn in a cycle: the rows the cycle found and what executing the job would report. */
  datatype Visit = Visit(job: Job, view: View, result: RunResult, finished: int)

  /** A cycle over a snapshot, before which the history relation would next use number `start`. */
  datatype Cycle = Cycle(visits: seq<Visit>, now: I64, start: nat) {
    predicate Distinct() {
      forall i, j :: 0 <= i < j < |visits| ==> visits[i].job.id != visits[j].job.id
    }

    predicate Calls(i: nat, job: Job, at: I64, result: RunResult, finished: int)
      requires i < |visits|
    {
      now == at && visits[i].job == job && visits[i].result == result && visits[i].finished == finished
    }

    /** The next sequence number after `i` turns. */
    function Number(served: seq<Served>, i: nat): nat
      requires i <= |served|
    {
      if i == 0 then start else served[i - 1].view.nextSeq
    }

    /** What servicing job `i` does if the next sequence number is `n`. */
    function Serviced(i: nat, n: nat): Served
      requires i < |visits|
    {
      ServiceTx(visits[i].job, visits[i].view.(nextSeq := n), now, visits[i].result, visits[i].finished)
    }

    /** One turn after the other, each job was serviced on the rows the cycle found. */
    predicate InTurn(served: seq<Served>) {
      |served| <= |visits| && forall i :: 0 <= i < |served| ==> served[i] == Serviced(i, Number(served, i))
    }
  }

  /** How many turns ended so. */
  function Count(served: seq<Served>, outcome: ServiceOutcome): nat {
    if served == [] then 0
    else Count(served[..|served| - 1], outcome) + if served[|served| - 1].outcome == outcome then 1 else 0
  }

  predicate Counts(served: seq<Served>, succeeded: nat, failed: nat, errors: nat) {
    Count(served, RanWell) == succeeded && Count(served, RanBadly) == failed && Count(served, Aborted) == errors
  }

  /** A cycle goes on to the end, to the first error or until it finds the server cancelled. */
  predicate Ended(served: seq<Served>, cancelled: seq<bool>) {
    && |served| <= |cancelled|
    && (forall i :: 0 <= i < |served| ==> !cancelled[i] && (i + 1 < |served| ==> !served[i].outcome.Aborted?))
    && (|served| < |cancelled| ==>
          cancelled[|served|] || (served != [] && served[|served| - 1].outcome.Aborted?))
  }

  /** Job `i` gets its turn exactly if the server was not cancelled up to then and no earlier turn was an error. */
  lemma TurnComesExactlyWithoutError(served: seq<Served>, cancelled: seq<bool>, i: nat)
    requires Ended(served, cancelled) && i < |cancelled|
    ensures i < |served| <==> && (forall j :: 0 <= j <= i ==> !cancelled[j])
                              && (forall j :: 0 <= j < i && j < |served| ==> !served[j].outcome.Aborted?)
  {
    if |served| <= i && served != [] && served[|served| - 1].outcome.Aborted? {
      assert |served| - 1 < i;
    }
  }

  /** Neither an error nor a cancellation has ended the cycle so far. */
  predicate GoesOn(served: seq<Served>, cancelled: seq<bool>) {
    && |served| <= |cancelled|
    && forall i :: 0 <= i < |served| ==> !cancelled[i] && !served[i].outcome.Aborted?
  }

  lemma OneMoreTurn(served: seq<Served>, next: Served, cancelled: seq<bool>)
    requires GoesOn(served, cancelled) && |served| < |cancelled| && !cancelled[|served|]
    ensures if next.outcome.Aborted? then Ended(served + [next], cancelled) else GoesOn(served + [next], cancelled)
    ensures forall o: ServiceOutcome ::
              Count(served + [next], o) == Count(served, o) + if next.outcome == o then 1 else 0
  {
    assert (served + [next])[..|served|] == served;
  }

  function Pruned(v: View): View {
    v.(history := v.history - Stale(v.history))
  }

  predicate IsNewest(m: nat, s: set<nat>) {
    m in s && forall t :: t in s ==> t <= m
  }

  lemma {:induction false} Newest(s: set<nat>)
    requires s != {}
    ensures exists m :: IsNewest(m, s)
    decreases |s|
  {
    var x :| x in s;
    var rest := s - {x};
    assert forall t :: t in s ==> t == x || t in rest;
    if rest == {} {
      assert IsNewest(x, s);
    } else {
      Newest(rest);
      var m :| IsNewest(m, rest);
      assert IsNewest(if x > m then x else m, s);
    }
  }

  method NewestOf(s: set<nat>) returns (m: nat)
    requires s != {}
    ensures m in s
  {
    Newest(s);
    m :| m in s && IsNewest(m, s);
  }

  lemma OneStep(job: Job, w: World, a: Action)
    ensures Run(job, w, [a]) == Step(job, w, a)
  {
    assert [a][1..] == [];
    Unroll(job, w, [a]);
  }

  /** Pruning is a run of the protocol's worker. */
  lemma PruneIsARun(job: Job, w: World) returns (actions: seq<Action>)
    requires WorkerAt(w, 0).Settled?
    ensures BySelf(actions, 0) && Run(job, w, actions).view == Pruned(w.view) && Run(job, w, actions).log == w.log
  {
    var u := Step(job, w, SelectStale(0));
    OneStep(job, w, SelectStale(0));
    var deletions := DeletionsAreARun(job, u, Stale(w.view.history));
    actions := [SelectStale(0)] + deletions;
    RunConcat(job, w, [SelectStale(0)], deletions);
  }

  lemma {:induction false} DeletionsAreARun(job: Job, w: World, stale: set<nat>) returns (actions: seq<Action>)
    requires WorkerAt(w, 0) == Deleting(stale)
    ensures BySelf(actions, 0)
    ensures Run(job, w, actions).view == w.view.(history := w.view.history - stale) && Run(job, w, actions).log == w.log
    decreases stale
  {
    if stale == {} {
      actions := [];
      assert w.view.history - {} == w.view.history;
    } else {
      var s :| s in stale;
      OneStep(job, w, Delete(0, s));
      var rest := DeletionsAreARun(job, Step(job, w, Delete(0, s)), stale - {s});
      actions := [Delete(0, s)] + rest;
      RunConcat(job, w, [Delete(0, s)], rest);
      assert (w.view.history - {s}) - (stale - {s}) == w.view.history - stale;
    }
  }
}
