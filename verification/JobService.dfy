/** What servicing one job comes to, said in terms of its rows, the clock and the execution's result
    (src/server/job_scheduler.rs:229-359), and not of the transactions it is made of. */
module JobService {
  import opened Common
  import opened Schedule
  import opened JobProtocol
  import opened JobClaims
  import opened JobLedger
  import JobRetention

  /** The attempt that comes next for a row. */
  function NextAttempt(row: Row): int {
    if row.status.Idle? then 1 else row.attempt + 1
  }

  function AttemptKey(job: Job, row: Row): string {
    if row.status.Idle? || row.key == "" then KeyFor(job, row.planned) else row.key
  }

  /** No lease runs and no delay is left, and the slot is due and is itself the latest due one. */
  predicate Startable(job: Job, row: Row, now: I64) {
    match row.status
    case Idle => row.planned <= now && CoalescedPlanned(job.schedule, row.planned, now) == Ok(row.planned)
    case Running => row.leaseUntil <= now && row.attempt < 5
    case Retry => row.retryAfter <= now && row.attempt < 5
    case Complete => false
    case Failed => false
  }

  /** An entry that an earlier version left open and that looks like the attempt to come. */
  ghost predicate HasTwin(job: Job, v: View, row: Row) {
    exists s :: s in v.history && Twin(v.history[s], row.planned, NextAttempt(row), AttemptKey(job, row))
  }

  predicate Twin(e: Entry, planned: int, attempt: int, key: string) {
    e.planned == planned && e.attempt == attempt && e.key == key && e.outcome == InProgress
  }

  predicate WillRetry(row: Row, result: RunResult) {
    result.RetryableFailure? && NextAttempt(row) < 5
  }

  predicate NextFits(job: Job, row: Row, result: RunResult) {
    WillRetry(row, result) || job.schedule.AtUnixNs?
    || (IsI64(job.schedule.interval) && IsI64(row.planned + job.schedule.interval))
  }

  /** The job is claimed, executed and finalized. */
  ghost predicate Runs(job: Job, v: View, row: Row, now: I64, result: RunResult) {
    Startable(job, row, now) && IsI64(now + 300_000_000_000) && !HasTwin(job, v, row) && NextFits(job, row, result)
  }

  /** Nanoseconds until a failed attempt is retried. */
  predicate Delay(attempt: int, ns: int) {
    && (attempt <= 1 ==> ns == 100_000_000) && (attempt == 2 ==> ns == 200_000_000)
    && (attempt == 3 ==> ns == 400_000_000) && (attempt == 4 ==> ns == 800_000_000)
  }

  lemma DelayIsBackoff(attempt: int)
    requires attempt < 5
    ensures Delay(attempt, BackoffNs(attempt))
  {
    assert Pow2(0) == 1 && Pow2(1) == 2 * Pow2(0) && Pow2(2) == 2 * Pow2(1) && Pow2(3) == 2 * Pow2(2);
  }

  /** The row that a finished attempt leaves, field by field. */
  ghost predicate SettledAs(job: Job, row: Row, result: RunResult, finished: int, u: Row) {
    && u.version == row.version && u.leaseUntil == 0
    && (WillRetry(row, result) ==>
          && u.status == Retry && u.planned == row.planned && u.attempt == NextAttempt(row)
          && u.key == AttemptKey(job, row)
          && exists ns :: Delay(NextAttempt(row), ns)
                          && u.retryAfter == if finished + ns > I64_MAX then I64_MAX else finished + ns)
    && (!WillRetry(row, result) ==>
          && u.attempt == 0 && u.key == "" && u.retryAfter == 0
          && (job.schedule.EveryNs? ==> u.status == Idle && u.planned == row.planned + job.schedule.interval)
          && (job.schedule.AtUnixNs? ==>
                u.planned == row.planned && u.status == if result.Success? then Complete else Failed))
  }

  /** How many of `n` entries a pass of pruning leaves. */
  function Kept(n: nat): nat {
    if n <= 256 then n else if n <= 512 then 256 else n - 256
  }

  /** The history gains the entry of this attempt, closed, and is pruned. */
  ghost predicate EntryAdded(job: Job, v: View, row: Row, now: I64, result: RunResult, finished: int, u: View) {
    && u.nextSeq == v.nextSeq + 1 && |u.history| == Kept(|v.history| + 1)
    && v.nextSeq in u.history
    && u.history[v.nextSeq] == Entry(row.planned, NextAttempt(row), AttemptKey(job, row), now, finished,
                                     if result.Success? then Succeeded else Faulted)
    && (forall s :: s in u.history && s != v.nextSeq ==> s in v.history && u.history[s] == v.history[s])
    && (forall s :: s in v.history && |Newer(v.history, s)| < 255 ==> s in u.history)
  }

  /** The row that servicing starts from: the stored one of this version, else a fresh one. */
  ghost predicate StartsFrom(job: Job, v: View, now: I64, row: Row) {
    if AtVersion(job, v) then row == v.row.value
    else
      && row.version == job.version && row.status == Idle && row.attempt == 0 && row.retryAfter == 0
      && row.leaseUntil == 0 && row.key == ""
      && match job.schedule
         case EveryNs(interval) => IsI64(interval) && row.planned == now + interval
         case AtUnixNs(timestamp) => row.planned == timestamp
  }

  ghost predicate Numbered(v: View) {
    forall s :: s in v.history ==> s < v.nextSeq
  }

  // ---------------------------------------------------------------- claiming

  /** What the claim leaves: the row running under its lease and an open entry. */
  function ClaimedRow(job: Job, row: Row, now: I64): Row {
    Row(row.version, row.planned, NextAttempt(row), Running, 0, now + 300_000_000_000, AttemptKey(job, row))
  }

  function ClaimedView(job: Job, v: View, row: Row, now: I64): View {
    View(Some(ClaimedRow(job, row, now)),
         v.history[v.nextSeq := Entry(row.planned, NextAttempt(row), AttemptKey(job, row), now, 0, InProgress)],
         v.nextSeq + 1)
  }

  lemma LoadedIsStart(job: Job, v: View, now: I64, row: Row)
    requires StartsFrom(job, v, now, row)
    ensures LoadedRow(job, v, now) == Some(row)
  {
  }

  lemma DecidesToStart(job: Job, row: Row, now: I64)
    requires Startable(job, row, now)
    ensures Decide(job, row, now) == Attempt(row, NextAttempt(row), AttemptKey(job, row))
  {
  }

  lemma StartClaims(job: Job, v: View, row: Row, now: I64, result: RunResult, finished: int)
    requires StartsFrom(job, v, now, row) && Startable(job, row, now) && IsI64(now + 300_000_000_000)
    ensures ServiceTx(job, v, now, result, finished) ==
              SettleTx(job, ClaimedView(job, v, row, now), row.planned, NextAttempt(row), AttemptKey(job, row),
                       finished, result)
  {
    LoadedIsStart(job, v, now, row);
    DecidesToStart(job, row, now);
    var u := v.(row := Some(row));
    assert ClaimTx(job, u, row, NextAttempt(row), AttemptKey(job, row), now) == (ClaimedView(job, v, row, now), true);
  }

  lemma OpenAfterClaim(job: Job, v: View, row: Row, now: I64)
    requires Numbered(v)
    ensures var open := OpenEntries(ClaimedView(job, v, row, now).history, row.planned, NextAttempt(row),
                                    AttemptKey(job, row));
            && v.nextSeq in open && (|open| == 1 <==> !HasTwin(job, v, row))
            && (!HasTwin(job, v, row) ==> open == {v.nextSeq})
  {
    var history := ClaimedView(job, v, row, now).history;
    var open := OpenEntries(history, row.planned, NextAttempt(row), AttemptKey(job, row));
    assert v.nextSeq in open;
    assert forall s :: s in open && s != v.nextSeq ==>
             s in v.history && Twin(v.history[s], row.planned, NextAttempt(row), AttemptKey(job, row));
    if HasTwin(job, v, row) {
      var s :| s in v.history && Twin(v.history[s], row.planned, NextAttempt(row), AttemptKey(job, row));
      assert s in open && s != v.nextSeq;
      SubsetSize({s, v.nextSeq}, open);
    } else {
      assert open == {v.nextSeq};
    }
  }

  // ---------------------------------------------------------------- settling and pruning

  lemma SettledRowIs(job: Job, row: Row, now: I64, result: RunResult, finished: int)
    requires NextFits(job, row, result)
    ensures SettledAs(job, row, result, finished, SettledRow(job, ClaimedRow(job, row, now), result, finished))
  {
    if WillRetry(row, result) {
      DelayIsBackoff(NextAttempt(row));
    }
  }

  lemma PrunedEntries(v: View, s: nat)
    requires Numbered(v) && v.history != map[] && s in v.history
    ensures |Pruned(v).history| == Kept(|v.history|)
    ensures |Newer(v.history, s)| < 256 ==> s in Pruned(v).history && Pruned(v).history[s] == v.history[s]
  {
    JobRetention.PruningBoundsHistory(v);
  }

  lemma OneNewer(v: View, e: Entry, s: nat)
    requires Numbered(v) && s in v.history
    ensures var more := v.history[v.nextSeq := e]; |Newer(more, s)| == |Newer(v.history, s)| + 1
  {
    var more := v.history[v.nextSeq := e];
    assert Newer(more, s) == Newer(v.history, s) + {v.nextSeq};
  }

  function ClosedEntry(job: Job, row: Row, now: I64, result: RunResult, finished: int): Entry {
    Entry(row.planned, NextAttempt(row), AttemptKey(job, row), now, finished,
          if result.Success? then Succeeded else Faulted)
  }

  lemma PrunedWithEntry(job: Job, v: View, row: Row, now: I64, result: RunResult, finished: int, u: View)
    requires Numbered(v) && u.nextSeq == v.nextSeq + 1
    requires u.history == v.history[v.nextSeq := ClosedEntry(job, row, now, result, finished)]
    ensures EntryAdded(job, v, row, now, result, finished, Pruned(u))
  {
    assert u.history.Keys == v.history.Keys + {v.nextSeq};
    assert |u.history| == |v.history| + 1;
    assert Newer(u.history, v.nextSeq) == {};
    PrunedEntries(u, v.nextSeq);
    forall s | s in v.history && |Newer(v.history, s)| < 255 ensures s in Pruned(u).history {
      OneNewer(v, ClosedEntry(job, row, now, result, finished), s);
      PrunedEntries(u, s);
    }
  }

  lemma SettleRuns(job: Job, v: View, row: Row, now: I64, result: RunResult, finished: int)
    requires Numbered(v) && !HasTwin(job, v, row) && NextFits(job, row, result)
    ensures var r := SettleTx(job, ClaimedView(job, v, row, now), row.planned, NextAttempt(row), AttemptKey(job, row),
                              finished, result);
            && r.outcome == (if result.Success? then RanWell else RanBadly)
            && r.view.row.Some? && SettledAs(job, row, result, finished, r.view.row.value)
            && EntryAdded(job, v, row, now, result, finished, r.view)
  {
    var w := ClaimedView(job, v, row, now);
    var outcome := if result.Success? then Succeeded else Faulted;
    OpenAfterClaim(job, v, row, now);
    FinishEffect(job, w, row.planned, NextAttempt(row), AttemptKey(job, row), finished, result);
    var (u, committed) := FinishTx(job, w, row.planned, NextAttempt(row), AttemptKey(job, row), finished, result);
    assert committed;
    assert u.history == v.history[v.nextSeq := ClosedEntry(job, row, now, result, finished)];
    PrunedWithEntry(job, v, row, now, result, finished, u);
    SettledRowIs(job, row, now, result, finished);
  }

  /** A claimed attempt that cannot be finalized: the claim stays, its entry open, and the cycle ends. */
  lemma SettleFails(job: Job, v: View, row: Row, now: I64, result: RunResult, finished: int)
    requires Numbered(v) && (HasTwin(job, v, row) || !NextFits(job, row, result))
    ensures SettleTx(job, ClaimedView(job, v, row, now), row.planned, NextAttempt(row), AttemptKey(job, row), finished,
                     result) == Served(ClaimedView(job, v, row, now), Aborted)
  {
    OpenAfterClaim(job, v, row, now);
    FinishEffect(job, ClaimedView(job, v, row, now), row.planned, NextAttempt(row), AttemptKey(job, row), finished,
                 result);
  }

  // ---------------------------------------------------------------- the theorems

  /** Servicing reports success exactly if an attempt was due, was claimed, succeeded and could be
      finalized, and failure exactly if the same holds of one that failed. Then the row is settled and
      the attempt's entry is closed in a pruned history. */
  lemma RunsExactly(job: Job, v: View, row: Row, now: I64, result: RunResult, finished: int)
    requires Numbered(v) && StartsFrom(job, v, now, row)
    ensures var r := ServiceTx(job, v, now, result, finished);
            && (r.outcome == RanWell <==> Runs(job, v, row, now, result) && result.Success?)
            && (r.outcome == RanBadly <==> Runs(job, v, row, now, result) && !result.Success?)
            && (Runs(job, v, row, now, result) ==>
                  && r.view.row.Some? && SettledAs(job, row, result, finished, r.view.row.value)
                  && EntryAdded(job, v, row, now, result, finished, r.view))
  {
    if Startable(job, row, now) && IsI64(now + 300_000_000_000) {
      StartClaims(job, v, row, now, result, finished);
      if Runs(job, v, row, now, result) {
        SettleRuns(job, v, row, now, result, finished);
      } else {
        SettleFails(job, v, row, now, result, finished);
      }
    } else {
      NoClaim(job, v, row, now, result, finished);
    }
  }

  /** All five attempts are used up and the last one is over. */
  predicate UsedUp(row: Row, now: I64) {
    && row.attempt >= 5
    && ((row.status.Running? && row.leaseUntil <= now) || (row.status.Retry? && row.retryAfter <= now))
  }

  /** The row after exhaustion, field by field. */
  predicate GivenUp(job: Job, row: Row, u: Row) {
    && u.version == row.version && u.attempt == 0 && u.retryAfter == 0 && u.leaseUntil == 0 && u.key == ""
    && (job.schedule.EveryNs? ==> u.status == Idle && u.planned == row.planned + job.schedule.interval)
    && (job.schedule.AtUnixNs? ==> u.status == Failed && u.planned == row.planned)
  }

  predicate SlotAfterFits(job: Job, row: Row) {
    job.schedule.AtUnixNs? || (IsI64(job.schedule.interval) && IsI64(row.planned + job.schedule.interval))
  }

  /** Without a claim the history stays as it is and the row is the one servicing started from, unless
      all attempts are used up: then the job goes on to its next slot or ends, if that slot fits. */
  lemma NoClaim(job: Job, v: View, row: Row, now: I64, result: RunResult, finished: int)
    requires StartsFrom(job, v, now, row) && !(Startable(job, row, now) && IsI64(now + 300_000_000_000))
    ensures var r := ServiceTx(job, v, now, result, finished);
            && r.view.history == v.history && r.view.nextSeq == v.nextSeq && r.view.row.Some?
            && (if UsedUp(row, now) && SlotAfterFits(job, row) then GivenUp(job, row, r.view.row.value)
                else r.view.row.value == row)
            && (r.outcome == NothingDue || r.outcome == Aborted)
            && (r.outcome == Aborted <==>
                  || Startable(job, row, now)
                  || (UsedUp(row, now) && !SlotAfterFits(job, row))
                  || (row.status.Idle? && CoalescedPlanned(job.schedule, row.planned, now).Err?)
                  || (row.status.Idle? && CoalescedPlanned(job.schedule, row.planned, now).value <= now
                      && !IsI64(now + 300_000_000_000)))
  {
    LoadedIsStart(job, v, now, row);
  }

  /** An attempt that was claimed and could not be finalized keeps its claim and its open entry. */
  lemma InterruptedKeepsTheClaim(job: Job, v: View, row: Row, now: I64, result: RunResult, finished: int)
    requires Numbered(v) && StartsFrom(job, v, now, row) && Startable(job, row, now)
    requires IsI64(now + 300_000_000_000) && !Runs(job, v, row, now, result)
    ensures var r := ServiceTx(job, v, now, result, finished);
            var running := Row(row.version, row.planned, NextAttempt(row), Running, 0, now + 300_000_000_000,
                               AttemptKey(job, row));
            && r.outcome == Aborted && r.view.row == Some(running) && r.view.nextSeq == v.nextSeq + 1
            && r.view.history ==
                 v.history[v.nextSeq := Entry(row.planned, NextAttempt(row), AttemptKey(job, row), now, 0, InProgress)]
  {
    StartClaims(job, v, row, now, result, finished);
    SettleFails(job, v, row, now, result, finished);
  }

  /** Servicing starts from some row unless a fresh one has no slot; then it errs and changes nothing. */
  lemma StartsOrErrs(job: Job, v: View, now: I64, result: RunResult, finished: int)
    ensures || (exists row :: StartsFrom(job, v, now, row))
            || ServiceTx(job, v, now, result, finished) == Served(v, Aborted)
  {
    if AtVersion(job, v) {
      assert StartsFrom(job, v, now, v.row.value);
    } else if InitialPlanned(job.schedule, now).Ok? {
      assert StartsFrom(job, v, now, FreshRow(job, InitialPlanned(job.schedule, now).value));
    }
  }

  /** The simplest run: a one-time job that is due succeeds and is complete. */
  lemma OneTimeJobCompletes()
    ensures var job := Job("j", 1, AtUnixNs(5));
            var v := View(Some(Row(1, 5, 0, Idle, 0, 0, "")), map[], 0);
            var r := ServiceTx(job, v, 7, Success, 8);
            && r.outcome == RanWell && r.view.row == Some(Row(1, 5, 0, Complete, 0, 0, ""))
            && 0 in r.view.history && r.view.history[0].outcome == Succeeded && r.view.history[0].finished == 8
  {
    var job := Job("j", 1, AtUnixNs(5));
    var row := Row(1, 5, 0, Idle, 0, 0, "");
    RunsExactly(job, View(Some(row), map[], 0), row, 7, Success, 8);
  }
}
