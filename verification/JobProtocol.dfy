/** The durable job scheduler as a state machine (src/server/job_scheduler.rs).

One job's share of the two durable relations is a `View`: its state row and its history rows.
`Step` executes one statement or transaction of one worker, so a list of actions is any
interleaving of any number of workers, any clock readings and any crashes.
*/
module JobProtocol {
  import opened Common
  import opened Schedule
  import Decimal

  const ATTEMPT_LEASE_NS: int := 300_000_000_000
  const MAX_ATTEMPTS: int := 5
  const HISTORY_PER_JOB: int := 256
  const RETENTION_DELETE_BATCH: int := 256

  datatype Job = Job(id: string, version: int, schedule: Schedule)

  datatype Status = Idle | Running | Retry | Complete | Failed

  datatype Row = Row(version: int, planned: I64, attempt: int, status: Status,
                     retryAfter: int, leaseUntil: int, key: string)

  datatype Outcome = InProgress | Succeeded | Faulted

  datatype Entry = Entry(planned: I64, attempt: int, key: string,
                         started: int, finished: int, outcome: Outcome)

  /** One job's rows of both relations; `nextSeq` is the history relation's AUTO_INCREMENT. */
  datatype View = View(row: Option<Row>, history: map<nat, Entry>, nextSeq: nat)

  /** What executing the job's procedure reported. */
  datatype RunResult = Success | RetryableFailure | FinalFailure

  // ---------------------------------------------------------------- statements and transactions

  function KeyFor(job: Job, planned: int): string {
    job.id + "/" + Decimal.Signed(planned)
  }

  function FreshRow(job: Job, planned: I64): Row {
    Row(job.version, planned, 0, Idle, 0, 0, "")
  }

  datatype Decision = NotDue | Broken | Exhausted | Attempt(snapshot: Row, attempt: int, key: string)

  /** `service_job` between loading the row and claiming it. */
  function Decide(job: Job, row: Row, now: I64): Decision {
    if row.status.Complete? || row.status.Failed? then NotDue
    else if row.status.Running? && row.leaseUntil > now then NotDue
    else if row.status.Retry? && row.retryAfter > now then NotDue
    else if row.status.Idle? then
      match CoalescedPlanned(job.schedule, row.planned, now)
      case Err => Broken
      case Ok(slot) =>
        if slot > now then NotDue
        else Attempt(row.(planned := slot), 1, KeyFor(job, slot))
    else if row.attempt + 1 > MAX_ATTEMPTS then Exhausted
    else Attempt(row, row.attempt + 1, if row.key == "" then KeyFor(job, row.planned) else row.key)
  }

  /** The WHERE clause of the claiming update. */
  predicate Unclaimed(job: Job, row: Row, snapshot: Row) {
    && row.version == job.version
    && row.status == snapshot.status
    && row.attempt == snapshot.attempt
    && row.planned == snapshot.planned
  }

  /** `claim_attempt`: both relations change, or neither does. */
  function ClaimTx(job: Job, v: View, snapshot: Row, attempt: int, key: string, now: I64): (r: (View, bool)) {
    if !IsI64(now + ATTEMPT_LEASE_NS) || v.row.None? || !Unclaimed(job, v.row.value, snapshot) then (v, false)
    else
      var row := v.row.value.(planned := snapshot.planned, attempt := attempt, status := Running,
                              retryAfter := 0, leaseUntil := now + ATTEMPT_LEASE_NS, key := key);
      var entry := Entry(snapshot.planned, attempt, key, now, 0, InProgress);
      (View(Some(row), v.history[v.nextSeq := entry], v.nextSeq + 1), true)
  }

  predicate Open(e: Entry, planned: int, attempt: int, key: string) {
    e.planned == planned && e.attempt == attempt && e.key == key && e.outcome.InProgress?
  }

  function OpenEntries(history: map<nat, Entry>, planned: int, attempt: int, key: string): set<nat> {
    set s | s in history && Open(history[s], planned, attempt, key)
  }

  predicate Held(row: Option<Row>, planned: int, attempt: int, key: string) {
    && row.Some? && row.value.status.Running?
    && row.value.planned == planned && row.value.attempt == attempt && row.value.key == key
  }

  function Close(history: map<nat, Entry>, open: set<nat>, finished: int, outcome: Outcome): map<nat, Entry> {
    map s | s in history :: if s in open then history[s].(finished := finished, outcome := outcome) else history[s]
  }

  /** `finalize_attempt`: commits only if each update touched exactly one row. */
  function FinalizeTx(v: View, planned: int, attempt: int, key: string, finished: int, outcome: Outcome,
                      status: Status, next: I64, retryAfter: int, retained: string): (r: (View, bool))
  {
    var open := OpenEntries(v.history, planned, attempt, key);
    if |open| != 1 || !Held(v.row, planned, attempt, key) then (v, false)
    else
      var row := v.row.value.(planned := next, attempt := if status.Retry? then attempt else 0,
                              status := status, retryAfter := retryAfter, leaseUntil := 0, key := retained);
      (View(Some(row), Close(v.history, open, finished, outcome), v.nextSeq), true)
  }

  function Pow2(n: nat): nat {
    if n == 0 then 1 else 2 * Pow2(n - 1)
  }

  /** Retry delay after attempt `attempt`: 100 ms doubled each time, at most 10 s. */
  function BackoffNs(attempt: int): int {
    var shift := if attempt < 1 then 0 else Min(attempt - 1, 7);
    Min(100_000_000 * Pow2(shift), 10_000_000_000)
  }

  function RetryAfter(finished: int, attempt: int): int {
    Min(finished + BackoffNs(attempt), I64_MAX)
  }

  /** `finalize_success` and `finalize_failure`. An overflowing next slot is an error that
      leaves the claim in place. */
  function FinishTx(job: Job, v: View, planned: I64, attempt: int, key: string,
                    finished: int, result: RunResult): (r: (View, bool))
  {
    if result.RetryableFailure? && attempt < MAX_ATTEMPTS then
      FinalizeTx(v, planned, attempt, key, finished, Faulted, Retry, planned, RetryAfter(finished, attempt), key)
    else
      var outcome := if result.Success? then Succeeded else Faulted;
      match NextPlanned(job.schedule, planned)
      case Err => (v, false)
      case Ok(Some(next)) => FinalizeTx(v, planned, attempt, key, finished, outcome, Idle, next, 0, "")
      case Ok(None) =>
        FinalizeTx(v, planned, attempt, key, finished, outcome,
                   if result.Success? then Complete else Failed, planned, 0, "")
  }

  /** `finalize_exhausted`: updates by job id alone, whatever the stored row has become. */
  function ExhaustUpdate(job: Job, v: View, planned: I64): View {
    match NextPlanned(job.schedule, planned)
    case Err => v
    case Ok(next) =>
      if v.row.None? then v
      else v.(row := Some(v.row.value.(planned := if next.Some? then next.value else planned, attempt := 0,
                                       status := if next.Some? then Idle else Failed,
                                       retryAfter := 0, leaseUntil := 0, key := "")))
  }

  /** The job's history rows that are newer than sequence `s`. */
  function Newer(history: map<nat, Entry>, s: nat): set<nat> {
    set t | t in history && t > s
  }

  /** `ORDER BY sequence DESC LIMIT 256 OFFSET 256`. */
  function Stale(history: map<nat, Entry>): set<nat> {
    set s | s in history && HISTORY_PER_JOB <= |Newer(history, s)| < HISTORY_PER_JOB + RETENTION_DELETE_BATCH
  }

  // ---------------------------------------------------------------- workers and steps

  datatype Worker =
    | Free
    | Inserting(planned: I64, now: I64)
    | Resetting(planned: I64, now: I64)
    | Reloading(now: I64)
    | Ready(snapshot: Row, attempt: int, key: string, now: I64)
    | Exhausting(seen: Row)
    | Executing(planned: I64, attempt: int, key: string)
    | Settled
    | Deleting(stale: set<nat>)

  /** A claim that committed, filed under the sequence number of its history row. */
  datatype Claim = Claim(planned: I64, attempt: int, key: string, lease: int)

  /** `log` and `last` record what was claimed since the definition version took effect, which
      was when the history relation would next have used sequence number `epoch`. */
  datatype World = World(view: View, workers: map<nat, Worker>, log: map<nat, Claim>, last: Option<nat>, epoch: nat)

  datatype Action =
    | Load(id: nat, now: I64)
    | Insert(id: nat)
    | Reset(id: nat)
    | Reload(id: nat)
    | TryClaim(id: nat)
    | Finish(id: nat, result: RunResult, finished: int)
    | Exhaust(id: nat)
    | SelectStale(id: nat)
    | Delete(id: nat, sequence: nat)
    | Crash(id: nat)
    | OtherJobs(id: nat, inserted: nat)

  function WorkerAt(w: World, id: nat): Worker {
    if id in w.workers then w.workers[id] else Free
  }

  function With(w: World, id: nat, state: Worker): World {
    w.(workers := w.workers[id := state])
  }

  function Next(job: Job, row: Row, now: I64): Worker {
    match Decide(job, row, now)
    case NotDue => Free
    case Broken => Free
    case Exhausted => Exhausting(row)
    case Attempt(snapshot, attempt, key) => Ready(snapshot, attempt, key, now)
  }

  function LoadStep(job: Job, w: World, id: nat, now: I64): World {
    match w.view.row
    case None =>
      (match InitialPlanned(job.schedule, now)
       case Err => w
       case Ok(planned) => With(w, id, Inserting(planned, now)))
    case Some(row) =>
      if row.version == job.version then With(w, id, Next(job, row, now))
      else
        match InitialPlanned(job.schedule, now)
        case Err => w
        case Ok(planned) => With(w, id, Resetting(planned, now))
  }

  /** The primary key makes the second of two racing inserts an error. */
  function InsertStep(job: Job, w: World, id: nat, planned: I64, now: I64): World {
    if w.view.row.Some? then With(w, id, Free)
    else With(w.(view := w.view.(row := Some(FreshRow(job, planned)))), id, Reloading(now))
  }

  function ResetStep(job: Job, w: World, id: nat, planned: I64, now: I64): World {
    if w.view.row.None? then With(w, id, Free)
    else With(w.(view := w.view.(row := Some(FreshRow(job, planned)))), id, Reloading(now))
  }

  function ReloadStep(job: Job, w: World, id: nat, now: I64): World {
    if w.view.row.None? then With(w, id, Free) else With(w, id, Next(job, w.view.row.value, now))
  }

  function ClaimStep(job: Job, w: World, id: nat, snapshot: Row, attempt: int, key: string, now: I64): World {
    var (v, claimed) := ClaimTx(job, w.view, snapshot, attempt, key, now);
    if !claimed then With(w, id, Free)
    else
      var seqno := w.view.nextSeq;
      var claim := Claim(snapshot.planned, attempt, key, now + ATTEMPT_LEASE_NS);
      With(w.(view := v, log := w.log[seqno := claim], last := Some(seqno)), id,
           Executing(snapshot.planned, attempt, key))
  }

  function FinishStep(job: Job, w: World, id: nat, planned: I64, attempt: int, key: string,
                      result: RunResult, finished: int): World
  {
    var (v, committed) := FinishTx(job, w.view, planned, attempt, key, finished, result);
    With(w.(view := v), id, if committed then Settled else Free)
  }

  function DeleteStep(w: World, id: nat, stale: set<nat>, sequence: nat): World {
    With(w.(view := w.view.(history := w.view.history - {sequence})), id, Deleting(stale - {sequence}))
  }

  /** One atomic step. An action whose worker is not at that point changes nothing. */
  function Step(job: Job, w: World, a: Action): World {
    match (a, WorkerAt(w, a.id))
    case (Load(id, now), Free) => LoadStep(job, w, id, now)
    case (Insert(id), Inserting(planned, now)) => InsertStep(job, w, id, planned, now)
    case (Reset(id), Resetting(planned, now)) => ResetStep(job, w, id, planned, now)
    case (Reload(id), Reloading(now)) => ReloadStep(job, w, id, now)
    case (TryClaim(id), Ready(snapshot, attempt, key, now)) => ClaimStep(job, w, id, snapshot, attempt, key, now)
    case (Finish(id, result, finished), Executing(planned, attempt, key)) =>
      FinishStep(job, w, id, planned, attempt, key, result, finished)
    case (Exhaust(id), Exhausting(seen)) => With(w.(view := ExhaustUpdate(job, w.view, seen.planned)), id, Free)
    case (SelectStale(id), Settled) => With(w, id, Deleting(Stale(w.view.history)))
    case (Delete(id, sequence), Deleting(stale)) => if sequence in stale then DeleteStep(w, id, stale, sequence) else w
    case (Crash(id), _) => With(w, id, Free)
    case (OtherJobs(_, inserted), _) => w.(view := w.view.(nextSeq := w.view.nextSeq + inserted))
    case _ => w
  }

  function Run(job: Job, w: World, actions: seq<Action>): World
    decreases |actions|
  {
    if actions == [] then w else Run(job, Step(job, w, actions[0]), actions[1..])
  }

  // ---------------------------------------------------------------- the two unconditional updates

  /** The slot is later than that of the newest claim. */
  predicate Later(w: World, slot: int) {
    w.last.Some? && w.last.value in w.log ==> w.log[w.last.value].planned < slot
  }

  /** Exhaustion and version reset update by job id alone. They keep claims in order exactly when
      the slot they store is later than the newest claim; a one-time job has no later slot, so only
      its failure or its very first slot can be stored. Every other step is unrestricted. */
  predicate Ordered(job: Job, w: World, a: Action) {
    match (a, WorkerAt(w, a.id))
    case (Exhaust(_), Exhausting(seen)) =>
      var next := NextPlanned(job.schedule, seen.planned);
      next.Ok? && next.value.Some? ==> Later(w, next.value.value)
    case (Reset(_), Resetting(planned, _)) =>
      w.view.row.Some? && w.last.Some? ==> job.schedule.EveryNs? && Later(w, planned)
    case _ => true
  }

  predicate OrderedRun(job: Job, w: World, actions: seq<Action>)
    decreases |actions|
  {
    actions == [] || (Ordered(job, w, actions[0]) && OrderedRun(job, Step(job, w, actions[0]), actions[1..]))
  }

  /** A worker's unconditional update finds the row that the worker decided on. */
  predicate Undisturbed(job: Job, w: World, a: Action) {
    match (a, WorkerAt(w, a.id))
    case (Exhaust(_), Exhausting(seen)) => w.view.row == Some(seen)
    case (Reset(_), Resetting(_, _)) => w.view.row.Some? && w.view.row.value.version != job.version
    case _ => true
  }

  predicate UndisturbedRun(job: Job, w: World, actions: seq<Action>)
    decreases |actions|
  {
    actions == [] || (Undisturbed(job, w, actions[0]) && UndisturbedRun(job, Step(job, w, actions[0]), actions[1..]))
  }

  // ---------------------------------------------------------------- the invariant

  predicate Precedes(a: Claim, b: Claim) {
    a.planned < b.planned || (a.planned == b.planned && a.attempt < b.attempt)
  }

  /** Claims are strictly increasing pairs (slot, attempt), each under its slot's own key. */
  ghost predicate LogInv(job: Job, w: World) {
    && w.epoch <= w.view.nextSeq
    && (w.last.None? ==> w.log == map[])
    && (w.last.Some? ==> w.last.value in w.log)
    && (forall s :: s in w.log ==> w.epoch <= s < w.view.nextSeq && s <= w.last.value && ClaimInv(job, w.log[s]))
    && (forall s, t :: s in w.log && t in w.log && s < t ==> Precedes(w.log[s], w.log[t]))
  }

  predicate ClaimInv(job: Job, c: Claim) {
    && 1 <= c.attempt <= MAX_ATTEMPTS
    && c.key == KeyFor(job, c.planned)
    && (job.schedule.AtUnixNs? ==> c.planned == job.schedule.timestamp)
  }

  /** The state row, once it is at the current version, agrees with the newest claim. */
  ghost predicate RowInv(job: Job, row: Row, log: map<nat, Claim>, last: Option<nat>)
    requires last.Some? ==> last.value in log
  {
    match row.status
    case Idle =>
      && AtRest(row, row.planned)
      && (job.schedule.AtUnixNs? ==> last.None? && row.planned == job.schedule.timestamp)
      && (last.Some? ==> log[last.value].planned < row.planned)
    case Running =>
      last.Some? && log[last.value] == Claim(row.planned, row.attempt, row.key, row.leaseUntil)
    case Retry =>
      && last.Some? && row.attempt < MAX_ATTEMPTS
      && log[last.value].planned == row.planned && log[last.value].attempt == row.attempt
      && log[last.value].key == row.key
    case Complete => job.schedule.AtUnixNs? && last.Some? && AtRest(row, job.schedule.timestamp)
    case Failed => job.schedule.AtUnixNs? && last.Some? && AtRest(row, job.schedule.timestamp)
  }

  /** Nothing is left of an attempt. */
  predicate AtRest(row: Row, slot: int) {
    row.planned == slot && row.attempt == 0 && row.retryAfter == 0 && row.leaseUntil == 0 && row.key == ""
  }

  predicate Current(job: Job, w: World) {
    w.view.row.Some? && w.view.row.value.version == job.version
  }

  ghost predicate StateInv(job: Job, w: World)
    requires LogInv(job, w)
  {
    if Current(job, w) then RowInv(job, w.view.row.value, w.log, w.last) else w.last.None?
  }

  predicate Describes(c: Claim, e: Entry) {
    e.planned == c.planned && e.attempt == c.attempt && e.key == c.key
  }

  /** History rows of this version are logged claims; a running row's own history row is open. */
  ghost predicate HistoryInv(job: Job, w: World)
    requires LogInv(job, w)
  {
    && (forall s :: s in w.view.history ==> s < w.view.nextSeq)
    && (forall s :: s in w.view.history && w.epoch <= s ==> s in w.log && Describes(w.log[s], w.view.history[s]))
    && (Current(job, w) && w.view.row.value.status.Running? ==>
          && w.last.Some? && w.last.value in w.view.history
          && w.view.history[w.last.value].outcome.InProgress?)
  }

  ghost predicate Logged(log: map<nat, Claim>, planned: int, attempt: int, key: string) {
    exists s :: s in log && log[s].planned == planned && log[s].attempt == attempt && log[s].key == key
  }

  ghost predicate LoggedLease(log: map<nat, Claim>, planned: int, attempt: int, lease: int) {
    exists s :: s in log && log[s].planned == planned && log[s].attempt == attempt && log[s].lease == lease
  }

  ghost predicate WorkerInv(job: Job, w: World, state: Worker) {
    match state
    case Inserting(planned, now) => InitialPlanned(job.schedule, now) == Ok(planned)
    case Resetting(planned, now) => InitialPlanned(job.schedule, now) == Ok(planned)
    case Reloading(_) => Current(job, w)
    case Ready(snapshot, attempt, key, now) =>
      && snapshot.version == job.version && key == KeyFor(job, snapshot.planned)
      && (snapshot.status.Idle? ==> snapshot.attempt == 0 && attempt == 1 && InitialSlot(job, snapshot.planned))
      && (!snapshot.status.Idle? ==> 1 <= snapshot.attempt < MAX_ATTEMPTS && attempt == snapshot.attempt + 1)
      && (snapshot.status.Running? ==>
            snapshot.leaseUntil <= now && LoggedLease(w.log, snapshot.planned, snapshot.attempt, snapshot.leaseUntil))
      && !snapshot.status.Complete? && !snapshot.status.Failed?
    case Exhausting(seen) =>
      Current(job, w) && w.last.Some? && (seen.status.Running? || seen.status.Retry?) && InitialSlot(job, seen.planned)
    case Executing(planned, attempt, key) => Logged(w.log, planned, attempt, key)
    case Deleting(stale) => forall s :: s in stale ==> Superseded(w, s)
    case _ => true
  }

  predicate InitialSlot(job: Job, planned: int) {
    job.schedule.AtUnixNs? ==> planned == job.schedule.timestamp
  }

  /** A later history row of the job exists, or existed when this version began. */
  predicate Superseded(w: World, s: nat) {
    s < w.epoch || (w.last.Some? && s < w.last.value)
  }

  ghost predicate WorkersInv(job: Job, w: World) {
    forall id :: id in w.workers ==> WorkerInv(job, w, w.workers[id])
  }

  ghost predicate Inv(job: Job, w: World) {
    LogInv(job, w) && StateInv(job, w) && HistoryInv(job, w) && WorkersInv(job, w)
  }

  /** The start of a definition version: nothing claimed yet, any older history. */
  ghost predicate Initial(job: Job, w: World) {
    && w.log == map[] && w.last.None? && w.workers == map[] && w.epoch == w.view.nextSeq
    && (forall s :: s in w.view.history ==> s < w.view.nextSeq)
    && !Current(job, w)
  }

  // ---------------------------------------------------------------- preservation, step by step

  lemma NextIsSound(job: Job, w: World, row: Row, now: I64)
    requires LogInv(job, w) && RowInv(job, row, w.log, w.last) && Current(job, w) && w.view.row.value == row
    ensures WorkerInv(job, w, Next(job, row, now))
  {
    if row.status.Running? {
      var s := w.last.value;
      assert s in w.log && ClaimInv(job, w.log[s]);
      assert LoggedLease(w.log, row.planned, row.attempt, row.leaseUntil);
    } else if row.status.Retry? {
      assert ClaimInv(job, w.log[w.last.value]);
    }
    KeysAreNonempty(job, row.planned);
  }

  lemma KeysAreNonempty(job: Job, planned: int)
    ensures KeyFor(job, planned) != ""
  {
    assert "/" <= KeyFor(job, planned)[|job.id|..];
  }

  /** What a worker relies on survives any change that keeps `Current` and extends the log. */
  lemma WorkerInvMonotone(job: Job, w: World, u: World, state: Worker)
    requires WorkerInv(job, w, state)
    requires Current(job, w) ==> Current(job, u)
    requires forall s :: s in w.log ==> s in u.log && u.log[s] == w.log[s]
    requires u.epoch == w.epoch
    requires w.last.Some? ==> u.last.Some? && w.last.value <= u.last.value
    ensures WorkerInv(job, u, state)
  {
    match state {
      case Ready(snapshot, attempt, key, now) =>
        if snapshot.status.Running? {
          var s :| s in w.log && w.log[s].planned == snapshot.planned && w.log[s].attempt == snapshot.attempt
                   && w.log[s].lease == snapshot.leaseUntil;
          assert s in u.log && u.log[s] == w.log[s];
        }
      case Executing(planned, attempt, key) =>
        var s :| s in w.log && w.log[s].planned == planned && w.log[s].attempt == attempt && w.log[s].key == key;
        assert s in u.log && u.log[s] == w.log[s];
      case _ =>
    }
  }

  lemma WorkersInvMonotone(job: Job, w: World, u: World, id: nat, state: Worker)
    requires WorkersInv(job, w) && u.workers == w.workers[id := state]
    requires WorkerInv(job, u, state)
    requires Current(job, w) ==> Current(job, u)
    requires forall s :: s in w.log ==> s in u.log && u.log[s] == w.log[s]
    requires u.epoch == w.epoch
    requires w.last.Some? ==> u.last.Some? && w.last.value <= u.last.value
    ensures WorkersInv(job, u)
  {
    forall i | i in u.workers ensures WorkerInv(job, u, u.workers[i]) {
      if i != id {
        WorkerInvMonotone(job, w, u, w.workers[i]);
      }
    }
  }

  lemma LoadKeepsInv(job: Job, w: World, id: nat, now: I64)
    requires Inv(job, w)
    ensures Inv(job, LoadStep(job, w, id, now))
  {
    var u := LoadStep(job, w, id, now);
    if u != w {
      if Current(job, w) {
        NextIsSound(job, w, w.view.row.value, now);
        WorkerInvMonotone(job, w, u, Next(job, w.view.row.value, now));
      }
      WorkersInvMonotone(job, w, u, id, u.workers[id]);
    }
  }

  lemma FreshKeepsInv(job: Job, w: World, id: nat, planned: I64, now: I64)
    requires Inv(job, w) && !Current(job, w) && InitialSlot(job, planned)
    ensures Inv(job, With(w.(view := w.view.(row := Some(FreshRow(job, planned)))), id, Reloading(now)))
  {
    var u := With(w.(view := w.view.(row := Some(FreshRow(job, planned)))), id, Reloading(now));
    WorkersInvMonotone(job, w, u, id, Reloading(now));
  }

  lemma ReloadKeepsInv(job: Job, w: World, id: nat, now: I64)
    requires Inv(job, w) && Current(job, w)
    ensures Inv(job, ReloadStep(job, w, id, now))
  {
    var u := ReloadStep(job, w, id, now);
    NextIsSound(job, w, w.view.row.value, now);
    WorkerInvMonotone(job, w, u, Next(job, w.view.row.value, now));
    WorkersInvMonotone(job, w, u, id, u.workers[id]);
  }

  lemma ReleaseKeepsInv(job: Job, w: World, id: nat, state: Worker)
    requires Inv(job, w) && WorkerInv(job, With(w, id, state), state)
    ensures Inv(job, With(w, id, state))
  {
    WorkersInvMonotone(job, w, With(w, id, state), id, state);
  }

  /** A claim that commits is later than every earlier one. */
  lemma ClaimIsNewest(job: Job, w: World, snapshot: Row, attempt: int, key: string, now: I64)
    requires Inv(job, w) && WorkerInv(job, w, Ready(snapshot, attempt, key, now))
    requires Current(job, w) && Unclaimed(job, w.view.row.value, snapshot)
    ensures forall s :: s in w.log ==> Precedes(w.log[s], Claim(snapshot.planned, attempt, key, now + ATTEMPT_LEASE_NS))
  {
    forall s | s in w.log
      ensures Precedes(w.log[s], Claim(snapshot.planned, attempt, key, now + ATTEMPT_LEASE_NS))
    {
      if s != w.last.value {
        assert Precedes(w.log[s], w.log[w.last.value]);
      }
    }
  }

  lemma ClaimKeepsInv(job: Job, w: World, id: nat, snapshot: Row, attempt: int, key: string, now: I64)
    requires Inv(job, w) && WorkerInv(job, w, Ready(snapshot, attempt, key, now))
    ensures Inv(job, ClaimStep(job, w, id, snapshot, attempt, key, now))
  {
    var u := ClaimStep(job, w, id, snapshot, attempt, key, now);
    if !ClaimTx(job, w.view, snapshot, attempt, key, now).1 {
      ReleaseKeepsInv(job, w, id, Free);
    } else {
      ClaimIsLogged(job, w, id, snapshot, attempt, key, now);
      assert w.view.nextSeq in u.log;
      WorkersInvMonotone(job, w, u, id, u.workers[id]);
    }
  }

  lemma ClaimIsLogged(job: Job, w: World, id: nat, snapshot: Row, attempt: int, key: string, now: I64)
    requires Inv(job, w) && WorkerInv(job, w, Ready(snapshot, attempt, key, now))
    requires ClaimTx(job, w.view, snapshot, attempt, key, now).1
    ensures var u := ClaimStep(job, w, id, snapshot, attempt, key, now); LogInv(job, u) && HistoryInv(job, u)
  {
    ClaimIsNewest(job, w, snapshot, attempt, key, now);
    var u, s := ClaimStep(job, w, id, snapshot, attempt, key, now), w.view.nextSeq;
    assert s !in w.log;
    assert u.log[s] == Claim(snapshot.planned, attempt, key, now + ATTEMPT_LEASE_NS);
  }

  lemma FinalizeKeepsInv(job: Job, w: World, id: nat, planned: I64, attempt: int, key: string, finished: int,
                         outcome: Outcome, status: Status, next: I64, retryAfter: int, retained: string, state: Worker)
    requires Inv(job, w)
    requires status.Retry? ==> next == planned && attempt < MAX_ATTEMPTS && retained == key
    requires !status.Retry? ==> retryAfter == 0 && retained == ""
    requires status.Idle? ==> job.schedule.EveryNs? && planned < next
    requires status.Complete? || status.Failed? ==> job.schedule.AtUnixNs? && next == planned
    requires !status.Running? && !outcome.InProgress? && (state.Settled? || state.Free?)
    ensures var v := FinalizeTx(w.view, planned, attempt, key, finished, outcome, status, next, retryAfter, retained).0;
            Inv(job, With(w.(view := v), id, state))
  {
    var v := FinalizeTx(w.view, planned, attempt, key, finished, outcome, status, next, retryAfter, retained).0;
    var u := With(w.(view := v), id, state);
    FinalizedEntries(w.view, planned, attempt, key, finished, outcome, status, next, retryAfter, retained);
    if v != w.view && Current(job, w) {
      assert RowInv(job, v.row.value, u.log, u.last);
    }
    WorkersInvMonotone(job, w, u, id, state);
  }

  lemma FinalizedEntries(v: View, planned: int, attempt: int, key: string, finished: int, outcome: Outcome,
                         status: Status, next: I64, retryAfter: int, retained: string)
    ensures var u := FinalizeTx(v, planned, attempt, key, finished, outcome, status, next, retryAfter, retained).0;
            && u.nextSeq == v.nextSeq && u.history.Keys == v.history.Keys
            && (u != v ==>
                  && Held(v.row, planned, attempt, key)
                  && u.row == Some(v.row.value.(planned := next, attempt := if status.Retry? then attempt else 0,
                                                status := status, retryAfter := retryAfter, leaseUntil := 0,
                                                key := retained)))
            && forall s :: s in v.history ==>
                 && u.history[s].planned == v.history[s].planned && u.history[s].attempt == v.history[s].attempt
                 && u.history[s].key == v.history[s].key
  {
  }

  lemma FinishKeepsInv(job: Job, w: World, id: nat, planned: I64, attempt: int, key: string,
                       result: RunResult, finished: int)
    requires Inv(job, w)
    ensures Inv(job, FinishStep(job, w, id, planned, attempt, key, result, finished))
  {
    var state := FinishStep(job, w, id, planned, attempt, key, result, finished).workers[id];
    if result.RetryableFailure? && attempt < MAX_ATTEMPTS {
      FinalizeKeepsInv(job, w, id, planned, attempt, key, finished, Faulted, Retry, planned,
                       RetryAfter(finished, attempt), key, state);
    } else {
      var outcome := if result.Success? then Succeeded else Faulted;
      match NextPlanned(job.schedule, planned) {
        case Err => ReleaseKeepsInv(job, w, id, state);
        case Ok(Some(next)) =>
          FinalizeKeepsInv(job, w, id, planned, attempt, key, finished, outcome, Idle, next, 0, "", state);
        case Ok(None) =>
          FinalizeKeepsInv(job, w, id, planned, attempt, key, finished, outcome,
                           if result.Success? then Complete else Failed, planned, 0, "", state);
      }
    }
  }

  /** Exhaustion keeps the invariant exactly when it stores a slot later than the newest claim's. */
  lemma ExhaustionIsExact(job: Job, w: World, id: nat, seen: Row)
    requires Inv(job, w) && WorkerInv(job, w, Exhausting(seen)) && WorkerAt(w, id) == Exhausting(seen)
    ensures Inv(job, Step(job, w, Exhaust(id))) <==> Ordered(job, w, Exhaust(id))
  {
    var u := With(w.(view := ExhaustUpdate(job, w.view, seen.planned)), id, Free);
    WorkersInvMonotone(job, w, u, id, Free);
  }

  /** A version reset keeps the invariant exactly when nothing was claimed or its slot is later. */
  lemma ResetIsExact(job: Job, w: World, id: nat, planned: I64, now: I64)
    requires Inv(job, w) && WorkerInv(job, w, Resetting(planned, now)) && WorkerAt(w, id) == Resetting(planned, now)
    ensures Inv(job, Step(job, w, Reset(id))) <==> Ordered(job, w, Reset(id))
  {
    if w.view.row.None? {
      ReleaseKeepsInv(job, w, id, Free);
    } else {
      var u := With(w.(view := w.view.(row := Some(FreshRow(job, planned)))), id, Reloading(now));
      WorkersInvMonotone(job, w, u, id, Reloading(now));
    }
  }

  /** Selected rows have a newer row, so deleting them never removes the newest claim's row. */
  lemma SelectKeepsInv(job: Job, w: World, id: nat)
    requires Inv(job, w)
    ensures Inv(job, With(w, id, Deleting(Stale(w.view.history))))
  {
    var h := w.view.history;
    var u := With(w, id, Deleting(Stale(h)));
    forall s | s in Stale(h) ensures Superseded(u, s) {
      assert Newer(h, s) != {};
      var t :| t in Newer(h, s);
      assert t in h && s < t;
    }
    ReleaseKeepsInv(job, w, id, Deleting(Stale(h)));
  }

  lemma DeleteKeepsInv(job: Job, w: World, id: nat, stale: set<nat>, sequence: nat)
    requires Inv(job, w) && WorkerInv(job, w, Deleting(stale)) && sequence in stale
    ensures Inv(job, DeleteStep(w, id, stale, sequence))
  {
    var u := DeleteStep(w, id, stale, sequence);
    assert Superseded(w, sequence);
    assert WorkerInv(job, u, Deleting(stale - {sequence})) by {
      assert forall s :: s in stale ==> Superseded(w, s);
    }
    WorkersInvMonotone(job, w, u, id, u.workers[id]);
  }

  /** Of all steps of all workers, exactly the unordered ones break the invariant. */
  lemma StepKeepsInv(job: Job, w: World, a: Action)
    requires Inv(job, w)
    ensures Inv(job, Step(job, w, a)) <==> Ordered(job, w, a)
  {
    assert a.id in w.workers ==> WorkerInv(job, w, w.workers[a.id]);
    match (a, WorkerAt(w, a.id))
    case (Load(id, now), Free) => LoadKeepsInv(job, w, id, now);
    case (Insert(id), Inserting(planned, now)) =>
      if w.view.row.Some? {
        ReleaseKeepsInv(job, w, id, Free);
      } else {
        FreshKeepsInv(job, w, id, planned, now);
      }
    case (Reset(id), Resetting(planned, now)) => ResetIsExact(job, w, id, planned, now);
    case (Reload(id), Reloading(now)) => ReloadKeepsInv(job, w, id, now);
    case (TryClaim(id), Ready(snapshot, attempt, key, now)) => ClaimKeepsInv(job, w, id, snapshot, attempt, key, now);
    case (Finish(id, result, finished), Executing(planned, attempt, key)) =>
      FinishKeepsInv(job, w, id, planned, attempt, key, result, finished);
    case (Exhaust(id), Exhausting(seen)) => ExhaustionIsExact(job, w, id, seen);
    case (SelectStale(id), Settled) => SelectKeepsInv(job, w, id);
    case (Delete(id, sequence), Deleting(stale)) =>
      if sequence in stale {
        DeleteKeepsInv(job, w, id, stale, sequence);
      }
    case (Crash(id), _) => ReleaseKeepsInv(job, w, id, Free);
    case (OtherJobs(_, _), _) => OtherJobsKeepInv(job, w, a);
    case _ =>
  }

  lemma OtherJobsKeepInv(job: Job, w: World, a: Action)
    requires Inv(job, w) && a.OtherJobs?
    ensures Inv(job, Step(job, w, a))
  {
    forall id | id in w.workers ensures WorkerInv(job, Step(job, w, a), w.workers[id]) {
      WorkerInvMonotone(job, w, Step(job, w, a), w.workers[id]);
    }
  }

  /** A run keeps the invariant at every point exactly when each of its steps is ordered, whatever
      the interleaving, the clocks and the crashes. */
  lemma {:induction false} RunKeepsInv(job: Job, w: World, actions: seq<Action>)
    requires Inv(job, w)
    ensures OrderedRun(job, w, actions) ==> Inv(job, Run(job, w, actions))
    ensures OrderedRun(job, w, actions) <==> forall k :: 0 <= k <= |actions| ==> Inv(job, Run(job, w, actions[..k]))
    decreases |actions|
  {
    if actions != [] {
      var u, rest := Step(job, w, actions[0]), actions[1..];
      StepKeepsInv(job, w, actions[0]);
      if Ordered(job, w, actions[0]) {
        RunKeepsInv(job, u, rest);
      }
      if OrderedRun(job, w, actions) {
        forall k | 0 <= k <= |actions| ensures Inv(job, Run(job, w, actions[..k])) {
          if k > 0 { PrefixRun(job, w, actions, k); }
        }
      }
      if forall k :: 0 <= k <= |actions| ==> Inv(job, Run(job, w, actions[..k])) {
        forall k | 0 <= k <= |rest| ensures Inv(job, Run(job, u, rest[..k])) {
          PrefixRun(job, w, actions, k + 1);
        }
        assert Run(job, u, rest[..0]) == u;
      }
    }
  }

  lemma PrefixRun(job: Job, w: World, actions: seq<Action>, k: nat)
    requires 0 < k <= |actions|
    ensures Run(job, w, actions[..k]) == Run(job, Step(job, w, actions[0]), actions[1..][..k - 1])
  {
    assert actions[..k][1..] == actions[1..][..k - 1];
  }

  /** Updates that find the row they decided on are ordered. */
  lemma UndisturbedIsOrdered(job: Job, w: World, a: Action)
    requires Inv(job, w) && Undisturbed(job, w, a)
    ensures Ordered(job, w, a)
  {
    assert a.id in w.workers ==> WorkerInv(job, w, w.workers[a.id]);
  }

  lemma {:induction false} UndisturbedRunIsOrdered(job: Job, w: World, actions: seq<Action>)
    requires Inv(job, w) && UndisturbedRun(job, w, actions)
    ensures OrderedRun(job, w, actions)
    decreases |actions|
  {
    if actions != [] {
      UndisturbedIsOrdered(job, w, actions[0]);
      StepKeepsInv(job, w, actions[0]);
      UndisturbedRunIsOrdered(job, Step(job, w, actions[0]), actions[1..]);
    }
  }

  lemma InitialHasInv(job: Job, w: World)
    requires Initial(job, w)
    ensures Inv(job, w)
  {
  }
}
