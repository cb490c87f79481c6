/** When the scheduler claims a slot at all, and what its unconditional update can undo. */
module JobSlots {
  import opened Common
  import opened Schedule
  import opened JobProtocol
  import opened JobClaims

  /** An interval job whose row waits for slot `planned`. */
  predicate Waiting(job: Job, w: World) {
    && Current(job, w) && w.view.row.value.status.Idle?
    && job.schedule.EveryNs? && IsI64(job.schedule.interval)
  }

  /** A cycle at `now` claims an uncontended waiting job exactly when `now` falls into the stored
      slot's own interval: later, the coalesced slot no longer equals the stored one. */
  lemma ClaimWindow(job: Job, w: World, id: nat, now: I64)
    requires Inv(job, w) && Waiting(job, w) && WorkerAt(w, id).Free?
    requires IsI64(now - w.view.row.value.planned) && IsI64(now + ATTEMPT_LEASE_NS)
    ensures var planned := w.view.row.value.planned;
            var u := Run(job, w, [Load(id, now), TryClaim(id)]);
            && (u.log != w.log <==> planned <= now < planned + job.schedule.interval)
            && (u.log != w.log ==> u.view.row.Some? && u.view.row.value.status.Running?
                                   && u.view.row.value.planned == planned)
            && (u.log == w.log ==> u.view == w.view)
  {
    var row := w.view.row.value;
    CoalescingKeepsSlot(job.schedule.interval, row.planned, now);
    if row.planned < now {
      CoalescedIsLatestDueSlot(job.schedule.interval, row.planned, now);
    }
    var u := Step(job, w, Load(id, now));
    TwoSteps(job, w, Load(id, now), TryClaim(id));
    assert w.view.nextSeq !in w.log;
  }

  lemma TwoSteps(job: Job, w: World, a: Action, b: Action)
    ensures Run(job, w, [a, b]) == Step(job, Step(job, w, a), b)
  {
    assert [a, b][1..] == [b] && [b][1..] == [];
    Unroll(job, w, [a, b]);
    Unroll(job, Step(job, w, a), [b]);
  }

  // ---------------------------------------------------------------- a missed interval is never made up

  /** No worker is about to claim the stored slot, and a clock that was read for a pending load is past
      the slot's interval or before the slot. */
  predicate Harmless(job: Job, row: Row, until: int, state: Worker) {
    match state
    case Reloading(now) => Late(row, until, now) || now < row.planned
    case Ready(snapshot, _, _, _) => !Unclaimed(job, row, snapshot)
    case _ => true
  }

  predicate Late(row: Row, until: int, now: int) {
    until <= now && IsI64(now - row.planned)
  }

  /** The job waits for a slot that was over by time `until`. */
  ghost predicate Behind(job: Job, w: World, until: int) {
    && Waiting(job, w)
    && w.view.row.value.planned + job.schedule.interval <= until
    && forall id :: id in w.workers ==> Harmless(job, w.view.row.value, until, w.workers[id])
  }

  lemma LateLoadIsHarmless(job: Job, row: Row, until: int, now: I64)
    requires row.status.Idle? && job.schedule.EveryNs? && IsI64(job.schedule.interval)
    requires row.planned + job.schedule.interval <= until && Late(row, until, now)
    ensures Harmless(job, row, until, Next(job, row, now))
  {
    CoalescingKeepsSlot(job.schedule.interval, row.planned, now);
  }

  /** A pending exhaustion or reset, which compare nothing, is carried out and stores another slot. */
  predicate MovesTheSlot(job: Job, w: World, a: Action) {
    match (a, WorkerAt(w, a.id))
    case (Exhaust(_), Exhausting(seen)) =>
      var next := NextPlanned(job.schedule, seen.planned);
      w.view.row.Some? && next.Ok? && next.value.Some? && next.value.value != w.view.row.value.planned
    case (Reset(_), Resetting(planned, _)) => w.view.row.Some? && planned != w.view.row.value.planned
    case _ => false
  }

  predicate NoneMovesTheSlot(job: Job, w: World, actions: seq<Action>)
    decreases |actions|
  {
    actions == [] ||
    (!MovesTheSlot(job, w, actions[0]) && NoneMovesTheSlot(job, Step(job, w, actions[0]), actions[1..]))
  }

  /** At every point of the run the job has the same row, and it was not claimed. */
  ghost predicate Starved(job: Job, w: World, actions: seq<Action>) {
    forall k :: 0 <= k <= |actions| ==> Untouched(w, Run(job, w, actions[..k]))
  }

  predicate Untouched(w: World, u: World) {
    u.view.row == w.view.row && u.log == w.log
  }

  lemma BehindRow(job: Job, w: World, until: int, a: Action)
    requires LogInv(job, w) && StateInv(job, w) && Behind(job, w, until)
    requires a.id in w.workers ==> WorkerInv(job, w, w.workers[a.id])
    ensures Untouched(w, Step(job, w, a)) <==> !MovesTheSlot(job, w, a)
    ensures MovesTheSlot(job, w, a) || Ordered(job, w, a)
  {
    assert a.id in w.workers ==> Harmless(job, w.view.row.value, until, w.workers[a.id]);
  }

  lemma BehindWorker(job: Job, w: World, until: int, a: Action)
    requires Behind(job, w, until)
    requires a.id in w.workers ==> WorkerInv(job, w, w.workers[a.id])
    requires a.Load? ==> Late(w.view.row.value, until, a.now)
    requires !MovesTheSlot(job, w, a)
    ensures Harmless(job, w.view.row.value, until, WorkerAt(Step(job, w, a), a.id))
  {
    assert a.id in w.workers ==> Harmless(job, w.view.row.value, until, w.workers[a.id]);
    match (a, WorkerAt(w, a.id)) {
      case (Load(id, now), Free) => LateLoadIsHarmless(job, w.view.row.value, until, now);
      case (Reload(id), Reloading(now)) =>
        if now >= w.view.row.value.planned { LateLoadIsHarmless(job, w.view.row.value, until, now); }
      case _ =>
    }
  }

  lemma OthersStay(job: Job, w: World, a: Action, id: nat)
    requires id != a.id
    ensures WorkerAt(Step(job, w, a), id) == WorkerAt(w, id)
  {
  }

  lemma BehindStep(job: Job, w: World, until: int, a: Action)
    requires Inv(job, w) && Behind(job, w, until) && !MovesTheSlot(job, w, a)
    requires a.Load? ==> Late(w.view.row.value, until, a.now)
    ensures Untouched(w, Step(job, w, a)) && Behind(job, Step(job, w, a), until) && Inv(job, Step(job, w, a))
  {
    BehindRow(job, w, until, a);
    BehindWorker(job, w, until, a);
    StepKeepsInv(job, w, a);
    var u := Step(job, w, a);
    forall id | id in u.workers ensures Harmless(job, w.view.row.value, until, u.workers[id]) {
      if id != a.id { OthersStay(job, w, a, id); }
    }
  }

  /** Polling does not help a job that fell a whole interval behind: however many workers keep polling
      with a clock that does not go back, its row stays as it is and it is not claimed, as long as no
      exhaustion or reset that was pending before stores another slot, and only as long. */
  lemma {:induction false} MissedSlotStarvesTheJob(job: Job, w: World, until: int, actions: seq<Action>)
    requires Inv(job, w) && Behind(job, w, until)
    requires forall i :: 0 <= i < |actions| && actions[i].Load? ==> Late(w.view.row.value, until, actions[i].now)
    ensures Starved(job, w, actions) <==> NoneMovesTheSlot(job, w, actions)
    decreases |actions|
  {
    if actions == [] {
      assert actions[..0] == [];
    } else {
      var u, rest := Step(job, w, actions[0]), actions[1..];
      BehindRow(job, w, until, actions[0]);
      PrefixRun(job, w, actions, 1);
      assert rest[..0] == [];
      if !MovesTheSlot(job, w, actions[0]) {
        BehindStep(job, w, until, actions[0]);
        assert forall i :: 0 <= i < |rest| ==> rest[i] == actions[i + 1];
        MissedSlotStarvesTheJob(job, u, until, rest);
        StarvedFromNextOn(job, w, actions);
      } else {
        assert !Untouched(w, Run(job, w, actions[..1]));
      }
    }
  }

  lemma StarvedFromNextOn(job: Job, w: World, actions: seq<Action>)
    requires actions != [] && Untouched(w, Step(job, w, actions[0]))
    ensures Starved(job, w, actions) <==> Starved(job, Step(job, w, actions[0]), actions[1..])
  {
    var u, rest := Step(job, w, actions[0]), actions[1..];
    if Starved(job, u, rest) {
      forall k | 0 <= k <= |actions| ensures Untouched(w, Run(job, w, actions[..k])) {
        if k > 0 {
          PrefixRun(job, w, actions, k);
          assert Untouched(u, Run(job, u, rest[..k - 1]));
        }
      }
    }
    if Starved(job, w, actions) {
      forall k | 0 <= k <= |rest| ensures Untouched(u, Run(job, u, rest[..k])) {
        PrefixRun(job, w, actions, k + 1);
        assert Untouched(w, Run(job, w, actions[..k + 1]));
      }
    }
  }

  /** So a job that is behind starves under one scheduler thread, or if updates are prompt. */
  lemma {:induction false} UndisturbedJobStarves(job: Job, w: World, until: int, actions: seq<Action>)
    requires Inv(job, w) && Behind(job, w, until) && UndisturbedRun(job, w, actions)
    requires forall i :: 0 <= i < |actions| && actions[i].Load? ==> Late(w.view.row.value, until, actions[i].now)
    ensures NoneMovesTheSlot(job, w, actions) && Starved(job, w, actions)
    decreases |actions|
  {
    MissedSlotStarvesTheJob(job, w, until, actions);
    if actions != [] {
      assert actions[0].id in w.workers ==> WorkerInv(job, w, w.workers[actions[0].id]);
      BehindStep(job, w, until, actions[0]);
      assert forall i :: 0 <= i < |actions[1..]| ==> actions[1..][i] == actions[i + 1];
      UndisturbedJobStarves(job, Step(job, w, actions[0]), until, actions[1..]);
    }
  }

  /** Two workers find a row of an older version, the second one later; the first resets it. */
  function ResetByTheFirst(early: I64, late: I64): seq<Action> {
    [Load(1, early), Load(2, late), Reset(1), Crash(1)]
  }

  /** The second resets it as well, and a third worker polls at the slot that is then stored. */
  function ResetByTheSecond(slot: I64): seq<Action> {
    [Reset(2), Crash(2), Load(3, slot), TryClaim(3)]
  }

  /** An interval job whose row belongs to another version, and two clock readings two intervals apart. */
  ghost predicate Overtaken(job: Job, w: World, early: I64, late: I64) {
    && Initial(job, w) && w.workers == map[] && w.view.row.Some? && w.view.row.value.version != job.version
    && job.schedule.EveryNs? && early + 2 * job.schedule.interval <= late
    && IsI64(late - early) && IsI64(late + job.schedule.interval + ATTEMPT_LEASE_NS)
  }

  lemma FirstResets(job: Job, w: World, early: I64, late: I64)
    requires Overtaken(job, w, early, late)
    ensures var u := Run(job, w, ResetByTheFirst(early, late));
            var interval := job.schedule.interval;
            && u == World(w.view.(row := Some(FreshRow(job, early + interval))),
                          map[1 := Free, 2 := Resetting(late + interval, late)], w.log, w.last, w.epoch)
  {
    var interval := job.schedule.interval;
    var w1 := Step(job, w, Load(1, early));
    assert WorkerAt(w1, 1) == Resetting(early + interval, early);
    var w2 := Step(job, w1, Load(2, late));
    assert WorkerAt(w2, 2) == Resetting(late + interval, late);
    var w3 := Step(job, w2, Reset(1));
    FourSteps(job, w, Load(1, early), Load(2, late), Reset(1), Crash(1));
  }

  /** The job behind can be claimed again after all: a reset that was decided before the job fell behind
      and is carried out late stores a new slot, in order and with clocks that do not go back. */
  lemma LateResetEndsStarvation(job: Job, w: World, early: I64, late: I64)
    requires Overtaken(job, w, early, late)
    ensures var u := Run(job, w, ResetByTheFirst(early, late));
            var slot := late + job.schedule.interval;
            && OrderedRun(job, w, ResetByTheFirst(early, late)) && Inv(job, u) && Behind(job, u, late)
            && OrderedRun(job, u, ResetByTheSecond(slot)) && Late(u.view.row.value, late, slot)
            && MovesTheSlot(job, u, Reset(2)) && ClaimsAnew(u, Run(job, u, ResetByTheSecond(slot)), slot)
  {
    FirstResets(job, w, early, late);
    var u := Run(job, w, ResetByTheFirst(early, late));
    InitialHasInv(job, w);
    FirstResetIsOrdered(job, w, early, late);
    RunKeepsInv(job, w, ResetByTheFirst(early, late));
    SecondResetClaims(job, u, late);
  }

  /** The row changed and the slot was claimed. */
  predicate ClaimsAnew(u: World, v: World, slot: int) {
    v.view.row != u.view.row && u.view.nextSeq !in u.log && u.view.nextSeq in v.log
    && v.log[u.view.nextSeq].planned == slot
  }

  lemma FirstResetIsOrdered(job: Job, w: World, early: I64, late: I64)
    requires Overtaken(job, w, early, late)
    ensures OrderedRun(job, w, ResetByTheFirst(early, late))
  {
    OrderedFourSteps(job, w, Load(1, early), Load(2, late), Reset(1), Crash(1));
  }

  lemma OrderedFourSteps(job: Job, w: World, a: Action, b: Action, c: Action, d: Action)
    ensures var x := Step(job, w, a);
            var y := Step(job, x, b);
            OrderedRun(job, w, [a, b, c, d]) <==>
            Ordered(job, w, a) && Ordered(job, x, b) && Ordered(job, y, c) && Ordered(job, Step(job, y, c), d)
  {
    var all := [a, b, c, d];
    assert all[1..] == [b, c, d] && [b, c, d][1..] == [c, d] && [c, d][1..] == [d] && [d][1..] == [];
    Unroll(job, w, all);
    Unroll(job, Step(job, w, a), [b, c, d]);
    Unroll(job, Step(job, Step(job, w, a), b), [c, d]);
  }

  lemma SecondResetClaims(job: Job, u: World, late: I64)
    requires job.schedule.EveryNs? && IsI64(late + job.schedule.interval + ATTEMPT_LEASE_NS)
    requires u.view.row.Some? && u.last.None? && u.log == map[] && WorkerAt(u, 3).Free?
    requires IsI64(late + job.schedule.interval)
    requires u.view.row.value.planned + job.schedule.interval <= late
    requires WorkerAt(u, 2) == Resetting(late + job.schedule.interval, late)
    ensures var slot := late + job.schedule.interval;
            && OrderedRun(job, u, ResetByTheSecond(slot)) && ClaimsAnew(u, Run(job, u, ResetByTheSecond(slot)), slot)
  {
    var slot := late + job.schedule.interval;
    var v1 := Step(job, u, Reset(2));
    assert v1.view.row == Some(FreshRow(job, slot));
    var v2 := Step(job, v1, Crash(2));
    var v3 := Step(job, v2, Load(3, slot));
    assert WorkerAt(v3, 3) == Ready(FreshRow(job, slot), 1, KeyFor(job, slot), slot);
    FourSteps(job, u, Reset(2), Crash(2), Load(3, slot), TryClaim(3));
    OrderedFourSteps(job, u, Reset(2), Crash(2), Load(3, slot), TryClaim(3));
  }

  /** A concrete start: version 2 of a one-second job whose row belongs to version 1. */
  lemma LateResetIsReached()
    ensures var job := Job("j", 2, EveryNs(1_000_000_000));
            var start := World(View(Some(Row(1, 3, 0, Idle, 0, 0, "")), map[], 0), map[], map[], None, 0);
            var u := Run(job, start, ResetByTheFirst(0, 10_000_000_000));
            && Initial(job, start) && Inv(job, u) && Behind(job, u, 10_000_000_000)
            && ClaimsAnew(u, Run(job, u, ResetByTheSecond(11_000_000_000)), 11_000_000_000)
  {
    var job := Job("j", 2, EveryNs(1_000_000_000));
    var start := World(View(Some(Row(1, 3, 0, Idle, 0, 0, "")), map[], 0), map[], map[], None, 0);
    LateResetEndsStarvation(job, start, 0, 10_000_000_000);
  }

  // ---------------------------------------------------------------- comparing with the loaded slot

  /** The claim with its WHERE clause comparing the slot that was loaded, not the coalesced one. */
  function LoadedSlotClaim(job: Job, w: World, id: nat, loaded: Row, snapshot: Row, attempt: int, key: string,
                           now: I64): World
  {
    if !IsI64(now + ATTEMPT_LEASE_NS) || w.view.row.None? || !Unclaimed(job, w.view.row.value, loaded)
    then With(w, id, Free)
    else
      var row := w.view.row.value.(planned := snapshot.planned);
      ClaimStep(job, w.(view := w.view.(row := Some(row))), id, snapshot, attempt, key, now)
  }

  /** What a worker is about to claim differs from the row it loaded only by a later slot. */
  predicate Advances(loaded: Row, snapshot: Row) {
    && loaded.status == snapshot.status && loaded.attempt == snapshot.attempt
    && loaded.planned <= snapshot.planned && (!snapshot.status.Idle? ==> loaded.planned == snapshot.planned)
  }

  /** In any world, whatever happened since the row was loaded, that claim keeps the invariant. */
  lemma LoadedSlotClaimKeepsInv(job: Job, w: World, id: nat, loaded: Row, snapshot: Row, attempt: int, key: string,
                                now: I64)
    requires Inv(job, w) && WorkerInv(job, w, Ready(snapshot, attempt, key, now)) && Advances(loaded, snapshot)
    ensures Inv(job, LoadedSlotClaim(job, w, id, loaded, snapshot, attempt, key, now))
  {
    if !IsI64(now + ATTEMPT_LEASE_NS) || w.view.row.None? || !Unclaimed(job, w.view.row.value, loaded) {
      ReleaseKeepsInv(job, w, id, Free);
    } else {
      var moved := w.(view := w.view.(row := Some(w.view.row.value.(planned := snapshot.planned))));
      LaterSlotKeepsInv(job, w, snapshot.planned);
      WorkerInvMonotone(job, w, moved, Ready(snapshot, attempt, key, now));
      ClaimKeepsInv(job, moved, id, snapshot, attempt, key, now);
    }
  }

  /** The row that the action reads, if any, noted for the worker that reads it. */
  function Noted(w: World, loaded: map<nat, Row>, a: Action): map<nat, Row> {
    if w.view.row.None? then loaded
    else if a.Load? && WorkerAt(w, a.id).Free? then loaded[a.id := w.view.row.value]
    else if a.Reload? && WorkerAt(w, a.id).Reloading? then loaded[a.id := w.view.row.value]
    else loaded
  }

  /** The protocol with that claim; `loaded` holds the row each worker read. */
  function VariantStep(job: Job, w: World, loaded: map<nat, Row>, a: Action): (World, map<nat, Row>) {
    if a.TryClaim? && WorkerAt(w, a.id).Ready? && a.id in loaded then
      var Ready(snapshot, attempt, key, now) := WorkerAt(w, a.id);
      (LoadedSlotClaim(job, w, a.id, loaded[a.id], snapshot, attempt, key, now), loaded)
    else (Step(job, w, a), Noted(w, loaded, a))
  }

  /** Readings of the clock lie within 64 bits of the stored slot, so the difference does not wrap. */
  predicate InRange(w: World, a: Action) {
    && (a.Load? && w.view.row.Some? ==> IsI64(a.now - w.view.row.value.planned))
    && (a.Reload? && WorkerAt(w, a.id).Reloading? && w.view.row.Some? ==>
          IsI64(WorkerAt(w, a.id).now - w.view.row.value.planned))
  }

  /** The schedule's interval is one that the scheduler can use. */
  predicate Usable(job: Job) {
    job.schedule.EveryNs? ==> IsI64(job.schedule.interval)
  }

  predicate VariantRunOrdered(job: Job, w: World, loaded: map<nat, Row>, actions: seq<Action>)
    decreases |actions|
  {
    actions == [] ||
    (var (u, more) := VariantStep(job, w, loaded, actions[0]);
     Ordered(job, w, actions[0]) && InRange(w, actions[0]) && VariantRunOrdered(job, u, more, actions[1..]))
  }

  function VariantRun(job: Job, w: World, loaded: map<nat, Row>, actions: seq<Action>): World
    decreases |actions|
  {
    if actions == [] then w
    else
      var (u, more) := VariantStep(job, w, loaded, actions[0]);
      VariantRun(job, u, more, actions[1..])
  }

  ghost predicate AllAdvance(w: World, loaded: map<nat, Row>) {
    forall id :: WorkerAt(w, id).Ready? ==> id in loaded && Advances(loaded[id], WorkerAt(w, id).snapshot)
  }

  ghost predicate VariantInv(job: Job, w: World, loaded: map<nat, Row>) {
    Inv(job, w) && AllAdvance(w, loaded)
  }

  lemma NextAdvances(job: Job, row: Row, now: I64)
    requires Usable(job) && IsI64(now - row.planned) && Next(job, row, now).Ready?
    ensures Advances(row, Next(job, row, now).snapshot)
  {
    if row.status.Idle? && job.schedule.EveryNs? && row.planned <= now {
      LatestSlotIsNotEarlier(job, row.planned, now);
    }
  }

  /** Apart from loading, no step makes a worker ready. */
  lemma ReadyByLoading(job: Job, w: World, a: Action)
    requires WorkerAt(Step(job, w, a), a.id).Ready? && WorkerAt(Step(job, w, a), a.id) != WorkerAt(w, a.id)
    ensures w.view.row.Some?
    ensures (a.Load? && WorkerAt(w, a.id).Free?) || (a.Reload? && WorkerAt(w, a.id).Reloading?)
    ensures var now := if a.Load? then a.now else WorkerAt(w, a.id).now;
            WorkerAt(Step(job, w, a), a.id) == Next(job, w.view.row.value, now)
  {
  }

  lemma StepAdvances(job: Job, w: World, loaded: map<nat, Row>, a: Action)
    requires AllAdvance(w, loaded) && Usable(job) && InRange(w, a) && !(a.TryClaim? && WorkerAt(w, a.id).Ready?)
    ensures var (u, more) := VariantStep(job, w, loaded, a); AllAdvance(u, more)
  {
    var (u, more) := VariantStep(job, w, loaded, a);
    forall id | WorkerAt(u, id).Ready? ensures id in more && Advances(more[id], WorkerAt(u, id).snapshot) {
      if id != a.id {
        OthersStay(job, w, a, id);
      } else if WorkerAt(u, id) != WorkerAt(w, id) {
        ReadyByLoading(job, w, a);
        NextAdvances(job, w.view.row.value, if a.Load? then a.now else WorkerAt(w, a.id).now);
      } else {
        assert WorkerAt(w, id).Ready?;
      }
    }
  }

  lemma ClaimAdvances(job: Job, w: World, loaded: map<nat, Row>, id: nat)
    requires AllAdvance(w, loaded) && WorkerAt(w, id).Ready?
    ensures var (u, more) := VariantStep(job, w, loaded, TryClaim(id)); AllAdvance(u, more)
  {
    var (u, more) := VariantStep(job, w, loaded, TryClaim(id));
    forall i | WorkerAt(u, i).Ready? ensures i in more && Advances(more[i], WorkerAt(u, i).snapshot) {
      assert WorkerAt(u, i) == WorkerAt(w, i);
    }
  }

  lemma VariantStepKeepsInv(job: Job, w: World, loaded: map<nat, Row>, a: Action)
    requires VariantInv(job, w, loaded) && Usable(job) && Ordered(job, w, a) && InRange(w, a)
    ensures var (u, more) := VariantStep(job, w, loaded, a); VariantInv(job, u, more)
  {
    if a.TryClaim? && WorkerAt(w, a.id).Ready? {
      var Ready(snapshot, attempt, key, now) := WorkerAt(w, a.id);
      assert WorkerInv(job, w, w.workers[a.id]);
      LoadedSlotClaimKeepsInv(job, w, a.id, loaded[a.id], snapshot, attempt, key, now);
      ClaimAdvances(job, w, loaded, a.id);
    } else {
      StepKeepsInv(job, w, a);
      StepAdvances(job, w, loaded, a);
    }
  }

  /** With that comparison every interleaving of any number of workers still keeps the invariant, so
      every claim theorem that follows from it still holds. */
  lemma {:induction false} VariantRunKeepsInv(job: Job, w: World, loaded: map<nat, Row>, actions: seq<Action>)
    requires VariantInv(job, w, loaded) && Usable(job) && VariantRunOrdered(job, w, loaded, actions)
    ensures Inv(job, VariantRun(job, w, loaded, actions))
    decreases |actions|
  {
    if actions != [] {
      VariantStepKeepsInv(job, w, loaded, actions[0]);
      var (u, more) := VariantStep(job, w, loaded, actions[0]);
      VariantRunKeepsInv(job, u, more, actions[1..]);
    }
  }

  /** And with it a waiting job is claimed as soon as its slot is due, at the latest due slot. */
  lemma LoadedSlotVariantClaimsEveryDueJob(job: Job, w: World, id: nat, now: I64)
    requires Inv(job, w) && Waiting(job, w) && WorkerAt(w, id).Free?
    requires IsI64(now - w.view.row.value.planned) && IsI64(now + ATTEMPT_LEASE_NS)
    ensures var row := w.view.row.value;
            Next(job, row, now).Ready? <==> row.planned <= now
    ensures var row := w.view.row.value;
            row.planned <= now ==>
              var Ready(snapshot, attempt, key, _) := Next(job, row, now);
              var u := LoadedSlotClaim(job, w, id, row, snapshot, attempt, key, now);
              && Inv(job, u) && u.last == Some(w.view.nextSeq) && u.last.value in u.log
              && (forall s :: s in w.log ==> Precedes(w.log[s], u.log[u.last.value]))
              && u.log[u.last.value].planned <= now < u.log[u.last.value].planned + job.schedule.interval
  {
    var row := w.view.row.value;
    if row.planned < now {
      CoalescedIsLatestDueSlot(job.schedule.interval, row.planned, now);
    }
    if row.planned <= now {
      var Ready(snapshot, attempt, key, _) := Next(job, row, now);
      NextAdvances(job, row, now);
      NextIsSound(job, w, row, now);
      LoadedSlotClaimKeepsInv(job, w, id, row, snapshot, attempt, key, now);
      LoadedSlotClaimCommits(job, w, id, row, snapshot, attempt, key, now);
      var u := LoadedSlotClaim(job, w, id, row, snapshot, attempt, key, now);
      NewestFollows(job, w, u, w.view.nextSeq);
    }
  }

  lemma LoadedSlotClaimCommits(job: Job, w: World, id: nat, row: Row, snapshot: Row, attempt: int, key: string,
                               now: I64)
    requires IsI64(now + ATTEMPT_LEASE_NS) && Current(job, w) && w.view.row.value == row && Advances(row, snapshot)
    ensures var u := LoadedSlotClaim(job, w, id, row, snapshot, attempt, key, now);
            && u.last == Some(w.view.nextSeq)
            && u.log == w.log[w.view.nextSeq := Claim(snapshot.planned, attempt, key, now + ATTEMPT_LEASE_NS)]
  {
  }

  lemma NewestFollows(job: Job, w: World, u: World, newest: nat)
    requires LogInv(job, w) && LogInv(job, u) && newest == w.view.nextSeq && newest in u.log
             && u.log - {newest} == w.log - {newest}
    ensures forall s :: s in w.log ==> Precedes(w.log[s], u.log[newest])
  {
    forall s | s in w.log ensures Precedes(w.log[s], u.log[newest]) {
      assert s in w.log - {newest};
      assert s in u.log && u.log[s] == w.log[s];
    }
  }

  /** Moving a waiting row to a later slot disturbs nothing. */
  lemma LaterSlotKeepsInv(job: Job, w: World, slot: I64)
    requires Inv(job, w) && Current(job, w) && InitialSlot(job, slot)
    requires w.view.row.value.planned == slot || (w.view.row.value.status.Idle? && w.view.row.value.planned <= slot)
    ensures Inv(job, w.(view := w.view.(row := Some(w.view.row.value.(planned := slot)))))
  {
    var moved := w.(view := w.view.(row := Some(w.view.row.value.(planned := slot))));
    forall i | i in w.workers ensures WorkerInv(job, moved, w.workers[i]) {
      WorkerInvMonotone(job, w, moved, w.workers[i]);
    }
  }

  lemma LatestSlotIsNotEarlier(job: Job, planned: I64, now: I64)
    requires job.schedule.EveryNs? && IsI64(job.schedule.interval) && IsI64(now - planned) && planned <= now
    ensures CoalescedPlanned(job.schedule, planned, now).Ok?
    ensures planned <= CoalescedPlanned(job.schedule, planned, now).value
  {
    if planned < now {
      CoalescedIsLatestDueSlot(job.schedule.interval, planned, now);
      assert Grid(planned, 0, job.schedule.interval) == planned;
    }
  }

  // ---------------------------------------------------------------- exhaustion by two workers

  /** Workers 1 and 2 both find the fifth attempt's lease over; 1 exhausts the row and loads the next slot. */
  function ExhaustWhilePaused(late: I64, next: I64): seq<Action> {
    [Load(1, late), Load(2, late), Exhaust(1), Load(1, next)]
  }

  /** 1 claims that slot and starts executing it; then 2 exhausts as well and 3 polls. */
  function ResumeExhausting(next: I64): seq<Action> {
    [TryClaim(1), Exhaust(2), Load(3, next), TryClaim(3)]
  }

  /** The fifth attempt runs, its slot and lease are in range and three workers are free. */
  ghost predicate FifthAttempt(job: Job, w: World) {
    && Current(job, w) && w.view.row.value.status.Running? && w.view.row.value.attempt == MAX_ATTEMPTS
    && IsI64(w.view.row.value.leaseUntil) && job.schedule.EveryNs? && IsI64(job.schedule.interval)
    && IsI64(w.view.row.value.planned + job.schedule.interval + ATTEMPT_LEASE_NS)
    && WorkerAt(w, 1).Free? && WorkerAt(w, 2).Free? && WorkerAt(w, 3).Free?
  }

  /** A one-time job's fifth attempt is executing in worker 2, and worker 1 is free. */
  ghost predicate Finishing(job: Job, w: World) {
    && Current(job, w) && job.schedule.AtUnixNs? && w.view.row.value.status.Running?
    && w.view.row.value.attempt == MAX_ATTEMPTS && IsI64(w.view.row.value.leaseUntil) && WorkerAt(w, 1).Free?
    && WorkerAt(w, 2) == Executing(w.view.row.value.planned, MAX_ATTEMPTS, w.view.row.value.key)
    && |OpenEntries(w.view.history, w.view.row.value.planned, MAX_ATTEMPTS, w.view.row.value.key)| == 1
  }

  predicate ClaimedTwice(w: World, s: nat, t: nat, planned: int, attempt: int) {
    && s != t && s in w.log && t in w.log
    && w.log[s].planned == w.log[t].planned == planned
    && w.log[s].attempt == w.log[t].attempt == attempt
  }

  /** Two workers claimed one slot's first attempt, and both are executing it. */
  predicate BothExecute(w: World, a: nat, b: nat, s: nat, planned: int) {
    ClaimedTwice(w, s, s + 1, planned, 1) && WorkerAt(w, a).Executing? && WorkerAt(w, a) == WorkerAt(w, b)
  }

  lemma InTwoRuns(job: Job, w: World, x: seq<Action>, y: seq<Action>, a: nat, b: nat, s: nat, planned: int)
    requires BothExecute(Run(job, Run(job, w, x), y), a, b, s, planned)
    ensures BothExecute(Run(job, w, x + y), a, b, s, planned)
  {
    RunConcat(job, w, x, y);
  }

  /** Ordered updates are not only enough but needed: after any other exhaustion or reset, a worker
      that polls at the stored slot claims a pair that is not later than the newest claim. */
  lemma DisorderBreaksTheOrder(job: Job, w: World, a: Action, id: nat)
    requires Inv(job, w) && !Ordered(job, w, a) && WorkerAt(Step(job, w, a), id).Free? && Usable(job)
    requires IsI64(Step(job, w, a).view.row.value.planned + ATTEMPT_LEASE_NS)
    ensures var slot := Step(job, w, a).view.row.value.planned;
            var u := Run(job, Step(job, w, a), [Load(id, slot), TryClaim(id)]);
            && w.last.Some? && w.last.value in w.log && w.last.value in u.log && w.view.nextSeq in u.log
            && u.log[w.last.value] == w.log[w.last.value] && w.last.value < w.view.nextSeq
            && !Precedes(u.log[w.last.value], u.log[w.view.nextSeq])
  {
    var d := Step(job, w, a);
    assert WorkerInv(job, w, w.workers[a.id]);
    DisorderedRow(job, w, a);
    var row := d.view.row.value;
    PollAtSlot(job, d, id);
    assert ClaimInv(job, w.log[w.last.value]);
  }

  /** What an unordered update leaves: a waiting row whose slot is not later than the newest claim. */
  lemma DisorderedRow(job: Job, w: World, a: Action)
    requires Inv(job, w) && !Ordered(job, w, a)
    ensures var d := Step(job, w, a);
            && Current(job, d) && d.view.row.value.status.Idle? && d.view.row.value.attempt == 0
            && d.log == w.log && d.last == w.last && d.view.nextSeq == w.view.nextSeq
            && w.last.Some? && w.last.value in w.log && d.view.row.value.planned <= w.log[w.last.value].planned
            && (job.schedule.AtUnixNs? ==> d.view.row.value.planned == job.schedule.timestamp)
  {
    assert a.id in w.workers && WorkerInv(job, w, w.workers[a.id]);
    assert w.last.Some? ==> ClaimInv(job, w.log[w.last.value]);
  }

  /** Polling at a waiting row's own slot claims that slot, first attempt. */
  lemma PollAtSlot(job: Job, d: World, id: nat)
    requires Current(job, d) && d.view.row.value.status.Idle? && d.view.row.value.attempt == 0 && WorkerAt(d, id).Free?
    requires IsI64(d.view.row.value.planned + ATTEMPT_LEASE_NS)
    ensures var slot := d.view.row.value.planned;
            Run(job, d, [Load(id, slot), TryClaim(id)]).log ==
              d.log[d.view.nextSeq := Claim(slot, 1, KeyFor(job, slot), slot + ATTEMPT_LEASE_NS)]
  {
    var slot := d.view.row.value.planned;
    assert WorkerAt(Step(job, d, Load(id, slot)), id) == Ready(d.view.row.value, 1, KeyFor(job, slot), slot);
    TwoSteps(job, d, Load(id, slot), TryClaim(id));
  }

  /** Two workers find a row of an older definition version; one resets it and is ready to claim. */
  function ResetWhilePaused(now: I64): seq<Action> {
    [Load(1, now), Load(2, now), Reset(1), Reload(1)]
  }

  /** It claims and starts executing; the other resets as well and claims. */
  function ResumeResetting(): seq<Action> {
    [TryClaim(1), Reset(2), Reload(2), TryClaim(2)]
  }

  /** A one-time job is due and its row belongs to another definition version. */
  ghost predicate Renewed(job: Job, w: World, now: I64) {
    && job.schedule.AtUnixNs? && job.schedule.timestamp <= now && IsI64(now + ATTEMPT_LEASE_NS)
    && w.view.row.Some? && w.view.row.value.version != job.version
    && WorkerAt(w, 1).Free? && WorkerAt(w, 2).Free?
  }

  lemma FirstReset(job: Job, w: World, now: I64)
    requires Renewed(job, w, now)
    ensures var slot := job.schedule.timestamp;
            var u := Run(job, w, ResetWhilePaused(now));
            && u.view == w.view.(row := Some(FreshRow(job, slot)))
            && WorkerAt(u, 1) == Ready(FreshRow(job, slot), 1, KeyFor(job, slot), now)
            && WorkerAt(u, 2) == Resetting(slot, now)
  {
    var slot := job.schedule.timestamp;
    var w1 := Step(job, w, Load(1, now));
    assert WorkerAt(w1, 1) == Resetting(slot, now);
    var w2 := Step(job, w1, Load(2, now));
    assert WorkerAt(w2, 2) == Resetting(slot, now);
    var w3 := Step(job, w2, Reset(1));
    FourSteps(job, w, Load(1, now), Load(2, now), Reset(1), Reload(1));
  }

  lemma SecondReset(job: Job, u: World, now: I64)
    requires job.schedule.AtUnixNs? && job.schedule.timestamp <= now && IsI64(now + ATTEMPT_LEASE_NS)
    requires u.view.row == Some(FreshRow(job, job.schedule.timestamp))
    requires WorkerAt(u, 1) == Ready(u.view.row.value, 1, KeyFor(job, job.schedule.timestamp), now)
    requires WorkerAt(u, 2) == Resetting(job.schedule.timestamp, now)
    ensures BothExecute(Run(job, u, ResumeResetting()), 1, 2, u.view.nextSeq, job.schedule.timestamp)
  {
    var slot := job.schedule.timestamp;
    var v2 := Step(job, Step(job, u, TryClaim(1)), Reset(2));
    ClaimThenReset(job, u, now);
    var v3 := Step(job, v2, Reload(2));
    assert WorkerAt(v3, 2) == Ready(u.view.row.value, 1, KeyFor(job, slot), now);
    FourSteps(job, u, TryClaim(1), Reset(2), Reload(2), TryClaim(2));
  }

  lemma ClaimThenReset(job: Job, u: World, now: I64)
    requires job.schedule.AtUnixNs? && job.schedule.timestamp <= now && IsI64(now + ATTEMPT_LEASE_NS)
    requires u.view.row == Some(FreshRow(job, job.schedule.timestamp))
    requires WorkerAt(u, 1) == Ready(u.view.row.value, 1, KeyFor(job, job.schedule.timestamp), now)
    requires WorkerAt(u, 2) == Resetting(job.schedule.timestamp, now)
    ensures var slot := job.schedule.timestamp;
            var v := Step(job, Step(job, u, TryClaim(1)), Reset(2));
            && v.view.row == u.view.row && v.view.nextSeq == u.view.nextSeq + 1
            && v.log == u.log[u.view.nextSeq := Claim(slot, 1, KeyFor(job, slot), now + ATTEMPT_LEASE_NS)]
            && WorkerAt(v, 1) == Executing(slot, 1, KeyFor(job, slot)) && WorkerAt(v, 2) == Reloading(now)
  {
    var v1 := Step(job, u, TryClaim(1));
    assert v1.view.nextSeq == u.view.nextSeq + 1;
  }

  /** The reset compares nothing either: from every world in which a one-time job's row belongs to
      another version, two workers can claim its slot twice, without any exhaustion. */
  lemma RacingResetsRepeatAClaim(job: Job, w: World, now: I64)
    requires Renewed(job, w, now)
    ensures BothExecute(Run(job, w, ResetWhilePaused(now) + ResumeResetting()), 1, 2, w.view.nextSeq,
                        job.schedule.timestamp)
  {
    FirstReset(job, w, now);
    var u := Run(job, w, ResetWhilePaused(now));
    SecondReset(job, u, now);
    InTwoRuns(job, w, ResetWhilePaused(now), ResumeResetting(), 1, 2, w.view.nextSeq, job.schedule.timestamp);
  }

  /** A concrete start: version 2 of a one-time job whose version 1 is complete. */
  lemma RacingResetsAreReached()
    ensures var start := World(View(Some(Row(1, 3, 0, Complete, 0, 0, "")), map[], 0), map[], map[], None, 0);
            && Initial(AlteredJob(), start) && Renewed(AlteredJob(), start, 7)
            && ClaimedTwice(Run(AlteredJob(), start, ResetWhilePaused(7) + ResumeResetting()), 0, 1, 5, 1)
  {
    var start := World(View(Some(Row(1, 3, 0, Complete, 0, 0, "")), map[], 0), map[], map[], None, 0);
    RacingResetsRepeatAClaim(AlteredJob(), start, 7);
  }

  /** A one-time job's exhaustions are all ordered, yet one that was decided before the fifth attempt
      succeeded turns the completed job into a failed one. */
  lemma PausedExhaustionFailsACompletedJob(job: Job, w: World, finished: int)
    requires Finishing(job, w)
    ensures var row := w.view.row.value;
            var run := [Load(1, row.leaseUntil), Finish(2, Success, finished)];
            var done := Run(job, w, run);
            var u := Step(job, done, Exhaust(1));
            && OrderedRun(job, w, run) && WorkerAt(done, 1).Exhausting?
            && done.view.row.Some? && done.view.row.value.status.Complete?
            && u.view.row.Some? && u.view.row.value.status.Failed?
            && u.view.history == done.view.history && Ordered(job, done, Exhaust(1))
            && exists s :: s in u.view.history && u.view.history[s].outcome.Succeeded?
  {
    var row := w.view.row.value;
    var open := OpenEntries(w.view.history, row.planned, MAX_ATTEMPTS, row.key);
    var run := [Load(1, row.leaseUntil), Finish(2, Success, finished)];
    assert run[1..] == [run[1]] && [run[1]][1..] == [];
    Unroll(job, w, run);
    Unroll(job, Step(job, w, run[0]), [run[1]]);
    var w1 := Step(job, w, run[0]);
    assert WorkerAt(w1, 1) == Exhausting(row);
    var s :| s in open;
    var done := Step(job, w1, run[1]);
    assert done.view.history[s].outcome.Succeeded?;
  }

  /** The claim theorems need exhaustion to store a later slot. From every world whose
      fifth attempt runs, two workers that separate loading from exhausting can claim one
      (slot, attempt) pair twice, the second time while the first is still executing. */
  lemma PausedExhaustionRepeatsAClaim(job: Job, w: World)
    requires FifthAttempt(job, w)
    ensures var row := w.view.row.value;
            var next := row.planned + job.schedule.interval;
            BothExecute(Run(job, w, ExhaustWhilePaused(row.leaseUntil, next) + ResumeExhausting(next)), 1, 3,
                        w.view.nextSeq, next)
  {
    var row := w.view.row.value;
    var next := row.planned + job.schedule.interval;
    FirstExhaustion(job, w);
    SecondExhaustion(job, Run(job, w, ExhaustWhilePaused(row.leaseUntil, next)), row, next);
    InTwoRuns(job, w, ExhaustWhilePaused(row.leaseUntil, next), ResumeExhausting(next), 1, 3, w.view.nextSeq, next);
  }

  /** What exhaustion leaves in the row. */
  function Spent(row: Row, next: I64): Row {
    row.(planned := next, attempt := 0, status := Idle, retryAfter := 0, leaseUntil := 0, key := "")
  }

  lemma FirstExhaustion(job: Job, w: World)
    requires FifthAttempt(job, w)
    ensures var row := w.view.row.value;
            var next := row.planned + job.schedule.interval;
            var u := Run(job, w, ExhaustWhilePaused(row.leaseUntil, next));
            && u.view == w.view.(row := Some(Spent(row, next)))
            && WorkerAt(u, 1) == Ready(Spent(row, next), 1, KeyFor(job, next), next)
            && WorkerAt(u, 2) == Exhausting(row) && WorkerAt(u, 3).Free?
  {
    var row := w.view.row.value;
    var next := row.planned + job.schedule.interval;
    var w1 := Step(job, w, Load(1, row.leaseUntil));
    assert WorkerAt(w1, 1) == Exhausting(row);
    var w2 := Step(job, w1, Load(2, row.leaseUntil));
    assert WorkerAt(w2, 2) == Exhausting(row);
    var w3 := Step(job, w2, Exhaust(1));
    FourSteps(job, w, Load(1, row.leaseUntil), Load(2, row.leaseUntil), Exhaust(1), Load(1, next));
  }

  /** Worker 1 is ready to claim the slot that exhaustion stored, and worker 2 is still to exhaust. */
  ghost predicate PausedExhausting(job: Job, u: World, seen: Row, next: I64) {
    && job.schedule.EveryNs? && IsI64(job.schedule.interval) && seen.planned + job.schedule.interval == next
    && IsI64(next + ATTEMPT_LEASE_NS) && Current(job, u) && u.view.row.value == Spent(seen, next)
    && WorkerAt(u, 1) == Ready(u.view.row.value, 1, KeyFor(job, next), next)
    && WorkerAt(u, 2) == Exhausting(seen) && WorkerAt(u, 3).Free?
  }

  lemma SecondExhaustion(job: Job, u: World, seen: Row, next: I64)
    requires PausedExhausting(job, u, seen, next)
    ensures BothExecute(Run(job, u, ResumeExhausting(next)), 1, 3, u.view.nextSeq, next)
  {
    var v2 := Step(job, Step(job, u, TryClaim(1)), Exhaust(2));
    ClaimThenExhaust(job, u, seen, next);
    var v3 := Step(job, v2, Load(3, next));
    assert WorkerAt(v3, 3) == Ready(u.view.row.value, 1, KeyFor(job, next), next);
    FourSteps(job, u, TryClaim(1), Exhaust(2), Load(3, next), TryClaim(3));
  }

  lemma ClaimThenExhaust(job: Job, u: World, seen: Row, next: I64)
    requires PausedExhausting(job, u, seen, next)
    ensures var v := Step(job, Step(job, u, TryClaim(1)), Exhaust(2));
            && v.view.row == u.view.row && v.view.nextSeq == u.view.nextSeq + 1
            && v.log == u.log[u.view.nextSeq := Claim(next, 1, KeyFor(job, next), next + ATTEMPT_LEASE_NS)]
            && WorkerAt(v, 1) == Executing(next, 1, KeyFor(job, next)) && WorkerAt(v, 3).Free?
  {
    var v1 := Step(job, u, TryClaim(1));
    assert v1.view.nextSeq == u.view.nextSeq + 1;
  }

  lemma FourSteps(job: Job, w: World, a: Action, b: Action, c: Action, d: Action)
    ensures Run(job, w, [a, b, c, d]) == Step(job, Step(job, Step(job, Step(job, w, a), b), c), d)
  {
    assert [a, b, c, d] == [a, b] + [c, d];
    RunConcat(job, w, [a, b], [c, d]);
    TwoSteps(job, w, a, b);
    TwoSteps(job, Run(job, w, [a, b]), c, d);
  }

  // ---------------------------------------------------------------- how a fifth attempt comes about

  /** A job that, first seen at `seen`, waits for `slot`; five leases after it are in range. */
  predicate Begins(job: Job, seen: I64, slot: I64) {
    InitialPlanned(job.schedule, seen) == Ok(slot) && IsI64(slot + MAX_ATTEMPTS * ATTEMPT_LEASE_NS)
  }

  /** The row while attempt `k` of the first slot runs, each claimed when the one before lost its lease. */
  function Claimed(job: Job, slot: I64, k: nat): Row {
    Row(job.version, slot, k, Running, 0, slot + k * ATTEMPT_LEASE_NS, KeyFor(job, slot))
  }

  /** The row from which attempt `k` is claimed. */
  function Unstarted(job: Job, slot: I64, k: nat): Row
    requires 1 <= k
  {
    if k == 1 then FreshRow(job, slot) else Claimed(job, slot, k - 1)
  }

  function ClaimTime(slot: I64, k: nat): I64
    requires 1 <= k <= MAX_ATTEMPTS && IsI64(slot + MAX_ATTEMPTS * ATTEMPT_LEASE_NS)
  {
    slot + (k - 1) * ATTEMPT_LEASE_NS
  }

  /** Only worker 1 was ever at work, and it is free. */
  predicate Deserted(w: World) {
    WorkerAt(w, 1).Free? && w.workers.Keys == {1}
  }

  /** A worker loads the job, claims it and crashes. */
  function ClaimAndCrash(now: I64): seq<Action> {
    [Load(1, now), TryClaim(1), Crash(1)]
  }

  lemma ClaimAndCrashSteps(job: Job, w: World, now: I64)
    requires WorkerAt(w, 1).Free? && Current(job, w) && Next(job, w.view.row.value, now).Ready?
    ensures OrderedRun(job, w, ClaimAndCrash(now))
    ensures Run(job, w, ClaimAndCrash(now)) ==
              Step(job, Step(job, With(w, 1, Next(job, w.view.row.value, now)), TryClaim(1)), Crash(1))
  {
    var a := ClaimAndCrash(now);
    var w1 := Step(job, w, a[0]);
    Unroll(job, w, a);
    Unroll(job, w1, a[1..]);
    assert a[1..][1..] == a[2..] && a[2..][1..] == [];
    Unroll(job, Step(job, w1, a[1]), a[2..]);
  }

  /** A worker finds no row, inserts one and crashes. */
  function InsertAndCrash(seen: I64): seq<Action> {
    [Load(1, seen), Insert(1), Reload(1), Crash(1)]
  }

  lemma FirstLoad(job: Job, w: World, seen: I64, slot: I64)
    requires w == World(View(None, map[], 0), map[], map[], None, 0) && Begins(job, seen, slot)
    ensures OrderedRun(job, w, InsertAndCrash(seen))
    ensures var u := Run(job, w, InsertAndCrash(seen));
            u.view.row == Some(FreshRow(job, slot)) && Deserted(u) && u.log == map[] && u.epoch == 0
  {
    InsertedRow(job, w, seen, slot);
    assert forall a :: a in InsertAndCrash(seen) ==> a.id == 1;
    InitialHasInv(job, w);
    OneWorkerIsUndisturbed(job, w, 1, InsertAndCrash(seen));
  }

  lemma InsertedRow(job: Job, w: World, seen: I64, slot: I64)
    requires w.view.row.None? && w.workers == map[] && InitialPlanned(job.schedule, seen) == Ok(slot)
    ensures var u := Run(job, w, InsertAndCrash(seen));
            u.view.row == Some(FreshRow(job, slot)) && Deserted(u) && u.log == w.log && u.epoch == w.epoch
  {
    FourSteps(job, w, Load(1, seen), Insert(1), Reload(1), Crash(1));
    var w1 := Step(job, w, Load(1, seen));
    assert WorkerAt(w1, 1) == Inserting(slot, seen);
    var w2 := Step(job, w1, Insert(1));
    assert WorkerAt(w2, 1) == Reloading(seen);
  }

  lemma NextIsAttempt(job: Job, slot: I64, k: nat)
    requires 1 <= k <= MAX_ATTEMPTS && IsI64(slot + MAX_ATTEMPTS * ATTEMPT_LEASE_NS)
    ensures Next(job, Unstarted(job, slot, k), ClaimTime(slot, k)) ==
              Ready(Unstarted(job, slot, k), k, KeyFor(job, slot), ClaimTime(slot, k))
  {
    KeysAreNonempty(job, slot);
  }

  /** A claim of the row as it stands, by the one worker there is, who then crashes. */
  lemma ClaimedThenCrashed(job: Job, w: World, row: Row, attempt: int, key: string, now: I64)
    requires w.view.row == Some(row) && row.version == job.version && IsI64(now + ATTEMPT_LEASE_NS)
    requires w.workers.Keys == {1} && w.view.nextSeq !in w.log
    ensures var u := Step(job, Step(job, With(w, 1, Ready(row, attempt, key, now)), TryClaim(1)), Crash(1));
            && u.view.row == Some(Row(row.version, row.planned, attempt, Running, 0, now + ATTEMPT_LEASE_NS, key))
            && Deserted(u) && |u.log| == |w.log| + 1 && u.epoch == w.epoch
  {
    var v := With(w, 1, Ready(row, attempt, key, now));
    var u := Step(job, v, TryClaim(1));
    assert u.log == w.log[w.view.nextSeq := Claim(row.planned, attempt, key, now + ATTEMPT_LEASE_NS)];
    assert u.workers.Keys == {1};
  }

  lemma OneMoreAttempt(job: Job, w: World, slot: I64, k: nat)
    requires 1 <= k <= MAX_ATTEMPTS && IsI64(slot + MAX_ATTEMPTS * ATTEMPT_LEASE_NS) && Deserted(w)
    requires w.view.row == Some(Unstarted(job, slot, k)) && w.view.nextSeq !in w.log
    ensures OrderedRun(job, w, ClaimAndCrash(ClaimTime(slot, k)))
    ensures var u := Run(job, w, ClaimAndCrash(ClaimTime(slot, k)));
            && u.view.row == Some(Claimed(job, slot, k)) && Deserted(u)
            && |u.log| == |w.log| + 1 && u.epoch == w.epoch
  {
    NextIsAttempt(job, slot, k);
    ClaimAndCrashSteps(job, w, ClaimTime(slot, k));
    ClaimedThenCrashed(job, w, Unstarted(job, slot, k), k, KeyFor(job, slot), ClaimTime(slot, k));
  }

  /** Each attempt up to the fifth of any job's first slot is reached by one scheduler thread that keeps crashing. */
  lemma {:induction false} CrashesReachEveryAttempt(job: Job, seen: I64, slot: I64, k: nat)
    returns (start: World, actions: seq<Action>, w: World)
    requires Begins(job, seen, slot) && 1 <= k <= MAX_ATTEMPTS
    ensures Leads(job, start, actions, w)
    ensures w.view.row == Some(Claimed(job, slot, k)) && Deserted(w) && |w.log| == k && w.epoch == 0
  {
    if k == 1 {
      start := World(View(None, map[], 0), map[], map[], None, 0);
      actions := InsertAndCrash(seen);
      FirstLoad(job, start, seen, slot);
      w := Run(job, start, actions);
    } else {
      start, actions, w := CrashesReachEveryAttempt(job, seen, slot, k - 1);
    }
    actions, w := LeadsOn(job, start, actions, w, slot, k);
  }

  lemma LeadsOn(job: Job, start: World, actions: seq<Action>, w: World, slot: I64, k: nat)
    returns (more: seq<Action>, u: World)
    requires 1 <= k <= MAX_ATTEMPTS && IsI64(slot + MAX_ATTEMPTS * ATTEMPT_LEASE_NS) && Deserted(w)
    requires Leads(job, start, actions, w) && w.view.row == Some(Unstarted(job, slot, k))
    ensures Leads(job, start, more, u) && u.view.row == Some(Claimed(job, slot, k)) && Deserted(u)
    ensures |u.log| == |w.log| + 1 && u.epoch == w.epoch
  {
    FreshNumber(job, start, actions, w);
    OneMoreAttempt(job, w, slot, k);
    RunConcat(job, start, actions, ClaimAndCrash(ClaimTime(slot, k)));
    more := actions + ClaimAndCrash(ClaimTime(slot, k));
    u := Run(job, start, more);
  }

  /** So every interval job reaches the start of the race between an exhaustion and a claim. */
  lemma FifthAttemptOfAnIntervalJob(job: Job, seen: I64, slot: I64) returns (w: World)
    requires Begins(job, seen, slot) && job.schedule.EveryNs?
    requires IsI64(slot + job.schedule.interval + ATTEMPT_LEASE_NS)
    ensures Reachable(job, w) && FifthAttempt(job, w)
  {
    var start, actions;
    start, actions, w := CrashesReachEveryAttempt(job, seen, slot, MAX_ATTEMPTS);
  }

  lemma FreshNumber(job: Job, start: World, actions: seq<Action>, w: World)
    requires Leads(job, start, actions, w)
    ensures Inv(job, w) && w.view.nextSeq !in w.log
  {
    InitialHasInv(job, start);
    RunKeepsInv(job, start, actions);
  }

  /** A running row of the first version has exactly one open entry. */
  lemma OneOpenEntry(job: Job, w: World)
    requires Inv(job, w) && Current(job, w) && w.view.row.value.status.Running? && w.epoch == 0
    ensures |OpenEntries(w.view.history, w.view.row.value.planned, w.view.row.value.attempt, w.view.row.value.key)| == 1
  {
    var row := w.view.row.value;
    assert OpenEntries(w.view.history, row.planned, row.attempt, row.key) == {w.last.value};
  }

  /** Every one-time job has a run in which its fifth attempt, claimed after four crashes, is executing;
      it was claimed five times then, so that bound is tight. */
  lemma FifthAttemptOfAOneTimeJob(job: Job) returns (start: World, actions: seq<Action>, w: World)
    requires job.schedule.AtUnixNs? && IsI64(job.schedule.timestamp + MAX_ATTEMPTS * ATTEMPT_LEASE_NS)
    ensures Leads(job, start, actions, w) && |w.log| == MAX_ATTEMPTS
    ensures Finishing(job, w)
  {
    var slot := job.schedule.timestamp;
    var now := ClaimTime(slot, 5);
    start, actions, w := CrashesReachEveryAttempt(job, 0, slot, 4);
    FreshNumber(job, start, actions, w);
    LastClaim(job, w, slot);
    RunConcat(job, start, actions, [Load(2, now), TryClaim(2)]);
    actions := actions + [Load(2, now), TryClaim(2)];
    w := Run(job, start, actions);
    FreshNumber(job, start, actions, w);
    OneOpenEntry(job, w);
  }

  lemma LastClaim(job: Job, w: World, slot: I64)
    requires IsI64(slot + MAX_ATTEMPTS * ATTEMPT_LEASE_NS) && Deserted(w)
    requires w.view.row == Some(Claimed(job, slot, 4)) && w.view.nextSeq !in w.log
    ensures var run := [Load(2, ClaimTime(slot, 5)), TryClaim(2)];
            var u := Run(job, w, run);
            && OrderedRun(job, w, run) && |u.log| == |w.log| + 1 && u.epoch == w.epoch
            && u.view.row == Some(Claimed(job, slot, 5))
            && WorkerAt(u, 1).Free? && WorkerAt(u, 2) == Executing(slot, 5, KeyFor(job, slot))
  {
    var now := ClaimTime(slot, 5);
    NextIsAttempt(job, slot, 5);
    var a := [Load(2, now), TryClaim(2)];
    assert a[1..] == [TryClaim(2)] && [TryClaim(2)][1..] == [];
    Unroll(job, w, a);
    Unroll(job, Step(job, w, Load(2, now)), [TryClaim(2)]);
  }

  /** Hence the race is reached by every such job: it completes and then fails. */
  lemma PausedExhaustionIsReached(job: Job, finished: int) returns (done: World)
    requires job.schedule.AtUnixNs? && IsI64(job.schedule.timestamp + MAX_ATTEMPTS * ATTEMPT_LEASE_NS)
    ensures Reachable(job, done) && Ordered(job, done, Exhaust(1)) && FailsACompletedJob(done, Exhaust(1))
    ensures var u := Step(job, done, Exhaust(1)); u.view.row.Some? && u.view.row.value.status.Failed?
  {
    var start, actions, w := FifthAttemptOfAOneTimeJob(job);
    var last := [Load(1, w.view.row.value.leaseUntil), Finish(2, Success, finished)];
    PausedExhaustionFailsACompletedJob(job, w, finished);
    RunConcat(job, start, actions, last);
    done := Run(job, w, last);
    assert Leads(job, start, actions + last, done);
  }
}
