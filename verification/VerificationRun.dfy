/** The resumable verification runner (scripts/prerelease_verification.py:991-1343).

A run directory survives crashes; the runner's position does not. Stages have distinct names. The
SHA-256 of a file and the fingerprint of a stage are parameters.
*/
module VerificationRun {
  import opened Common

  /** A file of one attempt of the stage with the given position. */
  datatype Path = Path(stage: nat, attempt: nat, name: string)

  datatype Content = Data(bytes: int) | Boundary(fingerprint: int, artifacts: map<Path, int>)

  datatype Record = Record(name: string, boundary: Path, sha: int)

  datatype Manifest = Manifest(plan: seq<string>, fingerprint: int)

  datatype Status = Unfinished | Failed | Passed

  datatype Report = Report(status: Status, stages: seq<Record>)

  /** Where the runner is: at stage `i` of the plan, with the records that it loaded. */
  datatype Pc =
    | Idle
    | Running(i: nat, completed: seq<Record>)
    | InStage(i: nat, completed: seq<Record>, attempt: nat)
    | Recording(i: nat, completed: seq<Record>, record: Record)

  datatype World = World(created: bool, manifest: Option<Manifest>, report: Option<Report>,
                         files: map<Path, Content>, attempts: map<nat, set<nat>>, pc: Pc)

  datatype Action =
    | Begin(plan: seq<string>, fingerprint: int, written: nat)
    | Resume(plan: seq<string>, fingerprint: int)
    | CheckStage
    | Enter
    | WriteFile(name: string, bytes: int)
    | Leave(ok: bool)
    | SaveRecord
    | Finish
    | Abort
    | Crash
    | Tamper(path: Path, content: Option<Content>)

  /** SHA-256 of a file's content, and the fingerprint of a stage within a run. */
  datatype Hashes = Hashes(sha: Content -> int, stage: (string, int) -> int)

  const COMPLETE := "COMPLETE.json"

  // ---------------------------------------------------------------- evidence

  /** `validate_completed_stage`. */
  predicate Validates(h: Hashes, files: map<Path, Content>, r: Record, fingerprint: int) {
    && r.boundary in files && h.sha(files[r.boundary]) == r.sha
    && files[r.boundary].Boundary? && files[r.boundary].fingerprint == fingerprint
    && forall p :: p in files[r.boundary].artifacts ==> p in files && h.sha(files[p]) == files[r.boundary].artifacts[p]
  }

  /** `artifact_inventory` of an attempt directory. */
  function Inventory(h: Hashes, files: map<Path, Content>, stage: nat, attempt: nat): map<Path, int> {
    map p | p in files && p.stage == stage && p.attempt == attempt && p.name != COMPLETE :: h.sha(files[p])
  }

  /** The end of `execute_stage`: the boundary file and the record that names it. */
  function Sealed(h: Hashes, files: map<Path, Content>, stage: nat, attempt: nat, fingerprint: int)
    : map<Path, Content>
  {
    files[Path(stage, attempt, COMPLETE) := Boundary(fingerprint, Inventory(h, files, stage, attempt))]
  }

  function RecordOf(h: Hashes, files: map<Path, Content>, stage: nat, attempt: nat, name: string,
                    fingerprint: int): Record {
    var boundary := Path(stage, attempt, COMPLETE);
    Record(name, boundary, h.sha(Boundary(fingerprint, Inventory(h, files, stage, attempt))))
  }

  /** `execute_stage` and `validate_completed_stage` agree: what the one records, the other accepts. */
  lemma SealedValidates(h: Hashes, files: map<Path, Content>, stage: nat, attempt: nat, name: string, fingerprint: int)
    ensures Validates(h, Sealed(h, files, stage, attempt, fingerprint),
                      RecordOf(h, files, stage, attempt, name, fingerprint), fingerprint)
  {
  }

  /** The boundary of an attempt lists every other file of it, and no file of another, with its hash;
      the record holds the hash of the boundary. */
  lemma SealedListsEveryFile(h: Hashes, files: map<Path, Content>, stage: nat, attempt: nat, name: string,
                             fingerprint: int)
    ensures var sealed := Sealed(h, files, stage, attempt, fingerprint);
            var r := RecordOf(h, files, stage, attempt, name, fingerprint);
            && r.name == name && r.boundary == Path(stage, attempt, COMPLETE)
            && r.boundary in sealed && sealed[r.boundary].Boundary? && r.sha == h.sha(sealed[r.boundary])
            && sealed[r.boundary].fingerprint == fingerprint
            && (forall p :: p in sealed[r.boundary].artifacts <==>
                  p in files && p.stage == stage && p.attempt == attempt && p.name != COMPLETE)
            && (forall p :: p in sealed[r.boundary].artifacts ==>
                  p in sealed && sealed[p] == files[p] && sealed[r.boundary].artifacts[p] == h.sha(files[p]))
            && (forall p :: p != r.boundary ==> (p in sealed <==> p in files) && (p in files ==> sealed[p] == files[p]))
  {
  }

  // ---------------------------------------------------------------- attempts

  /** The greatest attempt not above `bound`, or 0. */
  function Highest(existing: set<nat>, bound: nat): (r: nat)
    ensures r <= bound && (r > 0 ==> r in existing)
    ensures forall o :: o in existing && o <= bound ==> o <= r
  {
    if bound == 0 || bound in existing then bound else Highest(existing, bound - 1)
  }

  /** `next_attempt`: only directories with three digits are seen, and the new one must not exist. */
  function NextAttempt(existing: set<nat>): Option<nat> {
    var ordinal := Highest(existing, 999) + 1;
    if ordinal in existing then None else Some(ordinal)
  }

  function Upto(n: nat): (r: set<nat>)
    ensures forall o :: o in r <==> 1 <= o <= n
  {
    if n == 0 then {} else Upto(n - 1) + {n}
  }

  /** Attempts are numbered one after the other, and the thousand-and-first of a stage cannot start. */
  lemma AttemptsAreConsecutive(n: nat)
    requires n <= 1000
    ensures NextAttempt(Upto(n)) == (if n < 1000 then Some(n + 1) else None)
    ensures Upto(n) + {n + 1} == Upto(n + 1)
  {
    var r := Highest(Upto(n), 999);
    var top := if n < 1000 then n else 999;
    assert top > 0 ==> top in Upto(n);
    assert r == top;
  }

  function Attempts(w: World, stage: nat): set<nat> {
    if stage in w.attempts then w.attempts[stage] else {}
  }

  // ---------------------------------------------------------------- the machine

  function Names(records: seq<Record>): seq<string> {
    seq(|records|, i requires 0 <= i < |records| => records[i].name)
  }

  function Find(records: seq<Record>, name: string): Option<Record>
    decreases |records|
  {
    if records == [] then None
    else if records[|records| - 1].name == name then Some(records[|records| - 1])
    else Find(records[..|records| - 1], name)
  }

  function Without(records: seq<Record>, name: string): seq<Record> {
    if records == [] then []
    else if records[0].name == name then Without(records[1..], name)
    else [records[0]] + Without(records[1..], name)
  }

  predicate Loaded(w: World) {
    w.manifest.Some? && w.report.Some?
  }

  /** Any exception: the report is marked and the runner stops. */
  function Stop(w: World): World {
    if w.report.Some? then w.(report := Some(w.report.value.(status := Failed)), pc := Idle) else w.(pc := Idle)
  }

  /** A new run: the directory, the manifest and the report are written in this order, and a crash
      may leave only the first `written` of them. */
  function BeginRun(w: World, plan: seq<string>, fingerprint: int, written: nat): World {
    if w.created || plan == [] || w.pc != Idle then w
    else
      var made := w.(created := true, manifest := if written >= 2 then Some(Manifest(plan, fingerprint)) else None);
      if written < 3 then made else made.(report := Some(Report(Unfinished, [])), pc := Running(0, []))
  }

  function ResumeRun(w: World, plan: seq<string>, fingerprint: int): World {
    if w.pc != Idle || plan == [] || !Loaded(w) || w.manifest.value != Manifest(plan, fingerprint) then w
    else w.(pc := Running(0, w.report.value.stages))
  }

  function Check(h: Hashes, w: World): World {
    if !Loaded(w) || !w.pc.Running? || w.pc.i >= |w.manifest.value.plan| then w
    else
      var name := w.manifest.value.plan[w.pc.i];
      match Find(w.pc.completed, name)
      case None => w
      case Some(record) =>
        if Validates(h, w.files, record, h.stage(name, w.manifest.value.fingerprint))
        then w.(pc := Running(w.pc.i + 1, w.pc.completed))
        else Stop(w)
  }

  function EnterStage(w: World): World {
    if !Loaded(w) || !w.pc.Running? || w.pc.i >= |w.manifest.value.plan|
       || Find(w.pc.completed, w.manifest.value.plan[w.pc.i]).Some? then w
    else
      match NextAttempt(Attempts(w, w.pc.i))
      case None => Stop(w)
      case Some(o) =>
        w.(attempts := w.attempts[w.pc.i := Attempts(w, w.pc.i) + {o}],
           pc := InStage(w.pc.i, w.pc.completed, o))
  }

  function LeaveStage(h: Hashes, w: World, ok: bool): World {
    if !Loaded(w) || !w.pc.InStage? || w.pc.i >= |w.manifest.value.plan| then w
    else if !ok then Stop(w)
    else
      var name := w.manifest.value.plan[w.pc.i];
      var fingerprint := h.stage(name, w.manifest.value.fingerprint);
      w.(files := Sealed(h, w.files, w.pc.i, w.pc.attempt, fingerprint),
         pc := Recording(w.pc.i, w.pc.completed,
                         RecordOf(h, w.files, w.pc.i, w.pc.attempt, name, fingerprint)))
  }

  function Save(w: World): World {
    if !Loaded(w) || !w.pc.Recording? then w
    else
      var r := w.pc.record;
      w.(report := Some(w.report.value.(stages := Without(w.report.value.stages, r.name) + [r])),
         pc := Running(w.pc.i + 1, w.pc.completed))
  }

  predicate AtEnd(w: World) {
    Loaded(w) && w.pc.Running? && w.pc.i == |w.manifest.value.plan|
  }

  function Step(h: Hashes, w: World, a: Action): World {
    match a
    case Begin(plan, fingerprint, written) => BeginRun(w, plan, fingerprint, written)
    case Resume(plan, fingerprint) => ResumeRun(w, plan, fingerprint)
    case CheckStage => Check(h, w)
    case Enter => EnterStage(w)
    case WriteFile(name, bytes) =>
      if w.pc.InStage? && name != COMPLETE then w.(files := w.files[Path(w.pc.i, w.pc.attempt, name) := Data(bytes)])
      else w
    case Leave(ok) => LeaveStage(h, w, ok)
    case SaveRecord => Save(w)
    case Finish =>
      if AtEnd(w) then w.(report := Some(w.report.value.(status := Passed)), pc := Idle) else w
    case Abort => if w.pc.Idle? then w else Stop(w)
    case Crash => w.(pc := Idle)
    case Tamper(path, content) =>
      w.(files := if content.Some? then w.files[path := content.value] else w.files - {path})
  }

  function Run(h: Hashes, w: World, actions: seq<Action>): World
    decreases |actions|
  {
    if actions == [] then w else Run(h, Step(h, w, actions[0]), actions[1..])
  }

  const EMPTY := World(false, None, None, map[], map[], Idle)

  // ---------------------------------------------------------------- what every run keeps

  function Plan(w: World): seq<string> {
    if w.manifest.Some? then w.manifest.value.plan else []
  }

  function Recorded(w: World): seq<Record> {
    if w.report.Some? then w.report.value.stages else []
  }

  /** The recorded stages are a prefix of the plan, in order. */
  ghost predicate PrefixRecorded(w: World) {
    |Recorded(w)| <= |Plan(w)| && forall i :: 0 <= i < |Recorded(w)| ==> Recorded(w)[i].name == Plan(w)[i]
  }

  /** The runner's position fits what is recorded. */
  ghost predicate PositionFits(w: World) {
    w.pc.Idle? ||
    (&& Loaded(w) && w.pc.completed <= Recorded(w) && w.pc.i <= |Plan(w)|
     && |Recorded(w)| == (if w.pc.i < |w.pc.completed| then |w.pc.completed| else w.pc.i)
     && (!w.pc.Running? ==> w.pc.i < |Plan(w)| && |w.pc.completed| <= w.pc.i)
     && (w.pc.Recording? ==> w.pc.record.name == Plan(w)[w.pc.i]))
  }

  ghost predicate Inv(w: World) {
    && (w.manifest.Some? || w.report.Some? ==> w.created)
    && (w.report.Some? ==> w.manifest.Some?)
    && Unique(Plan(w)) && PrefixRecorded(w) && PositionFits(w)
    && (w.report.Some? && w.report.value.status.Passed? ==> |Recorded(w)| == |Plan(w)|)
    && forall i :: i in w.attempts ==> exists n: nat :: n <= 1000 && w.attempts[i] == Upto(n)
  }

  lemma {:induction false} FindMeansRecorded(records: seq<Record>, name: string)
    ensures Find(records, name).Some? <==> name in Names(records)
    ensures Find(records, name).Some? ==> Find(records, name).value in records && Find(records, name).value.name == name
    decreases |records|
  {
    if records != [] {
      var n := |records| - 1;
      FindMeansRecorded(records[..n], name);
      assert Names(records) == Names(records[..n]) + [records[n].name];
    }
  }

  lemma {:induction false} WithoutAbsent(records: seq<Record>, name: string)
    requires forall i :: 0 <= i < |records| ==> records[i].name != name
    ensures Without(records, name) == records
    decreases |records|
  {
    if records != [] {
      WithoutAbsent(records[1..], name);
    }
  }

  /** While the runner works, the stage it is at was loaded exactly if its position is below the
      loaded records. */
  lemma LoadedExactlyBelow(w: World)
    requires Inv(w) && !w.pc.Idle? && w.pc.i < |Plan(w)|
    ensures Find(w.pc.completed, Plan(w)[w.pc.i]).Some? <==> w.pc.i < |w.pc.completed|
    ensures w.pc.i < |w.pc.completed| ==> Find(w.pc.completed, Plan(w)[w.pc.i]).value == Recorded(w)[w.pc.i]
  {
    var done, name := w.pc.completed, Plan(w)[w.pc.i];
    FindMeansRecorded(done, name);
    assert forall j :: 0 <= j < |done| ==> done[j] == Recorded(w)[j] && Names(done)[j] == Plan(w)[j];
    if w.pc.i < |done| {
      assert Names(done)[w.pc.i] == name;
      var j :| 0 <= j < |done| && done[j] == Find(done, name).value;
      assert Plan(w)[j] == name;
    }
  }

  lemma CheckKeepsInv(h: Hashes, w: World)
    requires Inv(w)
    ensures Inv(Check(h, w))
  {
    if Loaded(w) && w.pc.Running? && w.pc.i < |Plan(w)| {
      LoadedExactlyBelow(w);
    }
  }

  lemma EnterKeepsInv(w: World)
    requires Inv(w)
    ensures Inv(EnterStage(w))
  {
    if Loaded(w) && w.pc.Running? && w.pc.i < |Plan(w)| {
      LoadedExactlyBelow(w);
      var existing := Attempts(w, w.pc.i);
      assert exists n: nat :: n <= 1000 && existing == Upto(n) by {
        if w.pc.i !in w.attempts { assert existing == Upto(0); }
      }
      var n: nat :| n <= 1000 && existing == Upto(n);
      AttemptsAreConsecutive(n);
      assert n < 1000 ==> existing + {n + 1} == Upto(n + 1);
    }
  }

  lemma SaveKeepsInv(w: World)
    requires Inv(w)
    ensures Inv(Save(w))
  {
    if Loaded(w) && w.pc.Recording? {
      WithoutAbsent(Recorded(w), w.pc.record.name);
    }
  }

  /** A plan handed to a new run names its stages once. */
  predicate Sensible(a: Action) {
    a.Begin? ==> Unique(a.plan)
  }

  lemma StepKeepsInv(h: Hashes, w: World, a: Action)
    requires Inv(w) && Sensible(a)
    ensures Inv(Step(h, w, a))
  {
    match a {
      case CheckStage => CheckKeepsInv(h, w);
      case Enter => EnterKeepsInv(w);
      case SaveRecord => SaveKeepsInv(w);
      case _ =>
    }
  }

  /** Records are only ever appended, and the plan of a run does not change. */
  lemma StepOnlyAppends(h: Hashes, w: World, a: Action)
    requires Inv(w)
    ensures Recorded(w) <= Recorded(Step(h, w, a))
    ensures w.report.Some? ==> Step(h, w, a).manifest == w.manifest && Step(h, w, a).report.Some?
  {
    if a.SaveRecord? && Loaded(w) && w.pc.Recording? {
      WithoutAbsent(Recorded(w), w.pc.record.name);
    }
  }

  /** Over any sequence of steps, crashes, aborts, resumes and tampering, the recorded stages are a
      prefix of the plan, they only grow, and a passed status means that all are recorded. */
  lemma {:induction false} RunKeepsInv(h: Hashes, w: World, actions: seq<Action>)
    requires Inv(w) && forall i :: 0 <= i < |actions| ==> Sensible(actions[i])
    ensures Inv(Run(h, w, actions)) && Recorded(w) <= Recorded(Run(h, w, actions))
    decreases |actions|
  {
    if actions != [] {
      StepKeepsInv(h, w, actions[0]);
      StepOnlyAppends(h, w, actions[0]);
      RunKeepsInv(h, Step(h, w, actions[0]), actions[1..]);
    }
  }

  /** The stage that an action starts to execute. */
  function Started(h: Hashes, w: World, a: Action): Option<string> {
    if a.Enter? && w.pc.Running? && Step(h, w, a).pc.InStage? && w.pc.i < |Plan(w)| then Some(Plan(w)[w.pc.i]) else None
  }

  /** No later step of any run executes a stage that is recorded. */
  lemma RecordedIsNeverExecutedAgain(h: Hashes, w: World, actions: seq<Action>, j: nat)
    requires Inv(w) && j < |actions| && forall i :: 0 <= i < |actions| ==> Sensible(actions[i])
    ensures var at := Run(h, w, actions[..j]);
            Started(h, at, actions[j]).Some? ==> Started(h, at, actions[j]).value !in Names(Recorded(w))
  {
    RunKeepsInv(h, w, actions[..j]);
    var at := Run(h, w, actions[..j]);
    if Started(h, at, actions[j]).Some? {
      LoadedExactlyBelow(at);
      assert at.pc.i == |Recorded(at)|;
      forall k | 0 <= k < |Recorded(w)| ensures Names(Recorded(w))[k] != Plan(at)[at.pc.i] {
        assert Recorded(w)[k] == Recorded(at)[k];
      }
    }
  }

  // ---------------------------------------------------------------- what `passed` means

  /** The world after the first `k` actions since the directory did not exist. */
  function At(h: Hashes, actions: seq<Action>, k: nat): World
    requires k <= |actions|
  {
    Run(h, EMPTY, actions[..k])
  }

  lemma {:induction false} RunSnoc(h: Hashes, w: World, actions: seq<Action>, a: Action)
    ensures Run(h, w, actions + [a]) == Step(h, Run(h, w, actions), a)
    decreases |actions|
  {
    if actions == [] {
      assert [] + [a] == [a] && [a][1..] == [];
    } else {
      assert (actions + [a])[1..] == actions[1..] + [a];
      RunSnoc(h, Step(h, w, actions[0]), actions[1..], a);
    }
  }

  lemma NextAt(h: Hashes, actions: seq<Action>, k: nat)
    requires k < |actions|
    ensures At(h, actions, k + 1) == Step(h, At(h, actions, k), actions[k])
  {
    assert actions[..k + 1] == actions[..k] + [actions[k]];
    RunSnoc(h, EMPTY, actions[..k], actions[k]);
  }

  lemma AtHasInv(h: Hashes, actions: seq<Action>, k: nat)
    requires k <= |actions| && forall i :: 0 <= i < |actions| ==> Sensible(actions[i])
    ensures Inv(At(h, actions, k))
  {
    EmptyIsIntact(h);
    RunKeepsInv(h, EMPTY, actions[..k]);
  }

  /** The action checks stage `s` while its boundary file has the recorded hash and the stage's fingerprint
      and every file that it lists is there with the listed hash, or it saves a new record of the stage. */
  ghost predicate Evidence(h: Hashes, w: World, a: Action, s: nat) {
    && Loaded(w) && !w.pc.Idle? && w.pc.i == s < |Plan(w)|
    && (|| (a.CheckStage? && s < |Recorded(w)|
            && var r := Recorded(w)[s];
               && r.boundary in w.files && h.sha(w.files[r.boundary]) == r.sha && w.files[r.boundary].Boundary?
               && w.files[r.boundary].fingerprint == h.stage(Plan(w)[s], w.manifest.value.fingerprint)
               && forall p :: p in w.files[r.boundary].artifacts ==>
                    p in w.files && h.sha(w.files[p]) == w.files[r.boundary].artifacts[p])
        || (a.SaveRecord? && w.pc.Recording? && w.pc.record.name == Plan(w)[s]
            && Recorded(Step(h, w, a)) == Recorded(w) + [w.pc.record]))
  }

  /** A runner that has loaded the record of its stage gets past it exactly if the boundary file has the
      recorded hash and the stage's fingerprint and every file that it lists is there with the listed
      hash. Otherwise the run stops with the status failed. */
  lemma CheckIsExact(h: Hashes, w: World)
    requires Inv(w) && w.pc.Running? && w.pc.i < |w.pc.completed|
    ensures var u, r := Step(h, w, CheckStage), Recorded(w)[w.pc.i];
            var valid := && r.boundary in w.files && h.sha(w.files[r.boundary]) == r.sha
                         && w.files[r.boundary].Boundary?
                         && w.files[r.boundary].fingerprint == h.stage(Plan(w)[w.pc.i], w.manifest.value.fingerprint)
                         && forall p :: p in w.files[r.boundary].artifacts ==>
                              p in w.files && h.sha(w.files[p]) == w.files[r.boundary].artifacts[p];
            && (valid ==> u == w.(pc := Running(w.pc.i + 1, w.pc.completed)))
            && (!valid ==> u.pc.Idle? && u.report == Some(w.report.value.(status := Failed)) && u.files == w.files)
  {
    LoadedExactlyBelow(w);
  }

  /** A file that the boundary of a recorded stage lists was changed, or is gone: the next check of that
      stage stops the run with the status failed, whatever else happened. */
  lemma ChangedFileIsCaught(h: Hashes, w: World, p: Path, content: Option<Content>)
    requires Inv(w) && w.pc.Running? && w.pc.i < |w.pc.completed|
    requires var r := Recorded(w)[w.pc.i];
             && r.boundary in w.files && w.files[r.boundary].Boundary? && p != r.boundary
             && p in w.files[r.boundary].artifacts
             && (content.Some? ==> h.sha(content.value) != w.files[r.boundary].artifacts[p])
    ensures var u := Step(h, Step(h, w, Tamper(p, content)), CheckStage);
            u.pc.Idle? && u.report.Some? && u.report.value.status == Failed
  {
    var v := Step(h, w, Tamper(p, content));
    CheckIsExact(h, v);
  }

  /** A runner gets past a stage only with evidence for it. */
  lemma AdvanceIsEvidence(h: Hashes, w: World, a: Action)
    requires Inv(w) && !w.pc.Idle? && !Step(h, w, a).pc.Idle?
    ensures var u := Step(h, w, a);
            && u.manifest == w.manifest
            && (u.pc.i == w.pc.i || (u.pc.i == w.pc.i + 1 && Evidence(h, w, a, w.pc.i)))
  {
    if a.CheckStage? && w.pc.Running? && w.pc.i < |Plan(w)| {
      LoadedExactlyBelow(w);
    } else if a.SaveRecord? && w.pc.Recording? {
      WithoutAbsent(Recorded(w), w.pc.record.name);
    }
  }

  /** What starts a runner: a new run whose directory does not exist and whose first files are all
      written, or a resumed run with exactly the plan and the fingerprint of its manifest. */
  predicate Starts(w: World, a: Action) {
    match a
    case Begin(plan, fingerprint, written) => !w.created && plan != [] && written >= 3
    case Resume(plan, fingerprint) =>
      w.report.Some? && w.manifest == Some(Manifest(plan, fingerprint)) && plan != []
    case _ => false
  }

  /** An idle runner starts exactly then, at the first stage and with what is recorded. */
  lemma StartsExactly(h: Hashes, w: World, a: Action)
    requires Inv(w) && w.pc.Idle?
    ensures var u := Step(h, w, a);
            && (!u.pc.Idle? <==> Starts(w, a))
            && (Starts(w, a) ==> u.manifest == Some(Manifest(a.plan, a.fingerprint)) && u.report.Some?
                                 && Recorded(u) == Recorded(w) && u.pc == Running(0, Recorded(w)))
  {
  }

  /** Action `b` starts a runner, with its own plan and fingerprint, that has not stopped by time `k`. */
  ghost predicate RunsSince(h: Hashes, actions: seq<Action>, b: nat, k: nat) {
    && b < k <= |actions| && At(h, actions, b).pc.Idle? && Starts(At(h, actions, b), actions[b])
    && (forall m: nat :: b < m <= k ==> !At(h, actions, m).pc.Idle?)
    && (forall m: nat :: b < m <= k ==>
          At(h, actions, m).manifest == Some(Manifest(actions[b].plan, actions[b].fingerprint)))
  }

  lemma RunsOn(h: Hashes, actions: seq<Action>, b: nat, k: nat)
    requires RunsSince(h, actions, b, k) && k < |actions| && !At(h, actions, k + 1).pc.Idle?
    requires At(h, actions, k + 1).manifest == At(h, actions, k).manifest
    ensures RunsSince(h, actions, b, k + 1)
  {
  }

  /** Stage `s` got its evidence between times `b` and `k`. */
  ghost predicate CoveredBetween(h: Hashes, actions: seq<Action>, b: nat, k: nat, s: nat)
    requires k <= |actions|
  {
    exists m: nat :: b < m < k && Evidence(h, At(h, actions, m), actions[m], s)
  }

  lemma StaysCovered(h: Hashes, actions: seq<Action>, b: nat, k: nat, s: nat)
    requires k < |actions| && CoveredBetween(h, actions, b, k, s)
    ensures CoveredBetween(h, actions, b, k + 1, s)
  {
    var m: nat :| b < m < k && Evidence(h, At(h, actions, m), actions[m], s);
    assert b < m < k + 1;
  }

  lemma NowCovered(h: Hashes, actions: seq<Action>, b: nat, k: nat, s: nat)
    requires b < k < |actions| && Evidence(h, At(h, actions, k), actions[k], s)
    ensures CoveredBetween(h, actions, b, k + 1, s)
  {
  }

  /** A runner at stage `i` has itself gathered evidence for every stage before. */
  lemma {:induction false} RunnerHasCovered(h: Hashes, actions: seq<Action>, k: nat) returns (b: nat)
    requires k <= |actions| && forall i :: 0 <= i < |actions| ==> Sensible(actions[i])
    requires !At(h, actions, k).pc.Idle?
    ensures RunsSince(h, actions, b, k)
    ensures forall s: nat :: s < At(h, actions, k).pc.i ==> CoveredBetween(h, actions, b, k, s)
    decreases k
  {
    assert actions[..0] == [];
    var w, u := At(h, actions, k - 1), At(h, actions, k);
    NextAt(h, actions, k - 1);
    AtHasInv(h, actions, k - 1);
    if w.pc.Idle? {
      b := k - 1;
      StartsExactly(h, w, actions[b]);
    } else {
      b := RunnerHasCovered(h, actions, k - 1);
      AdvanceIsEvidence(h, w, actions[k - 1]);
      RunsOn(h, actions, b, k - 1);
      forall s: nat | s < u.pc.i ensures CoveredBetween(h, actions, b, k, s) {
        if s < w.pc.i {
          StaysCovered(h, actions, b, k - 1, s);
        } else {
          NowCovered(h, actions, b, k - 1, s);
        }
      }
    }
  }

  predicate HasPassed(w: World) {
    w.report.Some? && w.report.value.status.Passed?
  }

  /** If an action turns the status to passed, a runner that started at some earlier action and has
      not stopped since has, for every stage of the plan, validated its record against its
      fingerprint or saved a new record; and every stage has its record. */
  lemma PassedMeansCoveredInThatRun(h: Hashes, actions: seq<Action>, j: nat) returns (b: nat)
    requires j < |actions| && forall i :: 0 <= i < |actions| ==> Sensible(actions[i])
    requires !HasPassed(At(h, actions, j)) && HasPassed(At(h, actions, j + 1))
    ensures RunsSince(h, actions, b, j)
    ensures forall s: nat :: s < |Plan(At(h, actions, j))| ==> CoveredBetween(h, actions, b, j, s)
    ensures Names(Recorded(At(h, actions, j + 1))) == Plan(At(h, actions, j))
  {
    NextAt(h, actions, j);
    AtHasInv(h, actions, j);
    assert AtEnd(At(h, actions, j));
    b := RunnerHasCovered(h, actions, j);
  }

  // ---------------------------------------------------------------- without tampering

  /** The record validates, and its evidence lies in its own stage's directory. */
  ghost predicate Sound(h: Hashes, w: World, r: Record, i: nat)
    requires w.manifest.Some? && i < |Plan(w)|
  {
    && Validates(h, w.files, r, h.stage(Plan(w)[i], w.manifest.value.fingerprint))
    && r.boundary.stage == i
    && forall p :: p in w.files[r.boundary].artifacts ==> p.stage == i
  }

  ghost predicate Intact(h: Hashes, w: World)
    requires Inv(w)
  {
    && (forall i :: 0 <= i < |Recorded(w)| ==> Sound(h, w, Recorded(w)[i], i))
    && (w.pc.Recording? ==> Sound(h, w, w.pc.record, w.pc.i))
  }

  lemma LeaveKeepsIntact(h: Hashes, w: World, ok: bool)
    requires Inv(w) && Intact(h, w) && Inv(LeaveStage(h, w, ok))
    ensures Intact(h, LeaveStage(h, w, ok))
  {
    if Loaded(w) && w.pc.InStage? && ok {
      SealedValidates(h, w.files, w.pc.i, w.pc.attempt, Plan(w)[w.pc.i],
                      h.stage(Plan(w)[w.pc.i], w.manifest.value.fingerprint));
    }
  }

  lemma SaveKeepsIntact(h: Hashes, w: World)
    requires Inv(w) && Intact(h, w) && Inv(Save(w))
    ensures Intact(h, Save(w))
  {
    if Loaded(w) && w.pc.Recording? {
      WithoutAbsent(Recorded(w), w.pc.record.name);
      var v := Save(w);
      forall i | 0 <= i < |Recorded(v)| ensures Sound(h, v, Recorded(v)[i], i) {
        assert Sound(h, w, if i < |Recorded(w)| then Recorded(w)[i] else w.pc.record, i);
      }
    }
  }

  lemma WriteKeepsIntact(h: Hashes, w: World, v: World, name: string, bytes: int)
    requires Inv(w) && Intact(h, w) && Inv(v) && w.pc.InStage?
    requires v == w.(files := w.files[Path(w.pc.i, w.pc.attempt, name) := Data(bytes)])
    ensures Intact(h, v)
  {
    forall i | 0 <= i < |Recorded(v)| ensures Sound(h, v, Recorded(v)[i], i) {
      assert Sound(h, w, Recorded(w)[i], i);
    }
  }

  lemma SameEvidenceKeepsIntact(h: Hashes, w: World, v: World)
    requires Inv(w) && Intact(h, w) && Inv(v)
    requires v.files == w.files && Recorded(v) == Recorded(w) && (v.pc.Recording? ==> v.pc == w.pc)
    requires w.report.Some? ==> v.manifest == w.manifest
    ensures Intact(h, v)
  {
    forall i | 0 <= i < |Recorded(v)| ensures Sound(h, v, Recorded(v)[i], i) {
      assert Sound(h, w, Recorded(w)[i], i);
    }
  }

  lemma EvidenceKept(h: Hashes, w: World, a: Action)
    requires !a.Tamper? && !a.Leave? && !a.SaveRecord? && !(a.WriteFile? && w.pc.InStage? && a.name != COMPLETE)
    requires w.report.Some? ==> w.created
    ensures var v := Step(h, w, a);
            v.files == w.files && Recorded(v) == Recorded(w) && (v.pc.Recording? ==> v.pc == w.pc)
  {
  }

  /** Unless somebody changes files, what was recorded stays valid whatever the runner does next. */
  lemma StepKeepsIntact(h: Hashes, w: World, a: Action)
    requires Inv(w) && Intact(h, w) && Sensible(a) && !a.Tamper?
    ensures Inv(Step(h, w, a)) && Intact(h, Step(h, w, a))
  {
    StepKeepsInv(h, w, a);
    if a.Leave? {
      LeaveKeepsIntact(h, w, a.ok);
    } else if a.SaveRecord? {
      SaveKeepsIntact(h, w);
    } else if a.WriteFile? && w.pc.InStage? && a.name != COMPLETE {
      WriteKeepsIntact(h, w, Step(h, w, a), a.name, a.bytes);
    } else {
      StepOnlyAppends(h, w, a);
      EvidenceKept(h, w, a);
      SameEvidenceKeepsIntact(h, w, Step(h, w, a));
    }
  }

  /** So without tampering every resume accepts every record. */
  lemma {:induction false} UntamperedRecordsValidate(h: Hashes, w: World, actions: seq<Action>)
    requires Inv(w) && Intact(h, w)
    requires forall i :: 0 <= i < |actions| ==> Sensible(actions[i]) && !actions[i].Tamper?
    ensures var end := Run(h, w, actions);
            && Inv(end) && Intact(h, end)
            && (end.pc.Running? && end.pc.i < |end.pc.completed| ==> Check(h, end).pc.Running?)
    decreases |actions|
  {
    if actions == [] {
      if w.pc.Running? && w.pc.i < |w.pc.completed| { LoadedExactlyBelow(w); }
    } else {
      StepKeepsIntact(h, w, actions[0]);
      UntamperedRecordsValidate(h, Step(h, w, actions[0]), actions[1..]);
    }
  }

  lemma EmptyIsIntact(h: Hashes)
    ensures Inv(EMPTY) && Intact(h, EMPTY)
  {
  }
}
