/** What the resumable verification runner achieves (scripts/prerelease_verification.py:991-1343):
a record is made of an attempt that succeeded, every other end is reported as a failure, and a run
that nobody tampers with can be resumed and finished. */
module VerificationProgress {
  import opened Common
  import opened VerificationRun

  // ---------------------------------------------------------------- single steps

  /** A stage that is not recorded is entered with the next attempt, unless a thousand were made. */
  lemma EnterIsExact(h: Hashes, w: World, n: nat)
    requires Inv(w) && w.pc.Running? && |w.pc.completed| <= w.pc.i < |Plan(w)|
    requires n <= 1000 && Attempts(w, w.pc.i) == Upto(n)
    ensures var u := Step(h, w, Enter);
            && u.files == w.files && u.manifest == w.manifest && Recorded(u) == Recorded(w)
            && (n < 1000 ==> u.pc == InStage(w.pc.i, w.pc.completed, n + 1) && u.report == w.report
                             && Attempts(u, w.pc.i) == Upto(n + 1))
            && (n == 1000 ==> u.pc.Idle? && u.report == Some(Report(Failed, Recorded(w))))
            && forall i :: i != w.pc.i ==> Attempts(u, i) == Attempts(w, i)
  {
    LoadedExactlyBelow(w);
    AttemptsAreConsecutive(n);
  }

  /** A stage that fails ends the run as failed and records nothing; one that succeeds is sealed. */
  lemma LeaveIsExact(h: Hashes, w: World, ok: bool)
    requires Inv(w) && w.pc.InStage?
    ensures var u := Step(h, w, Leave(ok));
            var name := Plan(w)[w.pc.i];
            var fingerprint := h.stage(name, w.manifest.value.fingerprint);
            && u.manifest == w.manifest && Recorded(u) == Recorded(w) && u.attempts == w.attempts
            && (ok ==> u.report == w.report
                       && u.files == Sealed(h, w.files, w.pc.i, w.pc.attempt, fingerprint)
                       && u.pc == Recording(w.pc.i, w.pc.completed,
                                            RecordOf(h, w.files, w.pc.i, w.pc.attempt, name, fingerprint)))
            && (!ok ==> u.pc.Idle? && u.files == w.files && u.report == Some(Report(Failed, Recorded(w))))
  {
  }

  lemma SaveIsExact(h: Hashes, w: World)
    requires Inv(w) && w.pc.Recording?
    ensures var u := Step(h, w, SaveRecord);
            && u.manifest == w.manifest && u.files == w.files && u.attempts == w.attempts
            && u.report == Some(Report(w.report.value.status, Recorded(w) + [w.pc.record]))
            && u.pc == Running(w.pc.i + 1, w.pc.completed)
  {
    WithoutAbsent(Recorded(w), w.pc.record.name);
  }

  /** However a runner stops, unless it crashes, the report says whether it reached the end. */
  lemma EndIsReported(h: Hashes, w: World, a: Action)
    requires Inv(w) && !w.pc.Idle? && Step(h, w, a).pc.Idle? && !a.Crash?
    ensures var u := Step(h, w, a);
            u.report == Some(Report(if a.Finish? then Passed else Failed, Recorded(w)))
    ensures a.Finish? ==> w.pc.i == |Plan(w)| == |Recorded(w)|
  {
  }

  // ---------------------------------------------------------------- records are of successful attempts

  lemma RecordingComesFrom(h: Hashes, w: World, a: Action)
    requires Inv(w) && Step(h, w, a).pc.Recording?
    ensures Step(h, w, a).manifest == w.manifest
    ensures Step(h, w, a).pc == w.pc || (a == Leave(true) && w.pc.InStage? && Step(h, w, a).pc.i == w.pc.i)
  {
  }

  lemma InStageComesFrom(h: Hashes, w: World, a: Action)
    requires Inv(w) && Step(h, w, a).pc.InStage?
    ensures var u := Step(h, w, a);
            || u.pc == w.pc
            || (a == Enter && w.pc.Running? && w.pc.i == u.pc.i && u.pc.attempt !in Attempts(w, w.pc.i)
                && u.pc.i == |Recorded(w)|)
  {
    if a.Enter? {
      LoadedExactlyBelow(w);
    }
  }

  /** At time `e` the runner starts a new attempt and stays in it until time `m`. */
  ghost predicate EnteredAt(h: Hashes, actions: seq<Action>, e: nat, m: nat) {
    && e < m <= |actions| && actions[e] == Enter && At(h, actions, m).pc.InStage?
    && At(h, actions, m).pc.attempt !in Attempts(At(h, actions, e), At(h, actions, m).pc.i)
    && At(h, actions, m).pc.i == |Recorded(At(h, actions, e))|
    && forall j: nat :: e < j <= m ==> At(h, actions, j).pc == At(h, actions, m).pc
  }

  lemma {:induction false} InStageWasEntered(h: Hashes, actions: seq<Action>, m: nat) returns (e: nat)
    requires m <= |actions| && At(h, actions, m).pc.InStage? && forall i :: 0 <= i < |actions| ==> Sensible(actions[i])
    ensures EnteredAt(h, actions, e, m)
    decreases m
  {
    assert actions[..0] == [];
    NextAt(h, actions, m - 1);
    AtHasInv(h, actions, m - 1);
    InStageComesFrom(h, At(h, actions, m - 1), actions[m - 1]);
    if At(h, actions, m - 1).pc == At(h, actions, m).pc {
      e := InStageWasEntered(h, actions, m - 1);
    } else {
      e := m - 1;
    }
  }

  /** A record that is about to be saved is of an attempt that the same runner started as a new one of
      the first unrecorded stage, stayed in, and left with success; nothing happened to it since. */
  lemma {:induction false} RecordedMeansSucceeded(h: Hashes, actions: seq<Action>, k: nat) returns (e: nat, m: nat)
    requires k <= |actions| && At(h, actions, k).pc.Recording?
    requires forall i :: 0 <= i < |actions| ==> Sensible(actions[i])
    ensures EnteredAt(h, actions, e, m) && m < k && actions[m] == Leave(true)
    ensures forall j: nat :: m < j <= k ==> At(h, actions, j).pc == At(h, actions, k).pc
    ensures var w, u := At(h, actions, m), At(h, actions, k);
            u.pc.i == w.pc.i && u.pc.record.boundary == Path(w.pc.i, w.pc.attempt, COMPLETE)
    decreases k
  {
    assert actions[..0] == [];
    var w := At(h, actions, k - 1);
    NextAt(h, actions, k - 1);
    AtHasInv(h, actions, k - 1);
    RecordingComesFrom(h, w, actions[k - 1]);
    if w.pc == At(h, actions, k).pc {
      e, m := RecordedMeansSucceeded(h, actions, k - 1);
    } else {
      m := k - 1;
      e := InStageWasEntered(h, actions, m);
      LeaveIsExact(h, w, true);
    }
  }

  // ---------------------------------------------------------------- a run can be finished

  /** Check what is recorded, then execute the other stages with success, then finish. */
  function Remaining(checks: nat, stages: nat): seq<Action>
    decreases checks, stages
  {
    if checks > 0 then [CheckStage] + Remaining(checks - 1, stages)
    else if stages > 0 then [Enter, Leave(true), SaveRecord] + Remaining(0, stages - 1)
    else [Finish]
  }

  /** No stage from the `i`th on has used up its thousand attempts. */
  ghost predicate AttemptsLeft(w: World, i: nat) {
    forall s: nat :: i <= s < |Plan(w)| ==> 1000 !in Attempts(w, s)
  }

  lemma SameAttemptsLeft(w: World, u: World, i: nat)
    requires AttemptsLeft(w, i) && u.manifest == w.manifest && u.attempts == w.attempts
    ensures AttemptsLeft(u, i) && |Plan(u)| == |Plan(w)|
  {
    assert forall s: nat :: Attempts(u, s) == Attempts(w, s);
  }

  lemma CheckedStep(h: Hashes, w: World) returns (u: World)
    requires Inv(w) && Intact(h, w) && w.pc.Running? && w.pc.i < |w.pc.completed|
    ensures u == Step(h, w, CheckStage) == w.(pc := Running(w.pc.i + 1, w.pc.completed))
    ensures Inv(u) && Intact(h, u)
  {
    CheckIsExact(h, w);
    assert Sound(h, w, Recorded(w)[w.pc.i], w.pc.i);
    StepKeepsIntact(h, w, CheckStage);
    u := Step(h, w, CheckStage);
  }

  lemma FirstStep(h: Hashes, w: World, a: Action, rest: seq<Action>)
    ensures Run(h, w, [a] + rest) == Run(h, Step(h, w, a), rest)
  {
    assert ([a] + rest)[1..] == rest;
  }

  lemma ThreeSteps(h: Hashes, w: World, a: Action, b: Action, c: Action, rest: seq<Action>)
    ensures Run(h, w, [a, b, c] + rest) == Run(h, Step(h, Step(h, Step(h, w, a), b), c), rest)
  {
    assert [a, b, c] + rest == [a] + ([b] + ([c] + rest));
    FirstStep(h, w, a, [b] + ([c] + rest));
    FirstStep(h, Step(h, w, a), b, [c] + rest);
    FirstStep(h, Step(h, Step(h, w, a), b), c, rest);
  }

  lemma LastStep(h: Hashes, w: World)
    requires AtEnd(w)
    ensures HasPassed(Run(h, w, [Finish]))
  {
    FirstStep(h, w, Finish, []);
  }

  lemma AttemptsAreNumbered(w: World, i: nat) returns (n: nat)
    requires Inv(w) && 1000 !in Attempts(w, i)
    ensures n < 1000 && Attempts(w, i) == Upto(n)
  {
    if i in w.attempts {
      n :| n <= 1000 && w.attempts[i] == Upto(n);
    } else {
      n := 0;
    }
  }

  lemma EnteredStep(h: Hashes, w: World) returns (v: World)
    requires Inv(w) && Intact(h, w) && w.pc.Running? && |w.pc.completed| <= w.pc.i < |Plan(w)|
    requires AttemptsLeft(w, w.pc.i)
    ensures v == Step(h, w, Enter) && Inv(v) && Intact(h, v) && v.manifest == w.manifest
    ensures v.pc.InStage? && v.pc.i == w.pc.i && v.pc.completed == w.pc.completed && AttemptsLeft(v, w.pc.i + 1)
  {
    var n := AttemptsAreNumbered(w, w.pc.i);
    EnterIsExact(h, w, n);
    StepKeepsIntact(h, w, Enter);
    v := Step(h, w, Enter);
    assert forall s: nat :: s > w.pc.i ==> Attempts(v, s) == Attempts(w, s);
  }

  lemma SavedStep(h: Hashes, v: World) returns (u: World)
    requires Inv(v) && Intact(h, v) && v.pc.InStage?
    ensures u == Step(h, Step(h, v, Leave(true)), SaveRecord) && Inv(u) && Intact(h, u) && u.manifest == v.manifest
    ensures u.attempts == v.attempts && u.pc == Running(v.pc.i + 1, v.pc.completed)
  {
    LeaveIsExact(h, v, true);
    StepKeepsIntact(h, v, Leave(true));
    var x := Step(h, v, Leave(true));
    SaveIsExact(h, x);
    StepKeepsIntact(h, x, SaveRecord);
    u := Step(h, x, SaveRecord);
  }

  /** At stage `i`, with `checks` records to check and `stages` stages to execute. */
  ghost predicate Remains(h: Hashes, w: World, checks: nat, stages: nat) {
    && Inv(w) && Intact(h, w) && w.pc.Running? && w.pc.i + checks + stages == |Plan(w)|
    && checks == (if w.pc.i < |w.pc.completed| then |w.pc.completed| - w.pc.i else 0)
    && AttemptsLeft(w, w.pc.i + checks)
  }

  lemma CheckLeavesLess(h: Hashes, w: World, checks: nat, stages: nat)
    requires checks > 0 && Remains(h, w, checks, stages)
    ensures Remains(h, Step(h, w, CheckStage), checks - 1, stages)
  {
    var u := CheckedStep(h, w);
    SameAttemptsLeft(w, u, w.pc.i + checks);
  }

  lemma StageLeavesLess(h: Hashes, w: World, stages: nat)
    requires stages > 0 && Remains(h, w, 0, stages)
    ensures Remains(h, Step(h, Step(h, Step(h, w, Enter), Leave(true)), SaveRecord), 0, stages - 1)
  {
    var v := EnteredStep(h, w);
    var u := SavedStep(h, v);
    SameAttemptsLeft(v, u, u.pc.i);
  }

  lemma {:induction false} RunnerFinishes(h: Hashes, w: World, checks: nat, stages: nat)
    requires Remains(h, w, checks, stages)
    ensures HasPassed(Run(h, w, Remaining(checks, stages)))
    decreases checks, stages
  {
    if checks > 0 {
      FirstStep(h, w, CheckStage, Remaining(checks - 1, stages));
      CheckLeavesLess(h, w, checks, stages);
      RunnerFinishes(h, Step(h, w, CheckStage), checks - 1, stages);
    } else if stages > 0 {
      ThreeSteps(h, w, Enter, Leave(true), SaveRecord, Remaining(0, stages - 1));
      StageLeavesLess(h, w, stages);
      RunnerFinishes(h, Step(h, Step(h, Step(h, w, Enter), Leave(true)), SaveRecord), 0, stages - 1);
    } else {
      LastStep(h, w);
    }
  }

  lemma ResumeLeaves(h: Hashes, w: World)
    requires Inv(w) && Intact(h, w) && w.pc.Idle? && w.report.Some? && Plan(w) != []
    requires AttemptsLeft(w, |Recorded(w)|)
    ensures var again := Step(h, w, Resume(Plan(w), w.manifest.value.fingerprint));
            Remains(h, again, |Recorded(w)|, |Plan(w)| - |Recorded(w)|)
  {
    var resume := Resume(Plan(w), w.manifest.value.fingerprint);
    StartsExactly(h, w, resume);
    StepKeepsIntact(h, w, resume);
    SameAttemptsLeft(w, Step(h, w, resume), |Recorded(w)|);
  }

  /** Wherever a run without tampering was interrupted, resuming it with its own plan and fingerprint
      finishes it: each record is only checked, each other stage is executed once, and it passes. */
  lemma ResumedRunPasses(h: Hashes, actions: seq<Action>, w: World)
    requires forall i :: 0 <= i < |actions| ==> Sensible(actions[i]) && !actions[i].Tamper?
    requires w == Run(h, EMPTY, actions) && w.pc.Idle? && w.report.Some? && Plan(w) != []
    requires AttemptsLeft(w, |Recorded(w)|)
    ensures w.manifest.Some? && |Recorded(w)| <= |Plan(w)|
    ensures var again := Step(h, w, Resume(Plan(w), w.manifest.value.fingerprint));
            HasPassed(Run(h, again, Remaining(|Recorded(w)|, |Plan(w)| - |Recorded(w)|)))
  {
    EmptyIsIntact(h);
    UntamperedRecordsValidate(h, EMPTY, actions);
    ResumeLeaves(h, w);
    RunnerFinishes(h, Step(h, w, Resume(Plan(w), w.manifest.value.fingerprint)), |Recorded(w)|,
                   |Plan(w)| - |Recorded(w)|);
  }
}
