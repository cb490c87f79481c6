/** Resetting a storage generation by renames with rollback (src/cli/mod.rs).

A directory is a map from names to contents. `fails` holds the numbers of the file system calls that
fail; a call that fails changes nothing. No other process writes to the directory.
*/
module StorageReset {
  import opened Common

  /** What inspecting a name tells. */
  datatype Presence = Present | Absent | Unknown

  /** What rollback reports: the members it could not move back, and whether the sync failed. */
  datatype Report = Report(unrestored: seq<string>, syncFailed: bool)

  /** What the caller is told. A failed inspection is told as the bare error, which names no member. */
  datatype Outcome =
    | NoDirectory
    | Uninspectable
    | RolledBack(report: Report)
    | Committed

  /** The members that the caller is told are still in quarantine. */
  function Reported(o: Outcome): seq<string> {
    if o.RolledBack? then o.report.unrestored else []
  }

  /** How a reset ends: what is told, and what is left in quarantine unless it committed. */
  datatype End = End(outcome: Outcome, left: seq<string>)

  const DONE := End(Committed, [])

  function Undone(report: Report): End {
    End(RolledBack(report), report.unrestored)
  }

  function Stranded(moved: seq<string>): End {
    End(Uninspectable, moved)
  }

  const MEMBERS: seq<string> :=
    ["CONTROL.0", "CONTROL.1", "catalog", "manifests", "artifacts", "wal", "staging", "quarantine"]

  const PREFIX := ".radixdb-reset-"

  /** The name a member is moved to; `tag` stands for process id and time. */
  function Quarantine(member: string, tag: string): string {
    PREFIX + member + "-" + tag
  }

  lemma QuarantineInjective(a: string, b: string, tag: string)
    requires Quarantine(a, tag) == Quarantine(b, tag)
    ensures a == b
  {
    var q := Quarantine(a, tag);
    assert |a| == |b|;
    assert a == q[|PREFIX|..|PREFIX| + |a|];
    assert b == q[|PREFIX|..|PREFIX| + |b|];
  }

  /** The members that a reset moves, in this order, and the names it moves them to. */
  datatype Scheme = Scheme(members: seq<string>, quarantine: string -> string)

  /** Members are distinct, and so are their quarantine names, which are no members. */
  ghost predicate Sound(g: Scheme) {
    && Unique(g.members)
    && (forall a, b :: g.quarantine(a) == g.quarantine(b) ==> a == b)
    && (forall m :: g.quarantine(m) !in g.members)
  }

  /** No name in the directory is a quarantine name of this run. */
  predicate Unused(g: Scheme, names: map<string, int>) {
    forall m :: m in g.members ==> g.quarantine(m) !in names
  }

  /** `now` is `before` with exactly the members `moved` under their quarantine names. */
  ghost predicate Moved(g: Scheme, before: map<string, int>, now: map<string, int>, moved: set<string>) {
    && (forall m :: m in moved ==> m in before && m in g.members && m !in now)
    && (forall m :: m in moved ==> g.quarantine(m) in now && now[g.quarantine(m)] == before[m])
    && (forall n :: n in before && n !in moved ==> n in now && now[n] == before[n])
    && (forall n :: n in now && n !in before ==> n in Quarantines(g, moved))
  }

  ghost function Quarantines(g: Scheme, moved: set<string>): set<string> {
    set m | m in moved :: g.quarantine(m)
  }

  function Renamed(names: map<string, int>, from: string, to: string): map<string, int>
    requires from in names
  {
    (names - {from})[to := names[from]]
  }

  lemma MoveOut(g: Scheme, before: map<string, int>, now: map<string, int>, moved: set<string>, m: string)
    requires Sound(g)
    requires Moved(g, before, now, moved) && Unused(g, before) && m in g.members && m in now && m !in moved
    ensures Moved(g, before, Renamed(now, m, g.quarantine(m)), moved + {m})
  {
    var q := g.quarantine(m);
    forall x | x in moved ensures g.quarantine(x) in Quarantines(g, moved + {m}) {}
    assert Quarantines(g, moved) <= Quarantines(g, moved + {m});
    assert m in before;
    assert q in Quarantines(g, moved + {m});
  }

  lemma MoveBack(g: Scheme, before: map<string, int>, now: map<string, int>, moved: set<string>, m: string)
    requires Sound(g) && Moved(g, before, now, moved) && Unused(g, before) && m in moved
    ensures g.quarantine(m) in now && m !in now
    ensures Moved(g, before, Renamed(now, g.quarantine(m), m), moved - {m})
  {
    BackNames(g, before, now, moved, m);
  }

  lemma BackNames(g: Scheme, before: map<string, int>, now: map<string, int>, moved: set<string>, m: string)
    requires Moved(g, before, now, moved) && m in moved
    ensures forall n :: n in Renamed(now, g.quarantine(m), m) && n !in before ==> n in Quarantines(g, moved - {m})
  {
    var after := Renamed(now, g.quarantine(m), m);
    forall n | n in after && n !in before ensures n in Quarantines(g, moved - {m}) {
      var x :| x in moved && n == g.quarantine(x);
      assert x in moved - {m};
    }
  }

  /** Nothing is left moved exactly when the directory is as it was. */
  lemma NothingMoved(g: Scheme, before: map<string, int>, now: map<string, int>, moved: seq<string>)
    requires Moved(g, before, now, Elements(moved))
    ensures moved == [] <==> now == before
  {
    if moved == [] {
      assert now.Keys == before.Keys;
    } else {
      assert moved[0] in Elements(moved);
    }
  }

  /** What is still moved when rollback has come down to member `i`. */
  ghost function StillMoved(staged: seq<string>, i: nat, failures: seq<string>): set<string>
    requires i <= |staged|
  {
    Elements(staged[..i]) + Elements(failures)
  }

  ghost predicate Remaining(staged: seq<string>, i: nat, failures: seq<string>) {
    i <= |staged| && Elements(failures) <= Elements(staged[i..])
  }

  lemma TakeLast(staged: seq<string>, i: nat, failures: seq<string>)
    requires i < |staged| && Unique(staged) && Remaining(staged, i + 1, failures)
    ensures staged[i] in StillMoved(staged, i + 1, failures)
    ensures Remaining(staged, i, failures) && Remaining(staged, i, failures + [staged[i]])
    ensures StillMoved(staged, i, failures) == StillMoved(staged, i + 1, failures) - {staged[i]}
    ensures StillMoved(staged, i, failures + [staged[i]]) == StillMoved(staged, i + 1, failures)
  {
    assert staged[..i + 1] == staged[..i] + [staged[i]];
    assert staged[i..] == [staged[i]] + staged[i + 1..];
    assert staged[i] !in staged[..i] && staged[i] !in staged[i + 1..];
    assert staged[i] in Elements(staged[..i + 1]);
  }

  lemma AllRemain(staged: seq<string>)
    ensures Remaining(staged, |staged|, []) && StillMoved(staged, |staged|, []) == Elements(staged)
  {
    assert staged[..|staged|] == staged;
  }

  lemma NoneRemain(staged: seq<string>, failures: seq<string>)
    ensures StillMoved(staged, 0, failures) == Elements(failures)
  {
  }

  /** The members before the i-th that were present have been staged, in order. */
  ghost predicate StagedSoFar(g: Scheme, before: map<string, int>, staged: seq<string>, i: nat)
    requires i <= |g.members|
  {
    && Unique(staged)
    && Elements(staged) == set m | m in g.members[..i] && m in before
  }

  /** Every member is gone, every other name is as before, and a quarantine name that is left still
      holds its member's whole content. */
  ghost predicate Cleared(g: Scheme, before: map<string, int>, now: map<string, int>) {
    && (forall m :: m in g.members ==> m !in now)
    && (forall n :: n in before && n !in g.members ==> n in now && now[n] == before[n])
    && (forall n :: n in now && n !in before ==>
          exists m :: m in g.members && m in before && n == g.quarantine(m) && now[n] == before[m])
  }

  lemma OneMoreMember(g: Scheme, before: map<string, int>, i: nat)
    requires Sound(g)
    requires i < |g.members|
    ensures (set m | m in g.members[..i + 1] && m in before)
         == (set m | m in g.members[..i] && m in before) + (if g.members[i] in before then {g.members[i]} else {})
    ensures g.members[i] !in g.members[..i]
  {
    assert g.members[..i + 1] == g.members[..i] + [g.members[i]];
  }

  lemma StageMember(g: Scheme, before: map<string, int>, now: map<string, int>, staged: seq<string>, i: nat)
    requires Sound(g)
    requires i < |g.members| && StagedSoFar(g, before, staged, i) && g.members[i] in now
    requires Unused(g, before) && Moved(g, before, now, Elements(staged))
    ensures Moved(g, before, Renamed(now, g.members[i], g.quarantine(g.members[i])), Elements(staged + [g.members[i]]))
    ensures StagedSoFar(g, before, staged + [g.members[i]], i + 1)
  {
    var m := g.members[i];
    assert m in g.members;
    assert Elements(staged + [m]) == Elements(staged) + {m};
    MoveOut(g, before, now, Elements(staged), m);
    OneMoreMember(g, before, i);
    assert m in Elements(staged + [m]);
    assert m !in Elements(staged);
    assert m !in staged;
  }

  lemma PresentBefore(g: Scheme, before: map<string, int>, now: map<string, int>, staged: seq<string>, i: nat)
    requires Sound(g)
    requires i < |g.members| && StagedSoFar(g, before, staged, i) && Moved(g, before, now, Elements(staged))
    ensures g.members[i] in now <==> g.members[i] in before
  {
    OneMoreMember(g, before, i);
    assert g.members[i] !in Elements(staged);
    assert g.members[i] in g.members;
    assert g.members[i] !in Quarantines(g, Elements(staged));
  }

  lemma AllMoved(g: Scheme, before: map<string, int>, now: map<string, int>, staged: seq<string>)
    requires Sound(g)
    requires StagedSoFar(g, before, staged, |g.members|) && Moved(g, before, now, Elements(staged)) && Unused(g, before)
    ensures Cleared(g, before, now)
  {
    assert g.members[..|g.members|] == g.members;
    forall m | m in g.members ensures m !in now {
      assert m in before ==> m in Elements(staged);
      assert m !in Quarantines(g, Elements(staged));
    }
    forall n | n in now && n !in before
      ensures exists m :: m in g.members && m in before && n == g.quarantine(m) && now[n] == before[m]
    {
      var m :| m in Elements(staged) && n == g.quarantine(m);
      assert m in g.members && m in before && now[n] == before[m];
    }
  }

  lemma StagedAreMembers(g: Scheme, before: map<string, int>, staged: seq<string>)
    requires StagedSoFar(g, before, staged, |g.members|)
    ensures forall i :: 0 <= i < |staged| ==> staged[i] in g.members
  {
    forall i | 0 <= i < |staged| ensures staged[i] in g.members {
      assert staged[i] in Elements(staged);
    }
  }

  lemma RemovalKeepsCleared(g: Scheme, before: map<string, int>, now: map<string, int>, m: string)
    requires Cleared(g, before, now) && Unused(g, before) && m in g.members
    ensures Cleared(g, before, now - {g.quarantine(m)})
  {
    var q := g.quarantine(m);
    assert q !in before;
    var after := now - {q};
    forall n | n in after && n !in before
      ensures exists x :: x in g.members && x in before && n == g.quarantine(x) && after[n] == before[x]
    {
      var x :| x in g.members && x in before && n == g.quarantine(x) && now[n] == before[x];
      assert after[n] == before[x];
    }
  }

  lemma OneMoreQuarantine(g: Scheme, staged: seq<string>, i: nat)
    requires i < |staged|
    ensures Quarantines(g, Elements(staged[..i + 1])) ==
              Quarantines(g, Elements(staged[..i])) + {g.quarantine(staged[i])}
  {
    assert staged[..i + 1] == staged[..i] + [staged[i]];
    assert Elements(staged[..i + 1]) == Elements(staged[..i]) + {staged[i]};
  }

  /** Exactly the names that are no members, with their contents. */
  ghost predicate NothingLeft(g: Scheme, before: map<string, int>, now: map<string, int>) {
    && (forall n :: n in now <==> n in before && n !in g.members)
    && (forall n :: n in now ==> now[n] == before[n])
  }

  lemma RemovedAll(g: Scheme, before: map<string, int>, moved: map<string, int>, now: map<string, int>,
                   staged: seq<string>)
    requires Unused(g, before) && Moved(g, before, moved, Elements(staged)) && Cleared(g, before, now)
    requires forall n :: n in now <==> n in moved && n !in Quarantines(g, Elements(staged))
    ensures NothingLeft(g, before, now)
  {
    forall n | n in before && n !in g.members ensures n in now {
      assert n !in Elements(staged);
    }
  }

  // ---------------------------------------------------------------- which call fails

  /** None of the calls from `a` up to `b` fails. */
  predicate Quiet(fails: set<nat>, a: nat, b: nat) {
    forall k :: a <= k < b ==> k !in fails
  }

  /** The report of a rollback whose first call has number `k`. Every member takes two inspections
      and, if both succeed, one rename. */
  function Undo(staged: seq<string>, fails: set<nat>, k: nat): Report {
    UndoFirst(staged, |staged|, fails, k)
  }

  function UndoFirst(staged: seq<string>, n: nat, fails: set<nat>, k: nat): Report
    requires n <= |staged|
    decreases n
  {
    if n == 0 then Report([], k in fails)
    else
      var inspected := k !in fails && k + 1 !in fails;
      var rest := UndoFirst(staged, n - 1, fails, if inspected then k + 3 else k + 2);
      if inspected && k + 2 !in fails then rest
      else Report([staged[n - 1]] + rest.unrestored, rest.syncFailed)
  }

  /** A rollback leaves nothing behind exactly when none of its inspections and renames fails. */
  lemma {:induction false} UndoIsComplete(staged: seq<string>, n: nat, fails: set<nat>, k: nat)
    requires n <= |staged|
    ensures UndoFirst(staged, n, fails, k).unrestored == [] <==> Quiet(fails, k, k + 3 * n)
    decreases n
  {
    if n > 0 {
      UndoIsComplete(staged, n - 1, fails, k + 3);
      assert Quiet(fails, k, k + 3 * n) <==>
             k !in fails && k + 1 !in fails && k + 2 !in fails && Quiet(fails, k + 3, k + 3 * n);
    }
  }

  /** The members among the first `i` that are present, in order. */
  function Staged(g: Scheme, before: map<string, int>, i: nat): seq<string>
    requires i <= |g.members|
  {
    if i == 0 then []
    else if g.members[i - 1] in before then Staged(g, before, i - 1) + [g.members[i - 1]]
    else Staged(g, before, i - 1)
  }

  /** What the transition from member `i` on comes to when its next call has number `k`. */
  function Forward(g: Scheme, before: map<string, int>, fails: set<nat>, i: nat, k: nat): End
    requires i <= |g.members|
    decreases |g.members| - i
  {
    if i == |g.members| then
      if k in fails then Undone(Undo(Staged(g, before, i), fails, k + 1)) else DONE
    else if k in fails then Stranded(Staged(g, before, i))
    else if g.members[i] !in before then Forward(g, before, fails, i + 1, k + 1)
    else
      var end := MoveEnd(Staged(g, before, i), Staged(g, before, i + 1), fails, k + 1);
      if end.outcome.Committed? then Forward(g, before, fails, i + 1, k + 3) else end
  }

  function ResetEnd(g: Scheme, before: map<string, int>, fails: set<nat>, k: nat): End {
    if k in fails then End(NoDirectory, []) else Forward(g, before, fails, 0, k + 1)
  }

  /** What a call of the transition does. */
  datatype Role = Create | Inspect(i: nat) | Move(i: nat) | Hook(i: nat) | Sync

  /** The role of the `n`-th call from the inspection of member `i` on. */
  function RoleFrom(g: Scheme, before: map<string, int>, i: nat, n: nat): (r: Role)
    requires i <= |g.members|
    ensures !r.Create? && (!r.Sync? ==> r.i < |g.members|)
    decreases |g.members| - i
  {
    if i == |g.members| then Sync
    else if n == 0 then Inspect(i)
    else if g.members[i] !in before then RoleFrom(g, before, i + 1, n - 1)
    else if n == 1 then Move(i)
    else if n == 2 then Hook(i)
    else RoleFrom(g, before, i + 1, n - 3)
  }

  /** The role of the `n`-th call of a reset. */
  function RoleOf(g: Scheme, before: map<string, int>, n: nat): (r: Role)
    ensures !r.Create? && !r.Sync? ==> r.i < |g.members|
  {
    if n == 0 then Create else RoleFrom(g, before, 0, n - 1)
  }

  /** How many calls there are from member `i` up to the sync, which is not counted. */
  function CallsFrom(g: Scheme, before: map<string, int>, i: nat): nat
    requires i <= |g.members|
    decreases |g.members| - i
  {
    if i == |g.members| then 0
    else (if g.members[i] in before then 3 else 1) + CallsFrom(g, before, i + 1)
  }

  /** The sync is the last call that can make a reset fail. */
  function LastCall(g: Scheme, before: map<string, int>): nat {
    1 + CallsFrom(g, before, 0)
  }

  /** The members that have been moved when a call of this role fails. */
  function StagedWhen(g: Scheme, before: map<string, int>, r: Role): seq<string>
    requires !r.Create? && !r.Sync? ==> r.i < |g.members|
  {
    match r
    case Create => []
    case Inspect(i) => Staged(g, before, i)
    case Move(i) => Staged(g, before, i)
    case Hook(i) => Staged(g, before, i + 1)
    case Sync => Staged(g, before, |g.members|)
  }

  /** What a reset whose call number `f` has this role and is the first to fail comes to. */
  function FailedAt(g: Scheme, before: map<string, int>, fails: set<nat>, r: Role, f: nat): End
    requires !r.Create? && !r.Sync? ==> r.i < |g.members|
  {
    match r
    case Create => End(NoDirectory, [])
    case Inspect(_) => Stranded(StagedWhen(g, before, r))
    case _ => Undone(Undo(StagedWhen(g, before, r), fails, f + 1))
  }

  lemma {:induction false} ForwardFailsAt(g: Scheme, before: map<string, int>, fails: set<nat>, i: nat, k: nat, n: nat)
    requires i <= |g.members| && n <= CallsFrom(g, before, i) && Quiet(fails, k, k + n) && k + n in fails
    ensures Forward(g, before, fails, i, k) == FailedAt(g, before, fails, RoleFrom(g, before, i, n), k + n)
    decreases |g.members| - i
  {
    if i < |g.members| && n > 0 {
      assert k !in fails;
      if g.members[i] !in before {
        ForwardFailsAt(g, before, fails, i + 1, k + 1, n - 1);
      } else if n > 2 {
        assert k + 1 !in fails && k + 2 !in fails;
        ForwardFailsAt(g, before, fails, i + 1, k + 3, n - 3);
      } else {
        assert n == 2 ==> k + 1 !in fails;
      }
    }
  }

  lemma {:induction false} ForwardCommits(g: Scheme, before: map<string, int>, fails: set<nat>, i: nat, k: nat)
    requires i <= |g.members| && Quiet(fails, k, k + CallsFrom(g, before, i) + 1)
    ensures Forward(g, before, fails, i, k) == DONE
    decreases |g.members| - i
  {
    assert k !in fails;
    if i < |g.members| && g.members[i] !in before {
      ForwardCommits(g, before, fails, i + 1, k + 1);
    } else if i < |g.members| {
      assert k + 1 !in fails && k + 2 !in fails;
      ForwardCommits(g, before, fails, i + 1, k + 3);
    }
  }

  /** The first failing call, and nothing else about the calls before it, decides how a reset ends. */
  lemma FirstFaultDecides(g: Scheme, before: map<string, int>, fails: set<nat>, k: nat, n: nat)
    ensures Quiet(fails, k, k + LastCall(g, before) + 1) ==> ResetEnd(g, before, fails, k) == DONE
    ensures FirstFails(g, before, fails, k, n) ==>
              ResetEnd(g, before, fails, k) == FailedAt(g, before, fails, RoleOf(g, before, n), k + n)
  {
    if Quiet(fails, k, k + LastCall(g, before) + 1) {
      assert k !in fails;
      ForwardCommits(g, before, fails, 0, k + 1);
    }
    if FirstFails(g, before, fails, k, n) && n > 0 {
      assert k !in fails;
      ForwardFailsAt(g, before, fails, 0, k + 1, n - 1);
    }
  }

  /** The exact condition for a reset to be all or nothing, as its caller sees it: no call fails; or
      the first that fails is an inspection, or the creation, before any member was moved; or it is
      another one and the inspections and renames of the rollback all succeed. */
  ghost predicate Recoverable(g: Scheme, before: map<string, int>, fails: set<nat>, k: nat) {
    forall n: nat :: FirstFails(g, before, fails, k, n) ==> Recovers(g, before, fails, RoleOf(g, before, n), k + n)
  }

  /** The `n`-th call of a reset that starts with call `k` is the first to fail. */
  predicate FirstFails(g: Scheme, before: map<string, int>, fails: set<nat>, k: nat, n: nat) {
    n <= LastCall(g, before) && Quiet(fails, k, k + n) && k + n in fails
  }

  predicate Recovers(g: Scheme, before: map<string, int>, fails: set<nat>, r: Role, f: nat)
    requires !r.Create? && !r.Sync? ==> r.i < |g.members|
  {
    var moved := |StagedWhen(g, before, r)|;
    if r.Create? || r.Inspect? then moved == 0 else Quiet(fails, f + 1, f + 1 + 3 * moved)
  }

  lemma {:induction false} FirstFault(fails: set<nat>, k: nat, m: nat) returns (n: nat)
    ensures n <= m && Quiet(fails, k, k + n) && (n < m ==> k + n in fails)
  {
    n := 0;
    while n < m && k + n !in fails
      invariant n <= m && Quiet(fails, k, k + n)
    {
      n := n + 1;
    }
  }

  lemma CleanExactlyWhenRecoverable(g: Scheme, before: map<string, int>, fails: set<nat>, k: nat)
    ensures ResetEnd(g, before, fails, k).left == [] <==> Recoverable(g, before, fails, k)
  {
    var n := FirstFault(fails, k, LastCall(g, before) + 1);
    FirstFaultDecides(g, before, fails, k, n);
    if n <= LastCall(g, before) {
      assert FirstFails(g, before, fails, k, n);
      OnlyFirstFault(g, before, fails, k, n);
      var staged := StagedWhen(g, before, RoleOf(g, before, n));
      UndoIsComplete(staged, |staged|, fails, k + n + 1);
    }
  }

  /** The code is not all or nothing: with the first member present, the fifth call inspects the
      second; if it fails, the first stays in quarantine and no rollback takes place. */
  lemma FailedInspectionStrandsAMember(g: Scheme, before: map<string, int>, fails: set<nat>, k: nat)
    requires |g.members| > 1 && g.members[0] in before && Quiet(fails, k, k + 4) && k + 4 in fails
    ensures ResetEnd(g, before, fails, k) == Stranded([g.members[0]]) && !Recoverable(g, before, fails, k)
  {
    assert k !in fails && k + 1 !in fails && k + 2 !in fails && k + 3 !in fails;
    assert Staged(g, before, 0) == [] && Staged(g, before, 1) == [g.members[0]];
    assert Forward(g, before, fails, 1, k + 4) == Stranded([g.members[0]]);
    CleanExactlyWhenRecoverable(g, before, fails, k);
  }

  /** The first call that fails is an inspection, and a member has been moved before it. */
  ghost predicate Strands(g: Scheme, before: map<string, int>, fails: set<nat>, k: nat) {
    exists n: nat :: FirstFails(g, before, fails, k, n) && StrandsAt(g, before, RoleOf(g, before, n))
  }

  predicate StrandsAt(g: Scheme, before: map<string, int>, r: Role)
    requires !r.Create? && !r.Sync? ==> r.i < |g.members|
  {
    r.Inspect? && StagedWhen(g, before, r) != []
  }

  /** Every member that is not where it was is reported. */
  ghost predicate TellsAll(before: map<string, int>, now: map<string, int>, o: Outcome) {
    forall m :: m in before && m !in now ==> m in Reported(o)
  }

  /** What is left in quarantine is what is reported, exactly unless an inspection failed after a move;
      then nothing is reported although something is left. */
  lemma LeftIsReported(g: Scheme, before: map<string, int>, fails: set<nat>, k: nat)
    ensures var end := ResetEnd(g, before, fails, k);
            && (end.left == Reported(end.outcome) <==> !Strands(g, before, fails, k))
            && (Strands(g, before, fails, k) ==> end.outcome.Uninspectable? && end.left != [])
  {
    var n := FirstFault(fails, k, LastCall(g, before) + 1);
    FirstFaultDecides(g, before, fails, k, n);
    if n <= LastCall(g, before) {
      OnlyFirstFault(g, before, fails, k, n);
      assert FirstFails(g, before, fails, k, n);
    }
  }

  lemma OnlyFirstFault(g: Scheme, before: map<string, int>, fails: set<nat>, k: nat, n: nat)
    requires FirstFails(g, before, fails, k, n)
    ensures forall m: nat :: FirstFails(g, before, fails, k, m) ==> m == n
  {
    forall m: nat | FirstFails(g, before, fails, k, m) ensures m == n {
      assert m < n ==> k + m !in fails;
      assert n < m ==> k + n !in fails;
    }
  }

  lemma Conclude(g: Scheme, before: map<string, int>, now: map<string, int>, fails: set<nat>, k: nat,
                 outcome: Outcome, left: seq<string>)
    requires End(outcome, left) == ResetEnd(g, before, fails, k) && Left(g, before, now, left)
    ensures TellsAll(before, now, outcome) <==> !Strands(g, before, fails, k)
    ensures left == [] <==> now == before
  {
    NothingMoved(g, before, now, left);
    LeftIsReported(g, before, fails, k);
    forall m | m in before && m !in now ensures m in left {
      assert m in Elements(left);
    }
    if Strands(g, before, fails, k) {
      assert left[0] in Elements(left);
    }
  }

  // ---------------------------------------------------------------- the transition

  lemma ForwardOne(g: Scheme, before: map<string, int>, fails: set<nat>, i: nat, k: nat)
    requires i < |g.members|
    ensures k in fails ==> Forward(g, before, fails, i, k) == Stranded(Staged(g, before, i))
    ensures k !in fails && g.members[i] !in before ==>
              Forward(g, before, fails, i, k) == Forward(g, before, fails, i + 1, k + 1)
              && Staged(g, before, i + 1) == Staged(g, before, i)
    ensures k !in fails && g.members[i] in before ==>
              var grown := Staged(g, before, i) + [g.members[i]];
              var end := MoveEnd(Staged(g, before, i), grown, fails, k + 1);
              && Staged(g, before, i + 1) == grown
              && Forward(g, before, fails, i, k) ==
                   if end.outcome.Committed? then Forward(g, before, fails, i + 1, k + 3) else end
  {
  }

  /** What moving a member, with a rename and a hook from call `k` on, comes to. */
  function MoveEnd(staged: seq<string>, grown: seq<string>, fails: set<nat>, k: nat): End {
    if k in fails then Undone(Undo(staged, fails, k + 1))
    else if k + 1 in fails then Undone(Undo(grown, fails, k + 2))
    else DONE
  }

  /** Exactly those members are in quarantine, whole, and every other name is as it was. */
  ghost predicate Left(g: Scheme, before: map<string, int>, now: map<string, int>, left: seq<string>) {
    Moved(g, before, now, Elements(left))
  }

  function After(failures: seq<string>, r: Report): Report {
    Report(failures + r.unrestored, r.syncFailed)
  }

  /** Rollback has dealt with member `i`; the report it is heading for has not changed. */
  lemma UndoOne(staged: seq<string>, fails: set<nat>, i: nat, k: nat, failures: seq<string>,
                restored: bool, next: nat, more: seq<string>)
    requires i < |staged| && Tried(fails, k, restored, next)
    requires more == if restored then failures else failures + [staged[i]]
    ensures After(failures, UndoFirst(staged, i + 1, fails, k)) == After(more, UndoFirst(staged, i, fails, next))
  {
  }

  /** The calls for one member started with number `k`, and the next call has number `next`. */
  predicate Tried(fails: set<nat>, k: nat, restored: bool, next: nat) {
    var inspected := k !in fails && k + 1 !in fails;
    (restored <==> inspected && k + 2 !in fails) && next == if inspected then k + 3 else k + 2
  }

  lemma {:induction false} StagedIsStaged(g: Scheme, before: map<string, int>, i: nat)
    requires Sound(g)
    requires i <= |g.members|
    ensures StagedSoFar(g, before, Staged(g, before, i), i)
  {
    if i > 0 {
      StagedIsStaged(g, before, i - 1);
      OneMoreMember(g, before, i - 1);
      assert g.members[i - 1] in before ==> g.members[i - 1] !in Elements(Staged(g, before, i - 1));
      assert g.members[i - 1] in before ==> g.members[i - 1] !in Staged(g, before, i - 1);
      assert g.members[i - 1] in before ==>
             Elements(Staged(g, before, i)) == Elements(Staged(g, before, i - 1)) + {g.members[i - 1]};
    }
  }

  class Directory {
    const scheme: Scheme
    const fails: set<nat>
    var names: map<string, int>

    /** The number of the next call. */
    var calls: nat

    constructor (scheme: Scheme, names: map<string, int>, fails: set<nat>)
      ensures this.scheme == scheme && this.names == names && this.fails == fails && calls == 0
    {
      this.scheme, this.names, this.fails, calls := scheme, names, fails, 0;
    }

    /** A call without effect on the names: creating the directory, the hook, a sync. */
    method Call() returns (ok: bool)
      modifies this`calls
      ensures calls == old(calls) + 1 && (ok <==> old(calls) !in fails)
    {
      ok := calls !in fails;
      calls := calls + 1;
    }

    /** `storage_member_exists`, which may also fail. */
    method Exists(name: string) returns (r: Presence)
      modifies this`calls
      ensures calls == old(calls) + 1
      ensures r == if old(calls) in fails then Unknown else if name in names then Present else Absent
    {
      var ok := Call();
      r := if !ok then Unknown else if name in names then Present else Absent;
    }

    method Rename(from: string, to: string) returns (ok: bool)
      modifies this
      ensures calls == old(calls) + 1 && (ok <==> old(calls) !in fails && from in old(names))
      ensures names == if ok then Renamed(old(names), from, to) else old(names)
    {
      ok := Call();
      ok := ok && from in names;
      if ok {
        names := Renamed(names, from, to);
      }
    }

    /** Looks at a quarantine name and removes it; a failure of either call leaves it where it is. */
    method RemoveQuarantine(name: string)
      modifies this
      ensures calls == old(calls) + if old(calls) !in fails && name in old(names) then 2 else 1
      ensures names == if old(calls) !in fails && old(calls) + 1 !in fails then old(names) - {name} else old(names)
    {
      var present := Exists(name);
      if present.Present? {
        var ok := Call();
        if ok {
          names := names - {name};
        }
      }
    }

    /** One step of rollback: moves the member back, or leaves everything as it is. */
    method RestoreOne(m: string, ghost before: map<string, int>, ghost moved: set<string>)
        returns (restored: bool)
      requires Sound(scheme)
      requires Unused(scheme, before) && Moved(scheme, before, names, moved) && m in moved
      modifies this
      ensures Moved(scheme, before, names, if restored then moved - {m} else moved)
      ensures Tried(fails, old(calls), restored, calls)
    {
      MoveBack(scheme, before, names, moved, m);
      var quarantined := Exists(scheme.quarantine(m));
      var original := Exists(m);
      restored := false;
      if quarantined == Present && original == Absent {
        restored := Rename(scheme.quarantine(m), m);
      } else if quarantined == Absent && original == Present {
        restored := true;
      }
    }

    /** Members before the `i`-th and those that could not be moved back are still in quarantine. */
    ghost predicate RollingBack(staged: seq<string>, i: nat, failures: seq<string>, before: map<string, int>,
                                goal: Report)
      reads this
    {
      && Remaining(staged, i, failures) && Moved(scheme, before, names, StillMoved(staged, i, failures))
      && goal == After(failures, UndoFirst(staged, i, fails, calls))
    }

    method RollBackOne(staged: seq<string>, i: nat, failures: seq<string>, ghost before: map<string, int>,
                       ghost goal: Report) returns (more: seq<string>)
      requires Sound(scheme) && Unique(staged) && Unused(scheme, before)
      requires i < |staged| && RollingBack(staged, i + 1, failures, before, goal)
      modifies this
      ensures RollingBack(staged, i, more, before, goal)
    {
      TakeLast(staged, i, failures);
      var restored := RestoreOne(staged[i], before, StillMoved(staged, i + 1, failures));
      more := if restored then failures else failures + [staged[i]];
      UndoOne(staged, fails, i, old(calls), failures, restored, calls, more);
    }

    /** Moves the staged members back, newest first. Exactly the members it reports stay behind. */
    method Rollback(staged: seq<string>, ghost before: map<string, int>) returns (report: Report)
      requires Sound(scheme)
      requires Unique(staged) && Unused(scheme, before) && Moved(scheme, before, names, Elements(staged))
      modifies this
      ensures Moved(scheme, before, names, Elements(report.unrestored))
      ensures report == Undo(staged, fails, old(calls))
    {
      var failures: seq<string> := [];
      var i := |staged|;
      ghost var goal := Undo(staged, fails, calls);
      AllRemain(staged);
      assert After(failures, goal) == goal;
      while 0 < i
        invariant 0 <= i <= |staged| && RollingBack(staged, i, failures, before, goal)
      {
        i := i - 1;
        failures := RollBackOne(staged, i, failures, before, goal);
      }
      NoneRemain(staged, failures);
      var synced := Call();
      report := Report(failures, !synced);
    }

    /** `fail_with_rollback` */
    method Fail(staged: seq<string>, ghost before: map<string, int>) returns (outcome: Outcome, ghost left: seq<string>)
      requires Sound(scheme)
      requires Unique(staged) && Unused(scheme, before) && Moved(scheme, before, names, Elements(staged))
      modifies this
      ensures End(outcome, left) == Undone(Undo(staged, fails, old(calls))) && Left(scheme, before, names, left)
    {
      var report := Rollback(staged, before);
      outcome, left := RolledBack(report), report.unrestored;
    }

    /** Moves member `i`, which is present, out of the way, and rolls back if that fails. */
    method MoveOne(i: nat, staged: seq<string>, ghost before: map<string, int>)
        returns (outcome: Outcome, ghost left: seq<string>, more: seq<string>)
      requires Sound(scheme) && i < |scheme.members| && Unused(scheme, before) && StagedSoFar(scheme, before, staged, i)
      requires Moved(scheme, before, names, Elements(staged)) && scheme.members[i] in names
      modifies this
      ensures End(outcome, left) == MoveEnd(staged, staged + [scheme.members[i]], fails, old(calls))
      ensures outcome.Committed? ==>
                && more == staged + [scheme.members[i]] && Moved(scheme, before, names, Elements(more))
                && calls == old(calls) + 2
      ensures !outcome.Committed? ==> Left(scheme, before, names, left)
    {
      var m := scheme.members[i];
      StageMember(scheme, before, names, staged, i);
      more := staged;
      assert Unique(staged + [m]);
      var moved := Rename(m, scheme.quarantine(m));
      if !moved {
        outcome, left := Fail(staged, before);
        return;
      }
      more := staged + [m];
      var hookOk := Call();
      if !hookOk {
        outcome, left := Fail(more, before);
        return;
      }
      outcome, left := Committed, [];
    }

    /** Moves member `i` out of the way if it is there; the reset ends here if that fails. */
    method StageOne(i: nat, staged: seq<string>, ghost before: map<string, int>)
        returns (outcome: Outcome, ghost left: seq<string>, more: seq<string>)
      requires Sound(scheme) && i < |scheme.members| && Unused(scheme, before) && staged == Staged(scheme, before, i)
      requires Moved(scheme, before, names, Elements(staged))
      modifies this
      ensures Forward(scheme, before, fails, i, old(calls)) ==
                if outcome.Committed? then Forward(scheme, before, fails, i + 1, calls) else End(outcome, left)
      ensures outcome.Committed? ==>
                && more == Staged(scheme, before, i + 1) && Moved(scheme, before, names, Elements(more))
                && calls >= old(calls)
      ensures !outcome.Committed? ==> Left(scheme, before, names, left)
    {
      StagedIsStaged(scheme, before, i);
      ForwardOne(scheme, before, fails, i, calls);
      more, outcome, left := staged, Committed, [];
      var present := Exists(scheme.members[i]);
      if present.Unknown? {
        return Uninspectable, staged, staged;
      }
      PresentBefore(scheme, before, names, staged, i);
      if present.Present? {
        outcome, left, more := MoveOne(i, staged, before);
      }
    }

    /** The namespace transition: either all present members are moved, or the reset ends here. */
    method StageAll(ghost before: map<string, int>)
        returns (outcome: Outcome, ghost left: seq<string>, staged: seq<string>)
      requires Sound(scheme)
      requires Unused(scheme, names) && names == before
      modifies this
      ensures Forward(scheme, before, fails, 0, old(calls)) ==
                if outcome.Committed? then Forward(scheme, before, fails, |scheme.members|, calls)
                else End(outcome, left)
      ensures outcome.Committed? ==>
                && staged == Staged(scheme, before, |scheme.members|) && Moved(scheme, before, names, Elements(staged))
                && calls >= old(calls)
      ensures !outcome.Committed? ==> Left(scheme, before, names, left)
    {
      staged, outcome, left := [], Committed, [];
      for i := 0 to |scheme.members|
        invariant staged == Staged(scheme, before, i) && Moved(scheme, before, names, Elements(staged))
        invariant calls >= old(calls)
        invariant outcome.Committed? && Forward(scheme, before, fails, 0, old(calls)) ==
                  Forward(scheme, before, fails, i, calls)
      {
        outcome, left, staged := StageOne(i, staged, before);
        if !outcome.Committed? {
          return;
        }
      }
    }

    /** Removes what was moved; with no failing call nothing of it is left. */
    method RemoveQuarantines(staged: seq<string>, ghost before: map<string, int>)
      requires Unused(scheme, before) && Cleared(scheme, before, names)
               && forall i :: 0 <= i < |staged| ==> staged[i] in scheme.members
      modifies this
      ensures Cleared(scheme, before, names) && calls >= old(calls)
      ensures Quiet(fails, old(calls), calls) ==>
                forall n :: n in names <==> n in old(names) && n !in Quarantines(scheme, Elements(staged))
    {
      for i := 0 to |staged|
        invariant Cleared(scheme, before, names) && calls >= old(calls)
        invariant Quiet(fails, old(calls), calls) ==>
                    forall n :: n in names <==> n in old(names) && n !in Quarantines(scheme, Elements(staged[..i]))
      {
        RemovalKeepsCleared(scheme, before, names, staged[i]);
        OneMoreQuarantine(scheme, staged, i);
        ghost var first := calls;
        RemoveQuarantine(scheme.quarantine(staged[i]));
        if Quiet(fails, old(calls), calls) {
          assert first !in fails && Quiet(fails, old(calls), first);
        }
      }
      assert staged[..|staged|] == staged;
    }

    /** `reset_storage_generation_with_hook`. How it ends is decided by the names and the failing calls.
        It commits with every member gone and every other name unchanged, and nothing else left if no call
        failed, or leaves exactly the members `left` in quarantine. It is all or nothing exactly when the faults
        are recoverable, and the caller is told of every member that is gone exactly unless an inspection failed
        after a move. */
    method Reset() returns (outcome: Outcome, ghost left: seq<string>)
      requires Sound(scheme)
      requires Unused(scheme, names)
      modifies this
      ensures End(outcome, left) == ResetEnd(scheme, old(names), fails, old(calls))
      ensures outcome.Committed? ==> Cleared(scheme, old(names), names)
      ensures outcome.Committed? && Quiet(fails, old(calls), calls) ==> NothingLeft(scheme, old(names), names)
      ensures !outcome.Committed? ==>
                && Left(scheme, old(names), names, left)
                && (TellsAll(old(names), names, outcome) <==> !Strands(scheme, old(names), fails, old(calls)))
      ensures (if outcome.Committed? then Cleared(scheme, old(names), names) else names == old(names)) <==>
              Recoverable(scheme, old(names), fails, old(calls))
    {
      ghost var before := names;
      CleanExactlyWhenRecoverable(scheme, before, fails, calls);
      var created := Call();
      if !created {
        assert End(NoDirectory, []) == ResetEnd(scheme, before, fails, old(calls));
        Conclude(scheme, before, names, fails, old(calls), NoDirectory, []);
        return NoDirectory, [];
      }
      var staged;
      outcome, left, staged := StageAll(before);
      if !outcome.Committed? {
        Conclude(scheme, before, names, fails, old(calls), outcome, left);
        return;
      }
      StagedIsStaged(scheme, before, |scheme.members|);
      var synced := Call();
      if !synced {
        outcome, left := Fail(staged, before);
        Conclude(scheme, before, names, fails, old(calls), outcome, left);
        return;
      }
      left := [];
      CleanUp(staged, before);
    }

    /** What follows a commit, of which the caller is not told. */
    method CleanUp(staged: seq<string>, ghost before: map<string, int>)
      requires Sound(scheme) && Unused(scheme, before) && Moved(scheme, before, names, Elements(staged))
      requires StagedSoFar(scheme, before, staged, |scheme.members|)
      modifies this
      ensures Cleared(scheme, before, names) && calls >= old(calls)
      ensures Quiet(fails, old(calls), calls) ==> NothingLeft(scheme, before, names)
    {
      AllMoved(scheme, before, names, staged);
      StagedAreMembers(scheme, before, staged);
      ghost var moved := names;
      RemoveQuarantines(staged, before);
      if Quiet(fails, old(calls), calls) {
        RemovedAll(scheme, before, moved, names, staged);
      }
    }
  }

  /** The quarantine names of one run for the members of a storage generation. */
  function Generation(tag: string): Scheme {
    Scheme(MEMBERS, m => Quarantine(m, tag))
  }

  lemma GenerationIsSound(tag: string)
    ensures Sound(Generation(tag))
  {
    forall n | n in MEMBERS ensures n[0] != '.' {
    }
    forall a, b | Quarantine(a, tag) == Quarantine(b, tag) ensures a == b {
      QuarantineInjective(a, b, tag);
    }
    assert forall m :: Quarantine(m, tag)[0] == '.';
  }

  /** The first member is moved, inspecting the second fails, and the first stays where it is. */
  method StrandFirst(g: Scheme) returns (d: Directory, outcome: Outcome)
    requires Sound(g) && |g.members| > 1
    ensures fresh(d) && d.scheme == g && outcome == Uninspectable
    ensures d.names == map[g.quarantine(g.members[0]) := 7]
  {
    var before := map[g.members[0] := 7];
    assert g.members[0] in g.members;
    d := new Directory(g, before, {4});
    FailedInspectionStrandsAMember(g, before, {4}, 0);
    ghost var left;
    outcome, left := d.Reset();
    OnlyQuarantine(g, g.members[0], 7, d.names);
  }

  /** With the members of a storage generation: CONTROL.0 is moved, inspecting CONTROL.1 fails, and the
      error does not tell where CONTROL.0 is. */
  method StrandedMember(tag: string) returns (d: Directory, outcome: Outcome)
    ensures fresh(d) && d.scheme == Generation(tag) && outcome == Uninspectable && Reported(outcome) == []
    ensures d.names == map[Quarantine("CONTROL.0", tag) := 7]
  {
    GenerationIsSound(tag);
    d, outcome := StrandFirst(Generation(tag));
  }

  lemma OnlyQuarantine(g: Scheme, m: string, content: int, now: map<string, int>)
    requires Moved(g, map[m := content], now, Elements([m]))
    ensures now == map[g.quarantine(m) := content]
  {
    assert Elements([m]) == {m} && Quarantines(g, {m}) == {g.quarantine(m)};
    assert m in Elements([m]);
    assert now.Keys == {g.quarantine(m)};
  }
}
