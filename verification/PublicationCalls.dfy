/** What a returned import says about its calls, and what it leaves in the directory
(src/sql_dump.rs:1320-1373). */
module PublicationCalls {
  import opened Common
  import opened DumpImport
  import opened Publication

  // ---------------------------------------------------------------- success means that every call succeeded

  /** How many of the nine calls of an import have succeeded. */
  function Progress(pc: Pc): Option<nat> {
    match pc
    case Start => Some(0)
    case Absent => Some(1)
    case Allocated(_) => Some(2)
    case Opened(_) => Some(3)
    case Building(_, _, _, _) => Some(4)
    case Ended(_, ok) => if ok then Some(5) else None
    case Finished(_, ok) => if ok then Some(6) else None
    case Synced(_) => Some(7)
    case Published(_) => Some(8)
    case Returned(ok) => if ok then Some(9) else None
    case Dead => None
  }

  /** The action is the `n`th of these calls, and it did not fail. */
  predicate Succeeds(a: Action, n: nat) {
    match n
    case 1 => a == Inspect(false)
    case 2 => a.Allocate? && !a.fails
    case 3 => a.Open? && !a.fails
    case 4 => a == ReadHeader(false)
    case 5 => a == FeedLine(false)
    case 6 => a == Close(false)
    case 7 => a == SyncStaging(false)
    case 8 => a == Publish(false)
    case 9 => a == SyncParent(false)
    case _ => false
  }

  /** A step gets no further than by the next call, which must not fail. */
  lemma OneCallAtATime(e: Engine, bytes: seq<Byte>, target: string, w: World, a: Action)
    requires Progress(Step(e, bytes, target, w, a).pc).Some?
    ensures var n := Progress(Step(e, bytes, target, w, a).pc).value;
            Progress(w.pc) == Some(n) || (n > 0 && Progress(w.pc) == Some(n - 1) && Succeeds(a, n))
  {
  }

  /** The world after the first `k` actions. */
  function At(e: Engine, bytes: seq<Byte>, target: string, w: World, actions: seq<Action>, k: nat): World
    requires k <= |actions|
    decreases k
  {
    if k == 0 then w else Step(e, bytes, target, At(e, bytes, target, w, actions, k - 1), actions[k - 1])
  }

  lemma {:induction false} AtIsRun(e: Engine, bytes: seq<Byte>, target: string, w: World, actions: seq<Action>)
    ensures At(e, bytes, target, w, actions, |actions|) == Run(e, bytes, target, w, actions)
    decreases |actions|
  {
    if actions != [] {
      var v := Step(e, bytes, target, w, actions[0]);
      AtIsRun(e, bytes, target, v, actions[1..]);
      AtShifts(e, bytes, target, w, actions, |actions|);
    }
  }

  lemma {:induction false} AtShifts(e: Engine, bytes: seq<Byte>, target: string, w: World, actions: seq<Action>, k: nat)
    requires 0 < k <= |actions|
    ensures At(e, bytes, target, w, actions, k) ==
              At(e, bytes, target, Step(e, bytes, target, w, actions[0]), actions[1..], k - 1)
    decreases k
  {
    if k == 1 {
      assert At(e, bytes, target, w, actions, 0) == w;
    } else {
      AtShifts(e, bytes, target, w, actions, k - 1);
      assert actions[1..][k - 2] == actions[k - 1];
    }
  }

  /** The `i`th of `calls` is the place of the `i + 1`st call, which succeeded there, and they are in order. */
  ghost predicate CallsInOrder(actions: seq<Action>, calls: seq<nat>, k: nat) {
    && k <= |actions|
    && (forall i :: 0 <= i < |calls| ==> calls[i] < k && Succeeds(actions[calls[i]], i + 1))
    && (forall i, j :: 0 <= i < j < |calls| ==> calls[i] < calls[j])
  }

  lemma {:induction false} ProgressMeansCalls(e: Engine, bytes: seq<Byte>, target: string, w: World,
                                              actions: seq<Action>, k: nat) returns (calls: seq<nat>)
    requires w.pc.Start? && k <= |actions| && Progress(At(e, bytes, target, w, actions, k).pc).Some?
    ensures |calls| == Progress(At(e, bytes, target, w, actions, k).pc).value && CallsInOrder(actions, calls, k)
    decreases k
  {
    if k == 0 {
      calls := [];
    } else {
      var v := At(e, bytes, target, w, actions, k - 1);
      OneCallAtATime(e, bytes, target, v, actions[k - 1]);
      calls := ProgressMeansCalls(e, bytes, target, w, actions, k - 1);
      if Progress(v.pc) != Progress(At(e, bytes, target, w, actions, k).pc) {
        calls := calls + [k - 1];
      }
    }
  }

  /** An import that returns success has made its nine calls in this order and none of them failed:
      inspect, allocate, open, read the header, feed the last line, close, sync the staging database,
      publish without replacing, sync the parent. So if one fails, success is not returned. */
  lemma SuccessMeansEveryCallSucceeded(e: Engine, bytes: seq<Byte>, target: string, w: World, actions: seq<Action>)
    returns (calls: seq<nat>)
    requires w.pc.Start? && Run(e, bytes, target, w, actions).pc == Returned(true)
    ensures |calls| == 9 && CallsInOrder(actions, calls, |actions|)
  {
    AtIsRun(e, bytes, target, w, actions);
    calls := ProgressMeansCalls(e, bytes, target, w, actions, |actions|);
  }

  // ---------------------------------------------------------------- what is left in the directory

  predicate AddedOnly(before: map<string, Entry>, after: map<string, Entry>, n: string) {
    n in after && n !in before && after - {n} == before
  }

  /** While the importer works alone, the names are those of `before` and its staging database or target. */
  ghost predicate Tidy(target: string, before: map<string, Entry>, w: World) {
    match w.pc
    case Start => w.names == before
    case Absent => w.names == before && target !in before
    case Allocated(staging) => w.names == before && target !in before && staging !in before && staging != target
    case Published(_) => AddedOnly(before, w.names, target)
    case Returned(_) => true
    case Dead => true
    case _ => target !in before && w.pc.staging != target && AddedOnly(before, w.names, w.pc.staging)
  }

  lemma SiblingIsOther(target: string, id: string)
    ensures Sibling(target, id) != target
  {
    assert |Sibling(target, id)| > |target|;
  }

  lemma StepStaysTidy(e: Engine, bytes: seq<Byte>, target: string, before: map<string, Entry>, w: World, a: Action)
    requires Tidy(target, before, w) && !a.Other?
    ensures Tidy(target, before, Step(e, bytes, target, w, a))
  {
    match a {
      case Allocate(id, fails) => SiblingIsOther(target, id);
      case _ =>
    }
  }

  /** Some staging database stays in the directory. */
  ghost predicate StagingStays(target: string, before: map<string, Entry>, after: map<string, Entry>) {
    target !in before && exists staging :: staging != target && AddedOnly(before, after, staging)
  }

  /** What the directory holds after the call `a` made the import return. */
  ghost predicate LeftBy(target: string, before: map<string, Entry>, a: Action, end: World) {
    match a
    case Inspect(fails) => end == World(before, Returned(false)) && (fails || target in before)
    case Allocate(id, fails) => end == World(before, Returned(false)) && (fails || Sibling(target, id) in before)
    case Open(fails, removed) => fails && Undone(target, before, removed, end)
    case CleanUp(removed) => Undone(target, before, removed, end)
    case SyncStaging(fails) => fails && Undone(target, before, false, end)
    case Publish(fails) => fails && Undone(target, before, false, end)
    case SyncParent(fails) => end.pc == Returned(!fails) && AddedOnly(before, end.names, target)
    case _ => false
  }

  ghost predicate Undone(target: string, before: map<string, Entry>, removed: bool, end: World) {
    && end.pc == Returned(false)
    && if removed then end.names == before else StagingStays(target, before, end.names)
  }

  lemma ReturnLeaves(e: Engine, bytes: seq<Byte>, target: string, before: map<string, Entry>, w: World, a: Action)
    requires Tidy(target, before, w) && !a.Other? && !w.pc.Returned? && Step(e, bytes, target, w, a).pc.Returned?
    ensures LeftBy(target, before, a, Step(e, bytes, target, w, a))
  {
    var u := Step(e, bytes, target, w, a);
    if w.pc.Allocated? && !a.removed {
      assert AddedOnly(before, u.names, w.pc.staging);
    } else if w.pc.Finished? || w.pc.Synced? {
      assert AddedOnly(before, w.names, w.pc.staging);
    }
  }

  lemma {:induction false} ReturnedStays(e: Engine, bytes: seq<Byte>, target: string, w: World, actions: seq<Action>)
    requires w.pc.Returned? && forall i :: 0 <= i < |actions| ==> !actions[i].Other? && !actions[i].Crash?
    ensures Run(e, bytes, target, w, actions) == w
    decreases |actions|
  {
    if actions != [] {
      assert Step(e, bytes, target, w, actions[0]) == w;
      ReturnedStays(e, bytes, target, w, actions[1..]);
    }
  }

  lemma {:induction false} RunLeaves(e: Engine, bytes: seq<Byte>, target: string, before: map<string, Entry>, w: World,
                                     actions: seq<Action>) returns (i: nat)
    requires Tidy(target, before, w) && !w.pc.Returned? && Run(e, bytes, target, w, actions).pc.Returned?
    requires forall i :: 0 <= i < |actions| ==> !actions[i].Other? && !actions[i].Crash?
    ensures i < |actions| && LeftBy(target, before, actions[i], Run(e, bytes, target, w, actions))
    decreases |actions|
  {
    var a := actions[0];
    var v := Step(e, bytes, target, w, a);
    StepStaysTidy(e, bytes, target, before, w, a);
    if v.pc.Returned? {
      i := 0;
      ReturnLeaves(e, bytes, target, before, w, a);
      ReturnedStays(e, bytes, target, v, actions[1..]);
    } else {
      var j := RunLeaves(e, bytes, target, before, v, actions[1..]);
      i := j + 1;
      assert actions[i] == actions[1..][j];
    }
  }

  /** An import that returns in a directory of its own was ended by one call, which decides what is there:
      an existing target, or a name that cannot be had, and nothing changed; a failed open or import, and
      nothing is left unless the removal failed; a failed sync or publication, and the staging database is
      left; or the target was added, and success is reported exactly if the parent was synced. */
  lemma ReturnedImportLeaves(e: Engine, bytes: seq<Byte>, target: string, w: World, actions: seq<Action>)
    returns (i: nat)
    requires w.pc.Start? && Run(e, bytes, target, w, actions).pc.Returned?
    requires forall i :: 0 <= i < |actions| ==> !actions[i].Other? && !actions[i].Crash?
    ensures i < |actions| && LeftBy(target, w.names, actions[i], Run(e, bytes, target, w, actions))
  {
    i := RunLeaves(e, bytes, target, w.names, w, actions);
  }
}
