/** Importing into a new durable database and publishing it once (src/sql_dump.rs:1038-1373).

A directory is a map from names to entries. The importer is a state machine whose every call may
fail, which may die between any two calls, and beside which other processes create, change and
remove any name but the staging one. It reads the dump line by line; what it has executed so far is
what its staging database holds.
*/
module Publication {
  import opened Common
  import opened DumpImport
  import opened DumpStream
  import opened Utf8
  import DumpCounts
  import DumpRoundTrip

  /** Somebody else's file, or a database that has run the given statements. */
  datatype Entry = Foreign(content: int) | Db(executed: seq<string>, closed: bool)

  datatype Pc =
    | Start
    | Absent
    | Allocated(staging: string)
    | Opened(staging: string)
    | Building(staging: string, st: State, lines: seq<seq<Byte>>, schema: string)
    | Ended(staging: string, ok: bool)
    | Finished(staging: string, ok: bool)
    | Synced(staging: string)
    | Published(staging: string)
    | Returned(ok: bool)
    | Dead

  datatype World = World(names: map<string, Entry>, pc: Pc)

  datatype Action =
    | Inspect(fails: bool)
    | Allocate(id: string, fails: bool)
    | Open(fails: bool, removed: bool)
    | ReadHeader(fails: bool)
    | FeedLine(fails: bool)
    | Close(fails: bool)
    | CleanUp(removed: bool)
    | SyncStaging(fails: bool)
    | Publish(fails: bool)
    | SyncParent(fails: bool)
    | Crash(lost: bool)
    | Other(name: string, content: Option<int>)

  /** `unique_dump_sibling`. */
  function Sibling(target: string, id: string): string {
    "." + target + ".import." + id
  }

  function Lookup(names: map<string, Entry>, n: string): Option<Entry> {
    if n in names then Some(names[n]) else None
  }

  /** A database that ran exactly a verified dump's statements and was closed. */
  predicate Verified(outcome: Outcome, entry: Entry) {
    entry.Db? && entry.closed && outcome.Imported? && entry.executed == outcome.executed
  }

  predicate HasStaging(pc: Pc) {
    pc.Allocated? || pc.Opened? || pc.Building? || pc.Ended? || pc.Finished? || pc.Synced?
  }

  /** The names others leave alone: the unique staging name while it is in use. */
  predicate Reserved(w: World, n: string) {
    (HasStaging(w.pc) || w.pc.Published?) && n == w.pc.staging
  }

  function Apply(names: map<string, Entry>, n: string, content: Option<int>): map<string, Entry> {
    if content.Some? then names[n := Foreign(content.value)] else names - {n}
  }

  /** `finish_database`: both the import and the close must succeed. */
  function CloseStep(w: World, fails: bool): World {
    if !w.pc.Ended? || w.pc.staging !in w.names || !w.names[w.pc.staging].Db? then w
    else if fails then w.(pc := Finished(w.pc.staging, false))
    else World(w.names[w.pc.staging := w.names[w.pc.staging].(closed := true)], Finished(w.pc.staging, w.pc.ok))
  }

  /** A rename that refuses to replace an existing target. */
  function PublishStep(target: string, w: World, fails: bool): World {
    if !w.pc.Synced? then w
    else if fails || target in w.names || w.pc.staging !in w.names then w.(pc := Returned(false))
    else World((w.names - {w.pc.staging})[target := w.names[w.pc.staging]], Published(w.pc.staging))
  }

  /** A system that dies before the parent directory is synced may lose the rename. */
  function CrashStep(target: string, w: World, lost: bool): World {
    if lost && w.pc.Published? && target in w.names && w.names[target].Db?
    then World((w.names - {target})[w.pc.staging := w.names[target]], Dead)
    else w.(pc := Dead)
  }

  /** The header lines decide whether the loop over the remaining lines starts. */
  function HeaderStep(bytes: seq<Byte>, w: World, fails: bool): World {
    if !w.pc.Opened? then w
    else
      var lines := Lines(bytes);
      var failed := w.(pc := Ended(w.pc.staging, false));
      if fails || |lines| < 3 then failed
      else
        match (Decode(lines[0]), Decode(lines[1]), Decode(lines[2]))
        case (Some(a), Some(b), Some(c)) =>
          (match CheckHeader(a, b, c)
           case None => failed
           case Some(schema) =>
             w.(pc := Building(w.pc.staging, DumpImport.Start(lines[0] + lines[1] + lines[2]), lines[3..], schema)))
        case _ => failed
  }

  /** One round of the import loop. A statement that it executes changes the staging database; the
      footer must be the last line, and then checksum, counts and fingerprint decide. */
  function FeedStep(e: Engine, w: World, fails: bool): World {
    if !w.pc.Building? then w
    else
      var Building(staging, st, lines, schema) := w.pc;
      var failed := w.(pc := Ended(staging, false));
      if fails || lines == [] then failed
      else
        match Decode(lines[0])
        case None => failed
        case Some(text) =>
          match Feed(e, st, lines[0], text)
          case Failed => failed
          case Continue(next) =>
            World(w.names[staging := Db(next.executed, false)], Building(staging, next, lines[1..], schema))
          case Footer(last, digest) =>
            if lines[1..] != [] then failed
            else w.(pc := Ended(staging, Conclude(e, Footer(last, digest), schema).Imported?))
  }

  /** One call of the importer, a crash, or a step of another process. A call that is not due
      changes nothing. */
  function Step(e: Engine, bytes: seq<Byte>, target: string, w: World, a: Action): World {
    match a
    case Inspect(fails) =>
      if !w.pc.Start? then w
      else if fails || target in w.names then w.(pc := Returned(false)) else w.(pc := Absent)
    case Allocate(id, fails) =>
      if !w.pc.Absent? then w
      else if fails || Sibling(target, id) in w.names then w.(pc := Returned(false))
      else w.(pc := Allocated(Sibling(target, id)))
    case Open(fails, removed) =>
      if !w.pc.Allocated? then w
      else if fails then
        World(if removed then w.names - {w.pc.staging} else w.names[w.pc.staging := Db([], false)], Returned(false))
      else World(w.names[w.pc.staging := Db([], false)], Opened(w.pc.staging))
    case ReadHeader(fails) => HeaderStep(bytes, w, fails)
    case FeedLine(fails) => FeedStep(e, w, fails)
    case Close(fails) => CloseStep(w, fails)
    case CleanUp(removed) =>
      if !(w.pc.Finished? && !w.pc.ok) then w
      else World(if removed then w.names - {w.pc.staging} else w.names, Returned(false))
    case SyncStaging(fails) =>
      if !(w.pc.Finished? && w.pc.ok) then w
      else if fails then w.(pc := Returned(false)) else w.(pc := Synced(w.pc.staging))
    case Publish(fails) => PublishStep(target, w, fails)
    case SyncParent(fails) => if w.pc.Published? then w.(pc := Returned(!fails)) else w
    case Crash(lost) => CrashStep(target, w, lost)
    case Other(n, content) => if Reserved(w, n) then w else w.(names := Apply(w.names, n, content))
  }

  function Run(e: Engine, bytes: seq<Byte>, target: string, w: World, actions: seq<Action>): World
    decreases |actions|
  {
    if actions == [] then w else Run(e, bytes, target, Step(e, bytes, target, w, actions[0]), actions[1..])
  }

  /** What the target path would hold if only the others had acted. */
  function OthersOnly(target: string, start: Option<Entry>, actions: seq<Action>): Option<Entry>
    decreases |actions|
  {
    if actions == [] then start else OthersOnly(target, AfterOther(target, start, actions[0]), actions[1..])
  }

  function AfterOther(target: string, start: Option<Entry>, a: Action): Option<Entry> {
    if a.Other? && a.name == target then (if a.content.Some? then Some(Foreign(a.content.value)) else None)
    else start
  }

  /** The staging database is what the importer's position says; while it is being built, the rest
      of the dump still leads to the outcome that all of its bytes determine. */
  ghost predicate StagingFits(e: Engine, outcome: Outcome, w: World) {
    && (w.pc.Opened? || w.pc.Building? ==> w.pc.staging in w.names)
    && (w.pc.Opened? ==> w.names[w.pc.staging] == Db([], false))
    && (w.pc.Building? ==> w.names[w.pc.staging] == Db(w.pc.st.executed, false)
                           && outcome == Conclude(e, ByteRounds(RawFeeder(e), w.pc.st, w.pc.lines), w.pc.schema))
    && ((w.pc.Ended? || w.pc.Finished?) && w.pc.ok ==>
          w.pc.staging in w.names && outcome.Imported? && w.names[w.pc.staging] == Db(outcome.executed, w.pc.Finished?))
    && (w.pc.Synced? ==> w.pc.staging in w.names && Verified(outcome, w.names[w.pc.staging]))
  }

  /** The target is as the others left it or holds a verified, closed database. */
  ghost predicate TargetFits(outcome: Outcome, target: string, w: World, others: Option<Entry>) {
    && (Lookup(w.names, target) == others
        || (others.None? && target in w.names && Verified(outcome, w.names[target])))
    && (HasStaging(w.pc) || w.pc.Published? ==> w.pc.staging != target)
    && (others.Some? ==> others.value.Foreign?)
  }

  ghost predicate Inv(e: Engine, outcome: Outcome, target: string, w: World, others: Option<Entry>) {
    StagingFits(e, outcome, w) && TargetFits(outcome, target, w, others)
  }

  lemma HeaderKeepsStaging(e: Engine, bytes: seq<Byte>, w: World, fails: bool)
    requires StagingFits(e, ImportBytes(e, bytes), w) && w.pc.Opened?
    ensures StagingFits(e, ImportBytes(e, bytes), HeaderStep(bytes, w, fails))
  {
  }

  lemma FeedKeepsStaging(e: Engine, outcome: Outcome, w: World, fails: bool)
    requires StagingFits(e, outcome, w) && w.pc.Building?
    ensures StagingFits(e, outcome, FeedStep(e, w, fails))
  {
    var Building(staging, st, lines, schema) := w.pc;
    if !fails && lines != [] && Decode(lines[0]).Some? {
      DumpRoundTrip.RoundOfText(RawFeeder(e), st, lines, Decode(lines[0]).value, lines[1..]);
    }
  }

  lemma StepKeepsStaging(e: Engine, bytes: seq<Byte>, target: string, w: World, a: Action)
    requires StagingFits(e, ImportBytes(e, bytes), w)
    ensures StagingFits(e, ImportBytes(e, bytes), Step(e, bytes, target, w, a))
  {
    var outcome := ImportBytes(e, bytes);
    if a.ReadHeader? && w.pc.Opened? {
      HeaderKeepsStaging(e, bytes, w, a.fails);
    } else if a.FeedLine? && w.pc.Building? {
      FeedKeepsStaging(e, outcome, w, a.fails);
    } else {
      OtherStepKeepsStaging(e, bytes, outcome, target, w, a);
    }
  }

  lemma OtherStepKeepsStaging(e: Engine, bytes: seq<Byte>, outcome: Outcome, target: string, w: World, a: Action)
    requires StagingFits(e, outcome, w) && !(a.ReadHeader? && w.pc.Opened?) && !(a.FeedLine? && w.pc.Building?)
    ensures StagingFits(e, outcome, Step(e, bytes, target, w, a))
  {
  }

  lemma StepKeepsTarget(e: Engine, bytes: seq<Byte>, outcome: Outcome, target: string, w: World, a: Action,
                        others: Option<Entry>)
    requires StagingFits(e, outcome, w) && TargetFits(outcome, target, w, others)
    ensures TargetFits(outcome, target, Step(e, bytes, target, w, a), AfterOther(target, others, a))
  {
    if a.Allocate? {
      assert |Sibling(target, a.id)| > |target|;
    }
  }

  lemma StepKeepsInv(e: Engine, bytes: seq<Byte>, target: string, w: World, a: Action, others: Option<Entry>)
    requires Inv(e, ImportBytes(e, bytes), target, w, others)
    ensures Inv(e, ImportBytes(e, bytes), target, Step(e, bytes, target, w, a), AfterOther(target, others, a))
  {
    StepKeepsStaging(e, bytes, target, w, a);
    StepKeepsTarget(e, bytes, ImportBytes(e, bytes), target, w, a, others);
  }

  /** After any number of calls, failures, crashes and foreign steps, the target path is as the
      others left it, or it holds a closed database that ran exactly the dump whose checksum, counts
      and schema fingerprint were verified. */
  lemma {:induction false} TargetIsUntouchedOrVerified(e: Engine, bytes: seq<Byte>, target: string, w: World,
                                                       actions: seq<Action>, others: Option<Entry>)
    requires Inv(e, ImportBytes(e, bytes), target, w, others)
    ensures Inv(e, ImportBytes(e, bytes), target, Run(e, bytes, target, w, actions),
                OthersOnly(target, others, actions))
    decreases |actions|
  {
    if actions != [] {
      StepKeepsInv(e, bytes, target, w, actions[0], others);
      TargetIsUntouchedOrVerified(e, bytes, target, Step(e, bytes, target, w, actions[0]), actions[1..],
                                  AfterOther(target, others, actions[0]));
    }
  }

  /** The importer's own calls never change an existing target, and touch no name but target and
      staging; they create the target only by publishing a verified database. */
  lemma OwnStepsReplaceNothing(e: Engine, bytes: seq<Byte>, target: string, w: World, a: Action, others: Option<Entry>)
    requires Inv(e, ImportBytes(e, bytes), target, w, others) && !a.Other? && !a.Crash?
    ensures var next := Step(e, bytes, target, w, a);
            && (target in w.names ==> Lookup(next.names, target) == Lookup(w.names, target))
            && (target !in w.names && target in next.names ==>
                  a.Publish? && Verified(ImportBytes(e, bytes), next.names[target]))
            && (forall n :: n != target && !Reserved(w, n) ==> Lookup(next.names, n) == Lookup(w.names, n))
  {
    StepKeepsInv(e, bytes, target, w, a, others);
  }

  /** Only publishing leads to the published state, and it puts the verified database at a free
      target; any other return is a failure. */
  lemma OnlyPublishingPublishes(e: Engine, bytes: seq<Byte>, outcome: Outcome, target: string, w: World, a: Action)
    requires StagingFits(e, outcome, w) && !w.pc.Published? && !w.pc.Returned?
    ensures var next := Step(e, bytes, target, w, a);
            && (next.pc.Published? ==>
                  && a.Publish? && target !in w.names && target in next.names && Verified(outcome, next.names[target]))
            && (next.pc.Returned? ==> !next.pc.ok)
  {
  }

  /** A successful return means that a publication put the verified database at the target. */
  lemma {:induction false} SuccessMeansPublished(e: Engine, bytes: seq<Byte>, target: string, w: World,
                                                 actions: seq<Action>) returns (i: nat)
    requires StagingFits(e, ImportBytes(e, bytes), w) && !w.pc.Published? && !w.pc.Returned?
    requires Run(e, bytes, target, w, actions).pc == Returned(true)
    ensures i < |actions| && actions[i].Publish?
    ensures target !in Run(e, bytes, target, w, actions[..i]).names
    ensures target in Run(e, bytes, target, w, actions[..i + 1]).names
    ensures Verified(ImportBytes(e, bytes), Run(e, bytes, target, w, actions[..i + 1]).names[target])
    decreases |actions|
  {
    var a, rest := actions[0], actions[1..];
    var next := Step(e, bytes, target, w, a);
    OnlyPublishingPublishes(e, bytes, ImportBytes(e, bytes), target, w, a);
    StepKeepsStaging(e, bytes, target, w, a);
    if next.pc.Published? {
      i := 0;
      assert actions[..1] == [a] + [];
      FirstStep(e, bytes, target, w, a, []);
    } else {
      if next.pc.Returned? {
        StaysReturned(e, bytes, target, next, rest);
      }
      var j := SuccessMeansPublished(e, bytes, target, next, rest);
      i := j + 1;
      assert actions[..i] == [a] + rest[..j] && actions[..i + 1] == [a] + rest[..j + 1];
      FirstStep(e, bytes, target, w, a, rest[..j]);
      FirstStep(e, bytes, target, w, a, rest[..j + 1]);
    }
  }

  lemma FirstStep(e: Engine, bytes: seq<Byte>, target: string, w: World, a: Action, rest: seq<Action>)
    ensures Run(e, bytes, target, w, [a] + rest) == Run(e, bytes, target, Step(e, bytes, target, w, a), rest)
  {
    assert ([a] + rest)[1..] == rest;
  }

  lemma {:induction false} StaysReturned(e: Engine, bytes: seq<Byte>, target: string, w: World, actions: seq<Action>)
    requires w.pc.Returned?
    ensures Run(e, bytes, target, w, actions).pc in {w.pc, Dead}
    decreases |actions|
  {
    if actions != [] && !Step(e, bytes, target, w, actions[0]).pc.Returned? {
      StaysDead(e, bytes, target, Step(e, bytes, target, w, actions[0]), actions[1..]);
    } else if actions != [] {
      StaysReturned(e, bytes, target, Step(e, bytes, target, w, actions[0]), actions[1..]);
    }
  }

  lemma {:induction false} StaysDead(e: Engine, bytes: seq<Byte>, target: string, w: World, actions: seq<Action>)
    requires w.pc.Dead?
    ensures Run(e, bytes, target, w, actions).pc.Dead?
    decreases |actions|
  {
    if actions != [] {
      StaysDead(e, bytes, target, Step(e, bytes, target, w, actions[0]), actions[1..]);
    }
  }

  // ---------------------------------------------------------------- a run without faults

  function Feeds(n: nat): seq<Action> {
    if n == 0 then [] else [FeedLine(false)] + Feeds(n - 1)
  }

  lemma {:induction false} RunConcat(e: Engine, bytes: seq<Byte>, target: string, w: World, a: seq<Action>,
                                     b: seq<Action>)
    ensures Run(e, bytes, target, w, a + b) == Run(e, bytes, target, Run(e, bytes, target, w, a), b)
    decreases |a|
  {
    if a == [] {
      assert a + b == b;
    } else {
      assert (a + b)[1..] == a[1..] + b;
      RunConcat(e, bytes, target, Step(e, bytes, target, w, a[0]), a[1..], b);
    }
  }

  /** The remaining lines lead to a verified import. */
  ghost predicate WillImport(e: Engine, w: World) {
    w.pc.Building? && Conclude(e, ByteRounds(RawFeeder(e), w.pc.st, w.pc.lines), w.pc.schema).Imported?
  }

  lemma FeedOne(e: Engine, w: World)
    requires WillImport(e, w)
    ensures var u := FeedStep(e, w, false);
            && w.pc.lines != [] && u.names.Keys <= w.names.Keys + {w.pc.staging}
            && if |w.pc.lines| > 1 then WillImport(e, u) && u.pc.lines == w.pc.lines[1..]
                && u.pc.staging == w.pc.staging
               else u.pc == Ended(w.pc.staging, true)
  {
    var lines := w.pc.lines;
    assert lines != [] && Decode(lines[0]).Some?;
    DumpRoundTrip.RoundOfText(RawFeeder(e), w.pc.st, lines, Decode(lines[0]).value, lines[1..]);
  }

  /** Feeding the remaining lines of a dump that imports ends the import well. */
  lemma {:induction false} FeedsReachTheEnd(e: Engine, bytes: seq<Byte>, target: string, w: World)
    requires WillImport(e, w) && target !in w.names && w.pc.staging != target
    ensures var u := Run(e, bytes, target, w, Feeds(|w.pc.lines|));
            u.pc == Ended(w.pc.staging, true) && target !in u.names
    decreases |w.pc.lines|
  {
    FeedOne(e, w);
    var u, n := FeedStep(e, w, false), |w.pc.lines| - 1;
    FirstStep(e, bytes, target, w, FeedLine(false), Feeds(n));
    if n > 0 {
      FeedsReachTheEnd(e, bytes, target, u);
    }
  }

  /** The calls up to the loop, and after it. */
  function Opening(id: string): seq<Action> {
    [Inspect(false), Allocate(id, false)] + [Open(false, false), ReadHeader(false)]
  }

  function Closing(): seq<Action> {
    [Close(false), SyncStaging(false)] + [Publish(false), SyncParent(false)]
  }

  lemma TwoSteps(e: Engine, bytes: seq<Byte>, target: string, w: World, a: Action, b: Action)
    ensures Run(e, bytes, target, w, [a, b]) == Step(e, bytes, target, Step(e, bytes, target, w, a), b)
  {
    assert [a, b] == [a] + [b] && [b] == [b] + [];
    FirstStep(e, bytes, target, w, a, [b]);
    FirstStep(e, bytes, target, Step(e, bytes, target, w, a), b, []);
  }

  lemma OpeningBuilds(e: Engine, bytes: seq<Byte>, target: string, names: map<string, Entry>, id: string)
    requires ImportBytes(e, bytes).Imported? && target !in names && Sibling(target, id) !in names
    ensures var u := Run(e, bytes, target, World(names, Start), Opening(id));
            && u.pc.Building? && u.pc.staging == Sibling(target, id) && u.pc.lines == Lines(bytes)[3..]
            && u.names == names[Sibling(target, id) := Db([], false)]
            && WillImport(e, u)
  {
    var w := World(names, Start);
    RunConcat(e, bytes, target, w, [Inspect(false), Allocate(id, false)], [Open(false, false), ReadHeader(false)]);
    TwoSteps(e, bytes, target, w, Inspect(false), Allocate(id, false));
    var v := Run(e, bytes, target, w, [Inspect(false), Allocate(id, false)]);
    TwoSteps(e, bytes, target, v, Open(false, false), ReadHeader(false));
  }

  lemma ClosingPublishes(e: Engine, bytes: seq<Byte>, target: string, w: World, outcome: Outcome)
    requires w.pc.Ended? && w.pc.ok && target !in w.names && w.pc.staging != target
    requires w.pc.staging in w.names && outcome.Imported? && w.names[w.pc.staging] == Db(outcome.executed, false)
    ensures var u := Run(e, bytes, target, w, Closing());
            u.pc == Returned(true) && Lookup(u.names, target) == Some(Db(outcome.executed, true))
  {
    RunConcat(e, bytes, target, w, [Close(false), SyncStaging(false)], [Publish(false), SyncParent(false)]);
    TwoSteps(e, bytes, target, w, Close(false), SyncStaging(false));
    var v := Run(e, bytes, target, w, [Close(false), SyncStaging(false)]);
    TwoSteps(e, bytes, target, v, Publish(false), SyncParent(false));
  }

  lemma ThreeParts(e: Engine, bytes: seq<Byte>, target: string, w: World, a: seq<Action>, b: seq<Action>,
                   c: seq<Action>)
    ensures Run(e, bytes, target, w, a + b + c) ==
              Run(e, bytes, target, Run(e, bytes, target, Run(e, bytes, target, w, a), b), c)
  {
    RunConcat(e, bytes, target, w, a + b, c);
    RunConcat(e, bytes, target, w, a, b);
  }

  /** Without faults and other processes, a dump that imports is published and success is reported. */
  lemma FaultFreeImportPublishes(e: Engine, bytes: seq<Byte>, target: string, names: map<string, Entry>, id: string)
    requires ImportBytes(e, bytes).Imported? && target !in names && Sibling(target, id) !in names
    ensures var actions := Opening(id) + Feeds(|Lines(bytes)[3..]|) + Closing();
            var u := Run(e, bytes, target, World(names, Start), actions);
            u.pc == Returned(true) && Lookup(u.names, target) == Some(Db(ImportBytes(e, bytes).executed, true))
  {
    ThreeParts(e, bytes, target, World(names, Start), Opening(id), Feeds(|Lines(bytes)[3..]|), Closing());
    OpeningBuilds(e, bytes, target, names, id);
    var built := Run(e, bytes, target, World(names, Start), Opening(id));
    FeedingPublishes(e, bytes, ImportBytes(e, bytes), target, World(names, Start), Opening(id), built);
  }

  lemma FeedingPublishes(e: Engine, bytes: seq<Byte>, outcome: Outcome, target: string, w: World, opening: seq<Action>,
                         built: World)
    requires outcome == ImportBytes(e, bytes) && Inv(e, outcome, target, w, None)
    requires outcome.Imported? && built == Run(e, bytes, target, w, opening)
    requires WillImport(e, built) && built.pc.staging != target && target !in built.names
    ensures var u := Run(e, bytes, target, Run(e, bytes, target, built, Feeds(|built.pc.lines|)), Closing());
            u.pc == Returned(true) && Lookup(u.names, target) == Some(Db(outcome.executed, true))
  {
    var feeds := Feeds(|built.pc.lines|);
    FeedsReachTheEnd(e, bytes, target, built);
    TargetIsUntouchedOrVerified(e, bytes, target, w, opening, None);
    TargetIsUntouchedOrVerified(e, bytes, target, built, feeds, OthersOnly(target, None, opening));
    ClosingPublishes(e, bytes, target, Run(e, bytes, target, built, feeds), outcome);
  }

  /** End to end: importing an exported dump leaves the target as the others left it, or holding a
      closed database that ran exactly the exported statements. */
  lemma PublishedDatabaseIsTheExportedOne(e: Engine, version: string, schema: string, statements: seq<string>,
                                          counts: DumpCounts.Counts, target: string, names: map<string, Entry>,
                                          actions: seq<Action>)
    requires DumpRoundTrip.Replayable(e, version, schema, statements, counts)
    requires target in names ==> names[target].Foreign?
    ensures var bytes := Encode(DumpRoundTrip.Dump(e, version, schema, statements, counts));
            var end := Run(e, bytes, target, World(names, Start), actions);
            || Lookup(end.names, target) == OthersOnly(target, Lookup(names, target), actions)
            || Lookup(end.names, target) == Some(Db(statements, true))
  {
    DumpRoundTrip.ExportImportRoundTrip(e, version, schema, statements, counts);
    var bytes := Encode(DumpRoundTrip.Dump(e, version, schema, statements, counts));
    TargetIsUntouchedOrVerified(e, bytes, target, World(names, Start), actions, Lookup(names, target));
  }
}
