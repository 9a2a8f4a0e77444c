/**
 * The output root of the pilot runs (infra/pilot_gate/evidence.py): initialize makes a directory and then
 * its first file, and every other call works in a directory that is there.
 */
module EvidenceRoot {
  import opened Common
  import opened PilotGate
  import opened EvidenceStore
  import opened EvidenceRecovery

  /** One directory for each run id that was ever started; it is empty until its first file is written. */
  type Root = map<string, Files>

  predicate PredecessorFailed(m: Manifest, root: Root) {
    match m.predecessor
    case None => true
    case Some(p) =>
      && p in root && RunPath in root[p] && root[p][RunPath].RunDoc?
      && root[p][RunPath].run.state == Terminal(Failed) && root[p][RunPath].run.environmentId == m.environmentId
  }

  predicate MayInitialize(m: Manifest, root: Root) {
    PredecessorFailed(m, root) && m.runId !in root
  }

  /** What initialize leaves when it gets to make `allowed` of its two changes. */
  function AfterInitialize(m: Manifest, root: Root, allowed: nat): Root {
    if !MayInitialize(m, root) || allowed == 0 then root
    else root[m.runId := if allowed == 1 then map[] else Initialized(m)]
  }

  class OutputRoot {
    var directories: Root
    /** How many more changes happen before the process dies. */
    var budget: nat

    constructor (directories: Root, budget: nat)
      ensures this.directories == directories && this.budget == budget
    {
      this.directories, this.budget := directories, budget;
    }

    method Initialize(m: Manifest) returns (outcome: Outcome)
      modifies this
      ensures directories == AfterInitialize(m, old(directories), old(budget))
      ensures outcome ==
        if !MayInitialize(m, old(directories)) then Raised else if old(budget) < 2 then Crashed else Returned
    {
      if !PredecessorFailed(m, directories) || m.runId in directories {
        return Raised;
      }
      if budget == 0 {
        return Crashed;
      }
      directories, budget := directories[m.runId := map[]], budget - 1;
      if budget == 0 {
        return Crashed;
      }
      var run := Run(m.runId, m.environmentId, m.hash, Created, map[], map[], None);
      directories, budget := directories[m.runId := directories[m.runId][RunPath := RunDoc(run)]], budget - 1;
      outcome := Returned;
    }
  }

  // --- Whole runs over the output root ---

  datatype RootStep = Initialize(m: Manifest, allowed: nat) | Perform(m: Manifest, step: Step)

  /** The lock file of a missing directory cannot be opened. */
  function PlanIn(m: Manifest, root: Root, call: Call): Plan {
    if m.runId in root then PlanOf(m, root[m.runId], call) else Plan([], false)
  }

  function Next(root: Root, step: RootStep): Root {
    match step
    case Initialize(m, allowed) => AfterInitialize(m, root, allowed)
    case Perform(m, s) => if m.runId !in root then root else root[m.runId := After(m, root[m.runId], s)]
  }

  function RunRoot(root: Root, steps: seq<RootStep>): Root
    decreases |steps|
  {
    if |steps| == 0 then root else RunRoot(Next(root, steps[0]), steps[1..])
  }

  /**
   * A run can be started exactly if its directory is new and the run it names as its predecessor, if any, is recorded
   * as failed in the same environment; then its directory, and no other, is the initial one.
   */
  lemma InitializeStartsExactly(m: Manifest, root: Root)
    ensures MayInitialize(m, root) <==>
      && m.runId !in root
      && forall p :: m.predecessor == Some(p) ==>
           && p in root && RunPath in root[p] && root[p][RunPath].RunDoc?
           && root[p][RunPath].run.state == Terminal(Failed) && root[p][RunPath].run.environmentId == m.environmentId
    ensures var after := Next(root, Initialize(m, 2));
      if MayInitialize(m, root) then m.runId in after && after[m.runId] == Initialized(m) && after - {m.runId} == root - {m.runId}
      else after == root
  {
    if m.predecessor.Some? { assert m.predecessor == Some(m.predecessor.value); }
    hide Initialized;
  }

  /** Any other call works in the directory of its own run, if that is there. */
  lemma CallsStayInTheirDirectory(m: Manifest, root: Root, step: Step)
    ensures var after := Next(root, Perform(m, step));
      if m.runId in root then
        m.runId in after && after[m.runId] == After(m, root[m.runId], step) && after - {m.runId} == root - {m.runId}
      else after == root
  {
    hide After;
  }

  // --- A crash inside initialize ---

  /**
   * After a crash of initialize the next read succeeds exactly if the run file was written, and initialize
   * can be called again exactly if nothing was.
   */
  lemma InitializeIsAtomicFromItsFile(m: Manifest, root: Root, allowed: nat)
    requires m.Valid() && MayInitialize(m, root)
    requires allowed <= 2
    ensures var after := AfterInitialize(m, root, allowed);
      && (PlanIn(m, after, Read).completes <==> allowed == 2)
      && (MayInitialize(m, after) <==> allowed == 0)
  {
    InitializedIsValid(m);
    RepairSettles(m, Initialized(m));
    hide Initialized;
  }

  lemma EmptyDirectoryRefuses(m: Manifest, call: Call)
    ensures PlanOf(m, map[], call) == Plan([], false)
  {
  }

  /** So the directory that a crash between the two changes leaves stays empty, whoever calls what on it. */
  lemma {:induction false} EmptyDirectoryIsStuck(root: Root, steps: seq<RootStep>, id: string)
    requires id in root && root[id] == map[]
    ensures id in RunRoot(root, steps) && RunRoot(root, steps)[id] == map[]
    decreases |steps|
  {
    if |steps| > 0 {
      if steps[0].Perform? { EmptyDirectoryRefuses(steps[0].m, steps[0].step.call); }
      EmptyDirectoryIsStuck(Next(root, steps[0]), steps[1..], id);
    }
  }

  // --- Every other directory recovers ---

  /** Manifests by their SHA-256, which is injective. */
  type Manifests = map<string, Manifest>

  ghost predicate Knows(all: Manifests, m: Manifest) {
    m.hash in all && all[m.hash] == m && m.Valid() && m.predecessor != Some(m.runId)
  }

  /** The directory was made from one of the manifests and is as the store writes it. */
  ghost predicate Governed(all: Manifests, id: string, files: Files) {
    && RunPath in files && files[RunPath].RunDoc? && files[RunPath].run.manifestHash in all
    && var m := ManifestOf(all, files);
       Knows(all, m) && m.runId == id && Valid(m, files)
  }

  ghost function ManifestOf(all: Manifests, files: Files): Manifest
    requires RunPath in files && files[RunPath].RunDoc? && files[RunPath].run.manifestHash in all
  {
    all[files[RunPath].run.manifestHash]
  }

  ghost function Shown(all: Manifests, id: string, files: Files): (run: Run)
    requires Governed(all, id, files)
  {
    RepairSettles(ManifestOf(all, files), files);
    View(ManifestOf(all, files), files).value
  }

  /** The run that another one names as its predecessor. */
  ghost predicate IsFailedRun(all: Manifests, root: Root, id: string, environmentId: string) {
    && id in root && Governed(all, id, root[id])
    && ManifestOf(all, root[id]).environmentId == environmentId
    && Shown(all, id, root[id]).state == Terminal(Failed)
  }

  ghost predicate ValidDirectory(all: Manifests, root: Root, id: string)
    requires id in root
  {
    root[id] == map[]
    || (&& Governed(all, id, root[id])
        && var m := ManifestOf(all, root[id]);
           m.predecessor.Some? ==> IsFailedRun(all, root, m.predecessor.value, m.environmentId))
  }

  ghost predicate ValidRoot(all: Manifests, root: Root) {
    forall id :: id in root ==> ValidDirectory(all, root, id)
  }

  ghost predicate DirectoryGrows(all: Manifests, id: string, before: Files, after: Files) {
    if before == map[] then after == map[]
    else
      && Governed(all, id, before) && Governed(all, id, after) && ManifestOf(all, after) == ManifestOf(all, before)
      && Later(Shown(all, id, before), Shown(all, id, after))
  }

  ghost predicate RootGrows(all: Manifests, before: Root, after: Root) {
    forall id :: id in before ==> id in after && DirectoryGrows(all, id, before[id], after[id])
  }

  lemma StaysTheSame(all: Manifests, id: string, files: Files)
    requires files == map[] || Governed(all, id, files)
    ensures DirectoryGrows(all, id, files, files)
  {
    if files != map[] { ViewIsAccountable(ManifestOf(all, files), files); }
  }

  /** A call under another manifest is refused; under its own, the run grows. */
  lemma PerformGrows(all: Manifests, m: Manifest, files: Files, step: Step)
    requires Knows(all, m) && (files == map[] || Governed(all, m.runId, files))
    ensures DirectoryGrows(all, m.runId, files, After(m, files, step))
  {
    if files == map[] {
      EmptyDirectoryRefuses(m, step.call);
    } else if files[RunPath].run.manifestHash == m.hash {
      StepIsLater(m, files, step);
      hide After;
      hide View;
      hide Later;
    } else {
      OtherManifestRefuses(m, files, step.call);
      assert After(m, files, step) == files;
      StaysTheSame(all, m.runId, files);
    }
  }

  lemma OtherManifestRefuses(m: Manifest, files: Files, call: Call)
    requires ReadRun(m, files).None?
    ensures PlanOf(m, files, call) == Plan([], false)
  {
  }

  /** A run that is stored as failed is also seen as failed. */
  lemma StoredFailureIsSeen(m: Manifest, files: Files)
    requires m.Valid() && Valid(m, files) && files[RunPath].run.state == Terminal(Failed)
    ensures View(m, files).Some? && View(m, files).value.state == Terminal(Failed)
  {
    ViewIsStoredOrDecided(m, files);
    if DecisionPath in files { FailureDecides(m, files); }
    hide View;
  }

  lemma FailureDecides(m: Manifest, files: Files)
    requires m.Valid() && Valid(m, files) && DecisionPath in files && files[RunPath].run.state == Terminal(Failed)
    ensures files[DecisionPath].decision.outcome == Failed
  {
    var run, d := files[RunPath].run, files[DecisionPath].decision;
    if Undecided(m, run) {
      ViewIsAccountable(m, files);
      ViewIsStoredOrDecided(m, files);
    }
    hide *;
  }

  lemma StoredFailureShows(all: Manifests, id: string, files: Files)
    requires Governed(all, id, files) && files[RunPath].run.state == Terminal(Failed)
    ensures Shown(all, id, files).state == Terminal(Failed)
  {
    hide Valid;
    hide View;
    StoredFailureIsSeen(ManifestOf(all, files), files);
  }

  lemma FailureStays(all: Manifests, before: Root, after: Root, id: string, environmentId: string)
    requires RootGrows(all, before, after) && IsFailedRun(all, before, id, environmentId)
    ensures IsFailedRun(all, after, id, environmentId)
  {
    assert DirectoryGrows(all, id, before[id], after[id]);
  }

  lemma GrownIsValid(all: Manifests, before: Root, after: Root, id: string)
    requires ValidRoot(all, before) && RootGrows(all, before, after) && id in before
    ensures ValidDirectory(all, after, id)
  {
    assert ValidDirectory(all, before, id) && DirectoryGrows(all, id, before[id], after[id]);
    if before[id] != map[] {
      var m := ManifestOf(all, before[id]);
      if m.predecessor.Some? { FailureStays(all, before, after, m.predecessor.value, m.environmentId); }
    }
  }

  lemma InitializeKeepsValid(all: Manifests, root: Root, m: Manifest, allowed: nat)
    requires ValidRoot(all, root) && Knows(all, m)
    ensures var after := AfterInitialize(m, root, allowed); ValidRoot(all, after) && RootGrows(all, root, after)
  {
    var after := AfterInitialize(m, root, allowed);
    forall id | id in root
      ensures id in after && DirectoryGrows(all, id, root[id], after[id])
    {
      assert ValidDirectory(all, root, id);
      StaysTheSame(all, id, root[id]);
    }
    assert RootGrows(all, root, after);
    InitializedIsValid(m);
    hide Initialized;
    forall id | id in after
      ensures ValidDirectory(all, after, id)
    {
      if id in root {
        GrownIsValid(all, root, after, id);
      } else if m.predecessor.Some? {
        var p := m.predecessor.value;
        assert ValidDirectory(all, root, p);
        StoredFailureShows(all, p, root[p]);
        FailureStays(all, root, after, p, m.environmentId);
      }
    }
  }

  lemma PerformKeepsValid(all: Manifests, root: Root, m: Manifest, step: Step)
    requires ValidRoot(all, root) && Knows(all, m)
    ensures var after := Next(root, Perform(m, step)); ValidRoot(all, after) && RootGrows(all, root, after)
  {
    var after := Next(root, Perform(m, step));
    forall id | id in root
      ensures id in after && DirectoryGrows(all, id, root[id], after[id])
    {
      assert ValidDirectory(all, root, id);
      if id == m.runId { PerformGrows(all, m, root[id], step); } else { StaysTheSame(all, id, root[id]); }
    }
    forall id | id in after
      ensures ValidDirectory(all, after, id)
    {
      GrownIsValid(all, root, after, id);
    }
  }

  lemma GrowthIsTransitive(all: Manifests, a: Root, b: Root, c: Root)
    requires RootGrows(all, a, b) && RootGrows(all, b, c)
    ensures RootGrows(all, a, c)
  {
    forall id | id in a
      ensures id in c && DirectoryGrows(all, id, a[id], c[id])
    {
      assert DirectoryGrows(all, id, a[id], b[id]) && DirectoryGrows(all, id, b[id], c[id]);
      if a[id] != map[] { LaterIsTransitive(Shown(all, id, a[id]), Shown(all, id, b[id]), Shown(all, id, c[id])); }
    }
  }

  /**
   * Over any initializes and any calls, under any of the manifests and with any crashes, every directory stays
   * empty or as the store writes it, its run only grows, and a run's predecessor stays there and failed.
   */
  lemma {:induction false} RootsOnlyGrow(all: Manifests, root: Root, steps: seq<RootStep>)
    requires ValidRoot(all, root) && forall i :: 0 <= i < |steps| ==> Knows(all, steps[i].m)
    ensures ValidRoot(all, RunRoot(root, steps)) && RootGrows(all, root, RunRoot(root, steps))
    decreases |steps|
  {
    if |steps| == 0 {
      forall id | id in root
        ensures DirectoryGrows(all, id, root[id], root[id])
      {
        assert ValidDirectory(all, root, id);
        StaysTheSame(all, id, root[id]);
      }
    } else {
      var next := Next(root, steps[0]);
      assert Knows(all, steps[0].m);
      match steps[0] {
        case Initialize(m, allowed) => InitializeKeepsValid(all, root, m, allowed);
        case Perform(m, step) => PerformKeepsValid(all, root, m, step);
      }
      RootsOnlyGrow(all, next, steps[1..]);
      GrowthIsTransitive(all, root, next, RunRoot(root, steps));
    }
  }

  /** In every reachable root a run can be read, and repaired, exactly if its index was ever written under that manifest. */
  lemma ReadableExactlyIfWritten(all: Manifests, steps: seq<RootStep>, m: Manifest)
    requires Knows(all, m) && forall i :: 0 <= i < |steps| ==> Knows(all, steps[i].m)
    ensures var root := RunRoot(map[], steps);
      PlanIn(m, root, Read).completes <==>
        m.runId in root && ReadRun(m, root[m.runId]).Some?
  {
    RootsOnlyGrow(all, map[], steps);
    var root := RunRoot(map[], steps);
    hide RunRoot;
    if m.runId in root {
      assert ValidDirectory(all, root, m.runId);
      ReadableIfGoverned(all, m, root[m.runId]);
    }
  }

  lemma ReadableIfGoverned(all: Manifests, m: Manifest, files: Files)
    requires Knows(all, m) && (files == map[] || Governed(all, m.runId, files))
    ensures PlanOf(m, files, Read).completes <==> ReadRun(m, files).Some?
  {
    hide Valid;
    if files == map[] {
      EmptyDirectoryRefuses(m, Read);
    } else if files[RunPath].run.manifestHash == m.hash {
      RepairSettles(m, files);
    } else {
      OtherManifestRefuses(m, files, Read);
    }
  }
}
