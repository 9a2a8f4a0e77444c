/** Recovery and gates of the evidence directory over any calls and crashes (infra/pilot_gate/evidence.py). */
module EvidenceRecovery {
  import opened Common
  import opened PilotGate
  import opened EvidenceStore

  // --- The directories the store writes, including those a crash leaves ---

  /** A content-addressed file holds what its name says. */
  predicate Addressed(path: Path, doc: Doc) {
    match path
    case CheckPath(_, sha) => doc == CheckDoc(sha.preimage)
    case SupportingPath(_, sha) => doc == SupportingDoc(sha.preimage)
    case AttestationPath(sha) => doc == AttestationDoc(sha.preimage)
    case RunPath => doc.RunDoc?
    case DecisionPath => doc.DecisionDoc?
  }

  ghost predicate ContentAddressed(files: Files) {
    forall path :: path in files ==> Addressed(path, files[path])
  }

  /** Every index entry says of a check what its immutable file says. */
  ghost predicate EntriesMatch(m: Manifest, run: Run) {
    forall id :: id in run.checks ==>
      run.checks[id].digest.preimage.status == run.checks[id].status
  }

  ghost predicate SoundRun(m: Manifest, files: Files, run: Run) {
    && run.runId == m.runId && run.environmentId == m.environmentId && run.manifestHash == m.hash
    && ChecksLoad(m, files, run) && SupportingLoads(m, files, run) && EntriesMatch(m, run)
    && Gated(m.gates, run.checks) && AtMostOneFailed(run.checks)
  }

  ghost predicate Undecided(m: Manifest, run: Run) {
    run.decision.None? && run.state == StateOf(m.gates, run.checks)
  }

  ghost predicate Valid(m: Manifest, files: Files) {
    && ContentAddressed(files) && RunPath in files
    && var run := files[RunPath].run;
       && SoundRun(m, files, run)
       && if DecisionPath !in files then Undecided(m, run)
          else
            var d := files[DecisionPath].decision;
            DecisionMatches(m, files, run, d) && (Undecided(m, run) || run == Decided(run, d))
  }

  /** The run as every call sees it: after repair. */
  function View(m: Manifest, files: Files): Option<Run> {
    match Repair(m, files)
    case None => None
    case Some((run, _)) => Some(run)
  }

  /** The directory that initialize leaves. */
  function Initialized(m: Manifest): Files {
    map[RunPath := RunDoc(Run(m.runId, m.environmentId, m.hash, Created, map[], map[], None))]
  }

  lemma InitializedIsValid(m: Manifest)
    requires m.Valid()
    ensures Valid(m, Initialized(m))
  {
    var checks: CheckIndex := map[];
    if |m.gates| > 0 && |m.gates[0]| > 0 { assert !HasPassed(checks, m.gates[0][0]); }
  }

  // --- Growing a directory by content-addressed files ---

  ghost predicate Grows(before: Files, after: Files) {
    forall path :: path in before && path != RunPath ==> path in after && after[path] == before[path]
  }

  lemma LoadsPersist(m: Manifest, before: Files, after: Files, run: Run)
    requires ChecksLoad(m, before, run) && SupportingLoads(m, before, run) && Grows(before, after)
    ensures ChecksLoad(m, after, run) && SupportingLoads(m, after, run)
  {
  }

  lemma DecisionPersists(m: Manifest, before: Files, after: Files, run: Run, d: Decision)
    requires DecisionMatches(m, before, run, d) && Grows(before, after)
    ensures DecisionMatches(m, after, run, d)
  {
    LoadsPersist(m, before, after, run);
  }

  /** A content file changes neither validity nor what any call sees. */
  lemma ContentFileIsInvisible(m: Manifest, files: Files, path: Path, doc: Doc)
    requires Valid(m, files) && path != RunPath && path != DecisionPath && Addressed(path, doc)
    ensures Valid(m, files[path := doc]) && View(m, files[path := doc]) == View(m, files)
  {
    var after := files[path := doc];
    assert Grows(files, after);
    LoadsPersist(m, files, after, files[RunPath].run);
    if DecisionPath in files { DecisionPersists(m, files, after, files[RunPath].run, files[DecisionPath].decision); }
  }

  // --- Repair ---

  /** Repair never rejects a directory the store wrote, and repairing again changes nothing. */
  lemma RepairSettles(m: Manifest, files: Files)
    requires Valid(m, files)
    ensures Repair(m, files).Some?
    ensures var (run, repairs) := Repair(m, files).value;
      var after := ApplyAll(files, repairs);
      && run == (if DecisionPath in files then Decided(files[RunPath].run, files[DecisionPath].decision) else files[RunPath].run)
      && Valid(m, after) && Repair(m, after) == Some((run, []))
  {
    var (run, repairs) := Repair(m, files).value;
    if repairs != [] {
      var after := files[RunPath := RunDoc(run)];
      assert repairs[1..] == [] && ApplyAll(files, repairs) == after;
      DecidedIsValid(m, files);
    }
  }

  lemma DecidedIsValid(m: Manifest, files: Files)
    requires Valid(m, files) && DecisionPath in files
    ensures var run := Decided(files[RunPath].run, files[DecisionPath].decision);
      Valid(m, files[RunPath := RunDoc(run)]) && Repair(m, files[RunPath := RunDoc(run)]) == Some((run, []))
  {
    var run, d := files[RunPath].run, files[DecisionPath].decision;
    var after := files[RunPath := RunDoc(Decided(run, d))];
    assert Grows(files, after);
    LoadsPersist(m, files, after, run);
    DecisionPersists(m, files, after, run, d);
    assert LoadedChecks(Decided(run, d)) == LoadedChecks(run);
  }

  // --- The two writes of record_check and record_supporting_evidence ---

  /** A new index over the same directory, for a run that is still undecided. */
  lemma NewIndexIsValid(m: Manifest, files: Files, run: Run)
    requires Valid(m, files) && DecisionPath !in files && SoundRun(m, files, run) && Undecided(m, run)
    ensures var after := files[RunPath := RunDoc(run)]; Valid(m, after) && View(m, after) == Some(run)
  {
    var after := files[RunPath := RunDoc(run)];
    assert Grows(files, after);
    LoadsPersist(m, files, after, run);
  }

  lemma AcceptedMeansOpen(m: Manifest, files: Files)
    requires Valid(m, files) && View(m, files).Some? && !View(m, files).value.state.Terminal?
    ensures DecisionPath !in files && View(m, files) == Some(files[RunPath].run) && Repair(m, files) == Some((files[RunPath].run, []))
    ensures !AnyFailed(files[RunPath].run.checks)
  {
  }

  lemma CheckIsRecorded(m: Manifest, files: Files, e: Evidence)
    requires Valid(m, files) && DecisionPath !in files && !files[RunPath].run.state.Terminal?
    requires AcceptsCheck(m, files, files[RunPath].run, e)
    ensures var path, run := CheckPath(e.checkId, Sha(e)), WithCheck(m, files[RunPath].run, e);
      var first := files[path := CheckDoc(e)];
      var both := first[RunPath := RunDoc(run)];
      && Valid(m, first) && View(m, first) == View(m, files)
      && Valid(m, both) && View(m, both) == Some(run)
  {
    var old_, run := files[RunPath].run, WithCheck(m, files[RunPath].run, e);
    var path := CheckPath(e.checkId, Sha(e));
    var first := files[path := CheckDoc(e)];
    var g := GateOf(m.gates, e.checkId).value;
    ContentFileIsInvisible(m, files, path, CheckDoc(e));
    AcceptedMeansOpen(m, files);
    RecordKeepsGates(m.gates, old_.checks, e, g);
    RecordKeepsState(m.gates, old_.checks, e, g);
    RecordKeepsOneFailed(old_.checks, e, g);
    NewIndexIsValid(m, first, run);
  }

  lemma SupportingIsRecorded(m: Manifest, files: Files, s: Supporting)
    requires Valid(m, files) && DecisionPath !in files && s.checkId in m.adapters
    requires AcceptsSupporting(files, files[RunPath].run, s)
    ensures var path, run := SupportingPath(s.checkId, Sha(s)), WithSupporting(files[RunPath].run, s);
      var first := files[path := SupportingDoc(s)];
      var both := first[RunPath := RunDoc(run)];
      && Valid(m, first) && View(m, first) == View(m, files)
      && Valid(m, both) && View(m, both) == Some(run)
  {
    var path, run := SupportingPath(s.checkId, Sha(s)), WithSupporting(files[RunPath].run, s);
    var first := files[path := SupportingDoc(s)];
    ContentFileIsInvisible(m, files, path, SupportingDoc(s));
    NewIndexIsValid(m, first, run);
  }

  // --- The three writes of finalize ---

  lemma DecisionIsRecorded(m: Manifest, files: Files, a: Attestation, key: string, decidedAt: string)
    requires Valid(m, files) && DecisionPath !in files && AcceptsDecision(m, files, files[RunPath].run, a, key)
    ensures var run := files[RunPath].run;
      var d := DecisionFor(m, run, a, decidedAt);
      var first := files[AttestationPath(AttestationSha(a)) := AttestationDoc(a)];
      var second := first[DecisionPath := DecisionDoc(d)];
      var all := second[RunPath := RunDoc(Decided(run, d))];
      && Valid(m, first) && View(m, first) == View(m, files)
      && Valid(m, second) && View(m, second) == Some(Decided(run, d))
      && Valid(m, all) && View(m, all) == Some(Decided(run, d))
  {
    var run := files[RunPath].run;
    var d := DecisionFor(m, run, a, decidedAt);
    var first := files[AttestationPath(AttestationSha(a)) := AttestationDoc(a)];
    var second := first[DecisionPath := DecisionDoc(d)];
    ContentFileIsInvisible(m, files, AttestationPath(AttestationSha(a)), AttestationDoc(a));
    assert Grows(first, second);
    LoadsPersist(m, first, second, run);
    assert DecisionMatches(m, second, run, d);
    DecidedIsValid(m, second);
  }

  // --- Crash safety of every call ---

  /** What a crash after `k` writes of a call leaves. */
  function Interrupted(m: Manifest, files: Files, call: Call, k: nat): Files
    requires k <= |PlanOf(m, files, call).writes|
  {
    ApplyAll(files, PlanOf(m, files, call).writes[..k])
  }

  /** The call gets past its checks on a run that is still open. */
  predicate Accepted(m: Manifest, files: Files, call: Call)
    requires RunPath in files && files[RunPath].RunDoc?
  {
    var run := files[RunPath].run;
    && DecisionPath !in files
    && match call
       case Read => false
       case RecordCheck(e) => AcceptsCheck(m, files, run, e)
       case RecordSupporting(s) => s.checkId in m.adapters && AcceptsSupporting(files, run, s)
       case Finalize(a, key, _) => AcceptsDecision(m, files, run, a, key)
  }

  /** The run that an accepted call leaves. */
  function Result(m: Manifest, run: Run, call: Call): Run
    requires call.RecordCheck? ==> GateOf(m.gates, call.evidence.checkId).Some?
  {
    match call
    case Read => run
    case RecordCheck(e) => WithCheck(m, run, e)
    case RecordSupporting(s) => WithSupporting(run, s)
    case Finalize(a, _, decidedAt) => Decided(run, DecisionFor(m, run, a, decidedAt))
  }

  lemma OnlyRepairs(m: Manifest, files: Files, call: Call)
    requires Valid(m, files) && !Accepted(m, files, call)
    ensures PlanOf(m, files, call).writes == [] || PlanOf(m, files, call).writes == Repair(m, files).value.1
  {
    RepairSettles(m, files);
    RepairShape(m, files);
    if DecisionPath !in files { assert Repair(m, files) == Some((files[RunPath].run, [])); }
  }

  /** An accepted call writes its content file, perhaps the decision, and the index. */
  lemma AcceptedPlan(m: Manifest, files: Files, call: Call)
    requires Valid(m, files) && Accepted(m, files, call)
    ensures Repair(m, files) == Some((files[RunPath].run, [])) && PlanOf(m, files, call).completes
    ensures var run := files[RunPath].run;
      PlanOf(m, files, call).writes ==
        match call
        case Read => []
        case RecordCheck(e) => [Put(CheckPath(e.checkId, Sha(e)), CheckDoc(e)), Put(RunPath, RunDoc(WithCheck(m, run, e)))]
        case RecordSupporting(s) =>
          [Put(SupportingPath(s.checkId, Sha(s)), SupportingDoc(s)), Put(RunPath, RunDoc(WithSupporting(run, s)))]
        case Finalize(a, _, decidedAt) =>
          var d := DecisionFor(m, run, a, decidedAt);
          [Put(AttestationPath(AttestationSha(a)), AttestationDoc(a)), Put(DecisionPath, DecisionDoc(d)), Put(RunPath, RunDoc(Decided(run, d)))]
  {
  }

  /** Each prefix of the writes is a valid directory that shows the old run, or from the second write on the new one. */
  ghost predicate Atomic(m: Manifest, files: Files, writes: seq<Write>, result: Run) {
    forall k :: 0 <= k <= |writes| ==>
      && Valid(m, ApplyAll(files, writes[..k]))
      && View(m, ApplyAll(files, writes[..k])) == if k < 2 then View(m, files) else Some(result)
  }

  lemma TwoWritesAreAtomic(m: Manifest, files: Files, writes: seq<Write>, result: Run)
    requires |writes| == 2 && Valid(m, files)
    requires var first := files[writes[0].path := writes[0].doc];
      var both := first[writes[1].path := writes[1].doc];
      Valid(m, first) && View(m, first) == View(m, files) && Valid(m, both) && View(m, both) == Some(result)
    ensures Atomic(m, files, writes, result)
  {
    PrefixesOfTwo(files, writes);
    hide *;
    forall k | 0 <= k <= |writes|
      ensures Valid(m, ApplyAll(files, writes[..k])) && View(m, ApplyAll(files, writes[..k])) == if k < 2 then View(m, files) else Some(result)
    {
      assert k == 0 || k == 1 || k == 2;
    }
    AtomicHolds(m, files, writes, result);
  }

  lemma ThreeWritesAreAtomic(m: Manifest, files: Files, writes: seq<Write>, result: Run)
    requires |writes| == 3 && Valid(m, files)
    requires var first := files[writes[0].path := writes[0].doc];
      var second := first[writes[1].path := writes[1].doc];
      var all := second[writes[2].path := writes[2].doc];
      && Valid(m, first) && View(m, first) == View(m, files) && Valid(m, second) && View(m, second) == Some(result)
      && Valid(m, all) && View(m, all) == Some(result)
    ensures Atomic(m, files, writes, result)
  {
    PrefixesOfThree(files, writes);
    hide *;
    forall k | 0 <= k <= |writes|
      ensures Valid(m, ApplyAll(files, writes[..k])) && View(m, ApplyAll(files, writes[..k])) == if k < 2 then View(m, files) else Some(result)
    {
      assert k == 0 || k == 1 || k == 2 || k == 3;
    }
    AtomicHolds(m, files, writes, result);
  }

  lemma AtomicHolds(m: Manifest, files: Files, writes: seq<Write>, result: Run)
    requires forall k :: 0 <= k <= |writes| ==>
      && Valid(m, ApplyAll(files, writes[..k]))
      && View(m, ApplyAll(files, writes[..k])) == if k < 2 then View(m, files) else Some(result)
    ensures Atomic(m, files, writes, result)
  {
  }

  lemma AcceptedIsRecorded(m: Manifest, files: Files, call: Call)
    requires Valid(m, files) && Accepted(m, files, call)
    ensures var writes := PlanOf(m, files, call).writes;
      && (|writes| == 2 || |writes| == 3) && PlanOf(m, files, call).completes
      && View(m, files) == Some(files[RunPath].run)
      && Atomic(m, files, writes, Result(m, files[RunPath].run, call))
  {
    var writes := PlanOf(m, files, call).writes;
    AcceptedPlan(m, files, call);
    assert call.RecordCheck? ==> GateOf(m.gates, call.evidence.checkId).Some?;
    assert View(m, files) == Some(files[RunPath].run);
    hide PlanOf;
    hide Repair;
    hide Valid;
    hide View;
    match call
    case RecordCheck(e) =>
      CheckIsRecorded(m, files, e);
      TwoWritesAreAtomic(m, files, writes, WithCheck(m, files[RunPath].run, e));
    case RecordSupporting(s) =>
      SupportingIsRecorded(m, files, s);
      TwoWritesAreAtomic(m, files, writes, WithSupporting(files[RunPath].run, s));
    case Finalize(a, key, decidedAt) =>
      DecisionIsRecorded(m, files, a, key, decidedAt);
      ThreeWritesAreAtomic(m, files, writes, Decided(files[RunPath].run, DecisionFor(m, files[RunPath].run, a, decidedAt)));
  }

  /**
   * After a crash between any two writes of any call the next read succeeds, and yields either the
   * run before the call or the run the uninterrupted call would have left.
   */
  lemma CrashesAreAtomic(m: Manifest, files: Files, call: Call, k: nat)
    requires Valid(m, files) && k <= |PlanOf(m, files, call).writes|
    ensures Valid(m, Interrupted(m, files, call, k))
    ensures View(m, Interrupted(m, files, call, k)).Some?
    ensures var complete := Interrupted(m, files, call, |PlanOf(m, files, call).writes|);
      View(m, Interrupted(m, files, call, k)) == View(m, files) || View(m, Interrupted(m, files, call, k)) == View(m, complete)
  {
    var plan := PlanOf(m, files, call);
    RepairSettles(m, files);
    RepairShape(m, files);
    if Accepted(m, files, call) {
      AcceptedIsRecorded(m, files, call);
      PrefixEnds(files, plan.writes);
      hide *;
      assert k == 0 || k == 1 || k == 2 || k == 3;
    } else {
      OnlyRepairs(m, files, call);
      PrefixEnds(files, plan.writes);
    }
  }

  // --- What a crashed caller does next ---

  /** The content-addressed file that an accepted call writes first. */
  function ContentFile(call: Call): Write
    requires !call.Read?
  {
    match call
    case RecordCheck(e) => Put(CheckPath(e.checkId, Sha(e)), CheckDoc(e))
    case RecordSupporting(s) => Put(SupportingPath(s.checkId, Sha(s)), SupportingDoc(s))
    case Finalize(a, _, _) => Put(AttestationPath(AttestationSha(a)), AttestationDoc(a))
  }

  lemma ContentFileIsFirst(m: Manifest, files: Files, call: Call)
    requires Valid(m, files) && Accepted(m, files, call)
    ensures var w := ContentFile(call);
      |PlanOf(m, files, call).writes| >= 2 && Interrupted(m, files, call, 1) == files[w.path := w.doc]
  {
    AcceptedPlan(m, files, call);
    var writes := PlanOf(m, files, call).writes;
    assert |writes| >= 2 && writes[0] == ContentFile(call);
    hide PlanOf;
    ApplyOneMore(files, writes, 0);
    PrefixEnds(files, writes);
  }

  lemma ContentFileIsAccepted(m: Manifest, files: Files, call: Call)
    requires Valid(m, files) && Accepted(m, files, call)
    ensures var w := ContentFile(call);
      var first := files[w.path := w.doc];
      Valid(m, first) && first[RunPath] == files[RunPath] && first[RunPath].RunDoc? && Accepted(m, first, call)
  {
    var w := ContentFile(call);
    var first := files[w.path := w.doc];
    ContentFileIsInvisible(m, files, w.path, w.doc);
    assert Grows(files, first);
    LoadsPersist(m, files, first, files[RunPath].run);
    hide ChecksLoad;
    hide SupportingLoads;
    hide Violations;
  }

  lemma WholeCallRecords(m: Manifest, files: Files, call: Call)
    requires Valid(m, files) && Accepted(m, files, call)
    ensures var n := |PlanOf(m, files, call).writes|;
      && View(m, files) == Some(files[RunPath].run)
      && forall k :: 0 <= k <= n ==>
           View(m, Interrupted(m, files, call, k)) == if k < 2 then View(m, files) else Some(Result(m, files[RunPath].run, call))
  {
    AcceptedIsRecorded(m, files, call);
    hide View;
    hide Valid;
    hide PlanOf;
    hide Result;
  }

  /**
   * A call that died before its second write changed nothing that anyone sees: made again, it is accepted again
   * and leaves the run that the whole call would have left. One that died later is already recorded.
   */
  lemma RetryCompletes(m: Manifest, files: Files, call: Call, k: nat)
    requires Valid(m, files) && Accepted(m, files, call) && k <= |PlanOf(m, files, call).writes|
    ensures var run := Result(m, files[RunPath].run, call);
      var crashed := Interrupted(m, files, call, k);
      if k >= 2 then View(m, crashed) == Some(run)
      else
        && View(m, crashed) == View(m, files)
        && RunPath in crashed && crashed[RunPath].RunDoc? && Accepted(m, crashed, call)
        && View(m, Interrupted(m, crashed, call, |PlanOf(m, crashed, call).writes|)) == Some(run)
  {
    var crashed := Interrupted(m, files, call, k);
    WholeCallRecords(m, files, call);
    ContentFileIsFirst(m, files, call);
    ContentFileIsAccepted(m, files, call);
    PrefixEnds(files, PlanOf(m, files, call).writes);
    assert k == 0 ==> crashed == files;
    assert k < 2 ==> Valid(m, crashed) && Accepted(m, crashed, call) && crashed[RunPath] == files[RunPath];
    if k < 2 {
      WholeCallRecords(m, crashed, call);
      ContentFileIsFirst(m, crashed, call);
    }
    hide *;
  }

  // --- Whole runs: any calls, each possibly cut short ---

  /** One call and the number of writes it gets to make. */
  datatype Step = Step(call: Call, allowed: nat)

  function After(m: Manifest, files: Files, step: Step): Files {
    var n := |PlanOf(m, files, step.call).writes|;
    Interrupted(m, files, step.call, if step.allowed < n then step.allowed else n)
  }

  function RunAll(m: Manifest, files: Files, steps: seq<Step>): Files
    decreases |steps|
  {
    if |steps| == 0 then files else RunAll(m, After(m, files, steps[0]), steps[1..])
  }

  /** The run a later call sees is one that grew from the run an earlier call saw. */
  ghost predicate Later(before: Run, after: Run) {
    && (forall id :: id in before.checks ==> id in after.checks && after.checks[id] == before.checks[id])
    && (forall id :: id in before.supporting ==> id in after.supporting && after.supporting[id] == before.supporting[id])
    && (AnyFailed(before.checks) ==> after.checks == before.checks)
    && (before.state == Terminal(Failed) ==> after.state == Terminal(Failed))
    && (before.decision.Some? ==> after == before)
  }

  lemma LaterIsTransitive(a: Run, b: Run, c: Run)
    requires Later(a, b) && Later(b, c)
    ensures Later(a, c)
  {
  }

  /** A decision to pass means that every required check passed. */
  lemma DecisionAgrees(m: Manifest, files: Files, run: Run, d: Decision)
    requires m.Valid() && SoundRun(m, files, run) && DecisionMatches(m, files, run, d)
    ensures d.outcome == Passed ==> forall id :: id in m.required ==> HasPassed(run.checks, id)
    ensures AnyFailed(run.checks) ==> d.outcome == Failed
  {
    var loaded := LoadedChecks(run);
    if d.outcome == Passed {
      NoViolationsMeansSatisfied(m, loaded);
      hide Violations;
      hide GateOf;
      forall id | id in m.required
        ensures HasPassed(run.checks, id)
      {
        var i :| 0 <= i < |m.required| && m.required[i] == id;
        assert loaded[id].status == run.checks[id].status;
      }
      assert forall id :: id in run.checks ==> id in m.required;
    }
  }

  /** What a run says of itself: its gates, and a state that its checks or its decision account for. */
  ghost predicate Accountable(m: Manifest, run: Run) {
    && Gated(m.gates, run.checks) && AtMostOneFailed(run.checks)
    && (run.decision.None? ==> run.state == StateOf(m.gates, run.checks))
    && (AnyFailed(run.checks) ==> run.state == Terminal(Failed))
    && (run.state == Terminal(Passed) ==> forall id :: id in m.required ==> HasPassed(run.checks, id))
  }

  lemma ViewIsStoredOrDecided(m: Manifest, files: Files)
    requires Valid(m, files)
    ensures var run := files[RunPath].run;
      View(m, files) == Some(if DecisionPath in files then Decided(run, files[DecisionPath].decision) else run)
  {
    RepairSettles(m, files);
  }

  /** Every run that any call sees accounts for itself. */
  lemma ViewIsAccountable(m: Manifest, files: Files)
    requires m.Valid() && Valid(m, files)
    ensures View(m, files).Some? && Accountable(m, View(m, files).value)
    ensures View(m, files).value.checks == files[RunPath].run.checks
  {
    ViewIsStoredOrDecided(m, files);
    var run := files[RunPath].run;
    if DecisionPath in files {
      DecisionAgrees(m, files, run, files[DecisionPath].decision);
    }
    hide Repair;
    hide View;
    hide GateOf;
    hide DecisionMatches;
  }

  lemma OpenHasNoFailure(m: Manifest, run: Run)
    requires Undecided(m, run) && !run.state.Terminal?
    ensures !AnyFailed(run.checks)
  {
  }

  lemma CheckIsLater(m: Manifest, run: Run, e: Evidence)
    requires Undecided(m, run) && !run.state.Terminal? && e.checkId !in run.checks && GateOf(m.gates, e.checkId).Some?
    ensures Later(run, WithCheck(m, run, e))
  {
    OpenHasNoFailure(m, run);
    hide StateOf;
    hide NextState;
    hide GateOf;
  }

  lemma SupportingIsLater(m: Manifest, run: Run, s: Supporting)
    requires Undecided(m, run) && s.checkId !in run.supporting
    ensures Later(run, WithSupporting(run, s))
  {
    hide StateOf;
  }

  lemma DecidedIsLater(m: Manifest, run: Run, d: Decision)
    requires Undecided(m, run) && AnyFailed(run.checks) == (run.state == Terminal(Failed))
    requires AnyFailed(run.checks) ==> d.outcome == Failed
    ensures Later(run, Decided(run, d))
  {
    hide StateOf;
  }

  lemma FailedStateIsFailedCheck(m: Manifest, run: Run)
    requires Undecided(m, run)
    ensures AnyFailed(run.checks) == (run.state == Terminal(Failed))
  {
  }

  lemma ResultIsLater(m: Manifest, files: Files, call: Call)
    requires m.Valid() && Valid(m, files) && Accepted(m, files, call)
    requires Accountable(m, Result(m, files[RunPath].run, call))
    ensures Later(files[RunPath].run, Result(m, files[RunPath].run, call))
  {
    var run := files[RunPath].run;
    assert Undecided(m, run);
    hide Valid;
    hide Later;
    hide Undecided;
    hide WithCheck;
    match call
    case RecordCheck(e) => CheckIsLater(m, run, e);
    case RecordSupporting(s) => SupportingIsLater(m, run, s);
    case Finalize(a, key, decidedAt) =>
      FailedStateIsFailedCheck(m, run);
      DecidedIsLater(m, run, DecisionFor(m, run, a, decidedAt));
    case Read =>
  }

  /** One call, complete or cut short, leads from a valid directory to a valid and later one. */
  lemma StepIsLater(m: Manifest, files: Files, step: Step)
    requires m.Valid() && Valid(m, files)
    ensures Valid(m, After(m, files, step))
    ensures View(m, files).Some? && View(m, After(m, files, step)).Some?
    ensures Later(View(m, files).value, View(m, After(m, files, step)).value)
  {
    var plan := PlanOf(m, files, step.call);
    var k := if step.allowed < |plan.writes| then step.allowed else |plan.writes|;
    CrashesAreAtomic(m, files, step.call, k);
    CrashesAreAtomic(m, files, step.call, |plan.writes|);
    RepairSettles(m, files);
    if Accepted(m, files, step.call) {
      AcceptedIsRecorded(m, files, step.call);
      ViewIsAccountable(m, Interrupted(m, files, step.call, |plan.writes|));
      ResultIsLater(m, files, step.call);
    } else {
      OnlyRepairs(m, files, step.call);
      UnacceptedShowsTheSame(m, files, step.call, k);
    }
  }

  lemma UnacceptedShowsTheSame(m: Manifest, files: Files, call: Call, k: nat)
    requires Valid(m, files) && !Accepted(m, files, call) && k <= |PlanOf(m, files, call).writes|
    ensures View(m, Interrupted(m, files, call, k)) == View(m, files)
  {
    var plan := PlanOf(m, files, call);
    RepairSettles(m, files);
    RepairShape(m, files);
    OnlyRepairs(m, files, call);
    PrefixEnds(files, plan.writes);
  }

  /**
   * Over any calls with any crashes, from any directory the store wrote: the directory stays valid and
   * its run only ever grows, keeps a failure for ever, and never changes once decided.
   */
  lemma {:induction false} RunsOnlyGrow(m: Manifest, files: Files, steps: seq<Step>)
    requires m.Valid() && Valid(m, files)
    ensures Valid(m, RunAll(m, files, steps))
    ensures View(m, files).Some? && View(m, RunAll(m, files, steps)).Some?
    ensures Later(View(m, files).value, View(m, RunAll(m, files, steps)).value)
    decreases |steps|
  {
    if |steps| == 0 {
      ViewIsAccountable(m, files);
    } else {
      StepIsLater(m, files, steps[0]);
      RunsOnlyGrow(m, After(m, files, steps[0]), steps[1..]);
      LaterIsTransitive(View(m, files).value, View(m, After(m, files, steps[0])).value, View(m, RunAll(m, files, steps)).value);
    }
  }

  /** Gates, states and outcomes of every run that starts with initialize. */
  lemma ReachableRunsAreAccountable(m: Manifest, steps: seq<Step>)
    requires m.Valid()
    ensures var run := View(m, RunAll(m, Initialized(m), steps));
      run.Some? && Accountable(m, run.value)
  {
    InitializedIsValid(m);
    RunsOnlyGrow(m, Initialized(m), steps);
    ViewIsAccountable(m, RunAll(m, Initialized(m), steps));
  }
}
