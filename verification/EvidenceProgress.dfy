/** Which calls the evidence store accepts, and which gate tables a run can get through (infra/pilot_gate/evidence.py). */
module EvidenceProgress {
  import opened Common
  import opened PilotGate
  import opened EvidenceStore
  import opened EvidenceRecovery
  import R = EvidenceRecovery

  // --- What is accepted ---

  /** Every check of every lower gate is recorded as passed. */
  predicate LowerGatesPassed(gates: seq<seq<CheckId>>, checks: CheckIndex, id: CheckId) {
    && GateOf(gates, id).Some?
    && forall k, i :: 0 <= k < GateOf(gates, id).value && 0 <= i < |gates[k]| ==>
         gates[k][i] in checks && checks[gates[k][i]].status == Passed
  }

  /** A check is recorded exactly if it is of this run and environment, known, new and not premature, and the run is open. */
  lemma CheckIsAcceptedExactly(m: Manifest, files: Files, e: Evidence)
    requires Valid(m, files)
    ensures var run := View(m, files);
      && run.Some?
      && (PlanOf(m, files, RecordCheck(e)).completes <==>
           && !run.value.state.Terminal? && e.runId == m.runId && e.environmentId == m.environmentId
           && e.checkId !in run.value.checks && LowerGatesPassed(m.gates, run.value.checks, e.checkId))
      && (PlanOf(m, files, RecordCheck(e)).completes <==> Accepted(m, files, RecordCheck(e)))
  {
    ViewIsStoredOrDecided(m, files);
    RepairSettles(m, files);
    RecordCheckPlan(m, files, e);
    assert !Conflicts(files, CheckPath(e.checkId, Sha(e)), CheckDoc(e));
    PriorGatesSpelled(m.gates, files[RunPath].run.checks, e.checkId);
    hide PlanOf;
    hide Repair;
    hide PriorGatesPassed;
    hide LowerGatesPassed;
    hide DecisionMatches;
    hide SoundRun;
  }

  lemma PriorGatesSpelled(gates: seq<seq<CheckId>>, checks: CheckIndex, id: CheckId)
    ensures LowerGatesPassed(gates, checks, id) <==>
      GateOf(gates, id).Some? && PriorGatesPassed(gates, checks, GateOf(gates, id).value)
  {
    if GateOf(gates, id).Some? && PriorGatesPassed(gates, checks, GateOf(gates, id).value) {
      forall k, i | 0 <= k < GateOf(gates, id).value && 0 <= i < |gates[k]|
        ensures HasPassed(checks, gates[k][i])
      {
        assert GatePassed(checks, gates[k]);
      }
    }
  }

  /** Supporting evidence is recorded exactly if its adapter is allowed and new, and the run is open. */
  lemma SupportingIsAcceptedExactly(m: Manifest, files: Files, s: Supporting)
    requires Valid(m, files)
    ensures var run := View(m, files);
      && run.Some?
      && (PlanOf(m, files, RecordSupporting(s)).completes <==>
           s.checkId in m.adapters && !run.value.state.Terminal? && s.checkId !in run.value.supporting)
      && (PlanOf(m, files, RecordSupporting(s)).completes <==> Accepted(m, files, RecordSupporting(s)))
  {
    ViewIsStoredOrDecided(m, files);
    RepairSettles(m, files);
    RecordSupportingPlan(m, files, s);
    assert !Conflicts(files, SupportingPath(s.checkId, Sha(s)), SupportingDoc(s));
    hide PlanOf;
    hide Repair;
    hide DecisionMatches;
    hide SoundRun;
  }

  /** A run is decided exactly if it is not decided yet and the attestation is what its reviewer signs for it. */
  lemma DecisionIsAcceptedExactly(m: Manifest, files: Files, a: Attestation, key: string, decidedAt: string)
    requires Valid(m, files)
    ensures var run := View(m, files);
      && run.Some?
      && (PlanOf(m, files, Finalize(a, key, decidedAt)).completes <==>
           && run.value.decision.None?
           && Sign(m, run.value, a.payload.reviewerId, key, a.payload.reviewedAt) == Some(a))
      && (PlanOf(m, files, Finalize(a, key, decidedAt)).completes <==> Accepted(m, files, Finalize(a, key, decidedAt)))
  {
    ViewIsStoredOrDecided(m, files);
    FinalizePlan(m, files, a, key, decidedAt);
    assert !Conflicts(files, AttestationPath(AttestationSha(a)), AttestationDoc(a));
    VerifiesExactlyWhatWasSigned(m, files[RunPath].run, a, key);
    hide PlanOf;
    hide Repair;
    hide DecisionMatches;
    hide Verifies;
    hide Sign;
  }

  /** The outcome it records is a pass exactly if the recorded checks satisfy the gates. */
  lemma DecisionIsPassExactly(m: Manifest, files: Files, a: Attestation, key: string, decidedAt: string)
    requires Valid(m, files) && Accepted(m, files, Finalize(a, key, decidedAt))
    ensures var after := View(m, After(m, files, Step(Finalize(a, key, decidedAt), 3)));
      && after.Some? && after.value.decision.Some?
      && after.value.decision.value.outcome == (if Satisfied(m, LoadedChecks(files[RunPath].run)) then Passed else Failed)
      && after.value.state == Terminal(after.value.decision.value.outcome)
      && forall v :: v in after.value.decision.value.digest.preimage.violations <==>
           Holds(m, LoadedChecks(files[RunPath].run), v)
  {
    var checks := LoadedChecks(files[RunPath].run);
    AcceptedPlan(m, files, Finalize(a, key, decidedAt));
    WholeCallRecords(m, files, Finalize(a, key, decidedAt));
    NoViolationsMeansSatisfied(m, checks);
    forall v
      ensures v in Violations(m, checks) <==> Holds(m, checks, v)
    {
      ViolationsAreFacts(m, checks, v);
    }
    hide PlanOf;
    hide Violations;
    hide Holds;
    hide Satisfied;
    hide Valid;
    hide View;
    hide Interrupted;
    hide Accepted;
  }

  /** What an accepted record adds to the index: its own entry, and nothing else. */
  lemma RecordAddsItsEntry(m: Manifest, files: Files, call: Call)
    requires Valid(m, files) && Accepted(m, files, call) && (call.RecordCheck? || call.RecordSupporting?)
    ensures var run := files[RunPath].run;
      var after := View(m, After(m, files, Step(call, 2)));
      && after.Some? && after.value.decision.None?
      && match call
         case RecordCheck(e) =>
           && after.value.supporting == run.supporting && after.value.checks - {e.checkId} == run.checks - {e.checkId}
           && e.checkId in after.value.checks && GateOf(m.gates, e.checkId).Some?
           && after.value.checks[e.checkId] == CheckEntry(Sha(e), e.status, GateOf(m.gates, e.checkId).value)
         case RecordSupporting(s) =>
           && after.value.checks == run.checks && after.value.state == run.state
           && after.value.supporting - {s.checkId} == run.supporting - {s.checkId}
           && s.checkId in after.value.supporting && after.value.supporting[s.checkId] == SupportingEntry(Sha(s), s.status)
         case _ => true
  {
    AcceptedPlan(m, files, call);
    WholeCallRecords(m, files, call);
    OpenDecision(m, files);
    assert |PlanOf(m, files, call).writes| == 2;
    assert After(m, files, Step(call, 2)) == Interrupted(m, files, call, 2);
    hide PlanOf;
    hide View;
    hide Valid;
    hide Interrupted;
    hide After;
  }

  lemma OpenDecision(m: Manifest, files: Files)
    requires Valid(m, files) && DecisionPath !in files
    ensures files[RunPath].run.decision.None?
  {
  }

  // --- Evidence that was changed behind the store's back ---

  /** Every indexed file is there under the name of its hash, is what was hashed, and is of the check it is indexed as. */
  predicate Intact(m: Manifest, files: Files, run: Run) {
    && (forall id :: id in run.checks ==>
          var e := run.checks[id].digest.preimage;
          && CheckPath(id, Sha(e)) in files && files[CheckPath(id, Sha(e))] == CheckDoc(e)
          && e.checkId == id && GateOf(m.gates, id).Some?)
    && (forall id :: id in run.supporting ==>
          var s := run.supporting[id].digest.preimage;
          && SupportingPath(id, Sha(s)) in files && files[SupportingPath(id, Sha(s))] == SupportingDoc(s)
          && s.checkId == id && id in m.adapters && s.status == run.supporting[id].status)
  }

  /** The decision file is of this run, of its two indexes as they stand, and of the attestation it names. */
  predicate DecisionStands(m: Manifest, files: Files, run: Run, d: Decision) {
    var a := d.attestation.preimage;
    && (d.runId, d.environmentId, d.manifestHash) == (m.runId, m.environmentId, m.hash)
    && (d.checkIndex.preimage, d.supportingIndex.preimage) == (run.checks, run.supporting)
    && AttestationPath(AttestationSha(a)) in files && files[AttestationPath(AttestationSha(a))] == AttestationDoc(a)
    && (a.payload.runId, a.payload.environmentId, a.payload.manifestHash) == (m.runId, m.environmentId, m.hash)
    && (a.payload.reviewerId, a.payload.reviewedAt) == (d.reviewerId, d.reviewedAt)
    && (a.payload.checkIndex.preimage, a.payload.supportingIndex.preimage) == (run.checks, run.supporting)
  }

  /** A content file that is there with other content is never overwritten: the call that would write it fails. */
  lemma ConflictingFileIsRefused(m: Manifest, files: Files, call: Call)
    requires !call.Read? && ContentFile(call).path in files && files[ContentFile(call).path] != ContentFile(call).doc
    ensures !PlanOf(m, files, call).completes
  {
    match call
    case RecordCheck(e) => RecordCheckPlan(m, files, e);
    case RecordSupporting(s) => RecordSupportingPlan(m, files, s);
    case Finalize(a, key, decidedAt) => FinalizePlan(m, files, a, key, decidedAt);
    hide PlanOf;
    hide Repair;
  }

  /** Whatever is in the directory: a run is only decided on evidence that is intact, and decided as the evidence says. */
  lemma OnlyIntactEvidenceIsDecided(m: Manifest, files: Files, a: Attestation, key: string, decidedAt: string)
    requires PlanOf(m, files, Finalize(a, key, decidedAt)).completes
    ensures RunPath in files && files[RunPath].RunDoc? && DecisionPath !in files
    ensures Intact(m, files, files[RunPath].run)
  {
    FinalizePlan(m, files, a, key, decidedAt);
    hide Verifies;
    hide PlanOf;
    hide DecisionFor;
  }

  /**
   * And a decision that is found is accepted exactly if it stands on intact evidence, repeats what the evaluation of
   * that evidence says, and the index does not say otherwise.
   */
  lemma DecisionIsRepairedExactly(m: Manifest, files: Files)
    requires RunPath in files && files[RunPath].RunDoc? && DecisionPath in files && files[DecisionPath].DecisionDoc?
    ensures var run, d := files[RunPath].run, files[DecisionPath].decision;
      Repair(m, files).Some? <==>
        && run.manifestHash == m.hash && Intact(m, files, run) && DecisionStands(m, files, run, d)
        && d.violations == Violations(m, LoadedChecks(run)) && (d.outcome == Passed <==> Satisfied(m, LoadedChecks(run)))
        && (run.decision.None? || (run.decision == Some(EntryOf(d)) && run.state == Terminal(d.outcome)))
  {
    var run, d := files[RunPath].run, files[DecisionPath].decision;
    NoViolationsMeansSatisfied(m, LoadedChecks(run));
    LoadsExactly(m, files, run);
    hide Violations;
    hide Satisfied;
    hide ChecksLoad;
    hide SupportingLoads;
    hide Intact;
  }

  lemma LoadsExactly(m: Manifest, files: Files, run: Run)
    ensures ChecksLoad(m, files, run) && SupportingLoads(m, files, run) <==> Intact(m, files, run)
  {
  }

  // --- Gate tables that can be passed ---

  /** No check is listed in two gates. */
  ghost predicate Disjoint(gates: seq<seq<CheckId>>) {
    forall k, i :: 0 <= k < |gates| && 0 <= i < |gates[k]| ==> GateOf(gates, gates[k][i]) == Some(k)
  }

  /** Evidence of this run and environment that each required check passed. */
  ghost predicate Supports(m: Manifest, good: map<CheckId, Evidence>) {
    && good.Keys == (set id | id in m.required)
    && (forall id :: id in good ==>
          good[id].checkId == id && good[id].runId == m.runId && good[id].environmentId == m.environmentId
          && good[id].status == Passed)
    && m.measure(good) == []
  }

  /** An open directory in which only this evidence is recorded. */
  ghost predicate Open(m: Manifest, files: Files, good: map<CheckId, Evidence>) {
    && Valid(m, files) && DecisionPath !in files
    && forall id :: id in files[RunPath].run.checks ==> id in good && files[RunPath].run.checks[id].digest == Sha(good[id])
  }

  /** One of the missing checks with the lowest gate. */
  lemma {:induction false} LowestGate(gates: seq<seq<CheckId>>, missing: set<CheckId>) returns (id: CheckId)
    requires missing != {} && forall x :: x in missing ==> GateOf(gates, x).Some?
    ensures id in missing && forall x :: x in missing ==> GateOf(gates, id).value <= GateOf(gates, x).value
    decreases |missing|
  {
    id :| id in missing;
    if missing != {id} {
      var other := LowestGate(gates, missing - {id});
      if GateOf(gates, other).value < GateOf(gates, id).value { id := other; }
    }
  }

  lemma AfterRecording(m: Manifest, files: Files, e: Evidence)
    requires Valid(m, files) && Accepted(m, files, RecordCheck(e))
    ensures After(m, files, Step(RecordCheck(e), 2))
         == files[CheckPath(e.checkId, Sha(e)) := CheckDoc(e)][RunPath := RunDoc(WithCheck(m, files[RunPath].run, e))]
  {
    var writes := PlanOf(m, files, RecordCheck(e)).writes;
    AcceptedPlan(m, files, RecordCheck(e));
    assert |writes| == 2;
    PrefixesOfTwo(files, writes);
    hide PlanOf;
    hide Valid;
    hide Accepted;
    hide WithCheck;
  }

  lemma RecordedIsOpen(m: Manifest, files: Files, good: map<CheckId, Evidence>, id: CheckId)
    requires m.Valid() && Supports(m, good) && Open(m, files, good) && id in good
    requires Accepted(m, files, RecordCheck(good[id]))
    ensures var after := After(m, files, Step(RecordCheck(good[id]), 2));
      && Open(m, after, good)
      && after[RunPath].run.checks.Keys == files[RunPath].run.checks.Keys + {id}
  {
    var e := good[id];
    OpenRunHasPassed(m, files, good);
    AfterRecording(m, files, e);
    CheckIsRecorded(m, files, e);
    hide Valid;
    hide View;
    hide After;
    hide AcceptsCheck;
    hide GateOf;
    hide NextState;
  }

  lemma LowestIsAccepted(m: Manifest, files: Files, good: map<CheckId, Evidence>, id: CheckId)
    requires m.Valid() && Disjoint(m.gates) && Supports(m, good) && Open(m, files, good)
    requires id in good && id !in files[RunPath].run.checks
    requires forall x :: x in good && x !in files[RunPath].run.checks ==>
      GateOf(m.gates, id).Some? && GateOf(m.gates, x).Some? && GateOf(m.gates, id).value <= GateOf(m.gates, x).value
    ensures Accepted(m, files, RecordCheck(good[id]))
  {
    var run := files[RunPath].run;
    CheckIsAcceptedExactly(m, files, good[id]);
    ViewIsStoredOrDecided(m, files);
    OpenRunHasPassed(m, files, good);
    hide View;
    hide PlanOf;
    hide Valid;
    forall k, i | 0 <= k < GateOf(m.gates, id).value && 0 <= i < |m.gates[k]|
      ensures m.gates[k][i] in run.checks && run.checks[m.gates[k][i]].status == Passed
    {
      assert GateOf(m.gates, m.gates[k][i]) == Some(k);
      assert m.gates[k][i] in good;
    }
  }

  lemma OpenRunHasPassed(m: Manifest, files: Files, good: map<CheckId, Evidence>)
    requires Supports(m, good) && Open(m, files, good)
    ensures !files[RunPath].run.state.Terminal?
    ensures forall id :: id in files[RunPath].run.checks ==> HasPassed(files[RunPath].run.checks, id)
  {
    var run := files[RunPath].run;
    forall id | id in run.checks
      ensures HasPassed(run.checks, id)
    {
      assert run.checks[id].digest.preimage == good[id];
    }
    hide DecisionMatches;
  }

  lemma LoadedIsGood(m: Manifest, files: Files, good: map<CheckId, Evidence>)
    requires m.Valid() && Supports(m, good) && Open(m, files, good) && good.Keys == files[RunPath].run.checks.Keys
    ensures Satisfied(m, LoadedChecks(files[RunPath].run))
  {
    LoadedIsExactly(files, good);
    hide *;
    GoodSatisfies(m, good);
  }

  lemma LoadedIsExactly(files: Files, good: map<CheckId, Evidence>)
    requires RunPath in files && files[RunPath].RunDoc? && good.Keys == files[RunPath].run.checks.Keys
    requires forall id :: id in good ==> files[RunPath].run.checks[id].digest == Sha(good[id])
    ensures LoadedChecks(files[RunPath].run) == good
  {
  }

  lemma GoodSatisfies(m: Manifest, good: map<CheckId, Evidence>)
    requires Supports(m, good)
    ensures Satisfied(m, good)
  {
    forall i | 0 <= i < |m.required|
      ensures m.required[i] in good.Keys
    {
    }
  }

  /** Once all of it is recorded, the reviewer's signature decides the run as passed. */
  lemma CompleteRunPasses(
      m: Manifest, files: Files, good: map<CheckId, Evidence>, a: Attestation, key: string, decidedAt: string)
    requires m.Valid() && Supports(m, good) && Open(m, files, good) && good.Keys == files[RunPath].run.checks.Keys
    requires Sign(m, files[RunPath].run, a.payload.reviewerId, key, a.payload.reviewedAt) == Some(a)
    ensures var after := View(m, After(m, files, Step(Finalize(a, key, decidedAt), 3)));
      after.Some? && after.value.state == Terminal(Passed)
  {
    LoadedIsGood(m, files, good);
    OpenIsUndecided(m, files, good);
    hide *;
    DecisionIsAcceptedExactly(m, files, a, key, decidedAt);
    DecisionIsPassExactly(m, files, a, key, decidedAt);
  }

  lemma OpenIsUndecided(m: Manifest, files: Files, good: map<CheckId, Evidence>)
    requires Open(m, files, good)
    ensures Valid(m, files) && View(m, files) == Some(files[RunPath].run) && files[RunPath].run.decision.None?
  {
    ViewIsStoredOrDecided(m, files);
    hide View;
  }

  lemma SignatureExists(m: Manifest, files: Files, reviewerId: string, key: string, reviewedAt: string)
    requires Valid(m, files) && ReviewerAdmitted(m, reviewerId, key)
    ensures var a := Sign(m, files[RunPath].run, reviewerId, key, reviewedAt);
      && a.Some? && a.value.payload.reviewerId == reviewerId && a.value.payload.reviewedAt == reviewedAt
  {
  }

  /** From every open run that can still pass, calls lead to a pass. */
  lemma {:induction false} OpenRunCanPass(
      m: Manifest, files: Files, good: map<CheckId, Evidence>, reviewerId: string, key: string) returns (steps: seq<Step>)
    requires m.Valid() && Disjoint(m.gates) && Supports(m, good) && Open(m, files, good) && ReviewerAdmitted(m, reviewerId, key)
    ensures var run := View(m, RunAll(m, files, steps)); run.Some? && run.value.state == Terminal(Passed)
    decreases good.Keys - files[RunPath].run.checks.Keys
  {
    var missing := good.Keys - files[RunPath].run.checks.Keys;
    if missing == {} {
      SignatureExists(m, files, reviewerId, key, "");
      var a := Sign(m, files[RunPath].run, reviewerId, key, "").value;
      assert forall id :: id in good.Keys && id !in missing ==> id in files[RunPath].run.checks;
      assert good.Keys == files[RunPath].run.checks.Keys;
      CompleteRunPasses(m, files, good, a, key, "");
      steps := [Step(Finalize(a, key, ""), 3)];
      LastStep(m, files, steps[0]);
    } else {
      var id := LowestGate(m.gates, missing);
      LowestIsAccepted(m, files, good, id);
      RecordedIsOpen(m, files, good, id);
      var after := After(m, files, Step(RecordCheck(good[id]), 2));
      hide Valid;
      hide After;
      hide Accepted;
      hide Supports;
      hide Disjoint;
      hide View;
      var rest := OpenRunCanPass(m, after, good, reviewerId, key);
      steps := [Step(RecordCheck(good[id]), 2)] + rest;
      assert steps[1..] == rest;
    }
  }

  lemma LastStep(m: Manifest, files: Files, step: Step)
    ensures RunAll(m, files, [step]) == After(m, files, step)
  {
    assert [step][1..] == [];
  }

  /** Once a check is listed in two gates, nobody can record it: its gate waits for itself. */
  lemma RepeatedCheckIsRefused(m: Manifest, files: Files, k: nat, id: CheckId, step: Step)
    requires m.Valid() && Valid(m, files) && k < |m.gates| && id in m.gates[k] && GateOf(m.gates, id) != Some(k)
    requires id !in files[RunPath].run.checks
    ensures Valid(m, After(m, files, step)) && id !in After(m, files, step)[RunPath].run.checks
  {
    StepIsLater(m, files, step);
    ViewIsAccountable(m, files);
    ViewIsAccountable(m, After(m, files, step));
    StepShows(m, files, step);
    if Accepted(m, files, step.call) { RepeatedIsNotAccepted(m, files, k, id, step.call); }
    hide *;
  }

  /** A step shows the run before it or, if it was accepted and lived long enough, its result. */
  lemma StepShows(m: Manifest, files: Files, step: Step)
    requires Valid(m, files)
    ensures var after := View(m, After(m, files, step));
      after == View(m, files)
      || (&& Accepted(m, files, step.call)
          && (step.call.RecordCheck? ==> GateOf(m.gates, step.call.evidence.checkId).Some?)
          && after == Some(R.Result(m, files[RunPath].run, step.call)))
  {
    var n := |PlanOf(m, files, step.call).writes|;
    var made := if step.allowed < n then step.allowed else n;
    assert After(m, files, step) == Interrupted(m, files, step.call, made);
    assert Accepted(m, files, step.call) && step.call.RecordCheck? ==> GateOf(m.gates, step.call.evidence.checkId).Some?;
    if Accepted(m, files, step.call) {
      WholeCallRecords(m, files, step.call);
    } else {
      UnacceptedShowsTheSame(m, files, step.call, made);
    }
    hide *;
  }

  lemma RepeatedIsNotAccepted(m: Manifest, files: Files, k: nat, id: CheckId, call: Call)
    requires Valid(m, files) && k < |m.gates| && id in m.gates[k] && GateOf(m.gates, id) != Some(k)
    requires id !in files[RunPath].run.checks && Accepted(m, files, call)
    ensures call.RecordCheck? ==> call.evidence.checkId != id && GateOf(m.gates, call.evidence.checkId).Some?
    ensures id !in R.Result(m, files[RunPath].run, call).checks
  {
    LastGate(m.gates, k, id);
    var checks := files[RunPath].run.checks;
    var i :| 0 <= i < |m.gates[k]| && m.gates[k][i] == id;
    assert !HasPassed(checks, m.gates[k][i]) && !GatePassed(checks, m.gates[k]);
  }

  lemma {:induction false} LastGate(gates: seq<seq<CheckId>>, k: nat, id: CheckId)
    requires k < |gates| && id in gates[k]
    ensures GateOf(gates, id).Some? && GateOf(gates, id).value >= k
    decreases |gates|
  {
    if id !in gates[|gates| - 1] { LastGate(gates[..|gates| - 1], k, id); }
  }

  lemma {:induction false} RepeatedCheckIsNeverRecorded(m: Manifest, files: Files, k: nat, id: CheckId, steps: seq<Step>)
    requires m.Valid() && Valid(m, files) && k < |m.gates| && id in m.gates[k] && GateOf(m.gates, id) != Some(k)
    requires id !in files[RunPath].run.checks
    ensures Valid(m, RunAll(m, files, steps)) && id !in RunAll(m, files, steps)[RunPath].run.checks
    decreases |steps|
  {
    if |steps| > 0 {
      RepeatedCheckIsRefused(m, files, k, id, steps[0]);
      RepeatedCheckIsNeverRecorded(m, After(m, files, steps[0]), k, id, steps[1..]);
    }
  }

  /**
   * With evidence that satisfies the gates and a reviewer who is not the operator, some calls lead from initialize to
   * a pass exactly if the table lists no check in two gates.
   */
  lemma GatesCanBePassed(m: Manifest, good: map<CheckId, Evidence>, reviewerId: string, key: string)
    requires m.Valid() && Supports(m, good) && ReviewerAdmitted(m, reviewerId, key)
    ensures (exists steps :: View(m, RunAll(m, Initialized(m), steps)).Some?
                             && View(m, RunAll(m, Initialized(m), steps)).value.state == Terminal(Passed))
      <==> Disjoint(m.gates)
  {
    InitializedIsValid(m);
    if Disjoint(m.gates) {
      var steps := OpenRunCanPass(m, Initialized(m), good, reviewerId, key);
    } else {
      var k, i :| 0 <= k < |m.gates| && 0 <= i < |m.gates[k]| && GateOf(m.gates, m.gates[k][i]) != Some(k);
      forall steps
        ensures var run := View(m, RunAll(m, Initialized(m), steps)); run.Some? ==> run.value.state != Terminal(Passed)
      {
        RepeatedNeverPasses(m, k, m.gates[k][i], steps);
      }
    }
  }

  lemma RepeatedNeverPasses(m: Manifest, k: nat, id: CheckId, steps: seq<Step>)
    requires m.Valid() && k < |m.gates| && id in m.gates[k] && GateOf(m.gates, id) != Some(k)
    ensures var run := View(m, RunAll(m, Initialized(m), steps)); run.Some? ==> run.value.state != Terminal(Passed)
  {
    InitializedIsValid(m);
    RepeatedCheckIsNeverRecorded(m, Initialized(m), k, id, steps);
    ViewIsAccountable(m, RunAll(m, Initialized(m), steps));
    LastGate(m.gates, k, id);
    assert id in m.required;
  }

  // --- The gates of the pilot ---

  const PILOT_GATES: seq<seq<CheckId>> := [
    ["deployment-preflight", "tenant-isolation"],
    ["ingress-security", "network-isolation", "credential-rotation", "secret-scan"],
    ["database-object-restore", "broker-recovery", "replica-worker-recovery", "idempotency-checkpoints"],
    ["durable-telemetry", "alert-delivery", "service-objectives"],
    ["connector-csv", "connector-postgres", "connector-opcua"]]

  lemma {:induction false} OnlyGate(gates: seq<seq<CheckId>>, k: nat, id: CheckId)
    requires k < |gates| && id in gates[k] && forall j :: k < j < |gates| ==> id !in gates[j]
    ensures GateOf(gates, id) == Some(k)
    decreases |gates|
  {
    if k < |gates| - 1 { OnlyGate(gates[..|gates| - 1], k, id); }
  }

  predicate NotLater(gates: seq<seq<CheckId>>, k: nat, id: CheckId) {
    forall j :: k < j < |gates| ==> id !in gates[j]
  }

  lemma FirstGateIsApart()
    ensures forall i :: 0 <= i < |PILOT_GATES[0]| ==> NotLater(PILOT_GATES, 0, PILOT_GATES[0][i])
  {
  }

  lemma SecondGateIsApart()
    ensures forall i :: 0 <= i < |PILOT_GATES[1]| ==> NotLater(PILOT_GATES, 1, PILOT_GATES[1][i])
  {
  }

  lemma ThirdGateIsApart()
    ensures forall i :: 0 <= i < |PILOT_GATES[2]| ==> NotLater(PILOT_GATES, 2, PILOT_GATES[2][i])
  {
  }

  lemma LastGatesAreApart()
    ensures forall k, i :: 3 <= k < 5 && 0 <= i < |PILOT_GATES[k]| ==> NotLater(PILOT_GATES, k, PILOT_GATES[k][i])
  {
  }

  /** The table of the pilot can be passed. */
  lemma PilotGatesAreDisjoint()
    ensures Disjoint(PILOT_GATES)
  {
    FirstGateIsApart();
    SecondGateIsApart();
    ThirdGateIsApart();
    LastGatesAreApart();
    var gates := PILOT_GATES;
    assert |gates| == 5;
    hide PILOT_GATES;
    forall k, i | 0 <= k < |gates| && 0 <= i < |gates[k]|
      ensures GateOf(gates, gates[k][i]) == Some(k)
    {
      assert k == 0 || k == 1 || k == 2 || k == 3 || k == 4;
      OnlyGate(gates, k, gates[k][i]);
    }
  }
}
