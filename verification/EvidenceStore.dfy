/**
 * The append-only evidence directory of a pilot run (infra/pilot_gate/evidence.py): whole-file writes
 * under a lock, with a crash possible before any of them.
 */
module EvidenceStore {
  import opened Common
  import opened PilotGate

  // --- The directory ---

  datatype Path =
    | RunPath
    | DecisionPath
    | CheckPath(id: CheckId, check: Sha<Evidence>)
    | SupportingPath(id: CheckId, supporting: Sha<Supporting>)
    | AttestationPath(attestation: AttestationSha)

  /** Documents stand for their canonical JSON bytes. */
  datatype Doc =
    | RunDoc(run: Run)
    | DecisionDoc(decision: Decision)
    | CheckDoc(evidence: Evidence)
    | SupportingDoc(value: Supporting)
    | AttestationDoc(signed: Attestation)

  type Files = map<Path, Doc>

  datatype Write = Put(path: Path, doc: Doc)

  function ApplyAll(files: Files, writes: seq<Write>): Files
    decreases |writes|
  {
    if |writes| == 0 then files else ApplyAll(files[writes[0].path := writes[0].doc], writes[1..])
  }

  lemma {:induction false} ApplyOneMore(files: Files, writes: seq<Write>, k: nat)
    requires k < |writes|
    ensures ApplyAll(files, writes[..k + 1]) == ApplyAll(files, writes[..k])[writes[k].path := writes[k].doc]
    decreases k
  {
    if k > 0 {
      ApplyOneMore(files[writes[0].path := writes[0].doc], writes[1..], k - 1);
      assert writes[..k + 1][1..] == writes[1..][..k] && writes[..k][1..] == writes[1..][..k - 1];
    } else {
      assert writes[..1][1..] == [];
    }
  }

  lemma NoWrites(files: Files)
    ensures ApplyAll(files, []) == files
  {
  }

  lemma PrefixEnds(files: Files, writes: seq<Write>)
    ensures ApplyAll(files, writes[..0]) == files && writes[..|writes|] == writes
  {
  }

  lemma PrefixesOfTwo(files: Files, writes: seq<Write>)
    requires |writes| == 2
    ensures ApplyAll(files, writes[..0]) == files
    ensures ApplyAll(files, writes[..1]) == files[writes[0].path := writes[0].doc]
    ensures ApplyAll(files, writes[..2]) == files[writes[0].path := writes[0].doc][writes[1].path := writes[1].doc]
  {
    ApplyOneMore(files, writes, 0);
    ApplyOneMore(files, writes, 1);
  }

  lemma PrefixesOfThree(files: Files, writes: seq<Write>)
    requires |writes| == 3
    ensures ApplyAll(files, writes[..0]) == files
    ensures ApplyAll(files, writes[..1]) == files[writes[0].path := writes[0].doc]
    ensures ApplyAll(files, writes[..2]) == files[writes[0].path := writes[0].doc][writes[1].path := writes[1].doc]
    ensures ApplyAll(files, writes[..3])
         == files[writes[0].path := writes[0].doc][writes[1].path := writes[1].doc][writes[2].path := writes[2].doc]
  {
    ApplyOneMore(files, writes, 0);
    ApplyOneMore(files, writes, 1);
    ApplyOneMore(files, writes, 2);
  }

  // --- Loading and repairing ---

  function ReadRun(m: Manifest, files: Files): Option<Run> {
    if RunPath in files && files[RunPath].RunDoc? && files[RunPath].run.manifestHash == m.hash
    then Some(files[RunPath].run) else None
  }

  /** _load_checks_from_run returns. */
  predicate ChecksLoad(m: Manifest, files: Files, run: Run) {
    forall id :: id in run.checks ==>
      var path := CheckPath(id, run.checks[id].digest);
      && GateOf(m.gates, id).Some?
      && path in files && files[path] == CheckDoc(run.checks[id].digest.preimage)
      && run.checks[id].digest.preimage.checkId == id
  }

  /** _load_supporting_from_run returns. */
  predicate SupportingLoads(m: Manifest, files: Files, run: Run) {
    forall id :: id in run.supporting ==>
      var path := SupportingPath(id, run.supporting[id].digest);
      && path in files && files[path] == SupportingDoc(run.supporting[id].digest.preimage)
      && id in m.adapters
      && run.supporting[id].digest.preimage.checkId == id
      && run.supporting[id].digest.preimage.status == run.supporting[id].status
  }

  function LoadedChecks(run: Run): map<CheckId, Evidence> {
    map id | id in run.checks :: run.checks[id].digest.preimage
  }

  /** Everything _repair_decision compares before it touches the index. */
  predicate DecisionMatches(m: Manifest, files: Files, run: Run, d: Decision) {
    && d.runId == m.runId && d.environmentId == m.environmentId && d.manifestHash == m.hash
    && (d.outcome == Passed <==> d.violations == [])
    && d.checkIndex == CheckIndexSha(run.checks) && d.supportingIndex == SupportingIndexSha(run.supporting)
    && ChecksLoad(m, files, run) && d.violations == Violations(m, LoadedChecks(run))
    && SupportingLoads(m, files, run)
    && AttestationPath(d.attestation) in files
    && files[AttestationPath(d.attestation)] == AttestationDoc(d.attestation.preimage)
    && var p := d.attestation.preimage.payload;
       && p.runId == d.runId && p.environmentId == d.environmentId && p.reviewerId == d.reviewerId
       && p.reviewedAt == d.reviewedAt && p.manifestHash == d.manifestHash
       && p.checkIndex == d.checkIndex && p.supportingIndex == d.supportingIndex
  }

  function EntryOf(d: Decision): DecisionEntry {
    DecisionEntry(DecisionSha(d), d.outcome, d.attestation)
  }

  function Decided(run: Run, d: Decision): Run {
    run.(decision := Some(EntryOf(d)), state := Terminal(d.outcome))
  }

  /** _repair_decision: the run it returns and the write it makes; None where it raises. */
  function Repair(m: Manifest, files: Files): Option<(Run, seq<Write>)> {
    match ReadRun(m, files)
    case None => None
    case Some(run) =>
      if DecisionPath !in files then
        if run.decision.Some? then None else Some((run, []))
      else if !files[DecisionPath].DecisionDoc? || !DecisionMatches(m, files, run, files[DecisionPath].decision) then None
      else
        var d := files[DecisionPath].decision;
        if run.decision.None? then Some((Decided(run, d), [Put(RunPath, RunDoc(Decided(run, d)))]))
        else if run.decision == Some(EntryOf(d)) && run.state == Terminal(d.outcome) then Some((run, []))
        else None
  }

  /** A repair that writes makes the run terminal; one that does not leaves the index as it reads. */
  lemma RepairShape(m: Manifest, files: Files)
    requires Repair(m, files).Some?
    ensures var (run, repairs) := Repair(m, files).value;
      if repairs == [] then ReadRun(m, files) == Some(run)
      else |repairs| == 1 && repairs[0] == Put(RunPath, RunDoc(run)) && run.state.Terminal? && DecisionPath in files
  {
  }

  // --- The calls, as the writes they make ---

  datatype Call =
    | Read
    | RecordCheck(evidence: Evidence)
    | RecordSupporting(value: Supporting)
    | Finalize(attestation: Attestation, key: string, decidedAt: string)

  datatype Plan = Plan(writes: seq<Write>, completes: bool)

  predicate Conflicts(files: Files, path: Path, doc: Doc) {
    path in files && files[path] != doc
  }

  predicate AcceptsCheck(m: Manifest, files: Files, run: Run, e: Evidence) {
    && e.runId == m.runId && e.environmentId == m.environmentId && !run.state.Terminal?
    && e.checkId !in run.checks && GateOf(m.gates, e.checkId).Some?
    && PriorGatesPassed(m.gates, run.checks, GateOf(m.gates, e.checkId).value)
    && !Conflicts(files, CheckPath(e.checkId, Sha(e)), CheckDoc(e))
  }

  function WithCheck(m: Manifest, run: Run, e: Evidence): Run
    requires GateOf(m.gates, e.checkId).Some?
  {
    var g := GateOf(m.gates, e.checkId).value;
    var checks := Recorded(run.checks, e, g);
    run.(checks := checks, state := NextState(m.gates, checks, run.state, e, g))
  }

  predicate AcceptsSupporting(files: Files, run: Run, s: Supporting) {
    !run.state.Terminal? && s.checkId !in run.supporting
    && !Conflicts(files, SupportingPath(s.checkId, Sha(s)), SupportingDoc(s))
  }

  function WithSupporting(run: Run, s: Supporting): Run {
    run.(supporting := run.supporting[s.checkId := SupportingEntry(Sha(s), s.status)])
  }

  predicate AcceptsDecision(m: Manifest, files: Files, run: Run, a: Attestation, key: string) {
    && Verifies(m, run, a, key) && ChecksLoad(m, files, run) && SupportingLoads(m, files, run)
    && !Conflicts(files, AttestationPath(AttestationSha(a)), AttestationDoc(a))
  }

  function DecisionFor(m: Manifest, run: Run, a: Attestation, decidedAt: string): Decision {
    var violations := Violations(m, LoadedChecks(run));
    Decision(m.runId, m.environmentId, m.hash, if violations == [] then Passed else Failed, violations,
             a.payload.reviewerId, a.payload.reviewedAt, AttestationSha(a),
             CheckIndexSha(run.checks), SupportingIndexSha(run.supporting), decidedAt)
  }

  function PlanOf(m: Manifest, files: Files, call: Call): Plan {
    if call.RecordSupporting? && call.value.checkId !in m.adapters then Plan([], false) else
      match Repair(m, files)
      case None => Plan([], false)
      case Some((run, repairs)) =>
        match call
        case Read => Plan(repairs, true)
        case RecordCheck(e) =>
          if !AcceptsCheck(m, files, run, e) then Plan(repairs, false)
          else Plan(repairs + [Put(CheckPath(e.checkId, Sha(e)), CheckDoc(e)), Put(RunPath, RunDoc(WithCheck(m, run, e)))], true)
        case RecordSupporting(s) =>
          if !AcceptsSupporting(files, run, s) then Plan(repairs, false)
          else Plan(repairs + [Put(SupportingPath(s.checkId, Sha(s)), SupportingDoc(s)), Put(RunPath, RunDoc(WithSupporting(run, s)))], true)
        case Finalize(a, key, decidedAt) =>
          if DecisionPath in files || !AcceptsDecision(m, files, run, a, key) then Plan(repairs, false)
          else
            var d := DecisionFor(m, run, a, decidedAt);
            Plan([Put(AttestationPath(AttestationSha(a)), AttestationDoc(a)), Put(DecisionPath, DecisionDoc(d)),
                  Put(RunPath, RunDoc(Decided(run, d)))], true)
  }

  lemma RecordCheckPlan(m: Manifest, files: Files, e: Evidence)
    ensures var plan := PlanOf(m, files, RecordCheck(e));
      if Repair(m, files).None? then plan == Plan([], false) && PlanOf(m, files, Read) == plan
      else
        var (run, repairs) := Repair(m, files).value;
        PlanOf(m, files, Read) == Plan(repairs, true) &&
        if !AcceptsCheck(m, files, run, e) then plan == Plan(repairs, false)
        else repairs == [] && GateOf(m.gates, e.checkId).Some?
             && plan == Plan([Put(CheckPath(e.checkId, Sha(e)), CheckDoc(e)), Put(RunPath, RunDoc(WithCheck(m, run, e)))], true)
  {
    if Repair(m, files).Some? { RepairShape(m, files); }
  }

  lemma RecordSupportingPlan(m: Manifest, files: Files, s: Supporting)
    ensures var plan := PlanOf(m, files, RecordSupporting(s));
      if s.checkId !in m.adapters then plan == Plan([], false)
      else if Repair(m, files).None? then plan == Plan([], false) && PlanOf(m, files, Read) == plan
      else
        var (run, repairs) := Repair(m, files).value;
        PlanOf(m, files, Read) == Plan(repairs, true) &&
        if !AcceptsSupporting(files, run, s) then plan == Plan(repairs, false)
        else repairs == [] && plan == Plan([Put(SupportingPath(s.checkId, Sha(s)), SupportingDoc(s)), Put(RunPath, RunDoc(WithSupporting(run, s)))], true)
  {
    if Repair(m, files).Some? { RepairShape(m, files); }
  }

  lemma FinalizePlan(m: Manifest, files: Files, a: Attestation, key: string, decidedAt: string)
    ensures var plan := PlanOf(m, files, Finalize(a, key, decidedAt));
      var indexed := ReadRun(m, files);
      if indexed.None? then plan == Plan([], false)
      else if DecisionPath in files || indexed.value.decision.Some? then plan == Plan(PlanOf(m, files, Read).writes, false)
      else if !AcceptsDecision(m, files, indexed.value, a, key) then plan == Plan([], false)
      else
        var d := DecisionFor(m, indexed.value, a, decidedAt);
        plan == Plan([Put(AttestationPath(AttestationSha(a)), AttestationDoc(a)), Put(DecisionPath, DecisionDoc(d)),
                      Put(RunPath, RunDoc(Decided(indexed.value, d)))], true)
  {
  }

  // --- The class: the same calls, one write at a time ---

  datatype Outcome = Returned | Raised | Crashed

  class Store {
    const m: Manifest
    var files: Files
    /** How many more writes happen before the process dies. */
    var budget: nat

    constructor (m: Manifest, files: Files, budget: nat)
      ensures this.m == m && this.files == files && this.budget == budget
    {
      this.m, this.files, this.budget := m, files, budget;
    }

    method WriteFile(path: Path, doc: Doc) returns (alive: bool)
      modifies this
      ensures alive <==> old(budget) > 0
      ensures alive ==> files == old(files)[path := doc] && budget == old(budget) - 1
      ensures !alive ==> files == old(files) && budget == 0
    {
      if budget == 0 {
        return false;
      }
      files, budget := files[path := doc], budget - 1;
      alive := true;
    }

    /** The directory holds the writes that were made in time, and the caller learns how it ended. */
    ghost predicate Follows(before: Files, plan: Plan, allowed: nat, outcome: Outcome)
      reads this
    {
      if allowed < |plan.writes| then
        outcome == Crashed && files == ApplyAll(before, plan.writes[..allowed])
      else
        && outcome == (if plan.completes then Returned else Raised)
        && files == ApplyAll(before, plan.writes) && budget == allowed - |plan.writes|
    }

    method WriteTwo(first: Write, second: Write) returns (outcome: Outcome)
      modifies this
      ensures Follows(old(files), Plan([first, second], true), old(budget), outcome)
    {
      PrefixesOfTwo(files, [first, second]);
      var alive := WriteFile(first.path, first.doc);
      if !alive {
        return Crashed;
      }
      alive := WriteFile(second.path, second.doc);
      outcome := if alive then Returned else Crashed;
      assert [first, second][..2] == [first, second];
    }

    method WriteThree(first: Write, second: Write, third: Write) returns (outcome: Outcome)
      modifies this
      ensures Follows(old(files), Plan([first, second, third], true), old(budget), outcome)
    {
      PrefixesOfThree(files, [first, second, third]);
      var alive := WriteFile(first.path, first.doc);
      if !alive {
        return Crashed;
      }
      alive := WriteFile(second.path, second.doc);
      if !alive {
        return Crashed;
      }
      alive := WriteFile(third.path, third.doc);
      outcome := if alive then Returned else Crashed;
      assert [first, second, third][..3] == [first, second, third];
    }

    method ReadRunAndRepair() returns (run: Option<Run>, outcome: Outcome)
      modifies this
      ensures Follows(old(files), PlanOf(m, old(files), Read), old(budget), outcome)
      ensures outcome == Returned ==> Repair(m, old(files)).Some? && run == Some(Repair(m, old(files)).value.0)
    {
      var repaired := Repair(m, files);
      if repaired.None? {
        return None, Raised;
      }
      if |repaired.value.1| > 0 {
        var write := repaired.value.1[0];
        var alive := WriteFile(write.path, write.doc);
        if !alive {
          return None, Crashed;
        }
      }
      run, outcome := Some(repaired.value.0), Returned;
    }

    method Record(e: Evidence) returns (outcome: Outcome)
      modifies this
      ensures Follows(old(files), PlanOf(m, old(files), RecordCheck(e)), old(budget), outcome)
    {
      RecordCheckPlan(m, files, e);
      NoWrites(files);
      if Repair(m, files).Some? { RepairShape(m, files); }
      hide PlanOf;
      hide Repair;
      hide ApplyAll;
      hide WithCheck;
      var run;
      run, outcome := ReadRunAndRepair();
      if outcome != Returned {
        return;
      }
      if !AcceptsCheck(m, files, run.value, e) {
        return Raised;
      }
      outcome := WriteTwo(Put(CheckPath(e.checkId, Sha(e)), CheckDoc(e)), Put(RunPath, RunDoc(WithCheck(m, run.value, e))));
    }

    method RecordSupportingEvidence(s: Supporting) returns (outcome: Outcome)
      modifies this
      ensures Follows(old(files), PlanOf(m, old(files), RecordSupporting(s)), old(budget), outcome)
    {
      RecordSupportingPlan(m, files, s);
      NoWrites(files);
      if Repair(m, files).Some? { RepairShape(m, files); }
      hide PlanOf;
      hide Repair;
      hide ApplyAll;
      if s.checkId !in m.adapters {
        return Raised;
      }
      var run;
      run, outcome := ReadRunAndRepair();
      if outcome != Returned {
        return;
      }
      if !AcceptsSupporting(files, run.value, s) {
        return Raised;
      }
      outcome := WriteTwo(Put(SupportingPath(s.checkId, Sha(s)), SupportingDoc(s)),
                          Put(RunPath, RunDoc(WithSupporting(run.value, s))));
    }

    method FinalizeRun(a: Attestation, key: string, decidedAt: string) returns (outcome: Outcome)
      modifies this
      ensures Follows(old(files), PlanOf(m, old(files), Finalize(a, key, decidedAt)), old(budget), outcome)
    {
      FinalizePlan(m, files, a, key, decidedAt);
      NoWrites(files);
      hide PlanOf;
      hide Repair;
      hide ApplyAll;
      hide AcceptsDecision;
      hide Violations;
      var indexed := ReadRun(m, files);
      if indexed.None? {
        return Raised;
      }
      var run := indexed.value;
      if DecisionPath in files || run.decision.Some? {
        run, outcome := RepairOnly(run);
        outcome := if outcome == Returned then Raised else outcome;
        return;
      }
      if !AcceptsDecision(m, files, run, a, key) {
        return Raised;
      }
      var violations := Evaluate(m, LoadedChecks(run));
      var passed := violations == [];
      var decision := Decision(m.runId, m.environmentId, m.hash, if passed then Passed else Failed, violations,
                               a.payload.reviewerId, a.payload.reviewedAt, AttestationSha(a),
                               CheckIndexSha(run.checks), SupportingIndexSha(run.supporting), decidedAt);
      assert decision == DecisionFor(m, run, a, decidedAt);
      outcome := WriteThree(Put(AttestationPath(AttestationSha(a)), AttestationDoc(a)),
                            Put(DecisionPath, DecisionDoc(decision)), Put(RunPath, RunDoc(Decided(run, decision))));
    }

    /** finalize repairs a decision it finds before it refuses to make another. */
    method RepairOnly(run: Run) returns (repaired: Run, outcome: Outcome)
      modifies this
      ensures Follows(old(files), PlanOf(m, old(files), Read), old(budget), outcome)
    {
      var result;
      result, outcome := ReadRunAndRepair();
      repaired := if result.Some? then result.value else run;
    }
  }
}
