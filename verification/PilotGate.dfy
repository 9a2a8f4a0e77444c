/** The gated pilot run (infra/pilot_gate): its gate table, evaluation and reviewer attestation. */
module PilotGate {
  import opened Common

  type CheckId = string

  datatype Status = Passed | Failed

  /** SHA-256 and HMAC-SHA-256: injective in everything they are computed from. */
  datatype Sha<T> = Sha(preimage: T)
  datatype CheckIndexSha = CheckIndexSha(preimage: CheckIndex)
  datatype SupportingIndexSha = SupportingIndexSha(preimage: SupportingIndex)
  datatype AttestationSha = AttestationSha(preimage: Attestation)
  datatype DecisionSha = DecisionSha(preimage: Decision)
  datatype Hmac = Hmac(key: string, message: Payload)

  /** Check evidence; `details` are its timestamps, summary and metrics. */
  datatype Evidence = Evidence(runId: string, environmentId: string, checkId: CheckId, status: Status, details: string)

  datatype Supporting = Supporting(checkId: CheckId, status: Status, details: string)

  datatype Violation =
    | MissingCheck(id: CheckId)
    | WrongRun(id: CheckId)
    | WrongEnvironment(id: CheckId)
    | FailedCheck(id: CheckId)
    | Measured(text: string)

  /**
   * The approved manifest with the gate table. `required` is the sorted list of managed checks,
   * `measure` the part of the evaluation that looks at metrics, `fold` the case folding of identities.
   */
  datatype Manifest = Manifest(
    runId: string, predecessor: Option<string>, environmentId: string, hash: string, operatorId: string, reviewerKey: Sha<string>,
    gates: seq<seq<CheckId>>, required: seq<CheckId>, adapters: set<CheckId>,
    measure: map<CheckId, Evidence> -> seq<string>, fold: string -> string)
  {
    ghost predicate Valid() {
      && (forall id :: id in required <==> GateOf(gates, id).Some?)
      && (forall i, j :: 0 <= i < j < |required| ==> required[i] != required[j])
    }
  }

  // --- The gate table: a dictionary built gate by gate, so the last gate that lists a check counts ---

  function GateOf(gates: seq<seq<CheckId>>, id: CheckId): (g: Option<nat>)
    ensures g.Some? ==> g.value < |gates| && id in gates[g.value]
    ensures g.None? ==> forall k :: 0 <= k < |gates| ==> id !in gates[k]
  {
    if |gates| == 0 then None
    else if id in gates[|gates| - 1] then Some(|gates| - 1)
    else GateOf(gates[..|gates| - 1], id)
  }

  // --- The index of recorded checks ---

  datatype CheckEntry = CheckEntry(digest: Sha<Evidence>, status: Status, gate: nat)
  datatype SupportingEntry = SupportingEntry(digest: Sha<Supporting>, status: Status)

  type CheckIndex = map<CheckId, CheckEntry>
  type SupportingIndex = map<CheckId, SupportingEntry>

  predicate HasPassed(checks: CheckIndex, id: CheckId) {
    id in checks && checks[id].status == Passed
  }

  predicate GatePassed(checks: CheckIndex, gate: seq<CheckId>) {
    forall i :: 0 <= i < |gate| ==> HasPassed(checks, gate[i])
  }

  predicate PriorGatesPassed(gates: seq<seq<CheckId>>, checks: CheckIndex, g: nat)
    requires g <= |gates|
  {
    forall k :: 0 <= k < g ==> GatePassed(checks, gates[k])
  }

  datatype State = Created | PreflightPassed | Executing | Terminal(status: Status)

  /** The state that record_check leaves. */
  function NextState(gates: seq<seq<CheckId>>, checks: CheckIndex, state: State, e: Evidence, g: nat): State
    requires g < |gates|
  {
    if e.status == Failed then Terminal(Failed)
    else if g == 0 && GatePassed(checks, gates[0]) then PreflightPassed
    else if g > 0 && state == PreflightPassed then Executing
    else state
  }

  ghost predicate AnyFailed(checks: CheckIndex) {
    exists id :: id in checks && checks[id].status == Failed
  }

  ghost predicate PastGateZero(checks: CheckIndex) {
    exists id :: id in checks && checks[id].gate > 0
  }

  /** What the state of an undecided run says about its checks. */
  ghost function StateOf(gates: seq<seq<CheckId>>, checks: CheckIndex): State {
    if AnyFailed(checks) then Terminal(Failed)
    else if |gates| == 0 || |gates[0]| == 0 then Created
    else if PastGateZero(checks) then Executing
    else if GatePassed(checks, gates[0]) then PreflightPassed
    else Created
  }

  // --- evaluate ---

  function MissingFrom(required: seq<CheckId>, checks: map<CheckId, Evidence>): seq<Violation> {
    if |required| == 0 then [] else
      (if required[0] in checks then [] else [MissingCheck(required[0])]) + MissingFrom(required[1..], checks)
  }

  function CheckViolations(m: Manifest, id: CheckId, e: Evidence): seq<Violation> {
    (if e.runId != m.runId then [WrongRun(id)] else [])
    + (if e.environmentId != m.environmentId then [WrongEnvironment(id)] else [])
    + (if e.status != Passed then [FailedCheck(id)] else [])
  }

  function AllCheckViolations(m: Manifest, required: seq<CheckId>, checks: map<CheckId, Evidence>): seq<Violation> {
    if |required| == 0 then [] else
      (if required[0] in checks then CheckViolations(m, required[0], checks[required[0]]) else [])
      + AllCheckViolations(m, required[1..], checks)
  }

  function Measurements(texts: seq<string>): seq<Violation> {
    if |texts| == 0 then [] else [Measured(texts[0])] + Measurements(texts[1..])
  }

  function Violations(m: Manifest, checks: map<CheckId, Evidence>): seq<Violation> {
    MissingFrom(m.required, checks) + AllCheckViolations(m, m.required, checks) + Measurements(m.measure(checks))
  }

  // --- What a violation says ---

  /** The fact about the checks that a violation reports. */
  predicate Holds(m: Manifest, checks: map<CheckId, Evidence>, v: Violation) {
    match v
    case MissingCheck(id) => id in m.required && id !in checks
    case WrongRun(id) => id in m.required && id in checks && checks[id].runId != m.runId
    case WrongEnvironment(id) => id in m.required && id in checks && checks[id].environmentId != m.environmentId
    case FailedCheck(id) => id in m.required && id in checks && checks[id].status == Failed
    case Measured(text) => text in m.measure(checks)
  }

  /** Every required check is there, is of this run and environment and passed, and no measurement is out of bounds. */
  predicate Satisfied(m: Manifest, checks: map<CheckId, Evidence>) {
    && (forall i :: 0 <= i < |m.required| ==>
          && m.required[i] in checks
          && var e := checks[m.required[i]];
             e.runId == m.runId && e.environmentId == m.environmentId && e.status == Passed)
    && m.measure(checks) == []
  }

  lemma {:induction false} MissingMeans(required: seq<CheckId>, checks: map<CheckId, Evidence>, v: Violation)
    ensures v in MissingFrom(required, checks) <==> v.MissingCheck? && v.id in required && v.id !in checks
  {
    if |required| > 0 { MissingMeans(required[1..], checks, v); }
  }

  lemma {:induction false} CheckedMeans(m: Manifest, required: seq<CheckId>, checks: map<CheckId, Evidence>, v: Violation)
    ensures v in AllCheckViolations(m, required, checks) <==>
      && !v.MissingCheck? && !v.Measured? && v.id in required && v.id in checks
      && v in CheckViolations(m, v.id, checks[v.id])
  {
    if |required| > 0 { CheckedMeans(m, required[1..], checks, v); }
  }

  lemma {:induction false} MeasuredMeans(texts: seq<string>, v: Violation)
    ensures v in Measurements(texts) <==> v.Measured? && v.text in texts
  {
    if |texts| > 0 { MeasuredMeans(texts[1..], v); }
  }

  /** The list holds exactly the violations whose facts hold. */
  lemma ViolationsAreFacts(m: Manifest, checks: map<CheckId, Evidence>, v: Violation)
    ensures v in Violations(m, checks) <==> Holds(m, checks, v)
  {
    MissingMeans(m.required, checks, v);
    CheckedMeans(m, m.required, checks, v);
    MeasuredMeans(m.measure(checks), v);
    hide MissingFrom;
    hide AllCheckViolations;
    hide Measurements;
  }

  /** So it is empty exactly for a run that satisfies the gates. */
  lemma NoViolationsMeansSatisfied(m: Manifest, checks: map<CheckId, Evidence>)
    ensures Violations(m, checks) == [] <==> Satisfied(m, checks)
  {
    var violations := Violations(m, checks);
    hide Violations;
    if violations == [] {
      forall i | 0 <= i < |m.required|
        ensures m.required[i] in checks
        ensures var e := checks[m.required[i]]; e.runId == m.runId && e.environmentId == m.environmentId && e.status == Passed
      {
        var id := m.required[i];
        ViolationsAreFacts(m, checks, MissingCheck(id));
        ViolationsAreFacts(m, checks, WrongRun(id));
        ViolationsAreFacts(m, checks, WrongEnvironment(id));
        ViolationsAreFacts(m, checks, FailedCheck(id));
      }
      if m.measure(checks) != [] { ViolationsAreFacts(m, checks, Measured(m.measure(checks)[0])); }
    } else {
      ViolationsAreFacts(m, checks, violations[0]);
    }
  }

  /** evaluate, on the checks that the index loader admits. */
  method Evaluate(m: Manifest, checks: map<CheckId, Evidence>) returns (violations: seq<Violation>)
    ensures violations == Violations(m, checks)
    ensures forall v :: v in violations <==> Holds(m, checks, v)
    ensures violations == [] <==> Satisfied(m, checks)
  {
    forall v
      ensures v in Violations(m, checks) <==> Holds(m, checks, v)
    {
      ViolationsAreFacts(m, checks, v);
    }
    NoViolationsMeansSatisfied(m, checks);
    hide Holds;
    hide Satisfied;
    violations := FindMissing(m.required, checks);
    var failures := CheckEach(m, checks);
    violations := violations + failures + Measurements(m.measure(checks));
  }

  method FindMissing(required: seq<CheckId>, checks: map<CheckId, Evidence>) returns (violations: seq<Violation>)
    ensures violations == MissingFrom(required, checks)
  {
    violations := [];
    var i := 0;
    while i < |required|
      invariant 0 <= i <= |required|
      invariant violations + MissingFrom(required[i..], checks) == MissingFrom(required, checks)
    {
      assert required[i..][1..] == required[i + 1..];
      var found := if required[i] in checks then [] else [MissingCheck(required[i])];
      Regroup(violations, found, MissingFrom(required[i + 1..], checks));
      violations := violations + found;
      i := i + 1;
    }
  }

  method CheckEach(m: Manifest, checks: map<CheckId, Evidence>) returns (violations: seq<Violation>)
    ensures violations == AllCheckViolations(m, m.required, checks)
  {
    violations := [];
    var i := 0;
    while i < |m.required|
      invariant 0 <= i <= |m.required|
      invariant violations + AllCheckViolations(m, m.required[i..], checks) == AllCheckViolations(m, m.required, checks)
    {
      assert m.required[i..][1..] == m.required[i + 1..];
      var found := if m.required[i] in checks then CheckViolations(m, m.required[i], checks[m.required[i]]) else [];
      Regroup(violations, found, AllCheckViolations(m, m.required[i + 1..], checks));
      violations := violations + found;
      i := i + 1;
    }
  }

  lemma Regroup<T>(a: seq<T>, b: seq<T>, c: seq<T>)
    ensures a + (b + c) == (a + b) + c && a + ([] + c) == a + c
  {
  }

  // --- Reviewer attestation ---

  datatype Payload = Payload(
    runId: string, environmentId: string, reviewerId: string, reviewerKey: Sha<string>, reviewedAt: string,
    manifestHash: string, checkIndex: CheckIndexSha, supportingIndex: SupportingIndexSha)

  datatype Attestation = Attestation(payload: Payload, signature: Hmac)

  datatype DecisionEntry = DecisionEntry(digest: DecisionSha, outcome: Status, attestation: AttestationSha)

  datatype Decision = Decision(
    runId: string, environmentId: string, manifestHash: string, outcome: Status, violations: seq<Violation>,
    reviewerId: string, reviewedAt: string, attestation: AttestationSha,
    checkIndex: CheckIndexSha, supportingIndex: SupportingIndexSha, decidedAt: string)

  datatype Run = Run(
    runId: string, environmentId: string, manifestHash: string, state: State,
    checks: CheckIndex, supporting: SupportingIndex, decision: Option<DecisionEntry>)

  const MINIMUM_KEY_BYTES := 32

  predicate ReviewerAdmitted(m: Manifest, reviewerId: string, key: string) {
    m.fold(reviewerId) != m.fold(m.operatorId) && |key| >= MINIMUM_KEY_BYTES && Sha(key) == m.reviewerKey
  }

  /** _attestation_payload; None where it raises. */
  function AttestationPayload(m: Manifest, run: Run, reviewerId: string, reviewedAt: string): Option<Payload> {
    if run.runId != m.runId || run.environmentId != m.environmentId || run.manifestHash != m.hash then None
    else Some(Payload(m.runId, m.environmentId, reviewerId, m.reviewerKey, reviewedAt, m.hash,
                      CheckIndexSha(run.checks), SupportingIndexSha(run.supporting)))
  }

  function Sign(m: Manifest, run: Run, reviewerId: string, key: string, reviewedAt: string): Option<Attestation> {
    if !ReviewerAdmitted(m, reviewerId, key) then None else
      match AttestationPayload(m, run, reviewerId, reviewedAt)
      case None => None
      case Some(p) => Some(Attestation(p, Hmac(key, p)))
  }

  /** verify_reviewer_attestation: true where it returns. */
  predicate Verifies(m: Manifest, run: Run, a: Attestation, key: string) {
    && ReviewerAdmitted(m, a.payload.reviewerId, key)
    && AttestationPayload(m, run, a.payload.reviewerId, a.payload.reviewedAt) == Some(a.payload)
    && a.signature == Hmac(key, a.payload)
  }

  /** Who may sign what: a reviewer other than the operator, with the long key of the manifest, for a run of the manifest. */
  lemma SignSucceedsExactly(m: Manifest, run: Run, reviewerId: string, key: string, reviewedAt: string)
    ensures Sign(m, run, reviewerId, key, reviewedAt).Some? <==>
      && m.fold(reviewerId) != m.fold(m.operatorId) && |key| >= 32 && key == m.reviewerKey.preimage
      && (run.runId, run.environmentId, run.manifestHash) == (m.runId, m.environmentId, m.hash)
  {
  }

  /** An attestation is accepted exactly when signing the run as it now stands would produce it. */
  lemma VerifiesExactlyWhatWasSigned(m: Manifest, run: Run, a: Attestation, key: string)
    ensures Verifies(m, run, a, key) <==> Sign(m, run, a.payload.reviewerId, key, a.payload.reviewedAt) == Some(a)
  {
  }

  /**
   * It is bound to the key holder and a reviewer other than the operator, and is accepted for exactly those
   * runs that agree with the reviewed one on their identity and both indexes.
   */
  lemma AttestationBinds(m: Manifest, run: Run, a: Attestation, key: string, other: Run, otherKey: string)
    requires Verifies(m, run, a, key)
    ensures m.fold(a.payload.reviewerId) != m.fold(m.operatorId) && a.signature.key == m.reviewerKey.preimage
    ensures Verifies(m, other, a, otherKey) <==>
      && otherKey == key && other.checks == run.checks && other.supporting == run.supporting
      && other.runId == run.runId && other.environmentId == run.environmentId && other.manifestHash == run.manifestHash
  {
  }

  // --- Gates and states, one record at a time ---

  /** Entries carry their own gate, and every gate below a recorded check has passed. */
  ghost predicate Gated(gates: seq<seq<CheckId>>, checks: CheckIndex) {
    forall id :: id in checks ==>
      GateOf(gates, id) == Some(checks[id].gate) && checks[id].gate < |gates|
      && PriorGatesPassed(gates, checks, checks[id].gate)
  }

  ghost predicate AtMostOneFailed(checks: CheckIndex) {
    forall a, b :: a in checks && b in checks && checks[a].status == Failed && checks[b].status == Failed ==> a == b
  }

  function Recorded(checks: CheckIndex, e: Evidence, g: nat): CheckIndex {
    checks[e.checkId := CheckEntry(Sha(e), e.status, g)]
  }

  lemma RecordKeepsGates(gates: seq<seq<CheckId>>, checks: CheckIndex, e: Evidence, g: nat)
    requires Gated(gates, checks) && e.checkId !in checks
    requires GateOf(gates, e.checkId) == Some(g) && PriorGatesPassed(gates, checks, g)
    ensures Gated(gates, Recorded(checks, e, g))
  {
    var after := Recorded(checks, e, g);
    forall id | id in after
      ensures GateOf(gates, id) == Some(after[id].gate) && PriorGatesPassed(gates, after, after[id].gate)
    {
      PassedStaysPassed(gates, checks, e, g, after[id].gate);
    }
  }

  lemma PassedStaysPassed(gates: seq<seq<CheckId>>, checks: CheckIndex, e: Evidence, g: nat, upTo: nat)
    requires e.checkId !in checks && upTo <= |gates| && PriorGatesPassed(gates, checks, upTo)
    ensures PriorGatesPassed(gates, Recorded(checks, e, g), upTo)
  {
    forall k | 0 <= k < upTo
      ensures GatePassed(Recorded(checks, e, g), gates[k])
    {
      assert GatePassed(checks, gates[k]);
    }
  }

  /** Recording a check moves the state exactly to what the new index says. */
  lemma RecordKeepsState(gates: seq<seq<CheckId>>, checks: CheckIndex, e: Evidence, g: nat)
    requires Gated(gates, checks) && e.checkId !in checks && !AnyFailed(checks)
    requires GateOf(gates, e.checkId) == Some(g) && PriorGatesPassed(gates, checks, g)
    ensures var after := Recorded(checks, e, g);
      NextState(gates, after, StateOf(gates, checks), e, g) == StateOf(gates, after)
  {
    var after := Recorded(checks, e, g);
    assert e.checkId in after;
    if e.status == Passed {
      assert !AnyFailed(after);
      if g > 0 {
        assert PastGateZero(after) && GatePassed(checks, gates[0]);
      } else {
        GateZeroUndecided(gates, checks, e);
        assert PastGateZero(after) <==> PastGateZero(checks);
      }
    }
  }

  /** While a check of gate zero is still to be recorded, nothing past gate zero has been. */
  lemma GateZeroUndecided(gates: seq<seq<CheckId>>, checks: CheckIndex, e: Evidence)
    requires Gated(gates, checks) && e.checkId !in checks && GateOf(gates, e.checkId) == Some(0)
    ensures !PastGateZero(checks) && |gates| > 0 && !GatePassed(checks, gates[0])
  {
    var k :| 0 <= k < |gates[0]| && gates[0][k] == e.checkId;
    assert !HasPassed(checks, gates[0][k]);
    assert forall id :: id in checks && checks[id].gate > 0 ==> GatePassed(checks, gates[0]);
  }

  lemma RecordKeepsOneFailed(checks: CheckIndex, e: Evidence, g: nat)
    requires !AnyFailed(checks)
    ensures AtMostOneFailed(Recorded(checks, e, g))
  {
  }
}
