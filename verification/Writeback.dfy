/**
 * Write-back requests: safety policy, approval and execution (apps/api/src/advanced-platform.ts over
 * packages/platform-core/src/writeback.ts).
 */
module Writeback {
  import opened Common

  type Id = string
  type Actor = string

  datatype Risk = Low | Medium | High | Critical

  function Level(r: Risk): nat {
    match r
    case Low => 0
    case Medium => 1
    case High => 2
    case Critical => 3
  }

  // --- The policy ---

  const MAXIMUM_APPROVALS := 20

  function MinimumApprovals(r: Risk): nat {
    if r == High || r == Critical then 2 else 1
  }

  datatype PolicyInput = PolicyInput(
    enabled: bool, allowedOperations: seq<string>, maximumRisk: Risk, requireDryRun: bool, approvals: map<Risk, int>)

  datatype Policy = Policy(enabled: bool, allowedOperations: set<string>, maximumRisk: Risk, approvals: map<Risk, int>)
  {
    /** Every normalised policy demands at least the minimum for each risk. */
    predicate Valid() {
      forall r: Risk :: r in approvals && MinimumApprovals(r) <= approvals[r] <= MAXIMUM_APPROVALS
    }
  }

  function Requirement(p: PolicyInput, r: Risk): int {
    if r in p.approvals then p.approvals[r] else MinimumApprovals(r)
  }

  const MAXIMUM_OPERATION_LENGTH := 255

  predicate IsOperation(o: string) {
    0 < |o| <= MAXIMUM_OPERATION_LENGTH
  }

  function Trimmed(operations: seq<string>, trim: string -> string): set<string> {
    set i | 0 <= i < |operations| :: trim(operations[i])
  }

  /** normalizePolicy, with String.prototype.trim; None where it throws. */
  function NormalizePolicy(p: PolicyInput, trim: string -> string): (n: Option<Policy>)
    ensures n.Some? ==> n.value.Valid() && forall o :: o in n.value.allowedOperations ==> IsOperation(o)
  {
    var operations := Trimmed(p.allowedOperations, trim);
    if !p.requireDryRun then None
    else if exists o :: o in operations && !IsOperation(o) then None
    else if exists r: Risk :: !(MinimumApprovals(r) <= Requirement(p, r) <= MAXIMUM_APPROVALS) then None
    else Some(Policy(p.enabled, operations, p.maximumRisk, Requirements(p)))
  }

  function Requirements(p: PolicyInput): (r: map<Risk, int>)
    ensures forall risk: Risk :: risk in r && r[risk] == Requirement(p, risk)
  {
    map risk: Risk | true :: Requirement(p, risk)
  }

  /** A normalised policy, listed in any order and with any repetitions, normalises to itself. */
  lemma NormalizeIsStable(p: PolicyInput, trim: string -> string, operations: seq<string>)
    requires forall o: string :: trim(trim(o)) == trim(o)
    requires NormalizePolicy(p, trim).Some?
    requires forall o :: o in operations <==> o in NormalizePolicy(p, trim).value.allowedOperations
    ensures var n := NormalizePolicy(p, trim).value;
      NormalizePolicy(PolicyInput(n.enabled, operations, n.maximumRisk, true, n.approvals), trim) == Some(n)
  {
    var n := NormalizePolicy(p, trim).value;
    var again := PolicyInput(n.enabled, operations, n.maximumRisk, true, n.approvals);
    forall o | o in n.allowedOperations
      ensures trim(o) == o && o in Trimmed(operations, trim)
    {
      var i :| 0 <= i < |p.allowedOperations| && trim(p.allowedOperations[i]) == o;
      var j :| 0 <= j < |operations| && operations[j] == o;
      assert trim(operations[j]) == o;
    }
    assert Trimmed(operations, trim) == n.allowedOperations;
    assert Requirements(again) == n.approvals;
  }

  /**
   * What a normalised policy allows: an operation is on its list if and only if it was configured up to blanks,
   * and every risk needs what was configured for it, or else its minimum.
   */
  lemma NormalizeKeepsChoices(p: PolicyInput, trim: string -> string, o: string, r: Risk)
    requires NormalizePolicy(p, trim).Some?
    ensures var n := NormalizePolicy(p, trim).value;
      && n.enabled == p.enabled && n.maximumRisk == p.maximumRisk
      && (o in n.allowedOperations <==> exists i :: 0 <= i < |p.allowedOperations| && trim(p.allowedOperations[i]) == o)
      && n.approvals[r] == (if r in p.approvals then p.approvals[r] else if r == High || r == Critical then 2 else 1)
  {
  }

  /** A policy is refused exactly without a dry run, for a blank or long operation, or for approvals out of bounds. */
  lemma NormalizeRefusesExactly(p: PolicyInput, trim: string -> string)
    ensures NormalizePolicy(p, trim).Some? <==>
      && p.requireDryRun
      && (forall i :: 0 <= i < |p.allowedOperations| ==> 0 < |trim(p.allowedOperations[i])| <= 255)
      && (forall r: Risk :: r in p.approvals ==> (if r == High || r == Critical then 2 else 1) <= p.approvals[r] <= 20)
  {
    OperationsAreValid(p.allowedOperations, trim);
    assert forall r: Risk :: MinimumApprovals(r) == if r == High || r == Critical then 2 else 1;
    hide Trimmed;
    hide IsOperation;
    if (forall r: Risk :: r in p.approvals ==> MinimumApprovals(r) <= p.approvals[r] <= 20) {
      assert forall r: Risk :: MinimumApprovals(r) <= Requirement(p, r) <= MAXIMUM_APPROVALS;
    } else {
      var r: Risk :| r in p.approvals && !(MinimumApprovals(r) <= p.approvals[r] <= 20);
      assert Requirement(p, r) == p.approvals[r];
    }
  }

  lemma OperationsAreValid(operations: seq<string>, trim: string -> string)
    ensures (forall o :: o in Trimmed(operations, trim) ==> IsOperation(o)) <==>
      forall i :: 0 <= i < |operations| ==> 0 < |trim(operations[i])| <= 255
  {
    if i :| 0 <= i < |operations| && !IsOperation(trim(operations[i])) {
      assert trim(operations[i]) in Trimmed(operations, trim);
    }
  }

  // --- Requests ---

  datatype State = PendingApproval | Approved | Executing | Succeeded | Failed | Cancelled

  datatype Approval = Approval(actor: Actor, approved: bool)

  datatype Request = Request(
    operation: string, risk: Risk, dryRunSafe: bool, requestedBy: Actor, state: State, approvals: seq<Approval>)

  datatype Reason =
    | Disabled | NotAwaitingApproval | NotAllowlisted | RiskTooHigh | CriticalRisk | NoSafeDryRun | RejectedByReviewer
    | ApprovalsMissing

  /** Distinct reviewers, other than the requester, who approved. */
  function Approvers(approvals: seq<Approval>, requester: Actor): set<Actor> {
    set i | 0 <= i < |approvals| && approvals[i].approved && approvals[i].actor != requester :: approvals[i].actor
  }

  /** evaluateWritebackSafety: the reasons against executing the request. */
  function Reasons(q: Request, p: Policy): set<Reason>
    requires p.Valid()
  {
    (if p.enabled then {} else {Disabled})
    + (if q.state == PendingApproval || q.state == Approved then {} else {NotAwaitingApproval})
    + (if q.operation in p.allowedOperations then {} else {NotAllowlisted})
    + (if Level(q.risk) > Level(p.maximumRisk) then {RiskTooHigh} else {})
    + (if q.risk == Critical then {CriticalRisk} else {})
    + (if q.dryRunSafe then {} else {NoSafeDryRun})
    + (if exists i :: 0 <= i < |q.approvals| && !q.approvals[i].approved then {RejectedByReviewer} else {})
    + (if |Approvers(q.approvals, q.requestedBy)| < p.approvals[q.risk] then {ApprovalsMissing} else {})
  }

  // --- The event log ---

  datatype EventKind =
    | RequestCreated
    | RequestBlocked
    | Reviewed(approved: bool, resulting: State)
    | ExecutionBlocked
    | ExecutionStarted
    | ExecutionEnded(succeeded: bool)

  datatype Event = Event(request: Id, actor: Actor, kind: EventKind)

  /** The state that the events of one request add up to. */
  function Fold(events: seq<Event>, id: Id): Option<State> {
    if |events| == 0 then None
    else
      var before := Fold(events[..|events| - 1], id);
      var last := events[|events| - 1];
      if last.request != id then before
      else
        match last.kind
        case RequestCreated => Some(PendingApproval)
        case RequestBlocked => Some(Cancelled)
        case Reviewed(_, resulting) => Some(resulting)
        case ExecutionBlocked => before
        case ExecutionStarted => Some(Executing)
        case ExecutionEnded(succeeded) => Some(if succeeded then Succeeded else Failed)
  }

  datatype Tables = Tables(requests: map<Id, Request>, events: seq<Event>)

  datatype Failure = NotFound | Conflict | Forbidden

  // --- The calls; the policy is the one in force when the call is made ---

  datatype Call =
    | Create(id: Id, draft: Request, sourceExists: bool)
    | Review(id: Id, actor: Actor, approve: bool)
    | RecordUnavailable(id: Id, actor: Actor)
    | Begin(id: Id, actor: Actor)
    | Complete(id: Id, actor: Actor, succeeded: bool)

  function Log(t: Tables, id: Id, q: Request, actor: Actor, kind: EventKind): Tables {
    Tables(t.requests[id := q], t.events + [Event(id, actor, kind)])
  }

  function InitialState(draft: Request, p: Policy): State
    requires p.Valid()
  {
    if Reasons(draft.(state := PendingApproval, approvals := []), p) - {ApprovalsMissing} != {} then Cancelled else PendingApproval
  }

  /** The state after a review that is recorded. */
  function ReviewedState(q: Request, approve: bool, p: Policy): State
    requires p.Valid()
  {
    if !approve then Cancelled
    else if Reasons(q, p) == {} then Approved
    else if Reasons(q, p) - {ApprovalsMissing} != {} then Cancelled
    else PendingApproval
  }

  function Step(t: Tables, call: Call, p: Policy): Result<Tables, Failure>
    requires p.Valid()
  {
    if call.Create? then
      if call.id in t.requests then Error(Conflict)
      else if !call.sourceExists then Error(NotFound)
      else
        var state := InitialState(call.draft, p);
        Ok(Log(t, call.id, call.draft.(state := state, approvals := []), call.draft.requestedBy,
               if state == Cancelled then RequestBlocked else RequestCreated))
    else if call.id !in t.requests then Error(NotFound)
    else
      var q := t.requests[call.id];
      match call
      case Review(id, actor, approve) =>
        if q.state != PendingApproval then Error(Conflict)
        else if q.requestedBy == actor then Error(Forbidden)
        else if exists i :: 0 <= i < |q.approvals| && q.approvals[i].actor == actor then Error(Conflict)
        else
          var reviewed := q.(approvals := q.approvals + [Approval(actor, approve)]);
          var state := ReviewedState(reviewed, approve, p);
          Ok(Log(t, id, reviewed.(state := state), actor, Reviewed(approve, state)))
      case RecordUnavailable(id, actor) => Ok(Log(t, id, q, actor, ExecutionBlocked))
      case Begin(id, actor) =>
        if q.state != Approved then Error(Conflict)
        else if Reasons(q, p) != {} then Error(Forbidden)
        else Ok(Log(t, id, q.(state := Executing), actor, ExecutionStarted))
      case Complete(id, actor, succeeded) =>
        if q.state != Executing then Error(Conflict)
        else Ok(Log(t, id, q.(state := if succeeded then Succeeded else Failed), actor, ExecutionEnded(succeeded)))
      case Create(_, _, _) => Error(Conflict)
  }

  /** The same calls as transactions over the tables. */
  class WritebackStore {
    var requests: map<Id, Request>
    var events: seq<Event>

    function State(): Tables
      reads this
    {
      Tables(requests, events)
    }

    constructor ()
      ensures State() == Tables(map[], [])
    {
      requests, events := map[], [];
    }

    /** A call ends with the tables it promises, or fails and leaves the tables it found. */
    ghost predicate Performs(before: Tables, call: Call, p: Policy, error: Option<Failure>)
      requires p.Valid()
      reads this
    {
      match Step(before, call, p)
      case Ok(after) => error.None? && State() == after
      case Error(e) => error == Some(e) && State() == before
    }

    method Record(id: Id, q: Request, actor: Actor, kind: EventKind)
      modifies this
      ensures State() == Log(old(State()), id, q, actor, kind)
    {
      requests := requests[id := q];
      events := events + [Event(id, actor, kind)];
    }

    method CreateRequest(id: Id, draft: Request, sourceExists: bool, p: Policy) returns (error: Option<Failure>)
      requires p.Valid()
      modifies this
      ensures Performs(old(State()), Create(id, draft, sourceExists), p, error)
    {
      if id in requests {
        return Some(Conflict);
      }
      if !sourceExists {
        return Some(NotFound);
      }
      var candidate := draft.(state := PendingApproval, approvals := []);
      var blocked := Reasons(candidate, p) - {ApprovalsMissing};
      var state := if blocked != {} then Cancelled else PendingApproval;
      Record(id, candidate.(state := state), draft.requestedBy, if state == Cancelled then RequestBlocked else RequestCreated);
      error := None;
    }

    method ReviewRequest(id: Id, actor: Actor, approve: bool, p: Policy) returns (error: Option<Failure>)
      requires p.Valid()
      modifies this
      ensures Performs(old(State()), Review(id, actor, approve), p, error)
    {
      if id !in requests {
        return Some(NotFound);
      }
      var q := requests[id];
      if q.state != PendingApproval {
        return Some(Conflict);
      }
      if q.requestedBy == actor {
        return Some(Forbidden);
      }
      var i := 0;
      while i < |q.approvals|
        invariant 0 <= i <= |q.approvals|
        invariant forall j :: 0 <= j < i ==> q.approvals[j].actor != actor
      {
        if q.approvals[i].actor == actor {
          return Some(Conflict);
        }
        i := i + 1;
      }
      var reviewed := q.(approvals := q.approvals + [Approval(actor, approve)]);
      var state := PendingApproval;
      if !approve {
        state := Cancelled;
      } else {
        var reasons := Reasons(reviewed, p);
        if reasons == {} {
          state := Approved;
        } else if reasons - {ApprovalsMissing} != {} {
          state := Cancelled;
        }
      }
      Record(id, reviewed.(state := state), actor, Reviewed(approve, state));
      error := None;
    }

    method BeginExecution(id: Id, actor: Actor, p: Policy) returns (error: Option<Failure>)
      requires p.Valid()
      modifies this
      ensures Performs(old(State()), Begin(id, actor), p, error)
    {
      if id !in requests {
        return Some(NotFound);
      }
      var q := requests[id];
      if q.state != Approved {
        return Some(Conflict);
      }
      if Reasons(q, p) != {} {
        return Some(Forbidden);
      }
      Record(id, q.(state := Executing), actor, ExecutionStarted);
      error := None;
    }

    method CompleteExecution(id: Id, actor: Actor, succeeded: bool, p: Policy) returns (error: Option<Failure>)
      requires p.Valid()
      modifies this
      ensures Performs(old(State()), Complete(id, actor, succeeded), p, error)
    {
      if id !in requests {
        return Some(NotFound);
      }
      var q := requests[id];
      if q.state != Executing {
        return Some(Conflict);
      }
      Record(id, q.(state := if succeeded then Succeeded else Failed), actor, ExecutionEnded(succeeded));
      error := None;
    }
  }

  // --- What an empty set of reasons means ---

  /** Nothing stands against the request but its state and missing approvals. */
  predicate Unopposed(q: Request, p: Policy) {
    && p.enabled && q.operation in p.allowedOperations
    && Level(q.risk) <= Level(p.maximumRisk) && q.risk != Critical && q.dryRunSafe
    && forall i :: 0 <= i < |q.approvals| ==> q.approvals[i].approved
  }

  lemma NoReasonsMeansSafe(q: Request, p: Policy)
    requires p.Valid()
    ensures Reasons(q, p) == {} <==>
      && Unopposed(q, p) && (q.state == PendingApproval || q.state == Approved)
      && |Approvers(q.approvals, q.requestedBy)| >= p.approvals[q.risk]
  {
    var r := Reasons(q, p);
    if r == {} {
      assert Disabled !in r && NotAwaitingApproval !in r && NotAllowlisted !in r && RiskTooHigh !in r;
      assert CriticalRisk !in r && NoSafeDryRun !in r && RejectedByReviewer !in r && ApprovalsMissing !in r;
    }
  }

  // --- What every run of calls keeps ---

  predicate Terminal(s: State) {
    s == Cancelled || s == Succeeded || s == Failed
  }

  predicate HasStarted(s: State) {
    s == Executing || s == Succeeded || s == Failed
  }

  /** What it takes to be executed, whatever the policy was. */
  predicate Cleared(q: Request) {
    && q.risk != Critical && q.dryRunSafe
    && (forall i :: 0 <= i < |q.approvals| ==> q.approvals[i].approved)
    && |Approvers(q.approvals, q.requestedBy)| >= MinimumApprovals(q.risk)
  }

  /** The requester does not review, and nobody reviews twice. */
  predicate FairReviews(approvals: seq<Approval>, requestedBy: Actor) {
    && (forall i :: 0 <= i < |approvals| ==> approvals[i].actor != requestedBy)
    && (forall i, j :: 0 <= i < j < |approvals| ==> approvals[i].actor != approvals[j].actor)
  }

  predicate ValidRequest(q: Request) {
    FairReviews(q.approvals, q.requestedBy) && (q.state == Approved || HasStarted(q.state) ==> Cleared(q))
  }

  predicate StartedAt(events: seq<Event>, i: int, id: Id) {
    0 <= i < |events| && events[i].request == id && events[i].kind == ExecutionStarted
  }

  ghost predicate Valid(t: Tables) {
    && (forall id :: Fold(t.events, id) == if id in t.requests then Some(t.requests[id].state) else None)
    && (forall id :: id in t.requests ==> ValidRequest(t.requests[id]))
    && (forall id, i :: StartedAt(t.events, i, id) ==>
          id in t.requests && HasStarted(t.requests[id].state) && Fold(t.events[..i], id) == Some(Approved))
    && (forall id, i, j :: StartedAt(t.events, i, id) && StartedAt(t.events, j, id) ==> i == j)
  }

  /** Finished requests are never touched again. */
  ghost predicate Absorbs(t: Tables, u: Tables) {
    && (forall id :: id in t.requests ==> id in u.requests && (Terminal(t.requests[id].state) ==> u.requests[id] == t.requests[id]))
    && t.events <= u.events
  }

  lemma FoldOneMore(events: seq<Event>, e: Event, id: Id)
    ensures Fold(events + [e], id) ==
      if e.request != id || e.kind == ExecutionBlocked then Fold(events, id)
      else match e.kind
        case RequestCreated => Some(PendingApproval)
        case RequestBlocked => Some(Cancelled)
        case Reviewed(_, resulting) => Some(resulting)
        case ExecutionBlocked => Fold(events, id)
        case ExecutionStarted => Some(Executing)
        case ExecutionEnded(succeeded) => Some(if succeeded then Succeeded else Failed)
  {
    assert (events + [e])[..|events|] == events;
  }

  lemma StartedGrows(events: seq<Event>, e: Event)
    ensures forall id, i :: StartedAt(events + [e], i, id) <==>
      StartedAt(events, i, id) || (i == |events| && e.request == id && e.kind == ExecutionStarted)
    ensures forall i :: 0 <= i <= |events| ==> (events + [e])[..i] == events[..i]
  {
  }

  /** What a new event must fit to be logged with a new row of its request. */
  ghost predicate Fits(t: Tables, id: Id, q: Request, actor: Actor, kind: EventKind) {
    && ValidRequest(q)
    && Fold(t.events + [Event(id, actor, kind)], id) == Some(q.state)
    && (kind == ExecutionStarted ==> id in t.requests && t.requests[id].state == Approved && q.state == Executing)
    && (id in t.requests && HasStarted(t.requests[id].state) ==> HasStarted(q.state))
    && (id in t.requests && Terminal(t.requests[id].state) ==> q == t.requests[id])
  }

  lemma LogKeepsFold(t: Tables, id: Id, q: Request, actor: Actor, kind: EventKind)
    requires Valid(t) && Fits(t, id, q, actor, kind)
    ensures var u := Log(t, id, q, actor, kind);
      forall other :: Fold(u.events, other) == if other in u.requests then Some(u.requests[other].state) else None
  {
    var u := Log(t, id, q, actor, kind);
    forall other
      ensures Fold(u.events, other) == if other in u.requests then Some(u.requests[other].state) else None
    {
      FoldOneMore(t.events, Event(id, actor, kind), other);
    }
  }

  lemma LogKeepsStarts(t: Tables, id: Id, q: Request, actor: Actor, kind: EventKind, other: Id, i: int)
    requires Valid(t) && Fits(t, id, q, actor, kind) && StartedAt(Log(t, id, q, actor, kind).events, i, other)
    ensures var u := Log(t, id, q, actor, kind);
      && other in u.requests && HasStarted(u.requests[other].state) && Fold(u.events[..i], other) == Some(Approved)
      && forall j :: StartedAt(u.events, j, other) ==> i == j
  {
    StartedGrows(t.events, Event(id, actor, kind));
    hide Fold;
    assert t.events[..|t.events|] == t.events;
  }

  lemma LogKeepsValid(t: Tables, id: Id, q: Request, actor: Actor, kind: EventKind)
    requires Valid(t) && Fits(t, id, q, actor, kind)
    ensures Valid(Log(t, id, q, actor, kind)) && Absorbs(t, Log(t, id, q, actor, kind))
  {
    var u := Log(t, id, q, actor, kind);
    LogKeepsFold(t, id, q, actor, kind);
    forall other, i | StartedAt(u.events, i, other)
      ensures other in u.requests && HasStarted(u.requests[other].state) && Fold(u.events[..i], other) == Some(Approved)
      ensures forall j :: StartedAt(u.events, j, other) ==> i == j
    {
      LogKeepsStarts(t, id, q, actor, kind, other, i);
    }
    hide Fold;
    hide StartedAt;
  }

  /** The row, the actor and the event of a call that succeeds. */
  function Entry(t: Tables, call: Call, p: Policy): (Request, Actor, EventKind)
    requires p.Valid() && Step(t, call, p).Ok?
  {
    match call
    case Create(id, draft, _) =>
      var state := InitialState(draft, p);
      (draft.(state := state, approvals := []), draft.requestedBy, if state == Cancelled then RequestBlocked else RequestCreated)
    case Review(id, actor, approve) =>
      var reviewed := t.requests[id].(approvals := t.requests[id].approvals + [Approval(actor, approve)]);
      var state := ReviewedState(reviewed, approve, p);
      (reviewed.(state := state), actor, Reviewed(approve, state))
    case RecordUnavailable(id, actor) => (t.requests[id], actor, ExecutionBlocked)
    case Begin(id, actor) => (t.requests[id].(state := Executing), actor, ExecutionStarted)
    case Complete(id, actor, succeeded) =>
      (t.requests[id].(state := if succeeded then Succeeded else Failed), actor, ExecutionEnded(succeeded))
  }

  lemma EntryFits(t: Tables, call: Call, p: Policy)
    requires p.Valid() && Step(t, call, p).Ok?
    requires Fold(t.events, call.id) == if call.id in t.requests then Some(t.requests[call.id].state) else None
    requires call.id in t.requests ==> ValidRequest(t.requests[call.id])
    ensures var (q, actor, kind) := Entry(t, call, p);
      Fits(t, call.id, q, actor, kind) && Step(t, call, p).value == Log(t, call.id, q, actor, kind)
  {
    hide Fold;
    hide Reasons;
    var (q, actor, kind) := Entry(t, call, p);
    FoldOneMore(t.events, Event(call.id, actor, kind), call.id);
    match call
    case Create(_, _, _) =>
    case Review(id, reviewer, approve) => ReviewKeepsRequest(t.requests[id], reviewer, approve, p);
    case RecordUnavailable(_, _) =>
    case Begin(_, _) =>
    case Complete(_, _, _) =>
  }

  lemma StepKeepsValid(t: Tables, call: Call, p: Policy)
    requires Valid(t) && p.Valid() && Step(t, call, p).Ok?
    ensures Valid(Step(t, call, p).value) && Absorbs(t, Step(t, call, p).value)
  {
    var (q, actor, kind) := Entry(t, call, p);
    EntryFits(t, call, p);
    LogKeepsValid(t, call.id, q, actor, kind);
  }

  lemma ReviewKeepsRequest(q: Request, actor: Actor, approve: bool, p: Policy)
    requires ValidRequest(q) && p.Valid() && q.requestedBy != actor && q.state == PendingApproval
    requires forall i :: 0 <= i < |q.approvals| ==> q.approvals[i].actor != actor
    ensures var reviewed := q.(approvals := q.approvals + [Approval(actor, approve)]);
      ValidRequest(reviewed.(state := ReviewedState(reviewed, approve, p)))
  {
    var reviewed := q.(approvals := q.approvals + [Approval(actor, approve)]);
    var state := ReviewedState(reviewed, approve, p);
    assert state == Approved || state == Cancelled || state == PendingApproval;
    OneMoreReview(q.approvals, q.requestedBy, Approval(actor, approve));
    NoReasonsMeansSafe(reviewed, p);
    if state == Approved {
      assert Reasons(reviewed, p) == {};
      SafeIsCleared(reviewed, p, Approved);
    }
    hide *;
    ValidIfCleared(reviewed, state);
  }

  lemma OneMoreReview(approvals: seq<Approval>, requestedBy: Actor, a: Approval)
    requires FairReviews(approvals, requestedBy) && a.actor != requestedBy
    requires forall i :: 0 <= i < |approvals| ==> approvals[i].actor != a.actor
    ensures FairReviews(approvals + [a], requestedBy)
  {
  }

  /** What may be executed under any policy whose minimums are the ones demanded. */
  lemma SafeIsCleared(q: Request, p: Policy, state: State)
    requires p.Valid() && Unopposed(q, p) && |Approvers(q.approvals, q.requestedBy)| >= p.approvals[q.risk]
    ensures Cleared(q.(state := state))
  {
  }

  lemma ValidIfCleared(q: Request, state: State)
    requires FairReviews(q.approvals, q.requestedBy)
    requires state == Approved || state == Cancelled || state == PendingApproval
    requires state == Approved ==> Cleared(q.(state := state))
    ensures ValidRequest(q.(state := state))
  {
  }

  function Run(t: Tables, calls: seq<(Call, Policy)>): Tables
    requires forall i :: 0 <= i < |calls| ==> calls[i].1.Valid()
    decreases |calls|
  {
    if |calls| == 0 then t
    else
      var next := Step(t, calls[0].0, calls[0].1);
      Run(if next.Ok? then next.value else t, calls[1..])
  }

  lemma {:induction false} RunKeepsValid(t: Tables, calls: seq<(Call, Policy)>)
    requires Valid(t) && forall i :: 0 <= i < |calls| ==> calls[i].1.Valid()
    ensures Valid(Run(t, calls)) && Absorbs(t, Run(t, calls))
    decreases |calls|
  {
    if |calls| > 0 {
      var next := Step(t, calls[0].0, calls[0].1);
      if next.Ok? { StepKeepsValid(t, calls[0].0, calls[0].1); }
      RunKeepsValid(if next.Ok? then next.value else t, calls[1..]);
    }
  }

  /**
   * For every sequence of calls under any policies: an execution starts at most once per request, and
   * only from approved; the state of a request is what its events add up to; the requester never
   * reviews and nobody reviews twice; and what was started had its approvals and its safe dry run.
   */
  lemma ReachableRequests(calls: seq<(Call, Policy)>)
    requires forall i :: 0 <= i < |calls| ==> calls[i].1.Valid()
    ensures var t := Run(Tables(map[], []), calls);
      && (forall id, i, j :: StartedAt(t.events, i, id) && StartedAt(t.events, j, id) ==> i == j)
      && (forall id, i :: StartedAt(t.events, i, id) ==> Fold(t.events[..i], id) == Some(Approved) && id in t.requests && Cleared(t.requests[id]))
      && (forall id :: id in t.requests ==> Fold(t.events, id) == Some(t.requests[id].state))
      && (forall id :: id in t.requests ==> ValidRequest(t.requests[id]))
  {
    RunKeepsValid(Tables(map[], []), calls);
  }

  /** Cancelled, succeeded and failed requests stay exactly as they are. */
  lemma FinishedRequestsStay(t: Tables, calls: seq<(Call, Policy)>, id: Id)
    requires Valid(t) && id in t.requests && Terminal(t.requests[id].state)
    requires forall i :: 0 <= i < |calls| ==> calls[i].1.Valid()
    ensures id in Run(t, calls).requests && Run(t, calls).requests[id] == t.requests[id]
  {
    RunKeepsValid(t, calls);
  }

  /** A review approves exactly when it is an approval, nothing stands against it, and it is the one that was missing. */
  lemma ReviewApprovesExactly(t: Tables, id: Id, actor: Actor, approve: bool, p: Policy)
    requires Valid(t) && p.Valid() && Step(t, Review(id, actor, approve), p).Ok?
    ensures var q := t.requests[id];
      var after := Step(t, Review(id, actor, approve), p).value.requests[id];
      && after.approvals == q.approvals + [Approval(actor, approve)]
      && (after.state == Approved <==>
            approve && Unopposed(q, p) && |Approvers(after.approvals, q.requestedBy)| >= p.approvals[q.risk])
  {
    var q := t.requests[id];
    var reviewed := q.(approvals := q.approvals + [Approval(actor, approve)]);
    var state := ReviewedState(reviewed, approve, p);
    assert q.state == PendingApproval;
    assert Step(t, Review(id, actor, approve), p).value.requests[id] == reviewed.(state := state);
    assert state == Approved <==> approve && Reasons(reviewed, p) == {};
    NoReasonsMeansSafe(reviewed, p);
    OneMoreApproval(q, reviewed, p, Approval(actor, approve));
    hide *;
  }

  lemma OneMoreApproval(q: Request, reviewed: Request, p: Policy, a: Approval)
    requires reviewed == q.(approvals := q.approvals + [a])
    ensures Unopposed(reviewed, p) <==> Unopposed(q, p) && a.approved
  {
    assert reviewed.approvals[|q.approvals|] == a;
    assert forall i :: 0 <= i < |q.approvals| ==> reviewed.approvals[i] == q.approvals[i];
  }

  // --- The answer to every call ---

  lemma OnlyApprovalsMissing(q: Request, p: Policy)
    requires p.Valid()
    ensures Reasons(q, p) - {ApprovalsMissing} == {} <==> Unopposed(q, p) && (q.state == PendingApproval || q.state == Approved)
  {
    var r := Reasons(q, p) - {ApprovalsMissing};
    if r == {} {
      assert Disabled !in r && NotAwaitingApproval !in r && NotAllowlisted !in r && RiskTooHigh !in r;
      assert CriticalRisk !in r && NoSafeDryRun !in r && RejectedByReviewer !in r;
    }
  }

  /** Enough distinct reviewers, other than the requester, approved. */
  predicate Approvable(q: Request, p: Policy)
    requires p.Valid()
  {
    |Approvers(q.approvals, q.requestedBy)| >= p.approvals[q.risk]
  }

  /** One row changed its state and its reviews at most, one event of it was logged, and nothing else happened. */
  ghost predicate Logs(t: Tables, u: Tables, id: Id, before: Request, state: State, reviews: seq<Approval>, e: Event) {
    && u.events == t.events + [e] && e.request == id
    && u.requests - {id} == t.requests - {id} && id in u.requests
    && var q := u.requests[id];
       && q.operation == before.operation && q.risk == before.risk && q.dryRunSafe == before.dryRunSafe
       && q.requestedBy == before.requestedBy && q.state == state && q.approvals == before.approvals + reviews
  }

  /** A new request waits for approval, or is cancelled at once for anything but its missing approvals. */
  ghost predicate AnswersCreate(
      t: Tables, id: Id, draft: Request, sourceExists: bool, p: Policy, r: Result<Tables, Failure>)
  {
    var unreviewed := draft.(approvals := []);
    if id in t.requests then r == Error(Conflict)
    else if !sourceExists then r == Error(NotFound)
    else
      && r.Ok?
      && if Unopposed(unreviewed, p)
         then Logs(t, r.value, id, unreviewed, PendingApproval, [], Event(id, draft.requestedBy, RequestCreated))
         else Logs(t, r.value, id, unreviewed, Cancelled, [], Event(id, draft.requestedBy, RequestBlocked))
  }

  /** A review by somebody else than the requester, and once, approves, cancels or leaves the request waiting. */
  ghost predicate AnswersReview(t: Tables, id: Id, actor: Actor, approve: bool, p: Policy, r: Result<Tables, Failure>)
    requires p.Valid()
  {
    if id !in t.requests then r == Error(NotFound)
    else
      var q := t.requests[id];
      var review := Approval(actor, approve);
      if q.state != PendingApproval then r == Error(Conflict)
      else if q.requestedBy == actor then r == Error(Forbidden)
      else if exists i :: 0 <= i < |q.approvals| && q.approvals[i].actor == actor then r == Error(Conflict)
      else
        var state :=
          if !approve || !Unopposed(q, p) then Cancelled
          else if Approvable(q.(approvals := q.approvals + [review]), p) then Approved
          else PendingApproval;
        r.Ok? && Logs(t, r.value, id, q, state, [review], Event(id, actor, Reviewed(approve, state)))
  }

  /** An approved request is executed if the policy now in force still clears it, and completed once. */
  ghost predicate AnswersExecution(t: Tables, call: Call, p: Policy, r: Result<Tables, Failure>)
    requires p.Valid() && !call.Create? && !call.Review?
  {
    if call.id !in t.requests then r == Error(NotFound)
    else
      var q := t.requests[call.id];
      match call
      case RecordUnavailable(id, actor) => r.Ok? && Logs(t, r.value, id, q, q.state, [], Event(id, actor, ExecutionBlocked))
      case Begin(id, actor) =>
        if q.state != Approved then r == Error(Conflict)
        else if !Unopposed(q, p) || !Approvable(q, p) then r == Error(Forbidden)
        else r.Ok? && Logs(t, r.value, id, q, Executing, [], Event(id, actor, ExecutionStarted))
      case Complete(id, actor, succeeded) =>
        if q.state != Executing then r == Error(Conflict)
        else r.Ok? && Logs(t, r.value, id, q, if succeeded then Succeeded else Failed, [], Event(id, actor, ExecutionEnded(succeeded)))
  }

  lemma LoggedRow(t: Tables, id: Id, before: Request, state: State, reviews: seq<Approval>, actor: Actor, kind: EventKind)
    ensures Logs(t, Log(t, id, before.(state := state, approvals := before.approvals + reviews), actor, kind),
                 id, before, state, reviews, Event(id, actor, kind))
  {
  }

  lemma CreateIsAnswered(t: Tables, id: Id, draft: Request, sourceExists: bool, p: Policy)
    requires p.Valid()
    ensures AnswersCreate(t, id, draft, sourceExists, p, Step(t, Create(id, draft, sourceExists), p))
  {
    hide *;
    if id !in t.requests && sourceExists { NewRequestIsAnswered(t, id, draft, p); } else { CreateIsRefused(t, id, draft, sourceExists, p); }
  }

  lemma CreateIsRefused(t: Tables, id: Id, draft: Request, sourceExists: bool, p: Policy)
    requires p.Valid() && (id in t.requests || !sourceExists)
    ensures AnswersCreate(t, id, draft, sourceExists, p, Step(t, Create(id, draft, sourceExists), p))
  {
    hide Logs;
    hide Unopposed;
  }

  lemma NewRequestIsAnswered(t: Tables, id: Id, draft: Request, p: Policy)
    requires p.Valid() && id !in t.requests
    ensures AnswersCreate(t, id, draft, true, p, Step(t, Create(id, draft, true), p))
  {
    var state := InitialState(draft, p);
    var kind := if state == Cancelled then RequestBlocked else RequestCreated;
    InitialStateMeans(draft, p);
    CreateSteps(t, id, draft, p);
    UnreviewedRow(t, id, draft, state, kind);
    hide Step;
    hide InitialState;
    hide Unopposed;
    hide Log;
    hide Logs;
  }

  lemma UnreviewedRow(t: Tables, id: Id, draft: Request, state: State, kind: EventKind)
    ensures Logs(t, Log(t, id, draft.(state := state, approvals := []), draft.requestedBy, kind),
                 id, draft.(approvals := []), state, [], Event(id, draft.requestedBy, kind))
  {
  }

  lemma CreateSteps(t: Tables, id: Id, draft: Request, p: Policy)
    requires p.Valid() && id !in t.requests
    ensures var state := InitialState(draft, p);
      Step(t, Create(id, draft, true), p)
      == Ok(Log(t, id, draft.(state := state, approvals := []), draft.requestedBy,
                if state == Cancelled then RequestBlocked else RequestCreated))
  {
    hide InitialState;
    hide Log;
  }

  lemma InitialStateMeans(draft: Request, p: Policy)
    requires p.Valid()
    ensures InitialState(draft, p) == if Unopposed(draft.(approvals := []), p) then PendingApproval else Cancelled
  {
    OnlyApprovalsMissing(draft.(state := PendingApproval, approvals := []), p);
    hide Reasons;
  }

  lemma ReviewIsAnswered(t: Tables, id: Id, actor: Actor, approve: bool, p: Policy)
    requires p.Valid()
    ensures AnswersReview(t, id, actor, approve, p, Step(t, Review(id, actor, approve), p))
  {
    if id in t.requests && t.requests[id].state == PendingApproval {
      var q := t.requests[id];
      var reviewed := q.(approvals := q.approvals + [Approval(actor, approve)]);
      var state := ReviewedState(reviewed, approve, p);
      NoReasonsMeansSafe(reviewed, p);
      OnlyApprovalsMissing(reviewed, p);
      OneMoreApproval(q, reviewed, p, Approval(actor, approve));
      LoggedRow(t, id, q, state, [Approval(actor, approve)], actor, Reviewed(approve, state));
    }
    hide Reasons;
    hide Logs;
    hide Unopposed;
    hide Approvers;
  }

  lemma BeginIsAnswered(t: Tables, id: Id, actor: Actor, p: Policy)
    requires p.Valid()
    ensures AnswersExecution(t, Begin(id, actor), p, Step(t, Begin(id, actor), p))
  {
    if id in t.requests {
      var q := t.requests[id];
      NoReasonsMeansSafe(q, p);
      assert q.approvals + [] == q.approvals;
      LoggedRow(t, id, q, Executing, [], actor, ExecutionStarted);
    }
    hide Reasons;
    hide Log;
    hide Logs;
    hide Unopposed;
    hide Approvers;
  }

  lemma CompleteIsAnswered(t: Tables, id: Id, actor: Actor, succeeded: bool, p: Policy)
    requires p.Valid()
    ensures AnswersExecution(t, Complete(id, actor, succeeded), p, Step(t, Complete(id, actor, succeeded), p))
  {
    if id in t.requests {
      var q := t.requests[id];
      assert q.approvals + [] == q.approvals;
      LoggedRow(t, id, q, if succeeded then Succeeded else Failed, [], actor, ExecutionEnded(succeeded));
    }
    hide Log;
    hide Logs;
  }

  lemma UnavailableIsAnswered(t: Tables, id: Id, actor: Actor, p: Policy)
    requires p.Valid()
    ensures AnswersExecution(t, RecordUnavailable(id, actor), p, Step(t, RecordUnavailable(id, actor), p))
  {
    if id in t.requests {
      var q := t.requests[id];
      assert q.approvals + [] == q.approvals;
      LoggedRow(t, id, q, q.state, [], actor, ExecutionBlocked);
    }
    hide Log;
    hide Logs;
  }

  lemma ExecutionIsAnswered(t: Tables, call: Call, p: Policy)
    requires p.Valid() && !call.Create? && !call.Review?
    ensures AnswersExecution(t, call, p, Step(t, call, p))
  {
    hide *;
    match call
    case RecordUnavailable(id, actor) => UnavailableIsAnswered(t, id, actor, p);
    case Begin(id, actor) => BeginIsAnswered(t, id, actor, p);
    case Complete(id, actor, succeeded) => CompleteIsAnswered(t, id, actor, succeeded, p);
  }

  // --- Reviews that add up to an approval ---

  lemma OneMoreApprover(approvals: seq<Approval>, requester: Actor)
    requires |approvals| > 0 && approvals[|approvals| - 1].approved && approvals[|approvals| - 1].actor != requester
    ensures Approvers(approvals, requester)
         == Approvers(approvals[..|approvals| - 1], requester) + {approvals[|approvals| - 1].actor}
  {
    var last := |approvals| - 1;
    var init := approvals[..last];
    forall a | a in Approvers(approvals, requester)
      ensures a in Approvers(init, requester) || a == approvals[last].actor
    {
      var i :| 0 <= i < |approvals| && approvals[i].approved && approvals[i].actor != requester && approvals[i].actor == a;
      if i < last { assert init[i] == approvals[i]; }
    }
  }

  /** Approvers are reviewers. */
  lemma ApproversReviewed(approvals: seq<Approval>, requester: Actor, a: Actor)
    ensures a in Approvers(approvals, requester) ==> exists i :: 0 <= i < |approvals| && approvals[i].actor == a
  {
  }

  /** Reviews by different people other than the requester count one by one. */
  lemma {:induction false} ApprovalsCount(approvals: seq<Approval>, requester: Actor)
    requires FairReviews(approvals, requester) && forall i :: 0 <= i < |approvals| ==> approvals[i].approved
    ensures |Approvers(approvals, requester)| == |approvals|
    decreases |approvals|
  {
    if |approvals| > 0 {
      var last := |approvals| - 1;
      var init := approvals[..last];
      OneMoreApprover(approvals, requester);
      hide Approvers;
      assert forall i :: 0 <= i < last ==> init[i] == approvals[i];
      ApprovalsCount(init, requester);
      ApproversReviewed(init, requester, approvals[last].actor);
    }
  }

  function Yes(actors: seq<Actor>): (r: seq<Approval>)
    ensures |r| == |actors| && forall i :: 0 <= i < |r| ==> r[i] == Approval(actors[i], true)
  {
    seq(|actors|, i requires 0 <= i < |actors| => Approval(actors[i], true))
  }

  /** The same policy for every reviewer in turn. */
  function ReviewCalls(id: Id, actors: seq<Actor>, p: Policy): (r: seq<(Call, Policy)>)
    ensures |r| == |actors| && forall i :: 0 <= i < |r| ==> r[i] == (Review(id, actors[i], true), p)
  {
    seq(|actors|, i requires 0 <= i < |actors| => (Review(id, actors[i], true), p))
  }

  /** It waits for the reviews that are still missing. */
  ghost predicate Waits(t: Tables, id: Id, done: seq<Actor>, p: Policy)
    requires p.Valid()
  {
    && id in t.requests && t.requests[id].state == PendingApproval && t.requests[id].approvals == Yes(done)
    && Unopposed(t.requests[id], p) && |done| < p.approvals[t.requests[id].risk]
  }

  lemma OneMoreYes(t: Tables, id: Id, done: seq<Actor>, actor: Actor, p: Policy)
    requires p.Valid() && Waits(t, id, done, p) && FairReviews(Yes(done + [actor]), t.requests[id].requestedBy)
    ensures var r := Step(t, Review(id, actor, true), p);
      var q := t.requests[id];
      && r.Ok? && id in r.value.requests && r.value.requests[id].risk == q.risk
      && r.value.requests[id].requestedBy == q.requestedBy
      && if |done| + 1 < p.approvals[q.risk] then Waits(r.value, id, done + [actor], p)
         else r.value.requests[id].state == Approved
  {
    var q := t.requests[id];
    var more := q.approvals + [Approval(actor, true)];
    assert more == Yes(done + [actor]);
    ReviewIsAnswered(t, id, actor, true, p);
    ApprovalsCount(more, q.requestedBy);
    assert forall i :: 0 <= i < |q.approvals| ==> more[i] == q.approvals[i];
    assert more[|done|].actor == actor;
    hide Step;
    hide Approvers;
  }

  /**
   * A request that nothing stands against is approved by exactly as many different reviewers as its risk needs, none of
   * them the requester.
   */
  lemma {:induction false} EnoughReviewersApprove(t: Tables, id: Id, done: seq<Actor>, actors: seq<Actor>, p: Policy)
    requires p.Valid() && Waits(t, id, done, p) && FairReviews(Yes(done + actors), t.requests[id].requestedBy)
    requires |done| + |actors| <= p.approvals[t.requests[id].risk]
    ensures var u := Run(t, ReviewCalls(id, actors, p));
      && id in u.requests
      && u.requests[id].state == if |done| + |actors| == p.approvals[t.requests[id].risk] then Approved else PendingApproval
    decreases |actors|
  {
    if |actors| > 0 {
      var more := done + [actors[0]];
      assert done + actors == more + actors[1..];
      FairPrefix(more, actors[1..], t.requests[id].requestedBy);
      OneMoreYes(t, id, done, actors[0], p);
      assert ReviewCalls(id, actors, p)[1..] == ReviewCalls(id, actors[1..], p);
      var next := Step(t, Review(id, actors[0], true), p).value;
      hide Step;
      hide Waits;
      hide Unopposed;
      if |more| < p.approvals[t.requests[id].risk] {
        EnoughReviewersApprove(next, id, more, actors[1..], p);
      } else {
        assert actors[1..] == [];
        assert Run(next, ReviewCalls(id, actors[1..], p)) == next;
      }
    }
  }

  lemma FairPrefix(some: seq<Actor>, rest: seq<Actor>, requester: Actor)
    requires FairReviews(Yes(some + rest), requester)
    ensures FairReviews(Yes(some), requester)
  {
    var all, first := Yes(some + rest), Yes(some);
    assert forall i :: 0 <= i < |first| ==> first[i] == all[i];
  }
}
