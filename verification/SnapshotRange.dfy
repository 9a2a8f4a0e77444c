/**
 * The numbers that the cutover bundle admits (apps/api/src/cutover-preflight.ts), which are fewer than those
 * that the routes accept on a canvas (apps/api/src/schemas.ts).
 */
module SnapshotRange {
  import opened Common
  import opened KeyedList
  import opened Canvas
  import opened WorkspaceHistory

  const MAX_SAFE_INTEGER := 9007199254740991.0

  predicate InRange(x: real) {
    -MAX_SAFE_INTEGER <= x <= MAX_SAFE_INTEGER
  }

  // --- Values on a canvas; `value` says which data of nodes and edges the bundle admits ---

  predicate AdmitsData<V>(data: map<string, V>, value: V -> bool) {
    forall k :: k in data ==> value(data[k])
  }

  predicate AdmitsPosition(p: Position) {
    InRange(p.x) && InRange(p.y)
  }

  predicate AdmitsNode<V>(b: NodeBody<V>, value: V -> bool) {
    AdmitsPosition(b.position) && AdmitsData(b.data, value)
  }

  predicate AdmitsEdge<V>(b: EdgeBody<V>, value: V -> bool) {
    AdmitsData(b.data, value)
  }

  predicate AdmitsNodes<V>(nodes: seq<Node<V>>, value: V -> bool) {
    forall i :: 0 <= i < |nodes| ==> AdmitsNode(nodes[i].body, value)
  }

  predicate AdmitsEdges<V>(edges: seq<Edge<V>>, value: V -> bool) {
    forall i :: 0 <= i < |edges| ==> AdmitsEdge(edges[i].body, value)
  }

  predicate AdmitsSnapshot<V>(s: Snapshot<V>, value: V -> bool) {
    && InRange(s.viewport.x) && InRange(s.viewport.y) && InRange(s.viewport.zoom)
    && AdmitsNodes(s.nodes, value) && AdmitsEdges(s.edges, value)
  }

  predicate AdmitsOperation<V>(op: Operation<V>, value: V -> bool) {
    match op
    case MoveNode(_, position) => AdmitsPosition(position)
    case AddNode(node) => AdmitsNode(node.body, value)
    case UpdateNode(_, patch) =>
      && (patch.position.Some? ==> AdmitsPosition(patch.position.value))
      && (patch.data.Some? ==> AdmitsData(patch.data.value, value))
    case AddEdge(edge) => AdmitsEdge(edge.body, value)
    case UpdateEdge(_, patch) => patch.data.Some? ==> AdmitsData(patch.data.value, value)
    case _ => true
  }

  predicate AdmitsOperations<V>(ops: seq<Operation<V>>, value: V -> bool) {
    forall i :: 0 <= i < |ops| ==> AdmitsOperation(ops[i], value)
  }

  predicate IsSafe(x: real) {
    -9007199254740991.0 <= x <= 9007199254740991.0
  }

  /** A snapshot is admitted exactly if every number of its viewport and positions is safe and so is all of its data. */
  lemma SnapshotIsAdmittedExactly<V(!new)>(s: Snapshot<V>, value: V -> bool)
    ensures AdmitsSnapshot(s, value) <==>
      && IsSafe(s.viewport.x) && IsSafe(s.viewport.y) && IsSafe(s.viewport.zoom)
      && (forall n :: n in s.nodes ==> IsSafe(n.body.position.x) && IsSafe(n.body.position.y))
      && (forall n, k :: n in s.nodes && k in n.body.data ==> value(n.body.data[k]))
      && (forall e, k :: e in s.edges && k in e.body.data ==> value(e.body.data[k]))
  {
  }

  /** An operation is admitted exactly if every position and all data in it are; a removal carries neither. */
  lemma OperationIsAdmittedExactly<V(!new)>(op: Operation<V>, value: V -> bool)
    ensures AdmitsOperation(op, value) <==>
      match op
      case MoveNode(_, p) => IsSafe(p.x) && IsSafe(p.y)
      case AddNode(n) => IsSafe(n.body.position.x) && IsSafe(n.body.position.y) && forall k :: k in n.body.data ==> value(n.body.data[k])
      case UpdateNode(_, patch) =>
        && (forall p :: patch.position == Some(p) ==> IsSafe(p.x) && IsSafe(p.y))
        && (forall d, k :: patch.data == Some(d) && k in d ==> value(d[k]))
      case AddEdge(e) => forall k :: k in e.body.data ==> value(e.body.data[k])
      case UpdateEdge(_, patch) => forall d, k :: patch.data == Some(d) && k in d ==> value(d[k])
      case RemoveNode(_) => true
      case RemoveEdge(_) => true
  {
    if op.UpdateNode? && op.nodePatch.position.Some? { assert op.nodePatch.position == Some(op.nodePatch.position.value); }
    if op.UpdateNode? && op.nodePatch.data.Some? { assert op.nodePatch.data == Some(op.nodePatch.data.value); }
    if op.UpdateEdge? && op.edgePatch.data.Some? { assert op.edgePatch.data == Some(op.edgePatch.data.value); }
  }

  /** Edits only copy values: what they make of admitted values is admitted. */
  lemma EditKeepsAdmitted<V>(s: Snapshot<V>, op: Operation<V>, value: V -> bool)
    requires AdmitsSnapshot(s, value) && AdmitsOperation(op, value) && Edit(s, op).Ok?
    ensures AdmitsSnapshot(Edit(s, op).value, value)
  {
  }

  lemma {:induction false} EditAllKeepsAdmitted<V>(s: Snapshot<V>, ops: seq<Operation<V>>, value: V -> bool)
    requires AdmitsSnapshot(s, value) && AdmitsOperations(ops, value) && EditAll(s, ops).Ok?
    ensures AdmitsSnapshot(EditAll(s, ops).value, value)
    decreases |ops|
  {
    if |ops| > 0 {
      EditKeepsAdmitted(s, ops[0], value);
      EditAllKeepsAdmitted(Edit(s, ops[0]).value, ops[1..], value);
    }
  }

  // --- Recorded revisions over runs ---

  predicate RevisionsAdmitted<V>(s: State<V>, value: V -> bool) {
    forall key :: key in s.revisions ==> AdmitsSnapshot(s.revisions[key].snapshot, value)
  }

  /** What a call carries is admitted. */
  predicate AdmitsCall<V>(call: Call<V>, value: V -> bool) {
    match call
    case ApplyOperations(_, _, _, operations, _, _) => AdmitsOperations(operations, value)
    case Save(_, _, _, snapshot, _) => AdmitsSnapshot(snapshot, value)
    case Seed(_, snapshot, _) => AdmitsSnapshot(snapshot, value)
    case _ => true
  }

  /** Only batches, saves and seeds carry values. */
  lemma OtherCallsCarryNothing<V>(call: Call<V>, value: V -> bool)
    requires call.Create? || call.UpsertMember? || call.RemoveMember? || call.Rollback?
    ensures AdmitsCall(call, value)
  {
  }

  lemma NewRowIsAdmitted<V(!new)>(s: State<V>, call: Call<V>, value: V -> bool)
    requires Valid(s) && RevisionsAdmitted(s, value) && AdmitsCall(call, value)
    requires Step(s, call).Ok? && (call.ApplyOperations? || call.Save? || call.Rollback?)
    ensures AdmitsSnapshot(NewRow(s, call).snapshot, value)
  {
    VersionCallAppends(s, call);
    CurrentIsAdmitted(s, call.id, value);
    hide Valid;
    hide AdmitsSnapshot;
    hide AdmitsOperations;
    if call.ApplyOperations? {
      hide WellFormed;
      EditAllKeepsAdmitted(s.workspaces[call.id].snapshot, call.operations, value);
    }
  }

  lemma CurrentIsAdmitted<V(!new)>(s: State<V>, id: Id, value: V -> bool)
    requires Valid(s) && RevisionsAdmitted(s, value) && id in s.workspaces
    ensures AdmitsSnapshot(s.workspaces[id].snapshot, value)
  {
    hide AdmitsSnapshot;
    assert ValidWorkspace(s, id);
    assert (id, s.workspaces[id].version) in s.revisions;
  }

  lemma StepKeepsAdmitted<V(!new)>(s: State<V>, call: Call<V>, value: V -> bool)
    requires Valid(s) && RevisionsAdmitted(s, value) && AdmitsCall(call, value)
    ensures RevisionsAdmitted(After(s, call), value)
  {
    if Step(s, call).Ok? && (call.ApplyOperations? || call.Save? || call.Rollback?) {
      VersionCallAppends(s, call);
      NewRowIsAdmitted(s, call, value);
      hide *;
      AppendKeepsAdmitted(s, call.id, NewRow(s, call), value);
    } else {
      EmptyIsAdmitted(value);
      OtherCallKeepsAdmitted(s, call, value);
    }
  }

  lemma OtherCallKeepsAdmitted<V(!new)>(s: State<V>, call: Call<V>, value: V -> bool)
    requires RevisionsAdmitted(s, value) && AdmitsCall(call, value) && AdmitsSnapshot(EmptyCanvas<V>(), value)
    requires !(call.ApplyOperations? || call.Save? || call.Rollback?) || Step(s, call).Error?
    ensures RevisionsAdmitted(After(s, call), value)
  {
    hide AdmitsSnapshot;
    hide AdmitsOperations;
    hide EmptyCanvas;
    hide Apply;
    hide InsertMissing;
  }

  lemma EmptyIsAdmitted<V>(value: V -> bool)
    ensures AdmitsSnapshot(EmptyCanvas<V>(), value)
  {
  }

  lemma AppendKeepsAdmitted<V(!new)>(s: State<V>, id: Id, r: RevisionRow<V>, value: V -> bool)
    requires id in s.workspaces && RevisionsAdmitted(s, value) && AdmitsSnapshot(r.snapshot, value)
    ensures RevisionsAdmitted(Append(s, id, r), value)
  {
    hide AdmitsSnapshot;
  }

  /** A run whose calls carry only admitted values records only admitted revisions. */
  lemma {:induction false} RunKeepsAdmitted<V(!new)>(s: State<V>, calls: seq<Call<V>>, value: V -> bool)
    requires Valid(s) && RevisionsAdmitted(s, value)
    requires forall i :: 0 <= i < |calls| ==> Admitted(calls[i]) && AdmitsCall(calls[i], value)
    ensures RevisionsAdmitted(Run(s, calls), value)
    decreases |calls|
  {
    if |calls| > 0 {
      StepKeepsValid(s, calls[0]);
      StepKeepsAdmitted(s, calls[0], value);
      RunKeepsAdmitted(After(s, calls[0]), calls[1..], value);
    }
  }

  /** Recorded revisions stay, whatever is called. */
  lemma StepKeepsRevision<V(!new)>(s: State<V>, call: Call<V>, id: Id, version: int)
    requires Valid(s) && (id, version) in s.revisions
    ensures (id, version) in After(s, call).revisions
    ensures After(s, call).revisions[(id, version)] == s.revisions[(id, version)]
  {
    assert id in s.workspaces;
    if Step(s, call).Ok? && (call.ApplyOperations? || call.Save? || call.Rollback?) {
      VersionCallAppends(s, call);
      assert ValidWorkspace(s, call.id);
      hide Step;
    } else {
      OtherCallKeepsRevisions(s, call, id);
    }
  }

  lemma {:induction false} RunKeepsRevision<V(!new)>(s: State<V>, calls: seq<Call<V>>, id: Id, version: int)
    requires Valid(s) && (id, version) in s.revisions && forall i :: 0 <= i < |calls| ==> Admitted(calls[i])
    ensures (id, version) in Run(s, calls).revisions
    ensures Run(s, calls).revisions[(id, version)] == s.revisions[(id, version)]
    decreases |calls|
  {
    if |calls| > 0 {
      StepKeepsValid(s, calls[0]);
      StepKeepsRevision(s, calls[0], id, version);
      RunKeepsRevision(After(s, calls[0]), calls[1..], id, version);
    }
  }

  // --- The audit log, whose details hold the operations of every batch that was applied ---

  function Audited<V>(s: State<V>, calls: seq<Call<V>>): seq<seq<Operation<V>>>
    decreases |calls|
  {
    if |calls| == 0 then []
    else
      (if calls[0].ApplyOperations? && Step(s, calls[0]).Ok? then [calls[0].operations] else [])
      + Audited(After(s, calls[0]), calls[1..])
  }

  predicate AuditAdmitted<V>(audited: seq<seq<Operation<V>>>, value: V -> bool) {
    forall i :: 0 <= i < |audited| ==> AdmitsOperations(audited[i], value)
  }

  lemma {:induction false} AuditOfAdmittedCalls<V>(s: State<V>, calls: seq<Call<V>>, value: V -> bool)
    requires forall i :: 0 <= i < |calls| ==> AdmitsCall(calls[i], value)
    ensures AuditAdmitted(Audited(s, calls), value)
    decreases |calls|
  {
    if |calls| > 0 { AuditOfAdmittedCalls(After(s, calls[0]), calls[1..], value); }
  }

  lemma {:induction false} RunSplits<V>(s: State<V>, first: seq<Call<V>>, later: seq<Call<V>>)
    ensures Run(s, first + later) == Run(Run(s, first), later)
    ensures Audited(s, first + later) == Audited(s, first) + Audited(Run(s, first), later)
    decreases |first|
  {
    if |first| == 0 {
      assert first + later == later;
      assert Audited(s, later) == [] + Audited(s, later);
    } else {
      assert (first + later)[1..] == first[1..] + later;
      RunSplits(After(s, first[0]), first[1..], later);
    }
  }

  /** Once a revision or an applied batch holds a value that is not admitted, that stays so over any later run. */
  lemma InadmissibleStays<V(!new)>(first: seq<Call<V>>, later: seq<Call<V>>, value: V -> bool)
    requires forall i :: 0 <= i < |first| ==> Admitted(first[i])
    requires forall i :: 0 <= i < |later| ==> Admitted(later[i])
    requires !RevisionsAdmitted(Run(Fresh(), first), value) || !AuditAdmitted(Audited(Fresh(), first), value)
    ensures var calls := first + later;
      !RevisionsAdmitted(Run(Fresh(), calls), value) || !AuditAdmitted(Audited(Fresh(), calls), value)
  {
    var s := Run(Fresh(), first);
    RunKeepsValid(Fresh(), first);
    RunSplits(Fresh(), first, later);
    if !RevisionsAdmitted(s, value) {
      var key :| key in s.revisions && !AdmitsSnapshot(s.revisions[key].snapshot, value);
      assert key == (key.0, key.1);
      RunKeepsRevision(s, later, key.0, key.1);
    } else {
      var audited, more := Audited(Fresh(), first), Audited(s, later);
      var i :| 0 <= i < |audited| && !AdmitsOperations(audited[i], value);
      assert (audited + more)[i] == audited[i];
    }
  }
}
