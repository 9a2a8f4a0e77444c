/**
 * What each canvas operation does, said without the interpreter: a relation between the maps before and after
 * it, and the order in which the arrays list them.
 */
module CanvasEffects {
  import opened Common
  import opened KeyedList
  import opened Canvas

  // --- Fields of a patch ---

  predicate Given<X(==)>(before: X, given: Option<X>, after: X) {
    after == if given.Some? then given.value else before
  }

  /** The keys of the patch have its values, all others the values they had, and there are no more. */
  ghost predicate Merged<V>(before: map<string, V>, given: Option<map<string, V>>, after: map<string, V>) {
    && (forall k :: k in after <==> k in before || (given.Some? && k in given.value))
    && (forall k :: k in after ==> after[k] == if given.Some? && k in given.value then given.value[k] else before[k])
  }

  ghost predicate NodeUpdated<V>(before: NodeBody<V>, patch: NodePatch<V>, after: NodeBody<V>) {
    && Given(before.kind, patch.kind, after.kind) && Given(before.position, patch.position, after.position)
    && Merged(before.data, patch.data, after.data)
  }

  /** An update never moves an edge to other nodes. */
  ghost predicate EdgeUpdated<V>(before: EdgeBody<V>, patch: EdgePatch<V>, after: EdgeBody<V>) {
    && after.source == before.source && after.target == before.target
    && Given(before.kind, patch.kind, after.kind) && Merged(before.data, patch.data, after.data)
  }

  ghost predicate OthersStay<P(!new)>(before: map<Id, P>, after: map<Id, P>, id: Id) {
    forall other :: other != id ==>
      (other in after <==> other in before) && (other in after ==> after[other] == before[other])
  }

  // --- The relation of one operation ---

  predicate Allowed<V>(g: Graph<V>, op: Operation<V>) {
    match op
    case AddNode(node) => node.id !in g.nodes
    case AddEdge(edge) => edge.id !in g.edges
    case MoveNode(id, _) => id in g.nodes
    case RemoveNode(id) => id in g.nodes
    case UpdateNode(id, _) => id in g.nodes
    case RemoveEdge(id) => id in g.edges
    case UpdateEdge(id, _) => id in g.edges
  }

  /** The error of an operation that is not allowed. */
  function Complaint<V>(op: Operation<V>): CanvasError {
    match op
    case AddNode(node) => NodeExists(node.id)
    case AddEdge(edge) => EdgeExists(edge.id)
    case MoveNode(id, _) => NodeNotFound(id)
    case RemoveNode(id) => NodeNotFound(id)
    case UpdateNode(id, _) => NodeNotFound(id)
    case RemoveEdge(id) => EdgeNotFound(id)
    case UpdateEdge(id, _) => EdgeNotFound(id)
  }

  ghost predicate Effect<V(!new)>(g: Graph<V>, op: Operation<V>, h: Graph<V>)
    requires Allowed(g, op)
  {
    if EditsNodes(op) then h.edges == g.edges && NodeEffect(g.nodes, op, h.nodes)
    else h.nodes == g.nodes && EdgeEffect(g.edges, op, h.edges)
  }

  ghost predicate NodeEffect<V(!new)>(before: map<Id, NodeBody<V>>, op: Operation<V>, after: map<Id, NodeBody<V>>)
    requires EditsNodes(op) && (op.AddNode? || op.nodeId in before)
  {
    match op
    case MoveNode(id, position) =>
      && OthersStay(before, after, id) && id in after && after[id].position == position
      && after[id].kind == before[id].kind && after[id].data == before[id].data
    case AddNode(node) => OthersStay(before, after, node.id) && node.id in after && after[node.id] == node.body
    case RemoveNode(id) => OthersStay(before, after, id) && id !in after
    case UpdateNode(id, patch) => OthersStay(before, after, id) && id in after && NodeUpdated(before[id], patch, after[id])
  }

  ghost predicate EdgeEffect<V(!new)>(before: map<Id, EdgeBody<V>>, op: Operation<V>, after: map<Id, EdgeBody<V>>)
    requires !EditsNodes(op) && (op.AddEdge? || op.edgeId in before)
  {
    match op
    case AddEdge(edge) => OthersStay(before, after, edge.id) && edge.id in after && after[edge.id] == edge.body
    case RemoveEdge(id) => OthersStay(before, after, id) && id !in after
    case UpdateEdge(id, patch) => OthersStay(before, after, id) && id in after && EdgeUpdated(before[id], patch, after[id])
  }

  /** On maps, an operation that is allowed has its effect, and any other its complaint. */
  lemma GraphEditMeans<V(!new)>(g: Graph<V>, op: Operation<V>)
    ensures var r := EditGraph(g, op);
      if Allowed(g, op) then r.Ok? && Effect(g, op, r.value) else r == Error(Complaint(op))
  {
  }

  lemma SameMap<K(!new), P>(a: map<K, P>, b: map<K, P>)
    requires forall k :: (k in a <==> k in b) && (k in a ==> a[k] == b[k])
    ensures a == b
  {
  }

  lemma MergedIsUnique<V>(before: map<string, V>, given: Option<map<string, V>>, a: map<string, V>, b: map<string, V>)
    requires Merged(before, given, a) && Merged(before, given, b)
    ensures a == b
  {
    SameMap(a, b);
  }

  lemma NodeEffectIsUnique<V(!new)>(
      before: map<Id, NodeBody<V>>, op: Operation<V>, a: map<Id, NodeBody<V>>, b: map<Id, NodeBody<V>>)
    requires EditsNodes(op) && (op.AddNode? || op.nodeId in before)
    requires NodeEffect(before, op, a) && NodeEffect(before, op, b)
    ensures a == b
  {
    if op.UpdateNode? { MergedIsUnique(before[op.nodeId].data, op.nodePatch.data, a[op.nodeId].data, b[op.nodeId].data); }
    hide Merged;
    SameMap(a, b);
  }

  lemma EdgeEffectIsUnique<V(!new)>(
      before: map<Id, EdgeBody<V>>, op: Operation<V>, a: map<Id, EdgeBody<V>>, b: map<Id, EdgeBody<V>>)
    requires !EditsNodes(op) && (op.AddEdge? || op.edgeId in before)
    requires EdgeEffect(before, op, a) && EdgeEffect(before, op, b)
    ensures a == b
  {
    if op.UpdateEdge? { MergedIsUnique(before[op.edgeId].data, op.edgePatch.data, a[op.edgeId].data, b[op.edgeId].data); }
    hide Merged;
    SameMap(a, b);
  }

  /** The relation leaves nothing open. */
  lemma EffectIsUnique<V(!new)>(g: Graph<V>, op: Operation<V>, a: Graph<V>, b: Graph<V>)
    requires Allowed(g, op) && Effect(g, op, a) && Effect(g, op, b)
    ensures a == b
  {
    hide NodeEffect;
    hide EdgeEffect;
    if EditsNodes(op) { NodeEffectIsUnique(g.nodes, op, a.nodes, b.nodes); } else { EdgeEffectIsUnique(g.edges, op, a.edges, b.edges); }
  }

  // --- Batches ---

  /** The operations, each with its effect, lead from one graph to the other. */
  ghost predicate Leads<V(!new)>(g: Graph<V>, ops: seq<Operation<V>>, h: Graph<V>)
    decreases |ops|
  {
    if |ops| == 0 then h == g
    else Allowed(g, ops[0]) && exists mid :: Effect(g, ops[0], mid) && Leads(mid, ops[1..], h)
  }

  lemma {:induction false} GraphBatchMeans<V(!new)>(g: Graph<V>, ops: seq<Operation<V>>, h: Graph<V>)
    ensures EditGraphAll(g, ops) == Ok(h) <==> Leads(g, ops, h)
    decreases |ops|
  {
    if |ops| > 0 {
      GraphEditMeans(g, ops[0]);
      hide Effect;
      hide Allowed;
      hide EditGraph;
      if Allowed(g, ops[0]) {
        var mid := EditGraph(g, ops[0]).value;
        GraphBatchMeans(mid, ops[1..], h);
        if Leads(g, ops, h) {
          var other :| Effect(g, ops[0], other) && Leads(other, ops[1..], h);
          EffectIsUnique(g, ops[0], mid, other);
        }
      }
    }
  }

  /**
   * On a well-formed snapshot the interpreter succeeds exactly if the operations lead to a graph in which no
   * edge dangles, and its arrays then stand for that graph.
   */
  lemma InterpreterMeans<V(!new)>(s: Snapshot<V>, ops: seq<Operation<V>>)
    requires WellFormed(s)
    ensures Apply(s, ops).Some? <==> exists h :: Leads(GraphOf(s), ops, h) && !Dangles(h)
    ensures Apply(s, ops).Some? ==> Leads(GraphOf(s), ops, GraphOf(Apply(s, ops).value))
  {
    InterpreterRefinesMaps(s, ops);
    var g := EditGraphAll(GraphOf(s), ops);
    hide *;
    forall h
      ensures g == Ok(h) <==> Leads(GraphOf(s), ops, h)
    {
      GraphBatchMeans(GraphOf(s), ops, h);
    }
    if g.Ok? { assert Leads(GraphOf(s), ops, g.value); }
  }

  /** Where a batch stops: the operations before `i` have their effect, and `i` is refused with its complaint. */
  ghost predicate StopsAt<V(!new)>(g: Graph<V>, ops: seq<Operation<V>>, i: nat, e: CanvasError)
    requires i < |ops|
  {
    exists mid :: Leads(g, ops[..i], mid) && !Allowed(mid, ops[i]) && e == Complaint(ops[i])
  }

  lemma {:induction false} GraphBatchStops<V(!new)>(g: Graph<V>, ops: seq<Operation<V>>) returns (i: nat)
    requires EditGraphAll(g, ops).Error?
    ensures i < |ops| && StopsAt(g, ops, i, EditGraphAll(g, ops).error)
    decreases |ops|
  {
    GraphEditMeans(g, ops[0]);
    hide EditGraph;
    if !Allowed(g, ops[0]) {
      i := 0;
      assert Leads(g, ops[..0], g);
    } else {
      var next := EditGraph(g, ops[0]).value;
      var k := GraphBatchStops(next, ops[1..]);
      i := k + 1;
      var mid :| Leads(next, ops[1..][..k], mid) && !Allowed(mid, ops[1..][k])
        && EditGraphAll(next, ops[1..]).error == Complaint(ops[1..][k]);
      hide Effect;
      hide Allowed;
      assert ops[..i][1..] == ops[1..][..k] && ops[..i][0] == ops[0];
      assert Leads(g, ops[..i], mid);
    }
  }

  /** The error of the edits is the complaint of the first operation that is not allowed where it stands. */
  lemma InterpreterStops<V(!new)>(s: Snapshot<V>, ops: seq<Operation<V>>)
    requires UniqueIds(s)
    ensures EditAll(s, ops).Error? ==>
      exists i :: 0 <= i < |ops| && StopsAt(GraphOf(s), ops, i, EditAll(s, ops).error)
  {
    EditAllRefines(s, ops);
    if EditAll(s, ops).Error? {
      var i := GraphBatchStops(GraphOf(s), ops);
    }
  }

  // --- One operation ---

  /** The graph that the operation leaves has no dangling edge. */
  ghost predicate Attached<V(!new)>(g: Graph<V>, op: Operation<V>) {
    match op
    case RemoveNode(id) => forall e :: e in g.edges ==> g.edges[e].source != id && g.edges[e].target != id
    case AddEdge(edge) => edge.body.source in g.nodes && edge.body.target in g.nodes
    case _ => true
  }

  lemma NodeOpDangles<V(!new)>(g: Graph<V>, op: Operation<V>, h: Graph<V>)
    requires EditsNodes(op) && Allowed(g, op) && Effect(g, op, h) && !Dangles(g)
    ensures Dangles(h) <==> !Attached(g, op)
  {
    if op.RemoveNode? && !Attached(g, op) {
      var e :| e in g.edges && (g.edges[e].source == op.nodeId || g.edges[e].target == op.nodeId);
      assert e in h.edges && (h.edges[e].source !in h.nodes || h.edges[e].target !in h.nodes);
    }
  }

  lemma EdgeOpDangles<V(!new)>(g: Graph<V>, op: Operation<V>, h: Graph<V>)
    requires !EditsNodes(op) && Allowed(g, op) && Effect(g, op, h) && !Dangles(g)
    ensures Dangles(h) <==> !Attached(g, op)
  {
    if op.AddEdge? && !Attached(g, op) {
      assert op.edge.id in h.edges && h.edges[op.edge.id] == op.edge.body;
    }
  }

  /**
   * One operation succeeds on a well-formed snapshot exactly if its node or edge is there, or is new, and it takes
   * no node from an edge and gives no edge a missing node; then it has just its effect.
   */
  lemma SingleOperation<V(!new)>(s: Snapshot<V>, op: Operation<V>)
    requires WellFormed(s)
    ensures Apply(s, [op]).Some? <==> Allowed(GraphOf(s), op) && Attached(GraphOf(s), op)
    ensures Apply(s, [op]).Some? ==> Effect(GraphOf(s), op, GraphOf(Apply(s, [op]).value))
  {
    var g := GraphOf(s);
    DanglesIff(s);
    InterpreterRefinesMaps(s, [op]);
    GraphEditMeans(g, op);
    OneEdit(g, op);
    hide *;
    if Allowed(g, op) {
      var h := EditGraph(g, op).value;
      if EditsNodes(op) { NodeOpDangles(g, op, h); } else { EdgeOpDangles(g, op, h); }
    }
  }

  lemma OneEdit<V>(g: Graph<V>, op: Operation<V>)
    ensures EditGraphAll(g, [op]) == EditGraph(g, op)
  {
    hide EditGraph;
    assert [op][1..] == [];
  }

  // --- How the arrays list them ---

  function Ids<P>(items: seq<Item<P>>): (r: seq<Id>)
    ensures |r| == |items| && forall i :: 0 <= i < |r| ==> r[i] == items[i].id
  {
    seq(|items|, i requires 0 <= i < |items| => items[i].id)
  }

  /** Every id that stays keeps its place among the others, and a new one goes last. */
  ghost predicate Relisted(before: seq<Id>, removed: Option<Id>, added: Option<Id>, after: seq<Id>) {
    var more := if added.Some? then [added.value] else [];
    if removed.None? then after == before + more
    else exists k :: 0 <= k < |before| && before[k] == removed.value && after == before[..k] + before[k + 1..] + more
  }

  lemma EditBodyListed<P>(items: seq<Item<P>>, id: Id, f: P -> P, missing: CanvasError)
    requires EditBody(items, id, f, missing).Ok?
    ensures Ids(EditBody(items, id, f, missing).value) == Ids(items)
  {
  }

  lemma PushListed<P>(items: seq<Item<P>>, item: Item<P>, e: CanvasError)
    requires Push(items, item, e).Ok?
    ensures Ids(Push(items, item, e).value) == Ids(items) + [item.id]
  {
  }

  lemma SpliceListed<P>(items: seq<Item<P>>, id: Id, missing: CanvasError)
    requires Splice(items, id, missing).Ok?
    ensures Relisted(Ids(items), Some(id), None, Ids(Splice(items, id, missing).value))
  {
    var k := IndexOf(items, id).value;
    assert Ids(Without(items, k)) == Ids(items)[..k] + Ids(items)[k + 1..] + [];
  }

  function Removed<V>(op: Operation<V>): Option<Id> {
    match op
    case RemoveNode(id) => Some(id)
    case RemoveEdge(id) => Some(id)
    case _ => None
  }

  function Added<V>(op: Operation<V>): Option<Id> {
    match op
    case AddNode(node) => Some(node.id)
    case AddEdge(edge) => Some(edge.id)
    case _ => None
  }

  /** Updates and moves keep the order, a removal closes the gap, and what is added goes last. */
  lemma EditListed<V>(s: Snapshot<V>, op: Operation<V>)
    requires Edit(s, op).Ok?
    ensures var t := Edit(s, op).value;
      if EditsNodes(op) then t.edges == s.edges && Relisted(Ids(s.nodes), Removed(op), Added(op), Ids(t.nodes))
      else t.nodes == s.nodes && Relisted(Ids(s.edges), Removed(op), Added(op), Ids(t.edges))
  {
    hide EditBody;
    hide Push;
    hide Splice;
    hide Ids;
    match op
    case MoveNode(id, position) =>
      EditBodyListed(s.nodes, id, (b: NodeBody<V>) => b.(position := position), NodeNotFound(id));
    case AddNode(node) => PushListed(s.nodes, node, NodeExists(node.id));
    case RemoveNode(id) => SpliceListed(s.nodes, id, NodeNotFound(id));
    case UpdateNode(id, patch) => EditBodyListed(s.nodes, id, (b: NodeBody<V>) => PatchNode(b, patch), NodeNotFound(id));
    case AddEdge(edge) => PushListed(s.edges, edge, EdgeExists(edge.id));
    case RemoveEdge(id) => SpliceListed(s.edges, id, EdgeNotFound(id));
    case UpdateEdge(id, patch) => EditBodyListed(s.edges, id, (b: EdgeBody<V>) => PatchEdge(b, patch), EdgeNotFound(id));
  }
}
