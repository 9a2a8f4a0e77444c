/** The canvas edit interpreter (apps/api/src/database.ts, apps/api/src/postgres-workspace-persistence.ts). */
module Canvas {
  import opened Common
  import opened KeyedList

  datatype Position = Position(x: real, y: real)
  datatype Viewport = Viewport(x: real, y: real, zoom: real)

  datatype NodeBody<V> = NodeBody(kind: string, position: Position, data: map<string, V>)
  datatype EdgeBody<V> = EdgeBody(source: Id, target: Id, kind: string, data: map<string, V>)

  type Node<V> = Item<NodeBody<V>>
  type Edge<V> = Item<EdgeBody<V>>

  datatype Snapshot<V> = Snapshot(viewport: Viewport, nodes: seq<Node<V>>, edges: seq<Edge<V>>)

  datatype NodePatch<V> = NodePatch(kind: Option<string>, position: Option<Position>, data: Option<map<string, V>>)
  datatype EdgePatch<V> = EdgePatch(kind: Option<string>, data: Option<map<string, V>>)

  datatype Operation<V> =
    | MoveNode(nodeId: Id, position: Position)
    | AddNode(node: Node<V>)
    | RemoveNode(nodeId: Id)
    | UpdateNode(nodeId: Id, nodePatch: NodePatch<V>)
    | AddEdge(edge: Edge<V>)
    | RemoveEdge(edgeId: Id)
    | UpdateEdge(edgeId: Id, edgePatch: EdgePatch<V>)

  datatype CanvasError =
    | NodeExists(id: Id)
    | NodeNotFound(id: Id)
    | EdgeExists(id: Id)
    | EdgeNotFound(id: Id)
    | MissingSource(edgeId: Id, nodeId: Id)
    | MissingTarget(edgeId: Id, nodeId: Id)

  // --- Patches ---

  function PatchNode<V>(b: NodeBody<V>, p: NodePatch<V>): NodeBody<V> {
    NodeBody(if p.kind.Some? then p.kind.value else b.kind,
             if p.position.Some? then p.position.value else b.position,
             if p.data.Some? then b.data + p.data.value else b.data)
  }

  function PatchEdge<V>(b: EdgeBody<V>, p: EdgePatch<V>): EdgeBody<V> {
    EdgeBody(b.source, b.target,
             if p.kind.Some? then p.kind.value else b.kind,
             if p.data.Some? then b.data + p.data.value else b.data)
  }

  // --- The meaning of operations, on maps keyed by id ---

  datatype Graph<V> = Graph(nodes: map<Id, NodeBody<V>>, edges: map<Id, EdgeBody<V>>)

  function EditGraph<V>(g: Graph<V>, op: Operation<V>): Result<Graph<V>, CanvasError> {
    match op
    case MoveNode(id, position) =>
      if id in g.nodes then Ok(g.(nodes := g.nodes[id := g.nodes[id].(position := position)])) else Error(NodeNotFound(id))
    case AddNode(node) =>
      if node.id in g.nodes then Error(NodeExists(node.id)) else Ok(g.(nodes := g.nodes[node.id := node.body]))
    case RemoveNode(id) =>
      if id in g.nodes then Ok(g.(nodes := g.nodes - {id})) else Error(NodeNotFound(id))
    case UpdateNode(id, patch) =>
      if id in g.nodes then Ok(g.(nodes := g.nodes[id := PatchNode(g.nodes[id], patch)])) else Error(NodeNotFound(id))
    case AddEdge(edge) =>
      if edge.id in g.edges then Error(EdgeExists(edge.id)) else Ok(g.(edges := g.edges[edge.id := edge.body]))
    case RemoveEdge(id) =>
      if id in g.edges then Ok(g.(edges := g.edges - {id})) else Error(EdgeNotFound(id))
    case UpdateEdge(id, patch) =>
      if id in g.edges then Ok(g.(edges := g.edges[id := PatchEdge(g.edges[id], patch)])) else Error(EdgeNotFound(id))
  }

  function EditGraphAll<V>(g: Graph<V>, ops: seq<Operation<V>>): Result<Graph<V>, CanvasError>
    decreases |ops|
  {
    if |ops| == 0 then Ok(g) else
      match EditGraph(g, ops[0])
      case Error(e) => Error(e)
      case Ok(next) => EditGraphAll(next, ops[1..])
  }

  ghost predicate Dangles<V(!new)>(g: Graph<V>) {
    exists id :: id in g.edges && (g.edges[id].source !in g.nodes || g.edges[id].target !in g.nodes)
  }

  // --- The same edits on arrays ---

  function EditBody<P>(items: seq<Item<P>>, id: Id, f: P -> P, missing: CanvasError): Result<seq<Item<P>>, CanvasError> {
    match IndexOf(items, id)
    case None => Error(missing)
    case Some(k) => Ok(items[k := items[k].(body := f(items[k].body))])
  }

  function Push<P>(items: seq<Item<P>>, item: Item<P>, exists_: CanvasError): Result<seq<Item<P>>, CanvasError> {
    if IndexOf(items, item.id).Some? then Error(exists_) else Ok(items + [item])
  }

  function Splice<P>(items: seq<Item<P>>, id: Id, missing: CanvasError): Result<seq<Item<P>>, CanvasError> {
    match IndexOf(items, id)
    case None => Error(missing)
    case Some(k) => Ok(Without(items, k))
  }

  function SetNodes<V>(s: Snapshot<V>, r: Result<seq<Node<V>>, CanvasError>): Result<Snapshot<V>, CanvasError> {
    match r
    case Ok(nodes) => Ok(s.(nodes := nodes))
    case Error(e) => Error(e)
  }

  function SetEdges<V>(s: Snapshot<V>, r: Result<seq<Edge<V>>, CanvasError>): Result<Snapshot<V>, CanvasError> {
    match r
    case Ok(edges) => Ok(s.(edges := edges))
    case Error(e) => Error(e)
  }

  function Edit<V>(s: Snapshot<V>, op: Operation<V>): Result<Snapshot<V>, CanvasError> {
    match op
    case MoveNode(id, position) =>
      SetNodes(s, EditBody(s.nodes, id, (b: NodeBody<V>) => b.(position := position), NodeNotFound(id)))
    case AddNode(node) => SetNodes(s, Push(s.nodes, node, NodeExists(node.id)))
    case RemoveNode(id) => SetNodes(s, Splice(s.nodes, id, NodeNotFound(id)))
    case UpdateNode(id, patch) =>
      SetNodes(s, EditBody(s.nodes, id, (b: NodeBody<V>) => PatchNode(b, patch), NodeNotFound(id)))
    case AddEdge(edge) => SetEdges(s, Push(s.edges, edge, EdgeExists(edge.id)))
    case RemoveEdge(id) => SetEdges(s, Splice(s.edges, id, EdgeNotFound(id)))
    case UpdateEdge(id, patch) =>
      SetEdges(s, EditBody(s.edges, id, (b: EdgeBody<V>) => PatchEdge(b, patch), EdgeNotFound(id)))
  }

  function EditAll<V>(s: Snapshot<V>, ops: seq<Operation<V>>): Result<Snapshot<V>, CanvasError>
    decreases |ops|
  {
    if |ops| == 0 then Ok(s) else
      match Edit(s, ops[0])
      case Error(e) => Error(e)
      case Ok(next) => EditAll(next, ops[1..])
  }

  // --- validateWorkspaceSnapshot ---

  predicate EndpointsExist<V>(s: Snapshot<V>) {
    forall i :: 0 <= i < |s.edges| ==> Contains(s.nodes, s.edges[i].body.source) && Contains(s.nodes, s.edges[i].body.target)
  }

  predicate WellFormed<V>(s: Snapshot<V>) {
    Unique(s.nodes) && Unique(s.edges) && EndpointsExist(s)
  }

  /** What is wrong with edge `i`: its id first, then its source, then its target. */
  predicate FaultOfEdge<V>(s: Snapshot<V>, i: nat, e: CanvasError)
    requires i < |s.edges|
  {
    var edge := s.edges[i];
    match e
    case EdgeExists(id) => edge.id == id && Contains(s.edges[..i], id)
    case MissingSource(edgeId, nodeId) =>
      && edge.id == edgeId && !Contains(s.edges[..i], edgeId)
      && edge.body.source == nodeId && !Contains(s.nodes, nodeId)
    case MissingTarget(edgeId, nodeId) =>
      && edge.id == edgeId && !Contains(s.edges[..i], edgeId) && Contains(s.nodes, edge.body.source)
      && edge.body.target == nodeId && !Contains(s.nodes, nodeId)
    case _ => false
  }

  /** The error names the first thing that is wrong with the snapshot, nodes before edges. */
  predicate Faults<V>(s: Snapshot<V>, e: CanvasError) {
    if e.NodeExists? then
      exists i :: 0 <= i < |s.nodes| && s.nodes[i].id == e.id && Unique(s.nodes[..i]) && Contains(s.nodes[..i], e.id)
    else
      && Unique(s.nodes)
      && exists i :: 0 <= i < |s.edges| && Unique(s.edges[..i]) && EndpointsExistUpTo(s, i) && FaultOfEdge(s, i, e)
  }

  /** The first id from `i` on that an earlier item has. */
  function RepeatedId<P>(items: seq<Item<P>>, i: nat): Option<Id>
    requires i <= |items|
    decreases |items| - i
  {
    if i == |items| then None
    else if Contains(items[..i], items[i].id) then Some(items[i].id)
    else RepeatedId(items, i + 1)
  }

  /** The first thing that is wrong with an edge from `i` on. */
  function EdgeFault<V>(s: Snapshot<V>, i: nat): Option<CanvasError>
    requires i <= |s.edges|
    decreases |s.edges| - i
  {
    if i == |s.edges| then None
    else
      var edge := s.edges[i];
      if Contains(s.edges[..i], edge.id) then Some(EdgeExists(edge.id))
      else if !Contains(s.nodes, edge.body.source) then Some(MissingSource(edge.id, edge.body.source))
      else if !Contains(s.nodes, edge.body.target) then Some(MissingTarget(edge.id, edge.body.target))
      else EdgeFault(s, i + 1)
  }

  function FirstFault<V>(s: Snapshot<V>): Option<CanvasError> {
    match RepeatedId(s.nodes, 0)
    case Some(id) => Some(NodeExists(id))
    case None => EdgeFault(s, 0)
  }

  lemma {:induction false} RepeatedIdIsRepeated<P>(items: seq<Item<P>>, i: nat)
    requires i <= |items| && Unique(items[..i])
    ensures RepeatedId(items, i).None? <==> Unique(items)
    ensures RepeatedId(items, i).Some? ==> var id := RepeatedId(items, i).value;
      exists k :: 0 <= k < |items| && items[k].id == id && Unique(items[..k]) && Contains(items[..k], id)
    decreases |items| - i
  {
    if i == |items| {
      assert items[..i] == items;
    } else {
      UniqueOneMore(items, i);
      if Contains(items[..i], items[i].id) {
        var j :| 0 <= j < i && items[..i][j].id == items[i].id;
        assert items[j].id == items[i].id;
      } else {
        RepeatedIdIsRepeated(items, i + 1);
      }
    }
  }

  lemma UniqueOneMore<P>(items: seq<Item<P>>, i: nat)
    requires i < |items| && Unique(items[..i])
    ensures Unique(items[..i + 1]) <==> !Contains(items[..i], items[i].id)
  {
    var more := items[..i + 1];
    assert forall j :: 0 <= j < i ==> more[j] == items[..i][j];
    assert more[i] == items[i];
    if j :| 0 <= j < i && items[..i][j].id == items[i].id { assert more[j].id == more[i].id; }
  }

  predicate EndpointsExistUpTo<V>(s: Snapshot<V>, i: nat)
    requires i <= |s.edges|
  {
    forall j :: 0 <= j < i ==> Contains(s.nodes, s.edges[j].body.source) && Contains(s.nodes, s.edges[j].body.target)
  }

  lemma {:induction false} EdgeFaultIsFault<V>(s: Snapshot<V>, i: nat)
    requires i <= |s.edges| && Unique(s.edges[..i]) && EndpointsExistUpTo(s, i)
    ensures EdgeFault(s, i).None? <==> Unique(s.edges) && EndpointsExist(s)
    ensures EdgeFault(s, i).Some? ==>
      exists k :: 0 <= k < |s.edges| && Unique(s.edges[..k]) && EndpointsExistUpTo(s, k) && FaultOfEdge(s, k, EdgeFault(s, i).value)
    ensures EdgeFault(s, i).Some? ==> !EdgeFault(s, i).value.NodeExists?
    decreases |s.edges| - i
  {
    if i == |s.edges| {
      assert s.edges[..i] == s.edges;
    } else {
      var edge := s.edges[i];
      UniqueOneMore(s.edges, i);
      if !Contains(s.edges[..i], edge.id) && Contains(s.nodes, edge.body.source) && Contains(s.nodes, edge.body.target) {
        hide Unique;
        hide Contains;
        hide FaultOfEdge;
        EdgeFaultIsFault(s, i + 1);
      } else {
        assert FaultOfEdge(s, i, EdgeFault(s, i).value);
      }
    }
  }

  lemma FirstFaultIsFault<V>(s: Snapshot<V>)
    ensures FirstFault(s).None? <==> WellFormed(s)
    ensures FirstFault(s).Some? ==> Faults(s, FirstFault(s).value)
  {
    RepeatedIdIsRepeated(s.nodes, 0);
    EdgeFaultIsFault(s, 0);
    hide RepeatedId;
    hide EdgeFault;
  }

  ghost predicate AreIdsOf<P>(ids: set<Id>, items: seq<Item<P>>) {
    forall id :: id in ids <==> Contains(items, id)
  }

  lemma IdsOneMore<P>(ids: set<Id>, items: seq<Item<P>>, i: nat)
    requires i < |items| && AreIdsOf(ids, items[..i])
    ensures AreIdsOf(ids + {items[i].id}, items[..i + 1])
  {
    forall id
      ensures Contains(items[..i + 1], id) <==> Contains(items[..i], id) || id == items[i].id
    {
      assert items[..i + 1][i] == items[i];
      if j :| 0 <= j < i && items[..i][j].id == id { assert items[..i + 1][j].id == id; }
    }
  }

  method CollectIds<P>(items: seq<Item<P>>) returns (ids: set<Id>, repeated: Option<Id>)
    ensures repeated == RepeatedId(items, 0)
    ensures repeated.None? ==> AreIdsOf(ids, items)
  {
    ids := {};
    var i := 0;
    while i < |items|
      invariant 0 <= i <= |items|
      invariant RepeatedId(items, 0) == RepeatedId(items, i)
      invariant AreIdsOf(ids, items[..i])
    {
      if items[i].id in ids {
        return ids, Some(items[i].id);
      }
      IdsOneMore(ids, items, i);
      ids := ids + {items[i].id};
      i := i + 1;
    }
    assert items[..i] == items;
    repeated := None;
  }

  method ValidateWorkspaceSnapshot<V>(s: Snapshot<V>) returns (error: Option<CanvasError>)
    ensures error == FirstFault(s)
    ensures error.None? <==> WellFormed(s)
    ensures error.Some? ==> Faults(s, error.value)
  {
    FirstFaultIsFault(s);
    hide WellFormed;
    hide Faults;
    hide Contains;
    hide RepeatedId;
    var nodeIds, repeated := CollectIds(s.nodes);
    if repeated.Some? {
      return Some(NodeExists(repeated.value));
    }
    var edgeIds: set<Id> := {};
    var i := 0;
    NothingContained(s.edges);
    while i < |s.edges|
      invariant 0 <= i <= |s.edges|
      invariant EdgeFault(s, 0) == EdgeFault(s, i)
      invariant AreIdsOf(edgeIds, s.edges[..i])
    {
      var edge := s.edges[i];
      if edge.id in edgeIds {
        return Some(EdgeExists(edge.id));
      }
      IdsOneMore(edgeIds, s.edges, i);
      edgeIds := edgeIds + {edge.id};
      if edge.body.source !in nodeIds {
        return Some(MissingSource(edge.id, edge.body.source));
      }
      if edge.body.target !in nodeIds {
        return Some(MissingTarget(edge.id, edge.body.target));
      }
      i := i + 1;
    }
    error := None;
  }

  lemma NothingContained<P>(items: seq<Item<P>>)
    ensures AreIdsOf({}, items[..0])
  {
  }

  // --- applyCanvasOperations ---

  predicate EditsNodes<V>(op: Operation<V>) {
    op.MoveNode? || op.AddNode? || op.RemoveNode? || op.UpdateNode?
  }

  /** What the interpreter returns; None where it throws. */
  function Apply<V>(s: Snapshot<V>, ops: seq<Operation<V>>): (r: Option<Snapshot<V>>)
    ensures r.Some? ==> WellFormed(r.value)
  {
    var edited := EditAll(s, ops);
    if edited.Ok? && WellFormed(edited.value) then Some(edited.value) else None
  }

  /** One turn of the loop, for the operations on nodes. */
  method EditNodes<V>(next: Snapshot<V>, operation: Operation<V>) returns (result: Result<Snapshot<V>, CanvasError>)
    requires EditsNodes(operation)
    ensures result == Edit(next, operation)
  {
    match operation
    case MoveNode(nodeId, position) =>
      var index := FindIndex(next.nodes, nodeId);
      if index.None? {
        return Error(NodeNotFound(nodeId));
      }
      var node := next.nodes[index.value];
      result := Ok(next.(nodes := next.nodes[index.value := node.(body := node.body.(position := position))]));
    case AddNode(node) =>
      var index := FindIndex(next.nodes, node.id);
      if index.Some? {
        return Error(NodeExists(node.id));
      }
      result := Ok(next.(nodes := next.nodes + [node]));
    case RemoveNode(nodeId) =>
      var index := FindIndex(next.nodes, nodeId);
      if index.None? {
        return Error(NodeNotFound(nodeId));
      }
      result := Ok(next.(nodes := next.nodes[..index.value] + next.nodes[index.value + 1..]));
    case UpdateNode(nodeId, patch) =>
      var index := FindIndex(next.nodes, nodeId);
      if index.None? {
        return Error(NodeNotFound(nodeId));
      }
      var node := next.nodes[index.value];
      result := Ok(next.(nodes := next.nodes[index.value := node.(body := PatchNode(node.body, patch))]));
  }

  /** One turn of the loop, for the operations on edges. */
  method EditEdges<V>(next: Snapshot<V>, operation: Operation<V>) returns (result: Result<Snapshot<V>, CanvasError>)
    requires !EditsNodes(operation)
    ensures result == Edit(next, operation)
  {
    match operation
    case AddEdge(edge) =>
      var index := FindIndex(next.edges, edge.id);
      if index.Some? {
        return Error(EdgeExists(edge.id));
      }
      result := Ok(next.(edges := next.edges + [edge]));
    case RemoveEdge(edgeId) =>
      var index := FindIndex(next.edges, edgeId);
      if index.None? {
        return Error(EdgeNotFound(edgeId));
      }
      result := Ok(next.(edges := next.edges[..index.value] + next.edges[index.value + 1..]));
    case UpdateEdge(edgeId, patch) =>
      var index := FindIndex(next.edges, edgeId);
      if index.None? {
        return Error(EdgeNotFound(edgeId));
      }
      var edge := next.edges[index.value];
      result := Ok(next.(edges := next.edges[index.value := edge.(body := PatchEdge(edge.body, patch))]));
  }

  method ApplyCanvasOperations<V>(snapshot: Snapshot<V>, operations: seq<Operation<V>>)
      returns (result: Result<Snapshot<V>, CanvasError>)
    ensures Apply(snapshot, operations) == if result.Ok? then Some(result.value) else None
    ensures result.Error? ==>
      match EditAll(snapshot, operations)
      case Error(e) => result.error == e
      case Ok(edited) => FirstFault(edited) == Some(result.error) && Faults(edited, result.error)
  {
    hide WellFormed;
    hide FirstFault;
    hide Faults;
    var next := snapshot;
    var i := 0;
    while i < |operations|
      invariant 0 <= i <= |operations|
      invariant EditAll(next, operations[i..]) == EditAll(snapshot, operations)
    {
      var operation := operations[i];
      assert operations[i..][1..] == operations[i + 1..];
      var edited;
      if EditsNodes(operation) {
        edited := EditNodes(next, operation);
      } else {
        edited := EditEdges(next, operation);
      }
      if edited.Error? {
        return edited;
      }
      next := edited.value;
      i := i + 1;
    }
    var error := ValidateWorkspaceSnapshot(next);
    result := if error.Some? then Error(error.value) else Ok(next);
  }

  // --- Arrays refine maps ---

  predicate UniqueIds<V>(s: Snapshot<V>) {
    Unique(s.nodes) && Unique(s.edges)
  }

  function GraphOf<V>(s: Snapshot<V>): Graph<V>
    requires UniqueIds(s)
  {
    Graph(View(s.nodes), View(s.edges))
  }

  ghost predicate Refines<V(!new)>(a: Result<Snapshot<V>, CanvasError>, g: Result<Graph<V>, CanvasError>) {
    match a
    case Error(e) => g == Error(e)
    case Ok(s) => UniqueIds(s) && g == Ok(GraphOf(s))
  }

  lemma EditBodyRefines<P>(items: seq<Item<P>>, id: Id, f: P -> P, missing: CanvasError)
    requires Unique(items)
    ensures var r := EditBody(items, id, f, missing);
      if id !in View(items) then r == Error(missing)
      else r.Ok? && Unique(r.value) && View(r.value) == View(items)[id := f(View(items)[id])]
  {
    var k := IndexOf(items, id);
    if k.Some? { UpdateView(items, k.value, f(items[k.value].body)); }
  }

  lemma PushRefines<P>(items: seq<Item<P>>, item: Item<P>, e: CanvasError)
    requires Unique(items)
    ensures var r := Push(items, item, e);
      if item.id in View(items) then r == Error(e)
      else r.Ok? && Unique(r.value) && View(r.value) == View(items)[item.id := item.body]
  {
    if !Contains(items, item.id) { PushView(items, item); }
  }

  lemma SpliceRefines<P>(items: seq<Item<P>>, id: Id, missing: CanvasError)
    requires Unique(items)
    ensures var r := Splice(items, id, missing);
      if id !in View(items) then r == Error(missing)
      else r.Ok? && Unique(r.value) && View(r.value) == View(items) - {id}
  {
    var k := IndexOf(items, id);
    if k.Some? { WithoutView(items, k.value); }
  }

  lemma NodeEditRefines<V(!new)>(s: Snapshot<V>, op: Operation<V>)
    requires UniqueIds(s) && EditsNodes(op)
    ensures Refines(Edit(s, op), EditGraph(GraphOf(s), op))
  {
    hide View;
    hide Unique;
    hide EditBody;
    hide Push;
    hide Splice;
    match op
    case MoveNode(id, position) =>
      EditBodyRefines(s.nodes, id, (b: NodeBody<V>) => b.(position := position), NodeNotFound(id));
    case AddNode(node) => PushRefines(s.nodes, node, NodeExists(node.id));
    case RemoveNode(id) => SpliceRefines(s.nodes, id, NodeNotFound(id));
    case UpdateNode(id, patch) =>
      EditBodyRefines(s.nodes, id, (b: NodeBody<V>) => PatchNode(b, patch), NodeNotFound(id));
  }

  lemma EdgeEditRefines<V(!new)>(s: Snapshot<V>, op: Operation<V>)
    requires UniqueIds(s) && !EditsNodes(op)
    ensures Refines(Edit(s, op), EditGraph(GraphOf(s), op))
  {
    hide View;
    hide Unique;
    hide EditBody;
    hide Push;
    hide Splice;
    match op
    case AddEdge(edge) => PushRefines(s.edges, edge, EdgeExists(edge.id));
    case RemoveEdge(id) => SpliceRefines(s.edges, id, EdgeNotFound(id));
    case UpdateEdge(id, patch) =>
      EditBodyRefines(s.edges, id, (b: EdgeBody<V>) => PatchEdge(b, patch), EdgeNotFound(id));
  }

  lemma EditRefines<V(!new)>(s: Snapshot<V>, op: Operation<V>)
    requires UniqueIds(s)
    ensures Refines(Edit(s, op), EditGraph(GraphOf(s), op))
  {
    hide *;
    if EditsNodes(op) { NodeEditRefines(s, op); } else { EdgeEditRefines(s, op); }
  }

  lemma {:induction false} EditAllRefines<V(!new)>(s: Snapshot<V>, ops: seq<Operation<V>>)
    requires UniqueIds(s)
    ensures Refines(EditAll(s, ops), EditGraphAll(GraphOf(s), ops))
    decreases |ops|
  {
    if |ops| > 0 {
      EditRefines(s, ops[0]);
      var r := Edit(s, ops[0]);
      if r.Ok? { EditAllRefines(r.value, ops[1..]); }
    }
  }

  lemma DanglingIsFound<V(!new)>(s: Snapshot<V>)
    requires UniqueIds(s) && !EndpointsExist(s)
    ensures Dangles(GraphOf(s))
  {
    var i :| 0 <= i < |s.edges|
      && !(Contains(s.nodes, s.edges[i].body.source) && Contains(s.nodes, s.edges[i].body.target));
    var g := GraphOf(s);
    assert s.edges[i].id in g.edges && g.edges[s.edges[i].id] == s.edges[i].body;
  }

  lemma EndpointsInGraph<V(!new)>(s: Snapshot<V>, id: Id)
    requires UniqueIds(s) && EndpointsExist(s) && id in GraphOf(s).edges
    ensures GraphOf(s).edges[id].source in GraphOf(s).nodes && GraphOf(s).edges[id].target in GraphOf(s).nodes
  {
    assert Contains(s.edges, id);
    var i :| 0 <= i < |s.edges| && s.edges[i].id == id;
    assert GraphOf(s).edges[id] == s.edges[i].body;
  }

  lemma DanglesIff<V(!new)>(s: Snapshot<V>)
    requires UniqueIds(s)
    ensures WellFormed(s) <==> !Dangles(GraphOf(s))
  {
    hide GraphOf;
    hide Unique;
    if !EndpointsExist(s) {
      DanglingIsFound(s);
    } else {
      hide EndpointsExist;
      forall id | id in GraphOf(s).edges
        ensures GraphOf(s).edges[id].source in GraphOf(s).nodes && GraphOf(s).edges[id].target in GraphOf(s).nodes
      {
        EndpointsInGraph(s, id);
      }
    }
  }

  /**
   * On a well-formed snapshot the interpreter throws exactly when the operations make no sense on maps
   * keyed by id, or leave an edge dangling; otherwise its arrays stand for the resulting maps.
   */
  lemma InterpreterRefinesMaps<V(!new)>(s: Snapshot<V>, ops: seq<Operation<V>>)
    requires WellFormed(s)
    ensures var g := EditGraphAll(GraphOf(s), ops);
      && (Apply(s, ops).None? <==> g.Error? || Dangles(g.value))
      && (Apply(s, ops).Some? ==> GraphOf(Apply(s, ops).value) == g.value && Apply(s, ops).value.viewport == s.viewport)
  {
    EditAllRefines(s, ops);
    EditAllKeepsViewport(s, ops);
    var r := EditAll(s, ops);
    if r.Ok? { DanglesIff(r.value); }
  }

  lemma {:induction false} EditAllKeepsViewport<V(!new)>(s: Snapshot<V>, ops: seq<Operation<V>>)
    ensures EditAll(s, ops).Ok? ==> EditAll(s, ops).value.viewport == s.viewport
    decreases |ops|
  {
    if |ops| > 0 && Edit(s, ops[0]).Ok? {
      EditAllKeepsViewport(Edit(s, ops[0]).value, ops[1..]);
    }
  }

  // --- Order of the survivors ---

  predicate RemovesNode<V>(ops: seq<Operation<V>>, id: Id) {
    exists i :: 0 <= i < |ops| && ops[i].RemoveNode? && ops[i].nodeId == id
  }

  predicate RemovesEdge<V>(ops: seq<Operation<V>>, id: Id) {
    exists i :: 0 <= i < |ops| && ops[i].RemoveEdge? && ops[i].edgeId == id
  }

  lemma EditBodyKeepsOrder<P(!new)>(items: seq<Item<P>>, id: Id, f: P -> P, missing: CanvasError, x: Id, y: Id)
    requires EditBody(items, id, f, missing).Ok? && Before(items, x, y)
    ensures Before(EditBody(items, id, f, missing).value, x, y)
  {
    var k := IndexOf(items, id).value;
    UpdateKeepsOrder(items, k, f(items[k].body), x, y);
  }

  lemma SpliceKeepsOrder<P(!new)>(items: seq<Item<P>>, id: Id, missing: CanvasError, x: Id, y: Id)
    requires Splice(items, id, missing).Ok? && Before(items, x, y) && id != x && id != y
    ensures Before(Splice(items, id, missing).value, x, y)
  {
    WithoutKeepsOrder(items, IndexOf(items, id).value, x, y);
  }

  lemma EditKeepsNodeOrder<V(!new)>(s: Snapshot<V>, op: Operation<V>, x: Id, y: Id)
    requires Edit(s, op).Ok? && Before(s.nodes, x, y) && !RemovesNode([op], x) && !RemovesNode([op], y)
    ensures Before(Edit(s, op).value.nodes, x, y)
  {
    match op
    case MoveNode(id, position) =>
      EditBodyKeepsOrder(s.nodes, id, (b: NodeBody<V>) => b.(position := position), NodeNotFound(id), x, y);
    case AddNode(node) => PushKeepsOrder(s.nodes, node, x, y);
    case RemoveNode(id) =>
      assert [op][0].RemoveNode?;
      SpliceKeepsOrder(s.nodes, id, NodeNotFound(id), x, y);
    case UpdateNode(id, patch) =>
      EditBodyKeepsOrder(s.nodes, id, (b: NodeBody<V>) => PatchNode(b, patch), NodeNotFound(id), x, y);
    case _ =>
  }

  lemma EditKeepsEdgeOrder<V(!new)>(s: Snapshot<V>, op: Operation<V>, x: Id, y: Id)
    requires Edit(s, op).Ok? && Before(s.edges, x, y) && !RemovesEdge([op], x) && !RemovesEdge([op], y)
    ensures Before(Edit(s, op).value.edges, x, y)
  {
    match op
    case AddEdge(edge) => PushKeepsOrder(s.edges, edge, x, y);
    case RemoveEdge(id) =>
      assert [op][0].RemoveEdge?;
      SpliceKeepsOrder(s.edges, id, EdgeNotFound(id), x, y);
    case UpdateEdge(id, patch) =>
      EditBodyKeepsOrder(s.edges, id, (b: EdgeBody<V>) => PatchEdge(b, patch), EdgeNotFound(id), x, y);
    case _ =>
  }

  /** Nodes that no operation removes keep their relative order. */
  lemma {:induction false} SurvivingNodesKeepOrder<V(!new)>(s: Snapshot<V>, ops: seq<Operation<V>>, x: Id, y: Id)
    requires EditAll(s, ops).Ok? && Before(s.nodes, x, y) && !RemovesNode(ops, x) && !RemovesNode(ops, y)
    ensures Before(EditAll(s, ops).value.nodes, x, y)
    decreases |ops|
  {
    if |ops| > 0 {
      assert forall i :: 0 <= i < |ops[1..]| ==> ops[1..][i] == ops[i + 1];
      assert [ops[0]][0] == ops[0];
      EditKeepsNodeOrder(s, ops[0], x, y);
      SurvivingNodesKeepOrder(Edit(s, ops[0]).value, ops[1..], x, y);
    }
  }

  /** Edges that no operation removes keep their relative order. */
  lemma {:induction false} SurvivingEdgesKeepOrder<V(!new)>(s: Snapshot<V>, ops: seq<Operation<V>>, x: Id, y: Id)
    requires EditAll(s, ops).Ok? && Before(s.edges, x, y) && !RemovesEdge(ops, x) && !RemovesEdge(ops, y)
    ensures Before(EditAll(s, ops).value.edges, x, y)
    decreases |ops|
  {
    if |ops| > 0 {
      assert forall i :: 0 <= i < |ops[1..]| ==> ops[1..][i] == ops[i + 1];
      assert [ops[0]][0] == ops[0];
      EditKeepsEdgeOrder(s, ops[0], x, y);
      SurvivingEdgesKeepOrder(Edit(s, ops[0]).value, ops[1..], x, y);
    }
  }

  // --- One batch against two ---

  lemma {:induction false} EditAllSplits<V(!new)>(s: Snapshot<V>, a: seq<Operation<V>>, b: seq<Operation<V>>)
    ensures EditAll(s, a + b) == match EditAll(s, a) case Error(e) => Error(e) case Ok(mid) => EditAll(mid, b)
    decreases |a|
  {
    if |a| == 0 {
      assert a + b == b;
    } else {
      assert (a + b)[1..] == a[1..] + b && (a + b)[0] == a[0];
      if Edit(s, a[0]).Ok? { EditAllSplits(Edit(s, a[0]).value, a[1..], b); }
    }
  }

  /** Applying a, then b, with the graph validated in between. */
  function ApplyTwice<V>(s: Snapshot<V>, a: seq<Operation<V>>, b: seq<Operation<V>>): Option<Snapshot<V>> {
    match Apply(s, a)
    case None => None
    case Some(mid) => Apply(mid, b)
  }

  /** Where one batch and two differ, the batch succeeds and the graph in between is refused. */
  lemma OnlyTheMiddleDiffers<V(!new)>(s: Snapshot<V>, a: seq<Operation<V>>, b: seq<Operation<V>>)
    ensures Apply(s, a + b) != ApplyTwice(s, a, b) <==> Apply(s, a).None? && Apply(s, a + b).Some?
    ensures ApplyTwice(s, a, b).Some? ==> Apply(s, a + b) == ApplyTwice(s, a, b)
  {
    EditAllSplits(s, a, b);
  }

  /**
   * On a well-formed snapshot one batch does what two do, except exactly where an edge dangles in between
   * and none does in the end: there the batch succeeds and the two fail.
   */
  lemma BatchingAgrees<V(!new)>(s: Snapshot<V>, a: seq<Operation<V>>, b: seq<Operation<V>>)
    requires WellFormed(s)
    ensures var mid, end := EditGraphAll(GraphOf(s), a), EditGraphAll(GraphOf(s), a + b);
      var differs := mid.Ok? && Dangles(mid.value) && end.Ok? && !Dangles(end.value);
      && (Apply(s, a + b) == ApplyTwice(s, a, b) <==> !differs)
      && (differs ==> Apply(s, a + b).Some? && ApplyTwice(s, a, b).None?)
  {
    EditAllSplits(s, a, b);
    OnlyTheMiddleDiffers(s, a, b);
    InterpreterRefinesMaps(s, a);
    InterpreterRefinesMaps(s, a + b);
    EditAllRefines(s, a);
    EditAllRefines(s, a + b);
    hide Apply;
    hide EditGraphAll;
    hide Dangles;
    hide GraphOf;
    hide WellFormed;
  }

  /** Removing a node and then its edge works in one batch and fails in two. */
  lemma BatchingCanSucceedAlone()
    ensures var n := Item("n", NodeBody("t", Position(0.0, 0.0), map[]));
      var e := Item("e", EdgeBody("n", "n", "relation", map[]));
      var s: Snapshot<int> := Snapshot(Viewport(0.0, 0.0, 1.0), [n], [e]);
      WellFormed(s) && Apply(s, [RemoveNode("n")] + [RemoveEdge("e")]).Some?
      && ApplyTwice(s, [RemoveNode("n")], [RemoveEdge("e")]).None?
  {
    var n := Item("n", NodeBody("t", Position(0.0, 0.0), map[]));
    var e := Item("e", EdgeBody("n", "n", "relation", map[]));
    var s: Snapshot<int> := Snapshot(Viewport(0.0, 0.0, 1.0), [n], [e]);
    var a, b := [RemoveNode("n")], [RemoveEdge("e")];
    var mid := s.(nodes := []);
    assert s.nodes[0].id == "n" && mid.edges[0].id == "e";
    assert Without(s.nodes, 0) == [] && Without(mid.edges, 0) == [];
    assert Edit(s, a[0]) == Ok(mid) && Edit(mid, b[0]) == Ok(mid.(edges := []));
    assert EditAll(s, a) == EditAll(mid, a[1..]) && EditAll(mid, b) == EditAll(mid.(edges := []), b[1..]);
    assert !Contains(mid.nodes, mid.edges[0].body.source);
    EditAllSplits(s, a, b);
  }
}
