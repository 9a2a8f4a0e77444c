/**
 * The asset hierarchy: parent updates and the recursive cycle walk
 * (apps/api/src/postgres-industrial-persistence.ts, apps/api/src/database.ts).
 */
module AssetForest {
  import opened Common

  predicate IsLetterOrDigit(c: char) {
    'A' <= c <= 'Z' || 'a' <= c <= 'z' || '0' <= c <= '9'
  }

  /** What the request schema accepts as an external id. */
  predicate IsExternalId(id: string) {
    && 1 <= |id| <= 255 && IsLetterOrDigit(id[0])
    && forall i :: 0 <= i < |id| ==> IsLetterOrDigit(id[i]) || id[i] in "._:/-"
  }

  type Id = id: string | IsExternalId(id) witness "A"

  /** assets.parent_asset_id by asset; None is a root. */
  type Parents = map<Id, Option<Id>>

  // --- The parent graph ---

  /** The ancestor `k` steps up. */
  function Up(t: Parents, node: Id, k: nat): Option<Id> {
    if k == 0 then Some(node)
    else
      match Up(t, node, k - 1)
      case None => None
      case Some(n) => if n in t then t[n] else None
  }

  ghost predicate OnCycle(t: Parents, node: Id) {
    node in t && exists k: nat :: k > 0 && Up(t, node, k) == Some(node)
  }

  ghost predicate HasCycle(t: Parents) {
    exists node :: OnCycle(t, node)
  }

  // --- The recursive query ---

  predicate IsPath(t: Parents, path: seq<Id>) {
    && |path| > 0
    && (forall i :: 0 <= i < |path| ==> path[i] in t)
    && (forall i, j :: 0 <= i < j < |path| ==> path[i] != path[j])
    && (forall i :: 0 <= i < |path| - 1 ==> t[path[i]] == Some(path[i + 1]))
  }

  function Unvisited(t: Parents, path: seq<Id>): set<Id> {
    set id | id in t && id !in path
  }

  lemma UnvisitedShrinks(t: Parents, path: seq<Id>, id: Id)
    requires id in t && id !in path
    ensures Unvisited(t, path + [id]) < Unvisited(t, path)
  {
    assert id in Unvisited(t, path) && id !in Unvisited(t, path + [id]);
    assert forall other :: other in Unvisited(t, path + [id]) ==> other in Unvisited(t, path);
  }

  /** The rows of the walk from the last asset of `path`: true when one of them is marked as a cycle. */
  predicate WalkFindsCycle(t: Parents, path: seq<Id>)
    requires IsPath(t, path)
    decreases Unvisited(t, path)
  {
    var node := path[|path| - 1];
    if t[node].None? || t[node].value !in t then false
    else
      var parent := t[node].value;
      if parent in path then true
      else
        UnvisitedShrinks(t, path, parent);
        WalkFindsCycle(t, path + [parent])
  }

  /** SELECT root FROM walk WHERE cycle LIMIT 1 returns a row. */
  predicate CycleReported(t: Parents) {
    exists root :: root in t && WalkFindsCycle(t, [root])
  }

  lemma {:induction false} UpAdds(t: Parents, node: Id, j: nat, k: nat)
    ensures Up(t, node, j).Some? ==> Up(t, node, j + k) == Up(t, Up(t, node, j).value, k)
    ensures Up(t, node, j).None? ==> Up(t, node, j + k).None?
  {
    if k > 0 { UpAdds(t, node, j, k - 1); }
  }

  lemma {:induction false} PathClimbs(t: Parents, path: seq<Id>, i: nat, j: nat)
    requires IsPath(t, path) && i <= j < |path|
    ensures Up(t, path[i], j - i) == Some(path[j])
  {
    if j > i {
      PathClimbs(t, path, i, j - 1);
      assert Up(t, path[i], j - 1 - i) == Some(path[j - 1]);
    }
  }

  /** A reported row is a real cycle. */
  lemma {:induction false} ReportedIsReal(t: Parents, path: seq<Id>)
    requires IsPath(t, path) && WalkFindsCycle(t, path)
    ensures HasCycle(t)
    decreases Unvisited(t, path)
  {
    var last := |path| - 1;
    var parent := t[path[last]].value;
    if parent in path {
      var i :| 0 <= i < |path| && path[i] == parent;
      PathClimbs(t, path, i, last);
      assert Up(t, parent, last - i + 1) == Some(parent);
      assert OnCycle(t, parent);
    } else {
      UnvisitedShrinks(t, path, parent);
      ReportedIsReal(t, path + [parent]);
    }
  }

  /** A walk that reports nothing has reached a root, or a parent that is not there. */
  lemma {:induction false} UnreportedEnds(t: Parents, path: seq<Id>) returns (k: nat)
    requires IsPath(t, path) && !WalkFindsCycle(t, path)
    ensures Up(t, path[|path| - 1], k).None?
    ensures k > 0
    decreases Unvisited(t, path)
  {
    var node := path[|path| - 1];
    if t[node].None? {
      k := 1;
      assert Up(t, node, 0) == Some(node);
    } else if t[node].value !in t {
      k := 2;
      assert Up(t, node, 1) == t[node];
    } else {
      var parent := t[node].value;
      UnvisitedShrinks(t, path, parent);
      var up := UnreportedEnds(t, path + [parent]);
      k := up + 1;
      UpAdds(t, node, 1, up);
      assert Up(t, node, 1) == Some(parent);
    }
  }

  lemma {:induction false} CycleNeverEnds(t: Parents, node: Id, k: nat, j: nat)
    requires k > 0 && Up(t, node, k) == Some(node)
    ensures Up(t, node, j).Some?
  {
    if j <= k {
      UpAdds(t, node, j, k - j);
    } else {
      CycleNeverEnds(t, node, k, j - k);
      UpAdds(t, node, k, j - k);
    }
  }

  /** The walk terminates, and reports a cycle exactly when the parent graph has one. */
  lemma WalkDecidesCycles(t: Parents)
    ensures CycleReported(t) <==> HasCycle(t)
  {
    if CycleReported(t) {
      var root :| root in t && WalkFindsCycle(t, [root]);
      ReportedIsReal(t, [root]);
    }
    if HasCycle(t) {
      var node :| OnCycle(t, node);
      var k: nat :| k > 0 && Up(t, node, k) == Some(node);
      if !WalkFindsCycle(t, [node]) {
        var j := UnreportedEnds(t, [node]);
        CycleNeverEnds(t, node, k, j);
        assert false;
      }
    }
  }

  // --- SQLite keeps the path as text ---

  const COMMA := ','

  /** ',' || a || ',' || b || ',' ... */
  function PathText(path: seq<Id>): string {
    if |path| == 0 then [COMMA] else [COMMA] + path[0] + PathText(path[1..])
  }

  predicate OccursAt(text: string, pattern: string, k: int) {
    0 <= k <= |text| - |pattern| && text[k..k + |pattern|] == pattern
  }

  /** instr(text, pattern) > 0 */
  predicate Occurs(text: string, pattern: string) {
    exists k | 0 <= k <= |text| :: OccursAt(text, pattern, k)
  }

  function Mark(id: Id): string {
    [COMMA] + id + [COMMA]
  }

  lemma PathTextOpens(path: seq<Id>)
    ensures |PathText(path)| > 0 && PathText(path)[0] == COMMA
  {
  }

  lemma MarkAtFront(x: Id, rest: string, id: Id)
    requires |rest| > 0 && rest[0] == COMMA
    ensures OccursAt([COMMA] + x + rest, Mark(id), 0) <==> x == id
  {
    var text := [COMMA] + x + rest;
    assert text[1..1 + |x|] == x && text[1 + |x|] == COMMA;
    if x == id {
      assert text[0..|Mark(id)|] == Mark(id);
    }
    assert forall i :: 0 <= i < |x| ==> text[i + 1] == x[i] && x[i] != COMMA;
    assert forall i :: 0 <= i < |id| ==> Mark(id)[i + 1] == id[i] && id[i] != COMMA;
    if OccursAt(text, Mark(id), 0) {
      assert forall i :: 0 <= i < |Mark(id)| ==> text[i] == Mark(id)[i];
      assert text[|id| + 1] == COMMA;
      assert |x| == |id|;
      assert forall i :: 0 <= i < |x| ==> x[i] == text[i + 1] == id[i];
    }
  }

  lemma MarkFurtherOn(x: Id, rest: string, id: Id, k: int)
    requires 0 < k
    ensures OccursAt([COMMA] + x + rest, Mark(id), k) <==> k >= |x| + 1 && OccursAt(rest, Mark(id), k - |x| - 1)
  {
    var text := [COMMA] + x + rest;
    assert k < |x| + 1 ==> text[k] == x[k - 1] && x[k - 1] != COMMA;
    assert OccursAt(text, Mark(id), k) ==> text[k] == text[k..k + |Mark(id)|][0] == COMMA;
    if k >= |x| + 1 && k <= |text| - |Mark(id)| {
      assert text[k..k + |Mark(id)|] == rest[k - |x| - 1..k - |x| - 1 + |Mark(id)|];
    }
  }

  /** The text search is path membership, because no external id holds a comma. */
  lemma {:induction false} TextSearchIsMembership(path: seq<Id>, id: Id)
    ensures Occurs(PathText(path), Mark(id)) <==> id in path
  {
    var text := PathText(path);
    if |path| == 0 {
      assert |Mark(id)| > |text|;
    } else {
      var rest := PathText(path[1..]);
      PathTextOpens(path[1..]);
      TextSearchIsMembership(path[1..], id);
      MarkAtFront(path[0], rest, id);
      assert id in path <==> id == path[0] || id in path[1..];
      if k :| OccursAt(text, Mark(id), k) {
        if k > 0 { MarkFurtherOn(path[0], rest, id, k); }
      }
      if j :| OccursAt(rest, Mark(id), j) {
        MarkFurtherOn(path[0], rest, id, j + |path[0]| + 1);
      }
    }
  }

  /** `text || id || ','` is the text of the longer path. */
  lemma {:induction false} PathTextExtends(path: seq<Id>, id: Id)
    ensures PathText(path + [id]) == PathText(path) + id + [COMMA]
  {
    if |path| > 0 {
      assert (path + [id])[1..] == path[1..] + [id];
      PathTextExtends(path[1..], id);
    } else {
      assert PathText([id]) == [COMMA] + id + PathText([]);
    }
  }

  /** The rows of the SQLite walk from `node`, which carry the text of the path instead of the path. */
  predicate TextWalkFindsCycle(t: Parents, node: Id, text: string, ghost path: seq<Id>)
    requires IsPath(t, path) && node == path[|path| - 1] && text == PathText(path)
    decreases Unvisited(t, path)
  {
    if t[node].None? || t[node].value !in t then false
    else
      var parent := t[node].value;
      if Occurs(text, Mark(parent)) then true
      else
        TextSearchIsMembership(path, parent);
        PathTextExtends(path, parent);
        UnvisitedShrinks(t, path, parent);
        TextWalkFindsCycle(t, parent, text + parent + [COMMA], path + [parent])
  }

  predicate TextCycleReported(t: Parents) {
    exists root :: root in t && TextWalkFindsCycle(t, root, PathText([root]), [root])
  }

  lemma {:induction false} TextWalkIsWalk(t: Parents, path: seq<Id>)
    requires IsPath(t, path)
    ensures TextWalkFindsCycle(t, path[|path| - 1], PathText(path), path) == WalkFindsCycle(t, path)
    decreases Unvisited(t, path)
  {
    var node := path[|path| - 1];
    if t[node].Some? && t[node].value in t {
      var parent := t[node].value;
      TextSearchIsMembership(path, parent);
      if parent !in path {
        PathTextExtends(path, parent);
        UnvisitedShrinks(t, path, parent);
        TextWalkIsWalk(t, path + [parent]);
      }
    }
  }

  /** So the SQLite walk terminates too, and reports a cycle exactly when the parent graph has one. */
  lemma TextWalkDecidesCycles(t: Parents)
    ensures TextCycleReported(t) <==> HasCycle(t)
  {
    forall root | root in t
      ensures TextWalkFindsCycle(t, root, PathText([root]), [root]) == WalkFindsCycle(t, [root])
    {
      TextWalkIsWalk(t, [root]);
    }
    WalkDecidesCycles(t);
  }

  // --- Upserting assets ---

  datatype ParentPatch = Unset | Root | Under(parent: Id)

  datatype Asset = Asset(id: Id, parent: ParentPatch)

  /** New assets start as roots; known ones keep their parent. */
  function InsertAll(t: Parents, assets: seq<Asset>): Parents {
    if |assets| == 0 then t
    else
      var before := InsertAll(t, assets[..|assets| - 1]);
      var id := assets[|assets| - 1].id;
      if id in before then before else before[id := None]
  }

  function SetParent(t: Parents, asset: Asset): Parents {
    match asset.parent
    case Unset => t
    case Root => t[asset.id := None]
    case Under(parent) => t[asset.id := Some(parent)]
  }

  /** The parent updates one after the other; None where a named parent does not exist. */
  function SetParents(t: Parents, assets: seq<Asset>): Option<Parents> {
    if |assets| == 0 then Some(t)
    else
      match SetParents(t, assets[..|assets| - 1])
      case None => None
      case Some(before) =>
        var last := assets[|assets| - 1];
        if last.parent.Under? && last.parent.parent !in before then None else Some(SetParent(before, last))
  }

  /** The hierarchy that an ingest leaves; None where its transaction fails. */
  function Upserted(t: Parents, assets: seq<Asset>): Option<Parents> {
    match SetParents(InsertAll(t, assets), assets)
    case None => None
    case Some(after) => if CycleReported(after) then None else Some(after)
  }

  /** The walk from every asset in turn, over path texts. */
  method AssertNoAssetCycles(t: Parents) returns (acyclic: bool)
    ensures acyclic <==> !HasCycle(t)
  {
    TextWalkDecidesCycles(t);
    var rest := t.Keys;
    while rest != {}
      invariant rest <= t.Keys
      invariant forall root :: root in t && root !in rest ==> !TextWalkFindsCycle(t, root, PathText([root]), [root])
      decreases |rest|
    {
      var root :| root in rest;
      if TextWalkFindsCycle(t, root, PathText([root]), [root]) {
        return false;
      }
      rest := rest - {root};
    }
    acyclic := true;
  }

  method InsertAssets(t: Parents, assets: seq<Asset>) returns (after: Parents)
    ensures after == InsertAll(t, assets)
  {
    after := t;
    var i := 0;
    while i < |assets|
      invariant 0 <= i <= |assets|
      invariant after == InsertAll(t, assets[..i])
    {
      assert assets[..i + 1][..i] == assets[..i];
      if assets[i].id !in after {
        after := after[assets[i].id := None];
      }
      i := i + 1;
    }
    assert assets[..i] == assets;
  }

  method SetAssetParents(t: Parents, assets: seq<Asset>) returns (result: Option<Parents>)
    ensures result == SetParents(t, assets)
  {
    var after := t;
    var i := 0;
    while i < |assets|
      invariant 0 <= i <= |assets|
      invariant SetParents(t, assets[..i]) == Some(after)
    {
      assert assets[..i + 1][..i] == assets[..i];
      if assets[i].parent.Under? && assets[i].parent.parent !in after {
        MissingParentStays(t, assets, i);
        return None;
      }
      after := SetParent(after, assets[i]);
      i := i + 1;
    }
    assert assets[..i] == assets;
    result := Some(after);
  }

  /** The asset part of the SQLite ingest: insert, then set parents, then walk. */
  method UpsertAssets(t: Parents, assets: seq<Asset>) returns (result: Option<Parents>)
    ensures result == Upserted(t, assets)
  {
    var inserted := InsertAssets(t, assets);
    var after := SetAssetParents(inserted, assets);
    if after.None? {
      return None;
    }
    var acyclic := AssertNoAssetCycles(after.value);
    WalkDecidesCycles(after.value);
    result := if acyclic then after else None;
  }

  lemma {:induction false} MissingParentStays(t: Parents, assets: seq<Asset>, i: nat)
    requires i < |assets| && SetParents(t, assets[..i + 1]).None?
    ensures SetParents(t, assets).None?
    decreases |assets|
  {
    if i + 1 == |assets| {
      assert assets[..i + 1] == assets;
    } else {
      assert assets[..|assets| - 1][..i + 1] == assets[..i + 1];
      MissingParentStays(t, assets[..|assets| - 1], i);
    }
  }

  // --- What an upsert asks for ---

  predicate Names(assets: seq<Asset>, i: nat, id: Id) {
    i < |assets| && assets[i].id == id
  }

  /** Entry `i` is the last that says anything about the parent of the asset. */
  ghost predicate Decides(assets: seq<Asset>, i: nat, id: Id) {
    && Names(assets, i, id) && !assets[i].parent.Unset?
    && forall j: nat :: i < j && Names(assets, j, id) ==> assets[j].parent.Unset?
  }

  /** The parent of an asset: the last one the bundle names, and without one the parent it had, if it was known. */
  ghost predicate HangsAsAsked(t: Parents, assets: seq<Asset>, u: Parents, id: Id)
    requires id in u
  {
    && (forall i: nat :: Decides(assets, i, id) ==>
          u[id] == if assets[i].parent.Under? then Some(assets[i].parent.parent) else None)
    && ((forall i: nat :: !Decides(assets, i, id)) ==> u[id] == if id in t then t[id] else None)
  }

  /** The assets known before or in the bundle, each under the parent it was asked to hang from. */
  ghost predicate AsAsked(t: Parents, assets: seq<Asset>, u: Parents) {
    && (forall id :: id in u <==> id in t || exists i: nat :: Names(assets, i, id))
    && (forall id :: id in u ==> HangsAsAsked(t, assets, u, id))
  }

  ghost predicate NamedParentsKnown(t: Parents, assets: seq<Asset>) {
    forall i :: 0 <= i < |assets| && assets[i].parent.Under? ==>
      assets[i].parent.parent in t || exists j: nat :: Names(assets, j, assets[i].parent.parent)
  }

  lemma {:induction false} InsertedKeys(t: Parents, assets: seq<Asset>, id: Id)
    ensures id in InsertAll(t, assets) <==> id in t || exists i: nat :: Names(assets, i, id)
    ensures id in InsertAll(t, assets) ==> InsertAll(t, assets)[id] == if id in t then t[id] else None
    decreases |assets|
  {
    if |assets| > 0 {
      var last := |assets| - 1;
      InsertedKeys(t, assets[..last], id);
      if id in InsertAll(t, assets[..last]) && id !in t {
        var i: nat :| Names(assets[..last], i, id);
        assert Names(assets, i, id);
      }
      if assets[last].id == id { assert Names(assets, last, id); }
      if i: nat :| Names(assets, i, id) && i < last { assert Names(assets[..last], i, id); }
    }
  }

  /** Every entry that names a parent names a known one, or the updates fail. */
  lemma {:induction false} SetParentsSucceeds(t: Parents, assets: seq<Asset>)
    requires forall i :: 0 <= i < |assets| ==> assets[i].id in t
    ensures SetParents(t, assets).Some? <==>
      forall i :: 0 <= i < |assets| && assets[i].parent.Under? ==> assets[i].parent.parent in t
    ensures SetParents(t, assets).Some? ==> SetParents(t, assets).value.Keys == t.Keys
    decreases |assets|
  {
    if |assets| > 0 {
      var last := |assets| - 1;
      assert forall i :: 0 <= i < last ==> assets[..last][i] == assets[i];
      SetParentsSucceeds(t, assets[..last]);
      assert assets[last].id in t;
    }
  }

  lemma {:induction false} SetParentsHang(t: Parents, assets: seq<Asset>, id: Id)
    requires (forall i :: 0 <= i < |assets| ==> assets[i].id in t) && SetParents(t, assets).Some? && id in t
    ensures id in SetParents(t, assets).value
    ensures HangsAsAsked(t, assets, SetParents(t, assets).value, id)
    decreases |assets|
  {
    SetParentsSucceeds(t, assets);
    if |assets| == 0 {
      assert forall i: nat :: !Decides(assets, i, id);
    } else {
      var last := |assets| - 1;
      var init := assets[..last];
      assert SetParents(t, init).Some? && SetParents(t, assets).value == SetParent(SetParents(t, init).value, assets[last]);
      hide *;
      assert forall i :: 0 <= i < last ==> init[i] == assets[i];
      SetParentsSucceeds(t, init);
      SetParentsHang(t, init, id);
      LastEntryDecides(assets, id);
      OneMoreHangs(t, SetParents(t, init).value, assets, id);
    }
  }

  lemma OneMoreHangs(t: Parents, before: Parents, assets: seq<Asset>, id: Id)
    requires |assets| > 0 && assets[|assets| - 1].id in before
    requires var last := |assets| - 1;
      && id in before && HangsAsAsked(t, assets[..last], before, id)
      && forall i: nat :: Decides(assets, i, id) <==>
           if assets[last].id == id && !assets[last].parent.Unset? then i == last else Decides(assets[..last], i, id)
    ensures id in SetParent(before, assets[|assets| - 1])
    ensures HangsAsAsked(t, assets, SetParent(before, assets[|assets| - 1]), id)
  {
    var last := |assets| - 1;
    var init := assets[..last];
    assert forall i: nat :: Decides(init, i, id) ==> i < last && init[i] == assets[i];
    hide Decides;
    if assets[last].id == id && !assets[last].parent.Unset? { assert Decides(assets, last, id); }
  }

  lemma LastEntryDecides(assets: seq<Asset>, id: Id)
    requires |assets| > 0
    ensures var last := |assets| - 1;
      forall i: nat :: Decides(assets, i, id) <==>
        if assets[last].id == id && !assets[last].parent.Unset? then i == last else Decides(assets[..last], i, id)
  {
    var last := |assets| - 1;
    var init := assets[..last];
    forall i: nat
      ensures Decides(assets, i, id) <==>
        if assets[last].id == id && !assets[last].parent.Unset? then i == last else Decides(init, i, id)
    {
      assert forall j: nat :: Names(init, j, id) <==> j < last && Names(assets, j, id);
      if assets[last].id == id { assert Names(assets, last, id); }
    }
  }

  lemma AsAskedIsUnique(t: Parents, assets: seq<Asset>, a: Parents, b: Parents)
    requires AsAsked(t, assets, a) && AsAsked(t, assets, b)
    ensures a == b
  {
    forall id | id in a
      ensures id in b && a[id] == b[id]
    {
      assert HangsAsAsked(t, assets, a, id) && HangsAsAsked(t, assets, b, id);
    }
  }

  /**
   * A bundle of assets is accepted exactly if the parents it names are known, there or in the bundle, and hanging
   * every asset from the parent it was asked to hang from makes no cycle; then that is the hierarchy it leaves.
   */
  lemma UpsertDoesAsAsked(t: Parents, assets: seq<Asset>, u: Parents)
    ensures Upserted(t, assets) == Some(u) <==> AsAsked(t, assets, u) && NamedParentsKnown(t, assets) && !HasCycle(u)
  {
    var inserted := InsertAll(t, assets);
    var r := SetParents(inserted, assets);
    InsertedIsComplete(t, assets);
    SetParentsSucceeds(inserted, assets);
    KnownMeansInserted(t, assets);
    hide *;
    if r.Some? {
      SetIsAsAsked(t, assets);
      WalkDecidesCycles(r.value);
      if AsAsked(t, assets, u) { AsAskedIsUnique(t, assets, u, r.value); }
    }
    UpsertedMeans(t, assets, u);
  }

  lemma UpsertedMeans(t: Parents, assets: seq<Asset>, u: Parents)
    ensures Upserted(t, assets) == Some(u) <==> SetParents(InsertAll(t, assets), assets) == Some(u) && !CycleReported(u)
  {
  }

  lemma InsertedIsComplete(t: Parents, assets: seq<Asset>)
    ensures forall i :: 0 <= i < |assets| ==> assets[i].id in InsertAll(t, assets)
  {
    forall i | 0 <= i < |assets|
      ensures assets[i].id in InsertAll(t, assets)
    {
      InsertedKeys(t, assets, assets[i].id);
      assert Names(assets, i, assets[i].id);
    }
  }

  lemma KnownMeansInserted(t: Parents, assets: seq<Asset>)
    ensures NamedParentsKnown(t, assets) <==>
      forall i :: 0 <= i < |assets| && assets[i].parent.Under? ==> assets[i].parent.parent in InsertAll(t, assets)
  {
    forall i | 0 <= i < |assets| && assets[i].parent.Under?
      ensures assets[i].parent.parent in InsertAll(t, assets) <==>
        assets[i].parent.parent in t || exists j: nat :: Names(assets, j, assets[i].parent.parent)
    {
      InsertedKeys(t, assets, assets[i].parent.parent);
    }
  }

  lemma SetIsAsAsked(t: Parents, assets: seq<Asset>)
    requires SetParents(InsertAll(t, assets), assets).Some?
    ensures AsAsked(t, assets, SetParents(InsertAll(t, assets), assets).value)
  {
    var u := SetParents(InsertAll(t, assets), assets).value;
    forall id
      ensures id in u <==> id in t || exists i: nat :: Names(assets, i, id)
      ensures id in u ==> HangsAsAsked(t, assets, u, id)
    {
      AssetIsAsAsked(t, assets, id);
    }
    hide *;
    AllAreAsAsked(t, assets, u);
  }

  lemma AllAreAsAsked(t: Parents, assets: seq<Asset>, u: Parents)
    requires forall id :: id in u <==> id in t || exists i: nat :: Names(assets, i, id)
    requires forall id :: id in u ==> HangsAsAsked(t, assets, u, id)
    ensures AsAsked(t, assets, u)
  {
  }

  lemma AssetIsAsAsked(t: Parents, assets: seq<Asset>, id: Id)
    requires SetParents(InsertAll(t, assets), assets).Some?
    ensures var u := SetParents(InsertAll(t, assets), assets).value;
      (id in u <==> id in t || exists i: nat :: Names(assets, i, id)) && (id in u ==> HangsAsAsked(t, assets, u, id))
  {
    var inserted := InsertAll(t, assets);
    var u := SetParents(inserted, assets).value;
    InsertedIsComplete(t, assets);
    SetParentsSucceeds(inserted, assets);
    InsertedKeys(t, assets, id);
    if id in inserted { SetParentsHang(inserted, assets, id); }
    hide *;
    SameFallback(t, inserted, assets, u, id);
  }

  lemma SameFallback(t: Parents, inserted: Parents, assets: seq<Asset>, u: Parents, id: Id)
    requires id in u ==> id in inserted && HangsAsAsked(inserted, assets, u, id)
    requires id in inserted ==> inserted[id] == if id in t then t[id] else None
    ensures id in u ==> HangsAsAsked(t, assets, u, id)
  {
    hide Decides;
  }

  // --- The hierarchy stays a forest ---

  ghost predicate ParentsPresent(t: Parents) {
    forall id :: id in t && t[id].Some? ==> t[id].value in t
  }

  /** Every parent exists, and no asset is its own ancestor. */
  ghost predicate Forest(t: Parents) {
    ParentsPresent(t) && !HasCycle(t)
  }

  /** Every asset of a forest hangs, some steps up, from a root. */
  lemma EveryAssetHasRoot(t: Parents, id: Id) returns (k: nat)
    requires Forest(t) && id in t
    ensures Up(t, id, k).Some? && Up(t, id, k).value in t && t[Up(t, id, k).value].None?
  {
    WalkDecidesCycles(t);
    var end := UnreportedEnds(t, [id]);
    k := LastStep(t, id, end);
  }

  lemma {:induction false} LastStep(t: Parents, id: Id, end: nat) returns (k: nat)
    requires Forest(t) && id in t && Up(t, id, end).None?
    ensures Up(t, id, k).Some? && Up(t, id, k).value in t && t[Up(t, id, k).value].None?
  {
    if Up(t, id, end - 1).None? {
      k := LastStep(t, id, end - 1);
    } else {
      k := end - 1;
      StaysInside(t, id, k);
    }
  }

  lemma {:induction false} StaysInside(t: Parents, id: Id, k: nat)
    requires ParentsPresent(t) && id in t && Up(t, id, k).Some?
    ensures Up(t, id, k).value in t
  {
    if k > 0 { StaysInside(t, id, k - 1); }
  }

  lemma SetParentKeepsPresent(t: Parents, asset: Asset)
    requires ParentsPresent(t) && asset.id in t && (asset.parent.Under? ==> asset.parent.parent in t)
    ensures ParentsPresent(SetParent(t, asset)) && SetParent(t, asset).Keys == t.Keys
  {
  }

  lemma {:induction false} ParentsExist(t: Parents, assets: seq<Asset>)
    requires ParentsPresent(t)
    requires SetParents(t, assets).Some? && forall i :: 0 <= i < |assets| ==> assets[i].id in t
    ensures var after := SetParents(t, assets).value; after.Keys == t.Keys && ParentsPresent(after)
  {
    hide ParentsPresent;
    if |assets| > 0 {
      var init := assets[..|assets| - 1];
      assert forall i :: 0 <= i < |init| ==> init[i] == assets[i];
      ParentsExist(t, init);
      SetParentKeepsPresent(SetParents(t, init).value, assets[|assets| - 1]);
    }
  }

  lemma {:induction false} InsertedAreRoots(t: Parents, assets: seq<Asset>)
    requires ParentsPresent(t)
    ensures var after := InsertAll(t, assets);
      && ParentsPresent(after)
      && (forall i :: 0 <= i < |assets| ==> assets[i].id in after)
      && (forall id :: id in t ==> id in after)
  {
    if |assets| > 0 {
      InsertedAreRoots(t, assets[..|assets| - 1]);
      assert forall i :: 0 <= i < |assets| - 1 ==> assets[..|assets| - 1][i] == assets[i];
    }
  }

  lemma UpsertKeepsForest(t: Parents, assets: seq<Asset>)
    requires Forest(t) && Upserted(t, assets).Some?
    ensures Forest(Upserted(t, assets).value)
  {
    InsertedAreRoots(t, assets);
    ParentsExist(InsertAll(t, assets), assets);
    WalkDecidesCycles(Upserted(t, assets).value);
  }

  /** The hierarchy after serialised ingests, of which the failed ones roll back. */
  function AfterAll(t: Parents, bundles: seq<seq<Asset>>): Parents
    decreases |bundles|
  {
    if |bundles| == 0 then t
    else
      var next := Upserted(t, bundles[0]);
      AfterAll(if next.Some? then next.value else t, bundles[1..])
  }

  /** In every reachable state the assets form a forest. */
  lemma {:induction false} IngestsKeepForest(t: Parents, bundles: seq<seq<Asset>>)
    requires Forest(t)
    ensures Forest(AfterAll(t, bundles))
    decreases |bundles|
  {
    if |bundles| > 0 {
      var next := Upserted(t, bundles[0]);
      if next.Some? { UpsertKeepsForest(t, bundles[0]); }
      IngestsKeepForest(if next.Some? then next.value else t, bundles[1..]);
    }
  }
}
