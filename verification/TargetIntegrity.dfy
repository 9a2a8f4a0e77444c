/** The SQL integrity query of the importer (apps/api/src/cutover-import.ts) against the preflight checks. */
module TargetIntegrity {
  import opened CanonicalText
  import opened Preflight

  datatype ScopeRow = ScopeRow(workspaceId: Id, tenantId: string, projectId: string)

  // --- SQL aggregates over one group of revisions ---

  function Versions<S>(h: seq<Revision<S>>): (r: seq<int>)
    ensures |r| == |h| && forall k :: 0 <= k < |h| ==> r[k] == h[k].version
  {
    seq(|h|, k requires 0 <= k < |h| => h[k].version)
  }

  function Min(vs: seq<int>): (m: int)
    requires |vs| > 0
    ensures m in vs && forall v :: v in vs ==> m <= v
  {
    if |vs| == 1 then vs[0] else
      var rest := Min(vs[1..]);
      assert vs == [vs[0]] + vs[1..];
      if vs[0] < rest then vs[0] else rest
  }

  function Max(vs: seq<int>): (m: int)
    requires |vs| > 0
    ensures m in vs && forall v :: v in vs ==> v <= m
  {
    if |vs| == 1 then vs[0] else
      var rest := Max(vs[1..]);
      assert vs == [vs[0]] + vs[1..];
      if rest < vs[0] then vs[0] else rest
  }

  predicate Distinct(vs: seq<int>) {
    forall i, j :: 0 <= i < j < |vs| ==> vs[i] != vs[j]
  }

  function UpTo(n: nat): (r: set<int>)
    ensures |r| == n && forall v :: v in r <==> 1 <= v <= n
  {
    if n == 0 then {} else UpTo(n - 1) + {n}
  }

  function Elements(vs: seq<int>): (r: set<int>)
    ensures forall v :: v in r <==> v in vs
  {
    if |vs| == 0 then {} else
      assert vs == vs[..|vs| - 1] + [vs[|vs| - 1]];
      Elements(vs[..|vs| - 1]) + {vs[|vs| - 1]}
  }

  lemma {:induction false} DistinctCardinality(vs: seq<int>)
    requires Distinct(vs)
    ensures |Elements(vs)| == |vs|
  {
    if |vs| > 0 {
      DistinctCardinality(vs[..|vs| - 1]);
      assert vs[|vs| - 1] !in vs[..|vs| - 1];
    }
  }

  lemma {:induction false} SubsetOfSameSize<T>(a: set<T>, b: set<T>)
    requires a <= b && |a| == |b|
    ensures a == b
  {
    if a == {} {
      assert |b| == 0;
    } else {
      var x :| x in a;
      SubsetOfSameSize(a - {x}, b - {x});
    }
  }

  /** Pigeonhole: unique versions with minimum 1 and maximum equal to their count are exactly 1..n. */
  lemma HistoryCheckIsExact(vs: seq<int>)
    requires Distinct(vs) && |vs| > 0
    ensures (Min(vs) == 1 && Max(vs) == |vs|) <==> (forall v :: v in vs <==> 1 <= v <= |vs|)
  {
    DistinctCardinality(vs);
    if Min(vs) == 1 && Max(vs) == |vs| {
      SubsetOfSameSize(Elements(vs), UpTo(|vs|));
    }
    if forall v :: v in vs <==> 1 <= v <= |vs| {
      assert 1 in vs && |vs| in vs;
    }
  }

  // --- verifyTargetIntegrity, as predicates that hold where the query reports no fault ---

  predicate CurrentRevisionsMatch<S, K(==)>(b: Bundle<S>, same: S -> K) {
    forall i :: 0 <= i < |b.workspaces| ==> CurrentRevisionMatches(b.workspaces[i], b, same)
  }

  predicate CurrentRevisionMatches<S, K(==)>(w: Workspace<S>, b: Bundle<S>, same: S -> K) {
    && (exists j :: 0 <= j < |b.revisions| && IsCurrent(b.revisions[j], w))
    && (forall j :: 0 <= j < |b.revisions| && IsCurrent(b.revisions[j], w) ==>
          same(b.revisions[j].snapshot) == same(w.snapshot))
  }

  predicate IsCurrent<S>(r: Revision<S>, w: Workspace<S>) {
    r.workspaceId == w.id && r.version == w.version
  }

  /** GROUP BY workspace_id HAVING min(version) <> 1 OR max(version) <> count(*) finds no group. */
  predicate HistoriesComplete<S>(b: Bundle<S>) {
    forall i :: 0 <= i < |b.revisions| ==> GroupComplete(b, b.revisions[i].workspaceId)
  }

  predicate GroupComplete<S>(b: Bundle<S>, id: Id) {
    var vs := Versions(History(b.revisions, id));
    |vs| > 0 ==> Min(vs) == 1 && Max(vs) == |vs|
  }

  predicate OwnersPresent<S>(b: Bundle<S>) {
    forall i :: 0 <= i < |b.workspaces| ==> HasOwner(b.members, b.workspaces[i].id)
  }

  predicate ScopesMatch<S>(b: Bundle<S>, scopes: seq<ScopeRow>, tenant: string, project: string) {
    forall i :: 0 <= i < |b.workspaces| ==> ScopeMatches(b.workspaces[i].id, scopes, tenant, project)
  }

  predicate ScopeMatches(id: Id, scopes: seq<ScopeRow>, tenant: string, project: string) {
    && (exists j :: 0 <= j < |scopes| && scopes[j].workspaceId == id)
    && (forall j :: 0 <= j < |scopes| && scopes[j].workspaceId == id ==>
          scopes[j].tenantId == tenant && scopes[j].projectId == project)
  }

  predicate PassesIntegrity<S, K(==)>(
      b: Bundle<S>, scopes: seq<ScopeRow>, tenant: string, project: string, same: S -> K) {
    CurrentRevisionsMatch(b, same) && HistoriesComplete(b) && OwnersPresent(b) && ScopesMatch(b, scopes, tenant, project)
  }

  // --- What the primary key and the ORDER BY of the export give ---

  /** Revisions of one workspace are unique and in version order. */
  ghost predicate Ordered<S(!new)>(b: Bundle<S>) {
    forall id :: Increasing(Versions(History(b.revisions, id)))
  }

  predicate Increasing(vs: seq<int>) {
    forall i, j :: 0 <= i < j < |vs| ==> vs[i] < vs[j]
  }

  lemma {:induction false} AtLeast(vs: seq<int>, k: nat)
    requires Increasing(vs) && k < |vs| && vs[0] >= 1
    ensures vs[k] >= k + 1
  {
    if k > 0 { AtLeast(vs, k - 1); }
  }

  lemma {:induction false} AtMost(vs: seq<int>, k: nat)
    requires Increasing(vs) && k < |vs| && vs[|vs| - 1] <= |vs|
    ensures vs[k] <= k + 1
    decreases |vs| - k
  {
    if k < |vs| - 1 { AtMost(vs, k + 1); }
  }

  lemma HistoryCheckMeansContiguous<S>(h: seq<Revision<S>>)
    requires |h| > 0 && Increasing(Versions(h))
    ensures Contiguous(h) <==> Min(Versions(h)) == 1 && Max(Versions(h)) == |h|
  {
    var vs := Versions(h);
    assert vs[0] in vs && vs[|vs| - 1] in vs;
    if Min(vs) == 1 && Max(vs) == |h| {
      forall k | 0 <= k < |h|
        ensures h[k].version == k + 1
      {
        AtLeast(vs, k);
        AtMost(vs, k);
      }
    }
    if Contiguous(h) {
      assert forall v :: v in vs ==> 1 <= v <= |vs|;
    }
  }

  lemma {:induction false} InHistory<S>(revisions: seq<Revision<S>>, i: nat) returns (k: nat)
    requires i < |revisions|
    ensures k < |History(revisions, revisions[i].workspaceId)|
         && History(revisions, revisions[i].workspaceId)[k] == revisions[i]
  {
    var n := |revisions| - 1;
    if i == n {
      k := |History(revisions[..n], revisions[i].workspaceId)|;
    } else {
      k := InHistory(revisions[..n], i);
    }
  }

  /** One workspace as the SQL query sees it: its current row is some revision of a complete history. */
  ghost predicate BackedWorkspace<S(!new), K>(w: Workspace<S>, b: Bundle<S>, same: S -> K) {
    var h := History(b.revisions, w.id);
    && HasOwner(b.members, w.id)
    && Contiguous(h) && 0 < w.version <= |h|
    && same(h[w.version - 1].snapshot) == same(w.snapshot)
  }

  lemma BackedIsCurrent<S(!new), K>(w: Workspace<S>, b: Bundle<S>, same: S -> K)
    requires Contiguous(History(b.revisions, w.id))
    ensures (0 < w.version <= |History(b.revisions, w.id)|
             && same(History(b.revisions, w.id)[w.version - 1].snapshot) == same(w.snapshot))
      <==> CurrentRevisionMatches(w, b, same)
  {
    var h := History(b.revisions, w.id);
    forall j | 0 <= j < |b.revisions| && IsCurrent(b.revisions[j], w)
      ensures 0 < w.version <= |h| && b.revisions[j] == h[w.version - 1]
    {
      var k := InHistory(b.revisions, j);
    }
    if 0 < w.version <= |h| {
      var j := HistoryAt(b.revisions, w.id, w.version - 1);
      assert IsCurrent(b.revisions[j], w);
    }
  }

  ghost predicate HistoriesContiguous<S(!new)>(b: Bundle<S>) {
    forall id :: Contiguous(History(b.revisions, id))
  }

  lemma GroupsAreWorkspaces<S(!new)>(b: Bundle<S>)
    requires References(b) && Ordered(b)
    ensures HistoriesComplete(b) <==> HistoriesContiguous(b)
  {
    forall id
      ensures GroupComplete(b, id) <==> Contiguous(History(b.revisions, id))
    {
      assert Increasing(Versions(History(b.revisions, id)));
      if |History(b.revisions, id)| > 0 { HistoryCheckMeansContiguous(History(b.revisions, id)); }
    }
    if HistoriesComplete(b) {
      forall id
        ensures Contiguous(History(b.revisions, id))
      {
        if |History(b.revisions, id)| > 0 {
          var i := HistoryAt(b.revisions, id, 0);
          assert GroupComplete(b, b.revisions[i].workspaceId);
        }
      }
    }
    if HistoriesContiguous(b) {
      forall i | 0 <= i < |b.revisions|
        ensures GroupComplete(b, b.revisions[i].workspaceId)
      {
        assert Contiguous(History(b.revisions, b.revisions[i].workspaceId));
      }
      assert HistoriesComplete(b);
    }
  }

  lemma HistoriesOfWorkspaces<S(!new)>(b: Bundle<S>)
    requires References(b)
    requires forall i :: 0 <= i < |b.workspaces| ==> Contiguous(History(b.revisions, b.workspaces[i].id))
    ensures HistoriesContiguous(b)
  {
    forall id
      ensures Contiguous(History(b.revisions, id))
    {
      if |History(b.revisions, id)| > 0 {
        var i := HistoryAt(b.revisions, id, 0);
        assert HasWorkspace(b.workspaces, b.revisions[i].workspaceId);
      }
    }
  }

  /** Each workspace has a scope row, and all of its scope rows are of the target. */
  ghost predicate ScopedInTarget<S>(b: Bundle<S>, scopes: seq<ScopeRow>, tenant: string, project: string) {
    && (forall i :: 0 <= i < |b.workspaces| ==> ScopeRow(b.workspaces[i].id, tenant, project) in scopes)
    && (forall i, row :: 0 <= i < |b.workspaces| && row in scopes && row.workspaceId == b.workspaces[i].id ==>
          row == ScopeRow(b.workspaces[i].id, tenant, project))
  }

  lemma ScopesMatchExactly<S(!new)>(b: Bundle<S>, scopes: seq<ScopeRow>, tenant: string, project: string)
    ensures ScopesMatch(b, scopes, tenant, project) <==> ScopedInTarget(b, scopes, tenant, project)
  {
    forall i | 0 <= i < |b.workspaces|
      ensures var id := b.workspaces[i].id;
        ScopeMatches(id, scopes, tenant, project) <==>
          && ScopeRow(id, tenant, project) in scopes
          && forall row :: row in scopes && row.workspaceId == id ==> row == ScopeRow(id, tenant, project)
    {
      var id := b.workspaces[i].id;
      if ScopeMatches(id, scopes, tenant, project) {
        var j :| 0 <= j < |scopes| && scopes[j].workspaceId == id;
        assert scopes[j] == ScopeRow(id, tenant, project);
      }
    }
    hide ScopeMatches;
  }

  /** Exactly what the SQL query establishes about imported rows. */
  lemma IntegrityIsBacking<S(!new), K>(
      b: Bundle<S>, scopes: seq<ScopeRow>, tenant: string, project: string, same: S -> K)
    requires References(b) && Ordered(b)
    ensures PassesIntegrity(b, scopes, tenant, project, same) <==>
      (ScopedInTarget(b, scopes, tenant, project)
        && forall i :: 0 <= i < |b.workspaces| ==> BackedWorkspace(b.workspaces[i], b, same))
  {
    ScopesMatchExactly(b, scopes, tenant, project);
    hide ScopesMatch;
    hide ScopedInTarget;
    hide HistoriesComplete;
    hide Ordered;
    hide References;
    GroupsAreWorkspaces(b);
    if PassesIntegrity(b, scopes, tenant, project, same) {
      forall i | 0 <= i < |b.workspaces|
        ensures BackedWorkspace(b.workspaces[i], b, same)
      {
        assert Contiguous(History(b.revisions, b.workspaces[i].id));
        assert CurrentRevisionMatches(b.workspaces[i], b, same);
        BackedIsCurrent(b.workspaces[i], b, same);
      }
    }
    if forall i :: 0 <= i < |b.workspaces| ==> BackedWorkspace(b.workspaces[i], b, same) {
      HistoriesOfWorkspaces(b);
      forall i | 0 <= i < |b.workspaces|
        ensures CurrentRevisionMatches(b.workspaces[i], b, same)
      {
        BackedIsCurrent(b.workspaces[i], b, same);
      }
    }
  }

  lemma {:induction false} SoundIsOrdered<S(!new), K>(b: Bundle<S>, same: S -> K)
    requires Sound(b, same)
    ensures Ordered(b)
  {
    HistoriesOfWorkspaces(b);
    forall id
      ensures Increasing(Versions(History(b.revisions, id)))
    {
      assert Contiguous(History(b.revisions, id));
    }
  }

  function ScopeRows<S>(workspaces: seq<Workspace<S>>, tenant: string, project: string): (r: seq<ScopeRow>)
    ensures |r| == |workspaces|
    ensures forall i :: 0 <= i < |r| ==> r[i] == ScopeRow(workspaces[i].id, tenant, project)
  {
    seq(|workspaces|, i requires 0 <= i < |workspaces| => ScopeRow(workspaces[i].id, tenant, project))
  }

  lemma ScopesOfRows<S(!new)>(b: Bundle<S>, tenant: string, project: string)
    ensures ScopesMatch(b, ScopeRows(b.workspaces, tenant, project), tenant, project)
  {
    var scopes := ScopeRows(b.workspaces, tenant, project);
    forall i | 0 <= i < |b.workspaces|
      ensures ScopeMatches(b.workspaces[i].id, scopes, tenant, project)
    {
      assert scopes[i] == ScopeRow(b.workspaces[i].id, tenant, project);
    }
  }

  /** A bundle that preflight accepts passes the SQL checks once its rows and their scopes are imported. */
  lemma AcceptedBundlePassesIntegrity<S(!new), K>(b: Bundle<S>, tenant: string, project: string, same: S -> K)
    requires Sound(b, same)
    ensures PassesIntegrity(b, ScopeRows(b.workspaces, tenant, project), tenant, project, same)
  {
    SoundIsOrdered(b, same);
    ScopesOfRows(b, tenant, project);
    hide ScopesMatch;
    hide Ordered;
    hide PassesIntegrity;
    forall i | 0 <= i < |b.workspaces|
      ensures BackedWorkspace(b.workspaces[i], b, same)
    {
      assert SoundWorkspace(b.workspaces[i], b, same);
    }
    IntegrityIsBacking(b, ScopeRows(b.workspaces, tenant, project), tenant, project, same);
  }

  /** Every workspace row points at the last revision of its history. */
  ghost predicate AllCurrent<S(!new)>(b: Bundle<S>) {
    forall i :: 0 <= i < |b.workspaces| ==> b.workspaces[i].version == |History(b.revisions, b.workspaces[i].id)|
  }

  /** What the SQL checks leave open: with unique keys, they mean soundness exactly where no workspace row is stale. */
  lemma IntegrityMeansSoundIfCurrent<S(!new), K>(
      b: Bundle<S>, scopes: seq<ScopeRow>, tenant: string, project: string, same: S -> K)
    requires References(b) && Ordered(b) && PassesIntegrity(b, scopes, tenant, project, same)
    ensures Sound(b, same) <==> AllCurrent(b)
  {
    IntegrityIsBacking(b, scopes, tenant, project, same);
    hide PassesIntegrity;
    hide Ordered;
    forall i | 0 <= i < |b.workspaces|
      ensures SoundWorkspace(b.workspaces[i], b, same) <==>
        b.workspaces[i].version == |History(b.revisions, b.workspaces[i].id)|
    {
      assert BackedWorkspace(b.workspaces[i], b, same);
    }
  }

  const STALE: Bundle<int> :=
    Bundle([Workspace("w", 7, 1)], [Revision("w", 1, 7, "c"), Revision("w", 2, 8, "c")], [Membership("w", "u", Owner)])

  lemma StaleHistory()
    ensures History(STALE.revisions, "w") == STALE.revisions
    ensures forall id :: id != "w" ==> History(STALE.revisions, id) == []
    ensures Ordered(STALE) && References(STALE)
  {
    var r := STALE.revisions;
    forall id
      ensures History(r, id) == if id == "w" then r else []
    {
      HistoryOfTwo(r, id);
    }
    assert STALE.workspaces[0].id == "w";
    hide History;
  }

  lemma HistoryOfTwo(r: seq<Revision<int>>, id: Id)
    requires |r| == 2 && r[0].workspaceId == r[1].workspaceId
    ensures History(r, id) == if r[0].workspaceId == id then r else []
  {
    assert r[..2] == r && r[..0] == [];
    assert History(r[..0], id) == [];
    hide History;
    HistorySnoc(r, 0, id);
    HistorySnoc(r, 1, id);
  }

  /** The SQL checks are weaker: they accept a workspace row that points at an older revision. */
  lemma IntegrityAcceptsStaleWorkspace(tenant: string, project: string)
    ensures PassesIntegrity(STALE, ScopeRows(STALE.workspaces, tenant, project), tenant, project, Itself<int>())
    ensures !Sound(STALE, Itself<int>())
  {
    hide PassesIntegrity;
    hide History;
    StaleHistory();
    assert IsOwner(STALE.members[0], "w");
    assert BackedWorkspace(STALE.workspaces[0], STALE, Itself<int>());
    ScopesOfRows(STALE, tenant, project);
    IntegrityIsBacking(STALE, ScopeRows(STALE.workspaces, tenant, project), tenant, project, Itself<int>());
    assert !SoundWorkspace(STALE.workspaces[0], STALE, Itself<int>());
  }
}
