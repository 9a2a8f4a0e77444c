/** What preflight makes of the SQLite states that the workspace methods can produce (apps/api/src/cutover-preflight.ts). */
module SqliteExport {
  import opened Common
  import opened KeyedList
  import opened Canvas
  import opened WorkspaceHistory
  import opened SnapshotRange
  import opened TargetIntegrity
  import B = Collation
  import P = Preflight
  import C = CutoverImport
  import M = CorrelationMapping

  /** What the JSON columns hold: canvases, the operations of an audited batch, or details without free values. */
  datatype Stored<V> = CanvasJson(snapshot: Snapshot<V>) | OperationsJson(operations: seq<Operation<V>>) | PlainJson

  // --- The SELECTs of the export ---

  ghost predicate ExportsWorkspaces<V(!new)>(s: State<V>, rows: seq<P.Workspace<Stored<V>>>) {
    && (forall i :: 0 <= i < |rows| ==>
          && rows[i].id in s.workspaces
          && rows[i].snapshot == CanvasJson(s.workspaces[rows[i].id].snapshot) && rows[i].version == s.workspaces[rows[i].id].version)
    && (forall id :: id in s.workspaces ==> P.HasWorkspace(rows, id))
    && (forall i, j :: 0 <= i < j < |rows| ==> rows[i].id != rows[j].id)
  }

  ghost predicate ExportsRevisions<V(!new)>(s: State<V>, rows: seq<P.Revision<Stored<V>>>) {
    && (forall i :: 0 <= i < |rows| ==>
          && (rows[i].workspaceId, rows[i].version) in s.revisions
          && rows[i].snapshot == CanvasJson(s.revisions[(rows[i].workspaceId, rows[i].version)].snapshot))
    && (forall id, k :: (id, k) in s.revisions ==> exists i :: 0 <= i < |rows| && rows[i].workspaceId == id && rows[i].version == k)
    && (forall i, j :: 0 <= i < j < |rows| && rows[i].workspaceId == rows[j].workspaceId ==> rows[i].version < rows[j].version)
  }

  ghost predicate ExportsMembers<V(!new)>(s: State<V>, rows: seq<P.Membership>) {
    && (forall i :: 0 <= i < |rows| ==>
          && (rows[i].workspaceId, rows[i].userId) in s.members
          && rows[i].role == s.members[(rows[i].workspaceId, rows[i].userId)])
    && (forall id, u :: (id, u) in s.members ==> exists i :: 0 <= i < |rows| && rows[i].workspaceId == id && rows[i].userId == u)
    && (forall i, j :: 0 <= i < j < |rows| ==>
          (rows[i].workspaceId, rows[i].userId) != (rows[j].workspaceId, rows[j].userId))
  }

  ghost predicate Exports<V(!new)>(s: State<V>, b: P.Bundle<Stored<V>>) {
    ExportsWorkspaces(s, b.workspaces) && ExportsRevisions(s, b.revisions) && ExportsMembers(s, b.members)
  }

  ghost predicate Logs<V(!new)>(rows: seq<C.AuditRow<Stored<V>>>, operations: seq<Operation<V>>) {
    exists i :: 0 <= i < |rows| && rows[i].details == OperationsJson(operations)
  }

  /** The audit log: its applied batches hold their operations, and its ids are unique. */
  ghost predicate ExportsAudit<V(!new)>(audited: seq<seq<Operation<V>>>, rows: seq<C.AuditRow<Stored<V>>>) {
    && (forall i :: 0 <= i < |rows| && rows[i].details.OperationsJson? ==> rows[i].details.operations in audited)
    && (forall i :: 0 <= i < |rows| ==> !rows[i].details.CanvasJson?)
    && (forall k :: 0 <= k < |audited| ==> Logs(rows, audited[k]))
    && (forall i, j :: 0 <= i < j < |rows| ==> rows[i].id != rows[j].id)
  }

  type Report<V> = C.Report<Stored<V>>

  /** What the export reads from a file in this state with these audited batches, each table in its ORDER BY. */
  ghost predicate IsExport<V(!new)>(s: State<V>, audited: seq<seq<Operation<V>>>, r: Report<V>) {
    Exports(s, r.bundle) && ExportsAudit(audited, r.audit) && C.Listed(r.bundle, r.audit, B.BinaryBefore())
  }

  ghost predicate IsExportOf<V(!new)>(calls: seq<Call<V>>, r: Report<V>) {
    IsExport(Run(Fresh(), calls), Audited(Fresh(), calls), r)
  }

  // --- Every history that was reached is accepted ---

  lemma {:induction false} ExportedHistoryIncreases<S>(rows: seq<P.Revision<S>>, id: Id)
    requires forall i, j :: 0 <= i < j < |rows| && rows[i].workspaceId == rows[j].workspaceId ==> rows[i].version < rows[j].version
    ensures Increasing(Versions(P.History(rows, id)))
  {
    if |rows| > 0 {
      var n := |rows| - 1;
      ExportedHistoryIncreases(rows[..n], id);
      var h := P.History(rows[..n], id);
      forall k | 0 <= k < |h| && rows[n].workspaceId == id
        ensures h[k].version < rows[n].version
      {
        var i := P.HistoryAt(rows[..n], id, k);
      }
    }
  }

  lemma ExportedHistoryIsComplete<V(!new)>(s: State<V>, b: P.Bundle<Stored<V>>, id: Id)
    requires Valid(s) && Exports(s, b) && id in s.workspaces
    ensures var h := P.History(b.revisions, id);
      P.Contiguous(h) && |h| == s.workspaces[id].version > 0
  {
    var h := P.History(b.revisions, id);
    var vs, n := Versions(h), s.workspaces[id].version;
    assert n >= 1 by { assert ValidWorkspace(s, id); }
    ExportedHistoryIncreases(b.revisions, id);
    ExportedVersionsAreAll(s, b, id);
    hide *;
    VersionsUpToCount(vs, n);
    HistoryCheckMeansContiguous(h);
  }

  lemma ExportedVersionsAreAll<V(!new)>(s: State<V>, b: P.Bundle<Stored<V>>, id: Id)
    requires Valid(s) && Exports(s, b) && id in s.workspaces
    ensures forall v :: v in Versions(P.History(b.revisions, id)) <==> 1 <= v <= s.workspaces[id].version
  {
    hide *;
    forall v
      ensures v in Versions(P.History(b.revisions, id)) <==> 1 <= v <= s.workspaces[id].version
    {
      ExportedVersions(s, b, id, v);
    }
  }

  lemma ExportedVersions<V(!new)>(s: State<V>, b: P.Bundle<Stored<V>>, id: Id, v: int)
    requires Valid(s) && Exports(s, b) && id in s.workspaces
    ensures v in Versions(P.History(b.revisions, id)) <==> 1 <= v <= s.workspaces[id].version
  {
    var vs := Versions(P.History(b.revisions, id));
    assert (id, v) in s.revisions <==> 1 <= v <= s.workspaces[id].version by { assert ValidWorkspace(s, id); }
    hide Valid;
    if k :| 0 <= k < |vs| && vs[k] == v {
      var i := P.HistoryAt(b.revisions, id, k);
      assert (b.revisions[i].workspaceId, b.revisions[i].version) in s.revisions;
    }
    if (id, v) in s.revisions {
      var i :| 0 <= i < |b.revisions| && b.revisions[i].workspaceId == id && b.revisions[i].version == v;
      var k := InHistory(b.revisions, i);
      assert vs[k] == v;
    }
  }

  lemma IncreasingIsDistinct(vs: seq<int>)
    requires Increasing(vs)
    ensures Distinct(vs)
  {
  }

  lemma VersionsUpToCount(vs: seq<int>, n: nat)
    requires Increasing(vs) && n > 0 && forall v :: v in vs <==> 1 <= v <= n
    ensures |vs| == n && Min(vs) == 1 && Max(vs) == n
  {
    hide *;
    IncreasingIsDistinct(vs);
    DistinctCardinality(vs);
    assert Elements(vs) == UpTo(n);
    assert 1 in vs && n in vs;
  }

  /** Preflight accepts the export of every valid state, however its snapshots are compared. */
  lemma ValidStatesAreSound<V(!new), K>(s: State<V>, b: P.Bundle<Stored<V>>, canonical: Stored<V> -> K)
    requires Valid(s) && Exports(s, b)
    ensures P.Sound(b, canonical)
  {
    ExportedReferences(s, b);
    forall i | 0 <= i < |b.workspaces|
      ensures P.SoundWorkspace(b.workspaces[i], b, canonical)
    {
      ExportedWorkspaceIsSound(s, b, canonical, i);
    }
  }

  lemma ExportedWorkspaceIsSound<V(!new), K>(s: State<V>, b: P.Bundle<Stored<V>>, canonical: Stored<V> -> K, i: nat)
    requires Valid(s) && Exports(s, b) && i < |b.workspaces|
    ensures P.SoundWorkspace(b.workspaces[i], b, canonical)
  {
    var w := b.workspaces[i];
    assert w.id in s.workspaces && w.snapshot == CanvasJson(s.workspaces[w.id].snapshot) && w.version == s.workspaces[w.id].version;
    ExportedHistoryIsComplete(s, b, w.id);
    ExportedCurrentRevision(s, b.revisions, w.id, s.workspaces[w.id].version);
    CurrentIsLastRevision(s, w.id);
    assert Owners(s, w.id) != {} by { assert ValidWorkspace(s, w.id); }
    ExportedOwner(s, b, w.id);
    hide Valid;
    hide Exports;
    hide P.HasOwner;
    hide P.History;
  }

  lemma ExportedCurrentRevision<V(!new)>(s: State<V>, rows: seq<P.Revision<Stored<V>>>, id: Id, n: nat)
    requires ExportsRevisions(s, rows) && n > 0
    requires var h := P.History(rows, id); P.Contiguous(h) && |h| == n
    ensures (id, n) in s.revisions && P.History(rows, id)[n - 1].snapshot == CanvasJson(s.revisions[(id, n)].snapshot)
  {
    var h := P.History(rows, id);
    LastVersion(h);
    var k := P.HistoryAt(rows, id, n - 1);
    ExportedRevisionAt(s, rows, k);
  }

  lemma LastVersion<S>(h: seq<P.Revision<S>>)
    requires P.Contiguous(h) && |h| > 0
    ensures h[|h| - 1].version == |h|
  {
  }

  lemma CurrentIsLastRevision<V(!new)>(s: State<V>, id: Id)
    requires Valid(s) && id in s.workspaces
    ensures (id, s.workspaces[id].version) in s.revisions
    ensures s.revisions[(id, s.workspaces[id].version)].snapshot == s.workspaces[id].snapshot
  {
    assert ValidWorkspace(s, id);
  }

  lemma ExportedRevisionAt<V(!new)>(s: State<V>, rows: seq<P.Revision<Stored<V>>>, k: nat)
    requires ExportsRevisions(s, rows) && k < |rows|
    ensures (rows[k].workspaceId, rows[k].version) in s.revisions
    ensures rows[k].snapshot == CanvasJson(s.revisions[(rows[k].workspaceId, rows[k].version)].snapshot)
  {
  }

  lemma ExportedReferences<V(!new)>(s: State<V>, b: P.Bundle<Stored<V>>)
    requires Valid(s) && Exports(s, b)
    ensures P.References(b)
  {
    forall i | 0 <= i < |b.revisions|
      ensures P.HasWorkspace(b.workspaces, b.revisions[i].workspaceId)
    {
      assert (b.revisions[i].workspaceId, b.revisions[i].version) in s.revisions;
    }
    forall i | 0 <= i < |b.members|
      ensures P.HasWorkspace(b.workspaces, b.members[i].workspaceId)
    {
      assert (b.members[i].workspaceId, b.members[i].userId) in s.members;
    }
  }

  lemma ExportedOwner<V(!new)>(s: State<V>, b: P.Bundle<Stored<V>>, id: Id)
    requires Exports(s, b) && Owners(s, id) != {}
    ensures P.HasOwner(b.members, id)
  {
    var key :| key in Owners(s, id);
    assert (key.0, key.1) in s.members;
    var i :| 0 <= i < |b.members| && b.members[i].workspaceId == key.0 && b.members[i].userId == key.1;
    assert P.IsOwner(b.members[i], id);
  }

  /** So whatever calls were made, from an empty file, the invariants of preflight hold. */
  lemma ReachableStatesAreSound<V(!new), K>(
      calls: seq<Call<V>>, b: P.Bundle<Stored<V>>, canonical: Stored<V> -> K)
    requires (forall i :: 0 <= i < |calls| ==> Admitted(calls[i])) && Exports(Run(Fresh(), calls), b)
    ensures P.Sound(b, canonical)
  {
    RunKeepsValid(Fresh(), calls);
    ValidStatesAreSound(Run(Fresh(), calls), b, canonical);
  }

  // --- The report: histories are never the reason to refuse it, scopes and large numbers are ---

  /** What the bundle schema admits of the JSON columns. */
  function AdmitsStored<V>(value: V -> bool): Stored<V> -> bool {
    (x: Stored<V>) =>
      match x
      case CanvasJson(snapshot) => AdmitsSnapshot(snapshot, value)
      case OperationsJson(operations) => AdmitsOperations(operations, value)
      case PlainJson => true
  }

  datatype ReportError = ScopedWorkspace | NotInSchema | Invalid(violation: P.Violation)

  ghost predicate Accepts<V(!new), K>(
      scopes: map<Id, Scope>, r: Report<V>, value: V -> bool, canonical: Stored<V> -> K)
  {
    scopes == map[] && C.AllJson(r.bundle, r.audit, AdmitsStored(value)) && P.Sound(r.bundle, canonical)
  }

  /** `scopes` is the table of workspace scopes, `r` the rows of the export. */
  method CreateReport<V(!new), K(==)>(
      scopes: map<Id, Scope>, r: Report<V>, value: V -> bool, canonical: Stored<V> -> K)
      returns (result: Result<Report<V>, ReportError>)
    ensures result.Ok? <==> Accepts(scopes, r, value, canonical)
    ensures result.Ok? ==> result.value == r
    ensures scopes != map[] ==> result == Error(ScopedWorkspace)
    ensures result == Error(NotInSchema) <==> scopes == map[] && !C.AllJson(r.bundle, r.audit, AdmitsStored(value))
  {
    if scopes != map[] {
      return Error(ScopedWorkspace);
    }
    if !C.AllJson(r.bundle, r.audit, AdmitsStored(value)) {
      return Error(NotInSchema);
    }
    var violation := P.ValidateInvariants(r.bundle, canonical);
    result := if violation.Some? then Error(Invalid(violation.value)) else Ok(r);
  }

  /** Some createWorkspace in the run succeeds. */
  predicate CreatesWorkspace<V>(s: State<V>, calls: seq<Call<V>>)
    decreases |calls|
  {
    |calls| > 0 && ((calls[0].Create? && Step(s, calls[0]).Ok?) || CreatesWorkspace(After(s, calls[0]), calls[1..]))
  }

  /** A run leaves a scope exactly when it created a workspace through the API. */
  lemma {:induction false} ScopesComeFromCreate<V(!new)>(s: State<V>, calls: seq<Call<V>>)
    ensures Run(s, calls).scopes != map[] <==> s.scopes != map[] || CreatesWorkspace(s, calls)
    decreases |calls|
  {
    if |calls| > 0 {
      var t := After(s, calls[0]);
      ScopesComeFromCreate(t, calls[1..]);
      if calls[0].Create? && Step(s, calls[0]).Ok? {
        assert calls[0].id in t.scopes;
      }
    }
  }

  /** An export holds admitted numbers only, exactly if every revision and every audited batch does. */
  lemma ExportedJsonIsRecorded<V(!new)>(s: State<V>, audited: seq<seq<Operation<V>>>, r: Report<V>, value: V -> bool)
    requires Valid(s) && IsExport(s, audited, r)
    ensures C.AllJson(r.bundle, r.audit, AdmitsStored(value)) <==>
      RevisionsAdmitted(s, value) && AuditAdmitted(audited, value)
  {
    hide C.Listed;
    if C.AllJson(r.bundle, r.audit, AdmitsStored(value)) {
      RecordedIfExported(s, audited, r, value);
    }
    if RevisionsAdmitted(s, value) && AuditAdmitted(audited, value) {
      ExportedIfRecorded(s, audited, r, value);
    }
  }

  lemma RevisionIsExported<V(!new)>(
      s: State<V>, rows: seq<P.Revision<Stored<V>>>, value: V -> bool, id: Id, version: int)
    requires ExportsRevisions(s, rows) && (id, version) in s.revisions
    requires forall i :: 0 <= i < |rows| ==> AdmitsStored(value)(rows[i].snapshot)
    ensures AdmitsSnapshot(s.revisions[(id, version)].snapshot, value)
  {
    hide AdmitsSnapshot;
    var i :| 0 <= i < |rows| && rows[i].workspaceId == id && rows[i].version == version;
    assert AdmitsStored(value)(rows[i].snapshot);
  }

  lemma BatchIsExported<V(!new)>(
      audited: seq<seq<Operation<V>>>, rows: seq<C.AuditRow<Stored<V>>>, value: V -> bool, k: nat)
    requires ExportsAudit(audited, rows) && k < |audited|
    requires forall i :: 0 <= i < |rows| ==> AdmitsStored(value)(rows[i].details)
    ensures AdmitsOperations(audited[k], value)
  {
    hide AdmitsOperations;
    assert Logs(rows, audited[k]);
    var i :| 0 <= i < |rows| && rows[i].details == OperationsJson(audited[k]);
    assert AdmitsStored(value)(rows[i].details);
  }

  lemma RecordedIfExported<V(!new)>(s: State<V>, audited: seq<seq<Operation<V>>>, r: Report<V>, value: V -> bool)
    requires IsExport(s, audited, r) && C.AllJson(r.bundle, r.audit, AdmitsStored(value))
    ensures RevisionsAdmitted(s, value) && AuditAdmitted(audited, value)
  {
    hide AdmitsSnapshot;
    hide AdmitsOperations;
    hide C.Listed;
    hide AdmitsStored;
    hide ExportsRevisions;
    hide ExportsAudit;
    forall key | key in s.revisions
      ensures AdmitsSnapshot(s.revisions[key].snapshot, value)
    {
      assert key == (key.0, key.1);
      RevisionIsExported(s, r.bundle.revisions, value, key.0, key.1);
    }
    forall k | 0 <= k < |audited|
      ensures AdmitsOperations(audited[k], value)
    {
      BatchIsExported(audited, r.audit, value, k);
    }
  }

  lemma ExportedIfRecorded<V(!new)>(s: State<V>, audited: seq<seq<Operation<V>>>, r: Report<V>, value: V -> bool)
    requires Valid(s) && IsExport(s, audited, r) && RevisionsAdmitted(s, value) && AuditAdmitted(audited, value)
    ensures C.AllJson(r.bundle, r.audit, AdmitsStored(value))
  {
    hide AdmitsSnapshot;
    hide AdmitsOperations;
    hide C.Listed;
    forall i | 0 <= i < |r.bundle.workspaces|
      ensures AdmitsStored(value)(r.bundle.workspaces[i].snapshot)
    {
      CurrentIsLastRevision(s, r.bundle.workspaces[i].id);
    }
    forall i | 0 <= i < |r.bundle.revisions|
      ensures AdmitsStored(value)(r.bundle.revisions[i].snapshot)
    {
      ExportedRevisionAt(s, r.bundle.revisions, i);
    }
    forall i | 0 <= i < |r.audit|
      ensures AdmitsStored(value)(r.audit[i].details)
    {
    }
  }

  /**
   * The export of whatever calls were made is accepted exactly if none of them created a workspace and every
   * recorded revision and audited batch holds only numbers that the bundle admits.
   */
  lemma AcceptedExactly<V(!new), K>(calls: seq<Call<V>>, r: Report<V>, value: V -> bool, canonical: Stored<V> -> K)
    requires (forall i :: 0 <= i < |calls| ==> Admitted(calls[i])) && IsExportOf(calls, r)
    ensures var s := Run(Fresh(), calls);
      Accepts(s.scopes, r, value, canonical) <==>
        !CreatesWorkspace(Fresh(), calls) && RevisionsAdmitted(s, value) && AuditAdmitted(Audited(Fresh(), calls), value)
  {
    RunKeepsValid(Fresh(), calls);
    assert Exports(Run(Fresh(), calls), r.bundle);
    ReachableStatesAreSound(calls, r.bundle, canonical);
    ScopesComeFromCreate(Fresh(), calls);
    ExportedJsonIsRecorded(Run(Fresh(), calls), Audited(Fresh(), calls), r, value);
    hide *;
    AcceptsMeans(Run(Fresh(), calls).scopes, r, value, canonical);
    FreshHasNoScopes<V>();
  }

  lemma AcceptsMeans<V(!new), K>(scopes: map<Id, Scope>, r: Report<V>, value: V -> bool, canonical: Stored<V> -> K)
    ensures Accepts(scopes, r, value, canonical) <==>
      scopes == map[] && C.AllJson(r.bundle, r.audit, AdmitsStored(value)) && P.Sound(r.bundle, canonical)
  {
  }

  lemma FreshHasNoScopes<V>()
    ensures Fresh<V>().scopes == map[]
  {
  }

  /** A run whose calls carry only admitted values, and that creates no workspace, is accepted. */
  lemma AdmittedRunIsAccepted<V(!new), K>(
      calls: seq<Call<V>>, r: Report<V>, value: V -> bool, canonical: Stored<V> -> K)
    requires forall i :: 0 <= i < |calls| ==> Admitted(calls[i]) && AdmitsCall(calls[i], value)
    requires IsExportOf(calls, r) && !CreatesWorkspace(Fresh(), calls)
    ensures Accepts(Run(Fresh(), calls).scopes, r, value, canonical)
  {
    AcceptedExactly(calls, r, value, canonical);
    RunKeepsAdmitted(Fresh(), calls, value);
    AuditOfAdmittedCalls(Fresh(), calls, value);
  }

  /** One value that is not admitted, in a revision or only in the log, refuses every later export. */
  lemma RefusedForGood<V(!new), K>(
      first: seq<Call<V>>, later: seq<Call<V>>, r: Report<V>, value: V -> bool, canonical: Stored<V> -> K)
    requires (forall i :: 0 <= i < |first| ==> Admitted(first[i])) && (forall i :: 0 <= i < |later| ==> Admitted(later[i]))
    requires !RevisionsAdmitted(Run(Fresh(), first), value) || !AuditAdmitted(Audited(Fresh(), first), value)
    requires IsExportOf(first + later, r)
    ensures !Accepts(Run(Fresh(), first + later).scopes, r, value, canonical)
  {
    InadmissibleStays(first, later, value);
    AcceptedExactly(first + later, r, value, canonical);
  }

  // --- Two runs without createWorkspace that are refused ---

  const ONE_NODE: Snapshot<int> := Snapshot(Viewport(0.0, 0.0, 1.0), [Item("n", NodeBody("t", Position(0.0, 0.0), map[]))], [])

  const FAR := Position(10000000000000000.0, 0.0)
  const NEAR := Position(1.0, 0.0)

  /** A seeded workspace, and one batch by its owner. */
  function SeedThen(operations: seq<Operation<int>>): seq<Call<int>> {
    [Seed("w", ONE_NODE, map["u" := P.Owner]), ApplyOperations("w", "u", 1, operations, "moved", None)]
  }

  function Seeded(): State<int> {
    State(map["w" := WorkspaceRow(ONE_NODE, 1, "system")],
          map[("w", 1) := RevisionRow(ONE_NODE, "Seeded canvas", "system")], map[("w", "u") := P.Owner], map[])
  }

  lemma SeedSteps()
    ensures Admitted(SeedThen([])[0]) && After(Fresh<int>(), SeedThen([])[0]) == Seeded()
  {
    var people: map<Id, P.Role> := map["u" := P.Owner];
    assert "u" in people && people["u"] == P.Owner;
    OneMember(people);
    hide InsertMissing;
  }

  lemma OneMember(people: map<Id, P.Role>)
    requires people == map["u" := P.Owner]
    ensures InsertMissing(map[], "w", people) == map[("w", "u") := P.Owner]
  {
  }

  lemma BatchSteps(operations: seq<Operation<int>>)
    requires Apply(ONE_NODE, operations).Some?
    ensures Step(Seeded(), SeedThen(operations)[1])
         == Ok(Append(Seeded(), "w", RevisionRow(Apply(ONE_NODE, operations).value, "moved", "u")))
  {
    hide Apply;
    assert MemberRole(Seeded(), "w", "u", None) == Ok(P.Owner);
  }

  lemma RunOfTwo(s: State<int>, t: State<int>, calls: seq<Call<int>>)
    requires |calls| == 2 && After(s, calls[0]) == t && calls[0].Seed? && calls[1].ApplyOperations? && Step(t, calls[1]).Ok?
    ensures Run(s, calls) == After(t, calls[1]) && Audited(s, calls) == [calls[1].operations] && !CreatesWorkspace(s, calls)
  {
    var u, rest := After(t, calls[1]), calls[1..];
    assert rest == [calls[1]] && rest[1..] == [];
    hide Step;
    hide After;
    assert Run(u, []) == u && Audited(u, []) == [] && !CreatesWorkspace(u, []);
    assert Run(t, rest) == u && Audited(t, rest) == [calls[1].operations] && !CreatesWorkspace(t, rest);
  }

  lemma BatchOnSeed(operations: seq<Operation<int>>)
    requires Apply(ONE_NODE, operations).Some?
    ensures forall i :: 0 <= i < |SeedThen(operations)| ==> Admitted(SeedThen(operations)[i])
    ensures !CreatesWorkspace(Fresh(), SeedThen(operations))
    ensures Audited(Fresh(), SeedThen(operations)) == [operations]
    ensures var s := Run(Fresh(), SeedThen(operations));
      && s.revisions.Keys == {("w", 1), ("w", 2)}
      && s.revisions[("w", 1)].snapshot == ONE_NODE && s.revisions[("w", 2)].snapshot == Apply(ONE_NODE, operations).value
  {
    SeedSteps();
    BatchSteps(operations);
    RunOfTwo(Fresh(), Seeded(), SeedThen(operations));
    hide Apply;
    hide Step;
    hide Run;
    hide Audited;
    hide CreatesWorkspace;
    hide InsertMissing;
  }

  lemma MoveOnNode(a: Position, b: Position)
    ensures Edit(Moved(a), MoveNode("n", b)) == Ok(Moved(b)) && WellFormed(Moved(b))
  {
    var nodes := Moved(a).nodes;
    assert nodes[0].id == "n" && IndexOf(nodes, "n") == Some(0);
    assert nodes[0 := nodes[0].(body := nodes[0].body.(position := b))] == Moved(b).nodes;
  }

  lemma MovesOnNode(a: Position, b: Position)
    ensures Apply(ONE_NODE, [MoveNode("n", a)]) == Some(Moved(a))
    ensures Apply(ONE_NODE, [MoveNode("n", a), MoveNode("n", b)]) == Some(Moved(b))
  {
    var one: seq<Operation<int>>, two: seq<Operation<int>> := [MoveNode("n", a)], [MoveNode("n", a), MoveNode("n", b)];
    MoveOnNode(ONE_NODE.nodes[0].body.position, a);
    MoveOnNode(a, b);
    assert Moved(ONE_NODE.nodes[0].body.position) == ONE_NODE;
    assert EditAll(Moved(a), one[1..]) == Ok(Moved(a)) && two[1..][1..] == [];
    assert EditAll(Moved(a), two[1..]) == EditAll(Moved(b), []) == Ok(Moved(b));
  }

  function Moved(p: Position): Snapshot<int> {
    ONE_NODE.(nodes := [Item("n", NodeBody("t", p, map[]))])
  }

  /** A move beyond the safe integers, which the routes accept, is recorded and cannot be exported. */
  lemma FarMoveIsRefused<K>(r: Report<int>, value: int -> bool, canonical: Stored<int> -> K)
    requires IsExportOf(SeedThen([MoveNode("n", FAR)]), r)
    ensures !CreatesWorkspace(Fresh(), SeedThen([MoveNode("n", FAR)]))
    ensures !RevisionsAdmitted(Run(Fresh(), SeedThen([MoveNode("n", FAR)])), value)
    ensures !Accepts(Run(Fresh(), SeedThen([MoveNode("n", FAR)])).scopes, r, value, canonical)
  {
    var operations := [MoveNode("n", FAR)];
    hide *;
    MovesOnNode(FAR, NEAR);
    BatchOnSeed(operations);
    FarIsNotAdmitted(value);
    TwoRevisions(Run(Fresh(), SeedThen(operations)), value);
    AcceptedExactly(SeedThen(operations), r, value, canonical);
  }

  /** Nor can it be where the same batch moves back, and only the log holds the number. */
  lemma FarMoveInLogIsRefused<K>(r: Report<int>, value: int -> bool, canonical: Stored<int> -> K)
    requires IsExportOf(SeedThen([MoveNode("n", FAR), MoveNode("n", NEAR)]), r)
    ensures !CreatesWorkspace(Fresh(), SeedThen([MoveNode("n", FAR), MoveNode("n", NEAR)]))
    ensures RevisionsAdmitted(Run(Fresh(), SeedThen([MoveNode("n", FAR), MoveNode("n", NEAR)])), value)
    ensures !Accepts(Run(Fresh(), SeedThen([MoveNode("n", FAR), MoveNode("n", NEAR)])).scopes, r, value, canonical)
  {
    var operations := [MoveNode("n", FAR), MoveNode("n", NEAR)];
    hide *;
    MovesOnNode(FAR, NEAR);
    BatchOnSeed(operations);
    NearIsAdmitted(value);
    TwoRevisions(Run(Fresh(), SeedThen(operations)), value);
    FarIsLogged(operations, value);
    AcceptedExactly(SeedThen(operations), r, value, canonical);
  }

  lemma TwoRevisions(s: State<int>, value: int -> bool)
    requires s.revisions.Keys == {("w", 1), ("w", 2)}
    ensures RevisionsAdmitted(s, value) <==>
      AdmitsSnapshot(s.revisions[("w", 1)].snapshot, value) && AdmitsSnapshot(s.revisions[("w", 2)].snapshot, value)
  {
    hide AdmitsSnapshot;
  }

  lemma FarIsNotAdmitted(value: int -> bool)
    ensures !AdmitsSnapshot(Moved(FAR), value)
  {
    assert !AdmitsNode(Moved(FAR).nodes[0].body, value);
  }

  lemma NearIsAdmitted(value: int -> bool)
    ensures AdmitsSnapshot(ONE_NODE, value) && AdmitsSnapshot(Moved(NEAR), value)
  {
  }

  lemma FarIsLogged(operations: seq<Operation<int>>, value: int -> bool)
    requires |operations| > 0 && operations[0] == MoveNode("n", FAR)
    ensures !AuditAdmitted([operations], value)
  {
    assert !AdmitsOperation(operations[0], value);
    assert !AdmitsOperations([operations][0], value);
  }

  // --- An accepted export can be imported ---

  lemma ExportedKeysAreUnique<V(!new)>(s: State<V>, audited: seq<seq<Operation<V>>>, r: Report<V>)
    requires IsExport(s, audited, r)
    ensures C.UniqueKeys(r)
  {
    hide C.Listed;
  }

  lemma KeyedRowsAreAdmissible<S(!new)>(r: C.Report<S>)
    requires C.UniqueKeys(r) && P.References(r.bundle)
    ensures C.Admissible(r)
  {
    hide P.HasWorkspace;
    var workspaces := r.bundle.workspaces;
    forall i | 0 <= i < |workspaces|
      ensures P.HasWorkspace(workspaces, workspaces[i].id)
    {
      KnowsItself(workspaces, i);
    }
  }

  lemma KnowsItself<S(!new)>(workspaces: seq<P.Workspace<S>>, i: nat)
    requires i < |workspaces|
    ensures P.HasWorkspace(workspaces, workspaces[i].id)
  {
  }

  /** The rows of an export respect the keys of the target, as they came from tables with the same keys. */
  lemma ExportIsAdmissible<V(!new)>(s: State<V>, audited: seq<seq<Operation<V>>>, r: Report<V>)
    requires Valid(s) && IsExport(s, audited, r)
    ensures C.Admissible(r)
  {
    assert Exports(s, r.bundle);
    hide *;
    ExportedReferences(s, r.bundle);
    ExportedKeysAreUnique(s, audited, r);
    KeyedRowsAreAdmissible(r);
  }

  /**
   * An accepted export can be imported, in a rehearsal or against the unchanged source, exactly if the UUIDs of
   * its correlation ids do not collide and the scope is valid.
   */
  lemma AcceptedExportIsImportable<V(!new), K>(
      calls: seq<Call<V>>, r: Report<V>, value: V -> bool, canonical: Stored<V> -> K,
      apply: bool, scope: Option<C.TargetScope>, texts: C.Texts)
    requires (forall i :: 0 <= i < |calls| ==> Admitted(calls[i])) && IsExportOf(calls, r)
    requires Accepts(Run(Fresh(), calls).scopes, r, value, canonical)
    ensures C.Importable(r, apply, Some(r), scope, texts, AdmitsStored(value), canonical)
      <==> M.InjectiveOn(texts.uuid, M.StringSet(C.CorrelationIds(r))) && C.NormalizedTargetScope(scope, texts).Some?
  {
    RunKeepsValid(Fresh(), calls);
    ExportIsAdmissible(Run(Fresh(), calls), Audited(Fresh(), calls), r);
    hide P.Sound;
    hide C.Admissible;
    hide C.AllJson;
    hide M.InjectiveOn;
    hide Run;
    hide IsExport;
    hide Valid;
  }

  /** And a prepared, empty target that orders text as SQLite does takes it, exactly if jsonb can hold its JSON. */
  lemma BinaryTargetTakesExport<V(!new)>(calls: seq<Call<V>>, r: Report<V>, stores: Stored<V> -> bool)
    requires IsExportOf(calls, r)
    ensures C.CanTake(true, C.Nothing(), B.BinaryBefore(), stores, r) <==> C.AllJson(r.bundle, r.audit, stores)
  {
    hide C.AllJson;
    hide Exports;
    hide ExportsAudit;
    hide C.Listed;
  }
}
