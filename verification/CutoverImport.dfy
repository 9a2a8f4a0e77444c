/** The transactional importer (apps/api/src/cutover-import.ts), with a failure possible at every query. */
module CutoverImport {
  import opened Common
  import opened CanonicalText
  import opened Collation
  import opened CorrelationMapping
  import opened Preflight
  import opened TargetIntegrity

  const IMPORT_BATCH_SIZE := 500

  datatype AuditRow<S> = AuditRow(id: int, correlationId: Id, details: S)

  /** A cutover bundle: what preflight checks, and the audit log. `S` is the type of JSON objects. */
  datatype Report<S> = Report(bundle: Bundle<S>, audit: seq<AuditRow<S>>)

  /** Every JSON object of the bundle: snapshots, their revisions, and the details of the audit log. */
  predicate AllJson<S>(b: Bundle<S>, audit: seq<AuditRow<S>>, admits: S -> bool) {
    && (forall i :: 0 <= i < |b.workspaces| ==> admits(b.workspaces[i].snapshot))
    && (forall i :: 0 <= i < |b.revisions| ==> admits(b.revisions[i].snapshot))
    && (forall i :: 0 <= i < |audit| ==> admits(audit[i].details))
  }

  // --- The target database ---

  datatype Tables<S> = Tables(
    workspaces: seq<Workspace<S>>, scopes: seq<ScopeRow>, revisions: seq<Revision<S>>,
    members: seq<Membership>, audit: seq<AuditRow<S>>)
  {
    function Plus(d: Tables<S>): Tables<S> {
      Tables(workspaces + d.workspaces, scopes + d.scopes, revisions + d.revisions,
             members + d.members, audit + d.audit)
    }

    predicate Empty() {
      this == Tables([], [], [], [], [])
    }

    function AsBundle(): Bundle<S> {
      Bundle(workspaces, revisions, members)
    }

    /** Primary and foreign keys of the five tables. */
    predicate Consistent() {
      && (forall i, j :: 0 <= i < j < |workspaces| ==> workspaces[i].id != workspaces[j].id)
      && (forall i, j :: 0 <= i < j < |scopes| ==> scopes[i].workspaceId != scopes[j].workspaceId)
      && (forall i, j :: 0 <= i < j < |revisions| ==>
            (revisions[i].workspaceId, revisions[i].version) != (revisions[j].workspaceId, revisions[j].version))
      && (forall i, j :: 0 <= i < j < |members| ==>
            (members[i].workspaceId, members[i].userId) != (members[j].workspaceId, members[j].userId))
      && (forall i, j :: 0 <= i < j < |audit| ==> audit[i].id != audit[j].id)
      && (forall i :: 0 <= i < |scopes| ==> HasWorkspace(workspaces, scopes[i].workspaceId))
      && (forall i :: 0 <= i < |revisions| ==> HasWorkspace(workspaces, revisions[i].workspaceId))
      && (forall i :: 0 <= i < |members| ==> HasWorkspace(workspaces, members[i].workspaceId))
    }

    /** An earlier stage of the same import: workspaces are complete before anything refers to them. */
    ghost predicate StageOf(t: Tables<S>) {
      && workspaces <= t.workspaces && scopes <= t.scopes && revisions <= t.revisions
      && members <= t.members && audit <= t.audit
      && (workspaces == t.workspaces || (scopes == [] && revisions == [] && members == []))
    }

    /** What the target can take: rows that respect the keys, with JSON that its column type can hold. */
    predicate Fits(stores: S -> bool) {
      Consistent() && AllJson(AsBundle(), audit, stores)
    }

    lemma StagesFit(t: Tables<S>, stores: S -> bool)
      requires StageOf(t) && t.Fits(stores)
      ensures Fits(stores)
    {
    }
  }

  function Nothing<S>(): Tables<S> {
    Tables([], [], [], [], [])
  }

  /**
   * One pooled connection to the target. Each query advances `tick`; `fails` says which queries the
   * server or the network fails. A failed statement aborts the open transaction, and a failed COMMIT
   * or ROLLBACK leaves it open.
   */
  class Connection<S(!new,==)> {
    var committed: Tables<S>
    var working: Option<Tables<S>>
    var aborted: bool
    var tick: nat
    const fails: nat -> bool
    /** The required migrations are recorded and the role holds exactly the privileges of odf_cutover. */
    const prepared: bool
    /** The collation of its text columns. */
    const before: (Id, Id) -> bool
    /** What jsonb can hold: no U+0000, for one, and no lone surrogate. */
    const stores: S -> bool

    constructor (initial: Tables<S>, fails: nat -> bool, prepared: bool, before: (Id, Id) -> bool, stores: S -> bool)
      ensures committed == initial && working.None?
      ensures this.fails == fails && this.prepared == prepared && this.before == before && this.stores == stores
    {
      committed, working, aborted, tick := initial, None, false, 0;
      this.fails, this.prepared, this.before, this.stores := fails, prepared, before, stores;
    }

    ghost predicate NeverFails() {
      forall n :: !fails(n)
    }

    method Begin() returns (ok: bool)
      requires working.None?
      modifies this
      ensures committed == old(committed) && (NeverFails() ==> ok)
      ensures working == (if ok then Some(committed) else None) && (ok ==> !aborted)
    {
      ok := !fails(tick);
      tick := tick + 1;
      if ok {
        working, aborted := Some(committed), false;
      }
    }

    /** A statement that changes no table: settings, the advisory lock, the sequence, a catalogue query. */
    method Execute() returns (ok: bool)
      requires working.Some?
      modifies this
      ensures committed == old(committed) && working == old(working)
      ensures ok ==> !aborted
      ensures NeverFails() && !old(aborted) ==> ok
    {
      ok := !aborted && !fails(tick);
      tick, aborted := tick + 1, !ok;
    }

    method Read() returns (rows: Option<Tables<S>>)
      requires working.Some?
      modifies this
      ensures committed == old(committed) && working == old(working)
      ensures rows.Some? ==> !aborted && rows == working
      ensures NeverFails() && !old(aborted) ==> rows.Some?
    {
      var ok := Execute();
      rows := if ok then working else None;
    }

    method Insert(rows: Tables<S>) returns (ok: bool)
      requires working.Some?
      modifies this
      ensures committed == old(committed) && working.Some?
      ensures ok ==> !aborted && working == Some(old(working).value.Plus(rows)) && working.value.Fits(stores)
      ensures !ok ==> working == old(working)
      ensures NeverFails() && !old(aborted) && old(working).value.Plus(rows).Fits(stores) ==> ok
    {
      var next := working.value.Plus(rows);
      ok := !aborted && !fails(tick) && next.Fits(stores);
      tick, aborted := tick + 1, !ok;
      if ok {
        working := Some(next);
      }
    }

    method Commit() returns (ok: bool)
      requires working.Some?
      modifies this
      ensures ok ==> working.None? && committed == if old(aborted) then old(committed) else old(working).value
      ensures !ok ==> working == old(working) && committed == old(committed)
      ensures NeverFails() ==> ok
    {
      ok := !fails(tick);
      tick := tick + 1;
      if ok {
        if !aborted {
          committed := working.value;
        }
        working := None;
      } else {
        aborted := true;
      }
    }

    method Rollback() returns (ok: bool)
      requires working.Some?
      modifies this
      ensures committed == old(committed) && working == (if ok then None else old(working))
      ensures NeverFails() ==> ok
    {
      ok := !fails(tick);
      tick := tick + 1;
      if ok {
        working := None;
      }
    }
  }

  // --- What ORDER BY makes of the four tables that are read back ---

  function WorkspaceBefore<S>(before: (Id, Id) -> bool): (Workspace<S>, Workspace<S>) -> bool {
    (a: Workspace<S>, b: Workspace<S>) => before(a.id, b.id)
  }

  function RevisionBefore<S>(before: (Id, Id) -> bool): (Revision<S>, Revision<S>) -> bool {
    (a: Revision<S>, b: Revision<S>) =>
      if a.workspaceId == b.workspaceId then a.version < b.version else before(a.workspaceId, b.workspaceId)
  }

  function MemberBefore(before: (Id, Id) -> bool): (Membership, Membership) -> bool {
    (a: Membership, b: Membership) =>
      if a.workspaceId == b.workspaceId then before(a.userId, b.userId) else before(a.workspaceId, b.workspaceId)
  }

  function AuditBefore<S>(): (AuditRow<S>, AuditRow<S>) -> bool {
    (a: AuditRow<S>, b: AuditRow<S>) => a.id < b.id
  }

  function ReadBack<S>(t: Tables<S>, before: (Id, Id) -> bool): Tables<S> {
    t.(workspaces := OrderBy(t.workspaces, WorkspaceBefore(before)), revisions := OrderBy(t.revisions, RevisionBefore(before)),
       members := OrderBy(t.members, MemberBefore(before)), audit := OrderBy(t.audit, AuditBefore()))
  }

  /** The rows are listed in the order of the target. */
  predicate Listed<S>(b: Bundle<S>, audit: seq<AuditRow<S>>, before: (Id, Id) -> bool) {
    && InOrder(b.workspaces, WorkspaceBefore(before)) && InOrder(b.revisions, RevisionBefore(before))
    && InOrder(b.members, MemberBefore(before)) && InOrder(audit, AuditBefore())
  }

  /** Listed is each table in the order of its key, row after row. */
  lemma ListedMeans<S(!new)>(b: Bundle<S>, audit: seq<AuditRow<S>>, before: (Id, Id) -> bool)
    ensures Listed(b, audit, before) <==>
      && (forall i :: 0 < i < |b.workspaces| ==> !before(b.workspaces[i].id, b.workspaces[i - 1].id))
      && (forall i :: 0 < i < |b.revisions| ==>
            var last, next := b.revisions[i - 1], b.revisions[i];
            !(next.workspaceId == last.workspaceId && next.version < last.version)
            && !(next.workspaceId != last.workspaceId && before(next.workspaceId, last.workspaceId)))
      && (forall i :: 0 < i < |b.members| ==>
            var last, next := b.members[i - 1], b.members[i];
            !(next.workspaceId == last.workspaceId && before(next.userId, last.userId))
            && !(next.workspaceId != last.workspaceId && before(next.workspaceId, last.workspaceId)))
      && (forall i :: 0 < i < |audit| ==> audit[i].id >= audit[i - 1].id)
  {
    InOrderMeans(b.workspaces, WorkspaceBefore(before));
    InOrderMeans(b.revisions, RevisionBefore(before));
    InOrderMeans(b.members, MemberBefore(before));
    InOrderMeans(audit, AuditBefore());
    hide InOrder;
  }

  lemma InOrderMeans<T(!new)>(rows: seq<T>, less: (T, T) -> bool)
    ensures InOrder(rows, less) <==> forall i :: 0 < i < |rows| ==> !less(rows[i], rows[i - 1])
  {
    if InOrder(rows, less) {
      forall i | 0 < i < |rows|
        ensures !less(rows[i], rows[i - 1])
      {
        assert !less(rows[(i - 1) + 1], rows[i - 1]);
      }
    } else {
      var i :| 0 <= i < |rows| - 1 && less(rows[i + 1], rows[i]);
      assert less(rows[i + 1], rows[(i + 1) - 1]);
    }
  }

  lemma OrdersAreAsymmetric<S(!new)>(before: (Id, Id) -> bool)
    requires Asymmetric(before)
    ensures Asymmetric(WorkspaceBefore<S>(before)) && Asymmetric(RevisionBefore<S>(before))
    ensures Asymmetric(MemberBefore(before)) && Asymmetric(AuditBefore<S>())
  {
    var w, r, m, a := WorkspaceBefore<S>(before), RevisionBefore<S>(before), MemberBefore(before), AuditBefore<S>();
    forall x: Workspace<S>, y: Workspace<S> | w(x, y)
      ensures !w(y, x)
    {
      assert before(x.id, y.id);
    }
    forall x: Revision<S>, y: Revision<S> | r(x, y)
      ensures !r(y, x)
    {
      assert x.workspaceId != y.workspaceId ==> before(x.workspaceId, y.workspaceId);
    }
    forall x: Membership, y: Membership | m(x, y)
      ensures !m(y, x)
    {
      assert x.workspaceId != y.workspaceId ==> before(x.workspaceId, y.workspaceId);
      assert x.workspaceId == y.workspaceId ==> before(x.userId, y.userId);
    }
    forall x: AuditRow<S>, y: AuditRow<S> | a(x, y)
      ensures !a(y, x)
    {
    }
  }

  lemma ReadBackIsExact<S(!new)>(t: Tables<S>, before: (Id, Id) -> bool)
    requires Asymmetric(before)
    ensures ReadBack(t, before) == t <==> Listed(t.AsBundle(), t.audit, before)
  {
    hide *;
    OrdersAreAsymmetric<S>(before);
    ReadBackIffInOrder(t.workspaces, WorkspaceBefore(before));
    ReadBackIffInOrder(t.revisions, RevisionBefore(before));
    ReadBackIffInOrder(t.members, MemberBefore(before));
    ReadBackIffInOrder(t.audit, AuditBefore());
    ReadBackByTable(t, before);
  }

  lemma ReadBackKeepsScopes<S>(t: Tables<S>, before: (Id, Id) -> bool)
    ensures ReadBack(t, before).(scopes := t.scopes) == ReadBack(t, before)
  {
    hide OrderBy;
  }

  lemma ReadBackByTable<S>(t: Tables<S>, before: (Id, Id) -> bool)
    ensures ReadBack(t, before) == t <==>
      && OrderBy(t.workspaces, WorkspaceBefore(before)) == t.workspaces
      && OrderBy(t.revisions, RevisionBefore(before)) == t.revisions
      && OrderBy(t.members, MemberBefore(before)) == t.members && OrderBy(t.audit, AuditBefore()) == t.audit
    ensures Listed(t.AsBundle(), t.audit, before) <==>
      && InOrder(t.workspaces, WorkspaceBefore(before)) && InOrder(t.revisions, RevisionBefore(before))
      && InOrder(t.members, MemberBefore(before)) && InOrder(t.audit, AuditBefore())
  {
    hide OrderBy;
    hide InOrder;
  }

  // --- insertBatches ---

  /** How the records of one table become rows of the database. */
  ghost predicate Additive<S(!new), T(!new)>(rows: seq<T> -> Tables<S>) {
    rows([]) == Nothing() && forall a, b :: rows(a + b) == rows(a).Plus(rows(b))
  }

  lemma PlusAssociates<S>(t: Tables<S>, a: Tables<S>, b: Tables<S>)
    ensures t.Plus(a).Plus(b) == t.Plus(a.Plus(b)) && t.Plus(Nothing()) == t
  {
  }

  /** However many records there are, the batches add up to exactly the records, in order. */
  method InsertBatches<S(!new,==), T(!new)>(db: Connection<S>, rows: seq<T> -> Tables<S>, records: seq<T>)
      returns (ok: bool)
    requires db.working.Some? && !db.aborted && db.working.value.Fits(db.stores) && Additive(rows)
    modifies db
    ensures db.committed == old(db.committed) && db.working.Some?
    ensures ok ==>
      !db.aborted && db.working == Some(old(db.working).value.Plus(rows(records))) && db.working.value.Fits(db.stores)
    ensures (db.NeverFails() && forall k :: 0 <= k <= |records| ==> old(db.working).value.Plus(rows(records[..k])).Fits(db.stores))
      ==> ok
  {
    assert IMPORT_BATCH_SIZE > 0;
    hide *;
    ghost var start, done := db.working.value, records[..0];
    BatchesAddUp(start, rows, [], []);
    var offset := 0;
    while offset < |records|
      invariant 0 <= offset && done == records[..Covered(offset, |records|)]
      invariant db.committed == old(db.committed) && !db.aborted
      invariant db.working == Some(start.Plus(rows(done))) && db.working.value.Fits(db.stores)
      decreases |records| - offset
    {
      var end := Covered(offset + IMPORT_BATCH_SIZE, |records|);
      var batch := records[offset..end];
      BatchesAddUp(start, rows, done, batch);
      PrefixGrows(records, offset, end);
      done := done + batch;
      var inserted := db.Insert(rows(batch));
      if !inserted {
        return false;
      }
      offset := offset + IMPORT_BATCH_SIZE;
    }
    assert done == records;
    ok := true;
  }

  lemma PrefixGrows<T>(s: seq<T>, i: nat, j: nat)
    requires i <= j <= |s|
    ensures s[..i] + s[i..j] == s[..j]
  {
  }

  function Covered(offset: nat, count: nat): (r: nat)
    ensures r <= count && (offset <= count ==> r == offset) && (offset >= count ==> r == count)
  {
    if offset < count then offset else count
  }

  lemma BatchesAddUp<S(!new), T(!new)>(t: Tables<S>, rows: seq<T> -> Tables<S>, a: seq<T>, b: seq<T>)
    requires Additive(rows)
    ensures t.Plus(rows(a)).Plus(rows(b)) == t.Plus(rows(a + b)) && t.Plus(rows([])) == t
  {
    PlusAssociates(t, rows(a), rows(b));
  }

  function WorkspaceRows<S>(): seq<Workspace<S>> -> Tables<S> {
    (r: seq<Workspace<S>>) => Tables(r, [], [], [], [])
  }

  function ScopeRowsOf<S>(): seq<ScopeRow> -> Tables<S> {
    (r: seq<ScopeRow>) => Tables([], r, [], [], [])
  }

  function RevisionRows<S>(): seq<Revision<S>> -> Tables<S> {
    (r: seq<Revision<S>>) => Tables([], [], r, [], [])
  }

  function MemberRows<S>(): seq<Membership> -> Tables<S> {
    (r: seq<Membership>) => Tables([], [], [], r, [])
  }

  function AuditRows<S>(): seq<AuditRow<S>> -> Tables<S> {
    (r: seq<AuditRow<S>>) => Tables([], [], [], [], r)
  }

  /** The tables once the first `n` of them are filled, in the order of the import. */
  function Stage<S>(data: Tables<S>, n: nat): Tables<S> {
    Tables(if n > 0 then data.workspaces else [], if n > 1 then data.scopes else [],
           if n > 2 then data.revisions else [], if n > 3 then data.members else [], if n > 4 then data.audit else [])
  }

  /** Filling one table leads from one stage to the next, and no batch of it breaks a constraint. */
  ghost predicate Phase<S(!new), T(!new)>(data: Tables<S>, n: nat, rows: seq<T> -> Tables<S>, records: seq<T>, stores: S -> bool)
  {
    && Additive(rows)
    && Stage(data, n).Plus(rows(records)) == Stage(data, n + 1)
    && (data.Fits(stores) ==> forall k :: 0 <= k <= |records| ==> Stage(data, n).Plus(rows(records[..k])).Fits(stores))
  }

  lemma WorkspacesPhase<S(!new)>(data: Tables<S>, stores: S -> bool)
    ensures Phase(data, 0, WorkspaceRows<S>(), data.workspaces, stores)
  {
    forall k | 0 <= k <= |data.workspaces| && data.Fits(stores)
      ensures Stage(data, 0).Plus(WorkspaceRows<S>()(data.workspaces[..k])).Fits(stores)
    {
      Stage(data, 0).Plus(WorkspaceRows<S>()(data.workspaces[..k])).StagesFit(data, stores);
    }
    assert Stage(data, 0).Plus(WorkspaceRows<S>()(data.workspaces)) == Stage(data, 1);
  }

  lemma ScopesPhase<S(!new)>(data: Tables<S>, stores: S -> bool)
    ensures Phase(data, 1, ScopeRowsOf<S>(), data.scopes, stores)
  {
    forall k | 0 <= k <= |data.scopes| && data.Fits(stores)
      ensures Stage(data, 1).Plus(ScopeRowsOf<S>()(data.scopes[..k])).Fits(stores)
    {
      Stage(data, 1).Plus(ScopeRowsOf<S>()(data.scopes[..k])).StagesFit(data, stores);
    }
    assert Stage(data, 1).Plus(ScopeRowsOf<S>()(data.scopes)) == Stage(data, 2);
  }

  lemma RevisionsPhase<S(!new)>(data: Tables<S>, stores: S -> bool)
    ensures Phase(data, 2, RevisionRows<S>(), data.revisions, stores)
  {
    forall k | 0 <= k <= |data.revisions| && data.Fits(stores)
      ensures Stage(data, 2).Plus(RevisionRows<S>()(data.revisions[..k])).Fits(stores)
    {
      Stage(data, 2).Plus(RevisionRows<S>()(data.revisions[..k])).StagesFit(data, stores);
    }
    assert Stage(data, 2).Plus(RevisionRows<S>()(data.revisions)) == Stage(data, 3);
  }

  lemma MembersPhase<S(!new)>(data: Tables<S>, stores: S -> bool)
    ensures Phase(data, 3, MemberRows<S>(), data.members, stores)
  {
    forall k | 0 <= k <= |data.members| && data.Fits(stores)
      ensures Stage(data, 3).Plus(MemberRows<S>()(data.members[..k])).Fits(stores)
    {
      Stage(data, 3).Plus(MemberRows<S>()(data.members[..k])).StagesFit(data, stores);
    }
    assert Stage(data, 3).Plus(MemberRows<S>()(data.members)) == Stage(data, 4);
  }

  lemma AuditPhase<S(!new)>(data: Tables<S>, stores: S -> bool)
    ensures Phase(data, 4, AuditRows<S>(), data.audit, stores)
  {
    forall k | 0 <= k <= |data.audit| && data.Fits(stores)
      ensures Stage(data, 4).Plus(AuditRows<S>()(data.audit[..k])).Fits(stores)
    {
      Stage(data, 4).Plus(AuditRows<S>()(data.audit[..k])).StagesFit(data, stores);
    }
    assert Stage(data, 4).Plus(AuditRows<S>()(data.audit)) == Stage(data, 5);
  }

  method InsertTargetData<S(!new,==)>(db: Connection<S>, data: Tables<S>) returns (ok: bool)
    requires db.working == Some(Stage(data, 0)) && !db.aborted && Stage(data, 0).Fits(db.stores)
    modifies db
    ensures db.committed == old(db.committed) && db.working.Some?
    ensures ok ==> !db.aborted && db.working == Some(Stage(data, 5)) && Stage(data, 5).Fits(db.stores)
    ensures db.NeverFails() && data.Fits(db.stores) ==> ok
  {
    hide *;
    WorkspacesPhase(data, db.stores);
    ScopesPhase(data, db.stores);
    RevisionsPhase(data, db.stores);
    MembersPhase(data, db.stores);
    AuditPhase(data, db.stores);
    ok := InsertPhase(db, data, 0, WorkspaceRows<S>(), data.workspaces);
    if !ok { return; }
    ok := InsertPhase(db, data, 1, ScopeRowsOf<S>(), data.scopes);
    if !ok { return; }
    ok := InsertPhase(db, data, 2, RevisionRows<S>(), data.revisions);
    if !ok { return; }
    ok := InsertPhase(db, data, 3, MemberRows<S>(), data.members);
    if !ok { return; }
    ok := InsertPhase(db, data, 4, AuditRows<S>(), data.audit);
  }

  method InsertPhase<S(!new,==), T(!new)>(
      db: Connection<S>, ghost data: Tables<S>, ghost n: nat, rows: seq<T> -> Tables<S>, records: seq<T>) returns (ok: bool)
    requires Phase(data, n, rows, records, db.stores)
    requires db.working == Some(Stage(data, n)) && !db.aborted && Stage(data, n).Fits(db.stores)
    modifies db
    ensures db.committed == old(db.committed) && db.working.Some?
    ensures ok ==> !db.aborted && db.working == Some(Stage(data, n + 1)) && Stage(data, n + 1).Fits(db.stores)
    ensures db.NeverFails() && data.Fits(db.stores) ==> ok
  {
    ok := InsertBatches(db, rows, records);
  }

  // --- createExpectedTargetData ---

  function CorrelationIds<S>(report: Report<S>): (r: seq<Id>) {
    var a := seq(|report.bundle.revisions|, i requires 0 <= i < |report.bundle.revisions| =>
                   report.bundle.revisions[i].correlationId);
    var b := seq(|report.audit|, i requires 0 <= i < |report.audit| => report.audit[i].correlationId);
    a + b
  }

  lemma CorrelationIdsCover<S>(report: Report<S>)
    ensures forall i :: 0 <= i < |report.bundle.revisions| ==> report.bundle.revisions[i].correlationId in CorrelationIds(report)
    ensures forall i :: 0 <= i < |report.audit| ==> report.audit[i].correlationId in CorrelationIds(report)
  {
    var r, n := CorrelationIds(report), |report.bundle.revisions|;
    forall i | 0 <= i < n
      ensures report.bundle.revisions[i].correlationId in r
    {
      assert r[i] == report.bundle.revisions[i].correlationId;
    }
    forall i | 0 <= i < |report.audit|
      ensures report.audit[i].correlationId in r
    {
      assert r[n + i] == report.audit[i].correlationId;
    }
  }

  function MapRevisions<S>(revisions: seq<Revision<S>>, values: map<Id, Id>): (r: seq<Revision<S>>)
    requires forall i :: 0 <= i < |revisions| ==> revisions[i].correlationId in values
    ensures |r| == |revisions|
    ensures forall i :: 0 <= i < |r| ==> r[i] == revisions[i].(correlationId := values[revisions[i].correlationId])
  {
    seq(|revisions|, i requires 0 <= i < |revisions| =>
      revisions[i].(correlationId := values[revisions[i].correlationId]))
  }

  function MapAudit<S>(audit: seq<AuditRow<S>>, values: map<Id, Id>): (r: seq<AuditRow<S>>)
    requires forall i :: 0 <= i < |audit| ==> audit[i].correlationId in values
    ensures |r| == |audit|
    ensures forall i :: 0 <= i < |r| ==> r[i] == audit[i].(correlationId := values[audit[i].correlationId])
  {
    seq(|audit|, i requires 0 <= i < |audit| => audit[i].(correlationId := values[audit[i].correlationId]))
  }

  function ExpectedTables<S>(report: Report<S>, values: map<Id, Id>, tenant: string, project: string): Tables<S>
    requires values.Keys == StringSet(CorrelationIds(report))
  {
    CorrelationIdsCover(report);
    Tables(report.bundle.workspaces, ScopeRows(report.bundle.workspaces, tenant, project),
           MapRevisions(report.bundle.revisions, values), report.bundle.members, MapAudit(report.audit, values))
  }

  lemma {:induction false} HistoryMapped<S>(revisions: seq<Revision<S>>, values: map<Id, Id>, id: Id)
    requires forall i :: 0 <= i < |revisions| ==> revisions[i].correlationId in values
    ensures var h, m := History(revisions, id), History(MapRevisions(revisions, values), id);
      |m| == |h| && forall k :: 0 <= k < |h| ==> m[k].version == h[k].version && m[k].snapshot == h[k].snapshot
  {
    if |revisions| > 0 {
      var n := |revisions| - 1;
      HistoryMapped(revisions[..n], values, id);
      var mapped := MapRevisions(revisions, values);
      assert mapped[..n] == MapRevisions(revisions[..n], values);
      assert mapped[n].workspaceId == revisions[n].workspaceId;
      assert History(mapped, id) == History(mapped[..n], id) + if mapped[n].workspaceId == id then [mapped[n]] else [];
    }
  }

  /** Rewriting correlation ids changes nothing that preflight checked. */
  lemma ExpectedIsSound<S(!new), K>(
      report: Report<S>, values: map<Id, Id>, tenant: string, project: string, same: S -> K)
    requires values.Keys == StringSet(CorrelationIds(report)) && Sound(report.bundle, same)
    ensures Sound(ExpectedTables(report, values, tenant, project).AsBundle(), same)
  {
    CorrelationIdsCover(report);
    var b := ExpectedTables(report, values, tenant, project).AsBundle();
    forall i | 0 <= i < |b.revisions|
      ensures HasWorkspace(b.workspaces, b.revisions[i].workspaceId)
    {
      assert HasWorkspace(report.bundle.workspaces, report.bundle.revisions[i].workspaceId);
    }
    forall i | 0 <= i < |b.members|
      ensures HasWorkspace(b.workspaces, b.members[i].workspaceId)
    {
      assert HasWorkspace(report.bundle.workspaces, report.bundle.members[i].workspaceId);
    }
    assert References(b);
    hide References;
    forall i | 0 <= i < |b.workspaces|
      ensures SoundWorkspace(b.workspaces[i], b, same)
    {
      assert SoundWorkspace(report.bundle.workspaces[i], report.bundle, same);
      MappedIsSound(report.bundle.workspaces[i], report.bundle, values, same);
    }
  }

  lemma MappedIsSound<S(!new), K>(w: Workspace<S>, b: Bundle<S>, values: map<Id, Id>, same: S -> K)
    requires forall i :: 0 <= i < |b.revisions| ==> b.revisions[i].correlationId in values
    requires SoundWorkspace(w, b, same)
    ensures SoundWorkspace(w, Bundle(b.workspaces, MapRevisions(b.revisions, values), b.members), same)
  {
    HistoryMapped(b.revisions, values, w.id);
    hide History;
    hide MapRevisions;
    hide HasOwner;
  }

  /** The bundle's rows respect the keys of the target; preflight alone does not check uniqueness. */
  predicate Admissible<S>(report: Report<S>) {
    var b := report.bundle;
    Tables(b.workspaces, ScopeRows(b.workspaces, "", ""), b.revisions, b.members, report.audit).Consistent()
  }

  /** No two rows of a table have the same key. */
  predicate UniqueKeys<S>(r: Report<S>) {
    var b := r.bundle;
    && (forall i, j :: 0 <= i < j < |b.workspaces| ==> b.workspaces[i].id != b.workspaces[j].id)
    && (forall i, j :: 0 <= i < j < |b.revisions| ==>
          (b.revisions[i].workspaceId, b.revisions[i].version) != (b.revisions[j].workspaceId, b.revisions[j].version))
    && (forall i, j :: 0 <= i < j < |b.members| ==>
          (b.members[i].workspaceId, b.members[i].userId) != (b.members[j].workspaceId, b.members[j].userId))
    && (forall i, j :: 0 <= i < j < |r.audit| ==> r.audit[i].id != r.audit[j].id)
  }

  /** For data that preflight accepts, the target asks for nothing but unique keys. */
  lemma AdmissibleMeansUniqueKeys<S(!new), K>(report: Report<S>, same: S -> K)
    requires Sound(report.bundle, same)
    ensures Admissible(report) <==> UniqueKeys(report)
  {
    var b := report.bundle;
    var scopes := ScopeRows(b.workspaces, "", "");
    hide Sound;
    WorkspacesAreKnown(b);
    SoundIsReferenced(b, same);
    hide HasWorkspace;
    if Admissible(report) {
      forall i, j | 0 <= i < j < |b.workspaces|
        ensures b.workspaces[i].id != b.workspaces[j].id
      {
        assert scopes[i].workspaceId == b.workspaces[i].id;
      }
    }
  }

  lemma SoundIsReferenced<S(!new), K>(b: Bundle<S>, same: S -> K)
    requires Sound(b, same)
    ensures References(b)
  {
  }

  lemma WorkspacesAreKnown<S(!new)>(b: Bundle<S>)
    ensures forall i :: 0 <= i < |b.workspaces| ==> HasWorkspace(b.workspaces, b.workspaces[i].id)
  {
  }

  const REPEATED: Report<int> := Report(
    Bundle([Workspace("w", 7, 1), Workspace("w", 7, 1)], [Revision("w", 1, 7, "c")], [Membership("w", "u", Owner)]), [])

  /** Preflight accepts a bundle that lists a workspace twice, which no target can hold. */
  lemma PreflightAcceptsRepeatedWorkspace()
    ensures Sound(REPEATED.bundle, Itself<int>()) && !Admissible(REPEATED)
  {
    var b := REPEATED.bundle;
    HistorySnoc(b.revisions, 0, "w");
    assert b.revisions[..1] == b.revisions && b.revisions[..0] == [];
    assert IsOwner(b.members[0], "w") && b.workspaces[0].id == "w" && b.workspaces[1].id == "w";
    assert SoundWorkspace(b.workspaces[0], b, Itself<int>());
  }

  lemma ExpectedIsConsistent<S>(report: Report<S>, values: map<Id, Id>, tenant: string, project: string)
    requires values.Keys == StringSet(CorrelationIds(report))
    ensures ExpectedTables(report, values, tenant, project).Consistent() <==> Admissible(report)
  {
    var e := ExpectedTables(report, values, tenant, project);
    var b := report.bundle;
    var raw := Tables(b.workspaces, ScopeRows(b.workspaces, "", ""), b.revisions, b.members, report.audit);
    assert forall i :: 0 <= i < |e.scopes| ==> e.scopes[i].workspaceId == raw.scopes[i].workspaceId;
    assert forall i :: 0 <= i < |e.revisions| ==>
      e.revisions[i].workspaceId == raw.revisions[i].workspaceId && e.revisions[i].version == raw.revisions[i].version;
    assert forall i :: 0 <= i < |e.audit| ==> e.audit[i].id == raw.audit[i].id;
  }

  // --- What an import writes, row by row ---

  ghost predicate RevisionsMigrated<S>(source: seq<Revision<S>>, target: seq<Revision<S>>, uuid: Id -> Id) {
    && |target| == |source|
    && forall i :: 0 <= i < |source| ==> target[i] == source[i].(correlationId := uuid(source[i].correlationId))
  }

  ghost predicate AuditMigrated<S>(source: seq<AuditRow<S>>, target: seq<AuditRow<S>>, uuid: Id -> Id) {
    && |target| == |source|
    && forall i :: 0 <= i < |source| ==> target[i] == source[i].(correlationId := uuid(source[i].correlationId))
  }

  ghost predicate ScopesAssigned<S>(workspaces: seq<Workspace<S>>, scopes: seq<ScopeRow>, tenant: string, project: string) {
    && |scopes| == |workspaces|
    && forall i :: 0 <= i < |scopes| ==> scopes[i] == ScopeRow(workspaces[i].id, tenant, project)
  }

  /**
   * Workspaces and members as the report lists them, one scope row for each workspace, and every revision and
   * audit row with all its columns but the correlation id, which is the UUID of the one in the report.
   */
  ghost predicate Migrated<S>(report: Report<S>, uuid: Id -> Id, tenant: string, project: string, t: Tables<S>) {
    && t.workspaces == report.bundle.workspaces && t.members == report.bundle.members
    && ScopesAssigned(report.bundle.workspaces, t.scopes, tenant, project)
    && RevisionsMigrated(report.bundle.revisions, t.revisions, uuid)
    && AuditMigrated(report.audit, t.audit, uuid)
  }

  lemma ExpectedIsMigrated<S>(
      report: Report<S>, values: map<Id, Id>, uuid: Id -> Id, tenant: string, project: string)
    requires values.Keys == StringSet(CorrelationIds(report)) && forall s :: s in values ==> values[s] == uuid(s)
    ensures Migrated(report, uuid, tenant, project, ExpectedTables(report, values, tenant, project))
  {
    CorrelationIdsCover(report);
  }

  /** The correlation ids of revisions and audit rows, in this order. */
  lemma MigratedIdsCorrespond<S>(
      report: Report<S>, uuid: Id -> Id, tenant: string, project: string, t: Tables<S>)
    requires Migrated(report, uuid, tenant, project, t)
    ensures var source, target := CorrelationIds(report), CorrelationIds(Report(t.AsBundle(), t.audit));
      |target| == |source| && forall i :: 0 <= i < |source| ==> target[i] == uuid(source[i])
  {
  }

  /** Rows that share a correlation id in the target are those that shared one in the report. */
  lemma CorrelationsSurvive<S>(
      report: Report<S>, uuid: Id -> Id, tenant: string, project: string, t: Tables<S>, i: nat, j: nat)
    requires Migrated(report, uuid, tenant, project, t)
    requires InjectiveOn(uuid, StringSet(CorrelationIds(report)))
    requires i < |CorrelationIds(report)| && j < |CorrelationIds(report)|
    ensures var source, target := CorrelationIds(report), CorrelationIds(Report(t.AsBundle(), t.audit));
      |target| == |source| && (target[i] == target[j] <==> source[i] == source[j])
  {
    MigratedIdsCorrespond(report, uuid, tenant, project, t);
    var source := CorrelationIds(report);
    assert source[i] in StringSet(source) && source[j] in StringSet(source);
  }

  // --- importSqliteCutoverBundle ---

  datatype ImportError =
    | NotInSchema
    | Refused(violation: Violation)
    | NeedsCurrentSource
    | SourceChanged
    | CorrelationCollision(collision: Collision)
    | InvalidTargetScope
    | QueryFailed
    | NotPrepared
    | TargetNotEmpty
    | CountsDiffer
    | IntegrityFailed
    | ContentsDiffer

  datatype TargetScope = TargetScope(tenantId: string, projectId: string, assignedBy: string)

  /** What the importer makes of text: UUIDs from ids, String.prototype.trim and toLowerCase, and the UUID pattern. */
  datatype Texts = Texts(uuid: Id -> Id, trim: string -> string, lower: string -> string, isUuid: string -> bool)

  const MAXIMUM_ACTOR_LENGTH := 255

  /** normalizedTargetScope; None where it throws. */
  function NormalizedTargetScope(scope: Option<TargetScope>, texts: Texts): (r: Option<TargetScope>)
    ensures r.Some? ==> texts.isUuid(r.value.tenantId) && texts.isUuid(r.value.projectId)
                        && 0 < |r.value.assignedBy| <= MAXIMUM_ACTOR_LENGTH
  {
    if scope.None? then None
    else
      var tenantId := texts.lower(texts.trim(scope.value.tenantId));
      var projectId := texts.lower(texts.trim(scope.value.projectId));
      var assignedBy := texts.trim(scope.value.assignedBy);
      if !texts.isUuid(tenantId) || !texts.isUuid(projectId) then None
      else if |assignedBy| == 0 || |assignedBy| > MAXIMUM_ACTOR_LENGTH then None
      else Some(TargetScope(tenantId, projectId, assignedBy))
  }

  /** A scope is taken exactly if it names two UUIDs and an actor of at most 255 characters, up to blanks and case. */
  lemma ScopeIsTakenExactly(scope: Option<TargetScope>, texts: Texts)
    ensures var r := NormalizedTargetScope(scope, texts);
      && (r.Some? <==>
           && scope.Some?
           && texts.isUuid(texts.lower(texts.trim(scope.value.tenantId)))
           && texts.isUuid(texts.lower(texts.trim(scope.value.projectId)))
           && 0 < |texts.trim(scope.value.assignedBy)| <= 255)
      && (r.Some? ==>
           && r.value.tenantId == texts.lower(texts.trim(scope.value.tenantId))
           && r.value.projectId == texts.lower(texts.trim(scope.value.projectId))
           && r.value.assignedBy == texts.trim(scope.value.assignedBy))
  {
  }

  datatype ImportReport = ImportReport(applied: bool, correlationIds: Mapping)

  /**
   * The statements of one try block: the error that leaves it, and whether the transaction had begun.
   */
  method Transact<S(!new,==), K(!new,==)>(
      db: Connection<S>, expected: Tables<S>, apply: bool, tenant: string, project: string, same: S -> K)
      returns (error: Option<ImportError>, began: bool)
    requires db.working.None? && Asymmetric(db.before) && Sound(expected.AsBundle(), same)
    requires expected.scopes == ScopeRows(expected.workspaces, tenant, project)
    modifies db
    ensures error.None? ==>
      && db.working.None? && old(db.committed).Empty() && db.prepared && expected.Fits(db.stores)
      && Listed(expected.AsBundle(), expected.audit, db.before)
      && db.committed == if apply then expected else old(db.committed)
    ensures error.Some? ==> db.committed == old(db.committed) && (began <==> db.working.Some?)
    ensures error.Some? ==>
      BlamesTarget(error.value, expected.AsBundle(), expected.audit, db.prepared, old(db.committed), db.before)
    ensures (db.NeverFails() && db.prepared && old(db.committed).Empty() && expected.Fits(db.stores)
      && Listed(expected.AsBundle(), expected.audit, db.before)) ==> error.None?
  {
    EmptyIsFirstStage(db.committed, expected, db.stores);
    AcceptedBundlePassesIntegrity(expected.AsBundle(), tenant, project, same);
    assert PassesIntegrity(expected.AsBundle(), expected.scopes, tenant, project, same);
    ReadBackIsExact(expected, db.before);
    ReadBackKeepsScopes(expected, db.before);
    BlamesOfTarget(expected.AsBundle(), expected.audit, db.prepared, db.committed, db.before);
    hide *;
    began := db.Begin();
    if !began { return Some(QueryFailed), began; }
    var statement := 0;
    while statement < 6
      invariant db.working == Some(old(db.committed)) && db.committed == old(db.committed) && !db.aborted
    {
      // three settings, the advisory lock, the migrations query and the privileges query
      var ok := db.Execute();
      if !ok { return Some(QueryFailed), began; }
      statement := statement + 1;
    }
    if !db.prepared { return Some(NotPrepared), began; }
    var initial := db.Read();
    if initial.None? { return Some(QueryFailed), began; }
    var initialScopes := db.Read();
    if initialScopes.None? { return Some(QueryFailed), began; }
    var i := initial.value;
    if |i.workspaces| != 0 || |i.revisions| != 0 || |i.members| != 0 || |i.audit| != 0 || |initialScopes.value.scopes| != 0 {
      return Some(TargetNotEmpty), began;
    }

    var inserted := InsertTargetData(db, expected);
    if !inserted { return Some(QueryFailed), began; }
    error := VerifyTarget(db, expected, tenant, project, same);
    if error.Some? { return; }

    if apply {
      if |expected.audit| > 0 {
        var advanced := db.Execute();
        if !advanced { return Some(QueryFailed), began; }
      }
      var closed := db.Commit();
      if !closed { return Some(QueryFailed), began; }
    } else {
      var closed := db.Rollback();
      if !closed { return Some(QueryFailed), began; }
    }
    error := None;
  }

  lemma EmptyIsFirstStage<S>(t: Tables<S>, data: Tables<S>, stores: S -> bool)
    ensures t.Empty() <==> |t.workspaces| == |t.revisions| == |t.members| == |t.audit| == |t.scopes| == 0
    ensures t.Empty() ==> t == Stage(data, 0)
    ensures Stage(data, 0).Fits(stores)
    ensures Stage(data, 5) == data
  {
  }

  /** Counts, integrity and contents as read back inside the transaction. */
  method VerifyTarget<S(!new,==), K(!new,==)>(
      db: Connection<S>, expected: Tables<S>, tenant: string, project: string, same: S -> K)
      returns (error: Option<ImportError>)
    requires db.working.Some? && !db.aborted && Asymmetric(db.before)
    modifies db
    ensures db.committed == old(db.committed) && db.working == old(db.working)
    ensures error.None? ==>
      && !db.aborted && ReadBack(db.working.value, db.before).(scopes := expected.scopes) == expected
      && PassesIntegrity(db.working.value.AsBundle(), db.working.value.scopes, tenant, project, same)
    ensures (error.Some? && old(db.working) == Some(expected) && |expected.scopes| == |expected.workspaces|
      && PassesIntegrity(expected.AsBundle(), expected.scopes, tenant, project, same)) ==>
        error == Some(QueryFailed) || (error == Some(ContentsDiffer) && !Listed(expected.AsBundle(), expected.audit, db.before))
    ensures (db.NeverFails() && old(db.working) == Some(expected) && |expected.scopes| == |expected.workspaces|
      && Listed(expected.AsBundle(), expected.audit, db.before)
      && PassesIntegrity(expected.AsBundle(), expected.scopes, tenant, project, same)) ==> error.None?
  {
    ReadBackIsExact(expected, db.before);
    hide PassesIntegrity;
    hide OrderBy;
    hide Listed;
    var counts := db.Read();
    if counts.None? { return Some(QueryFailed); }
    var c := counts.value;
    if |c.workspaces| != |expected.workspaces| || |c.revisions| != |expected.revisions|
       || |c.members| != |expected.members| || |c.audit| != |expected.audit| {
      return Some(CountsDiffer);
    }
    var scopes := db.Read();
    if scopes.None? { return Some(QueryFailed); }
    if |scopes.value.scopes| != |expected.workspaces| {
      return Some(CountsDiffer);
    }
    var integrity := db.Read();
    if integrity.None? { return Some(QueryFailed); }
    var t := integrity.value;
    if !PassesIntegrity(t.AsBundle(), t.scopes, tenant, project, same) { return Some(IntegrityFailed); }
    var workspaces := db.Read();
    if workspaces.None? { return Some(QueryFailed); }
    var revisions := db.Read();
    if revisions.None? { return Some(QueryFailed); }
    var members := db.Read();
    if members.None? { return Some(QueryFailed); }
    var audit := db.Read();
    if audit.None? { return Some(QueryFailed); }
    if OrderBy(workspaces.value.workspaces, WorkspaceBefore(db.before)) != expected.workspaces
       || OrderBy(revisions.value.revisions, RevisionBefore(db.before)) != expected.revisions
       || OrderBy(members.value.members, MemberBefore(db.before)) != expected.members
       || OrderBy(audit.value.audit, AuditBefore()) != expected.audit {
      return Some(ContentsDiffer);
    }
    error := None;
  }

  /** What is checked before a connection is taken. */
  ghost predicate Acceptable<S(!new), K>(
      report: Report<S>, apply: bool, currentSource: Option<Report<S>>, scope: Option<TargetScope>, texts: Texts,
      admits: S -> bool, same: S -> K)
  {
    && AllJson(report.bundle, report.audit, admits) && Sound(report.bundle, same)
    && (apply ==> currentSource.Some?) && (currentSource.Some? ==> currentSource.value == report)
    && InjectiveOn(texts.uuid, StringSet(CorrelationIds(report)))
    && NormalizedTargetScope(scope, texts).Some?
  }

  /** Everything about the request that decides the outcome, apart from the target and its failures. */
  ghost predicate Importable<S(!new), K>(
      report: Report<S>, apply: bool, currentSource: Option<Report<S>>, scope: Option<TargetScope>, texts: Texts,
      admits: S -> bool, same: S -> K)
  {
    Acceptable(report, apply, currentSource, scope, texts, admits, same) && Admissible(report)
  }

  /** A target that can take the report: prepared, empty, holding its JSON, and ordering its rows as they are listed. */
  ghost predicate CanTake<S(!new)>(
      prepared: bool, committed: Tables<S>, before: (Id, Id) -> bool, stores: S -> bool, report: Report<S>)
  {
    && prepared && committed.Empty()
    && Listed(report.bundle, report.audit, before) && AllJson(report.bundle, report.audit, stores)
  }

  /** What the error says of the request is so. */
  ghost predicate BlamesRequest<S(!new), K>(
      error: ImportError, report: Report<S>, apply: bool, currentSource: Option<Report<S>>,
      scope: Option<TargetScope>, texts: Texts, admits: S -> bool, same: S -> K)
  {
    match error
    case NotInSchema =>
      || !AllJson(report.bundle, report.audit, admits)
      || (currentSource.Some? && !AllJson(currentSource.value.bundle, currentSource.value.audit, admits))
    case Refused(violation) =>
      || Explains(report.bundle, same, violation)
      || (currentSource.Some? && Explains(currentSource.value.bundle, same, violation))
    case NeedsCurrentSource => apply && currentSource.None?
    case SourceChanged => currentSource.Some? && currentSource.value != report
    case CorrelationCollision(c) =>
      && c.priorSource in CorrelationIds(report) && c.source in CorrelationIds(report)
      && c.priorSource != c.source && texts.uuid(c.priorSource) == texts.uuid(c.source)
    case InvalidTargetScope => NormalizedTargetScope(scope, texts).None?
    case _ => false
  }

  /** What the error says of the target is so; a failed query needs no reason, and two of the checks never fail. */
  predicate BlamesTarget<S>(
      error: ImportError, b: Bundle<S>, audit: seq<AuditRow<S>>, prepared: bool, committed: Tables<S>, before: (Id, Id) -> bool)
  {
    match error
    case QueryFailed => true
    case NotPrepared => !prepared
    case TargetNotEmpty => !committed.Empty()
    case ContentsDiffer => !Listed(b, audit, before)
    case _ => false
  }

  lemma BlamesOfTarget<S>(
      b: Bundle<S>, audit: seq<AuditRow<S>>, prepared: bool, committed: Tables<S>, before: (Id, Id) -> bool)
    ensures BlamesTarget(QueryFailed, b, audit, prepared, committed, before)
    ensures BlamesTarget(NotPrepared, b, audit, prepared, committed, before) <==> !prepared
    ensures BlamesTarget(TargetNotEmpty, b, audit, prepared, committed, before) <==> !committed.Empty()
    ensures BlamesTarget(ContentsDiffer, b, audit, prepared, committed, before) <==> !Listed(b, audit, before)
  {
    hide Listed;
  }

  const CASED: Report<int> := Report(
    Bundle([Workspace("w", 7, 1)], [Revision("w", 1, 7, "c")], [Membership("w", "Z", Owner), Membership("w", "a", Viewer)]),
    [])

  lemma CasedIsSound()
    ensures Sound(CASED.bundle, Itself<int>())
  {
    var b := CASED.bundle;
    HistorySnoc(b.revisions, 0, "w");
    assert b.revisions[..1] == b.revisions && b.revisions[..0] == [];
    assert IsOwner(b.members[0], "w") && b.workspaces[0].id == "w";
    assert SoundWorkspace(b.workspaces[0], b, Itself<int>());
  }

  lemma CasedIsListed()
    ensures Listed(CASED.bundle, CASED.audit, BinaryBefore()) && !Listed(CASED.bundle, CASED.audit, DictionaryBefore())
  {
    var b := CASED.bundle;
    assert LowerCase("Z") == "z" && LowerCase("a") == "a";
    assert DictionaryBefore()("a", "Z");
    assert MemberBefore(DictionaryBefore())(b.members[1], b.members[0]);
  }

  /**
   * A report that is importable and that a target takes if it orders text as SQLite does, but that no target takes
   * if it orders text as a dictionary does: the members "Z" and "a" are read back the other way round.
   */
  lemma DictionaryRefusesBinaryOrder(
      scope: Option<TargetScope>, texts: Texts, admits: int -> bool, stores: int -> bool, prepared: bool, t: Tables<int>)
    requires NormalizedTargetScope(scope, texts).Some? && admits(7) && stores(7)
    ensures Importable(CASED, false, None, scope, texts, admits, Itself<int>())
    ensures CanTake(true, Nothing(), BinaryBefore(), stores, CASED)
    ensures !CanTake(prepared, t, DictionaryBefore(), stores, CASED)
  {
    CasedIsSound();
    CasedIsListed();
    hide Listed;
    hide Sound;
    assert CorrelationIds(CASED) == ["c"];
    assert CASED.bundle.workspaces[0].id == "w";
  }

  lemma ExpectedHoldsTheSameJson<S>(
      report: Report<S>, values: map<Id, Id>, tenant: string, project: string, stores: S -> bool)
    requires values.Keys == StringSet(CorrelationIds(report))
    ensures var e := ExpectedTables(report, values, tenant, project);
      AllJson(e.AsBundle(), e.audit, stores) <==> AllJson(report.bundle, report.audit, stores)
  {
    CorrelationIdsCover(report);
    var e := ExpectedTables(report, values, tenant, project);
    assert forall i :: 0 <= i < |e.revisions| ==> e.revisions[i].snapshot == report.bundle.revisions[i].snapshot;
    assert forall i :: 0 <= i < |e.audit| ==> e.audit[i].details == report.audit[i].details;
  }

  lemma ExpectedIsListed<S>(
      report: Report<S>, values: map<Id, Id>, tenant: string, project: string, before: (Id, Id) -> bool)
    requires values.Keys == StringSet(CorrelationIds(report))
    ensures var e := ExpectedTables(report, values, tenant, project);
      Listed(e.AsBundle(), e.audit, before) <==> Listed(report.bundle, report.audit, before)
  {
    CorrelationIdsCover(report);
    var e := ExpectedTables(report, values, tenant, project);
    RevisionsListed(e.revisions, report.bundle.revisions, before);
    AuditListed(e.audit, report.audit);
    hide InOrder;
    hide MapRevisions;
    hide MapAudit;
  }

  lemma RevisionsListed<S>(a: seq<Revision<S>>, b: seq<Revision<S>>, before: (Id, Id) -> bool)
    requires |a| == |b| && forall i :: 0 <= i < |a| ==> a[i].workspaceId == b[i].workspaceId && a[i].version == b[i].version
    ensures InOrder(a, RevisionBefore(before)) <==> InOrder(b, RevisionBefore(before))
  {
    if InOrder(a, RevisionBefore(before)) {
      forall i | 0 <= i < |b| - 1
        ensures !RevisionBefore(before)(b[i + 1], b[i])
      {
        assert !RevisionBefore(before)(a[i + 1], a[i]);
      }
    }
    if InOrder(b, RevisionBefore(before)) {
      forall i | 0 <= i < |a| - 1
        ensures !RevisionBefore(before)(a[i + 1], a[i])
      {
        assert !RevisionBefore(before)(b[i + 1], b[i]);
      }
    }
  }

  lemma AuditListed<S>(a: seq<AuditRow<S>>, b: seq<AuditRow<S>>)
    requires |a| == |b| && forall i :: 0 <= i < |a| ==> a[i].id == b[i].id
    ensures InOrder(a, AuditBefore()) <==> InOrder(b, AuditBefore())
  {
    if InOrder(a, AuditBefore()) {
      forall i | 0 <= i < |b| - 1
        ensures !AuditBefore()(b[i + 1], b[i])
      {
        assert !AuditBefore()(a[i + 1], a[i]);
      }
    }
    if InOrder(b, AuditBefore()) {
      forall i | 0 <= i < |a| - 1
        ensures !AuditBefore()(a[i + 1], a[i])
      {
        assert !AuditBefore()(b[i + 1], b[i]);
      }
    }
  }

  /** parseSqliteCutoverPreflightReport, on the parts of a report that are modelled. */
  method ParseReport<S(!new,==), K(!new,==)>(report: Report<S>, admits: S -> bool, same: S -> K)
      returns (error: Option<ImportError>)
    ensures error.None? <==> AllJson(report.bundle, report.audit, admits) && Sound(report.bundle, same)
    ensures error.Some? ==>
      || (error.value == NotInSchema && !AllJson(report.bundle, report.audit, admits))
      || (error.value.Refused? && Explains(report.bundle, same, error.value.violation))
  {
    hide Sound;
    hide AllJson;
    if !AllJson(report.bundle, report.audit, admits) { return Some(NotInSchema); }
    var violation := ValidateInvariants(report.bundle, same);
    error := if violation.Some? then Some(Refused(violation.value)) else None;
  }

  method CheckRequest<S(!new,==), K(!new,==)>(
      report: Report<S>, apply: bool, currentSource: Option<Report<S>>,
      scope: Option<TargetScope>, texts: Texts, admits: S -> bool, same: S -> K)
      returns (result: Result<(Mapping, TargetScope), ImportError>)
    ensures result.Ok? <==> Acceptable(report, apply, currentSource, scope, texts, admits, same)
    ensures result.Ok? ==> var (mapping, target) := result.value;
      && NormalizedTargetScope(scope, texts) == Some(target)
      && mapping.values.Keys == StringSet(CorrelationIds(report))
      && (forall s :: s in mapping.values ==> mapping.values[s] == texts.uuid(s))
      && mapping.remapped == |Remapped(StringSet(CorrelationIds(report)), texts.uuid, texts.lower)|
    ensures result.Error? ==> BlamesRequest(result.error, report, apply, currentSource, scope, texts, admits, same)
  {
    hide Sound;
    hide AllJson;
    hide Explains;
    hide Remapped;
    var error := ParseReport(report, admits, same);
    if error.Some? { return Error(error.value); }
    if apply && currentSource.None? { return Error(NeedsCurrentSource); }
    if currentSource.Some? {
      error := ParseReport(currentSource.value, admits, same);
      if error.Some? { return Error(error.value); }
      if currentSource.value != report { return Error(SourceChanged); }
    }
    var mapping := CreateCorrelationIdMapping(CorrelationIds(report), texts.uuid, texts.lower);
    if mapping.Error? { return Error(CorrelationCollision(mapping.error)); }
    var target := NormalizedTargetScope(scope, texts);
    if target.None? { return Error(InvalidTargetScope); }
    result := Ok((mapping.value, target.value));
  }

  /** The tables that a mapping of the correlation ids makes of a sound report, and all that is needed of them. */
  lemma ExpectedIsAsReported<S(!new), K>(
      report: Report<S>, values: map<Id, Id>, uuid: Id -> Id, tenant: string, project: string,
      before: (Id, Id) -> bool, stores: S -> bool, same: S -> K)
    requires values.Keys == StringSet(CorrelationIds(report)) && (forall s :: s in values ==> values[s] == uuid(s))
    requires Sound(report.bundle, same)
    ensures var e := ExpectedTables(report, values, tenant, project);
      && Migrated(report, uuid, tenant, project, e) && Sound(e.AsBundle(), same)
      && e.scopes == ScopeRows(e.workspaces, tenant, project)
      && (e.Fits(stores) <==> Admissible(report) && AllJson(report.bundle, report.audit, stores))
      && (Listed(e.AsBundle(), e.audit, before) <==> Listed(report.bundle, report.audit, before))
  {
    ExpectedIsSound(report, values, tenant, project, same);
    ExpectedIsConsistent(report, values, tenant, project);
    ExpectedIsListed(report, values, tenant, project, before);
    ExpectedHoldsTheSameJson(report, values, tenant, project, stores);
    ExpectedIsMigrated(report, values, uuid, tenant, project);
    hide Migrated;
    hide Sound;
    hide Listed;
    hide AllJson;
    hide Admissible;
  }

  /**
   * Rehearses or applies an import. Whatever fails, the committed tables are either untouched or, on an
   * applied success, exactly the expected ones in a target that was empty; and the connection goes back
   * to the pool with no open transaction, or is discarded.
   */
  method Import<S(!new,==), K(!new,==)>(
      db: Connection<S>, report: Report<S>, apply: bool, currentSource: Option<Report<S>>,
      scope: Option<TargetScope>, texts: Texts, admits: S -> bool, same: S -> K)
      returns (result: Result<ImportReport, ImportError>, discarded: bool)
    requires db.working.None? && Asymmetric(db.before)
    modifies db
    ensures result.Ok? ==> var ids := result.value.correlationIds.values;
      && Importable(report, apply, currentSource, scope, texts, admits, same)
      && CanTake(db.prepared, old(db.committed), db.before, db.stores, report)
      && result.value.applied == apply
      && ids.Keys == StringSet(CorrelationIds(report)) && (forall s :: s in ids ==> ids[s] == texts.uuid(s))
      && result.value.correlationIds.remapped == |Remapped(StringSet(CorrelationIds(report)), texts.uuid, texts.lower)|
      && var target := NormalizedTargetScope(scope, texts).value;
         if apply then Migrated(report, texts.uuid, target.tenantId, target.projectId, db.committed)
         else db.committed == old(db.committed)
    ensures result.Error? ==> db.committed == old(db.committed)
    ensures result.Error? ==>
      || BlamesRequest(result.error, report, apply, currentSource, scope, texts, admits, same)
      || (&& Acceptable(report, apply, currentSource, scope, texts, admits, same)
          && BlamesTarget(result.error, report.bundle, report.audit, db.prepared, old(db.committed), db.before))
    ensures discarded <==> db.working.Some?
    ensures discarded ==> result.Error?
    ensures db.NeverFails() ==>
      (result.Ok? <==> Importable(report, apply, currentSource, scope, texts, admits, same)
                       && CanTake(db.prepared, old(db.committed), db.before, db.stores, report))
  {
    discarded := false;
    var request := CheckRequest(report, apply, currentSource, scope, texts, admits, same);
    if request.Error? { return Error(request.error), discarded; }
    var (mapping, target) := request.value;
    var expected := ExpectedTables(report, mapping.values, target.tenantId, target.projectId);
    ExpectedIsAsReported(
      report, mapping.values, texts.uuid, target.tenantId, target.projectId, db.before, db.stores, same);
    hide Admissible;
    hide InjectiveOn;
    hide Remapped;
    hide Sound;
    hide Listed;
    hide Asymmetric;
    hide AllJson;
    hide Migrated;
    hide ExpectedTables;
    var error, began := Transact(db, expected, apply, target.tenantId, target.projectId, same);
    if error.None? {
      return Ok(ImportReport(apply, mapping)), discarded;
    }
    if began {
      var rolledBack := db.Rollback();
      discarded := !rolledBack;
    }
    result := Error(error.value);
  }
}
