/** The history checks that guard a cutover bundle (apps/api/src/cutover-preflight.ts). */
module Preflight {
  import opened Common
  import opened CodeUnits
  import opened NumberToken
  import opened JsonValues
  import opened CanonicalPrinter
  import opened CanonicalText
  import opened CanonicalDocument
  import opened NumberScan

  type Id = string

  datatype Role = Owner | Editor | Reviewer | Viewer

  /** The columns of the bundle that the checks look at. */
  datatype Workspace<S> = Workspace(id: Id, snapshot: S, version: int)
  datatype Revision<S> = Revision(workspaceId: Id, version: int, snapshot: S, correlationId: Id)
  datatype Membership = Membership(workspaceId: Id, userId: Id, role: Role)

  datatype Bundle<S> = Bundle(
    workspaces: seq<Workspace<S>>, revisions: seq<Revision<S>>, members: seq<Membership>)

  datatype Violation =
    | RevisionWithoutWorkspace(workspaceId: Id)
    | MemberWithoutWorkspace(workspaceId: Id)
    | NoOwner(workspaceId: Id)
    | NoHistory(workspaceId: Id)
    | VersionGap(workspaceId: Id, expected: int)
    | VersionMismatch(workspaceId: Id, version: int, last: int)
    | SnapshotMismatch(workspaceId: Id)

  // --- What the checks are for ---

  predicate HasWorkspace<S>(workspaces: seq<Workspace<S>>, id: Id) {
    exists i :: 0 <= i < |workspaces| && workspaces[i].id == id
  }

  predicate IsOwner(m: Membership, id: Id) {
    m.workspaceId == id && m.role == Owner
  }

  predicate HasOwner(members: seq<Membership>, id: Id) {
    exists i :: 0 <= i < |members| && IsOwner(members[i], id)
  }

  /** The revisions of one workspace, in bundle order. */
  function History<S>(revisions: seq<Revision<S>>, id: Id): (h: seq<Revision<S>>) {
    if |revisions| == 0 then []
    else
      var h := History(revisions[..|revisions| - 1], id);
      var last := revisions[|revisions| - 1];
      if last.workspaceId == id then h + [last] else h
  }

  /** Versions 1..n, in order. */
  predicate Contiguous<S>(h: seq<Revision<S>>) {
    forall k :: 0 <= k < |h| ==> h[k].version == k + 1
  }

  ghost predicate SoundWorkspace<S(!new), K>(w: Workspace<S>, b: Bundle<S>, canonical: S -> K) {
    var h := History(b.revisions, w.id);
    && HasOwner(b.members, w.id)
    && Contiguous(h) && 0 < |h| == w.version
    && canonical(h[|h| - 1].snapshot) == canonical(w.snapshot)
  }

  ghost predicate References<S(!new)>(b: Bundle<S>) {
    && (forall i :: 0 <= i < |b.revisions| ==> HasWorkspace(b.workspaces, b.revisions[i].workspaceId))
    && (forall i :: 0 <= i < |b.members| ==> HasWorkspace(b.workspaces, b.members[i].workspaceId))
  }

  /** Every reference resolves and every workspace is backed by its own complete history and an owner. */
  ghost predicate Sound<S(!new), K>(b: Bundle<S>, canonical: S -> K) {
    && References(b)
    && forall i :: 0 <= i < |b.workspaces| ==> SoundWorkspace(b.workspaces[i], b, canonical)
  }

  /** What the exception says about one workspace, each reason only after the ones before it. */
  ghost predicate Reason<S(!new), K>(w: Workspace<S>, b: Bundle<S>, canonical: S -> K, v: Violation) {
    var h := History(b.revisions, w.id);
    v.workspaceId == w.id &&
    match v
    case NoOwner(_) => !HasOwner(b.members, w.id)
    case NoHistory(_) => HasOwner(b.members, w.id) && |h| == 0
    case VersionGap(_, expected) =>
      && HasOwner(b.members, w.id) && 0 < expected <= |h| && Contiguous(h[..expected - 1])
      && h[expected - 1].version != expected
    case VersionMismatch(_, version, last) =>
      HasOwner(b.members, w.id) && Contiguous(h) && version == w.version && last == |h| && last != version && |h| > 0
    case SnapshotMismatch(_) =>
      && HasOwner(b.members, w.id) && Contiguous(h) && |h| == w.version && |h| > 0
      && canonical(h[|h| - 1].snapshot) != canonical(w.snapshot)
    case _ => false
  }

  /** The exception names the first thing that is wrong. */
  ghost predicate Explains<S(!new), K>(b: Bundle<S>, canonical: S -> K, v: Violation) {
    match v
    case RevisionWithoutWorkspace(id) =>
      exists i :: 0 <= i < |b.revisions| && b.revisions[i].workspaceId == id && !HasWorkspace(b.workspaces, id)
        && forall j :: 0 <= j < i ==> HasWorkspace(b.workspaces, b.revisions[j].workspaceId)
    case MemberWithoutWorkspace(id) =>
      && (forall j :: 0 <= j < |b.revisions| ==> HasWorkspace(b.workspaces, b.revisions[j].workspaceId))
      && exists i :: 0 <= i < |b.members| && b.members[i].workspaceId == id && !HasWorkspace(b.workspaces, id)
           && forall j :: 0 <= j < i ==> HasWorkspace(b.workspaces, b.members[j].workspaceId)
    case _ =>
      && References(b)
      && exists i :: 0 <= i < |b.workspaces| && Reason(b.workspaces[i], b, canonical, v)
           && forall j :: 0 <= j < i ==> SoundWorkspace(b.workspaces[j], b, canonical)
  }

  /** A workspace that is sound has a member who owns it, and none of another workspace will do. */
  lemma SoundIsOwned<S(!new), K>(b: Bundle<S>, canonical: S -> K, i: nat)
    requires Sound(b, canonical) && i < |b.workspaces|
    ensures exists j :: 0 <= j < |b.members| && b.members[j].workspaceId == b.workspaces[i].id && b.members[j].role == Owner
  {
    assert SoundWorkspace(b.workspaces[i], b, canonical);
  }

  lemma HistorySnoc<S>(revisions: seq<Revision<S>>, i: nat, id: Id)
    requires i < |revisions|
    ensures History(revisions[..i + 1], id)
         == History(revisions[..i], id) + if revisions[i].workspaceId == id then [revisions[i]] else []
  {
    assert revisions[..i + 1][..i] == revisions[..i];
  }

  lemma HasWorkspaceSnoc<S(!new)>(workspaces: seq<Workspace<S>>, i: nat, id: Id)
    requires i < |workspaces|
    ensures HasWorkspace(workspaces[..i + 1], id) <==> HasWorkspace(workspaces[..i], id) || id == workspaces[i].id
  {
    if j :| 0 <= j < i && workspaces[..i][j].id == id { assert workspaces[..i + 1][j].id == id; }
    if id == workspaces[i].id { assert workspaces[..i + 1][i].id == id; }
  }

  // --- validateInvariants ---

  method FindOwner(members: seq<Membership>, id: Id) returns (found: bool)
    ensures found <==> HasOwner(members, id)
  {
    var i := 0;
    while i < |members|
      invariant 0 <= i <= |members|
      invariant forall j :: 0 <= j < i ==> !IsOwner(members[j], id)
    {
      if IsOwner(members[i], id) {
        return true;
      }
      i := i + 1;
    }
    found := false;
  }

  method ValidateWorkspace<S(!new), K(==)>(w: Workspace<S>, history: seq<Revision<S>>, b: Bundle<S>, canonical: S -> K)
      returns (violation: Option<Violation>)
    requires history == History(b.revisions, w.id)
    ensures violation.None? <==> SoundWorkspace(w, b, canonical)
    ensures violation.Some? ==> Reason(w, b, canonical, violation.value)
  {
    var owned := FindOwner(b.members, w.id);
    if !owned {
      return Some(NoOwner(w.id));
    }
    if |history| == 0 {
      return Some(NoHistory(w.id));
    }
    var index := 0;
    while index < |history|
      invariant 0 <= index <= |history|
      invariant Contiguous(history[..index])
    {
      if history[index].version != index + 1 {
        return Some(VersionGap(w.id, index + 1));
      }
      index := index + 1;
    }
    assert history[..index] == history;
    var current := history[|history| - 1];
    if current.version != w.version {
      return Some(VersionMismatch(w.id, w.version, current.version));
    }
    if canonical(w.snapshot) != canonical(current.snapshot) {
      return Some(SnapshotMismatch(w.id));
    }
    violation := None;
  }

  method OpenHistories<S(!new)>(workspaces: seq<Workspace<S>>) returns (histories: map<Id, seq<Revision<S>>>)
    ensures forall id :: id in histories <==> HasWorkspace(workspaces, id)
    ensures forall id :: id in histories ==> histories[id] == []
  {
    histories := map[];
    var i := 0;
    while i < |workspaces|
      invariant 0 <= i <= |workspaces|
      invariant forall id :: id in histories <==> HasWorkspace(workspaces[..i], id)
      invariant forall id :: id in histories ==> histories[id] == []
    {
      histories := histories[workspaces[i].id := []];
      forall id
        ensures HasWorkspace(workspaces[..i + 1], id) <==> HasWorkspace(workspaces[..i], id) || id == workspaces[i].id
      {
        HasWorkspaceSnoc(workspaces, i, id);
      }
      i := i + 1;
    }
    assert workspaces[..i] == workspaces;
  }

  ghost predicate AreHistories<S(!new)>(histories: map<Id, seq<Revision<S>>>, revisions: seq<Revision<S>>) {
    forall id :: id in histories ==> histories[id] == History(revisions, id)
  }

  lemma HistoriesExtend<S(!new)>(revisions: seq<Revision<S>>, i: nat, histories: map<Id, seq<Revision<S>>>)
    requires i < |revisions| && AreHistories(histories, revisions[..i]) && revisions[i].workspaceId in histories
    ensures var id := revisions[i].workspaceId;
      AreHistories(histories[id := histories[id] + [revisions[i]]], revisions[..i + 1])
  {
    var id := revisions[i].workspaceId;
    var after := histories[id := histories[id] + [revisions[i]]];
    hide History;
    forall other | other in after
      ensures after[other] == History(revisions[..i + 1], other)
    {
      HistorySnoc(revisions, i, other);
    }
  }

  method CollectHistories<S(!new)>(b: Bundle<S>)
      returns (histories: map<Id, seq<Revision<S>>>, violation: Option<Violation>)
    ensures forall id :: id in histories <==> HasWorkspace(b.workspaces, id)
    ensures violation.None? ==>
      && (forall i :: 0 <= i < |b.revisions| ==> HasWorkspace(b.workspaces, b.revisions[i].workspaceId))
      && forall id :: id in histories ==> histories[id] == History(b.revisions, id)
    ensures violation.Some? ==> violation.value.RevisionWithoutWorkspace? && exists i ::
      && 0 <= i < |b.revisions| && b.revisions[i].workspaceId == violation.value.workspaceId
      && !HasWorkspace(b.workspaces, b.revisions[i].workspaceId)
      && forall j :: 0 <= j < i ==> HasWorkspace(b.workspaces, b.revisions[j].workspaceId)
  {
    histories := OpenHistories(b.workspaces);
    var i := 0;
    while i < |b.revisions|
      invariant 0 <= i <= |b.revisions|
      invariant forall id :: id in histories <==> HasWorkspace(b.workspaces, id)
      invariant AreHistories(histories, b.revisions[..i])
      invariant forall j :: 0 <= j < i ==> HasWorkspace(b.workspaces, b.revisions[j].workspaceId)
    {
      var revision := b.revisions[i];
      if revision.workspaceId !in histories {
        return histories, Some(RevisionWithoutWorkspace(revision.workspaceId));
      }
      HistoriesExtend(b.revisions, i, histories);
      histories := histories[revision.workspaceId := histories[revision.workspaceId] + [revision]];
      i := i + 1;
    }
    assert b.revisions[..i] == b.revisions;
    violation := None;
  }

  method ValidateInvariants<S(!new), K(==)>(b: Bundle<S>, canonical: S -> K) returns (violation: Option<Violation>)
    ensures violation.None? <==> Sound(b, canonical)
    ensures violation.Some? ==> Explains(b, canonical, violation.value)
  {
    hide SoundWorkspace;
    var histories;
    histories, violation := CollectHistories(b);
    if violation.Some? {
      return;
    }
    var i := 0;
    while i < |b.members|
      invariant 0 <= i <= |b.members|
      invariant forall j :: 0 <= j < i ==> HasWorkspace(b.workspaces, b.members[j].workspaceId)
    {
      if b.members[i].workspaceId !in histories {
        return Some(MemberWithoutWorkspace(b.members[i].workspaceId));
      }
      i := i + 1;
    }
    i := 0;
    while i < |b.workspaces|
      invariant 0 <= i <= |b.workspaces|
      invariant forall j :: 0 <= j < i ==> SoundWorkspace(b.workspaces[j], b, canonical)
    {
      var w := b.workspaces[i];
      assert HasWorkspace(b.workspaces, w.id);
      violation := ValidateWorkspace(w, histories[w.id], b, canonical);
      if violation.Some? {
        return;
      }
      i := i + 1;
    }
    violation := None;
  }

  // --- The snapshot comparison by printed text ---

  function PrintedBy(spell: Double -> NumberSyntax): Json<Double> -> Str {
    (v: Json<Double>) => CanonicalJson(v, spell)
  }

  function MeaningOf(): Json<Double> -> Meaning<Double> {
    (v: Json<Double>) => Denote(v, Itself())
  }

  /** JSON with finite numbers, of which the bundle schema admits those within the safe integers. */
  predicate AdmittedJson(v: Json<Double>) {
    WellKeyed(v) && Everywhere(v, IsFinite)
  }

  predicate AdmittedSnapshots(b: Bundle<Json<Double>>) {
    && (forall i :: 0 <= i < |b.workspaces| ==> AdmittedJson(b.workspaces[i].snapshot))
    && (forall i :: 0 <= i < |b.revisions| ==> AdmittedJson(b.revisions[i].snapshot))
  }

  lemma {:induction false} HistoryAt<S>(revisions: seq<Revision<S>>, id: Id, k: nat) returns (i: nat)
    requires k < |History(revisions, id)|
    ensures i < |revisions| && revisions[i] == History(revisions, id)[k] && revisions[i].workspaceId == id
  {
    var n := |revisions| - 1;
    if k < |History(revisions[..n], id)| {
      i := HistoryAt(revisions[..n], id, k);
    } else {
      i := n;
    }
  }

  /** Comparing printed text accepts a bundle exactly when the snapshots are equal as JSON values. */
  lemma SoundByMeaning(b: Bundle<Json<Double>>, js: Numerics, spell: Double -> NumberSyntax)
    requires AdmittedSnapshots(b) && PrintsRoundTrip(js, spell)
    ensures Sound(b, PrintedBy(spell)) <==> Sound(b, MeaningOf())
  {
    forall i | 0 <= i < |b.workspaces|
      ensures SoundWorkspace(b.workspaces[i], b, PrintedBy(spell)) <==> SoundWorkspace(b.workspaces[i], b, MeaningOf())
    {
      var w := b.workspaces[i];
      var h := History(b.revisions, w.id);
      if |h| > 0 {
        var k := HistoryAt(b.revisions, w.id, |h| - 1);
        assert AdmittedJson(h[|h| - 1].snapshot) && AdmittedJson(w.snapshot);
        CanonicalFormOfDoubles(h[|h| - 1].snapshot, w.snapshot, js, spell);
      }
      hide CanonicalJson;
      hide Denote;
      hide History;
      hide PrintsRoundTrip;
    }
  }
}
