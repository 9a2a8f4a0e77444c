/** Versioned workspaces in SQLite (apps/api/src/database.ts): every method is one transaction. */
module WorkspaceHistory {
  import opened Common
  import opened KeyedList
  import opened Canvas
  import P = Preflight

  datatype Scope = Scope(tenantId: string, projectId: string)

  datatype WorkspaceRow<V> = WorkspaceRow(snapshot: Snapshot<V>, version: int, updatedBy: Id)
  datatype RevisionRow<V> = RevisionRow(snapshot: Snapshot<V>, changeSummary: string, actor: Id)

  /** The tables, keyed by their primary keys. */
  datatype State<V> = State(
    workspaces: map<Id, WorkspaceRow<V>>,
    revisions: map<(Id, int), RevisionRow<V>>,
    members: map<(Id, Id), P.Role>,
    scopes: map<Id, Scope>)

  datatype Failure = NotFound | Conflict | Forbidden | DataIntegrity

  const EMPTY_CANVAS_VIEWPORT := Viewport(0.0, 0.0, 1.0)

  function EmptyCanvas<V>(): Snapshot<V> {
    Snapshot(EMPTY_CANVAS_VIEWPORT, [], [])
  }

  // --- What each call does to the tables ---

  function Owners<V>(s: State<V>, id: Id): set<(Id, Id)> {
    set k | k in s.members && k.0 == id && s.members[k] == P.Owner
  }

  /** getWorkspaceMember */
  function MemberRole<V>(s: State<V>, id: Id, user: Id, context: Option<Scope>): Result<P.Role, Failure> {
    if id !in s.workspaces then Error(NotFound)
    else if id in s.scopes && context != Some(s.scopes[id]) then Error(NotFound)
    else if (id, user) !in s.members then Error(Forbidden)
    else Ok(s.members[(id, user)])
  }

  /** A new version: the workspace row moves on and one revision row is added. */
  function Append<V>(s: State<V>, id: Id, r: RevisionRow<V>): State<V>
    requires id in s.workspaces
  {
    var next := s.workspaces[id].version + 1;
    s.(workspaces := s.workspaces[id := WorkspaceRow(r.snapshot, next, r.actor)], revisions := s.revisions[(id, next) := r])
  }

  datatype Call<V> =
    | Create(id: Id, actor: Id, scope: Scope)
    | UpsertMember(id: Id, actor: Id, target: Id, role: P.Role, context: Option<Scope>)
    | RemoveMember(id: Id, actor: Id, target: Id, context: Option<Scope>)
    | ApplyOperations(id: Id, actor: Id, baseVersion: int, operations: seq<Operation<V>>, summary: string, context: Option<Scope>)
    | Save(id: Id, actor: Id, expectedVersion: int, snapshot: Snapshot<V>, summary: string)
    | Rollback(id: Id, actor: Id, expectedVersion: int, targetVersion: int, summary: string)
    | Seed(id: Id, snapshot: Snapshot<V>, people: map<Id, P.Role>)

  function Step<V>(s: State<V>, call: Call<V>): Result<State<V>, Failure> {
    match call
    case Create(id, actor, scope) =>
      if id in s.workspaces then Error(Conflict) else
        Ok(State(s.workspaces[id := WorkspaceRow(EmptyCanvas(), 1, actor)],
                 s.revisions[(id, 1) := RevisionRow(EmptyCanvas(), "Initial workspace", actor)],
                 s.members[(id, actor) := P.Owner], s.scopes[id := scope]))
    case UpsertMember(id, actor, target, role, context) =>
      var m := MemberRole(s, id, actor, context);
      if m.Error? then Error(m.error)
      else if m.value != P.Owner then Error(Forbidden)
      else if (id, target) in s.members && s.members[(id, target)] == P.Owner && role != P.Owner && |Owners(s, id)| <= 1
      then Error(Conflict)
      else Ok(s.(members := s.members[(id, target) := role]))
    case RemoveMember(id, actor, target, context) =>
      var m := MemberRole(s, id, actor, context);
      if m.Error? then Error(m.error)
      else if m.value != P.Owner then Error(Forbidden)
      else if (id, target) !in s.members then Error(NotFound)
      else if s.members[(id, target)] == P.Owner && |Owners(s, id)| <= 1 then Error(Conflict)
      else Ok(s.(members := s.members - {(id, target)}))
    case ApplyOperations(id, actor, base, operations, summary, context) =>
      var m := MemberRole(s, id, actor, context);
      if m.Error? then Error(m.error)
      else if m.value != P.Owner && m.value != P.Editor then Error(Forbidden)
      else if s.workspaces[id].version != base then Error(Conflict)
      else
        var next := Apply(s.workspaces[id].snapshot, operations);
        if next.None? then Error(DataIntegrity) else Ok(Append(s, id, RevisionRow(next.value, summary, actor)))
    case Save(id, actor, expected, snapshot, summary) =>
      if id !in s.workspaces then Error(NotFound)
      else if s.workspaces[id].version != expected then Error(Conflict)
      else Ok(Append(s, id, RevisionRow(snapshot, summary, actor)))
    case Rollback(id, actor, expected, target, summary) =>
      if id !in s.workspaces then Error(NotFound)
      else if s.workspaces[id].version != expected then Error(Conflict)
      else if (id, target) !in s.revisions then Error(NotFound)
      else Ok(Append(s, id, RevisionRow(s.revisions[(id, target)].snapshot, summary, actor)))
    case Seed(id, snapshot, people) =>
      var seeded :=
        if id in s.workspaces then s else
          s.(workspaces := s.workspaces[id := WorkspaceRow(snapshot, 1, "system")],
             revisions := s.revisions[(id, 1) := RevisionRow(snapshot, "Seeded canvas", "system")]);
      Ok(seeded.(members := InsertMissing(seeded.members, id, people)))
  }

  /** INSERT ... ON CONFLICT DO NOTHING */
  function InsertMissing(members: map<(Id, Id), P.Role>, id: Id, people: map<Id, P.Role>): map<(Id, Id), P.Role> {
    (map u | u in people :: (id, u) := people[u]) + members
  }

  /** Failed calls roll back. */
  function After<V>(s: State<V>, call: Call<V>): State<V> {
    match Step(s, call)
    case Ok(next) => next
    case Error(_) => s
  }

  function Run<V>(s: State<V>, calls: seq<Call<V>>): State<V>
    decreases |calls|
  {
    if |calls| == 0 then s else Run(After(s, calls[0]), calls[1..])
  }

  function Fresh<V>(): State<V> {
    State(map[], map[], map[], map[])
  }

  /** A call ends with the tables it promises, or fails and leaves the tables it found. */
  ghost predicate Performs<V>(before: State<V>, call: Call<V>, error: Option<Failure>, after: State<V>) {
    match Step(before, call)
    case Ok(next) => error.None? && after == next
    case Error(e) => error == Some(e) && after == before
  }

  // --- The class: the same calls as transactions over fields ---

  class FusionDatabase<V> {
    var workspaces: map<Id, WorkspaceRow<V>>
    var revisions: map<(Id, int), RevisionRow<V>>
    var members: map<(Id, Id), P.Role>
    var scopes: map<Id, Scope>

    function Tables(): State<V>
      reads this
    {
      State(workspaces, revisions, members, scopes)
    }

    constructor ()
      ensures Tables() == Fresh()
    {
      workspaces, revisions, members, scopes := map[], map[], map[], map[];
    }

    method CreateWorkspace(id: Id, actor: Id, scope: Scope) returns (error: Option<Failure>)
      modifies this
      ensures Performs(old(Tables()), Create(id, actor, scope), error, Tables())
    {
      if id in workspaces {
        return Some(Conflict);
      }
      workspaces := workspaces[id := WorkspaceRow(EmptyCanvas(), 1, actor)];
      scopes := scopes[id := scope];
      members := members[(id, actor) := P.Owner];
      revisions := revisions[(id, 1) := RevisionRow(EmptyCanvas(), "Initial workspace", actor)];
      error := None;
    }

    method GetWorkspaceMember(id: Id, user: Id, context: Option<Scope>) returns (role: Result<P.Role, Failure>)
      ensures role == MemberRole(Tables(), id, user, context)
    {
      if id !in workspaces {
        return Error(NotFound);
      }
      if id in scopes {
        if context.None? || context.value.tenantId != scopes[id].tenantId || context.value.projectId != scopes[id].projectId {
          return Error(NotFound);
        }
      }
      if (id, user) !in members {
        return Error(Forbidden);
      }
      role := Ok(members[(id, user)]);
    }

    method UpsertWorkspaceMember(id: Id, actor: Id, target: Id, role: P.Role, context: Option<Scope>)
        returns (error: Option<Failure>)
      modifies this
      ensures Performs(old(Tables()), UpsertMember(id, actor, target, role, context), error, Tables())
    {
      var member := GetWorkspaceMember(id, actor, context);
      if member.Error? {
        return Some(member.error);
      }
      if member.value != P.Owner {
        return Some(Forbidden);
      }
      if (id, target) in members && members[(id, target)] == P.Owner && role != P.Owner && |Owners(Tables(), id)| <= 1 {
        return Some(Conflict);
      }
      members := members[(id, target) := role];
      error := None;
    }

    method RemoveWorkspaceMember(id: Id, actor: Id, target: Id, context: Option<Scope>) returns (error: Option<Failure>)
      modifies this
      ensures Performs(old(Tables()), RemoveMember(id, actor, target, context), error, Tables())
    {
      var member := GetWorkspaceMember(id, actor, context);
      if member.Error? {
        return Some(member.error);
      }
      if member.value != P.Owner {
        return Some(Forbidden);
      }
      if (id, target) !in members {
        return Some(NotFound);
      }
      if members[(id, target)] == P.Owner && |Owners(Tables(), id)| <= 1 {
        return Some(Conflict);
      }
      members := members - {(id, target)};
      error := None;
    }

    method ApplyWorkspaceOperations(
        id: Id, actor: Id, baseVersion: int, operations: seq<Operation<V>>, summary: string, context: Option<Scope>)
        returns (error: Option<Failure>)
      modifies this
      ensures Performs(old(Tables()), ApplyOperations(id, actor, baseVersion, operations, summary, context), error, Tables())
    {
      var member := GetWorkspaceMember(id, actor, context);
      if member.Error? {
        return Some(member.error);
      }
      if member.value != P.Owner && member.value != P.Editor {
        return Some(Forbidden);
      }
      var current := workspaces[id];
      if current.version != baseVersion {
        return Some(Conflict);
      }
      var next := ApplyCanvasOperations(current.snapshot, operations);
      if next.Error? {
        return Some(DataIntegrity);
      }
      AppendRevision(id, RevisionRow(next.value, summary, actor));
      error := None;
    }

    /** The UPDATE and the INSERT that every save shares. */
    method AppendRevision(id: Id, r: RevisionRow<V>)
      requires id in workspaces
      modifies this
      ensures Tables() == Append(old(Tables()), id, r)
    {
      var nextVersion := workspaces[id].version + 1;
      workspaces := workspaces[id := WorkspaceRow(r.snapshot, nextVersion, r.actor)];
      revisions := revisions[(id, nextVersion) := r];
    }

    method UpdateWorkspace(id: Id, actor: Id, expectedVersion: int, snapshot: Snapshot<V>, summary: string)
        returns (error: Option<Failure>)
      modifies this
      ensures Performs(old(Tables()), Save(id, actor, expectedVersion, snapshot, summary), error, Tables())
    {
      if id !in workspaces {
        return Some(NotFound);
      }
      if workspaces[id].version != expectedVersion {
        return Some(Conflict);
      }
      AppendRevision(id, RevisionRow(snapshot, summary, actor));
      error := None;
    }

    method RollbackWorkspace(id: Id, actor: Id, expectedVersion: int, targetVersion: int, summary: string)
        returns (error: Option<Failure>)
      modifies this
      ensures Performs(old(Tables()), Rollback(id, actor, expectedVersion, targetVersion, summary), error, Tables())
    {
      if id !in workspaces {
        return Some(NotFound);
      }
      if workspaces[id].version != expectedVersion {
        return Some(Conflict);
      }
      if (id, targetVersion) !in revisions {
        return Some(NotFound);
      }
      AppendRevision(id, RevisionRow(revisions[(id, targetVersion)].snapshot, summary, actor));
      error := None;
    }
  }

  // --- What every reachable state satisfies ---

  ghost predicate ValidWorkspace<V(!new)>(s: State<V>, id: Id)
    requires id in s.workspaces
  {
    var w := s.workspaces[id];
    && w.version >= 1
    && (forall k :: (id, k) in s.revisions <==> 1 <= k <= w.version)
    && s.revisions[(id, w.version)].snapshot == w.snapshot && s.revisions[(id, w.version)].actor == w.updatedBy
    && Owners(s, id) != {}
  }

  ghost predicate Valid<V(!new)>(s: State<V>) {
    && (forall id :: id in s.workspaces ==> ValidWorkspace(s, id))
    && (forall id, k :: (id, k) in s.revisions ==> id in s.workspaces)
    && (forall id, u :: (id, u) in s.members ==> id in s.workspaces)
    && (forall id :: id in s.scopes ==> id in s.workspaces)
  }

  /** Calls come from the routes; a seed names at least one owner, as the shipped one does. */
  predicate Admitted<V>(call: Call<V>) {
    call.Seed? ==> exists u :: u in call.people && call.people[u] == P.Owner
  }

  /** All revisions of a workspace, oldest first. */
  ghost function HistoryOf<V(!new)>(s: State<V>, id: Id): (h: seq<RevisionRow<V>>)
    requires Valid(s) && id in s.workspaces
    ensures |h| == s.workspaces[id].version
  {
    assert ValidWorkspace(s, id);
    seq(s.workspaces[id].version, k requires 0 <= k < s.workspaces[id].version => s.revisions[(id, k + 1)])
  }

  lemma AppendKeepsValid<V(!new)>(s: State<V>, id: Id, r: RevisionRow<V>)
    requires Valid(s) && id in s.workspaces
    ensures Valid(Append(s, id, r))
  {
    var t := Append(s, id, r);
    assert ValidWorkspace(s, id);
    forall other | other in t.workspaces
      ensures ValidWorkspace(t, other)
    {
      assert ValidWorkspace(s, other);
      assert Owners(t, other) == Owners(s, other);
    }
  }

  /** A new version extends its own history and no other. */
  lemma AppendExtendsHistory<V(!new)>(s: State<V>, id: Id, r: RevisionRow<V>, other: Id)
    requires Valid(s) && id in s.workspaces && other in s.workspaces && Valid(Append(s, id, r))
    ensures HistoryOf(Append(s, id, r), other) == if other == id then HistoryOf(s, id) + [r] else HistoryOf(s, other)
  {
    hide Valid;
    var t := Append(s, id, r);
    var h, g := HistoryOf(s, other), HistoryOf(t, other);
    hide HistoryOf;
    forall k | 0 <= k < |h|
      ensures g[k] == h[k]
    {
      HistoryEntry(s, other, k);
      HistoryEntry(t, other, k);
    }
    if other == id { HistoryEntry(t, other, |h|); }
  }

  lemma HistoryEntry<V(!new)>(s: State<V>, id: Id, k: nat)
    requires Valid(s) && id in s.workspaces && k < s.workspaces[id].version
    ensures (id, k + 1) in s.revisions && HistoryOf(s, id)[k] == s.revisions[(id, k + 1)]
  {
    assert ValidWorkspace(s, id);
  }

  lemma MembersKeepValid<V(!new)>(s: State<V>, members: map<(Id, Id), P.Role>)
    requires Valid(s)
    requires forall id, u :: (id, u) in members ==> id in s.workspaces
    requires forall id :: id in s.workspaces ==> Owners(s.(members := members), id) != {}
    ensures Valid(s.(members := members))
    ensures forall id :: id in s.workspaces ==> HistoryOf(s.(members := members), id) == HistoryOf(s, id)
  {
    var t := s.(members := members);
    forall id | id in t.workspaces
      ensures ValidWorkspace(t, id)
    {
      assert ValidWorkspace(s, id);
    }
  }

  /** The members table after one member is set to a role, or removed. */
  function WithMember<V>(s: State<V>, id: Id, target: Id, role: Option<P.Role>): State<V> {
    s.(members := if role.Some? then s.members[(id, target) := role.value] else s.members - {(id, target)})
  }

  lemma OtherOwnersStay<V(!new)>(s: State<V>, id: Id, target: Id, role: Option<P.Role>, other: Id)
    requires other != id
    ensures Owners(WithMember(s, id, target, role), other) == Owners(s, other)
  {
  }

  /** Changing one member leaves an owner, by the rule that refuses to touch the last one. */
  lemma OwnerRetained<V(!new)>(s: State<V>, id: Id, target: Id, role: Option<P.Role>)
    requires Owners(s, id) != {}
    requires role == Some(P.Owner) || (id, target) !in s.members || s.members[(id, target)] != P.Owner || |Owners(s, id)| > 1
    ensures Owners(WithMember(s, id, target, role), id) != {}
  {
    var t := WithMember(s, id, target, role);
    if role == Some(P.Owner) {
      assert (id, target) in Owners(t, id);
    } else {
      var owners := Owners(s, id) - {(id, target)};
      assert |owners| > 0 by {
        if (id, target) in Owners(s, id) { assert |owners| == |Owners(s, id)| - 1; } else { assert owners == Owners(s, id); }
      }
      var k :| k in owners;
      assert k in Owners(t, id);
    }
  }

  lemma SameRevisionsSameHistory<V(!new)>(s: State<V>, t: State<V>, id: Id)
    requires Valid(s) && Valid(t) && id in s.workspaces && id in t.workspaces
    requires s.workspaces[id].version == t.workspaces[id].version
    requires forall k :: (id, k) in s.revisions ==> (id, k) in t.revisions && t.revisions[(id, k)] == s.revisions[(id, k)]
    ensures HistoryOf(t, id) == HistoryOf(s, id)
  {
    var h, g := HistoryOf(s, id), HistoryOf(t, id);
    hide Valid;
    forall k | 0 <= k < |h|
      ensures g[k] == h[k]
    {
      HistoryEntry(s, id, k);
      HistoryEntry(t, id, k);
    }
  }

  lemma AddWorkspaceKeepsValid<V(!new)>(s: State<V>, t: State<V>, id: Id, w: WorkspaceRow<V>, r: RevisionRow<V>)
    requires Valid(s) && id !in s.workspaces
    requires t.workspaces == s.workspaces[id := w] && t.revisions == s.revisions[(id, 1) := r]
    requires w.version == 1 && w.snapshot == r.snapshot && w.updatedBy == r.actor && Owners(t, id) != {}
    requires forall k :: k in t.members && k !in s.members ==> k.0 == id
    requires forall k :: k in s.members ==> k in t.members && t.members[k] == s.members[k]
    requires forall other :: other in t.scopes ==> other in s.scopes || other == id
    ensures Valid(t)
  {
    forall other | other in t.workspaces
      ensures ValidWorkspace(t, other)
    {
      if other != id {
        assert ValidWorkspace(s, other);
        assert Owners(t, other) == Owners(s, other);
      }
    }
  }

  lemma SeedMembers(members: map<(Id, Id), P.Role>, id: Id, people: map<Id, P.Role>)
    ensures var r := InsertMissing(members, id, people);
      && (forall k :: k in members ==> k in r && r[k] == members[k])
      && (forall k :: k in r && k !in members ==> k.0 == id)
      && (forall u :: u in people ==> (id, u) in r && ((id, u) !in members ==> r[(id, u)] == people[u]))
  {
  }

  lemma SeedOnlyAddsMembers<V(!new)>(s: State<V>, id: Id, people: map<Id, P.Role>)
    requires Valid(s) && id in s.workspaces
    ensures Valid(s.(members := InsertMissing(s.members, id, people)))
  {
    var t := s.(members := InsertMissing(s.members, id, people));
    SeedMembers(s.members, id, people);
    forall other | other in s.workspaces
      ensures Owners(t, other) != {}
    {
      assert ValidWorkspace(s, other);
      assert Owners(s, other) <= Owners(t, other);
    }
    hide InsertMissing;
    MembersKeepValid(s, t.members);
  }

  lemma SeedAddsWorkspace<V(!new)>(s: State<V>, id: Id, w: WorkspaceRow<V>, r: RevisionRow<V>, people: map<Id, P.Role>)
    requires Valid(s) && id !in s.workspaces && w.version == 1 && w.snapshot == r.snapshot && w.updatedBy == r.actor
    requires exists u :: u in people && people[u] == P.Owner
    ensures Valid(s.(workspaces := s.workspaces[id := w], revisions := s.revisions[(id, 1) := r],
                     members := InsertMissing(s.members, id, people)))
  {
    var t := s.(workspaces := s.workspaces[id := w], revisions := s.revisions[(id, 1) := r],
                members := InsertMissing(s.members, id, people));
    SeedMembers(s.members, id, people);
    var u :| u in people && people[u] == P.Owner;
    assert (id, u) !in s.members;
    assert (id, u) in Owners(t, id);
    hide InsertMissing;
    hide ValidWorkspace;
    AddWorkspaceKeepsValid(s, t, id, w, r);
  }

  lemma SeedKeepsValid<V(!new)>(s: State<V>, call: Call<V>)
    requires Valid(s) && Admitted(call) && call.Seed?
    ensures Valid(After(s, call))
  {
    hide Valid;
    hide InsertMissing;
    if call.id in s.workspaces {
      SeedOnlyAddsMembers(s, call.id, call.people);
    } else {
      SeedAddsWorkspace(s, call.id, WorkspaceRow(call.snapshot, 1, "system"),
                        RevisionRow(call.snapshot, "Seeded canvas", "system"), call.people);
    }
  }

  lemma MemberChangeKeepsValid<V(!new)>(s: State<V>, id: Id, target: Id, role: Option<P.Role>)
    requires Valid(s) && id in s.workspaces
    requires role == Some(P.Owner) || (id, target) !in s.members || s.members[(id, target)] != P.Owner || |Owners(s, id)| > 1
    ensures Valid(WithMember(s, id, target, role))
  {
    forall other | other in s.workspaces
      ensures Owners(WithMember(s, id, target, role), other) != {}
    {
      assert ValidWorkspace(s, other);
      if other == id { OwnerRetained(s, id, target, role); } else { OtherOwnersStay(s, id, target, role, other); }
    }
    MembersKeepValid(s, WithMember(s, id, target, role).members);
  }

  /** Every call keeps every workspace backed by its whole history, and owned. */
  lemma StepKeepsValid<V(!new)>(s: State<V>, call: Call<V>)
    requires Valid(s) && Admitted(call)
    ensures Valid(After(s, call))
  {
    hide Valid;
    hide Apply;
    if Step(s, call).Ok? {
      match call
      case Create(id, actor, scope) =>
        assert (id, actor) in Owners(After(s, call), id);
        CreateKeepsValid(s, call);
      case UpsertMember(id, actor, target, role, context) => MemberChangeKeepsValid(s, id, target, Some(role));
      case RemoveMember(id, actor, target, context) => MemberChangeKeepsValid(s, id, target, None);
      case ApplyOperations(id, actor, base, operations, summary, context) =>
        AppendKeepsValid(s, id, RevisionRow(Apply(s.workspaces[id].snapshot, operations).value, summary, actor));
      case Save(id, actor, expected, snapshot, summary) => AppendKeepsValid(s, id, RevisionRow(snapshot, summary, actor));
      case Rollback(id, actor, expected, target, summary) =>
        AppendKeepsValid(s, id, RevisionRow(s.revisions[(id, target)].snapshot, summary, actor));
      case Seed(_, _, _) => SeedKeepsValid(s, call);
    }
  }

  lemma CreateKeepsValid<V(!new)>(s: State<V>, call: Call<V>)
    requires Valid(s) && call.Create? && call.id !in s.workspaces
    ensures Valid(After(s, call))
  {
    CreatedIsValid(s, call.id, call.actor, call.scope);
    hide Valid;
  }

  lemma CreatedIsValid<V(!new)>(s: State<V>, id: Id, actor: Id, scope: Scope)
    requires Valid(s) && id !in s.workspaces
    ensures Valid(State(s.workspaces[id := WorkspaceRow(EmptyCanvas(), 1, actor)],
                        s.revisions[(id, 1) := RevisionRow(EmptyCanvas(), "Initial workspace", actor)],
                        s.members[(id, actor) := P.Owner], s.scopes[id := scope]))
  {
    var t := State(s.workspaces[id := WorkspaceRow(EmptyCanvas(), 1, actor)],
                   s.revisions[(id, 1) := RevisionRow(EmptyCanvas(), "Initial workspace", actor)],
                   s.members[(id, actor) := P.Owner], s.scopes[id := scope]);
    assert (id, actor) in Owners(t, id);
    AddWorkspaceKeepsValid(s, t, id, WorkspaceRow(EmptyCanvas(), 1, actor), RevisionRow(EmptyCanvas(), "Initial workspace", actor));
  }

  // --- History over runs ---

  /** Nothing that was recorded is ever changed: each history is a prefix of its later self. */
  ghost predicate Extends<V(!new)>(s: State<V>, t: State<V>)
    requires Valid(s) && Valid(t)
  {
    forall id :: id in s.workspaces ==> id in t.workspaces && HistoryOf(s, id) <= HistoryOf(t, id)
  }

  lemma StepExtends<V(!new)>(s: State<V>, call: Call<V>)
    requires Valid(s) && Admitted(call) && Valid(After(s, call))
    ensures Extends(s, After(s, call))
  {
    var t := After(s, call);
    forall id | id in s.workspaces
      ensures id in t.workspaces && HistoryOf(s, id) <= HistoryOf(t, id)
    {
      StepExtendsHistory(s, call, id);
    }
  }

  /** The new version `r` of a workspace with history `h` is what the call was meant to record. */
  ghost predicate Records<V(!new)>(h: seq<RevisionRow<V>>, call: Call<V>, r: RevisionRow<V>)
    requires |h| > 0
  {
    match call
    case ApplyOperations(_, actor, base, operations, summary, _) =>
      && base == |h| && r.actor == actor && r.changeSummary == summary
      && Some(r.snapshot) == Apply(h[|h| - 1].snapshot, operations)
    case Save(_, actor, expected, snapshot, summary) =>
      expected == |h| && r == RevisionRow(snapshot, summary, actor)
    case Rollback(_, actor, expected, target, summary) =>
      expected == |h| && 1 <= target <= |h| && r == RevisionRow(h[target - 1].snapshot, summary, actor)
    case _ => false
  }

  /**
   * Each version comes from one call on the version before it: operations from what they make of its
   * snapshot, a rollback from the earlier revision it names, a save from what was sent.
   */
  lemma StepExtendsHistory<V(!new)>(s: State<V>, call: Call<V>, id: Id)
    requires Valid(s) && Admitted(call) && Valid(After(s, call)) && id in s.workspaces
    ensures id in After(s, call).workspaces
    ensures var h, g := HistoryOf(s, id), HistoryOf(After(s, call), id);
      |h| > 0 && (g == h || exists r :: g == h + [r] && call.id == id && Records(h, call, r))
  {
    assert |HistoryOf(s, id)| > 0 by { assert ValidWorkspace(s, id); }
    if Step(s, call).Ok? && (call.ApplyOperations? || call.Save? || call.Rollback?) {
      VersionCallAppends(s, call);
      NewRowRecords(s, call);
      hide *;
      AppendExtendsHistory(s, call.id, NewRow(s, call), id);
    } else {
      OtherCallKeepsHistory(s, call, id);
    }
  }

  /** The row that a successful versioned call adds. */
  function NewRow<V>(s: State<V>, call: Call<V>): RevisionRow<V>
    requires Step(s, call).Ok? && (call.ApplyOperations? || call.Save? || call.Rollback?)
  {
    match call
    case ApplyOperations(id, actor, _, operations, summary, _) =>
      RevisionRow(Apply(s.workspaces[id].snapshot, operations).value, summary, actor)
    case Save(id, actor, _, snapshot, summary) => RevisionRow(snapshot, summary, actor)
    case Rollback(id, actor, _, target, summary) => RevisionRow(s.revisions[(id, target)].snapshot, summary, actor)
  }

  lemma VersionCallAppends<V(!new)>(s: State<V>, call: Call<V>)
    requires Step(s, call).Ok? && (call.ApplyOperations? || call.Save? || call.Rollback?)
    ensures call.id in s.workspaces && After(s, call) == Append(s, call.id, NewRow(s, call))
  {
  }

  lemma NewRowRecords<V(!new)>(s: State<V>, call: Call<V>)
    requires Valid(s) && Step(s, call).Ok? && (call.ApplyOperations? || call.Save? || call.Rollback?)
    ensures call.id in s.workspaces
    ensures var h := HistoryOf(s, call.id); |h| > 0 && Records(h, call, NewRow(s, call))
  {
    hide Apply;
    var h := HistoryOf(s, call.id);
    assert ValidWorkspace(s, call.id);
    HistoryEntry(s, call.id, |h| - 1);
    if call.Rollback? { HistoryEntry(s, call.id, call.targetVersion - 1); }
  }

  lemma OtherCallKeepsHistory<V(!new)>(s: State<V>, call: Call<V>, id: Id)
    requires Valid(s) && Valid(After(s, call)) && id in s.workspaces
    requires !(call.ApplyOperations? || call.Save? || call.Rollback?) || Step(s, call).Error?
    ensures id in After(s, call).workspaces && HistoryOf(After(s, call), id) == HistoryOf(s, id)
  {
    OtherCallKeepsRevisions(s, call, id);
    hide *;
    SameRevisionsSameHistory(s, After(s, call), id);
  }

  lemma OtherCallKeepsRevisions<V(!new)>(s: State<V>, call: Call<V>, id: Id)
    requires id in s.workspaces
    requires !(call.ApplyOperations? || call.Save? || call.Rollback?) || Step(s, call).Error?
    ensures var t := After(s, call);
      && id in t.workspaces && s.workspaces[id].version == t.workspaces[id].version
      && forall k :: (id, k) in s.revisions ==> (id, k) in t.revisions && t.revisions[(id, k)] == s.revisions[(id, k)]
  {
  }

  lemma {:induction false} RunKeepsValid<V(!new)>(s: State<V>, calls: seq<Call<V>>)
    requires Valid(s) && forall i :: 0 <= i < |calls| ==> Admitted(calls[i])
    ensures Valid(Run(s, calls)) && Extends(s, Run(s, calls))
    decreases |calls|
  {
    if |calls| > 0 {
      var t := After(s, calls[0]);
      StepKeepsValid(s, calls[0]);
      StepExtends(s, calls[0]);
      RunKeepsValid(t, calls[1..]);
    }
  }
}
