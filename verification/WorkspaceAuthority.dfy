/** Who may call what on a SQLite workspace, and what each call changes for whom (apps/api/src/database.ts). */
module WorkspaceAuthority {
  import opened Common
  import opened KeyedList
  import opened Canvas
  import opened WorkspaceHistory
  import P = Preflight

  // --- What a caller can see ---

  function RoleOf<V>(s: State<V>, id: Id, user: Id): Option<P.Role> {
    if (id, user) in s.members then Some(s.members[(id, user)]) else None
  }

  /** The workspace exists and, if it has a scope, the caller is in it. */
  predicate Visible<V>(s: State<V>, id: Id, context: Option<Scope>) {
    id in s.workspaces && (id in s.scopes ==> context == Some(s.scopes[id]))
  }

  ghost predicate OtherOwner<V(!new)>(s: State<V>, id: Id, user: Id) {
    exists other :: other != user && RoleOf(s, id, other) == Some(P.Owner)
  }

  lemma LastOwnerMeansNoOther<V(!new)>(s: State<V>, id: Id, user: Id)
    requires RoleOf(s, id, user) == Some(P.Owner)
    ensures |Owners(s, id)| <= 1 <==> !OtherOwner(s, id, user)
  {
    var owners := Owners(s, id);
    assert (id, user) in owners;
    var rest := owners - {(id, user)};
    assert |rest| == |owners| - 1;
    if OtherOwner(s, id, user) {
      var other :| other != user && RoleOf(s, id, other) == Some(P.Owner);
      assert (id, other) in rest;
    }
    if rest != {} {
      var k :| k in rest;
      assert k == (id, k.1) && RoleOf(s, id, k.1) == Some(P.Owner);
    }
  }

  // --- The first reason for which a call fails ---

  /** Only owners of a workspace they can see change members, and never so that no owner is left. */
  ghost predicate RefusesMemberChange<V(!new)>(
      s: State<V>, id: Id, actor: Id, target: Id, role: Option<P.Role>, context: Option<Scope>, e: Failure)
  {
    if !Visible(s, id, context) then e == NotFound
    else if RoleOf(s, id, actor) != Some(P.Owner) then e == Forbidden
    else if role.None? && RoleOf(s, id, target).None? then e == NotFound
    else e == Conflict && RoleOf(s, id, target) == Some(P.Owner) && role != Some(P.Owner) && !OtherOwner(s, id, target)
  }

  /** Only owners and editors apply operations, to the version they name. */
  predicate RefusesOperations<V>(
      s: State<V>, id: Id, actor: Id, base: int, operations: seq<Operation<V>>, context: Option<Scope>, e: Failure)
  {
    if !Visible(s, id, context) then e == NotFound
    else if RoleOf(s, id, actor) != Some(P.Owner) && RoleOf(s, id, actor) != Some(P.Editor) then e == Forbidden
    else if s.workspaces[id].version != base then e == Conflict
    else e == DataIntegrity && Apply(s.workspaces[id].snapshot, operations).None?
  }

  ghost predicate Refuses<V(!new)>(s: State<V>, call: Call<V>, e: Failure) {
    match call
    case Create(id, _, _) => id in s.workspaces && e == Conflict
    case UpsertMember(id, actor, target, role, context) => RefusesMemberChange(s, id, actor, target, Some(role), context, e)
    case RemoveMember(id, actor, target, context) => RefusesMemberChange(s, id, actor, target, None, context, e)
    case ApplyOperations(id, actor, base, operations, _, context) => RefusesOperations(s, id, actor, base, operations, context, e)
    case Save(id, _, expected, _, _) =>
      if id !in s.workspaces then e == NotFound else e == Conflict && s.workspaces[id].version != expected
    case Rollback(id, _, expected, target, _) =>
      if id !in s.workspaces then e == NotFound
      else if s.workspaces[id].version != expected then e == Conflict
      else e == NotFound && !(1 <= target <= s.workspaces[id].version)
    case Seed(_, _, _) => false
  }

  lemma MemberCallFails<V(!new)>(s: State<V>, call: Call<V>, e: Failure)
    requires call.UpsertMember? || call.RemoveMember?
    ensures Step(s, call) == Error(e) <==> Refuses(s, call, e)
  {
    if RoleOf(s, call.id, call.target) == Some(P.Owner) { LastOwnerMeansNoOther(s, call.id, call.target); }
    hide Owners;
    hide OtherOwner;
  }

  lemma OperationsFail<V(!new)>(s: State<V>, call: Call<V>, e: Failure)
    requires call.ApplyOperations?
    ensures Step(s, call) == Error(e) <==> Refuses(s, call, e)
  {
    hide Apply;
    hide Append;
  }

  lemma OtherCallFails<V(!new)>(s: State<V>, call: Call<V>, e: Failure)
    requires Valid(s) && (call.Create? || call.Save? || call.Rollback? || call.Seed?)
    ensures Step(s, call) == Error(e) <==> Refuses(s, call, e)
  {
    if call.Rollback? && call.id in s.workspaces { assert ValidWorkspace(s, call.id); }
    hide Valid;
    hide Append;
    hide InsertMissing;
  }

  /** A call fails exactly if there is a reason, and then with the first one. */
  lemma CallFailsExactly<V(!new)>(s: State<V>, call: Call<V>, e: Failure)
    requires Valid(s)
    ensures Step(s, call) == Error(e) <==> Refuses(s, call, e)
  {
    hide *;
    match call
    case UpsertMember(_, _, _, _, _) => MemberCallFails(s, call, e);
    case RemoveMember(_, _, _, _) => MemberCallFails(s, call, e);
    case ApplyOperations(_, _, _, _, _, _) => OperationsFail(s, call, e);
    case _ => OtherCallFails(s, call, e);
  }

  // --- What a call that succeeds changes ---

  /** The role of a user after a call: what the call gives or takes if it is about them, and what it was otherwise. */
  function RoleAfter<V>(s: State<V>, call: Call<V>, id: Id, user: Id): Option<P.Role> {
    var before := RoleOf(s, id, user);
    match call
    case Create(i, actor, _) => if i == id && actor == user then Some(P.Owner) else before
    case UpsertMember(i, _, target, role, _) => if i == id && target == user then Some(role) else before
    case RemoveMember(i, _, target, _) => if i == id && target == user then None else before
    case Seed(i, _, people) => if i == id && before.None? && user in people then Some(people[user]) else before
    case _ => before
  }

  lemma RolesAfterCall<V(!new)>(s: State<V>, call: Call<V>, id: Id, user: Id)
    ensures RoleOf(After(s, call), id, user) == if Step(s, call).Ok? then RoleAfter(s, call, id, user) else RoleOf(s, id, user)
  {
    hide Apply;
    hide Owners;
  }

  /** A call leaves the rows and the scopes of all other workspaces as they were. */
  lemma OtherWorkspacesStay<V(!new)>(s: State<V>, call: Call<V>, id: Id)
    requires id != call.id
    ensures var t := After(s, call);
      && (id in t.workspaces <==> id in s.workspaces) && (id in s.workspaces ==> t.workspaces[id] == s.workspaces[id])
      && (id in t.scopes <==> id in s.scopes) && (id in s.scopes ==> t.scopes[id] == s.scopes[id])
      && forall k :: ((id, k) in t.revisions <==> (id, k) in s.revisions)
                     && ((id, k) in s.revisions ==> t.revisions[(id, k)] == s.revisions[(id, k)])
  {
    hide Apply;
    hide Owners;
    hide InsertMissing;
  }

  /** A new workspace is empty, at version one, in the scope and the ownership of its creator. */
  lemma CreatedWorkspace<V(!new)>(s: State<V>, id: Id, actor: Id, scope: Scope, user: Id)
    requires Valid(s) && Step(s, Create(id, actor, scope)).Ok?
    ensures var t := After(s, Create(id, actor, scope));
      && Valid(t) && id in t.workspaces && t.workspaces[id].version == 1 && t.workspaces[id].updatedBy == actor
      && t.workspaces[id].snapshot.nodes == [] && t.workspaces[id].snapshot.edges == []
      && id in t.scopes && t.scopes[id] == scope
      && HistoryOf(t, id) == [RevisionRow(t.workspaces[id].snapshot, "Initial workspace", actor)]
      && RoleOf(t, id, user) == if user == actor then Some(P.Owner) else None
  {
    StepKeepsValid(s, Create(id, actor, scope));
    RolesAfterCall(s, Create(id, actor, scope), id, user);
    var t := After(s, Create(id, actor, scope));
    HistoryEntry(t, id, 0);
  }

  lemma OtherCallKeepsRows<V(!new)>(s: State<V>, call: Call<V>)
    requires call.id in s.workspaces && Step(s, call).Ok? && !(call.ApplyOperations? || call.Save? || call.Rollback?)
    ensures var t := After(s, call); t.scopes == s.scopes && t.workspaces == s.workspaces && t.revisions == s.revisions
  {
    hide InsertMissing;
    hide Owners;
  }

  lemma AppendedRow<V(!new)>(s: State<V>, id: Id, r: RevisionRow<V>)
    requires Valid(s) && id in s.workspaces
    ensures var t := Append(s, id, r);
      && Valid(t) && id in t.workspaces && t.scopes == s.scopes
      && t.workspaces[id].version == s.workspaces[id].version + 1 && t.workspaces[id].updatedBy == r.actor
      && HistoryOf(t, id) == HistoryOf(s, id) + [r]
  {
    AppendKeepsValid(s, id, r);
    AppendExtendsHistory(s, id, r, id);
    hide Valid;
    hide HistoryOf;
  }

  /** A call on versions adds one, by its actor, and no other call touches the rows or the scope of a workspace. */
  lemma VersionsAfterCall<V(!new)>(s: State<V>, call: Call<V>)
    requires Valid(s) && Admitted(call) && call.id in s.workspaces && Step(s, call).Ok?
    ensures var t := After(s, call);
      && Valid(t) && call.id in t.workspaces && t.scopes == s.scopes
      && if call.ApplyOperations? || call.Save? || call.Rollback? then
           && t.workspaces[call.id].version == s.workspaces[call.id].version + 1
           && t.workspaces[call.id].updatedBy == call.actor
           && exists r :: HistoryOf(t, call.id) == HistoryOf(s, call.id) + [r] && RecordsAt(s, call, r)
         else t.workspaces == s.workspaces && t.revisions == s.revisions
  {
    StepKeepsValid(s, call);
    if call.ApplyOperations? || call.Save? || call.Rollback? {
      VersionCallAppends(s, call);
      NewRowRecords(s, call);
      AppendedRow(s, call.id, NewRow(s, call));
      assert NewRow(s, call).actor == call.actor;
      assert RecordsAt(s, call, NewRow(s, call));
      hide *;
    } else {
      OtherCallKeepsRows(s, call);
    }
  }

  ghost predicate RecordsAt<V(!new)>(s: State<V>, call: Call<V>, r: RevisionRow<V>)
    requires Valid(s) && call.id in s.workspaces
  {
    |HistoryOf(s, call.id)| > 0 && Records(HistoryOf(s, call.id), call, r)
  }
}
