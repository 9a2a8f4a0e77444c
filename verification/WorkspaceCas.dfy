/**
 * Versioned workspaces in PostgreSQL (apps/api/src/postgres-workspace-persistence.ts over
 * packages/postgres-runtime/src/workspace-repository.ts): any number of clients read, compute and
 * compare-and-set one workspace in separate transactions.
 */
module WorkspaceCas {
  import opened Common
  import opened KeyedList
  import opened Canvas
  import P = Preflight

  datatype Request<V> =
    | Operations(baseVersion: int, operations: seq<Operation<V>>)
    | Rollback(expectedVersion: int, targetVersion: int)
    | Save(expectedVersion: int, snapshot: Snapshot<V>)
  {
    function Base(): int {
      if Operations? then baseVersion else expectedVersion
    }
  }

  /** A row of workspace_revisions with what the audit event of the same transaction says of it. */
  datatype Revision<V> = Revision(snapshot: Snapshot<V>, actor: Id, cause: Option<Request<V>>)

  datatype Failure = Forbidden | NotFound | Conflict | DataIntegrity

  /** Where a client stands between its transactions. */
  datatype Client<V> =
    | Reading(actor: Id, request: Request<V>, copy: Option<(Snapshot<V>, int)>, role: Option<P.Role>)
    | Targeting(actor: Id, request: Request<V>)
    | Mutating(actor: Id, request: Request<V>, snapshot: Snapshot<V>)
    | Finished(actor: Id, request: Request<V>, outcome: Result<int, Failure>)

  datatype System<V> = System(
    current: Snapshot<V>, version: int, revisions: map<int, Revision<V>>,
    members: map<Id, P.Role>, clients: map<nat, Client<V>>)

  datatype Action<V> =
    | Start(client: nat, actor: Id, request: Request<V>)
    | Advance(client: nat, task: Task)
    | Crash(client: nat)
    | ChangeMember(user: Id, role: Option<P.Role>)

  /** The transactions of a request, and the computation between them. */
  datatype Task = ReadWorkspace | ReadMember | Compute | ReadTarget | Mutate

  predicate MayEdit(members: map<Id, P.Role>, user: Id) {
    user in members && (members[user] == P.Owner || members[user] == P.Editor)
  }

  function Stop<V>(c: Client<V>, outcome: Result<int, Failure>): Client<V> {
    Finished(c.actor, c.request, outcome)
  }

  /** The checks and the computation after both reads of applyWorkspaceOperations or rollbackWorkspace. */
  function Decide<V>(c: Client<V>): Client<V>
    requires c.Reading? && c.copy.Some? && c.role.Some?
  {
    if c.role.value != P.Owner && c.role.value != P.Editor then Stop(c, Error(Forbidden))
    else if c.copy.value.1 != c.request.Base() then Stop(c, Error(Conflict))
    else if c.request.Operations? then
      var next := Apply(c.copy.value.0, c.request.operations);
      if next.None? then Stop(c, Error(DataIntegrity)) else Mutating(c.actor, c.request, next.value)
    else Targeting(c.actor, c.request)
  }

  function SetClient<V>(s: System<V>, id: nat, c: Client<V>): System<V> {
    s.(clients := s.clients[id := c])
  }

  /** mutateWorkspace: one transaction that updates the row it still finds at the expected version. */
  function Commit<V>(s: System<V>, id: nat, c: Client<V>): System<V>
    requires c.Mutating?
  {
    if s.version == c.request.Base() && MayEdit(s.members, c.actor) then
      var next := s.version + 1;
      System(c.snapshot, next, s.revisions[next := Revision(c.snapshot, c.actor, Some(c.request))], s.members,
             s.clients[id := Stop(c, Ok(next))])
    else SetClient(s, id, Stop(c, Error(if MayEdit(s.members, c.actor) then Conflict else Forbidden)))
  }

  /** Where a task other than the compare-and-set leads; one that does not fit the client's place leads nowhere. */
  function Proceed<V>(s: System<V>, c: Client<V>, task: Task): Client<V> {
    match task
    case ReadWorkspace =>
      if !c.Reading? then c
      else if c.actor !in s.members then Stop(c, Error(Forbidden))
      else c.(copy := Some((s.current, s.version)))
    case ReadMember =>
      if !c.Reading? then c
      else if c.actor !in s.members then Stop(c, Error(Forbidden))
      else c.(role := Some(s.members[c.actor]))
    case Compute => if c.Reading? && c.copy.Some? && c.role.Some? then Decide(c) else c
    case ReadTarget =>
      if !c.Targeting? || !c.request.Rollback? then c
      else if c.actor !in s.members then Stop(c, Error(Forbidden))
      else if c.request.targetVersion !in s.revisions then Stop(c, Error(NotFound))
      else
        var snapshot := s.revisions[c.request.targetVersion].snapshot;
        if WellFormed(snapshot) then Mutating(c.actor, c.request, snapshot) else Stop(c, Error(DataIntegrity))
    case Mutate => c
  }

  function Perform<V>(s: System<V>, id: nat, c: Client<V>, task: Task): System<V> {
    if task.Mutate? && c.Mutating? then Commit(s, id, c) else SetClient(s, id, Proceed(s, c, task))
  }

  function Next<V>(s: System<V>, a: Action<V>): System<V> {
    match a
    case Start(id, actor, request) =>
      if id in s.clients && !s.clients[id].Finished? then s
      else if request.Save? then
        SetClient(s, id, if WellFormed(request.snapshot) then Mutating(actor, request, request.snapshot)
                         else Finished(actor, request, Error(DataIntegrity)))
      else SetClient(s, id, Reading(actor, request, None, None))
    case Advance(id, task) => if id in s.clients then Perform(s, id, s.clients[id], task) else s
    case Crash(id) => s.(clients := s.clients - {id})
    case ChangeMember(user, role) =>
      s.(members := if role.Some? then s.members[user := role.value] else s.members - {user})
  }

  function Run<V>(s: System<V>, actions: seq<Action<V>>): System<V>
    decreases |actions|
  {
    if |actions| == 0 then s else Run(Next(s, actions[0]), actions[1..])
  }

  /** A workspace just after createWorkspace. */
  function Created<V>(owner: Id, initial: Snapshot<V>): System<V> {
    System(initial, 1, map[1 := Revision(initial, owner, None)], map[owner := P.Owner], map[])
  }

  // --- What holds in every state of every run ---

  /** The snapshot that revision `n` records is what `request` makes of the revisions before it. */
  ghost predicate Follows<V(!new)>(revisions: map<int, Revision<V>>, request: Request<V>, snapshot: Snapshot<V>) {
    WellFormed(snapshot) &&
    match request
    case Operations(base, operations) => base in revisions && Apply(revisions[base].snapshot, operations) == Some(snapshot)
    case Rollback(_, target) => target in revisions && revisions[target].snapshot == snapshot
    case Save(_, sent) => sent == snapshot
  }

  ghost predicate ValidClient<V(!new)>(s: System<V>, c: Client<V>) {
    match c
    case Reading(_, request, copy, _) =>
      !request.Save? && (copy.Some? ==> copy.value.1 in s.revisions && s.revisions[copy.value.1].snapshot == copy.value.0)
    case Targeting(_, request) => request.Rollback?
    case Mutating(_, request, snapshot) => Follows(s.revisions, request, snapshot)
    case Finished(actor, request, outcome) =>
      outcome.Ok? ==>
        && outcome.value in s.revisions
        && s.revisions[outcome.value].actor == actor && s.revisions[outcome.value].cause == Some(request)
  }

  /** Revision n+1 was made from revision n by operations, is the earlier revision a rollback named, or was sent. */
  ghost predicate ValidRevision<V(!new)>(revisions: map<int, Revision<V>>, n: int)
    requires n in revisions
  {
    match revisions[n].cause
    case None => n == 1
    case Some(request) =>
      && request.Base() == n - 1 && Follows(revisions, request, revisions[n].snapshot)
      && (request.Rollback? ==> 1 <= request.targetVersion < n)
  }

  ghost predicate Valid<V(!new)>(s: System<V>) {
    && s.version >= 1
    && (forall n :: n in s.revisions <==> 1 <= n <= s.version)
    && s.revisions[s.version].snapshot == s.current
    && (forall n :: n in s.revisions ==> ValidRevision(s.revisions, n))
    && (forall id :: id in s.clients ==> ValidClient(s, s.clients[id]))
  }

  /** Recorded revisions stay: both tables only grow. */
  ghost predicate Grows<V(!new)>(s: System<V>, t: System<V>) {
    && s.version <= t.version
    && (forall n :: n in s.revisions ==> n in t.revisions && t.revisions[n] == s.revisions[n])
    && (t.version == s.version ==> t.current == s.current && t.revisions == s.revisions)
  }

  lemma FollowsPersists<V(!new)>(
      before: map<int, Revision<V>>, after: map<int, Revision<V>>, request: Request<V>, snapshot: Snapshot<V>)
    requires Follows(before, request, snapshot)
    requires forall n :: n in before ==> n in after && after[n] == before[n]
    ensures Follows(after, request, snapshot)
  {
  }

  lemma RevisionPersists<V(!new)>(s: System<V>, t: System<V>, n: int)
    requires Grows(s, t) && n in s.revisions
    ensures n in t.revisions && t.revisions[n] == s.revisions[n]
  {
  }

  lemma ClientsPersist<V(!new)>(s: System<V>, t: System<V>, c: Client<V>)
    requires Grows(s, t) && ValidClient(s, c)
    ensures ValidClient(t, c)
  {
    match c
    case Reading(_, _, copy, _) =>
      if copy.Some? { RevisionPersists(s, t, copy.value.1); }
    case Mutating(_, request, snapshot) => FollowsPersists(s.revisions, t.revisions, request, snapshot);
    case Finished(_, _, outcome) =>
      if outcome.Ok? { RevisionPersists(s, t, outcome.value); }
    case _ =>
  }

  lemma SetClientKeepsValid<V(!new)>(s: System<V>, id: nat, c: Client<V>)
    requires Valid(s) && ValidClient(s, c)
    ensures Valid(SetClient(s, id, c)) && Grows(s, SetClient(s, id, c))
  {
    var t := SetClient(s, id, c);
    assert Grows(s, t);
    forall k | k in t.clients
      ensures ValidClient(t, t.clients[k])
    {
      ClientsPersist(s, t, t.clients[k]);
    }
  }

  lemma CommitKeepsValid<V(!new)>(s: System<V>, id: nat, c: Client<V>)
    requires Valid(s) && ValidClient(s, c) && c.Mutating?
    ensures Valid(Commit(s, id, c)) && Grows(s, Commit(s, id, c))
  {
    if s.version == c.request.Base() && MayEdit(s.members, c.actor) {
      var t := Commit(s, id, c);
      assert Grows(s, t);
      forall n | n in t.revisions
        ensures ValidRevision(t.revisions, n)
      {
        if n == t.version {
          FollowsPersists(s.revisions, t.revisions, c.request, c.snapshot);
        } else {
          assert ValidRevision(s.revisions, n);
          if s.revisions[n].cause.Some? {
            FollowsPersists(s.revisions, t.revisions, s.revisions[n].cause.value, s.revisions[n].snapshot);
          }
        }
      }
      forall k | k in t.clients
        ensures ValidClient(t, t.clients[k])
      {
        if k != id { ClientsPersist(s, t, s.clients[k]); }
      }
    } else {
      SetClientKeepsValid(s, id, Stop(c, Error(if MayEdit(s.members, c.actor) then Conflict else Forbidden)));
    }
  }

  lemma ProceedIsValid<V(!new)>(s: System<V>, c: Client<V>, task: Task)
    requires Valid(s) && ValidClient(s, c)
    ensures ValidClient(s, Proceed(s, c, task))
  {
    hide WellFormed;
    hide Apply;
  }

  lemma PerformKeepsValid<V(!new)>(s: System<V>, id: nat, task: Task)
    requires Valid(s) && id in s.clients
    ensures Valid(Perform(s, id, s.clients[id], task)) && Grows(s, Perform(s, id, s.clients[id], task))
  {
    var c := s.clients[id];
    assert ValidClient(s, c);
    hide Valid;
    hide ValidClient;
    hide Grows;
    hide Commit;
    hide Proceed;
    if task.Mutate? && c.Mutating? {
      CommitKeepsValid(s, id, c);
    } else {
      ProceedIsValid(s, c, task);
      SetClientKeepsValid(s, id, Proceed(s, c, task));
    }
  }

  lemma NextKeepsValid<V(!new)>(s: System<V>, a: Action<V>)
    requires Valid(s)
    ensures Valid(Next(s, a)) && Grows(s, Next(s, a))
  {
    var t := Next(s, a);
    match a
    case Start(id, actor, request) =>
      if t != s { SetClientKeepsValid(s, id, t.clients[id]); }
    case Advance(id, task) =>
      if id in s.clients { PerformKeepsValid(s, id, task); }
    case Crash(id) => OnlyClientsDiffer(s, t);
    case ChangeMember(user, role) => OnlyClientsDiffer(s, t);
  }

  lemma OnlyClientsDiffer<V(!new)>(s: System<V>, t: System<V>)
    requires Valid(s) && t.current == s.current && t.version == s.version && t.revisions == s.revisions
    requires forall id :: id in t.clients ==> id in s.clients && t.clients[id] == s.clients[id]
    ensures Valid(t) && Grows(s, t)
  {
    forall id | id in t.clients
      ensures ValidClient(t, t.clients[id])
    {
      ClientsPersist(s, t, s.clients[id]);
    }
  }

  /**
   * Under any interleaving of any number of clients with membership changes and crashes, every
   * committed revision is what its request makes of the revision just before it, and stays.
   */
  lemma {:induction false} RunKeepsValid<V(!new)>(s: System<V>, actions: seq<Action<V>>)
    requires Valid(s)
    ensures Valid(Run(s, actions)) && Grows(s, Run(s, actions))
    decreases |actions|
  {
    if |actions| > 0 {
      NextKeepsValid(s, actions[0]);
      RunKeepsValid(Next(s, actions[0]), actions[1..]);
    }
  }

  lemma CreatedIsValid<V(!new)>(owner: Id, initial: Snapshot<V>)
    ensures Valid(Created(owner, initial))
  {
  }

  /** The same for a workspace from its creation on, revision by revision. */
  lemma CommittedRevisionsFollow<V(!new)>(owner: Id, initial: Snapshot<V>, actions: seq<Action<V>>, n: int)
    requires 1 < n <= Run(Created(owner, initial), actions).version
    ensures var r := Run(Created(owner, initial), actions).revisions;
      && n - 1 in r && n in r && r[n].cause.Some?
      && match r[n].cause.value
         case Operations(base, operations) => base == n - 1 && Apply(r[n - 1].snapshot, operations) == Some(r[n].snapshot)
         case Rollback(expected, target) => expected == n - 1 && 1 <= target < n && target in r && r[n].snapshot == r[target].snapshot
         case Save(expected, sent) => expected == n - 1 && r[n].snapshot == sent
  {
    CreatedIsValid(owner, initial);
    RunKeepsValid(Created(owner, initial), actions);
    assert ValidRevision(Run(Created(owner, initial), actions).revisions, n);
  }

  // --- Authority, acknowledgements, ABA ---

  /** A step that moves the version is a compare-and-set by a client whose actor may edit at that moment. */
  lemma VersionMovesByAuthorisedCommit<V(!new)>(s: System<V>, a: Action<V>)
    requires Valid(s)
    ensures Next(s, a).version != s.version ==>
      && a.Advance? && a.task.Mutate? && a.client in s.clients && s.clients[a.client].Mutating?
      && MayEdit(s.members, s.clients[a.client].actor) && s.clients[a.client].request.Base() == s.version
      && Next(s, a).version == s.version + 1
      && Next(s, a).revisions[s.version + 1]
         == Revision(s.clients[a.client].snapshot, s.clients[a.client].actor, Some(s.clients[a.client].request))
      && Next(s, a).clients[a.client].outcome == Ok(s.version + 1)
  {
  }

  /** How many compare-and-sets of a run were answered with success. */
  function Acknowledged<V>(s: System<V>, actions: seq<Action<V>>): nat
    decreases |actions|
  {
    if |actions| == 0 then 0 else
      var a, t := actions[0], Next(s, actions[0]);
      (if a.Advance? && a.task.Mutate? && a.client in s.clients && s.clients[a.client].Mutating?
          && t.clients[a.client].outcome.Ok? then 1 else 0) + Acknowledged(t, actions[1..])
  }

  /** No lost update: each acknowledged request has a version of its own, and there are no others. */
  lemma {:induction false} EachAcknowledgementIsAVersion<V(!new)>(s: System<V>, actions: seq<Action<V>>)
    requires Valid(s)
    ensures Run(s, actions).version == s.version + Acknowledged(s, actions)
    decreases |actions|
  {
    if |actions| > 0 {
      NextKeepsValid(s, actions[0]);
      VersionMovesByAuthorisedCommit(s, actions[0]);
      EachAcknowledgementIsAVersion(Next(s, actions[0]), actions[1..]);
    }
  }

  /** No ABA: as long as the version is the one a client read, so is the snapshot. */
  lemma ReadCopyIsCurrentAtSameVersion<V(!new)>(s: System<V>, actions: seq<Action<V>>)
    requires Valid(s) && Run(s, actions).version == s.version
    ensures Run(s, actions).current == s.current && Run(s, actions).revisions == s.revisions
  {
    RunKeepsValid(s, actions);
  }

  /** If the workspace starts well-formed, every revision ever recorded is well-formed. */
  lemma RevisionsAreWellFormed<V(!new)>(owner: Id, initial: Snapshot<V>, actions: seq<Action<V>>, n: int)
    requires WellFormed(initial) && n in Run(Created(owner, initial), actions).revisions
    ensures WellFormed(Run(Created(owner, initial), actions).revisions[n].snapshot)
  {
    var s, t := Created(owner, initial), Run(Created(owner, initial), actions);
    CreatedIsValid(owner, initial);
    RunKeepsValid(s, actions);
    assert ValidRevision(t.revisions, n);
    assert 1 in s.revisions;
  }

  // --- A client that nobody disturbs ---

  /** The tasks of a request one after the other; those that do not fit the client's place change nothing. */
  function Alone<V>(id: nat, actor: Id, request: Request<V>): seq<Action<V>> {
    [Start(id, actor, request), Advance(id, ReadWorkspace), Advance(id, ReadMember), Advance(id, Compute),
     Advance(id, ReadTarget), Advance(id, Mutate)]
  }

  function Started<V>(actor: Id, request: Request<V>): Client<V> {
    if !request.Save? then Reading(actor, request, None, None)
    else if WellFormed(request.snapshot) then Mutating(actor, request, request.snapshot)
    else Finished(actor, request, Error(DataIntegrity))
  }

  /** Where the reads and the computation lead while the tables stay as they are. */
  function Prepared<V>(s: System<V>, actor: Id, request: Request<V>): Client<V> {
    Proceed(s, Proceed(s, Proceed(s, Proceed(s, Started(actor, request), ReadWorkspace), ReadMember), Compute), ReadTarget)
  }

  lemma TaskAlone<V>(s: System<V>, id: nat, c: Client<V>, task: Task)
    requires !task.Mutate?
    ensures Next(SetClient(s, id, c), Advance(id, task)) == SetClient(s, id, Proceed(s, c, task))
  {
    var t := SetClient(s, id, c);
    assert t.clients[id] == c;
    assert t.current == s.current && t.version == s.version && t.revisions == s.revisions && t.members == s.members;
    assert Proceed(t, c, task) == Proceed(s, c, task);
  }

  lemma RunAlone<V>(s: System<V>, id: nat, actor: Id, request: Request<V>)
    requires id in s.clients ==> s.clients[id].Finished?
    ensures Run(s, Alone(id, actor, request)) == Next(SetClient(s, id, Prepared(s, actor, request)), Advance(id, Mutate))
  {
    var actions := Alone(id, actor, request);
    var c0 := Started(actor, request);
    var c1 := Proceed(s, c0, ReadWorkspace);
    var c2 := Proceed(s, c1, ReadMember);
    assert Next(s, actions[0]) == SetClient(s, id, c0);
    TaskAlone(s, id, c0, ReadWorkspace);
    TaskAlone(s, id, c1, ReadMember);
    TaskAlone(s, id, c2, Compute);
    TaskAlone(s, id, Proceed(s, c2, Compute), ReadTarget);
    hide Next;
    hide Proceed;
    hide Started;
    RunSix(s, actions);
  }

  lemma RunSix<V>(s: System<V>, actions: seq<Action<V>>)
    requires |actions| == 6
    ensures Run(s, actions) ==
      Next(Next(Next(Next(Next(Next(s, actions[0]), actions[1]), actions[2]), actions[3]), actions[4]), actions[5])
  {
    hide Next;
    RunTwo(s, actions);
    var t := Next(Next(s, actions[0]), actions[1]);
    RunTwo(t, actions[2..]);
    assert actions[2..][2..] == actions[4..];
    RunTwo(Next(Next(t, actions[2]), actions[3]), actions[4..]);
  }

  lemma RunTwo<V>(s: System<V>, actions: seq<Action<V>>)
    requires |actions| >= 2
    ensures Run(s, actions) == Run(Next(Next(s, actions[0]), actions[1]), actions[2..])
  {
    assert actions[1..][1..] == actions[2..];
  }

  /** Its actor may edit, it names the current version, and the recorded revisions give it a snapshot. */
  ghost predicate Succeeds<V(!new)>(s: System<V>, actor: Id, request: Request<V>) {
    && MayEdit(s.members, actor) && request.Base() == s.version
    && exists snapshot :: Follows(s.revisions, request, snapshot)
  }

  /** The first reason why a request cannot succeed. */
  ghost predicate FailsWith<V(!new)>(s: System<V>, actor: Id, request: Request<V>, e: Failure) {
    if request.Save? && !WellFormed(request.snapshot) then e == DataIntegrity
    else if !MayEdit(s.members, actor) then e == Forbidden
    else if request.Base() != s.version then e == Conflict
    else if request.Operations? then e == DataIntegrity && Apply(s.current, request.operations).None?
    else if request.Rollback? && request.targetVersion !in s.revisions then e == NotFound
    else e == DataIntegrity && request.Rollback? && !WellFormed(s.revisions[request.targetVersion].snapshot)
  }

  lemma PreparedOperations<V(!new)>(s: System<V>, actor: Id, request: Request<V>)
    requires Valid(s) && request.Operations?
    ensures var c := Prepared(s, actor, request);
      if MayEdit(s.members, actor) && request.Base() == s.version && Apply(s.current, request.operations).Some?
      then c == Mutating(actor, request, Apply(s.current, request.operations).value)
      else c.Finished? && c.outcome.Error? && FailsWith(s, actor, request, c.outcome.error)
  {
    hide Apply;
    hide Valid;
  }

  lemma PreparedRollback<V(!new)>(s: System<V>, actor: Id, request: Request<V>)
    requires Valid(s) && request.Rollback?
    ensures var c := Prepared(s, actor, request);
      var target := request.targetVersion;
      if && MayEdit(s.members, actor) && request.Base() == s.version
         && target in s.revisions && WellFormed(s.revisions[target].snapshot)
      then c == Mutating(actor, request, s.revisions[target].snapshot)
      else c.Finished? && c.outcome.Error? && FailsWith(s, actor, request, c.outcome.error)
  {
    hide WellFormed;
    hide Valid;
  }

  /** A request comes to its compare-and-set unless it fails for good. */
  lemma PreparedDecides<V(!new)>(s: System<V>, actor: Id, request: Request<V>)
    requires Valid(s)
    ensures var c := Prepared(s, actor, request);
      && c.actor == actor && c.request == request
      && (c.Mutating? || (c.Finished? && c.outcome.Error? && !Succeeds(s, actor, request) && FailsWith(s, actor, request, c.outcome.error)))
      && (c.Mutating? ==> Follows(s.revisions, request, c.snapshot) && (request.Save? ==> WellFormed(request.snapshot)))
  {
    var c := Prepared(s, actor, request);
    match request {
      case Operations(base, operations) =>
        PreparedOperations(s, actor, request);
        assert s.revisions[s.version].snapshot == s.current;
        hide Valid;
        hide Prepared;
      case Rollback(_, target) => PreparedRollback(s, actor, request);
      case Save(_, _) =>
    }
  }

  /** The client is told of a next revision of its own exactly if it succeeds; otherwise the workspace stays. */
  ghost predicate Undisturbed<V(!new)>(s: System<V>, t: System<V>, id: nat, actor: Id, request: Request<V>) {
    && id in t.clients && t.clients[id].Finished? && t.members == s.members
    && (t.clients[id].outcome.Ok? <==> Succeeds(s, actor, request))
    && if Succeeds(s, actor, request) then
         && t.clients[id].outcome == Ok(s.version + 1) && t.version == s.version + 1
         && Follows(s.revisions, request, t.current)
         && t.revisions == s.revisions[s.version + 1 := Revision(t.current, actor, Some(request))]
       else
         && t.current == s.current && t.version == s.version && t.revisions == s.revisions
         && FailsWith(s, actor, request, t.clients[id].outcome.error)
  }

  /**
   * A client that nobody disturbs succeeds exactly if its actor may edit, its base version is the current one
   * and its request has a result; then its snapshot is the next revision, and otherwise the workspace stays and
   * the client is told the first reason.
   */
  lemma UndisturbedClientSucceeds<V(!new)>(s: System<V>, id: nat, actor: Id, request: Request<V>)
    requires Valid(s) && (id in s.clients ==> s.clients[id].Finished?)
    ensures Undisturbed(s, Run(s, Alone(id, actor, request)), id, actor, request)
  {
    var c := Prepared(s, actor, request);
    RunAlone(s, id, actor, request);
    PreparedDecides(s, actor, request);
    assert Next(SetClient(s, id, c), Advance(id, Mutate)) == Perform(SetClient(s, id, c), id, c, Mutate);
    hide *;
    MutateAlone(s, id, c);
  }

  lemma MutateAlone<V(!new)>(s: System<V>, id: nat, c: Client<V>)
    requires c.Mutating? ||
      (c.Finished? && c.outcome.Error? && !Succeeds(s, c.actor, c.request) && FailsWith(s, c.actor, c.request, c.outcome.error))
    requires c.Mutating? ==> Follows(s.revisions, c.request, c.snapshot) && (c.request.Save? ==> WellFormed(c.request.snapshot))
    ensures var t := Perform(SetClient(s, id, c), id, c, Mutate);
      Undisturbed(s, t, id, c.actor, c.request)
  {
    hide Follows;
  }

  // --- What a client may learn, and what its surroundings do ---

  /**
   * No step shows a client the workspace, a role or a revision unless its actor is a member at that moment; a read by
   * anybody else is forbidden.
   */
  lemma ReadsNeedMembership<V(!new)>(s: System<V>, c: Client<V>, task: Task)
    ensures var after := Proceed(s, c, task);
      && (after.Reading? && after != c ==>
            && c.Reading? && c.actor in s.members
            && (after == c.(copy := Some((s.current, s.version))) || after == c.(role := Some(s.members[c.actor]))))
      && (c.Targeting? && after.Mutating? ==>
            c.actor in s.members && c.request.Rollback? && c.request.targetVersion in s.revisions
            && after.snapshot == s.revisions[c.request.targetVersion].snapshot)
      && (c.actor !in s.members && (c.Reading? && (task.ReadWorkspace? || task.ReadMember?)) ==>
            after == Finished(c.actor, c.request, Error(Forbidden)))
      && (c.actor !in s.members && c.Targeting? && task.ReadTarget? && c.request.Rollback? ==>
            after == Finished(c.actor, c.request, Error(Forbidden)))
  {
    hide Apply;
    hide WellFormed;
  }

  /** A membership change sets one role and a crash forgets one client; neither touches anything else. */
  lemma SurroundingsStep<V(!new)>(s: System<V>, user: Id, role: Option<P.Role>, id: nat)
    ensures var t := Next(s, ChangeMember(user, role));
      && t == s.(members := t.members) && t.members - {user} == s.members - {user}
      && (user in t.members <==> role.Some?) && (user in t.members ==> t.members[user] == role.value)
    ensures var t := Next(s, Crash(id));
      t == s.(clients := t.clients) && id !in t.clients && t.clients == s.clients - {id}
  {
  }

  /** The creator, and nobody else, may edit a new workspace. */
  lemma CreatorMayEdit<V(!new)>(owner: Id, initial: Snapshot<V>, user: Id)
    ensures MayEdit(Created(owner, initial).members, user) <==> user == owner
    ensures user in Created(owner, initial).members ==> Created(owner, initial).members[user] == P.Owner
  {
  }
}
