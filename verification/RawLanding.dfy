/**
 * The raw-landing archive (apps/api/src/postgres-raw-landing.ts over apps/api/src/object-storage.ts):
 * replicas race through a lookup transaction, a conditional blob write, a locked insert transaction and
 * a blob verification, over a database and a bucket that share no transaction.
 */
module RawLanding {
  import opened Common

  datatype Scope = Scope(tenantId: string, projectId: string)

  /** SHA-256 of a payload: injective, so it also fixes the size. */
  datatype Checksum = Checksum(payload: seq<nat>)
  {
    function Size(): nat {
      |payload|
    }
  }

  /** rawLocatorKey: the scope and the run enter as truncated hashes, the checksum whole. */
  datatype Key = Key(tenantSegment: string, projectSegment: string, runSegment: string, checksum: Checksum)

  /** One call of archive; `runId` is the bundle's run id, or its checksum where it names none. */
  datatype Request = Request(scope: Scope, runId: string, payload: seq<nat>)
  {
    function Sum(): Checksum {
      Checksum(payload)
    }
  }

  // --- The bucket ---

  /** `version` is None in a bucket without versioning. */
  datatype Object = Object(version: Option<string>, checksum: Checksum, size: nat)

  datatype Reference = Reference(key: Key, version: Option<string>, checksum: Checksum, size: nat)

  // --- The two tables ---

  type LandingId = string

  datatype Row = Row(scope: Scope, runId: string, reference: Reference)

  datatype Kind = Received | Accepted | Failed(error: string) | Quarantined(error: string) | Replayed(runId: string)

  datatype Event = Event(scope: Scope, landingId: LandingId, kind: Kind)

  // --- The replicas ---

  datatype Outcome = Archived(id: LandingId) | Conflict | StorageUnavailable | IntegrityFailure | DatabaseFailure

  datatype Caller =
    | LookingUp(request: Request)
    | Writing(request: Request)
    | Confirming(request: Request, reference: Reference)
    | Reusing(request: Request)
    | Inserting(request: Request, reference: Reference)
    | Verifying(request: Request, id: LandingId)
    | Done(request: Request, outcome: Outcome)

  datatype World = World(
    bucket: map<Key, Object>, rows: map<LandingId, Row>, events: seq<Event>, callers: map<nat, Caller>)

  /** The deployment: the truncated hash, whether the bucket keeps versions, and whether they are required. */
  datatype Config = Config(segment: string -> string, versioned: bool, requireVersioning: bool)

  function KeyFor(c: Config, q: Request): Key {
    Key(c.segment(q.scope.tenantId), c.segment(q.scope.projectId), c.segment(q.runId), q.Sum())
  }

  // --- RECORD_SELECT ---

  predicate Concerns(e: Event, scope: Scope, id: LandingId) {
    e.scope == scope && e.landingId == id
  }

  /** The inner lateral join finds a lifecycle event. */
  ghost predicate Visible(w: World, id: LandingId)
    requires id in w.rows
  {
    exists i :: 0 <= i < |w.events| && Concerns(w.events[i], w.rows[id].scope, id) && !w.events[i].kind.Replayed?
  }

  ghost predicate IsRun(w: World, id: LandingId, scope: Scope, runId: string) {
    id in w.rows && w.rows[id].scope == scope && w.rows[id].runId == runId
  }

  /** findByRun: some row that the query returns. */
  ghost function FindByRun(w: World, scope: Scope, runId: string): (r: Option<LandingId>)
    ensures r.Some? ==> IsRun(w, r.value, scope, runId) && Visible(w, r.value)
    ensures r.None? ==> forall id :: IsRun(w, id, scope, runId) ==> !Visible(w, id)
  {
    if id :| IsRun(w, id, scope, runId) && Visible(w, id) then Some(id) else None
  }

  /** UNIQUE (tenant_id, project_id, object_key, object_version_id) */
  predicate SharesLocator(w: World, id: LandingId, scope: Scope, r: Reference) {
    id in w.rows && w.rows[id].scope == scope && w.rows[id].reference.key == r.key && w.rows[id].reference.version == r.version
  }

  predicate ExactRun(row: Row, q: Request) {
    row.reference.checksum == q.Sum() && row.reference.size == |q.payload|
  }

  // --- Object storage ---

  /** head: the object is there, in that version, with that checksum and size. */
  predicate HeadSucceeds(bucket: map<Key, Object>, r: Reference) {
    && r.key in bucket && bucket[r.key].checksum == r.checksum && bucket[r.key].size == r.size
    && (r.version.Some? ==> bucket[r.key].version == r.version)
  }

  // --- The steps ---

  datatype Action =
    | Start(caller: nat, request: Request)
    | Lookup(caller: nat)
    /** PutObject with If-None-Match; the store may also answer with a conflict of its own. */
    | PutBlob(caller: nat, version: string, conflict: bool)
    | HeadBlob(caller: nat)
    | Insert(caller: nat, landingId: LandingId)
    | Verify(caller: nat)
    | Crash(caller: nat)
    | Complete(scope: Scope, id: LandingId, kind: Kind)
    | MarkReplayed(scope: Scope, id: LandingId, runId: string)

  function SetCaller(w: World, id: nat, c: Caller): World {
    w.(callers := w.callers[id := c])
  }

  function Stop(w: World, id: nat, c: Caller, outcome: Outcome): World {
    SetCaller(w, id, Done(c.request, outcome))
  }

  function Put(cfg: Config, w: World, id: nat, c: Caller, version: string, conflict: bool): World {
    var key := KeyFor(cfg, c.request);
    if key in w.bucket || conflict then SetCaller(w, id, Reusing(c.request))
    else
      var v := if cfg.versioned then Some(version) else None;
      var stored := w.(bucket := w.bucket[key := Object(v, c.request.Sum(), |c.request.payload|)]);
      if v.None? && cfg.requireVersioning then Stop(stored, id, c, StorageUnavailable)
      else SetCaller(stored, id, Confirming(c.request, Reference(key, v, c.request.Sum(), |c.request.payload|)))
  }

  /** reuseExisting: the stored object under the same key, if it really is the same content. */
  function Reuse(cfg: Config, w: World, q: Request): Caller {
    var key := KeyFor(cfg, q);
    if key !in w.bucket || (w.bucket[key].version.None? && cfg.requireVersioning) then Done(q, StorageUnavailable)
    else Confirming(q, Reference(key, w.bucket[key].version, q.Sum(), |q.payload|))
  }

  /** The verification that putImmutable ends with. */
  function Confirm(w: World, q: Request, r: Reference): Caller {
    if HeadSucceeds(w.bucket, r) then Inserting(q, r) else Done(q, IntegrityFailure)
  }

  /** The insert transaction, serialised per run by the advisory lock. */
  ghost function InsertRun(w: World, id: nat, c: Caller, landingId: LandingId): World
    requires c.Inserting?
  {
    var q := c.request;
    var raced := FindByRun(w, q.scope, q.runId);
    if raced.Some? then
      if ExactRun(w.rows[raced.value], q) then SetCaller(w, id, Verifying(q, raced.value)) else Stop(w, id, c, Conflict)
    else if exists k :: IsRun(w, k, q.scope, q.runId) then
      // ON CONFLICT DO NOTHING keeps a row without events; the event insert then names no landing
      Stop(w, id, c, DatabaseFailure)
    else if landingId in w.rows || exists k :: SharesLocator(w, k, q.scope, c.reference) then
      Stop(w, id, c, DatabaseFailure)
    else
      SetCaller(w.(rows := w.rows[landingId := Row(q.scope, q.runId, c.reference)],
                   events := w.events + [Event(q.scope, landingId, Received)]),
                id, Verifying(q, landingId))
  }

  /** The lifecycle state that RECORD_SELECT shows: the last event that is not a replay. */
  function Lifecycle(events: seq<Event>, scope: Scope, id: LandingId): Option<Kind> {
    if |events| == 0 then None
    else
      var last := events[|events| - 1];
      if Concerns(last, scope, id) && !last.kind.Replayed? then Some(last.kind)
      else Lifecycle(events[..|events| - 1], scope, id)
  }

  ghost function Next(cfg: Config, w: World, a: Action): World {
    match a
    case Start(id, q) =>
      if id in w.callers && !w.callers[id].Done? then w else SetCaller(w, id, LookingUp(q))
    case Crash(id) => w.(callers := w.callers - {id})
    case Complete(scope, id, kind) =>
      if id !in w.rows || w.rows[id].scope != scope || kind.Received? || kind.Replayed? || !Visible(w, id)
         || Lifecycle(w.events, scope, id) == Some(kind) then w
      else w.(events := w.events + [Event(scope, id, kind)])
    case MarkReplayed(scope, id, runId) =>
      if id !in w.rows || w.rows[id].scope != scope || !Visible(w, id) then w
      else w.(events := w.events + [Event(scope, id, Replayed(runId))])
    case Lookup(id) => if id in w.callers && w.callers[id].LookingUp? then LookupRun(w, id, w.callers[id].request) else w
    case PutBlob(id, version, conflict) =>
      if id in w.callers && w.callers[id].Writing? then Put(cfg, w, id, w.callers[id], version, conflict) else w
    case HeadBlob(id) => if id in w.callers then Head(cfg, w, id, w.callers[id]) else w
    case Insert(id, landingId) =>
      if id in w.callers && w.callers[id].Inserting? then InsertRun(w, id, w.callers[id], landingId) else w
    case Verify(id) =>
      if id in w.callers && w.callers[id].Verifying? then VerifyBlob(w, id, w.callers[id].request, w.callers[id].id) else w
  }

  /** What a caller of archive does after its first transaction. */
  ghost function LookupAnswer(w: World, q: Request): Caller {
    var found := FindByRun(w, q.scope, q.runId);
    if found.None? then Writing(q)
    else if ExactRun(w.rows[found.value], q) then Verifying(q, found.value)
    else Done(q, Conflict)
  }

  ghost function LookupRun(w: World, id: nat, q: Request): World {
    SetCaller(w, id, LookupAnswer(w, q))
  }

  function Head(cfg: Config, w: World, id: nat, c: Caller): World {
    match c
    case Reusing(q) => SetCaller(w, id, Reuse(cfg, w, q))
    case Confirming(q, r) => SetCaller(w, id, Confirm(w, q, r))
    case _ => w
  }

  function VerifyAnswer(w: World, q: Request, landing: LandingId): Caller {
    if landing !in w.rows then Done(q, DatabaseFailure)
    else Done(q, if HeadSucceeds(w.bucket, w.rows[landing].reference) then Archived(landing) else IntegrityFailure)
  }

  function VerifyBlob(w: World, id: nat, q: Request, landing: LandingId): World {
    SetCaller(w, id, VerifyAnswer(w, q, landing))
  }

  ghost function Run(cfg: Config, w: World, actions: seq<Action>): World
    decreases |actions|
  {
    if |actions| == 0 then w else Run(cfg, Next(cfg, w, actions[0]), actions[1..])
  }

  const EMPTY := World(map[], map[], [], map[])

  // --- What every reachable world satisfies ---

  ghost predicate ReceivedOnce(w: World, id: LandingId)
    requires id in w.rows
  {
    && (exists i :: 0 <= i < |w.events| && Concerns(w.events[i], w.rows[id].scope, id) && w.events[i].kind == Received)
    && (forall i, j :: 0 <= i < j < |w.events| && w.events[i].landingId == id && w.events[j].landingId == id ==>
          w.events[i].kind != Received || w.events[j].kind != Received)
  }

  /** The locator of a row names an existing blob with the recorded checksum and size. */
  predicate Backed(w: World, r: Reference) {
    && HeadSucceeds(w.bucket, r) && w.bucket[r.key].version == r.version
    && r.size == r.checksum.Size()
  }

  ghost predicate ValidCaller(w: World, c: Caller) {
    match c
    case Confirming(q, r) => Backed(w, r) && r.checksum == q.Sum()
    case Inserting(q, r) => Backed(w, r) && r.checksum == q.Sum()
    case Verifying(q, id) => IsRun(w, id, q.scope, q.runId) && ExactRun(w.rows[id], q)
    case Done(q, Archived(id)) => IsRun(w, id, q.scope, q.runId) && ExactRun(w.rows[id], q)
    case Done(q, Conflict) => exists id :: IsRun(w, id, q.scope, q.runId) && w.rows[id].reference.checksum != q.Sum()
    case Done(q, IntegrityFailure) => false
    case _ => true
  }

  predicate BucketAddressed(w: World) {
    forall key :: key in w.bucket ==> w.bucket[key].checksum == key.checksum && w.bucket[key].size == key.checksum.Size()
  }

  ghost predicate RunsUnique(w: World) {
    forall a, b :: a in w.rows && b in w.rows && w.rows[a].scope == w.rows[b].scope && w.rows[a].runId == w.rows[b].runId ==> a == b
  }

  ghost predicate RowsValid(w: World) {
    forall id :: id in w.rows ==> Backed(w, w.rows[id].reference) && ReceivedOnce(w, id)
  }

  predicate EventsOwned(w: World) {
    forall i :: 0 <= i < |w.events| ==> w.events[i].landingId in w.rows && w.rows[w.events[i].landingId].scope == w.events[i].scope
  }

  ghost predicate CallersValid(w: World) {
    forall c :: c in w.callers ==> ValidCaller(w, w.callers[c])
  }

  ghost predicate Valid(w: World) {
    BucketAddressed(w) && RunsUnique(w) && RowsValid(w) && EventsOwned(w) && CallersValid(w)
  }

  /** Blobs, rows and events are only ever added. */
  ghost predicate Grows(w: World, v: World) {
    && (forall key :: key in w.bucket ==> key in v.bucket && v.bucket[key] == w.bucket[key])
    && (forall id :: id in w.rows ==> id in v.rows && v.rows[id] == w.rows[id])
    && w.events <= v.events
  }

  lemma CallerPersists(w: World, v: World, c: Caller)
    requires Grows(w, v) && ValidCaller(w, c)
    ensures ValidCaller(v, c)
  {
    match c
    case Verifying(q, id) => assert IsRun(w, id, q.scope, q.runId);
    case Done(q, Archived(id)) => assert IsRun(w, id, q.scope, q.runId);
    case Done(q, Conflict) =>
      var id :| IsRun(w, id, q.scope, q.runId) && w.rows[id].reference.checksum != q.Sum();
      assert IsRun(v, id, q.scope, q.runId);
    case _ =>
  }

  lemma CallerSetKeepsValid(w: World, id: nat, c: Caller)
    requires Valid(w) && ValidCaller(w, c)
    ensures Valid(SetCaller(w, id, c)) && Grows(w, SetCaller(w, id, c))
  {
    var v := SetCaller(w, id, c);
    SameTablesKeepValid(w, v);
  }

  lemma SameTablesKeepValid(w: World, v: World)
    requires Valid(w) && v.bucket == w.bucket && v.rows == w.rows && v.events == w.events
    requires forall c :: c in v.callers ==> ValidCaller(w, v.callers[c])
    ensures Valid(v) && Grows(w, v)
  {
    forall id | id in v.rows
      ensures Backed(v, v.rows[id].reference) && ReceivedOnce(v, id)
    {
      assert ReceivedOnce(w, id);
    }
    forall c | c in v.callers
      ensures ValidCaller(v, v.callers[c])
    {
      CallerPersists(w, v, v.callers[c]);
    }
  }

  /** A committed row is never hidden by the join on its lifecycle. */
  lemma RowsAreVisible(w: World, id: LandingId)
    requires Valid(w) && id in w.rows
    ensures Visible(w, id)
  {
    assert ReceivedOnce(w, id);
  }

  lemma FindByRunFindsAll(w: World, scope: Scope, runId: string)
    requires Valid(w)
    ensures FindByRun(w, scope, runId).None? ==> forall id :: !IsRun(w, id, scope, runId)
  {
    forall id | IsRun(w, id, scope, runId)
      ensures FindByRun(w, scope, runId).Some?
    {
      RowsAreVisible(w, id);
    }
  }

  lemma PutKeepsValid(cfg: Config, w: World, id: nat, c: Caller, version: string, conflict: bool)
    requires Valid(w) && c.Writing?
    ensures Valid(Put(cfg, w, id, c, version, conflict)) && Grows(w, Put(cfg, w, id, c, version, conflict))
  {
    var v := Put(cfg, w, id, c, version, conflict);
    var blob := Object(if cfg.versioned then Some(version) else None, c.request.Sum(), |c.request.payload|);
    var stored := WithBlob(w, KeyFor(cfg, c.request), blob);
    if KeyFor(cfg, c.request) in w.bucket || conflict {
      assert v == SetCaller(w, id, Reusing(c.request)) && ValidCaller(w, Reusing(c.request));
      hide *;
      CallerSetKeepsValid(w, id, Reusing(c.request));
    } else {
      assert v == SetCaller(stored, id, v.callers[id]) && ValidCaller(stored, v.callers[id]);
      NewBlobKeepsValid(w, KeyFor(cfg, c.request), blob);
      hide *;
      CallerSetKeepsValid(stored, id, v.callers[id]);
      GrowsTwice(w, stored, v);
    }
  }

  function WithBlob(w: World, key: Key, blob: Object): World {
    w.(bucket := w.bucket[key := blob])
  }

  lemma NewBlobKeepsValid(w: World, key: Key, blob: Object)
    requires Valid(w) && key !in w.bucket && blob.checksum == key.checksum && blob.size == key.checksum.Size()
    ensures Valid(WithBlob(w, key, blob)) && Grows(w, WithBlob(w, key, blob))
  {
    var v := WithBlob(w, key, blob);
    assert Grows(w, v);
    forall id | id in v.rows
      ensures Backed(v, v.rows[id].reference) && ReceivedOnce(v, id)
    {
      assert Backed(w, w.rows[id].reference) && ReceivedOnce(w, id);
    }
    CallersPersist(w, v);
  }

  lemma HeadKeepsValid(cfg: Config, w: World, id: nat, c: Caller)
    requires Valid(w) && ValidCaller(w, c)
    ensures Valid(Head(cfg, w, id, c)) && Grows(w, Head(cfg, w, id, c))
  {
    match c
    case Reusing(q) =>
      ReuseIsValid(cfg, w, q);
      CallerSetKeepsValid(w, id, Reuse(cfg, w, q));
    case Confirming(q, r) =>
      assert ValidCaller(w, Confirm(w, q, r));
      CallerSetKeepsValid(w, id, Confirm(w, q, r));
    case _ => SameTablesKeepValid(w, w);
  }

  lemma ReuseIsValid(cfg: Config, w: World, q: Request)
    requires Valid(w)
    ensures ValidCaller(w, Reuse(cfg, w, q))
  {
  }

  lemma InsertKeepsValid(w: World, id: nat, c: Caller, landingId: LandingId)
    requires Valid(w) && ValidCaller(w, c) && c.Inserting?
    ensures Valid(InsertRun(w, id, c, landingId)) && Grows(w, InsertRun(w, id, c, landingId))
  {
    var q := c.request;
    var grown := WithRow(w, landingId, Row(q.scope, q.runId, c.reference));
    FindByRunFindsAll(w, q.scope, q.runId);
    if FindByRun(w, q.scope, q.runId).Some? { SizesFollow(w, FindByRun(w, q.scope, q.runId).value, q); }
    InsertShape(w, id, c, landingId);
    if InsertRun(w, id, c, landingId) == SetCaller(grown, id, Verifying(q, landingId)) && Inserts(w, q, landingId) {
      assert Backed(w, c.reference) && c.reference.checksum == q.Sum();
      hide *;
      NewRowKeepsValid(w, landingId, Row(q.scope, q.runId, c.reference));
      InsertedRowIsExact(w, landingId, q, c.reference);
      CallerSetKeepsValid(grown, id, Verifying(q, landingId));
      GrowsTwice(w, grown, SetCaller(grown, id, Verifying(q, landingId)));
    } else {
      CallerSetKeepsValid(w, id, InsertRun(w, id, c, landingId).callers[id]);
    }
  }

  lemma GrowsTwice(u: World, v: World, w: World)
    requires Grows(u, v) && Grows(v, w)
    ensures Grows(u, w)
  {
  }

  lemma InsertedRowIsExact(w: World, id: LandingId, q: Request, r: Reference)
    requires Backed(w, r) && r.checksum == q.Sum()
    ensures ValidCaller(WithRow(w, id, Row(q.scope, q.runId, r)), Verifying(q, id))
  {
  }

  /** The row is new and so is its run. */
  ghost predicate Inserts(w: World, q: Request, landingId: LandingId) {
    landingId !in w.rows && forall k :: !IsRun(w, k, q.scope, q.runId)
  }

  /** The insert transaction either adds one row with its received event, or only answers its caller. */
  lemma InsertShape(w: World, id: nat, c: Caller, landingId: LandingId)
    requires c.Inserting?
    requires var raced := FindByRun(w, c.request.scope, c.request.runId);
      if raced.None? then forall k :: !IsRun(w, k, c.request.scope, c.request.runId)
      else ExactRun(w.rows[raced.value], c.request) <==> w.rows[raced.value].reference.checksum == c.request.Sum()
    ensures var v := InsertRun(w, id, c, landingId);
      || (v == SetCaller(WithRow(w, landingId, Row(c.request.scope, c.request.runId, c.reference)), id, Verifying(c.request, landingId))
          && Inserts(w, c.request, landingId))
      || (id in v.callers && v == SetCaller(w, id, v.callers[id]) && ValidCaller(w, v.callers[id]))
  {
  }

  /** Equal checksums have equal sizes, so a row that differs from a request differs in content. */
  lemma SizesFollow(w: World, id: LandingId, q: Request)
    requires Valid(w) && id in w.rows
    ensures ExactRun(w.rows[id], q) <==> w.rows[id].reference.checksum == q.Sum()
  {
    assert Backed(w, w.rows[id].reference);
  }

  function WithRow(w: World, id: LandingId, row: Row): World {
    w.(rows := w.rows[id := row], events := w.events + [Event(row.scope, id, Received)])
  }

  lemma EventAddedIsOwned(w: World, v: World, e: Event)
    requires EventsOwned(w) && Grows(w, v) && v.events == w.events + [e]
    requires e.landingId in v.rows && v.rows[e.landingId].scope == e.scope
    ensures EventsOwned(v)
  {
    forall i | 0 <= i < |v.events|
      ensures v.events[i].landingId in v.rows && v.rows[v.events[i].landingId].scope == v.events[i].scope
    {
      if i < |w.events| { assert v.events[i] == w.events[i] && w.events[i].landingId in w.rows; }
    }
  }

  lemma NewRowKeepsValid(w: World, id: LandingId, row: Row)
    requires Valid(w) && id !in w.rows && Backed(w, row.reference)
    requires forall k :: !IsRun(w, k, row.scope, row.runId)
    ensures Valid(WithRow(w, id, row)) && Grows(w, WithRow(w, id, row))
  {
    var v := WithRow(w, id, row);
    hide RowsValid;
    hide RunsUnique;
    hide EventsOwned;
    hide CallersValid;
    assert Grows(w, v) && BucketAddressed(v);
    hide Grows;
    hide BucketAddressed;
    NewRowKeepsRowsValid(w, id, row);
    NewRowKeepsRunsUnique(w, id, row);
    EventAddedIsOwned(w, v, Event(row.scope, id, Received));
    CallersPersist(w, v);
  }

  lemma CallersPersist(w: World, v: World)
    requires CallersValid(w) && Grows(w, v) && v.callers == w.callers
    ensures CallersValid(v)
  {
    forall c | c in v.callers
      ensures ValidCaller(v, v.callers[c])
    {
      CallerPersists(w, v, w.callers[c]);
    }
  }

  lemma NewRowKeepsRowsValid(w: World, id: LandingId, row: Row)
    requires Valid(w) && id !in w.rows && Backed(w, row.reference)
    ensures RowsValid(WithRow(w, id, row))
  {
    var v := WithRow(w, id, row);
    forall k | k in v.rows
      ensures Backed(v, v.rows[k].reference) && ReceivedOnce(v, k)
    {
      EventsOfOtherRow(w, v, k, id);
    }
  }

  lemma NewRowKeepsRunsUnique(w: World, id: LandingId, row: Row)
    requires RunsUnique(w) && id !in w.rows && forall k :: !IsRun(w, k, row.scope, row.runId)
    ensures RunsUnique(WithRow(w, id, row))
  {
    var v := WithRow(w, id, row);
    forall a, b | a in v.rows && b in v.rows && v.rows[a].scope == v.rows[b].scope && v.rows[a].runId == v.rows[b].runId
      ensures a == b
    {
      assert !IsRun(w, a, row.scope, row.runId) && !IsRun(w, b, row.scope, row.runId);
    }
  }

  lemma EventsOfOtherRow(w: World, v: World, k: LandingId, id: LandingId)
    requires EventsOwned(w) && id !in w.rows && k in v.rows && (k != id ==> k in w.rows && ReceivedOnce(w, k) && v.rows[k] == w.rows[k])
    requires id in v.rows && v.events == w.events + [Event(v.rows[id].scope, id, Received)]
    ensures ReceivedOnce(v, k)
  {
    assert forall i :: 0 <= i < |w.events| ==> v.events[i] == w.events[i] && w.events[i].landingId in w.rows;
    if k == id {
      assert Concerns(v.events[|w.events|], v.rows[k].scope, k) && v.events[|w.events|].kind == Received;
    } else {
      var i :| 0 <= i < |w.events| && Concerns(w.events[i], w.rows[k].scope, k) && w.events[i].kind == Received;
      assert Concerns(v.events[i], v.rows[k].scope, k) && v.events[i].kind == Received;
    }
  }

  lemma NewEventKeepsReceived(w: World, e: Event, k: LandingId)
    requires k in w.rows && ReceivedOnce(w, k) && !e.kind.Received?
    ensures ReceivedOnce(w.(events := w.events + [e]), k)
  {
    var v := w.(events := w.events + [e]);
    assert forall i :: 0 <= i < |w.events| ==> v.events[i] == w.events[i];
    var i :| 0 <= i < |w.events| && Concerns(w.events[i], w.rows[k].scope, k) && w.events[i].kind == Received;
    assert Concerns(v.events[i], v.rows[k].scope, k) && v.events[i].kind == Received;
  }

  lemma NewEventKeepsValid(w: World, e: Event)
    requires Valid(w) && e.landingId in w.rows && w.rows[e.landingId].scope == e.scope && !e.kind.Received?
    ensures Valid(w.(events := w.events + [e])) && Grows(w, w.(events := w.events + [e]))
  {
    var v := w.(events := w.events + [e]);
    hide RowsValid;
    hide EventsOwned;
    hide CallersValid;
    assert Grows(w, v) && BucketAddressed(v) && RunsUnique(v);
    hide Grows;
    hide BucketAddressed;
    hide RunsUnique;
    NewEventKeepsRowsValid(w, e);
    EventAddedIsOwned(w, v, e);
    CallersPersist(w, v);
  }

  lemma NewEventKeepsRowsValid(w: World, e: Event)
    requires RowsValid(w) && !e.kind.Received?
    ensures RowsValid(w.(events := w.events + [e]))
  {
    var v := w.(events := w.events + [e]);
    forall k | k in v.rows
      ensures Backed(v, v.rows[k].reference) && ReceivedOnce(v, k)
    {
      NewEventKeepsReceived(w, e, k);
    }
  }

  /** A step of archive past its start. */
  predicate Continues(a: Action) {
    a.Lookup? || a.PutBlob? || a.HeadBlob? || a.Insert? || a.Verify?
  }

  lemma ContinuingKeepsValid(cfg: Config, w: World, a: Action)
    requires Valid(w) && Continues(a)
    ensures Valid(Next(cfg, w, a)) && Grows(w, Next(cfg, w, a))
  {
    if a.caller !in w.callers {
      SameTablesKeepValid(w, w);
    } else {
      var c := w.callers[a.caller];
      assert ValidCaller(w, c);
      SameTablesKeepValid(w, w);
      hide Valid;
      hide ValidCaller;
      hide Grows;
      hide Visible;
      hide Lifecycle;
      hide LookupRun;
      hide Put;
      hide Head;
      hide InsertRun;
      hide VerifyBlob;
      match a
      case Lookup(id) => if c.LookingUp? { LookupKeepsValid(w, id, c.request); }
      case PutBlob(id, version, conflict) => if c.Writing? { PutKeepsValid(cfg, w, id, c, version, conflict); }
      case HeadBlob(id) => HeadKeepsValid(cfg, w, id, c);
      case Insert(id, landingId) => if c.Inserting? { InsertKeepsValid(w, id, c, landingId); }
      case Verify(id) => if c.Verifying? { VerifyKeepsValid(w, id, c); }
    }
  }

  lemma NextKeepsValid(cfg: Config, w: World, a: Action)
    requires Valid(w)
    ensures Valid(Next(cfg, w, a)) && Grows(w, Next(cfg, w, a))
  {
    var v := Next(cfg, w, a);
    if Continues(a) {
      hide *;
      ContinuingKeepsValid(cfg, w, a);
    } else {
      assert forall c :: c in w.callers ==> ValidCaller(w, w.callers[c]);
      hide Valid;
      hide ValidCaller;
      hide Grows;
      hide Visible;
      hide Lifecycle;
      hide LookupRun;
      hide Put;
      hide Head;
      hide InsertRun;
      hide VerifyBlob;
      match a
      case Start(id, q) =>
        StartIsValid(w, q);
        if v != w { CallerSetKeepsValid(w, id, LookingUp(q)); } else { SameTablesKeepValid(w, v); }
      case Complete(scope, id, kind) =>
        if v != w { NewEventKeepsValid(w, Event(scope, id, kind)); } else { SameTablesKeepValid(w, v); }
      case MarkReplayed(scope, id, runId) =>
        if v != w { NewEventKeepsValid(w, Event(scope, id, Replayed(runId))); } else { SameTablesKeepValid(w, v); }
      case _ => SameTablesKeepValid(w, v);
    }
  }

  lemma StartIsValid(w: World, q: Request)
    ensures ValidCaller(w, LookingUp(q))
  {
  }

  lemma LookupKeepsValid(w: World, id: nat, q: Request)
    requires Valid(w)
    ensures Valid(LookupRun(w, id, q)) && Grows(w, LookupRun(w, id, q))
  {
    LookupIsValid(w, q);
    CallerSetKeepsValid(w, id, LookupAnswer(w, q));
  }

  lemma LookupIsValid(w: World, q: Request)
    requires Valid(w)
    ensures ValidCaller(w, LookupAnswer(w, q))
  {
    var found := FindByRun(w, q.scope, q.runId);
    if found.Some? { SizesFollow(w, found.value, q); }
  }

  lemma VerifyKeepsValid(w: World, id: nat, c: Caller)
    requires Valid(w) && ValidCaller(w, c) && c.Verifying?
    ensures Valid(VerifyBlob(w, id, c.request, c.id)) && Grows(w, VerifyBlob(w, id, c.request, c.id))
  {
    assert Backed(w, w.rows[c.id].reference);
    CallerSetKeepsValid(w, id, Done(c.request, Archived(c.id)));
  }

  lemma {:induction false} RunKeepsValid(cfg: Config, w: World, actions: seq<Action>)
    requires Valid(w)
    ensures Valid(Run(cfg, w, actions)) && Grows(w, Run(cfg, w, actions))
    decreases |actions|
  {
    if |actions| == 0 {
      SameTablesKeepValid(w, w);
    } else {
      NextKeepsValid(cfg, w, actions[0]);
      RunKeepsValid(cfg, Next(cfg, w, actions[0]), actions[1..]);
    }
  }

  // --- The promises of archive ---

  /**
   * Whatever the replicas did, with crashes anywhere: at most one row per run; each row shows, because
   * it has exactly one received event; and its locator names a stored blob of that checksum and size.
   */
  lemma RowsAreUniqueVisibleAndBacked(cfg: Config, actions: seq<Action>)
    ensures var w := Run(cfg, EMPTY, actions);
      && (forall a, b :: a in w.rows && b in w.rows && w.rows[a].scope == w.rows[b].scope && w.rows[a].runId == w.rows[b].runId ==> a == b)
      && (forall id :: id in w.rows ==> ReceivedOnce(w, id) && Visible(w, id) && Backed(w, w.rows[id].reference))
  {
    RunKeepsValid(cfg, EMPTY, actions);
    var w := Run(cfg, EMPTY, actions);
    forall id | id in w.rows
      ensures Visible(w, id)
    {
      RowsAreVisible(w, id);
    }
  }

  /** Callers of one run with equal payloads get one id; none of them is told of a conflict. */
  lemma SamePayloadSameId(cfg: Config, actions: seq<Action>, a: nat, b: nat)
    requires var w := Run(cfg, EMPTY, actions);
      && a in w.callers && b in w.callers && w.callers[a].Done? && w.callers[b].Done?
      && w.callers[a].request.scope == w.callers[b].request.scope && w.callers[a].request.runId == w.callers[b].request.runId
      && w.callers[a].outcome.Archived?
    ensures var w := Run(cfg, EMPTY, actions);
      && (w.callers[b].outcome.Archived? ==>
            w.callers[a].outcome.id == w.callers[b].outcome.id && w.callers[a].request.payload == w.callers[b].request.payload)
      && (w.callers[b].outcome == Conflict ==> w.callers[a].request.payload != w.callers[b].request.payload)
  {
    RunKeepsValid(cfg, EMPTY, actions);
    var w := Run(cfg, EMPTY, actions);
    assert ValidCaller(w, w.callers[a]) && ValidCaller(w, w.callers[b]);
    assert IsRun(w, w.callers[a].outcome.id, w.callers[a].request.scope, w.callers[a].request.runId);
  }

  /** Once a run is archived, whoever inserts other content under its run id is told of the conflict. */
  lemma OtherPayloadConflicts(w: World, id: nat, c: Caller, landingId: LandingId, archived: LandingId)
    requires Valid(w) && ValidCaller(w, c) && c.Inserting?
    requires IsRun(w, archived, c.request.scope, c.request.runId)
    ensures var v := InsertRun(w, id, c, landingId);
      && v.rows == w.rows && v.events == w.events
      && v.callers[id] == if w.rows[archived].reference.checksum == c.request.Sum() then Verifying(c.request, archived)
                          else Done(c.request, Conflict)
  {
    FindByRunFindsAll(w, c.request.scope, c.request.runId);
    SizesFollow(w, archived, c.request);
  }

  /** Verification never fails for content, since a deterministic key is never overwritten. */
  lemma ContentIsNeverLost(cfg: Config, actions: seq<Action>, c: nat)
    requires c in Run(cfg, EMPTY, actions).callers && Run(cfg, EMPTY, actions).callers[c].Done?
    ensures Run(cfg, EMPTY, actions).callers[c].outcome != IntegrityFailure
  {
    RunKeepsValid(cfg, EMPTY, actions);
    assert ValidCaller(Run(cfg, EMPTY, actions), Run(cfg, EMPTY, actions).callers[c]);
  }

  // --- complete and markReplayed ---

  lemma LifecycleOfAppended(events: seq<Event>, e: Event, scope: Scope, id: LandingId)
    ensures Lifecycle(events + [e], scope, id)
         == if Concerns(e, scope, id) && !e.kind.Replayed? then Some(e.kind) else Lifecycle(events, scope, id)
  {
    assert (events + [e])[..|events|] == events;
  }

  /** complete shows the state it was given, and doing it again adds nothing. */
  lemma CompleteIsIdempotent(cfg: Config, w: World, scope: Scope, id: LandingId, kind: Kind)
    requires Valid(w) && id in w.rows && w.rows[id].scope == scope && !kind.Received? && !kind.Replayed?
    ensures var v := Next(cfg, w, Complete(scope, id, kind));
      && Lifecycle(v.events, scope, id) == Some(kind) && Next(cfg, v, Complete(scope, id, kind)) == v
      && v.rows == w.rows && |v.events| <= |w.events| + 1
  {
    RowsAreVisible(w, id);
    LifecycleOfAppended(w.events, Event(scope, id, kind), scope, id);
  }

  /** A replay leaves the lifecycle state of every landing as it was. */
  lemma ReplayKeepsLifecycle(cfg: Config, w: World, scope: Scope, id: LandingId, runId: string, other: LandingId)
    ensures Lifecycle(Next(cfg, w, MarkReplayed(scope, id, runId)).events, scope, other) == Lifecycle(w.events, scope, other)
  {
    LifecycleOfAppended(w.events, Event(scope, id, Replayed(runId)), scope, other);
  }
}
