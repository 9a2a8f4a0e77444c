/** What a single caller of archive can count on, and what a refused one leaves behind. */
module RawLandingProgress {
  import opened Common
  import opened RawLanding

  // --- What else every reachable world satisfies ---

  /** The reference was made for this run. */
  predicate Located(cfg: Config, scope: Scope, runId: string, r: Reference) {
    r.key == KeyFor(cfg, Request(scope, runId, r.checksum.payload))
  }

  predicate VersionsKept(cfg: Config, w: World) {
    forall key :: key in w.bucket ==> (w.bucket[key].version.Some? <==> cfg.versioned)
  }

  predicate CallerLocated(cfg: Config, c: Caller) {
    c.Confirming? || c.Inserting? ==> Located(cfg, c.request.scope, c.request.runId, c.reference)
  }

  predicate Placed(cfg: Config, w: World) {
    && VersionsKept(cfg, w)
    && (forall id :: id in w.rows ==> Located(cfg, w.rows[id].scope, w.rows[id].runId, w.rows[id].reference))
    && (forall id :: id in w.callers ==> CallerLocated(cfg, w.callers[id]))
  }

  lemma CallerSetKeepsPlaced(cfg: Config, w: World, id: nat, c: Caller)
    requires Placed(cfg, w) && CallerLocated(cfg, c)
    ensures Placed(cfg, SetCaller(w, id, c))
  {
  }

  lemma PutKeepsPlaced(cfg: Config, w: World, id: nat, c: Caller, version: string, conflict: bool)
    requires Placed(cfg, w) && c.Writing?
    ensures Placed(cfg, Put(cfg, w, id, c, version, conflict))
  {
  }

  lemma HeadKeepsPlaced(cfg: Config, w: World, id: nat, c: Caller)
    requires Placed(cfg, w) && CallerLocated(cfg, c)
    ensures Placed(cfg, Head(cfg, w, id, c))
  {
    hide Placed;
    match c
    case Reusing(q) => CallerSetKeepsPlaced(cfg, w, id, Reuse(cfg, w, q));
    case Confirming(q, r) => CallerSetKeepsPlaced(cfg, w, id, Confirm(w, q, r));
    case _ =>
  }

  lemma InsertKeepsPlaced(cfg: Config, w: World, id: nat, c: Caller, landing: LandingId)
    requires Placed(cfg, w) && CallerLocated(cfg, c) && c.Inserting?
    ensures Placed(cfg, InsertRun(w, id, c, landing))
  {
    hide Placed;
    var v := InsertRun(w, id, c, landing);
    if v.rows == w.rows {
      assert v == SetCaller(w, id, v.callers[id]) && CallerLocated(cfg, v.callers[id]);
      CallerSetKeepsPlaced(cfg, w, id, v.callers[id]);
    } else {
      var grown := WithRow(w, landing, Row(c.request.scope, c.request.runId, c.reference));
      assert v == SetCaller(grown, id, Verifying(c.request, landing));
      RowAddedIsPlaced(cfg, w, landing, Row(c.request.scope, c.request.runId, c.reference));
      CallerSetKeepsPlaced(cfg, grown, id, Verifying(c.request, landing));
    }
  }

  lemma RowAddedIsPlaced(cfg: Config, w: World, landing: LandingId, row: Row)
    requires Placed(cfg, w) && Located(cfg, row.scope, row.runId, row.reference)
    ensures Placed(cfg, WithRow(w, landing, row))
  {
  }

  lemma LookupKeepsPlaced(cfg: Config, w: World, id: nat, q: Request)
    requires Placed(cfg, w)
    ensures Placed(cfg, LookupRun(w, id, q))
  {
    hide Placed;
    hide FindByRun;
    CallerSetKeepsPlaced(cfg, w, id, LookupAnswer(w, q));
  }

  lemma VerifyKeepsPlaced(cfg: Config, w: World, id: nat, q: Request, landing: LandingId)
    requires Placed(cfg, w)
    ensures Placed(cfg, VerifyBlob(w, id, q, landing))
  {
    hide Placed;
    CallerSetKeepsPlaced(cfg, w, id, VerifyAnswer(w, q, landing));
  }

  lemma StartIsLocated(cfg: Config, q: Request)
    ensures CallerLocated(cfg, LookingUp(q))
  {
  }

  lemma SameStorageKeepsPlaced(cfg: Config, w: World, v: World)
    requires Placed(cfg, w) && v.bucket == w.bucket && v.rows == w.rows
    requires forall id :: id in v.callers ==> CallerLocated(cfg, v.callers[id])
    ensures Placed(cfg, v)
  {
  }

  lemma ContinuingKeepsPlaced(cfg: Config, w: World, a: Action)
    requires Placed(cfg, w) && Continues(a)
    ensures Placed(cfg, Next(cfg, w, a))
  {
    if a.caller in w.callers {
      var c := w.callers[a.caller];
      assert CallerLocated(cfg, c);
      hide Placed;
      hide CallerLocated;
      hide VersionsKept;
      hide Located;
      hide Visible;
      hide Lifecycle;
      hide LookupRun;
      hide VerifyBlob;
      hide Put;
      hide Head;
      hide InsertRun;
      match a
      case Lookup(id) => if c.LookingUp? { LookupKeepsPlaced(cfg, w, id, c.request); }
      case PutBlob(id, version, conflict) => if c.Writing? { PutKeepsPlaced(cfg, w, id, c, version, conflict); }
      case HeadBlob(id) => HeadKeepsPlaced(cfg, w, id, c);
      case Insert(id, landing) => if c.Inserting? { InsertKeepsPlaced(cfg, w, id, c, landing); }
      case Verify(id) => if c.Verifying? { VerifyKeepsPlaced(cfg, w, id, c.request, c.id); }
    }
  }

  lemma NextKeepsPlaced(cfg: Config, w: World, a: Action)
    requires Placed(cfg, w)
    ensures Placed(cfg, Next(cfg, w, a))
  {
    var v := Next(cfg, w, a);
    if Continues(a) {
      hide *;
      ContinuingKeepsPlaced(cfg, w, a);
    } else {
      assert forall id :: id in w.callers ==> CallerLocated(cfg, w.callers[id]);
      hide Placed;
      hide CallerLocated;
      hide VersionsKept;
      hide Located;
      hide Visible;
      hide Lifecycle;
      hide LookupRun;
      hide VerifyBlob;
      hide Put;
      hide Head;
      hide InsertRun;
      match a
      case Start(id, q) => if v != w { StartIsLocated(cfg, q); CallerSetKeepsPlaced(cfg, w, id, LookingUp(q)); }
      case _ => SameStorageKeepsPlaced(cfg, w, v);
    }
  }

  lemma {:induction false} RunKeepsPlaced(cfg: Config, w: World, actions: seq<Action>)
    requires Placed(cfg, w)
    ensures Placed(cfg, Run(cfg, w, actions))
    decreases |actions|
  {
    if |actions| > 0 {
      NextKeepsPlaced(cfg, w, actions[0]);
      RunKeepsPlaced(cfg, Next(cfg, w, actions[0]), actions[1..]);
    }
  }

  // --- A caller that nobody disturbs ---

  /** The calls one after the other; those that do not fit the place of the caller change nothing. */
  function Alone(id: nat, q: Request, version: string, landing: LandingId): seq<Action> {
    [Start(id, q), Lookup(id), PutBlob(id, version, false), HeadBlob(id), HeadBlob(id), Insert(id, landing), Verify(id)]
  }

  /** Another run of the scope has the same truncated hash and the same content, so also the same locator. */
  ghost predicate Collides(cfg: Config, w: World, q: Request) {
    exists k :: SameLocation(cfg, w, k, q) && w.rows[k].runId != q.runId
  }

  predicate SameLocation(cfg: Config, w: World, k: LandingId, q: Request) {
    && k in w.rows && w.rows[k].scope == q.scope && w.rows[k].reference.checksum == q.Sum()
    && cfg.segment(w.rows[k].runId) == cfg.segment(q.runId)
  }

  /** The run is archived with other content. */
  ghost predicate Taken(w: World, q: Request) {
    exists k :: IsRun(w, k, q.scope, q.runId) && w.rows[k].reference.checksum != q.Sum()
  }

  /** The row archives just this run and content. */
  ghost predicate Holds(w: World, k: LandingId, q: Request) {
    IsRun(w, k, q.scope, q.runId) && w.rows[k].reference.checksum == q.Sum()
  }

  ghost predicate Recorded(w: World, q: Request) {
    exists k :: Holds(w, k, q)
  }

  /**
   * What the rows of `w` make of a request: the rows it leaves in `v` and the outcome that its caller is told. A run
   * that is archived is answered without a write to the bucket.
   */
  ghost predicate Answered(cfg: Config, w: World, v: World, id: nat, q: Request, landing: LandingId) {
    && id in v.callers && v.callers[id].Done? && v.callers[id].request == q
    && var outcome := v.callers[id].outcome;
       if Taken(w, q) then outcome == Conflict && v.rows == w.rows && v.bucket == w.bucket
       else if Recorded(w, q) then outcome.Archived? && Holds(w, outcome.id, q) && v.rows == w.rows && v.bucket == w.bucket
       else if Collides(cfg, w, q) then outcome == DatabaseFailure && v.rows == w.rows
       else outcome == Archived(landing) && Adds(w, v, landing, q)
  }

  ghost predicate Adds(w: World, v: World, landing: LandingId, q: Request) {
    Holds(v, landing, q) && v.rows == w.rows[landing := v.rows[landing]]
  }

  /** The same, while the archived row is still to be verified. */
  ghost predicate Answering(cfg: Config, w: World, v: World, id: nat, q: Request, landing: LandingId) {
    || Answered(cfg, w, v, id, q, landing)
    || (&& id in v.callers && v.callers[id].Verifying? && v.callers[id].request == q
        && Holds(v, v.callers[id].id, q) && !Taken(w, q)
        && if Recorded(w, q) then v.rows == w.rows && v.bucket == w.bucket
           else !Collides(cfg, w, q) && v.callers[id].id == landing && Adds(w, v, landing, q))
  }

  lemma LookupLeads(cfg: Config, w: World, id: nat, q: Request, landing: LandingId)
    requires Valid(w) && id in w.callers && w.callers[id] == LookingUp(q)
    ensures var v := Next(cfg, w, Lookup(id));
      && v.rows == w.rows && id in v.callers
      && ((v.callers[id] == Writing(q) && !Taken(w, q) && !Recorded(w, q)) || Answering(cfg, w, v, id, q, landing))
  {
    FindByRunFindsAll(w, q.scope, q.runId);
    var found := FindByRun(w, q.scope, q.runId);
    if found.Some? {
      SizesFollow(w, found.value, q);
      OnlyOneRun(w, found.value, q);
      var v := Next(cfg, w, Lookup(id));
      assert IsRun(v, found.value, q.scope, q.runId);
      hide Valid;
      if w.rows[found.value].reference.checksum == q.Sum() { assert Holds(w, found.value, q); }
    }
  }

  /** A run has one row, so what that row holds decides whether the run is taken. */
  lemma OnlyOneRun(w: World, k: LandingId, q: Request)
    requires Valid(w) && IsRun(w, k, q.scope, q.runId)
    ensures Taken(w, q) <==> w.rows[k].reference.checksum != q.Sum()
    ensures Recorded(w, q) <==> w.rows[k].reference.checksum == q.Sum()
  {
    if w.rows[k].reference.checksum == q.Sum() { assert Holds(w, k, q); }
  }

  lemma WritingLeads(cfg: Config, w: World, id: nat, q: Request, version: string)
    requires id in w.callers && w.callers[id] == Writing(q)
    requires cfg.versioned || !cfg.requireVersioning
    ensures var v := Next(cfg, w, PutBlob(id, version, false));
      && v.rows == w.rows && id in v.callers
      && ((v.callers[id].Confirming? && v.callers[id].request == q)
          || (v.callers[id] == Reusing(q) && KeyFor(cfg, q) in v.bucket))
  {
  }

  lemma ReusingLeads(cfg: Config, w: World, id: nat, q: Request)
    requires VersionsKept(cfg, w) && id in w.callers && w.callers[id] == Reusing(q) && KeyFor(cfg, q) in w.bucket
    requires cfg.versioned || !cfg.requireVersioning
    ensures var v := Next(cfg, w, HeadBlob(id));
      v.rows == w.rows && id in v.callers && v.callers[id].Confirming? && v.callers[id].request == q
  {
  }

  lemma WritingLeadsToInserting(cfg: Config, w: World, id: nat, q: Request, version: string)
    requires Valid(w) && Placed(cfg, w) && id in w.callers && w.callers[id] == Writing(q)
    requires cfg.versioned || !cfg.requireVersioning
    ensures var v := Next(cfg, Next(cfg, Next(cfg, w, PutBlob(id, version, false)), HeadBlob(id)), HeadBlob(id));
      && v.rows == w.rows && id in v.callers && v.callers[id].Inserting? && v.callers[id].request == q
  {
    var put := Next(cfg, w, PutBlob(id, version, false));
    NextKeepsValid(cfg, w, PutBlob(id, version, false));
    NextKeepsPlaced(cfg, w, PutBlob(id, version, false));
    assert VersionsKept(cfg, put);
    WritingLeads(cfg, w, id, q, version);
    hide *;
    var head := Next(cfg, put, HeadBlob(id));
    if put.callers[id].Confirming? {
      ConfirmingLeadsToInserting(cfg, put, id);
      CallerIsSet(put, id, Inserting(put.callers[id].request, put.callers[id].reference));
    } else {
      ReusingLeads(cfg, put, id, q);
      NextKeepsValid(cfg, put, HeadBlob(id));
      ConfirmingLeadsToInserting(cfg, head, id);
      CallerIsSet(head, id, Inserting(head.callers[id].request, head.callers[id].reference));
    }
  }

  lemma CallerIsSet(w: World, id: nat, c: Caller)
    ensures SetCaller(w, id, c).rows == w.rows && id in SetCaller(w, id, c).callers && SetCaller(w, id, c).callers[id] == c
  {
  }

  lemma ConfirmingLeadsToInserting(cfg: Config, w: World, id: nat)
    requires Valid(w) && id in w.callers && w.callers[id].Confirming?
    ensures var v := Next(cfg, w, HeadBlob(id));
      && v == SetCaller(w, id, Inserting(w.callers[id].request, w.callers[id].reference))
      && Next(cfg, v, HeadBlob(id)) == v
  {
    assert ValidCaller(w, w.callers[id]);
  }

  /** The insert transaction answers, or adds the row that is verified next. */
  lemma InsertingLeads(cfg: Config, w: World, id: nat, c: Caller, landing: LandingId)
    requires Valid(w) && Placed(cfg, w) && ValidCaller(w, c) && CallerLocated(cfg, c) && c.Inserting?
    requires landing !in w.rows
    ensures Answering(cfg, w, InsertRun(w, id, c, landing), id, c.request, landing)
  {
    var q := c.request;
    FindByRunFindsAll(w, q.scope, q.runId);
    var raced := FindByRun(w, q.scope, q.runId);
    if raced.Some? {
      SizesFollow(w, raced.value, q);
      OnlyOneRun(w, raced.value, q);
      hide *;
      RacedIsAnswering(cfg, w, id, c, landing, raced.value);
    } else {
      LocatorIsShared(cfg, w, q, c.reference);
      hide *;
      NewRunIsAnswering(cfg, w, id, c, landing);
    }
  }

  lemma RacedIsAnswering(cfg: Config, w: World, id: nat, c: Caller, landing: LandingId, k: LandingId)
    requires c.Inserting? && FindByRun(w, c.request.scope, c.request.runId) == Some(k)
    requires IsRun(w, k, c.request.scope, c.request.runId)
    requires ExactRun(w.rows[k], c.request) <==> w.rows[k].reference.checksum == c.request.Sum()
    requires Taken(w, c.request) <==> w.rows[k].reference.checksum != c.request.Sum()
    requires Recorded(w, c.request) <==> w.rows[k].reference.checksum == c.request.Sum()
    ensures Answering(cfg, w, InsertRun(w, id, c, landing), id, c.request, landing)
  {
    hide Taken;
    hide Recorded;
    hide Collides;
    hide FindByRun;
  }

  lemma NewRunIsAnswering(cfg: Config, w: World, id: nat, c: Caller, landing: LandingId)
    requires c.Inserting? && FindByRun(w, c.request.scope, c.request.runId).None?
    requires landing !in w.rows && c.reference.checksum == c.request.Sum()
    requires forall k :: !IsRun(w, k, c.request.scope, c.request.runId)
    requires !Taken(w, c.request) && !Recorded(w, c.request)
    requires (exists k :: SharesLocator(w, k, c.request.scope, c.reference)) <==> Collides(cfg, w, c.request)
    ensures Answering(cfg, w, InsertRun(w, id, c, landing), id, c.request, landing)
  {
    hide Taken;
    hide Recorded;
    hide Collides;
    hide FindByRun;
    hide SharesLocator;
  }

  lemma InsertingLeadsToAnswer(cfg: Config, w: World, id: nat, q: Request, landing: LandingId)
    requires Valid(w) && Placed(cfg, w) && id in w.callers && w.callers[id].Inserting? && w.callers[id].request == q
    requires landing !in w.rows
    ensures Answered(cfg, w, Next(cfg, Next(cfg, w, Insert(id, landing)), Verify(id)), id, q, landing)
  {
    var c := w.callers[id];
    var v := Next(cfg, w, Insert(id, landing));
    NextKeepsValid(cfg, w, Insert(id, landing));
    assert CallerLocated(cfg, c) && ValidCaller(w, c) && v == InsertRun(w, id, c, landing);
    InsertingLeads(cfg, w, id, c, landing);
    hide *;
    AnsweringLeadsToAnswer(cfg, w, v, id, q, landing);
  }

  lemma AnsweringLeadsToAnswer(cfg: Config, w: World, v: World, id: nat, q: Request, landing: LandingId)
    requires Valid(v) && Answering(cfg, w, v, id, q, landing)
    ensures Answered(cfg, w, Next(cfg, v, Verify(id)), id, q, landing)
  {
    if v.callers[id].Verifying? {
      var k := v.callers[id].id;
      assert Backed(v, v.rows[k].reference);
      assert Next(cfg, v, Verify(id)) == SetCaller(v, id, Done(q, Archived(k)));
      hide Valid;
      VerifiedIsAnswered(cfg, w, v, id, q, landing);
    }
  }

  lemma VerifiedIsAnswered(cfg: Config, w: World, v: World, id: nat, q: Request, landing: LandingId)
    requires Answering(cfg, w, v, id, q, landing) && v.callers[id].Verifying?
    ensures Answered(cfg, w, SetCaller(v, id, Done(q, Archived(v.callers[id].id))), id, q, landing)
  {
    var u := SetCaller(v, id, Done(q, Archived(v.callers[id].id)));
    assert Holds(u, v.callers[id].id, q) && (Recorded(w, q) ==> Holds(w, v.callers[id].id, q));
  }

  /** For a run without a row, the locator is taken exactly by a colliding run. */
  lemma LocatorIsShared(cfg: Config, w: World, q: Request, r: Reference)
    requires Placed(cfg, w) && Located(cfg, q.scope, q.runId, r) && Backed(w, r) && r.checksum == q.Sum() && RowsValid(w)
    requires forall k :: !IsRun(w, k, q.scope, q.runId)
    ensures !Taken(w, q) && !Recorded(w, q)
    ensures (exists k :: SharesLocator(w, k, q.scope, r)) <==> Collides(cfg, w, q)
  {
    forall k
      ensures SharesLocator(w, k, q.scope, r) <==> SameLocation(cfg, w, k, q)
      ensures SameLocation(cfg, w, k, q) ==> w.rows[k].runId != q.runId
    {
      if k in w.rows && w.rows[k].scope == q.scope {
        assert !IsRun(w, k, q.scope, q.runId);
        assert Located(cfg, w.rows[k].scope, w.rows[k].runId, w.rows[k].reference);
        assert Backed(w, w.rows[k].reference);
      }
    }
  }

  lemma RunSeven(cfg: Config, w: World, actions: seq<Action>)
    requires |actions| == 7
    ensures Run(cfg, w, actions) ==
      Next(cfg, Next(cfg, Next(cfg, Next(cfg, Next(cfg, Next(cfg, Next(cfg, w,
        actions[0]), actions[1]), actions[2]), actions[3]), actions[4]), actions[5]), actions[6])
  {
    hide Next;
    RunTwo(cfg, w, actions);
    var w2 := Next(cfg, Next(cfg, w, actions[0]), actions[1]);
    RunTwo(cfg, w2, actions[2..]);
    var w4 := Next(cfg, Next(cfg, w2, actions[2]), actions[3]);
    assert actions[2..][2..] == actions[4..];
    RunTwo(cfg, w4, actions[4..]);
    assert actions[4..][2..] == [actions[6]];
  }

  lemma RunTwo(cfg: Config, w: World, actions: seq<Action>)
    requires |actions| >= 2
    ensures Run(cfg, w, actions) == Run(cfg, Next(cfg, Next(cfg, w, actions[0]), actions[1]), actions[2..])
  {
    assert actions[1..][1..] == actions[2..];
  }

  /**
   * From every reachable world, if the bucket keeps the versions that are required, a new caller that nobody
   * disturbs is answered by the rows it found: a conflict exactly if its run is archived with other content,
   * the archived row if it is archived with this content, a database failure exactly if a run that is not
   * archived collides with another one, and in every other case its own new row.
   */
  lemma ArchiveSucceedsAlone(
      cfg: Config, before: seq<Action>, id: nat, q: Request, version: string, landing: LandingId)
    requires cfg.versioned || !cfg.requireVersioning
    requires var w := Run(cfg, EMPTY, before); landing !in w.rows && (id in w.callers ==> w.callers[id].Done?)
    ensures var w := Run(cfg, EMPTY, before);
      Answered(cfg, w, Run(cfg, w, Alone(id, q, version, landing)), id, q, landing)
  {
    var w := Run(cfg, EMPTY, before);
    RunKeepsValid(cfg, EMPTY, before);
    RunKeepsPlaced(cfg, EMPTY, before);
    RunSeven(cfg, w, Alone(id, q, version, landing));
    NextKeepsValid(cfg, w, Start(id, q));
    NextKeepsPlaced(cfg, w, Start(id, q));
    hide Run;
    var started := Next(cfg, w, Start(id, q));
    assert started.rows == w.rows && started.callers[id] == LookingUp(q);
    AnswersAfterLookup(cfg, started, id, q, version, landing);
    hide Next;
    SameRowsSameAnswer(cfg, started, w, Run(cfg, w, Alone(id, q, version, landing)), id, q, landing);
  }

  lemma AnswersAfterLookup(cfg: Config, w: World, id: nat, q: Request, version: string, landing: LandingId)
    requires Valid(w) && Placed(cfg, w) && id in w.callers && w.callers[id] == LookingUp(q)
    requires cfg.versioned || !cfg.requireVersioning
    requires landing !in w.rows
    ensures Answered(cfg, w,
      Next(cfg, Next(cfg, Next(cfg, Next(cfg, Next(cfg, Next(cfg, w, Lookup(id)), PutBlob(id, version, false)),
        HeadBlob(id)), HeadBlob(id)), Insert(id, landing)), Verify(id)), id, q, landing)
  {
    var v := Next(cfg, w, Lookup(id));
    LookupLeads(cfg, w, id, q, landing);
    NextKeepsValid(cfg, w, Lookup(id));
    NextKeepsPlaced(cfg, w, Lookup(id));
    if v.callers[id] == Writing(q) {
      var put := Next(cfg, v, PutBlob(id, version, false));
      var head := Next(cfg, put, HeadBlob(id));
      WritingLeadsToInserting(cfg, v, id, q, version);
      NextKeepsValid(cfg, v, PutBlob(id, version, false));
      NextKeepsPlaced(cfg, v, PutBlob(id, version, false));
      NextKeepsValid(cfg, put, HeadBlob(id));
      NextKeepsPlaced(cfg, put, HeadBlob(id));
      NextKeepsValid(cfg, head, HeadBlob(id));
      NextKeepsPlaced(cfg, head, HeadBlob(id));
      hide *;
      var u := Next(cfg, head, HeadBlob(id));
      InsertingLeadsToAnswer(cfg, u, id, q, landing);
      SameRowsSameAnswer(cfg, u, w, Next(cfg, Next(cfg, u, Insert(id, landing)), Verify(id)), id, q, landing);
    } else {
      WaitingSteps(cfg, v, id, version, landing);
      AnsweringLeadsToAnswer(cfg, w, v, id, q, landing);
    }
  }

  lemma SameRowsSameAnswer(cfg: Config, u: World, w: World, v: World, id: nat, q: Request, landing: LandingId)
    requires u.rows == w.rows && Answered(cfg, u, v, id, q, landing)
    requires u.bucket == w.bucket || (!Taken(w, q) && !Recorded(w, q))
    ensures Answered(cfg, w, v, id, q, landing)
  {
    assert forall k :: IsRun(u, k, q.scope, q.runId) == IsRun(w, k, q.scope, q.runId);
    assert forall k :: Holds(u, k, q) == Holds(w, k, q);
    assert forall k :: SameLocation(cfg, u, k, q) == SameLocation(cfg, w, k, q);
  }

  /** Two runs with one truncated hash and one payload: the first is archived and the second is refused. */
  lemma CollidingRunIsRefused(
      cfg: Config, q: Request, other: string, version: string, landing: LandingId, second: string, unused: LandingId)
    requires cfg.versioned || !cfg.requireVersioning
    requires other != q.runId && cfg.segment(other) == cfg.segment(q.runId) && unused != landing
    ensures var w := Run(cfg, EMPTY, Alone(0, q, version, landing));
      var r := q.(runId := other);
      var v := Run(cfg, w, Alone(0, r, second, unused));
      && 0 in w.callers && w.callers[0] == Done(q, Archived(landing)) && Holds(w, landing, q)
      && 0 in v.callers && v.callers[0] == Done(r, DatabaseFailure) && v.rows == w.rows
  {
    var r := q.(runId := other);
    var w := Run(cfg, EMPTY, Alone(0, q, version, landing));
    ArchiveSucceedsAlone(cfg, [], 0, q, version, landing);
    assert Run(cfg, EMPTY, []) == EMPTY;
    hide Run;
    assert SameLocation(cfg, w, landing, r);
    ArchiveSucceedsAlone(cfg, Alone(0, q, version, landing), 0, r, second, unused);
  }

  /** The steps of a write are not for a caller that is past it. */
  lemma WaitingSteps(cfg: Config, w: World, id: nat, version: string, landing: LandingId)
    requires id in w.callers && (w.callers[id].Verifying? || w.callers[id].Done?)
    ensures Next(cfg, w, PutBlob(id, version, false)) == w && Next(cfg, w, HeadBlob(id)) == w
    ensures Next(cfg, w, Insert(id, landing)) == w
    ensures w.callers[id].Done? ==> Next(cfg, w, Verify(id)) == w
  {
  }

  // --- A bucket without the versions that are required ---

  ghost predicate NothingLands(w: World) {
    && w.rows == map[]
    && (forall key :: key in w.bucket ==> w.bucket[key].version.None?)
    && (forall c :: c in w.callers ==>
          w.callers[c].LookingUp? || w.callers[c].Writing? || w.callers[c].Reusing? || w.callers[c].Done?)
  }

  /** No run is ever archived, though every attempt may leave its blob behind. */
  lemma {:induction false} UnversionedBucketNeverLands(cfg: Config, w: World, actions: seq<Action>)
    requires cfg.requireVersioning && !cfg.versioned && NothingLands(w)
    ensures NothingLands(Run(cfg, w, actions))
    decreases |actions|
  {
    if |actions| > 0 {
      UnversionedStep(cfg, w, actions[0]);
      UnversionedBucketNeverLands(cfg, Next(cfg, w, actions[0]), actions[1..]);
    }
  }

  lemma UnversionedStep(cfg: Config, w: World, a: Action)
    requires cfg.requireVersioning && !cfg.versioned && NothingLands(w)
    ensures NothingLands(Next(cfg, w, a))
  {
  }

  /** The first write of a payload is refused and leaves an orphan: whatever happens later, no row names its blob. */
  lemma RefusedWriteLeavesOrphan(cfg: Config, before: seq<Action>, id: nat, version: string, later: seq<Action>)
    requires cfg.requireVersioning && !cfg.versioned
    requires var w := Run(cfg, EMPTY, before);
      id in w.callers && w.callers[id].Writing? && KeyFor(cfg, w.callers[id].request) !in w.bucket
    ensures var w := Run(cfg, EMPTY, before);
      var q := w.callers[id].request;
      var refused := Next(cfg, w, PutBlob(id, version, false));
      && refused.callers[id] == Done(q, StorageUnavailable)
      && KeyFor(cfg, q) in Run(cfg, refused, later).bucket && Run(cfg, refused, later).rows == map[]
  {
    var w := Run(cfg, EMPTY, before);
    var refused := Next(cfg, w, PutBlob(id, version, false));
    RunKeepsValid(cfg, EMPTY, before);
    UnversionedBucketNeverLands(cfg, EMPTY, before);
    NextKeepsValid(cfg, w, PutBlob(id, version, false));
    UnversionedStep(cfg, w, PutBlob(id, version, false));
    RunKeepsValid(cfg, refused, later);
    UnversionedBucketNeverLands(cfg, refused, later);
  }

  // --- What the callers of the archive can rely on ---

  /** Two requests share an object key exactly if all three truncated hashes and the whole content agree. */
  lemma KeysCollideExactly(cfg: Config, a: Request, b: Request)
    ensures KeyFor(cfg, a) == KeyFor(cfg, b) <==>
      && a.payload == b.payload && cfg.segment(a.runId) == cfg.segment(b.runId)
      && cfg.segment(a.scope.tenantId) == cfg.segment(b.scope.tenantId)
      && cfg.segment(a.scope.projectId) == cfg.segment(b.scope.projectId)
  {
  }

  /** The row names a blob with this content. */
  predicate Holding(w: World, id: LandingId, q: Request) {
    && id in w.rows && w.rows[id].scope == q.scope && w.rows[id].runId == q.runId
    && w.rows[id].reference.key in w.bucket
    && w.bucket[w.rows[id].reference.key] == Object(w.rows[id].reference.version, Checksum(q.payload), |q.payload|)
  }

  /** Once a caller is told that its payload is archived, a replay finds that payload whatever happens later. */
  lemma ArchivedPayloadStays(cfg: Config, before: seq<Action>, later: seq<Action>, c: nat)
    requires var w := Run(cfg, EMPTY, before); c in w.callers && w.callers[c].Done? && w.callers[c].outcome.Archived?
    ensures var w := Run(cfg, EMPTY, before);
      Holding(Run(cfg, w, later), w.callers[c].outcome.id, w.callers[c].request)
  {
    var w := Run(cfg, EMPTY, before);
    RunKeepsValid(cfg, EMPTY, before);
    RunKeepsValid(cfg, w, later);
    ArchivedIsHeld(w, c);
    hide Run;
    hide Valid;
  }

  lemma ArchivedIsHeld(w: World, c: nat)
    requires Valid(w) && c in w.callers && w.callers[c].Done? && w.callers[c].outcome.Archived?
    ensures Holding(w, w.callers[c].outcome.id, w.callers[c].request)
  {
    assert ValidCaller(w, w.callers[c]);
    assert Backed(w, w.rows[w.callers[c].outcome.id].reference);
  }

  /** Event `i` is the last one of the landing that is not a replay. */
  ghost predicate ShowsAt(events: seq<Event>, scope: Scope, id: LandingId, i: nat) {
    && i < |events| && Concerns(events[i], scope, id) && !events[i].kind.Replayed?
    && forall j :: i < j < |events| ==> !Concerns(events[j], scope, id) || events[j].kind.Replayed?
  }

  lemma {:induction false} LifecycleIsLast(events: seq<Event>, scope: Scope, id: LandingId)
    ensures forall i: nat :: ShowsAt(events, scope, id, i) ==> Lifecycle(events, scope, id) == Some(events[i].kind)
    ensures (forall i: nat :: !ShowsAt(events, scope, id, i)) ==> Lifecycle(events, scope, id).None?
    decreases |events|
  {
    if |events| > 0 {
      var last := |events| - 1;
      var init := events[..last];
      LifecycleIsLast(init, scope, id);
      if Concerns(events[last], scope, id) && !events[last].kind.Replayed? {
        assert ShowsAt(events, scope, id, last);
      } else {
        forall i: nat
          ensures ShowsAt(events, scope, id, i) <==> ShowsAt(init, scope, id, i)
        {
        }
      }
    }
  }

  /** A replay adds its event to every landing of the scope; a completion adds one exactly if it changes what is shown. */
  lemma EventIsAdded(cfg: Config, w: World, scope: Scope, id: LandingId, kind: Kind, runId: string)
    requires Valid(w) && !kind.Received? && !kind.Replayed?
    ensures var known := id in w.rows && w.rows[id].scope == scope;
      && Next(cfg, w, MarkReplayed(scope, id, runId))
         == (if known then w.(events := w.events + [Event(scope, id, Replayed(runId))]) else w)
      && Next(cfg, w, Complete(scope, id, kind))
         == (if known && Lifecycle(w.events, scope, id) != Some(kind) then w.(events := w.events + [Event(scope, id, kind)]) else w)
  {
    if id in w.rows { RowsAreVisible(w, id); }
    hide Valid;
    hide Visible;
    hide Lifecycle;
  }

  /**
   * What the storage says to a caller: a blob found under its key is reused in the version it has, unless a version is
   * required and there is none, and confirmed only as the very version, checksum and size of the reference. A crash
   * forgets the caller and nothing else.
   */
  lemma StorageAnswers(cfg: Config, w: World, id: nat)
    requires id in w.callers
    ensures var c, v := w.callers[id], Next(cfg, w, HeadBlob(id));
      && v == w.(callers := v.callers) && v.callers - {id} == w.callers - {id} && id in v.callers
      && (c.Reusing? ==> var key := KeyFor(cfg, c.request);
            if key in w.bucket && (w.bucket[key].version.Some? || !cfg.requireVersioning)
            then v.callers[id]
                 == Confirming(c.request, Reference(key, w.bucket[key].version, c.request.Sum(), |c.request.payload|))
            else v.callers[id] == Done(c.request, StorageUnavailable))
      && (c.Confirming? ==> var r := c.reference;
            if r.key in w.bucket && w.bucket[r.key].checksum == r.checksum && w.bucket[r.key].size == r.size
               && (r.version.None? || w.bucket[r.key].version == r.version)
            then v.callers[id] == Inserting(c.request, r) else v.callers[id] == Done(c.request, IntegrityFailure))
    ensures Next(cfg, w, Crash(id)) == w.(callers := w.callers - {id})
  {
  }
}
