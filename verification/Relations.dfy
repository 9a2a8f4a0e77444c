/**
 * Relation candidates and accepted relations of one project
 * (apps/api/src/postgres-industrial-persistence.ts).
 */
module Relations {
  import opened Common

  type Id = string

  /** A semantic relation: what is related to what, and how. */
  datatype Key = Key(source: Id, target: Id, kind: string)

  datatype CandidateState = Proposed | Accepted | Rejected | Superseded

  datatype Candidate = Candidate(key: Key, state: CandidateState, acceptedRelation: Option<Id>)

  datatype Relation = Relation(key: Key, superseded: bool)

  datatype Tables = Tables(candidates: map<Id, Candidate>, relations: map<Id, Relation>)

  /** A relation of an ingest bundle; ids derive from the external id. */
  datatype Item = Item(id: Id, key: Key, accepted: bool)

  // --- upsertRelations ---

  predicate DistinctKeys(items: seq<Item>) {
    forall i, j :: 0 <= i < j < |items| ==> items[i].key != items[j].key
  }

  /** A second row with the same id makes the upsert statement fail. */
  predicate DistinctIds(items: seq<Item>) {
    forall i, j :: 0 <= i < j < |items| ==> items[i].id != items[j].id
  }

  predicate Distinguishes(items: seq<Item>) {
    forall i :: 0 <= i < |items| ==> items[i].key.source != items[i].key.target
  }

  method CheckItems(items: seq<Item>) returns (ok: bool)
    ensures ok <==> Distinguishes(items) && DistinctKeys(items)
  {
    var semanticKeys: set<Key> := {};
    var i := 0;
    while i < |items|
      invariant 0 <= i <= |items|
      invariant forall k :: k in semanticKeys <==> exists j :: 0 <= j < i && items[j].key == k
      invariant forall j :: 0 <= j < i ==> items[j].key.source != items[j].key.target
      invariant forall j, k :: 0 <= j < k < i ==> items[j].key != items[k].key
    {
      if items[i].key.source == items[i].key.target {
        return false;
      }
      if items[i].key in semanticKeys {
        return false;
      }
      semanticKeys := semanticKeys + {items[i].key};
      i := i + 1;
    }
    ok := true;
  }

  /** terminal_candidates: a candidate with the id or the key, but not both, or no longer proposed. */
  predicate CandidateConflicts(t: Tables, item: Item, id: Id)
    requires id in t.candidates
  {
    var c := t.candidates[id];
    (id == item.id || c.key == item.key) && (id != item.id || c.key != item.key || c.state != Proposed)
  }

  /** terminal_relations: a relation with the id or the key, in either of the two states a relation has. */
  predicate RelationConflicts(t: Tables, item: Item, id: Id)
    requires id in t.relations
  {
    id == item.id || t.relations[id].key == item.key
  }

  predicate Admits(t: Tables, item: Item) {
    && (forall id :: id in t.candidates ==> !CandidateConflicts(t, item, id))
    && (forall id :: id in t.relations ==> !RelationConflicts(t, item, id))
  }

  function CandidateOf(item: Item): Candidate {
    Candidate(item.key, if item.accepted then Accepted else Proposed, if item.accepted then Some(item.id) else None)
  }

  predicate InBundle(items: seq<Item>, id: Id) {
    exists i :: 0 <= i < |items| && items[i].id == id
  }

  function CandidatesOf(items: seq<Item>): (r: map<Id, Candidate>)
    requires DistinctIds(items)
    ensures forall id :: id in r <==> InBundle(items, id)
    ensures forall i :: 0 <= i < |items| ==> items[i].id in r && r[items[i].id] == CandidateOf(items[i])
  {
    map i | 0 <= i < |items| :: items[i].id := CandidateOf(items[i])
  }

  function AcceptedOf(items: seq<Item>): (r: map<Id, Relation>)
    requires DistinctIds(items)
    ensures forall id :: id in r ==> InBundle(items, id)
    ensures forall i :: 0 <= i < |items| && !items[i].accepted ==> items[i].id !in r
    ensures forall i :: 0 <= i < |items| && items[i].accepted ==>
      items[i].id in r && r[items[i].id] == Relation(items[i].key, false)
  {
    map i | 0 <= i < |items| && items[i].accepted :: items[i].id := Relation(items[i].key, false)
  }

  predicate AdmitsAll(t: Tables, items: seq<Item>) {
    forall i :: 0 <= i < |items| ==> Admits(t, items[i])
  }

  /** The tables after a bundle; None where its transaction fails. */
  function Ingested(t: Tables, items: seq<Item>): Option<Tables> {
    if !Distinguishes(items) || !DistinctKeys(items) || !DistinctIds(items) || !AdmitsAll(t, items) then None
    else Some(Tables(t.candidates + CandidatesOf(items), t.relations + AcceptedOf(items)))
  }

  // --- reviewRelation ---

  /** UNIQUE (project_id, source_instance_id, target_instance_id, relation_type) */
  predicate KeyTaken(t: Tables, id: Id, key: Key) {
    exists other :: other in t.relations && other != id && t.relations[other].key == key
  }

  /** Other open candidates for an accepted key are closed. */
  function SupersedeOthers(t: Tables, id: Id, key: Key): map<Id, Candidate> {
    map other | other in t.candidates ::
      if other != id && t.candidates[other].key == key && t.candidates[other].state == Proposed
      then Candidate(key, Superseded, None) else t.candidates[other]
  }

  function Reviewed(t: Tables, id: Id, accept: bool): Option<Tables> {
    if id !in t.candidates || t.candidates[id].state != Proposed then None
    else
      var key := t.candidates[id].key;
      if !accept then Some(t.(candidates := t.candidates[id := Candidate(key, Rejected, None)]))
      else if id !in t.relations && KeyTaken(t, id, key) then None
      else
        var relations := if id in t.relations then t.relations else t.relations[id := Relation(key, false)];
        if relations[id] != Relation(key, false) then None
        else Some(Tables(SupersedeOthers(t, id, key)[id := Candidate(key, Accepted, Some(id))], relations))
  }

  // --- Every sequence of ingests and reviews ---

  datatype Call = Ingest(items: seq<Item>) | Review(id: Id, accept: bool)

  function After(t: Tables, call: Call): Tables {
    var next := match call
      case Ingest(items) => Ingested(t, items)
      case Review(id, accept) => Reviewed(t, id, accept);
    if next.Some? then next.value else t
  }

  function Run(t: Tables, calls: seq<Call>): Tables
    decreases |calls|
  {
    if |calls| == 0 then t else Run(After(t, calls[0]), calls[1..])
  }

  const EMPTY := Tables(map[], map[])

  ghost predicate Valid(t: Tables) {
    KeysUnique(t) && CandidatesValid(t) && RelationsBacked(t)
  }

  ghost predicate KeysUnique(t: Tables) {
    forall a, b :: a in t.candidates && b in t.candidates && t.candidates[a].key == t.candidates[b].key ==> a == b
  }

  ghost predicate CandidatesValid(t: Tables) {
    forall id :: id in t.candidates ==> ValidCandidate(t, id)
  }

  ghost predicate RelationsBacked(t: Tables) {
    forall id :: id in t.relations ==> id in t.candidates && t.candidates[id].state == Accepted
  }

  /** Accepted means backed by a relation of the same endpoints and type; nothing is ever superseded. */
  ghost predicate ValidCandidate(t: Tables, id: Id)
    requires id in t.candidates
  {
    var c := t.candidates[id];
    && c.key.source != c.key.target
    && c.state != Superseded
    && (c.state == Accepted ==> c.acceptedRelation == Some(id) && id in t.relations && t.relations[id] == Relation(c.key, false))
    && (c.state != Accepted ==> c.acceptedRelation.None? && id !in t.relations)
  }

  /** Candidates stay, keep their key, and no longer change once accepted or rejected. */
  ghost predicate Keeps(t: Tables, u: Tables) {
    forall id :: id in t.candidates ==>
      && id in u.candidates && u.candidates[id].key == t.candidates[id].key
      && (t.candidates[id].state != Proposed ==> u.candidates[id] == t.candidates[id])
  }

  lemma NewCandidate(t: Tables, items: seq<Item>, u: Tables, i: nat)
    requires Ingested(t, items) == Some(u) && i < |items|
    ensures var id := items[i].id;
      && id in u.candidates && u.candidates[id] == CandidateOf(items[i])
      && (id in u.relations <==> items[i].accepted)
      && (id in u.relations ==> u.relations[id] == Relation(items[i].key, false))
      && (id in t.candidates ==> t.candidates[id].key == items[i].key && t.candidates[id].state == Proposed)
  {
    var id := items[i].id;
    assert Admits(t, items[i]);
    assert id in t.candidates ==> !CandidateConflicts(t, items[i], id);
    assert id in t.relations ==> !RelationConflicts(t, items[i], id);
  }

  lemma OldCandidate(t: Tables, items: seq<Item>, u: Tables, id: Id)
    requires Ingested(t, items) == Some(u) && !InBundle(items, id)
    ensures id in u.candidates <==> id in t.candidates
    ensures id in t.candidates ==> u.candidates[id] == t.candidates[id]
    ensures id in u.relations <==> id in t.relations
    ensures id in t.relations ==> u.relations[id] == t.relations[id]
  {
  }

  lemma NewKeysAreNew(t: Tables, items: seq<Item>, u: Tables, i: nat, b: Id)
    requires Ingested(t, items) == Some(u) && i < |items|
    requires b in u.candidates && u.candidates[b].key == items[i].key
    ensures items[i].id == b
  {
    assert Admits(t, items[i]);
    assert b in t.candidates ==> !CandidateConflicts(t, items[i], b);
    if j :| 0 <= j < |items| && items[j].id == b { NewCandidate(t, items, u, j); }
  }

  lemma NewCandidateIsValid(t: Tables, items: seq<Item>, u: Tables, i: nat)
    requires Ingested(t, items) == Some(u) && i < |items| && items[i].id in u.candidates
    ensures ValidCandidate(u, items[i].id)
  {
    NewCandidate(t, items, u, i);
    assert items[i].key.source != items[i].key.target;
    hide Ingested;
  }

  lemma OldCandidateIsValid(t: Tables, items: seq<Item>, u: Tables, id: Id)
    requires id in t.candidates && ValidCandidate(t, id)
    requires Ingested(t, items) == Some(u) && !InBundle(items, id) && id in u.candidates
    ensures ValidCandidate(u, id)
  {
    OldCandidate(t, items, u, id);
    hide Ingested;
  }

  lemma CandidateAfterIngest(t: Tables, items: seq<Item>, u: Tables, id: Id)
    requires CandidatesValid(t) && Ingested(t, items) == Some(u) && id in u.candidates
    ensures ValidCandidate(u, id)
    ensures id in t.candidates ==>
      u.candidates[id].key == t.candidates[id].key && (t.candidates[id].state != Proposed ==> u.candidates[id] == t.candidates[id])
  {
    hide Ingested;
    hide ValidCandidate;
    if InBundle(items, id) {
      var i :| 0 <= i < |items| && items[i].id == id;
      NewCandidate(t, items, u, i);
      NewCandidateIsValid(t, items, u, i);
    } else {
      OldCandidate(t, items, u, id);
      OldCandidateIsValid(t, items, u, id);
    }
  }

  lemma IngestKeepsValid(t: Tables, items: seq<Item>)
    requires Valid(t) && Ingested(t, items).Some?
    ensures Valid(Ingested(t, items).value) && Keeps(t, Ingested(t, items).value)
  {
    var u := Ingested(t, items).value;
    hide Ingested;
    IngestKeepsKeysUnique(t, items, u);
    IngestKeepsRelationsBacked(t, items, u);
    IngestExtends(t, items, u);
    hide KeysUnique;
    hide RelationsBacked;
    hide ValidCandidate;
    forall id | id in u.candidates
      ensures ValidCandidate(u, id)
      ensures id in t.candidates ==>
        && u.candidates[id].key == t.candidates[id].key
        && (t.candidates[id].state != Proposed ==> u.candidates[id] == t.candidates[id])
    {
      CandidateAfterIngest(t, items, u, id);
    }
  }

  /** Nothing has the id or the key of the item yet, or its own candidate still waits for review. */
  predicate MayIngest(t: Tables, item: Item) {
    if item.id in t.candidates then t.candidates[item.id].key == item.key && t.candidates[item.id].state == Proposed
    else forall id :: id in t.candidates ==> t.candidates[id].key != item.key
  }

  lemma AdmitsExactly(t: Tables, item: Item)
    requires Valid(t)
    ensures Admits(t, item) <==> MayIngest(t, item)
  {
    if MayIngest(t, item) {
      forall id | id in t.relations
        ensures !RelationConflicts(t, item, id)
      {
        assert ValidCandidate(t, id) && t.candidates[id].state == Accepted;
      }
    } else if item.id in t.candidates {
      assert CandidateConflicts(t, item, item.id);
    } else {
      var id :| id in t.candidates && t.candidates[id].key == item.key;
      assert CandidateConflicts(t, item, id);
    }
  }

  /**
   * In a valid state a bundle is accepted exactly if it relates different things, repeats neither a relation nor an
   * id, and each of its relations is new or a candidate that still waits for review.
   */
  lemma IngestAcceptsExactly(t: Tables, items: seq<Item>)
    requires Valid(t)
    ensures Ingested(t, items).Some? <==>
      && (forall i :: 0 <= i < |items| ==> items[i].key.source != items[i].key.target && MayIngest(t, items[i]))
      && (forall i, j :: 0 <= i < j < |items| ==> items[i].key != items[j].key && items[i].id != items[j].id)
  {
    assert Distinguishes(items) && DistinctKeys(items) && DistinctIds(items) <==>
      (forall i :: 0 <= i < |items| ==> items[i].key.source != items[i].key.target)
      && (forall i, j :: 0 <= i < j < |items| ==> items[i].key != items[j].key && items[i].id != items[j].id);
    forall i | 0 <= i < |items|
      ensures Admits(t, items[i]) <==> MayIngest(t, items[i])
    {
      AdmitsExactly(t, items[i]);
    }
    hide Valid;
    hide Admits;
    hide MayIngest;
  }

  /** Then each of its candidates waits for review or is accepted with a relation, as sent, and all others stay. */
  lemma IngestStores(t: Tables, items: seq<Item>, id: Id)
    requires Ingested(t, items).Some?
    ensures var u := After(t, Ingest(items));
      && (forall i :: 0 <= i < |items| && items[i].id == id ==>
            && id in u.candidates && u.candidates[id].key == items[i].key
            && (if items[i].accepted then
                  && u.candidates[id].state == Accepted && u.candidates[id].acceptedRelation == Some(id)
                  && id in u.relations && u.relations[id] == Relation(items[i].key, false)
                else u.candidates[id].state == Proposed && u.candidates[id].acceptedRelation.None? && id !in u.relations))
      && (!InBundle(items, id) ==>
            && (id in u.candidates <==> id in t.candidates) && (id in t.candidates ==> u.candidates[id] == t.candidates[id])
            && (id in u.relations <==> id in t.relations) && (id in t.relations ==> u.relations[id] == t.relations[id]))
  {
    var u := Ingested(t, items).value;
    if InBundle(items, id) {
      forall i | 0 <= i < |items| && items[i].id == id
        ensures id in u.candidates && u.candidates[id] == CandidateOf(items[i]) && (id in u.relations <==> items[i].accepted)
        ensures id in u.relations ==> u.relations[id] == Relation(items[i].key, false)
      {
        NewCandidate(t, items, u, i);
      }
      hide Ingested;
    } else {
      OldCandidate(t, items, u, id);
    }
  }

  lemma IngestExtends(t: Tables, items: seq<Item>, u: Tables)
    requires Ingested(t, items) == Some(u)
    ensures forall id :: id in t.candidates ==> id in u.candidates
  {
  }

  lemma IngestKeepsKeysUnique(t: Tables, items: seq<Item>, u: Tables)
    requires Valid(t) && Ingested(t, items) == Some(u)
    ensures KeysUnique(u)
  {
    hide Ingested;
    forall a, b | a in u.candidates && b in u.candidates && u.candidates[a].key == u.candidates[b].key
      ensures a == b
    {
      if InBundle(items, a) {
        var i :| 0 <= i < |items| && items[i].id == a;
        NewCandidate(t, items, u, i);
        NewKeysAreNew(t, items, u, i, b);
      } else if InBundle(items, b) {
        var i :| 0 <= i < |items| && items[i].id == b;
        NewCandidate(t, items, u, i);
        NewKeysAreNew(t, items, u, i, a);
      } else {
        OldCandidate(t, items, u, a);
        OldCandidate(t, items, u, b);
      }
    }
  }

  lemma IngestKeepsRelationsBacked(t: Tables, items: seq<Item>, u: Tables)
    requires Valid(t) && Ingested(t, items) == Some(u)
    ensures RelationsBacked(u)
  {
    hide Ingested;
    forall id | id in u.relations
      ensures id in u.candidates && u.candidates[id].state == Accepted
    {
      if InBundle(items, id) {
        var i :| 0 <= i < |items| && items[i].id == id;
        NewCandidate(t, items, u, i);
      } else {
        OldCandidate(t, items, u, id);
      }
    }
  }

  lemma ReviewKeepsValid(t: Tables, id: Id, accept: bool)
    requires Valid(t) && Reviewed(t, id, accept).Some?
    ensures Valid(Reviewed(t, id, accept).value) && Keeps(t, Reviewed(t, id, accept).value)
  {
    ReviewChangesOne(t, id, accept);
    if accept { AcceptKeepsValid(t, id); } else { RejectKeepsValid(t, id); }
    hide Reviewed;
    hide Valid;
  }

  lemma AcceptKeepsValid(t: Tables, id: Id)
    requires Valid(t) && id in t.candidates && t.candidates[id].state == Proposed
    ensures var key := t.candidates[id].key;
      var u := Tables(t.candidates[id := Candidate(key, Accepted, Some(id))], t.relations[id := Relation(key, false)]);
      Valid(u) && Keeps(t, u)
  {
    var key := t.candidates[id].key;
    var u := Tables(t.candidates[id := Candidate(key, Accepted, Some(id))], t.relations[id := Relation(key, false)]);
    forall other | other in u.candidates
      ensures ValidCandidate(u, other)
    {
      assert ValidCandidate(t, other);
    }
  }

  lemma RejectKeepsValid(t: Tables, id: Id)
    requires Valid(t) && id in t.candidates && t.candidates[id].state == Proposed
    ensures var u := t.(candidates := t.candidates[id := Candidate(t.candidates[id].key, Rejected, None)]); Valid(u) && Keeps(t, u)
  {
    var u := t.(candidates := t.candidates[id := Candidate(t.candidates[id].key, Rejected, None)]);
    forall other | other in u.candidates
      ensures ValidCandidate(u, other)
    {
      assert ValidCandidate(t, other);
    }
  }

  /** In a valid state a review changes its own candidate, and accepting adds its relation. */
  lemma ReviewChangesOne(t: Tables, id: Id, accept: bool)
    requires Valid(t) && Reviewed(t, id, accept).Some?
    ensures id in t.candidates && t.candidates[id].state == Proposed
    ensures var key := t.candidates[id].key;
      Reviewed(t, id, accept).value
      == if accept then Tables(t.candidates[id := Candidate(key, Accepted, Some(id))], t.relations[id := Relation(key, false)])
         else t.(candidates := t.candidates[id := Candidate(key, Rejected, None)])
  {
    NothingToSupersede(t, id);
    assert ValidCandidate(t, id);
  }

  /** The update that closes rival candidates finds none: a key has one candidate. */
  lemma NothingToSupersede(t: Tables, id: Id)
    requires Valid(t) && id in t.candidates
    ensures SupersedeOthers(t, id, t.candidates[id].key) == t.candidates
  {
  }

  /** Nor can accepting a proposed candidate collide with another relation. */
  lemma AcceptingNeverCollides(t: Tables, id: Id, accept: bool)
    requires Valid(t)
    ensures Reviewed(t, id, accept).Some? <==> id in t.candidates && t.candidates[id].state == Proposed
  {
    if id in t.candidates && t.candidates[id].state == Proposed {
      assert ValidCandidate(t, id);
      forall other | other in t.relations && other != id
        ensures t.relations[other].key != t.candidates[id].key
      {
        assert ValidCandidate(t, other);
      }
    }
  }

  /** A review of a candidate that waits accepts it, with its relation, or rejects it, and changes nothing else. */
  lemma ReviewDecides(t: Tables, id: Id, accept: bool)
    requires Valid(t)
    ensures var u := After(t, Review(id, accept));
      if id in t.candidates && t.candidates[id].state == Proposed then
        && u.candidates.Keys == t.candidates.Keys && u.candidates - {id} == t.candidates - {id}
        && u.candidates[id].key == t.candidates[id].key && u.candidates[id].state == (if accept then Accepted else Rejected)
        && u.candidates[id].acceptedRelation == (if accept then Some(id) else None)
        && u.relations == if accept then t.relations[id := Relation(t.candidates[id].key, false)] else t.relations
      else u == t
  {
    AcceptingNeverCollides(t, id, accept);
    if Reviewed(t, id, accept).Some? { ReviewChangesOne(t, id, accept); }
    hide Reviewed;
    hide Valid;
  }

  lemma RunOneCall(t: Tables, call: Call, calls: seq<Call>)
    ensures Run(t, [call] + calls) == Run(After(t, call), calls) && Run(t, []) == t
  {
    assert ([call] + calls)[1..] == calls;
  }

  lemma {:induction false} RunKeepsValid(t: Tables, calls: seq<Call>)
    requires Valid(t)
    ensures Valid(Run(t, calls)) && Keeps(t, Run(t, calls))
    decreases |calls|
  {
    if |calls| > 0 {
      var next := After(t, calls[0]);
      match calls[0]
      case Ingest(items) => if Ingested(t, items).Some? { IngestKeepsValid(t, items); }
      case Review(id, accept) => if Reviewed(t, id, accept).Some? { ReviewKeepsValid(t, id, accept); }
    }
    if |calls| > 0 { RunKeepsValid(After(t, calls[0]), calls[1..]); }
  }

  // --- The combined listing ---

  datatype Listed = FromCandidate(id: Id, key: Key, state: CandidateState) | FromRelation(id: Id, key: Key, superseded: bool)

  /** Candidates, and relations that no candidate accepts, before any filter or limit. */
  ghost function Listing(t: Tables): set<Listed> {
    (set id | id in t.candidates :: FromCandidate(id, t.candidates[id].key, t.candidates[id].state))
    + (set id | id in t.relations && !AcceptedBySome(t, id) :: FromRelation(id, t.relations[id].key, t.relations[id].superseded))
  }

  ghost predicate AcceptedBySome(t: Tables, relation: Id) {
    exists id :: id in t.candidates && t.candidates[id].acceptedRelation == Some(relation)
  }

  ghost predicate Known(t: Tables, key: Key) {
    || (exists id :: id in t.candidates && t.candidates[id].key == key)
    || (exists id :: id in t.relations && t.relations[id].key == key)
  }

  /** In a valid state some candidate accepts each relation, so the listing is the candidates. */
  lemma ListingIsCandidates(t: Tables)
    requires Valid(t)
    ensures Listing(t) == set id | id in t.candidates :: FromCandidate(id, t.candidates[id].key, t.candidates[id].state)
  {
    forall id | id in t.relations
      ensures AcceptedBySome(t, id)
    {
      assert ValidCandidate(t, id);
    }
  }

  lemma RelationsAreKnown(t: Tables, id: Id)
    requires Valid(t) && id in t.relations
    ensures id in t.candidates && t.candidates[id].key == t.relations[id].key
  {
    assert ValidCandidate(t, id);
  }

  /** The listing shows every semantic relation, and shows it once. */
  lemma ListingShowsEachKeyOnce(calls: seq<Call>, key: Key)
    ensures var t := Run(EMPTY, calls);
      && (Known(t, key) <==> exists row :: row in Listing(t) && row.key == key)
      && (forall a, b :: a in Listing(t) && b in Listing(t) && a.key == key && b.key == key ==> a == b)
  {
    RunKeepsValid(EMPTY, calls);
    var t := Run(EMPTY, calls);
    hide Run;
    ListingIsCandidates(t);
    hide Listing;
    if Known(t, key) {
      if id :| id in t.relations && t.relations[id].key == key { RelationsAreKnown(t, id); }
      hide Valid;
      var id :| id in t.candidates && t.candidates[id].key == key;
      assert FromCandidate(id, key, t.candidates[id].state) in Listing(t);
    }
    hide CandidatesValid;
    hide RelationsBacked;
  }

  /** Whatever was ingested and reviewed: one candidate per key, accepted ones backed, decisions final. */
  lemma ReachableTables(first: seq<Call>, later: seq<Call>)
    ensures var t, u := Run(EMPTY, first), Run(Run(EMPTY, first), later);
      && (forall a, b :: a in t.candidates && b in t.candidates && t.candidates[a].key == t.candidates[b].key ==> a == b)
      && (forall id :: id in t.candidates && t.candidates[id].state == Accepted ==>
            id in t.relations && t.relations[id] == Relation(t.candidates[id].key, false))
      && (forall id :: id in t.candidates && t.candidates[id].state != Proposed ==>
            id in u.candidates && u.candidates[id] == t.candidates[id])
  {
    RunKeepsValid(EMPTY, first);
    RunKeepsValid(Run(EMPTY, first), later);
    var t := Run(EMPTY, first);
    forall id | id in t.candidates
      ensures ValidCandidate(t, id)
    {
    }
  }
}
