/** What a bundle does to the data of a project, and what stays true of that data over concurrent ingests. */
module IndustrialData {
  import opened Common
  import opened IngestRuns
  import A = AssetForest
  import T = Telemetry
  import R = Relations

  datatype Data = Data(assets: A.Parents, points: T.Points, relations: R.Tables)

  /** The records of a bundle that the hierarchy, the telemetry and the relations look at. */
  datatype Records = Records(assets: seq<A.Asset>, points: seq<T.Point>, relations: seq<R.Item>)

  /** The three upserts of the ingest transaction, in its order: one refusal refuses the bundle. */
  function ApplyRecords(d: Data, r: Records): Option<Data> {
    match A.Upserted(d.assets, r.assets)
    case None => None
    case Some(assets) =>
      match T.Upserted(d.points, r.points)
      case None => None
      case Some(points) =>
        match R.Ingested(d.relations, r.relations)
        case None => None
        case Some(relations) => Some(Data(assets, points, relations))
  }

  function EffectOf(records: Bundle -> Records): Effect<Data> {
    (d: Data, b: Bundle) => ApplyRecords(d, records(b))
  }

  const EMPTY := Data(map[], map[], R.EMPTY)

  ghost predicate Sound(d: Data) {
    A.Forest(d.assets) && R.Valid(d.relations)
  }

  /** Later data still holds every point and every settled candidate as it was. */
  ghost predicate Preserves(before: Data, after: Data) {
    && (forall k :: k in before.points ==> k in after.points && after.points[k] == before.points[k])
    && R.Keeps(before.relations, after.relations)
  }

  lemma ApplyKeepsSound(d: Data, r: Records)
    requires Sound(d) && ApplyRecords(d, r).Some?
    ensures Sound(ApplyRecords(d, r).value) && Preserves(d, ApplyRecords(d, r).value)
    ensures forall i :: 0 <= i < |r.points| ==> T.Agrees(ApplyRecords(d, r).value.points, r.points[i])
  {
    A.UpsertKeepsForest(d.assets, r.assets);
    T.AcceptedBatchIsPresent(d.points, r.points);
    R.IngestKeepsValid(d.relations, r.relations);
  }

  lemma PreservesItself(d: Data)
    ensures Preserves(d, d)
  {
  }

  lemma PreservesIsTransitive(a: Data, b: Data, c: Data)
    requires Preserves(a, b) && Preserves(b, c)
    ensures Preserves(a, c)
  {
  }

  /** One step of any caller keeps the data sound and what it recorded. */
  lemma StepKeepsSound(s: System<Data>, a: Action, records: Bundle -> Records)
    requires Sound(s.tables.data)
    ensures Sound(Next(s, a, EffectOf(records)).tables.data)
    ensures Preserves(s.tables.data, Next(s, a, EffectOf(records)).tables.data)
  {
    var t := Next(s, a, EffectOf(records));
    PreservesItself(s.tables.data);
    hide Sound;
    hide Preserves;
    hide ApplyRecords;
    if t.tables.data != s.tables.data {
      ApplyKeepsSound(s.tables.data, records(a.bundle));
    }
  }

  /**
   * However ingests, failure records and crashes interleave, the assets stay a forest, each semantic
   * relation keeps one candidate, and no stored point or settled candidate ever changes.
   */
  lemma {:induction false} IngestsKeepDataSound(s: System<Data>, actions: seq<Action>, records: Bundle -> Records)
    requires Sound(s.tables.data)
    ensures Sound(Run(s, actions, EffectOf(records)).tables.data)
    ensures Preserves(s.tables.data, Run(s, actions, EffectOf(records)).tables.data)
    decreases |actions|
  {
    if |actions| > 0 {
      var t := Next(s, actions[0], EffectOf(records));
      StepKeepsSound(s, actions[0], records);
      IngestsKeepDataSound(t, actions[1..], records);
      PreservesIsTransitive(s.tables.data, t.tables.data, Run(t, actions[1..], EffectOf(records)).tables.data);
    }
  }

  /** If the log says that `b` completed, its point `p` is stored as it was sent. */
  ghost predicate PresentOnceCompleted(t: Tables<Data>, b: Bundle, p: T.Point) {
    forall i :: CompletedAt(t.log, i, KeyOf(b)) && t.log[i].hash.bundle == b ==> T.Agrees(t.data.points, p)
  }

  /** Whatever happens after it, every point of a completed bundle is still there as it was sent. */
  lemma {:induction false} CompletedPointsStay(s: System<Data>, actions: seq<Action>, records: Bundle -> Records, b: Bundle, p: T.Point)
    requires Sound(s.tables.data) && p in records(b).points
    requires PresentOnceCompleted(s.tables, b, p)
    ensures PresentOnceCompleted(Run(s, actions, EffectOf(records)).tables, b, p)
    decreases |actions|
  {
    if |actions| > 0 {
      var t := Next(s, actions[0], EffectOf(records));
      StepKeepsSound(s, actions[0], records);
      StepKeepsPoints(s, actions[0], records, b, p);
      CompletedPointsStay(t, actions[1..], records, b, p);
    }
  }

  lemma StepKeepsPoints(s: System<Data>, a: Action, records: Bundle -> Records, b: Bundle, p: T.Point)
    requires Sound(s.tables.data) && p in records(b).points
    requires PresentOnceCompleted(s.tables, b, p)
    ensures PresentOnceCompleted(Next(s, a, EffectOf(records)).tables, b, p)
  {
    var t := Next(s, a, EffectOf(records)).tables;
    StepKeepsSound(s, a, records);
    forall i | CompletedAt(t.log, i, KeyOf(b)) && t.log[i].hash.bundle == b
      ensures T.Agrees(t.data.points, p)
    {
      if i < |s.tables.log| {
        assert CompletedAt(s.tables.log, i, KeyOf(b));
      } else {
        ApplyKeepsSound(s.tables.data, records(b));
      }
    }
  }
}
