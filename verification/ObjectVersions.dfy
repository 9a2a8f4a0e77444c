/** Versions of governed objects and their blobs (apps/api/src/object-store.ts). */
module ObjectVersions {
  import opened Common
  import opened Upload

  type Id = string

  datatype VersionRow = VersionRow(versionId: string, content: Content)

  /** governed_objects.current_version, governed_object_versions, and the files under the blob root. */
  datatype State = State(current: map<Id, int>, versions: map<(Id, int), VersionRow>, blobs: map<string, seq<Byte>>)

  /** persistVersion: the next version of a new or known object; None where another upload came in between. */
  function Persisted(s: State, id: Id, expected: int, row: VersionRow): Option<State> {
    var version := expected + 1;
    if id in s.current && s.current[id] != expected then None
    else if id !in s.current && expected != 0 then None
    else Some(s.(current := s.current[id := version], versions := s.versions[(id, version) := row]))
  }

  /** The current version; zero for an object that is not known yet. */
  function Latest(s: State, id: Id): int {
    if id in s.current then s.current[id] else 0
  }

  class GovernedStore {
    var current: map<Id, int>
    var versions: map<(Id, int), VersionRow>
    var blobs: map<string, seq<Byte>>

    function Tables(): State
      reads this
    {
      State(current, versions, blobs)
    }

    constructor ()
      ensures Tables() == State(map[], map[], map[])
    {
      current, versions, blobs := map[], map[], map[];
    }

    /** The end of upload: the file moves under its version id, then its version is recorded. */
    method Publish(id: Id, versionId: string, bytes: seq<Byte>, content: Content) returns (version: int)
      requires versionId !in blobs
      modifies this
      ensures Some(Tables()) == Persisted(
        old(Tables()).(blobs := old(blobs)[versionId := bytes]), id, version - 1, VersionRow(versionId, content))
    {
      blobs := blobs[versionId := bytes];
      version := (if id in current then current[id] else 0) + 1;
      current := current[id := version];
      versions := versions[(id, version) := VersionRow(versionId, content)];
    }

    /** upload: the stream goes to a temporary file, which is published if all of it arrived. */
    method Receive<S>(
        id: Id, versionId: string, chunks: seq<seq<Byte>>, declared: Option<nat>, extract: bool,
        d: Decoder<S>, limits: Limits, file: TemporaryFile)
        returns (result: Result<int, UploadError>)
      requires versionId !in blobs && file.bytes == [] && file.present
      modifies this, file
      ensures result == Error(WriteFailed) ==> Tables() == old(Tables())
      ensures result != Error(WriteFailed) ==>
        && Tables() == Next(old(Tables()), Step(id, versionId, Concat(chunks), declared, extract, false), d, limits)
        && match Outcome(Concat(chunks), declared, extract, d, limits)
           case Error(e) => result == Error(e)
           case Ok(content) => result == Ok(Latest(old(Tables()), id) + 1)
      ensures file.AlwaysProgresses() ==> result != Error(WriteFailed)
    {
      var received := UploadStream(chunks, declared, extract, d, limits, file);
      match received
      case Error(e) => result := Error(e);
      case Ok(content) =>
        var version := Publish(id, versionId, file.bytes, content);
        result := Ok(version);
    }
  }

  // --- Any sequence of uploads, some of which die between the move and the record ---

  datatype Step = Step(id: Id, versionId: string, bytes: seq<Byte>, declared: Option<nat>, extract: bool, crashes: bool)

  function Next<S>(s: State, step: Step, d: Decoder<S>, limits: Limits): State {
    match Outcome(step.bytes, step.declared, step.extract, d, limits)
    case Error(_) => s
    case Ok(content) =>
      var moved := s.(blobs := s.blobs[step.versionId := step.bytes]);
      if step.crashes then moved
      else
        var expected := if step.id in s.current then s.current[step.id] else 0;
        match Persisted(moved, step.id, expected, VersionRow(step.versionId, content))
        case None => s
        case Some(next) => next
  }

  /**
   * An upload that succeeds adds one version, one blob and nothing else; one that dies before the record leaves the
   * blob alone, and one that fails changes nothing.
   */
  lemma UploadAddsOneVersion<S>(s: State, step: Step, d: Decoder<S>, limits: Limits)
    ensures var t := Next(s, step, d, limits);
      var version := Latest(s, step.id) + 1;
      match Outcome(step.bytes, step.declared, step.extract, d, limits)
      case Error(_) => t == s
      case Ok(content) =>
        && t.blobs == s.blobs[step.versionId := step.bytes]
        && (step.crashes ==> t.current == s.current && t.versions == s.versions)
        && (!step.crashes ==>
              && Latest(t, step.id) == version && t.current - {step.id} == s.current - {step.id}
              && (step.id, version) in t.versions && t.versions[(step.id, version)] == VersionRow(step.versionId, content)
              && t.versions - {(step.id, version)} == s.versions - {(step.id, version)})
  {
    hide Outcome;
  }

  function Run<S>(s: State, steps: seq<Step>, d: Decoder<S>, limits: Limits): State
    decreases |steps|
  {
    if |steps| == 0 then s else Run(Next(s, steps[0], d, limits), steps[1..], d, limits)
  }

  lemma RunOneUpload<S>(s: State, step: Step, steps: seq<Step>, d: Decoder<S>, limits: Limits)
    ensures Run(s, [step] + steps, d, limits) == Run(Next(s, step, d, limits), steps, d, limits) && Run(s, [], d, limits) == s
  {
    assert ([step] + steps)[1..] == steps;
    hide Next;
  }

  /** No version id was used before, as they are random. */
  ghost predicate Fresh<S>(s: State, steps: seq<Step>, d: Decoder<S>, limits: Limits)
    decreases |steps|
  {
    |steps| == 0 || (steps[0].versionId !in s.blobs && Fresh(Next(s, steps[0], d, limits), steps[1..], d, limits))
  }

  /** Versions are exactly 1..current, and each one's blob is there and is what the version says of it. */
  ghost predicate Valid<S>(s: State, d: Decoder<S>, limits: Limits) {
    && (forall id :: id in s.current ==> s.current[id] >= 1)
    && (forall id, v :: (id, v) in s.versions <==> id in s.current && 1 <= v <= s.current[id])
    && (forall key :: key in s.versions ==> Backed(s, s.versions[key], d, limits))
  }

  /** The recorded size, hash and text are those of the blob. */
  predicate Backed<S>(s: State, row: VersionRow, d: Decoder<S>, limits: Limits) {
    row.versionId in s.blobs && Describes(row.content, s.blobs[row.versionId], d, limits)
  }

  predicate Describes<S>(content: Content, bytes: seq<Byte>, d: Decoder<S>, limits: Limits) {
    && content.size == |bytes| <= limits.maxBytes && content.hash == Sha(bytes)
    && content.extract in {Extract(None, false), Extracted(d, bytes, limits.maxText)}
  }

  lemma NextKeepsValid<S>(s: State, step: Step, d: Decoder<S>, limits: Limits)
    requires Valid(s, d, limits) && step.versionId !in s.blobs
    ensures Valid(Next(s, step, d, limits), d, limits)
    ensures forall key :: key in s.versions ==>
      key in Next(s, step, d, limits).versions && Next(s, step, d, limits).versions[key] == s.versions[key]
  {
    var t := Next(s, step, d, limits);
    hide Extracted;
    forall key | key in s.versions
      ensures key in t.versions && t.versions[key] == s.versions[key] && Backed(t, t.versions[key], d, limits)
    {
      assert (key.0, key.1) in s.versions && Backed(s, s.versions[key], d, limits);
    }
  }

  /** Over any run of uploads versions stay 1..current, recorded versions never change, and none loses its blob. */
  lemma {:induction false} RunKeepsValid<S>(s: State, steps: seq<Step>, d: Decoder<S>, limits: Limits)
    requires Valid(s, d, limits) && Fresh(s, steps, d, limits)
    ensures Valid(Run(s, steps, d, limits), d, limits)
    ensures forall key :: key in s.versions ==>
      key in Run(s, steps, d, limits).versions && Run(s, steps, d, limits).versions[key] == s.versions[key]
    decreases |steps|
  {
    if |steps| > 0 {
      NextKeepsValid(s, steps[0], d, limits);
      RunKeepsValid(Next(s, steps[0], d, limits), steps[1..], d, limits);
    }
  }
}
