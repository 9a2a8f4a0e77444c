/**
 * Exactly-once ingest (apps/api/src/postgres-industrial-persistence.ts): one transaction applies a
 * bundle, and a separate one records that it failed. The SQLite form (apps/api/src/database.ts) is at
 * the end, for contrast.
 */
module IngestRuns {
  import opened Common

  /** A bundle of one source system; `runId` is its idempotency key, `payload` everything in it. */
  datatype Bundle = Bundle(system: string, runId: string, payload: string)

  /** SHA-256 of the bundle: injective. */
  datatype Hash = Hash(bundle: Bundle)

  type RunKey = (string, string)

  function KeyOf(b: Bundle): RunKey {
    (b.system, b.runId)
  }

  /** The states that a committed transaction can leave. */
  datatype RunState = Succeeded | Failed

  datatype RunRow = RunRow(hash: Hash, state: RunState)

  /** Audit and outbox entries. */
  datatype Entry = Completed(key: RunKey, hash: Hash) | FailureRecorded(key: RunKey, hash: Hash)

  /** `D` is the industrial data that bundles change. */
  datatype Tables<D> = Tables(sources: set<string>, runs: map<RunKey, RunRow>, data: D, log: seq<Entry>)

  /** What a bundle makes of the data; None where some record of it is refused. */
  type Effect<!D> = (D, Bundle) -> Option<D>

  datatype Outcome = Done | AlreadyProcessed | ReusedKey | Rejected

  // --- The two transactions ---

  /** The ingest transaction; `aborts` is a failure of the database itself. */
  function IngestTransaction<D>(t: Tables<D>, b: Bundle, effect: Effect<D>, aborts: bool): (Tables<D>, Outcome) {
    if aborts then (t, Rejected)
    else if KeyOf(b) in t.runs && t.runs[KeyOf(b)].hash != Hash(b) then (t, ReusedKey)
    else if KeyOf(b) in t.runs && t.runs[KeyOf(b)].state == Succeeded then (t, AlreadyProcessed)
    else
      match effect(t.data, b)
      case None => (t, Rejected)
      case Some(data) =>
        (Tables(t.sources + {b.system}, t.runs[KeyOf(b) := RunRow(Hash(b), Succeeded)], data,
                t.log + [Completed(KeyOf(b), Hash(b))]), Done)
  }

  /** recordFailedRun: a row that already succeeded is left alone, and so is the hash of any row. */
  function RecordFailure<D>(t: Tables<D>, b: Bundle): Tables<D> {
    var key := KeyOf(b);
    var runs :=
      if b.system !in t.sources then t.runs
      else if key !in t.runs then t.runs[key := RunRow(Hash(b), Failed)]
      else if t.runs[key].state != Succeeded then t.runs[key := t.runs[key].(state := Failed)]
      else t.runs;
    t.(runs := runs, log := t.log + [FailureRecorded(key, Hash(b))])
  }

  /** The same transactions over fields. */
  class IndustrialStore<D> {
    var sources: set<string>
    var runs: map<RunKey, RunRow>
    var data: D
    var log: seq<Entry>

    function State(): Tables<D>
      reads this
    {
      Tables(sources, runs, data, log)
    }

    constructor (initial: D)
      ensures State() == Tables({}, map[], initial, [])
    {
      sources, runs, data, log := {}, map[], initial, [];
    }

    method Ingest(b: Bundle, effect: Effect<D>, aborts: bool, recordingFails: bool) returns (outcome: Outcome)
      modifies this
      ensures outcome == IngestTransaction(old(State()), b, effect, aborts).1
      ensures State() == (
        var (after, result) := IngestTransaction(old(State()), b, effect, aborts);
        if result == Rejected && !recordingFails then RecordFailure(after, b) else after)
    {
      outcome := TryIngest(b, effect, aborts);
      if outcome == Rejected && !recordingFails {
        RecordFailedRun(b);
      }
    }

    method TryIngest(b: Bundle, effect: Effect<D>, aborts: bool) returns (outcome: Outcome)
      modifies this
      ensures (State(), outcome) == IngestTransaction(old(State()), b, effect, aborts)
    {
      if aborts {
        return Rejected;
      }
      var key := KeyOf(b);
      if key in runs {
        if runs[key].hash != Hash(b) {
          return ReusedKey;
        }
        if runs[key].state == Succeeded {
          return AlreadyProcessed;
        }
      }
      var next := effect(data, b);
      if next.None? {
        return Rejected;
      }
      sources := sources + {b.system};
      data := next.value;
      runs := runs[key := RunRow(Hash(b), Succeeded)];
      log := log + [Completed(key, Hash(b))];
      outcome := Done;
    }

    method RecordFailedRun(b: Bundle)
      modifies this
      ensures State() == RecordFailure(old(State()), b)
    {
      var key := KeyOf(b);
      if b.system in sources {
        if key !in runs {
          runs := runs[key := RunRow(Hash(b), Failed)];
        } else if runs[key].state != Succeeded {
          runs := runs[key := runs[key].(state := Failed)];
        }
      }
      log := log + [FailureRecorded(key, Hash(b))];
    }
  }

  // --- Many callers: between its two transactions a caller waits, while others commit ---

  datatype System<D> = System(tables: Tables<D>, failing: map<nat, Bundle>)

  datatype Action =
    | Ingest(caller: nat, bundle: Bundle, aborts: bool)
    | Record(caller: nat)
    | Crash(caller: nat)

  function Next<D>(s: System<D>, a: Action, effect: Effect<D>): System<D> {
    match a
    case Ingest(caller, b, aborts) =>
      var (after, outcome) := IngestTransaction(s.tables, b, effect, aborts);
      System(after, if outcome == Rejected then s.failing[caller := b] else s.failing)
    case Record(caller) =>
      if caller !in s.failing then s else System(RecordFailure(s.tables, s.failing[caller]), s.failing - {caller})
    case Crash(caller) => s.(failing := s.failing - {caller})
  }

  function Run<D>(s: System<D>, actions: seq<Action>, effect: Effect<D>): System<D>
    decreases |actions|
  {
    if |actions| == 0 then s else Run(Next(s, actions[0], effect), actions[1..], effect)
  }

  function Start<D>(initial: D): System<D> {
    System(Tables({}, map[], initial, []), map[])
  }

  // --- What every run keeps ---

  /** The data that the completed bundles of a log make, one after the other. */
  function Replay<D>(initial: D, log: seq<Entry>, effect: Effect<D>): Option<D> {
    if |log| == 0 then Some(initial)
    else
      match Replay(initial, log[..|log| - 1], effect)
      case None => None
      case Some(data) =>
        var last := log[|log| - 1];
        if last.Completed? then effect(data, last.hash.bundle) else Some(data)
  }

  ghost predicate CompletedAt(log: seq<Entry>, i: int, key: RunKey) {
    0 <= i < |log| && log[i].Completed? && log[i].key == key
  }

  ghost predicate HashesMatchKeys(runs: map<RunKey, RunRow>) {
    forall key :: key in runs ==> KeyOf(runs[key].hash.bundle) == key
  }

  ghost predicate IsLogged(log: seq<Entry>, key: RunKey) {
    exists i :: CompletedAt(log, i, key)
  }

  ghost predicate SuccessesLogged(runs: map<RunKey, RunRow>, log: seq<Entry>) {
    forall key :: key in runs && runs[key].state == Succeeded ==> IsLogged(log, key)
  }

  ghost predicate LogIsBound(runs: map<RunKey, RunRow>, log: seq<Entry>) {
    forall key, i :: CompletedAt(log, i, key) ==> key in runs && runs[key] == RunRow(log[i].hash, Succeeded)
  }

  ghost predicate CompletedOnce(log: seq<Entry>) {
    forall key, i, j :: CompletedAt(log, i, key) && CompletedAt(log, j, key) ==> i == j
  }

  ghost predicate Valid<D(!new)>(t: Tables<D>, initial: D, effect: Effect<D>) {
    && Replay(initial, t.log, effect) == Some(t.data)
    && HashesMatchKeys(t.runs) && SuccessesLogged(t.runs, t.log) && LogIsBound(t.runs, t.log) && CompletedOnce(t.log)
  }

  /** Bindings and successes stay, and the log only grows. */
  ghost predicate Keeps<D(!new)>(t: Tables<D>, u: Tables<D>) {
    && (forall key :: key in t.runs ==> key in u.runs && u.runs[key].hash == t.runs[key].hash)
    && (forall key :: key in t.runs && t.runs[key].state == Succeeded ==> u.runs[key].state == Succeeded)
    && t.log <= u.log
  }

  lemma ReplayOneMore<D>(initial: D, log: seq<Entry>, e: Entry, effect: Effect<D>)
    ensures Replay(initial, log + [e], effect) ==
      match Replay(initial, log, effect)
      case None => None
      case Some(data) => if e.Completed? then effect(data, e.hash.bundle) else Some(data)
  {
    assert (log + [e])[..|log|] == log;
  }

  lemma SuccessesStayLogged(runs: map<RunKey, RunRow>, after: map<RunKey, RunRow>, log: seq<Entry>, e: Entry)
    requires SuccessesLogged(runs, log)
    requires forall key :: key in after && after[key].state == Succeeded ==>
               (e.Completed? && key == e.key) || (key in runs && runs[key].state == Succeeded)
    ensures SuccessesLogged(after, log + [e])
  {
    forall key | key in after && after[key].state == Succeeded
      ensures IsLogged(log + [e], key)
    {
      if e.Completed? && key == e.key {
        assert CompletedAt(log + [e], |log|, key);
      } else {
        assert IsLogged(log, key);
        var i :| CompletedAt(log, i, key);
        assert CompletedAt(log + [e], i, key);
      }
    }
  }

  lemma LogStaysBound(runs: map<RunKey, RunRow>, after: map<RunKey, RunRow>, log: seq<Entry>, e: Entry)
    requires LogIsBound(runs, log)
    requires forall key :: key in runs && runs[key].state == Succeeded && !(e.Completed? && key == e.key) ==>
               key in after && after[key] == runs[key]
    requires e.Completed? ==>
               e.key in after && after[e.key] == RunRow(e.hash, Succeeded) && !IsLogged(log, e.key)
    ensures LogIsBound(after, log + [e])
  {
    forall key, i | CompletedAt(log + [e], i, key)
      ensures key in after && after[key] == RunRow((log + [e])[i].hash, Succeeded)
    {
      if i < |log| { assert CompletedAt(log, i, key) && IsLogged(log, key); }
    }
  }

  lemma StaysCompletedOnce(log: seq<Entry>, e: Entry)
    requires CompletedOnce(log)
    requires e.Completed? ==> !IsLogged(log, e.key)
    ensures CompletedOnce(log + [e])
  {
    forall key, i, j | CompletedAt(log + [e], i, key) && CompletedAt(log + [e], j, key)
      ensures i == j
    {
      if i < |log| { assert CompletedAt(log, i, key) && IsLogged(log, key); }
      if j < |log| { assert CompletedAt(log, j, key) && IsLogged(log, key); }
    }
  }

  /** A key that has not succeeded has not completed. */
  lemma NotYetLogged(runs: map<RunKey, RunRow>, log: seq<Entry>, key: RunKey)
    requires LogIsBound(runs, log)
    requires key in runs ==> runs[key].state != Succeeded
    ensures !IsLogged(log, key)
  {
  }

  lemma IngestKeeps<D(!new)>(t: Tables<D>, b: Bundle, aborts: bool, effect: Effect<D>)
    ensures Keeps(t, IngestTransaction(t, b, effect, aborts).0)
  {
  }

  lemma RecordKeeps<D(!new)>(t: Tables<D>, b: Bundle)
    ensures Keeps(t, RecordFailure(t, b))
  {
  }

  lemma IngestKeepsValid<D(!new)>(t: Tables<D>, b: Bundle, aborts: bool, initial: D, effect: Effect<D>)
    requires Valid(t, initial, effect)
    ensures var u := IngestTransaction(t, b, effect, aborts).0; Valid(u, initial, effect) && Keeps(t, u)
  {
    var (u, outcome) := IngestTransaction(t, b, effect, aborts);
    var e := Completed(KeyOf(b), Hash(b));
    IngestKeeps(t, b, aborts, effect);
    hide Keeps;
    hide IsLogged;
    if outcome == Done {
      ReplayOneMore(initial, t.log, e, effect);
      hide Replay;
      NotYetLogged(t.runs, t.log, e.key);
      SuccessesStayLogged(t.runs, u.runs, t.log, e);
      LogStaysBound(t.runs, u.runs, t.log, e);
      StaysCompletedOnce(t.log, e);
    }
  }

  lemma RecordKeepsValid<D(!new)>(t: Tables<D>, b: Bundle, initial: D, effect: Effect<D>)
    requires Valid(t, initial, effect)
    ensures Valid(RecordFailure(t, b), initial, effect) && Keeps(t, RecordFailure(t, b))
    ensures RecordFailure(t, b).data == t.data
  {
    var u := RecordFailure(t, b);
    var e := FailureRecorded(KeyOf(b), Hash(b));
    RecordKeeps(t, b);
    hide Keeps;
    hide IsLogged;
    ReplayOneMore(initial, t.log, e, effect);
    hide Replay;
    SuccessesStayLogged(t.runs, u.runs, t.log, e);
    LogStaysBound(t.runs, u.runs, t.log, e);
    StaysCompletedOnce(t.log, e);
  }

  lemma KeepsTwice<D(!new)>(t: Tables<D>, u: Tables<D>, v: Tables<D>)
    requires Keeps(t, u) && Keeps(u, v)
    ensures Keeps(t, v)
  {
  }

  lemma KeepsItself<D(!new)>(t: Tables<D>)
    ensures Keeps(t, t)
  {
  }

  lemma NextKeepsValid<D(!new)>(s: System<D>, a: Action, initial: D, effect: Effect<D>)
    requires Valid(s.tables, initial, effect)
    ensures Valid(Next(s, a, effect).tables, initial, effect) && Keeps(s.tables, Next(s, a, effect).tables)
  {
    hide Valid;
    hide Keeps;
    KeepsItself(s.tables);
    match a
    case Ingest(_, b, aborts) => IngestKeepsValid(s.tables, b, aborts, initial, effect);
    case Record(caller) => if caller in s.failing { RecordKeepsValid(s.tables, s.failing[caller], initial, effect); }
    case Crash(_) =>
  }

  lemma {:induction false} RunKeepsValid<D(!new)>(s: System<D>, actions: seq<Action>, initial: D, effect: Effect<D>)
    requires Valid(s.tables, initial, effect)
    ensures Valid(Run(s, actions, effect).tables, initial, effect) && Keeps(s.tables, Run(s, actions, effect).tables)
    decreases |actions|
  {
    hide Valid;
    hide Keeps;
    hide Next;
    if |actions| == 0 {
      KeepsItself(s.tables);
    } else {
      var next := Next(s, actions[0], effect);
      NextKeepsValid(s, actions[0], initial, effect);
      RunKeepsValid(next, actions[1..], initial, effect);
      KeepsTwice(s.tables, next.tables, Run(s, actions, effect).tables);
    }
  }

  // --- The promises ---

  /**
   * However ingests and failure records interleave: a key keeps the hash it was bound to, a success
   * stays, each key completes at most once, and the data is exactly what the completed bundles make.
   */
  lemma IngestIsExactlyOnce<D(!new)>(initial: D, first: seq<Action>, later: seq<Action>, effect: Effect<D>)
    ensures var s := Run(Start(initial), first, effect).tables;
      var t := Run(Run(Start(initial), first, effect), later, effect).tables;
      && (forall key :: key in s.runs ==> key in t.runs && t.runs[key].hash == s.runs[key].hash)
      && (forall key :: key in s.runs && s.runs[key].state == Succeeded ==> t.runs[key].state == Succeeded)
      && (forall key, i, j :: CompletedAt(t.log, i, key) && CompletedAt(t.log, j, key) ==> i == j)
      && Replay(initial, t.log, effect) == Some(t.data)
  {
    RunKeepsValid(Start(initial), first, initial, effect);
    RunKeepsValid(Run(Start(initial), first, effect), later, initial, effect);
  }

  /** Sending a completed bundle again changes nothing; sending another under its key is refused and changes nothing. */
  lemma ReplayChangesNothing<D(!new)>(t: Tables<D>, b: Bundle, initial: D, effect: Effect<D>)
    requires Valid(t, initial, effect) && KeyOf(b) in t.runs && t.runs[KeyOf(b)].state == Succeeded
    ensures IngestTransaction(t, b, effect, false)
         == (t, if t.runs[KeyOf(b)].hash == Hash(b) then AlreadyProcessed else ReusedKey)
    ensures var r := IngestTransaction(t, b, effect, false).1;
      r == AlreadyProcessed <==> exists i :: CompletedAt(t.log, i, KeyOf(b)) && t.log[i].hash.bundle == b
  {
    assert IsLogged(t.log, KeyOf(b));
    var i :| CompletedAt(t.log, i, KeyOf(b));
    assert t.runs[KeyOf(b)] == RunRow(t.log[i].hash, Succeeded);
  }

  /** The log completes exactly this bundle. */
  ghost predicate HasCompleted<D(!new)>(t: Tables<D>, b: Bundle) {
    exists i :: CompletedAt(t.log, i, KeyOf(b)) && t.log[i].hash == Hash(b)
  }

  /** The key of the bundle is bound to another payload. */
  predicate BoundElsewhere<D>(t: Tables<D>, b: Bundle) {
    KeyOf(b) in t.runs && t.runs[KeyOf(b)].hash != Hash(b)
  }

  /** The bundle took effect, and nothing else did. */
  ghost predicate Completes<D>(t: Tables<D>, u: Tables<D>, b: Bundle, data: D) {
    && u.data == data && u.sources == t.sources + {b.system} && u.log == t.log + [Completed(KeyOf(b), Hash(b))]
    && KeyOf(b) in u.runs && u.runs[KeyOf(b)] == RunRow(Hash(b), Succeeded)
    && u.runs - {KeyOf(b)} == t.runs - {KeyOf(b)}
  }

  /**
   * The answer to a bundle in every valid state: what was completed is answered, a key that is bound to another
   * payload is refused, and everything else, failed runs included, completes exactly if it has an effect.
   */
  lemma IngestAnswers<D(!new)>(t: Tables<D>, b: Bundle, initial: D, effect: Effect<D>)
    requires Valid(t, initial, effect)
    ensures var (u, outcome) := IngestTransaction(t, b, effect, false);
      if HasCompleted(t, b) then outcome == AlreadyProcessed && u == t
      else if BoundElsewhere(t, b) then outcome == ReusedKey && u == t
      else if effect(t.data, b).None? then outcome == Rejected && u == t
      else outcome == Done && Completes(t, u, b, effect(t.data, b).value)
    ensures !(HasCompleted(t, b) && BoundElsewhere(t, b))
    ensures IngestTransaction(t, b, effect, true) == (t, Rejected)
  {
    var key := KeyOf(b);
    if HasCompleted(t, b) {
      var i :| CompletedAt(t.log, i, key) && t.log[i].hash == Hash(b);
      assert key in t.runs && t.runs[key] == RunRow(Hash(b), Succeeded);
    } else if key in t.runs && t.runs[key].state == Succeeded {
      assert IsLogged(t.log, key);
      var i :| CompletedAt(t.log, i, key);
      assert t.runs[key] == RunRow(t.log[i].hash, Succeeded);
    }
  }

  /** A recorded failure leaves a row of a known source, bound as it was or to this payload, and nothing else changes. */
  lemma FailureIsRecorded<D(!new)>(t: Tables<D>, b: Bundle)
    ensures var u, key := RecordFailure(t, b), KeyOf(b);
      && u.sources == t.sources && u.data == t.data && u.log == t.log + [FailureRecorded(key, Hash(b))]
      && u.runs - {key} == t.runs - {key}
      && (key in u.runs <==> key in t.runs || b.system in t.sources)
      && (key in u.runs && key !in t.runs ==> u.runs[key] == RunRow(Hash(b), Failed))
      && (key in t.runs ==> u.runs[key].hash == t.runs[key].hash)
      && (key in t.runs && (t.runs[key].state == Succeeded || b.system !in t.sources) ==> u.runs[key] == t.runs[key])
      && (key in u.runs && b.system in t.sources && !(key in t.runs && t.runs[key].state == Succeeded) ==>
            u.runs[key].state == Failed)
  {
  }

  /** A caller records a failure exactly for the bundle that was last rejected, unless it crashed or has recorded it. */
  lemma WaitingCallers<D>(s: System<D>, a: Action, caller: nat, effect: Effect<D>)
    ensures var t := Next(s, a, effect);
      && (a.Ingest? && a.caller == caller && IngestTransaction(s.tables, a.bundle, effect, a.aborts).1 == Rejected ==>
            caller in t.failing && t.failing[caller] == a.bundle)
      && ((a.Record? || a.Crash?) && a.caller == caller ==> caller !in t.failing)
      && (a.caller != caller || (a.Ingest? && IngestTransaction(s.tables, a.bundle, effect, a.aborts).1 != Rejected) ==>
            (caller in t.failing <==> caller in s.failing) && (caller in s.failing ==> t.failing[caller] == s.failing[caller]))
      && (a.Crash? ==> t.tables == s.tables)
  {
    hide IngestTransaction;
    hide RecordFailure;
  }

  /**
   * A bundle of a known source that was rejected, and recorded as failed, is not lost: whatever happens in between,
   * sending it again completes it as soon as it has an effect, unless it has been completed meanwhile.
   */
  lemma FailedBundleCanBeRetried<D(!new)>(
      initial: D, before: seq<Action>, caller: nat, b: Bundle, between: seq<Action>, effect: Effect<D>)
    requires var s := Run(Start(initial), before, effect).tables;
      && b.system in s.sources
      && IngestTransaction(s, b, effect, false).1 == Rejected
    ensures var s := Run(Start(initial), before, effect);
      var failed := Next(Next(s, Ingest(caller, b, false), effect), Record(caller), effect);
      var t := Run(failed, between, effect).tables;
      var (u, outcome) := IngestTransaction(t, b, effect, false);
      && KeyOf(b) in failed.tables.runs && failed.tables.runs[KeyOf(b)] == RunRow(Hash(b), Failed)
      && KeyOf(b) in t.runs && t.runs[KeyOf(b)].hash == Hash(b)
      && if HasCompleted(t, b) then outcome == AlreadyProcessed
         else if effect(t.data, b).None? then outcome == Rejected
         else outcome == Done && Completes(t, u, b, effect(t.data, b).value)
  {
    var s := Run(Start(initial), before, effect);
    RunKeepsValid(Start(initial), before, initial, effect);
    IngestAnswers(s.tables, b, initial, effect);
    var rejected := Next(s, Ingest(caller, b, false), effect);
    var failed := Next(rejected, Record(caller), effect);
    NextKeepsValid(s, Ingest(caller, b, false), initial, effect);
    NextKeepsValid(rejected, Record(caller), initial, effect);
    assert failed.tables == RecordFailure(s.tables, b);
    FailureIsRecorded(s.tables, b);
    NotSucceeded(s.tables, b, initial, effect);
    RunKeepsValid(failed, between, initial, effect);
    IngestAnswers(Run(failed, between, effect).tables, b, initial, effect);
    hide Run;
    hide Next;
    hide IngestTransaction;
    hide RecordFailure;
    hide HasCompleted;
    hide Completes;
  }

  lemma NotSucceeded<D(!new)>(t: Tables<D>, b: Bundle, initial: D, effect: Effect<D>)
    requires Valid(t, initial, effect) && IngestTransaction(t, b, effect, false).1 == Rejected
    ensures KeyOf(b) in t.runs ==> t.runs[KeyOf(b)] == RunRow(Hash(b), Failed)
  {
  }

  /** A failure recorded late, after another caller succeeded with the key, cannot undo that success. */
  lemma LateFailureKeepsSuccess<D(!new)>(s: System<D>, actions: seq<Action>, key: RunKey, initial: D, effect: Effect<D>)
    requires Valid(s.tables, initial, effect) && key in s.tables.runs && s.tables.runs[key].state == Succeeded
    ensures var t := Run(s, actions, effect).tables; key in t.runs && t.runs[key] == s.tables.runs[key]
  {
    RunKeepsValid(s, actions, initial, effect);
  }

  // --- The SQLite form: a failed run may be retried with another payload ---

  datatype LegacyTables<D> = LegacyTables(runs: map<string, RunRow>, data: D)

  function LegacyIngest<D>(t: LegacyTables<D>, b: Bundle, effect: Effect<D>): (LegacyTables<D>, Outcome) {
    if b.runId in t.runs && t.runs[b.runId].state == Succeeded then
      (t, if t.runs[b.runId].hash == Hash(b) then AlreadyProcessed else ReusedKey)
    else
      match effect(t.data, b)
      case Some(data) => (LegacyTables(t.runs[b.runId := RunRow(Hash(b), Succeeded)], data), Done)
      case None =>
        (t.(runs := t.runs[b.runId := RunRow(if b.runId in t.runs then t.runs[b.runId].hash else Hash(b), Failed)]), Rejected)
  }

  function LegacyRun<D>(initial: D, bundles: seq<Bundle>, effect: Effect<D>): LegacyTables<D>
    decreases |bundles|
  {
    if |bundles| == 0 then LegacyTables(map[], initial)
    else LegacyIngest(LegacyRun(initial, bundles[..|bundles| - 1], effect), bundles[|bundles| - 1], effect).0
  }

  predicate Sends(bundles: seq<Bundle>, i: nat, runId: string) {
    i < |bundles| && bundles[i].runId == runId
  }

  predicate SendsFirst(bundles: seq<Bundle>, i: nat, runId: string) {
    Sends(bundles, i, runId) && forall j: nat :: j < i ==> !Sends(bundles, j, runId)
  }

  /** The call for bundle `i` completes the run. */
  predicate LegacyCompletes<D>(initial: D, bundles: seq<Bundle>, i: nat, runId: string, effect: Effect<D>) {
    Sends(bundles, i, runId) && LegacyIngest(LegacyRun(initial, bundles[..i], effect), bundles[i], effect).1 == Done
  }

  /** A run has a row exactly once it is sent; a failed one keeps the hash of the first bundle sent. */
  ghost predicate FailuresKeepFirst<D>(initial: D, bundles: seq<Bundle>, runId: string, effect: Effect<D>) {
    var rows := LegacyRun(initial, bundles, effect).runs;
    && (runId in rows <==> exists i: nat :: Sends(bundles, i, runId))
    && (runId in rows && rows[runId].state == Failed ==>
          forall i: nat :: SendsFirst(bundles, i, runId) ==> rows[runId].hash == Hash(bundles[i]))
  }

  /** It is a success, bound to the bundle that completed it, exactly if one did. */
  ghost predicate SuccessIsBound<D>(initial: D, bundles: seq<Bundle>, runId: string, effect: Effect<D>) {
    var rows := LegacyRun(initial, bundles, effect).runs;
    && (forall i: nat :: LegacyCompletes(initial, bundles, i, runId, effect) ==>
          runId in rows && rows[runId] == RunRow(Hash(bundles[i]), Succeeded))
    && (runId in rows && rows[runId].state == Succeeded ==>
          exists i: nat :: LegacyCompletes(initial, bundles, i, runId, effect))
  }

  ghost predicate CompletesOnce<D>(initial: D, bundles: seq<Bundle>, runId: string, effect: Effect<D>) {
    forall i: nat, j: nat ::
      LegacyCompletes(initial, bundles, i, runId, effect) && LegacyCompletes(initial, bundles, j, runId, effect) ==> i == j
  }

  lemma PrefixCompletes<D>(initial: D, bundles: seq<Bundle>, i: nat, runId: string, effect: Effect<D>)
    requires i < |bundles| - 1
    ensures var before := bundles[..|bundles| - 1];
      && LegacyCompletes(initial, before, i, runId, effect) == LegacyCompletes(initial, bundles, i, runId, effect)
      && Sends(before, i, runId) == Sends(bundles, i, runId) && SendsFirst(before, i, runId) == SendsFirst(bundles, i, runId)
  {
    var before := bundles[..|bundles| - 1];
    assert before[..i] == bundles[..i];
    assert forall j: nat :: j <= i ==> Sends(before, j, runId) == Sends(bundles, j, runId);
  }

  lemma {:induction false} LegacyRowsAreBound<D>(initial: D, bundles: seq<Bundle>, runId: string, effect: Effect<D>)
    ensures FailuresKeepFirst(initial, bundles, runId, effect)
    ensures SuccessIsBound(initial, bundles, runId, effect) && CompletesOnce(initial, bundles, runId, effect)
    decreases |bundles|
  {
    if |bundles| > 0 {
      var last := |bundles| - 1;
      LegacyRowsAreBound(initial, bundles[..last], runId, effect);
      forall i: nat | i < |bundles[..last]|
        ensures LegacyCompletes(initial, bundles[..last], i, runId, effect) == LegacyCompletes(initial, bundles, i, runId, effect)
        ensures Sends(bundles[..last], i, runId) == Sends(bundles, i, runId)
        ensures SendsFirst(bundles[..last], i, runId) == SendsFirst(bundles, i, runId)
      {
        PrefixCompletes(initial, bundles, i, runId, effect);
      }
      assert Extends(initial, bundles, runId, effect);
      hide *;
      FailuresStep(initial, bundles, runId, effect);
      SuccessStep(initial, bundles, runId, effect);
    }
  }

  /** The call for the last bundle comes after those for the others. */
  ghost predicate Extends<D>(initial: D, bundles: seq<Bundle>, runId: string, effect: Effect<D>)
    requires |bundles| > 0
  {
    var before := bundles[..|bundles| - 1];
    forall i: nat :: i < |bundles| - 1 ==>
      && LegacyCompletes(initial, before, i, runId, effect) == LegacyCompletes(initial, bundles, i, runId, effect)
      && Sends(before, i, runId) == Sends(bundles, i, runId) && SendsFirst(before, i, runId) == SendsFirst(bundles, i, runId)
  }

  lemma FailuresStep<D>(initial: D, bundles: seq<Bundle>, runId: string, effect: Effect<D>)
    requires |bundles| > 0 && Extends(initial, bundles, runId, effect)
    requires FailuresKeepFirst(initial, bundles[..|bundles| - 1], runId, effect)
    ensures FailuresKeepFirst(initial, bundles, runId, effect)
  {
    var last := |bundles| - 1;
    var t := LegacyRun(initial, bundles[..last], effect);
    var u := LegacyRun(initial, bundles, effect);
    hide LegacyCompletes;
    if bundles[last].runId == runId {
      assert Sends(bundles, last, runId);
    } else {
      assert !Sends(bundles, last, runId);
    }
  }

  predicate HasSucceeded(runs: map<string, RunRow>, runId: string) {
    runId in runs && runs[runId].state == Succeeded
  }

  /** A call completes a run only if it has not succeeded yet, and other calls leave a success as it is. */
  lemma OneCall<D>(t: LegacyTables<D>, b: Bundle, runId: string, effect: Effect<D>)
    ensures var (u, outcome) := LegacyIngest(t, b, effect);
      if b.runId == runId && outcome == Done then
        !HasSucceeded(t.runs, runId) && runId in u.runs && u.runs[runId] == RunRow(Hash(b), Succeeded)
      else
        && HasSucceeded(u.runs, runId) == HasSucceeded(t.runs, runId)
        && (HasSucceeded(t.runs, runId) ==> u.runs[runId] == t.runs[runId])
  {
  }

  lemma SuccessStep<D>(initial: D, bundles: seq<Bundle>, runId: string, effect: Effect<D>)
    requires |bundles| > 0 && Extends(initial, bundles, runId, effect)
    requires SuccessIsBound(initial, bundles[..|bundles| - 1], runId, effect)
    requires CompletesOnce(initial, bundles[..|bundles| - 1], runId, effect)
    ensures SuccessIsBound(initial, bundles, runId, effect) && CompletesOnce(initial, bundles, runId, effect)
  {
    var last := |bundles| - 1;
    var before := bundles[..last];
    var t := LegacyRun(initial, before, effect);
    var u := LegacyRun(initial, bundles, effect);
    OneCall(t, bundles[last], runId, effect);
    var completes := LegacyCompletes(initial, bundles, last, runId, effect);
    assert completes <==> bundles[last].runId == runId && LegacyIngest(t, bundles[last], effect).1 == Done;
    assert u == LegacyIngest(t, bundles[last], effect).0;
    forall i: nat | LegacyCompletes(initial, bundles, i, runId, effect)
      ensures i == last || (i < last && LegacyCompletes(initial, before, i, runId, effect))
    {
    }
    forall i: nat | LegacyCompletes(initial, before, i, runId, effect)
      ensures i < last && LegacyCompletes(initial, bundles, i, runId, effect)
    {
    }
    hide LegacyRun;
    hide LegacyIngest;
    hide Extends;
    hide LegacyCompletes;
  }

  /**
   * The answer of SQLite to a bundle after any others: a run that a bundle completed answers that bundle and refuses
   * others, and a run that none completed, failed or not, completes exactly if the bundle has an effect.
   */
  lemma LegacyAnswers<D>(initial: D, bundles: seq<Bundle>, b: Bundle, effect: Effect<D>)
    ensures var t := LegacyRun(initial, bundles, effect);
      var (u, outcome) := LegacyIngest(t, b, effect);
      && (forall i: nat :: LegacyCompletes(initial, bundles, i, b.runId, effect) ==>
            u == t && outcome == if bundles[i] == b then AlreadyProcessed else ReusedKey)
      && ((forall i: nat :: !LegacyCompletes(initial, bundles, i, b.runId, effect)) ==>
            if effect(t.data, b).None? then outcome == Rejected && u.data == t.data
            else outcome == Done && u.data == effect(t.data, b).value && u.runs == t.runs[b.runId := RunRow(Hash(b), Succeeded)])
  {
    LegacyRowsAreBound(initial, bundles, b.runId, effect);
    hide LegacyRun;
    hide LegacyCompletes;
    hide FailuresKeepFirst;
    hide CompletesOnce;
  }

  /**
   * However often a run is sent to SQLite, it completes at most once, and the hash of its first bundle is
   * given up exactly if another payload completes the run later.
   */
  lemma LegacyBindingChanges<D>(initial: D, bundles: seq<Bundle>, first: nat, runId: string, effect: Effect<D>)
    requires SendsFirst(bundles, first, runId)
    ensures CompletesOnce(initial, bundles, runId, effect)
    ensures var rows := LegacyRun(initial, bundles, effect).runs;
      && runId in rows
      && (rows[runId].hash != Hash(bundles[first]) <==>
            exists i: nat :: LegacyCompletes(initial, bundles, i, runId, effect) && bundles[i] != bundles[first])
  {
    LegacyRowsAreBound(initial, bundles, runId, effect);
    hide LegacyRun;
  }
}
