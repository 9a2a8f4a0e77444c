/** The mapping of correlation ids to PostgreSQL UUIDs (apps/api/src/cutover-import.ts). */
module CorrelationMapping {
  import opened Common

  datatype Mapping = Mapping(values: map<string, string>, remapped: nat)

  datatype Collision = Collision(priorSource: string, source: string)

  ghost predicate InjectiveOn(f: string -> string, keys: set<string>) {
    forall s, t :: s in keys && t in keys && f(s) == f(t) ==> s == t
  }

  predicate DistinctStrings(xs: seq<string>) {
    forall i, j :: 0 <= i < j < |xs| ==> xs[i] != xs[j]
  }

  function StringSet(xs: seq<string>): (r: set<string>)
    ensures forall x :: x in r <==> x in xs
  {
    set x | x in xs
  }

  /** The ids whose UUID is not just their lower-case form. */
  function Remapped(keys: set<string>, uuid: string -> string, lower: string -> string): set<string> {
    set s | s in keys && uuid(s) != lower(s)
  }

  /** [...new Set(values)] */
  method DistinctValues(values: seq<string>) returns (distinct: seq<string>)
    ensures DistinctStrings(distinct) && StringSet(distinct) == StringSet(values)
  {
    distinct := [];
    var i := 0;
    while i < |values|
      invariant 0 <= i <= |values|
      invariant DistinctStrings(distinct)
      invariant forall x :: x in distinct <==> x in values[..i]
    {
      if values[i] !in distinct {
        distinct := distinct + [values[i]];
      }
      i := i + 1;
    }
  }

  /**
   * createCorrelationIdMapping: `uuid` is the deterministic UUID of an id, of which only 122 bits
   * derive from the hash, so that two ids may collide.
   */
  method CreateCorrelationIdMapping(sourceValues: seq<string>, uuid: string -> string, lower: string -> string)
      returns (result: Result<Mapping, Collision>)
    ensures result.Ok? <==> InjectiveOn(uuid, StringSet(sourceValues))
    ensures result.Ok? ==> var m := result.value;
      && m.values.Keys == StringSet(sourceValues)
      && (forall s :: s in m.values ==> m.values[s] == uuid(s))
      && (forall s, t :: s in m.values && t in m.values && m.values[s] == m.values[t] ==> s == t)
      && m.remapped == |Remapped(StringSet(sourceValues), uuid, lower)|
    ensures result.Error? ==> var c := result.error;
      c.priorSource in sourceValues && c.source in sourceValues && c.priorSource != c.source && uuid(c.priorSource) == uuid(c.source)
  {
    hide InjectiveOn;
    hide Inverse;
    hide Remapped;
    hide DistinctStrings;
    hide StringSet;
    var sources := DistinctValues(sourceValues);
    var values: map<string, string> := map[];
    var targets: map<string, string> := map[];
    var remapped := 0;
    var i := 0;
    NothingMapped(sources, uuid, lower);
    while i < |sources|
      invariant 0 <= i <= |sources|
      invariant values.Keys == StringSet(sources[..i])
      invariant forall s :: s in values ==> values[s] == uuid(s)
      invariant Inverse(values.Keys, targets, uuid)
      invariant remapped == |Remapped(values.Keys, uuid, lower)|
    {
      var source := sources[i];
      var target := uuid(source);
      NextIsNew(sources, i);
      if target in targets && targets[target] != source {
        FoundCollision(values.Keys, targets, source, StringSet(sources), uuid);
        return Error(Collision(targets[target], source));
      }
      StringSetGrows(sources, i);
      InverseGrows(values.Keys, targets, source, uuid);
      RemappedGrows(values.Keys, source, uuid, lower);
      assert values[source := target].Keys == values.Keys + {source};
      values := values[source := target];
      targets := targets[target := source];
      if target != lower(source) {
        remapped := remapped + 1;
      }
      i := i + 1;
    }
    assert sources[..i] == sources;
    InverseIsInjective(values.Keys, targets, uuid);
    result := Ok(Mapping(values, remapped));
  }

  /** `targets` takes each UUID back to the one key it came from. */
  predicate Inverse(keys: set<string>, targets: map<string, string>, uuid: string -> string) {
    && (forall s :: s in keys ==> uuid(s) in targets && targets[uuid(s)] == s)
    && (forall t :: t in targets ==> targets[t] in keys && uuid(targets[t]) == t)
  }

  lemma NothingMapped(sources: seq<string>, uuid: string -> string, lower: string -> string)
    ensures StringSet(sources[..0]) == {} && Inverse({}, map[], uuid) && Remapped({}, uuid, lower) == {}
  {
  }

  /** An id is mapped once, so its UUID was either not used before or used for another id. */
  lemma NextIsNew(sources: seq<string>, i: nat)
    requires DistinctStrings(sources) && i < |sources|
    ensures sources[i] !in StringSet(sources[..i]) && sources[i] in StringSet(sources)
    ensures StringSet(sources[..i]) <= StringSet(sources)
  {
  }

  lemma FoundCollision(
      keys: set<string>, targets: map<string, string>, s: string, all: set<string>, uuid: string -> string)
    requires Inverse(keys, targets, uuid) && uuid(s) in targets && targets[uuid(s)] != s
    requires keys <= all && s in all
    ensures targets[uuid(s)] in all && uuid(targets[uuid(s)]) == uuid(s) && !InjectiveOn(uuid, all)
  {
  }

  lemma InverseIsInjective(keys: set<string>, targets: map<string, string>, uuid: string -> string)
    requires Inverse(keys, targets, uuid)
    ensures InjectiveOn(uuid, keys)
    ensures forall s, t :: s in keys && t in keys && uuid(s) == uuid(t) ==> s == t
  {
  }

  lemma InverseGrows(keys: set<string>, targets: map<string, string>, s: string, uuid: string -> string)
    requires Inverse(keys, targets, uuid) && s !in keys && (uuid(s) in targets ==> targets[uuid(s)] == s)
    ensures Inverse(keys + {s}, targets[uuid(s) := s], uuid)
  {
  }

  lemma StringSetGrows(xs: seq<string>, i: nat)
    requires i < |xs|
    ensures StringSet(xs[..i + 1]) == StringSet(xs[..i]) + {xs[i]}
  {
    assert xs[..i + 1] == xs[..i] + [xs[i]];
  }

  lemma RemappedGrows(keys: set<string>, s: string, uuid: string -> string, lower: string -> string)
    requires s !in keys
    ensures |Remapped(keys + {s}, uuid, lower)| == |Remapped(keys, uuid, lower)| + if uuid(s) != lower(s) then 1 else 0
  {
    var before, after := Remapped(keys, uuid, lower), Remapped(keys + {s}, uuid, lower);
    assert after == if uuid(s) != lower(s) then before + {s} else before;
  }
}
