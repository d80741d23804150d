/**
 * Which actors contribute to the object-name to metrics-name map that the
 * aggregation looks sessions up in (HeatmapRT.cpp, GetMetricsNames). The map
 * is keyed, like every engine string map, by the folded object name.
 */
module MetricsNames {
  import opened HeatmapTypes
  import opened HeatmapReadyActors

  /** An actor contributes when it exists, asks for metrics and carries a
      metrics name that is neither empty nor "unset" (compared ignoring case). */
  predicate Contributes(a: HeatmapReadyActor?)
  {
    a != null && a.needsMetrics && a.metricsName != "" && Fold(a.metricsName) != "unset"
  }

  /** The map built from the actors in order; a later actor whose object name
      equals an earlier one's (ignoring case) replaces its metrics name. */
  function NameMap(actors: seq<HeatmapReadyActor?>): map<string, string>
    decreases |actors|
  {
    if |actors| == 0 then map[]
    else
      var m := NameMap(actors[..|actors| - 1]);
      var a := actors[|actors| - 1];
      if Contributes(a) then m[Fold(a.name) := a.metricsName] else m
  }

  /** Builds the map from the actors of the world; without a world context the
      caller's map is left as it was. */
  method GetMetricsNames(hasWorldContext: bool, actors: seq<HeatmapReadyActor?>, current: map<string, string>)
    returns (names: map<string, string>)
    ensures !hasWorldContext ==> names == current
    ensures hasWorldContext ==> names == NameMap(actors)
  {
    if !hasWorldContext {
      return current;
    }
    var local: map<string, string> := map[];
    var i := 0;
    while i < |actors|
      invariant 0 <= i <= |actors|
      invariant local == NameMap(actors[..i])
    {
      var actor := actors[i];
      assert actors[..i + 1][..i] == actors[..i];
      if actor == null {
        i := i + 1;
        continue;
      }
      if !actor.needsMetrics {
        i := i + 1;
        continue;
      }
      if actor.metricsName == "" || Fold(actor.metricsName) == "unset" {
        i := i + 1;
        continue;
      }
      local := local[Fold(actor.name) := actor.metricsName];
      i := i + 1;
    }
    assert actors[..i] == actors;
    names := local;
  }

  /** A folded object name is mapped iff some contributing actor has it. */
  lemma {:induction false} NameMapKeys(actors: seq<HeatmapReadyActor?>, k: string)
    ensures k in NameMap(actors) <==>
              exists i :: 0 <= i < |actors| && Contributes(actors[i]) && Fold(actors[i].name) == k
    decreases |actors|
  {
    if |actors| > 0 {
      var init := actors[..|actors| - 1];
      NameMapKeys(init, k);
      if exists i :: 0 <= i < |init| && Contributes(init[i]) && Fold(init[i].name) == k {
        var i :| 0 <= i < |init| && Contributes(init[i]) && Fold(init[i].name) == k;
        assert actors[i] == init[i];
      }
      if exists i :: 0 <= i < |actors| && Contributes(actors[i]) && Fold(actors[i].name) == k {
        var i :| 0 <= i < |actors| && Contributes(actors[i]) && Fold(actors[i].name) == k;
        if i < |init| {
          assert init[i] == actors[i];
        }
      }
    }
  }

  /** The metrics name stored for an object is that of the LAST contributing
      actor carrying the object's name. */
  lemma {:induction false} NameMapLastWins(actors: seq<HeatmapReadyActor?>, i: int)
    requires 0 <= i < |actors| && Contributes(actors[i])
    requires forall j :: i < j < |actors| && Contributes(actors[j]) ==>
               Fold(actors[j].name) != Fold(actors[i].name)
    ensures Fold(actors[i].name) in NameMap(actors)
    ensures NameMap(actors)[Fold(actors[i].name)] == actors[i].metricsName
    decreases |actors|
  {
    if i < |actors| - 1 {
      var init := actors[..|actors| - 1];
      assert init[i] == actors[i];
      NameMapLastWins(init, i);
    }
  }

  /** Every mapped metrics name is usable: neither empty nor "unset". */
  lemma {:induction false} NameMapValuesUsable(actors: seq<HeatmapReadyActor?>)
    ensures forall k :: k in NameMap(actors) ==>
              NameMap(actors)[k] != "" && Fold(NameMap(actors)[k]) != "unset"
    decreases |actors|
  {
    if |actors| > 0 {
      NameMapValuesUsable(actors[..|actors| - 1]);
    }
  }

  /** The map is keyed by folded object names, so it is looked up as it is. */
  lemma {:induction false} NameMapFolded(actors: seq<HeatmapReadyActor?>)
    ensures forall k :: k in NameMap(actors) ==> Fold(k) == k
    ensures FoldKeys(NameMap(actors)) == NameMap(actors)
    decreases |actors|
  {
    if |actors| > 0 {
      NameMapFolded(actors[..|actors| - 1]);
      if actors[|actors| - 1] != null {
        FoldFolded(actors[|actors| - 1].name);
      }
    }
    FoldKeysOfFolded(NameMap(actors));
  }
}
