/**
 * The heatmap runtime of HeatmapRT.cpp: the loaded recording, the attention
 * metrics table, the list of paintable actors and the last-painted-actor
 * cache, which the engine keeps as static state and which this model keeps
 * as the fields of one object.
 */
module HeatmapRuntime {
  import opened HeatmapTypes
  import opened AttentionSessions
  import opened MetricsTable
  import opened MetricsSort
  import opened MetricsNames
  import opened HeatmapReadyActors
  import opened JsonCodec

  /** The first actor at or after position `from` whose object name equals
      `name` (ignoring case), or null when there is none. */
  function FirstNamedFrom(actors: seq<HeatmapReadyActor?>, name: string, from: nat): (a: HeatmapReadyActor?)
    ensures a != null ==> a in actors && SameName(name, a.name)
    decreases |actors| - from
  {
    if from >= |actors| then null
    else if actors[from] != null && SameName(name, actors[from].name) then actors[from]
    else FirstNamedFrom(actors, name, from + 1)
  }

  /** The actor a data point on object `name` is painted on: the cached actor
      when its name matches, else the first matching actor of the list. */
  function PaintTarget(cache: HeatmapReadyActor?, actors: seq<HeatmapReadyActor?>, name: string)
    : HeatmapReadyActor?
  {
    if cache != null && SameName(name, cache.name) then cache else FirstNamedFrom(actors, name, 0)
  }

  /** The cache after painting `points` in order, starting from `cache`: each
      point that finds a target leaves that target cached. */
  function CacheAfter(cache: HeatmapReadyActor?, actors: seq<HeatmapReadyActor?>, points: seq<DataPoint>)
    : HeatmapReadyActor?
    decreases |points|
  {
    if |points| == 0 then cache
    else
      var c := CacheAfter(cache, actors, points[..|points| - 1]);
      var t := PaintTarget(c, actors, points[|points| - 1].objectName);
      if t != null then t else c
  }

  /** What painting `dp` on actor `a` draws: one stroke at the point's UV with
      the divisor the brush is given, or nothing when `a` has no brush. */
  function StrokeFor(a: HeatmapReadyActor, hasBrush: bool, dp: DataPoint): seq<Stroke>
  {
    if hasBrush then [Stroke(dp.coordinates, a.EffectiveScaleDivisor(dp.scaleDivisor))] else []
  }

  /** The strokes that painting `points` in order, starting from cache
      `cache`, draws on actor `a` (whose brush presence is `hasBrush`). */
  function StrokesOn(a: HeatmapReadyActor, hasBrush: bool, cache: HeatmapReadyActor?,
                     actors: seq<HeatmapReadyActor?>, points: seq<DataPoint>): seq<Stroke>
    decreases |points|
  {
    if |points| == 0 then []
    else
      var init := points[..|points| - 1];
      var dp := points[|points| - 1];
      StrokesOn(a, hasBrush, cache, actors, init) +
        (if PaintTarget(CacheAfter(cache, actors, init), actors, dp.objectName) == a
         then StrokeFor(a, hasBrush, dp) else [])
  }

  /** The last of `points` painted on actor `a`, painting in order from cache
      `cache`, or None when none is painted on it. */
  function LastPaintedOn(a: HeatmapReadyActor, cache: HeatmapReadyActor?,
                         actors: seq<HeatmapReadyActor?>, points: seq<DataPoint>): Option<DataPoint>
    decreases |points|
  {
    if |points| == 0 then None
    else
      var init := points[..|points| - 1];
      var dp := points[|points| - 1];
      if PaintTarget(CacheAfter(cache, actors, init), actors, dp.objectName) == a then Some(dp)
      else LastPaintedOn(a, cache, actors, init)
  }

  /** The state of actor `a`, from state `s`, once data point `dp` is painted
      on it: with a brush, the brush takes the point's divisor (or the actor's
      override) and UV and draws one stroke; without one nothing changes. */
  function PaintedOnce(a: HeatmapReadyActor, s: ActorState, dp: DataPoint): ActorState
  {
    if s.paintBrush.None? then s
    else
      var divisor := a.EffectiveScaleDivisor(dp.scaleDivisor);
      s.(brushScaleDivisor := divisor, brushPosition := dp.coordinates,
         strokes := s.strokes + [Stroke(dp.coordinates, divisor)])
  }

  /** The state of actor `a`, from state `s`, once `points` are painted in
      order from cache `cache`: each point resolved to `a` is painted on it. */
  function PaintedAll(a: HeatmapReadyActor, s: ActorState, cache: HeatmapReadyActor?,
                      actors: seq<HeatmapReadyActor?>, points: seq<DataPoint>): ActorState
    decreases |points|
  {
    if |points| == 0 then s
    else
      var init := points[..|points| - 1];
      var dp := points[|points| - 1];
      var before := PaintedAll(a, s, cache, actors, init);
      if PaintTarget(CacheAfter(cache, actors, init), actors, dp.objectName) == a then PaintedOnce(a, before, dp)
      else before
  }

  /** Painting a recording on an actor draws on it exactly the strokes
      `StrokesOn` assigns it, after its old ones; leaves its brush parameters
      as the last point painted on it set them (as they were when no point
      reaches it or it has no brush); and changes nothing else. */
  lemma {:induction false} PaintedAllMeans(a: HeatmapReadyActor, s: ActorState, cache: HeatmapReadyActor?,
                                           actors: seq<HeatmapReadyActor?>, points: seq<DataPoint>)
    ensures var r := PaintedAll(a, s, cache, actors, points);
            && r.strokes == s.strokes + StrokesOn(a, s.paintBrush.Some?, cache, actors, points)
            && r.(strokes := s.strokes, brushScaleDivisor := s.brushScaleDivisor, brushPosition := s.brushPosition) == s
            && var last := LastPaintedOn(a, cache, actors, points);
               if s.paintBrush.Some? && last.Some? then
                 r.brushScaleDivisor == a.EffectiveScaleDivisor(last.value.scaleDivisor) &&
                 r.brushPosition == last.value.coordinates
               else
                 r.brushScaleDivisor == s.brushScaleDivisor && r.brushPosition == s.brushPosition
    decreases |points|
  {
    if |points| > 0 {
      var init := points[..|points| - 1];
      PaintedAllMeans(a, s, cache, actors, init);
      var before := StrokesOn(a, s.paintBrush.Some?, cache, actors, init);
      var drawn := if PaintTarget(CacheAfter(cache, actors, init), actors, points[|points| - 1].objectName) == a
                   then StrokeFor(a, s.paintBrush.Some?, points[|points| - 1]) else [];
      assert (s.strokes + before) + drawn == s.strokes + (before + drawn);
    }
  }

  /** Painting one more point paints it on its target alone, if any, and
      moves the cache to that target. */
  lemma PaintStep(cache: HeatmapReadyActor?, actors: seq<HeatmapReadyActor?>, points: seq<DataPoint>, i: int)
    requires 0 <= i < |points|
    ensures var c := CacheAfter(cache, actors, points[..i]);
            var t := PaintTarget(c, actors, points[i].objectName);
            CacheAfter(cache, actors, points[..i + 1]) == (if t != null then t else c)
    ensures forall a: HeatmapReadyActor, st: ActorState {:trigger PaintedAll(a, st, cache, actors, points[..i + 1])} ::
              PaintedAll(a, st, cache, actors, points[..i + 1]) ==
                var before := PaintedAll(a, st, cache, actors, points[..i]);
                if PaintTarget(CacheAfter(cache, actors, points[..i]), actors, points[i].objectName) == a
                then PaintedOnce(a, before, points[i]) else before
  {
    assert points[..i + 1][..i] == points[..i] && points[..i + 1][i] == points[i];
  }

  function ActorObjects(actors: seq<HeatmapReadyActor?>): set<HeatmapReadyActor>
  {
    set a: HeatmapReadyActor | a in actors
  }

  function CacheObjects(cache: HeatmapReadyActor?): set<HeatmapReadyActor>
  {
    if cache == null then {} else {cache}
  }

  /** With object names unique ignoring case, as the engine keeps them, and the
      cached actor taken from the list, the cache never changes which actor a
      point is painted on: it is the first actor of the list with that name. */
  lemma CacheAgreesWithLookup(cache: HeatmapReadyActor?, actors: seq<HeatmapReadyActor?>, name: string)
    requires forall i, j :: 0 <= i < j < |actors| && actors[i] != null && actors[j] != null ==>
               !SameName(actors[i].name, actors[j].name)
    requires cache == null || cache in actors
    ensures PaintTarget(cache, actors, name) == FirstNamedFrom(actors, name, 0)
  {
    if cache != null && SameName(name, cache.name) {
      var k :| 0 <= k < |actors| && actors[k] == cache;
      FirstNamedFromFinds(actors, name, 0, k);
    }
  }

  lemma {:induction false} FirstNamedFromFinds(actors: seq<HeatmapReadyActor?>, name: string, from: nat, k: int)
    requires from <= k < |actors| && actors[k] != null && SameName(name, actors[k].name)
    requires forall i, j :: 0 <= i < j < |actors| && actors[i] != null && actors[j] != null ==>
               !SameName(actors[i].name, actors[j].name)
    ensures FirstNamedFrom(actors, name, from) == actors[k]
    decreases k - from
  {
    if from < k {
      assert !(actors[from] != null && SameName(name, actors[from].name)) by {
        if actors[from] != null {
          assert !SameName(actors[from].name, actors[k].name);
        }
      }
      FirstNamedFromFinds(actors, name, from + 1, k);
    }
  }

  /** A deferred paint: after `delay` seconds, loaded point `pointIndex` is painted. */
  datatype Timer = Timer(delay: real, pointIndex: nat)

  /** The metrics-name map the load looks sessions up in: built from the
      world's actors, or empty without a world context. */
  function LoadNames(hasWorldContext: bool, worldActors: seq<HeatmapReadyActor?>): map<string, string>
  {
    if hasWorldContext then NameMap(worldActors) else map[]
  }

  /** The timers after setting timer i for each of `points` in turn: a point
      recorded after the start gets a timer for its recorded time, while a
      point at time 0 or before clears timer i and sets none, as the engine's
      timer manager does for a delay that is not positive. Timers past the
      points are untouched. */
  function Scheduled(timers: map<nat, Timer>, points: seq<DataPoint>): (r: map<nat, Timer>)
    ensures forall i :: 0 <= i < |points| ==> (i in r <==> points[i].time > 0.0)
    ensures forall i :: 0 <= i < |points| && i in r ==> r[i] == Timer(points[i].time, i)
    ensures forall k :: k >= |points| ==> (k in r <==> k in timers)
    ensures forall k :: k >= |points| && k in r ==> r[k] == timers[k]
    decreases |points|
  {
    if |points| == 0 then timers
    else
      var i := |points| - 1;
      var before := Scheduled(timers, points[..i]);
      assert forall j :: 0 <= j < i ==> points[..i][j] == points[j];
      if points[i].time > 0.0 then before[i := Timer(points[i].time, i)] else before - {i}
  }

  class HeatmapRT {
    /** The recording currently loaded. */
    var loaded: seq<DataPoint>
    /** The attention metrics of the loaded recording. */
    var metrics: Table
    /** The paintable actors found by the last paint of a loaded heatmap. */
    var heatmapReadyActors: seq<HeatmapReadyActor?>
    /** The actor painted on last, tried first for the next point. */
    var lastActorPaintedOn: HeatmapReadyActor?
    /** The timer handles created so far; handle i paints point i when set. */
    var timerHandleCount: nat
    var timers: map<nat, Timer>

    ghost predicate Valid()
      reads this
    {
      WellFormed(metrics)
    }

    ghost function Pool(): set<HeatmapReadyActor>
      reads this
    {
      ActorObjects(heatmapReadyActors) + CacheObjects(lastActorPaintedOn)
    }

    constructor ()
      ensures Valid()
      ensures loaded == [] && metrics == EmptyTable && heatmapReadyActors == []
      ensures lastActorPaintedOn == null && timerHandleCount == 0 && timers == map[]
    {
      loaded := [];
      metrics := EmptyTable;
      heatmapReadyActors := [];
      lastActorPaintedOn := null;
      timerHandleCount := 0;
      timers := map[];
    }

    /** Rebuilds the metrics table from the loaded recording in one pass: it
        is exactly the fold of the counted sessions (see `AllKept`), each
        carrying its position among them as its sequence index. The
        object-name map is an engine map, so an object name finds the entry
        whose key it equals ignoring case (`FoldKeysLookup`). */
    method CalculateAttentionMetrics(names: map<string, string>, threshold: real)
      requires CaseDistinctKeys(names)
      modifies this`metrics
      ensures metrics == Tabulate(AllKept(loaded, FoldKeys(names), threshold))
      ensures Valid()
    {
      AggregateSessions(FoldKeys(names), threshold);
    }

    /** The pass of `CalculateAttentionMetrics` over a map keyed by folded
        object names. */
    method AggregateSessions(names: map<string, string>, threshold: real)
      modifies this`metrics
      ensures metrics == Tabulate(AllKept(loaded, names, threshold))
      ensures Valid()
    {
      metrics := EmptyTable;
      var index := 0;
      var current := 0.0;
      var first := 0.0;
      var previous := -1;  // position of the previous sample; -1 while there is none

      if |loaded| == 0 {
        TabulateWellFormed([]);
        return;
      }

      var i := 0;
      while i < |loaded|
        invariant 0 <= i <= |loaded|
        invariant previous == i - 1
        invariant i == 0 ==> metrics == EmptyTable && index == 0 && current == 0.0
        invariant i > 0 ==> OpenSession(loaded[..i], names, threshold, current, first, metrics, index)
      {
        var dp := loaded[i];
        if previous < 0 {
          FirstStep(loaded, names, threshold);
          previous := i;
          first := dp.time;
          i := i + 1;
          continue;
        }

        if dp.NameKey() == loaded[previous].NameKey() {
          SameStep(loaded, i, names, threshold, current, first, metrics, index);
          current := current + (dp.time - loaded[previous].time);
          assert OpenSession(loaded[..i + 1], names, threshold, current, first, metrics, index);
          previous := i;
          i := i + 1;
          continue;
        }

        CloseStep(loaded, i, names, threshold, current, first, metrics, index);
        ghost var closed := Closed(loaded[..i], names, threshold);
        var firstToStore := first;
        first := dp.time;
        var currentToStore := current;
        current := 0.0;

        if currentToStore < threshold {
          assert Closed(loaded[..i + 1], names, threshold) == closed;
          previous := i;
          i := i + 1;
          continue;
        }

        var objectName := loaded[previous].NameKey();
        if objectName !in names {
          assert Closed(loaded[..i + 1], names, threshold) == closed;
          previous := i;
          i := i + 1;
          continue;
        }

        var metricsName := names[objectName];
        ghost var counted := Attention(metricsName, firstToStore, currentToStore);
        assert Closed(loaded[..i + 1], names, threshold) == closed + [counted];
        TabulateSnoc(closed, counted);
        StoreSession(metricsName, firstToStore, currentToStore, index);
        assert metrics == Tabulate(Closed(loaded[..i + 1], names, threshold));
        index := index + 1;
        previous := i;
        i := i + 1;
      }

      // The open session is folded in last, without a threshold check.
      assert loaded[..i] == loaded;
      ghost var closed := Closed(loaded, names, threshold);
      assert metrics == Tabulate(closed) && index == |closed|;
      FinalStep(loaded, names, threshold, current, first, metrics, index);
      TabulateWellFormed(AllKept(loaded, names, threshold));
      var currentToStore := current;
      var objectName := loaded[previous].NameKey();
      if objectName !in names {
        assert AllKept(loaded, names, threshold) == closed;
        return;
      }
      var metricsName := names[objectName];
      assert AllKept(loaded, names, threshold) == closed + [Attention(metricsName, first, currentToStore)];
      TabulateSnoc(closed, Attention(metricsName, first, currentToStore));
      StoreSession(metricsName, first, currentToStore, index);
    }

    /** Folds one counted session into the table: a new metrics name gets a
        fresh entry, a known one (compared ignoring case) is extended and its
        average recomputed over the new number of indices. */
    method StoreSession(metricsName: string, start: real, duration: real, index: int)
      modifies this`metrics
      ensures metrics == AddSession(old(metrics), Attention(metricsName, start, duration), index)
    {
      if Fold(metricsName) !in metrics.entries {
        metrics := Table(metrics.keys + [metricsName],
                         metrics.entries[Fold(metricsName) := Entry(duration, duration, start, 1, [index])]);
        return;
      }
      var entry := metrics.entries[Fold(metricsName)];
      var indices := entry.indices + [index];
      var total := entry.total + duration;
      metrics := Table(metrics.keys, metrics.entries[Fold(metricsName) :=
                   Entry(total, total / |indices| as real, entry.firstAttentionAfter, entry.timesFocussed + 1, indices)]);
    }

    /** Reorders the table by the key of `mode` in the direction asked for:
        the same entries, its rows a permutation of the old ones that the
        comparator never finds out of order. The `Max` marker's comparator
        orders nothing, so for it only the permutation is promised. */
    method SortAttentionMetrics(mode: SortMode, ascending: bool)
      requires Valid()
      modifies this`metrics
      ensures Valid()
      ensures metrics.entries == old(metrics.entries)
      ensures multiset(RowsOf(metrics)) == multiset(RowsOf(old(metrics)))
      ensures mode != Max ==> SortedBy(mode, ascending, RowsOf(metrics))
    {
      var rows := RowsOf(metrics);
      var sorted := SortRows(rows, mode, ascending);
      ghost var before := metrics;
      metrics := EmptyTable;
      var i := 0;
      while i < |sorted|
        invariant 0 <= i <= |sorted|
        invariant metrics == Refill(sorted[..i])
      {
        assert sorted[..i + 1][..i] == sorted[..i];
        metrics := Table(metrics.keys + [sorted[i].key], metrics.entries[Fold(sorted[i].key) := sorted[i].entry]);
        i := i + 1;
      }
      assert sorted[..i] == sorted;
      RefillPermutation(before, sorted);
    }

    /** Paints one data point: on the cached actor when its name matches the
        point's object, else on the first listed actor with that name, which
        becomes the cached one. Without a matching actor, or without a world
        context, nothing changes. */
    method PaintHeatmapDataPoint(dp: DataPoint, hasWorldContext: bool)
      modifies this`lastActorPaintedOn, Pool()
      ensures var target := PaintTarget(old(lastActorPaintedOn), heatmapReadyActors, dp.objectName);
              && (target == null || !hasWorldContext ==> lastActorPaintedOn == old(lastActorPaintedOn))
              && (target != null && hasWorldContext ==>
                    lastActorPaintedOn == target && target.State() == PaintedOnce(target, old(target.State()), dp))
              && (forall a :: a in old(Pool()) && (a != target || !hasWorldContext) ==> unchanged(a))
    {
      if !hasWorldContext {
        return;
      }
      if lastActorPaintedOn != null && SameName(dp.objectName, lastActorPaintedOn.name) {
        lastActorPaintedOn.ScalePaintBrush(dp.scaleDivisor);
        lastActorPaintedOn.PaintHeatmap(dp.coordinates);
        return;
      }
      var i := 0;
      while i < |heatmapReadyActors|
        invariant 0 <= i <= |heatmapReadyActors|
        invariant FirstNamedFrom(heatmapReadyActors, dp.objectName, i) == FirstNamedFrom(heatmapReadyActors, dp.objectName, 0)
        invariant lastActorPaintedOn == old(lastActorPaintedOn)
        invariant forall a :: a in old(Pool()) ==> unchanged(a)
      {
        var actor := heatmapReadyActors[i];
        if actor == null || !SameName(dp.objectName, actor.name) {
          i := i + 1;
          continue;
        }
        lastActorPaintedOn := actor;
        actor.ScalePaintBrush(dp.scaleDivisor);
        actor.PaintHeatmap(dp.coordinates);
        return;
      }
    }

    /** Paints the loaded recording. Without a world context or a world, or
        with nothing loaded, nothing changes. Otherwise the actor list is
        rebuilt from the world's actors; painting immediately paints every
        point in order through the cache, while painting deferred sets timer
        i to paint point i after the point's recorded time. Either way the
        cache is cleared at the end. */
    method PaintLoadedHeatmap(hasWorldContext: bool, hasWorld: bool, worldActors: seq<HeatmapReadyActor?>,
                              loadImmediately: bool)
      modifies this`heatmapReadyActors, this`lastActorPaintedOn, this`timers, this`timerHandleCount
      modifies ActorObjects(worldActors) + CacheObjects(lastActorPaintedOn)
      ensures !hasWorldContext || !hasWorld || |loaded| == 0 ==>
                && heatmapReadyActors == old(heatmapReadyActors) && lastActorPaintedOn == old(lastActorPaintedOn)
                && timers == old(timers) && timerHandleCount == old(timerHandleCount)
                && (forall a :: a in ActorObjects(worldActors) + CacheObjects(old(lastActorPaintedOn)) ==> unchanged(a))
      ensures hasWorldContext && hasWorld && |loaded| > 0 ==>
                && heatmapReadyActors == worldActors && lastActorPaintedOn == null
                && (loadImmediately ==>
                      && timers == old(timers) && timerHandleCount == old(timerHandleCount)
                      && forall a :: a in ActorObjects(worldActors) + CacheObjects(old(lastActorPaintedOn)) ==>
                           a.State() == PaintedAll(a, old(a.State()), old(lastActorPaintedOn), worldActors, loaded))
                && (!loadImmediately ==>
                      && timerHandleCount == old(timerHandleCount) + |loaded|
                      && timers == Scheduled(old(timers), loaded)
                      && forall a :: a in ActorObjects(worldActors) + CacheObjects(old(lastActorPaintedOn)) ==> unchanged(a))
    {
      if !hasWorldContext || !hasWorld || |loaded| == 0 {
        return;
      }
      heatmapReadyActors := worldActors;
      // The engine tests the flag inside its loop over the points; the flag
      // is the same on every iteration, so the two loops below are that loop.
      if loadImmediately {
        PaintAllNow();
      } else {
        ScheduleAll();
      }
      lastActorPaintedOn := null;
    }

    /** Paints every loaded point in order through the cache: each actor of
        the pool ends in the state `PaintedAll` gives it, which
        `PaintedAllMeans` spells out. */
    method PaintAllNow()
      modifies this`lastActorPaintedOn, Pool()
      ensures lastActorPaintedOn == CacheAfter(old(lastActorPaintedOn), heatmapReadyActors, loaded)
      ensures forall a :: a in old(Pool()) ==>
                a.State() == PaintedAll(a, old(a.State()), old(lastActorPaintedOn), heatmapReadyActors, loaded)
    {
      ghost var pool := Pool();
      ghost var cache0 := lastActorPaintedOn;
      var i := 0;
      while i < |loaded|
        invariant 0 <= i <= |loaded|
        invariant lastActorPaintedOn == CacheAfter(cache0, heatmapReadyActors, loaded[..i])
        invariant lastActorPaintedOn == null || lastActorPaintedOn in pool
        invariant forall a :: a in pool ==> a.State() == PaintedAll(a, old(a.State()), cache0, heatmapReadyActors, loaded[..i])
      {
        PaintStep(cache0, heatmapReadyActors, loaded, i);
        PaintHeatmapDataPoint(loaded[i], true);
        i := i + 1;
      }
      assert loaded[..i] == loaded;
    }

    /** Sets timer i to paint loaded point i after the point's recorded time,
        creating one more timer handle per point; a point at time 0 or before
        leaves timer i cleared. */
    method ScheduleAll()
      modifies this`timers, this`timerHandleCount
      ensures timerHandleCount == old(timerHandleCount) + |loaded|
      ensures timers == Scheduled(old(timers), loaded)
    {
      var i := 0;
      while i < |loaded|
        invariant 0 <= i <= |loaded|
        invariant timerHandleCount == old(timerHandleCount) + i
        invariant timers == Scheduled(old(timers), loaded[..i])
      {
        assert loaded[..i + 1][..i] == loaded[..i];
        timerHandleCount := timerHandleCount + 1;
        if loaded[i].time > 0.0 {
          timers := timers[i := Timer(loaded[i].time, i)];
        } else {
          timers := timers - {i};
        }
        i := i + 1;
      }
      assert loaded[..i] == loaded;
    }

    /** Loads a recording: the loaded data is replaced by what the file reads
        as (nothing when the read fails), and only a successful read goes on
        to build the metrics-name map and recompute the metrics table. */
    method LoadHeatmap(file: FileContents, hasWorldContext: bool, worldActors: seq<HeatmapReadyActor?>,
                       threshold: real)
      requires Valid()
      modifies this`loaded, this`metrics
      ensures Valid()
      ensures HoldsArray(file) ==> loaded == DecodePoints(Deserialized(file).value.items)
      ensures !HoldsArray(file) ==> loaded == [] && metrics == old(metrics)
      ensures HoldsArray(file) ==>
                metrics == Tabulate(AllKept(loaded, LoadNames(hasWorldContext, worldActors), threshold))
    {
      var success;
      loaded, success := ReadAttentionTrackingData(file);
      if !success {
        return;
      }
      var names := GetMetricsNames(hasWorldContext, worldActors, map[]);
      NameMapFolded(worldActors);
      FoldKeysOfFolded(names);
      CalculateAttentionMetrics(names, threshold);
    }
  }

  /** The counted sessions among those a non-empty prefix `s` has closed. */
  ghost function Closed(s: seq<DataPoint>, names: map<string, string>, threshold: real): seq<Attention>
    requires |s| > 0
  {
    var rs := Sessions(s);
    Kept(rs[..|rs| - 1], names, threshold)
  }

  /** The loop state of the aggregation after reading the non-empty prefix
      `s`: the accumulators describe the open (last) session, and the table
      and the next index describe the sessions closed so far. */
  ghost predicate OpenSession(s: seq<DataPoint>, names: map<string, string>, threshold: real,
                              current: real, first: real, table: Table, index: int)
    requires |s| > 0
  {
    var rs := Sessions(s);
    current == GapSum(rs[|rs| - 1]) && first == rs[|rs| - 1][0].time &&
    table == Tabulate(Closed(s, names, threshold)) && index == |Closed(s, names, threshold)|
  }

  lemma TabulateSnoc(atts: seq<Attention>, a: Attention)
    ensures Tabulate(atts + [a]) == AddSession(Tabulate(atts), a, |atts|)
  {
    assert (atts + [a])[..|atts|] == atts;
  }

  /** The first sample opens a session of length zero and closes none. */
  lemma FirstStep(s: seq<DataPoint>, names: map<string, string>, threshold: real)
    requires |s| > 0
    ensures OpenSession(s[..1], names, threshold, 0.0, s[0].time, EmptyTable, 0)
  {
    FirstSampleStep(s);
  }

  /** A sample on the previous sample's object extends the open session by
      the time between the two. */
  lemma SameStep(s: seq<DataPoint>, i: int, names: map<string, string>, threshold: real,
                 current: real, first: real, table: Table, index: int)
    requires 0 < i < |s| && s[i].NameKey() == s[i - 1].NameKey()
    requires OpenSession(s[..i], names, threshold, current, first, table, index)
    ensures OpenSession(s[..i + 1], names, threshold, current + (s[i].time - s[i - 1].time), first, table, index)
  {
    SameObjectStep(s, i);
  }

  /** A sample on another object closes the open session, which is counted
      when it lasted at least the threshold and its object (the previous
      sample's) has a metrics name, and opens a session at the new sample. */
  lemma CloseStep(s: seq<DataPoint>, i: int, names: map<string, string>, threshold: real,
                  current: real, first: real, table: Table, index: int)
    requires 0 < i < |s| && s[i].NameKey() != s[i - 1].NameKey()
    requires OpenSession(s[..i], names, threshold, current, first, table, index)
    ensures current < threshold || s[i - 1].NameKey() !in names ==>
              Closed(s[..i + 1], names, threshold) == Closed(s[..i], names, threshold)
    ensures current >= threshold && s[i - 1].NameKey() in names ==>
              Closed(s[..i + 1], names, threshold) ==
                Closed(s[..i], names, threshold) + [Attention(names[s[i - 1].NameKey()], first, current)]
    ensures OpenSession(s[..i + 1], names, threshold, 0.0, s[i].time,
                        Tabulate(Closed(s[..i + 1], names, threshold)), |Closed(s[..i + 1], names, threshold)|)
  {
    NewObjectStep(s, i);
    var rs := Sessions(s[..i]);
    assert (rs + [[s[i]]])[..|rs|] == rs;
  }

  /** After the last sample, every counted session is a closed one or the
      open one, which counts whenever its object has a metrics name. */
  lemma FinalStep(s: seq<DataPoint>, names: map<string, string>, threshold: real,
                  current: real, first: real, table: Table, index: int)
    requires |s| > 0
    requires OpenSession(s, names, threshold, current, first, table, index)
    ensures s[|s| - 1].NameKey() !in names ==> AllKept(s, names, threshold) == Closed(s, names, threshold)
    ensures s[|s| - 1].NameKey() in names ==>
              AllKept(s, names, threshold) ==
                Closed(s, names, threshold) + [Attention(names[s[|s| - 1].NameKey()], first, current)]
  {
    SessionsOnOneObject(s);
    var rs := Sessions(s);
    assert OnOneObject(rs[|rs| - 1]);
  }
}
