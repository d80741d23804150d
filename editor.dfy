/**
 * The editor module of EyeTrackingUtilityEditor.cpp: the handler that runs
 * when actors are dropped into the level (a broadcast per static mesh, and
 * the renumbering of all waypoints when a waypoint is dropped) and the
 * config reset on engine exit. The level's actor list and the availability
 * of the editor's actor subsystem are inputs.
 */
module EditorModule {
  import opened HeatmapTypes
  import opened JsonCodec

  /** A waypoint actor; its index orders the waypoints of a level. */
  class Waypoint {
    var index: int

    constructor (index: int)
      ensures this.index == index
    {
      this.index := index;
    }
  }

  /** The actors the handler tells apart: static-mesh actors (with an id for
      their mesh component), waypoints, and everything else. */
  datatype LevelActor = StaticMeshActor(component: nat) | WaypointActor(waypoint: Waypoint) | OtherActor

  /** What the handler broadcasts to its listeners. */
  datatype Broadcast = StaticMeshAdded(component: nat) | WaypointAdded(waypoint: Waypoint)

  /** The waypoints among `actors`, in list order. */
  function WaypointsOf(actors: seq<LevelActor>): (ws: seq<Waypoint>)
    ensures |ws| <= |actors|
    ensures forall i :: 0 <= i < |ws| ==> WaypointActor(ws[i]) in actors
    ensures forall i :: 0 <= i < |actors| && actors[i].WaypointActor? ==> actors[i].waypoint in ws
  {
    if |actors| == 0 then []
    else
      var ws := WaypointsOf(actors[..|actors| - 1]);
      assert actors == actors[..|actors| - 1] + [actors[|actors| - 1]];
      match actors[|actors| - 1]
      case WaypointActor(w) => ws + [w]
      case _ => ws
  }

  ghost function WaypointSet(actors: seq<LevelActor>): set<Waypoint>
  {
    set a | a in actors && a.WaypointActor? :: a.waypoint
  }

  /** The engine lists every level actor once, so no waypoint occurs twice. */
  ghost predicate DistinctWaypoints(ws: seq<Waypoint>)
  {
    forall j, k :: 0 <= j < k < |ws| ==> ws[j] != ws[k]
  }

  ghost predicate DistinctActors(actors: seq<LevelActor>)
  {
    DistinctWaypoints(WaypointsOf(actors))
  }

  /** Waypoints listed in ascending index order. */
  ghost predicate SortedByIndex(ws: seq<Waypoint>)
    reads set w | w in ws
  {
    forall j, k :: 0 <= j < k < |ws| ==> ws[j].index <= ws[k].index
  }

  /** Collects the level's waypoints, skipping every other actor. */
  method CollectWaypoints(level: seq<LevelActor>) returns (ws: seq<Waypoint>)
    ensures ws == WaypointsOf(level)
  {
    ws := [];
    var i := 0;
    while i < |level|
      invariant 0 <= i <= |level|
      invariant ws == WaypointsOf(level[..i])
    {
      assert level[..i + 1][..i] == level[..i];
      if level[i].WaypointActor? {
        ws := ws + [level[i].waypoint];
      }
      i := i + 1;
    }
    assert level[..i] == level;
  }

  /** Inserts `w` into an index-ordered list after every waypoint whose
      index is not larger. */
  method InsertByIndex(sorted: seq<Waypoint>, w: Waypoint) returns (r: seq<Waypoint>)
    requires SortedByIndex(sorted)
    ensures multiset(r) == multiset(sorted) + multiset{w}
    ensures SortedByIndex(r)
  {
    var j := 0;
    while j < |sorted| && sorted[j].index <= w.index
      invariant 0 <= j <= |sorted|
      invariant forall k :: 0 <= k < j ==> sorted[k].index <= w.index
    {
      j := j + 1;
    }
    InsertKeepsOrder(sorted, w, j);
    r := sorted[..j] + [w] + sorted[j..];
    assert sorted == sorted[..j] + sorted[j..];
  }

  lemma InsertKeepsOrder(sorted: seq<Waypoint>, w: Waypoint, j: nat)
    requires SortedByIndex(sorted) && j <= |sorted|
    requires forall k :: 0 <= k < j ==> sorted[k].index <= w.index
    requires j < |sorted| ==> w.index <= sorted[j].index
    ensures SortedByIndex(sorted[..j] + [w] + sorted[j..])
  {
    var r := sorted[..j] + [w] + sorted[j..];
    assert forall k :: 0 <= k < |r| ==> r[k] == if k < j then sorted[k] else if k == j then w else sorted[k - 1];
  }

  /** Puts `ws` into ascending index order by insertion; indices are only read. */
  method SortByIndex(ws: seq<Waypoint>) returns (sorted: seq<Waypoint>)
    ensures multiset(sorted) == multiset(ws)
    ensures SortedByIndex(sorted)
  {
    sorted := [];
    var i := 0;
    while i < |ws|
      invariant 0 <= i <= |ws|
      invariant multiset(sorted) == multiset(ws[..i])
      invariant SortedByIndex(sorted)
    {
      sorted := InsertByIndex(sorted, ws[i]);
      assert ws[..i + 1] == ws[..i] + [ws[i]];
      i := i + 1;
    }
    assert ws[..i] == ws;
  }

  /** Gives the waypoint at position k of `ws` the index k. */
  method NumberInOrder(ws: seq<Waypoint>)
    requires DistinctWaypoints(ws)
    modifies set w | w in ws
    ensures forall k :: 0 <= k < |ws| ==> ws[k].index == k
  {
    var i := 0;
    while i < |ws|
      invariant 0 <= i <= |ws|
      invariant forall k :: 0 <= k < i ==> ws[k].index == k
    {
      ws[i].index := i;
      i := i + 1;
    }
  }

  /** Renumbers the level's waypoints for a newly dropped waypoint: the
      level's waypoints are ordered by their current index, the one at
      position k gets index k, and the dropped waypoint gets the count of
      level waypoints. When the level already lists the dropped waypoint,
      that last write replaces the number its position gave it, so the
      indices in use are 0 to the count except the dropped one's position. */
  method RenumberWaypoints(level: seq<LevelActor>, dropped: Waypoint) returns (sorted: seq<Waypoint>)
    requires DistinctActors(level)
    modifies WaypointSet(level), dropped
    ensures forall k :: 0 <= k < |sorted| ==> WaypointActor(sorted[k]) in level
    ensures multiset(sorted) == multiset(WaypointsOf(level))
    ensures forall j, k :: 0 <= j < k < |sorted| ==> old(sorted[j].index) <= old(sorted[k].index)
    ensures forall k :: 0 <= k < |sorted| && sorted[k] != dropped ==> sorted[k].index == k
    ensures dropped.index == |sorted|
    ensures dropped in sorted ==>
              forall j :: 0 <= j <= |sorted| ==>
                ((exists k :: 0 <= k < |sorted| && sorted[k].index == j) <==> j == |sorted| || sorted[j] != dropped)
  {
    var existing := CollectWaypoints(level);
    sorted := SortByIndex(existing);
    assert forall k :: 0 <= k < |sorted| ==> WaypointActor(sorted[k]) in level by {
      forall k | 0 <= k < |sorted|
        ensures WaypointActor(sorted[k]) in level
      {
        assert sorted[k] in multiset(existing);
      }
    }
    assert (set w | w in sorted) <= WaypointSet(level) by {
      forall w | w in sorted
        ensures w in WaypointSet(level)
      {
        assert WaypointActor(w) in level;
      }
    }
    DistinctPermutation(existing, sorted);
    NumberInOrder(sorted);
    dropped.index := |sorted|;
    forall j | 0 <= j <= |sorted| && dropped in sorted
      ensures (exists k :: 0 <= k < |sorted| && sorted[k].index == j) <==> j == |sorted| || sorted[j] != dropped
    {
      if j == |sorted| {
        var k :| 0 <= k < |sorted| && sorted[k] == dropped;
        assert sorted[k].index == j;
      } else if sorted[j] != dropped {
        assert sorted[j].index == j;
      }
    }
  }

  /** A permutation of a list without repeats has no repeats. */
  lemma DistinctPermutation(a: seq<Waypoint>, b: seq<Waypoint>)
    requires DistinctWaypoints(a) && multiset(a) == multiset(b)
    ensures DistinctWaypoints(b)
  {
    forall j, k | 0 <= j < k < |b|
      ensures b[j] != b[k]
    {
      if b[j] == b[k] {
        assert multiset(b)[b[j]] >= 2 by {
          assert b == b[..j] + [b[j]] + b[j + 1..k] + [b[k]] + b[k + 1..];
        }
        CountOnce(a, b[j]);
        assert false;
      }
    }
  }

  lemma {:induction false} CountOnce(a: seq<Waypoint>, w: Waypoint)
    requires DistinctWaypoints(a)
    ensures multiset(a)[w] <= 1
    decreases |a|
  {
    if |a| > 0 {
      var t := a[..|a| - 1];
      assert a == t + [a[|a| - 1]];
      CountOnce(t, w);
      if w == a[|a| - 1] {
        assert w !in t;
      }
    }
  }

  /** What one dropped actor broadcasts when it is handled. */
  function BroadcastOf(a: LevelActor): seq<Broadcast>
  {
    match a
    case StaticMeshActor(c) => [StaticMeshAdded(c)]
    case WaypointActor(w) => [WaypointAdded(w)]
    case OtherActor => []
  }

  /** Whether handling `a` ends the handler: a waypoint met without an actor
      subsystem. */
  predicate Stops(a: LevelActor, subsystemAvailable: bool)
  {
    a.WaypointActor? && !subsystemAvailable
  }

  /** The position of the first actor that ends the handler, or the length of
      the list when none does. */
  function StopAt(created: seq<LevelActor>, subsystemAvailable: bool): (n: nat)
    ensures n <= |created|
    ensures forall k :: 0 <= k < n ==> !Stops(created[k], subsystemAvailable)
    ensures n < |created| ==> Stops(created[n], subsystemAvailable)
    decreases |created|
  {
    if |created| == 0 || Stops(created[0], subsystemAvailable) then 0
    else 1 + StopAt(created[1..], subsystemAvailable)
  }

  /** The broadcasts of handling all of `handled`, in order. */
  function Emitted(handled: seq<LevelActor>): seq<Broadcast>
  {
    if |handled| == 0 then [] else Emitted(handled[..|handled| - 1]) + BroadcastOf(handled[|handled| - 1])
  }

  /** Handles dropped actors in their order: broadcasts each static mesh,
      and for each waypoint renumbers the level's waypoints and broadcasts it;
      the first waypoint met without an actor subsystem ends the handler, so
      only the actors before it are broadcast. */
  method OnNewActorsDropped(created: seq<LevelActor>, level: seq<LevelActor>, subsystemAvailable: bool)
    returns (events: seq<Broadcast>)
    requires DistinctActors(level)
    modifies WaypointSet(level), WaypointSet(created)
    ensures events == Emitted(created[..StopAt(created, subsystemAvailable)])
    ensures !subsystemAvailable ==>
              forall w :: w in WaypointSet(level) + WaypointSet(created) ==> w.index == old(w.index)
  {
    events := [];
    var i := 0;
    while i < |created|
      invariant 0 <= i <= |created|
      invariant forall k :: 0 <= k < i ==> !Stops(created[k], subsystemAvailable)
      invariant events == Emitted(created[..i])
      invariant !subsystemAvailable ==>
                  forall w :: w in WaypointSet(level) + WaypointSet(created) ==> w.index == old(w.index)
    {
      var a := created[i];
      if a.WaypointActor? {
        if !subsystemAvailable {
          return;
        }
        assert a in created;
        var _ := RenumberWaypoints(level, a.waypoint);
      }
      assert created[..i + 1][..i] == created[..i];
      events := events + BroadcastOf(a);
      i := i + 1;
    }
    assert created[..i] == created;
  }

  /** Every broadcast names a static mesh or a waypoint among the handled
      actors; actors of other kinds never produce one. */
  lemma {:induction false} EmittedComesFromHandled(handled: seq<LevelActor>)
    ensures forall b :: b in Emitted(handled) ==>
              (b.StaticMeshAdded? ==> StaticMeshActor(b.component) in handled) &&
              (b.WaypointAdded? ==> WaypointActor(b.waypoint) in handled)
    decreases |handled|
  {
    if |handled| > 0 {
      var front := handled[..|handled| - 1];
      EmittedComesFromHandled(front);
      assert handled == front + [handled[|handled| - 1]];
    }
  }

  /** How many of the handled actors are neither static meshes nor waypoints:
      none exactly when every actor is one of the two, all exactly when no
      actor is. */
  function Others(handled: seq<LevelActor>): (n: nat)
    ensures n <= |handled|
    ensures n == 0 <==> forall k :: 0 <= k < |handled| ==> !handled[k].OtherActor?
    ensures n == |handled| <==> forall k :: 0 <= k < |handled| ==> handled[k].OtherActor?
    decreases |handled|
  {
    if |handled| == 0 then 0
    else Others(handled[..|handled| - 1]) + (if handled[|handled| - 1].OtherActor? then 1 else 0)
  }

  /** Every static mesh and every waypoint handled is broadcast once; other
      actors are skipped. */
  lemma {:induction false} EmittedCount(handled: seq<LevelActor>)
    ensures |Emitted(handled)| == |handled| - Others(handled)
    decreases |handled|
  {
    if |handled| > 0 {
      EmittedCount(handled[..|handled| - 1]);
    }
  }

  /** With an actor subsystem the handler goes through every dropped actor. */
  lemma WithSubsystemAllHandled(created: seq<LevelActor>)
    ensures StopAt(created, true) == |created|
    ensures |Emitted(created[..StopAt(created, true)])| == |created| - Others(created)
  {
    assert created[..|created|] == created;
    EmittedCount(created);
  }

  /** Without waypoints among the handled actors only static meshes are
      broadcast. */
  lemma {:induction false} EmittedWithoutWaypoints(handled: seq<LevelActor>)
    requires forall k :: 0 <= k < |handled| ==> !handled[k].WaypointActor?
    ensures forall b :: b in Emitted(handled) ==> b.StaticMeshAdded?
    decreases |handled|
  {
    if |handled| > 0 {
      EmittedWithoutWaypoints(handled[..|handled| - 1]);
    }
  }

  /** Without an actor subsystem no waypoint is broadcast, and nothing from
      the first dropped waypoint on. */
  lemma NoSubsystemNoWaypointBroadcast(created: seq<LevelActor>)
    ensures forall b :: b in Emitted(created[..StopAt(created, false)]) ==> b.StaticMeshAdded?
    ensures forall k :: 0 <= k < StopAt(created, false) ==> !created[k].WaypointActor?
  {
    var n := StopAt(created, false);
    assert forall k :: 0 <= k < n ==> !created[..n][k].WaypointActor?;
    EmittedWithoutWaypoints(created[..n]);
  }

  /** The config written when the engine exits: heatmap hidden, textures shown. */
  const ResetConfig := ConfigData(0.0, 1.0)

  /** Writes the reset config; reading the written file back gives the reset
      values with success, and the write reports what the file write did. */
  function ResetMaterialParameters(writeSucceeds: bool): (r: (JValue, bool))
    ensures r.1 == writeSucceeds
    ensures ReadConfigData(Text(Some(r.0))) == (ConfigData(0.0, 1.0), true)
  {
    WriteConfigData(ResetConfig, writeSucceeds)
  }
}
