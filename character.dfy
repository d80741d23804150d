/**
 * The recording side of EyeTrackingCharacter.cpp: the tracking switch, the
 * per-frame recording of one gaze sample, the paint-brush scale divisor
 * derived from the hit mesh, and the focus highlight used while not
 * recording. The line trace and the UV lookup of the engine are inputs.
 */
module EyeTrackingCharacterModel {
  import opened HeatmapTypes
  import opened HeatmapReadyActors
  import opened AdditionalUtility

  /** The outcome of the gaze line trace: nothing hit, an actor that cannot
      carry a heatmap, or a heatmap actor together with the UV lookup's result
      (None when the lookup fails) and the surface normal at the hit. */
  datatype Trace = Miss | HitOther | HitHeatmap(actor: HeatmapReadyActor, uv: Option<Vec2>, normal: Vec3)

  /** The latest time a sample can carry. */
  const MaxRecordedTime: real := 1024.0

  function Clamp(x: real, lo: real, hi: real): (r: real)
    requires lo <= hi
    ensures lo <= r <= hi
    ensures lo <= x <= hi ==> r == x
    ensures x < lo ==> r == lo
    ensures x > hi ==> r == hi
  {
    if x < lo then lo else if x > hi then hi else x
  }

  function AbsReal(x: real): real
  {
    if x < 0.0 then -x else x
  }

  function Dot(a: Vec3, b: Vec3): real
  {
    a.x * b.x + a.y * b.y + a.z * b.z
  }

  /** The mesh's scale along each axis: the component scale times the
      largest local-bound maximum in units of 100. */
  function MeshScale(m: MeshGeometry): Vec3
  {
    var longest := Max3(m.localMax.x, m.localMax.y, m.localMax.z) / 100.0;
    Vec3(m.componentScale.x * longest, m.componentScale.y * longest, m.componentScale.z * longest)
  }

  /** Whether the hit face looks along the actor's forward axis: the normal's
      alignment with forward is at least its alignment with right and up. */
  predicate FacesForward(a: HeatmapReadyActor, normal: Vec3)
  {
    var f := AbsReal(Dot(normal, a.forward));
    f >= AbsReal(Dot(normal, a.right)) && f >= AbsReal(Dot(normal, a.up))
  }

  /** The divisor the brush is scaled by for a hit with surface normal
      `normal`: (1, 1) without a static mesh, otherwise two of the mesh's
      scaled axes chosen by the axis the normal is most aligned with (forward
      winning ties). The right and up cases choose the same pair, and the
      last branch, which no normal reaches, returns (1, 1). */
  function CalculateScaleDivisor(a: HeatmapReadyActor, normal: Vec3): (r: Vec2)
    ensures a.mesh.None? ==> r == Vec2(1.0, 1.0)
    ensures a.mesh.Some? && FacesForward(a, normal) ==>
              r == Vec2(MeshScale(a.mesh.value).y, MeshScale(a.mesh.value).z)
    ensures a.mesh.Some? && !FacesForward(a, normal) ==>
              r == Vec2(MeshScale(a.mesh.value).x, MeshScale(a.mesh.value).y)
  {
    if a.mesh.None? then Vec2(1.0, 1.0)
    else
      var s := MeshScale(a.mesh.value);
      var f := AbsReal(Dot(normal, a.forward));
      var r := AbsReal(Dot(normal, a.right));
      var u := AbsReal(Dot(normal, a.up));
      if f >= r && f >= u then Vec2(s.y, s.z)
      else if r >= f && r >= u then Vec2(s.x, s.y)
      else if u >= f && u >= r then Vec2(s.x, s.y)
      else Vec2(1.0, 1.0)
  }

  /** The sample a successful recording appends: the clamped time since
      tracking started, the hit actor's name, the UV and the divisor. */
  function Sample(elapsed: real, a: HeatmapReadyActor, uv: Vec2, normal: Vec3): DataPoint
  {
    DataPoint(Clamp(elapsed, 0.0, MaxRecordedTime), a.name, uv, CalculateScaleDivisor(a, normal))
  }

  /** Whether a recording attempt with these inputs appends a sample. */
  predicate Records(isTracking: bool, hasCamera: bool, trace: Trace)
  {
    isTracking && hasCamera && trace.HitHeatmap? && trace.uv.Some?
  }

  class EyeTrackingCharacter {
    var isTracking: bool
    var trackingStartTime: real
    var currentTimeStep: real
    /** The samples recorded since tracking was last switched on. */
    var heatmapData: seq<DataPoint>
    var lastActorFocussed: HeatmapReadyActor?

    /** Every recorded sample carries a time within [0, 1024]. */
    ghost predicate Valid()
      reads this
    {
      forall i :: 0 <= i < |heatmapData| ==> 0.0 <= heatmapData[i].time <= MaxRecordedTime
    }

    constructor ()
      ensures Valid()
      ensures !isTracking && heatmapData == [] && lastActorFocussed == null
    {
      isTracking := false;
      trackingStartTime := 0.0;
      currentTimeStep := 0.0;
      heatmapData := [];
      lastActorFocussed := null;
    }

    /** Toggles tracking at time `now`: switching on clears the recorded
        samples, switching off keeps them, and either way the start time is
        reset to `now`. */
    method SetEyeTrackingState(now: real)
      requires Valid()
      modifies this`isTracking, this`heatmapData, this`trackingStartTime
      ensures Valid()
      ensures isTracking == !old(isTracking) && trackingStartTime == now
      ensures heatmapData == if isTracking then [] else old(heatmapData)
    {
      isTracking := !isTracking;
      if isTracking {
        heatmapData := [];
      }
      trackingStartTime := now;
    }

    /** One recording attempt at time `now`. Without tracking or a camera
        nothing happens. Otherwise the focus highlight is switched off, and a
        trace that hits a heatmap actor sets the current time step; when the
        UV lookup also succeeds the actor is painted and exactly one sample
        is appended, earlier samples untouched. */
    method PaintHeatmap(now: real, hasCamera: bool, trace: Trace)
      requires Valid()
      modifies this`heatmapData, this`currentTimeStep
      modifies (if lastActorFocussed == null then {} else {lastActorFocussed}),
               (if trace.HitHeatmap? then {trace.actor} else {})
      ensures Valid()
      ensures Records(isTracking, hasCamera, trace) ==>
                heatmapData == old(heatmapData) + [Sample(now - trackingStartTime, trace.actor, trace.uv.value, trace.normal)]
      ensures !Records(isTracking, hasCamera, trace) ==> heatmapData == old(heatmapData)
      ensures isTracking && hasCamera && trace.HitHeatmap? ==> currentTimeStep == now - trackingStartTime
      ensures !(isTracking && hasCamera && trace.HitHeatmap?) ==> currentTimeStep == old(currentTimeStep)
      ensures Records(isTracking, hasCamera, trace) ==>
                trace.actor.strokes == old(trace.actor.strokes) +
                  (if old(trace.actor.paintBrush).Some?
                   then [Stroke(trace.uv.value, trace.actor.EffectiveScaleDivisor(CalculateScaleDivisor(trace.actor, trace.normal)))]
                   else [])
      ensures !Records(isTracking, hasCamera, trace) && trace.HitHeatmap? ==>
                trace.actor.strokes == old(trace.actor.strokes)
      ensures !(isTracking && hasCamera) ==>
                (lastActorFocussed != null ==> unchanged(lastActorFocussed)) &&
                (trace.HitHeatmap? ==> unchanged(trace.actor))
      ensures isTracking && hasCamera && lastActorFocussed != null && lastActorFocussed.mesh.Some? ==>
                !lastActorFocussed.renderCustomDepth
      ensures Records(isTracking, hasCamera, trace) ==>
                && trace.actor.brushScaleDivisor ==
                     (if old(trace.actor.paintBrush).Some?
                      then trace.actor.EffectiveScaleDivisor(CalculateScaleDivisor(trace.actor, trace.normal))
                      else old(trace.actor.brushScaleDivisor))
                && trace.actor.brushPosition ==
                     (if old(trace.actor.paintBrush).Some? then trace.uv.value else old(trace.actor.brushPosition))
      ensures !Records(isTracking, hasCamera, trace) && trace.HitHeatmap? ==>
                trace.actor.brushScaleDivisor == old(trace.actor.brushScaleDivisor) &&
                trace.actor.brushPosition == old(trace.actor.brushPosition)
      ensures trace.HitHeatmap? ==> trace.actor.KeepsMaterials()
      ensures trace.HitHeatmap? ==>
                trace.actor.renderCustomDepth ==
                  if isTracking && hasCamera && trace.actor == old(lastActorFocussed) && trace.actor.mesh.Some?
                  then false else old(trace.actor.renderCustomDepth)
      ensures old(lastActorFocussed) != null && (trace.HitHeatmap? ==> trace.actor != old(lastActorFocussed)) ==>
                && old(lastActorFocussed).KeepsPaintState()
                && old(lastActorFocussed).renderCustomDepth ==
                     if isTracking && hasCamera && old(lastActorFocussed).mesh.Some?
                     then false else old(lastActorFocussed.renderCustomDepth)
    {
      if !isTracking || !hasCamera {
        return;
      }
      if lastActorFocussed != null {
        lastActorFocussed.SetFocussed(false);
      }
      if !trace.HitHeatmap? {
        return;
      }
      var actor := trace.actor;
      currentTimeStep := now - trackingStartTime;
      if trace.uv.None? {
        return;
      }
      var uv := trace.uv.value;
      var divisor := CalculateScaleDivisor(actor, trace.normal);
      actor.ScalePaintBrush(divisor);
      actor.PaintHeatmap(uv);
      heatmapData := heatmapData + [DataPoint(Clamp(currentTimeStep, 0.0, MaxRecordedTime), actor.name, uv, divisor)];
    }

    /** Moves the focus highlight while not recording. While tracking, or
        without a camera, nothing happens. A miss switches the last focused
        actor's highlight off; a hit on another kind of actor changes
        nothing; a hit on a heatmap actor moves the focus to it, switching
        the old highlight off and the new one on when the actor asks for
        metrics. */
    method FocusActor(hasCamera: bool, trace: Trace)
      modifies this`lastActorFocussed
      modifies (if lastActorFocussed == null then {} else {lastActorFocussed}),
               (if trace.HitHeatmap? then {trace.actor} else {})
      ensures isTracking || !hasCamera || trace.HitOther? ==>
                lastActorFocussed == old(lastActorFocussed) &&
                (old(lastActorFocussed) != null ==> unchanged(old(lastActorFocussed))) &&
                (trace.HitHeatmap? ==> unchanged(trace.actor))
      ensures !isTracking && hasCamera && trace.Miss? ==>
                lastActorFocussed == old(lastActorFocussed) &&
                (lastActorFocussed != null && lastActorFocussed.mesh.Some? ==> !lastActorFocussed.renderCustomDepth)
      ensures !isTracking && hasCamera && trace.HitHeatmap? ==>
                && lastActorFocussed == trace.actor
                && (trace.actor.mesh.Some? && trace.actor.needsMetrics ==> trace.actor.renderCustomDepth)
                && (old(lastActorFocussed) != null && old(lastActorFocussed).mesh.Some? &&
                    (old(lastActorFocussed) != trace.actor || !trace.actor.needsMetrics) ==>
                      !old(lastActorFocussed).renderCustomDepth)
      ensures trace.HitHeatmap? ==> trace.actor.KeepsPaintState()
      ensures old(lastActorFocussed) != null ==> old(lastActorFocussed).KeepsPaintState()
      ensures !isTracking && hasCamera && trace.HitHeatmap? ==>
                trace.actor.renderCustomDepth ==
                  if trace.actor.mesh.None? then old(trace.actor.renderCustomDepth)
                  else trace.actor.needsMetrics || (trace.actor != old(lastActorFocussed) && old(trace.actor.renderCustomDepth))
      ensures !isTracking && hasCamera && !trace.HitOther? && old(lastActorFocussed) != null &&
              (trace.HitHeatmap? ==> trace.actor != old(lastActorFocussed)) ==>
                old(lastActorFocussed).renderCustomDepth ==
                  if old(lastActorFocussed).mesh.Some? then false else old(lastActorFocussed.renderCustomDepth)
    {
      if isTracking || !hasCamera {
        return;
      }
      if trace.Miss? {
        if lastActorFocussed != null {
          lastActorFocussed.SetFocussed(false);
        }
        return;
      }
      if trace.HitOther? {
        return;
      }
      var focussed := trace.actor;
      if lastActorFocussed != null {
        lastActorFocussed.SetFocussed(false);
      }
      lastActorFocussed := focussed;
      if focussed.needsMetrics {
        focussed.SetFocussed(true);
      }
    }
  }

  /** Which axis the normal is closest to decides only between two pairs:
      a hit on a right face and a hit on an up face scale the brush alike. */
  lemma SideFacesScaleAlike(a: HeatmapReadyActor, n1: Vec3, n2: Vec3)
    requires !FacesForward(a, n1) && !FacesForward(a, n2)
    ensures CalculateScaleDivisor(a, n1) == CalculateScaleDivisor(a, n2)
  {
  }
}
