/**
 * The paintable actor of HeatmapReadyActor.cpp: its material-slot bookkeeping
 * in `SetupMaterials`, the brush-scale override rule and the paint call.
 * Materials are opaque values; render targets, texture parameters and the
 * drawing itself belong to the engine, and a draw is recorded as a `Stroke`.
 */
module HeatmapReadyActors {
  import opened HeatmapTypes

  /** A material as the actor sees it: an asset from the content browser, any
      other material, or a dynamic instance created from a parent. Only the
      first kind counts as an asset. */
  datatype Material = Asset(id: nat) | Transient(id: nat) | DynamicInstance(parent: Material)

  /** Local bounding-box maximum and world scale of the static-mesh component. */
  datatype MeshGeometry = MeshGeometry(localMax: Vec3, componentScale: Vec3)

  /** One draw of the paint brush onto the render target: where, and with which
      scale divisor the brush carried at that moment. */
  datatype Stroke = Stroke(position: Vec2, scaleDivisor: Vec2)

  /** Everything of an actor that its methods change, as one value. */
  datatype ActorState = ActorState(
    meshMaterials: seq<Option<Material>>, materials: seq<Option<Material>>,
    canvasInstances: seq<Material>, paintBrush: Option<Material>,
    brushScaleDivisor: Vec2, brushPosition: Vec2, strokes: seq<Stroke>,
    renderCustomDepth: bool)

  /** The slot-merge step for current slot `i` of the mesh: an empty slot or a
      material that is not an asset leaves the stored list alone; otherwise,
      when the stored list had fewer than i+1 entries before the merge began
      (`storedCount`), the material is appended at the END of the list rather
      than placed at slot i, and otherwise it overwrites stored slot i. */
  function MergeSlot(stored: seq<Option<Material>>, storedCount: nat, i: nat, m: Option<Material>)
    : seq<Option<Material>>
    requires storedCount <= |stored|
  {
    if m.None? || !m.value.Asset? then stored
    else if storedCount < i + 1 then stored + [m]
    else stored[i := m]
  }

  /** The stored list after merging current slots 0..n-1. */
  function MergePrefix(stored: seq<Option<Material>>, current: seq<Option<Material>>, n: nat)
    : (r: seq<Option<Material>>)
    requires n <= |current|
    ensures |r| >= |stored|
    decreases n
  {
    if n == 0 then stored
    else MergeSlot(MergePrefix(stored, current, n - 1), |stored|, n - 1, current[n - 1])
  }

  function Merged(stored: seq<Option<Material>>, current: seq<Option<Material>>): seq<Option<Material>>
  {
    MergePrefix(stored, current, |current|)
  }

  ghost predicate UsableSlot(m: Option<Material>)
  {
    m.Some? && m.value.Asset?
  }

  /** The usable current materials of slots `from`..n-1, in slot order. */
  function UsableFrom(current: seq<Option<Material>>, from: nat, n: nat): seq<Option<Material>>
    requires n <= |current|
    decreases n
  {
    if n <= from then []
    else UsableFrom(current, from, n - 1) +
         (if current[n - 1].Some? && current[n - 1].value.Asset? then [current[n - 1]] else [])
  }

  /** What the merge does, slot by slot: a stored slot i below the stored count
      takes current slot i when that one holds an asset and keeps its old
      material otherwise; past the stored count the list gains the usable
      current materials of the higher slots, appended in slot order (so a
      skipped slot shifts every later one down). */
  lemma {:induction false} MergePrefixSlots(stored: seq<Option<Material>>, current: seq<Option<Material>>, n: nat)
    requires n <= |current|
    ensures |MergePrefix(stored, current, n)| == |stored| + |UsableFrom(current, |stored|, n)|
    ensures forall i :: 0 <= i < |stored| ==>
              MergePrefix(stored, current, n)[i] ==
                if i < n && UsableSlot(current[i]) then current[i] else stored[i]
    ensures MergePrefix(stored, current, n)[|stored|..] == UsableFrom(current, |stored|, n)
    decreases n
  {
    if n > 0 {
      MergePrefixSlots(stored, current, n - 1);
      var prev := MergePrefix(stored, current, n - 1);
      var m := current[n - 1];
      if UsableSlot(m) && |stored| < n {
        assert (prev + [m])[|stored|..] == prev[|stored|..] + [m];
      }
    }
  }

  /** The dynamic canvas instances made for stored slots 0..n-1, in slot order,
      skipping empty slots. */
  function Instances(stored: seq<Option<Material>>, n: nat): seq<Material>
    requires n <= |stored|
    decreases n
  {
    if n == 0 then []
    else Instances(stored, n - 1) +
         (if stored[n - 1].Some? then [DynamicInstance(stored[n - 1].value)] else [])
  }

  /** Writes `m` into mesh slot `i`; like the engine's material override list,
      the slot list grows with empty slots when `i` lies past its end. */
  function SetSlot(slots: seq<Option<Material>>, i: nat, m: Material): (r: seq<Option<Material>>)
    ensures |r| == if i < |slots| then |slots| else i + 1
    ensures r[i] == Some(m)
    ensures forall j :: 0 <= j < |r| && j != i ==> r[j] == if j < |slots| then slots[j] else None
  {
    if i < |slots| then slots[i := Some(m)]
    else slots + seq(i - |slots|, _ => None) + [Some(m)]
  }

  /** The mesh slots after instancing stored slots 0..n-1. */
  function InstancedSlots(slots: seq<Option<Material>>, stored: seq<Option<Material>>, n: nat)
    : seq<Option<Material>>
    requires n <= |stored|
    decreases n
  {
    if n == 0 then slots
    else
      var before := InstancedSlots(slots, stored, n - 1);
      if stored[n - 1].Some? then SetSlot(before, n - 1, DynamicInstance(stored[n - 1].value)) else before
  }

  /** One canvas instance per non-empty slot among the first n, and none for
      the others. */
  lemma {:induction false} InstancesCount(stored: seq<Option<Material>>, n: nat)
    requires n <= |stored|
    ensures |Instances(stored, n)| == |set i | 0 <= i < n && stored[i].Some?|
    ensures forall m :: m in Instances(stored, n) <==>
              exists i :: 0 <= i < n && stored[i].Some? && m == DynamicInstance(stored[i].value)
    decreases n
  {
    if n > 0 {
      InstancesCount(stored, n - 1);
      var before := set i | 0 <= i < n - 1 && stored[i].Some?;
      var after := set i | 0 <= i < n && stored[i].Some?;
      if stored[n - 1].Some? {
        assert after == before + {n - 1};
      } else {
        assert after == before;
      }
    }
  }

  /** The brush parameters a fresh brush instance is modelled to start from;
      the material asset's own defaults are not part of this model. */
  const DefaultScaleDivisor := Vec2(1.0, 1.0)
  const DefaultPosition := Vec2(0.0, 0.0)

  class HeatmapReadyActor {
    /** The actor's runtime object name. */
    const name: string
    /** Editor settings of the actor. */
    const needsMetrics: bool
    const metricsName: string
    const overrideScaleDivisor: bool
    const scaleDivisorOverride: Vec2
    /** The static-mesh component's geometry, or None without such a component. */
    const mesh: Option<MeshGeometry>
    /** The actor's forward, right and up axes. */
    const forward: Vec3
    const right: Vec3
    const up: Vec3

    /** The materials currently on the mesh component's slots. */
    var meshMaterials: seq<Option<Material>>
    /** The original materials remembered across setups. */
    var materials: seq<Option<Material>>
    var canvasInstances: seq<Material>
    var paintBrush: Option<Material>
    /** The brush's "ScaleDivisor" and "Position" parameters. */
    var brushScaleDivisor: Vec2
    var brushPosition: Vec2
    /** Every draw onto the render target, oldest first. */
    var strokes: seq<Stroke>
    /** Whether the mesh renders custom depth (the focus highlight). */
    var renderCustomDepth: bool

    constructor (name: string, needsMetrics: bool, metricsName: string,
                 overrideScaleDivisor: bool, scaleDivisorOverride: Vec2,
                 mesh: Option<MeshGeometry>, forward: Vec3, right: Vec3, up: Vec3,
                 meshMaterials: seq<Option<Material>>)
      ensures this.name == name && this.needsMetrics == needsMetrics && this.metricsName == metricsName
      ensures this.overrideScaleDivisor == overrideScaleDivisor
      ensures this.scaleDivisorOverride == scaleDivisorOverride
      ensures this.mesh == mesh && this.forward == forward && this.right == right && this.up == up
      ensures this.meshMaterials == meshMaterials
      ensures materials == [] && canvasInstances == [] && paintBrush.None? && strokes == []
      ensures brushScaleDivisor == DefaultScaleDivisor && brushPosition == DefaultPosition
      ensures !renderCustomDepth
    {
      this.name := name;
      this.needsMetrics := needsMetrics;
      this.metricsName := metricsName;
      this.overrideScaleDivisor := overrideScaleDivisor;
      this.scaleDivisorOverride := scaleDivisorOverride;
      this.mesh := mesh;
      this.forward := forward;
      this.right := right;
      this.up := up;
      this.meshMaterials := meshMaterials;
      materials := [];
      canvasInstances := [];
      paintBrush := None;
      brushScaleDivisor := DefaultScaleDivisor;
      brushPosition := DefaultPosition;
      strokes := [];
      renderCustomDepth := false;
    }

    /** Takes over the mesh's asset materials into the stored list, then puts a
        dynamic canvas instance of every non-empty stored slot (counting only
        the slots stored before this call) onto the mesh. The canvases draw on
        a new blank render target, so every earlier stroke is gone, and the new
        brush instance starts from the brush parameters' defaults. Nothing
        happens without a static-mesh component. */
    method SetupMaterials(paintBrushAsset: Option<Material>)
      modifies this
      ensures mesh.None? ==> unchanged(this)
      ensures mesh.Some? ==>
                && materials == Merged(old(materials), old(meshMaterials))
                && canvasInstances == Instances(materials, |old(materials)|)
                && meshMaterials == InstancedSlots(old(meshMaterials), materials, |old(materials)|)
                && paintBrush == (if paintBrushAsset.Some? then Some(DynamicInstance(paintBrushAsset.value)) else None)
      ensures mesh.Some? ==>
                strokes == [] && brushScaleDivisor == DefaultScaleDivisor && brushPosition == DefaultPosition
      ensures renderCustomDepth == old(renderCustomDepth)
    {
      if mesh.None? {
        return;
      }
      canvasInstances := [];
      paintBrush := if paintBrushAsset.Some? then Some(DynamicInstance(paintBrushAsset.value)) else None;
      brushScaleDivisor := DefaultScaleDivisor;
      brushPosition := DefaultPosition;
      strokes := [];

      var current := meshMaterials;
      var materialsNum := |materials|;
      ghost var stored := materials;
      var i := 0;
      while i < |current|
        invariant 0 <= i <= |current|
        invariant materialsNum == |stored|
        invariant materials == MergePrefix(stored, current, i)
        invariant meshMaterials == current && canvasInstances == []
        invariant paintBrush == (if paintBrushAsset.Some? then Some(DynamicInstance(paintBrushAsset.value)) else None)
        invariant strokes == [] && renderCustomDepth == old(renderCustomDepth)
        invariant brushScaleDivisor == DefaultScaleDivisor && brushPosition == DefaultPosition
      {
        var m := current[i];
        if m.Some? && m.value.Asset? {
          if materialsNum < i + 1 {
            materials := materials + [m];
          } else {
            materials := materials[i := m];
          }
        }
        i := i + 1;
      }

      i := 0;
      while i < materialsNum
        invariant 0 <= i <= materialsNum <= |materials|
        invariant canvasInstances == Instances(materials, i)
        invariant meshMaterials == InstancedSlots(current, materials, i)
        invariant materials == Merged(stored, current)
        invariant paintBrush == (if paintBrushAsset.Some? then Some(DynamicInstance(paintBrushAsset.value)) else None)
        invariant strokes == [] && renderCustomDepth == old(renderCustomDepth)
        invariant brushScaleDivisor == DefaultScaleDivisor && brushPosition == DefaultPosition
      {
        if materials[i].Some? {
          var canvasInstance := DynamicInstance(materials[i].value);
          meshMaterials := SetSlot(meshMaterials, i, canvasInstance);
          canvasInstances := canvasInstances + [canvasInstance];
        }
        i := i + 1;
      }
    }

    /** The divisor the brush is given: the actor's override when overriding is
        switched on and both override components are non-zero, else `divisor`. */
    function EffectiveScaleDivisor(divisor: Vec2): Vec2
    {
      if overrideScaleDivisor && scaleDivisorOverride.x != 0.0 && scaleDivisorOverride.y != 0.0
      then scaleDivisorOverride
      else divisor
    }

    /** Sets the brush's scale divisor, or does nothing without a brush. */
    method ScalePaintBrush(divisor: Vec2)
      modifies this
      ensures paintBrush.None? ==> unchanged(this)
      ensures paintBrush.Some? ==> brushScaleDivisor == EffectiveScaleDivisor(divisor)
      ensures paintBrush == old(paintBrush) && strokes == old(strokes) && brushPosition == old(brushPosition)
      ensures materials == old(materials) && meshMaterials == old(meshMaterials)
      ensures canvasInstances == old(canvasInstances) && renderCustomDepth == old(renderCustomDepth)
    {
      if paintBrush.None? {
        return;
      }
      brushScaleDivisor := EffectiveScaleDivisor(divisor);
    }

    /** Moves the brush to `uv` and draws it once, or does nothing without a brush. */
    method PaintHeatmap(uv: Vec2)
      modifies this
      ensures paintBrush.None? ==> unchanged(this)
      ensures paintBrush.Some? ==>
                brushPosition == uv && strokes == old(strokes) + [Stroke(uv, brushScaleDivisor)]
      ensures paintBrush == old(paintBrush) && brushScaleDivisor == old(brushScaleDivisor)
      ensures materials == old(materials) && meshMaterials == old(meshMaterials)
      ensures canvasInstances == old(canvasInstances) && renderCustomDepth == old(renderCustomDepth)
    {
      if paintBrush.None? {
        return;
      }
      brushPosition := uv;
      strokes := strokes + [Stroke(uv, brushScaleDivisor)];
    }

    /** The actor's changeable state. */
    ghost function State(): ActorState
      reads this
    {
      ActorState(meshMaterials, materials, canvasInstances, paintBrush,
                 brushScaleDivisor, brushPosition, strokes, renderCustomDepth)
    }

    /** The materials and the brush instance are as they were. */
    twostate predicate KeepsMaterials()
      reads this
    {
      && meshMaterials == old(meshMaterials) && materials == old(materials)
      && canvasInstances == old(canvasInstances) && paintBrush == old(paintBrush)
    }

    /** Everything but the focus highlight is as it was. */
    twostate predicate KeepsPaintState()
      reads this
    {
      && KeepsMaterials()
      && brushScaleDivisor == old(brushScaleDivisor) && brushPosition == old(brushPosition)
      && strokes == old(strokes)
    }

    /** Switches the focus highlight; without a static-mesh component nothing happens. */
    method SetFocussed(focussed: bool)
      modifies this
      ensures renderCustomDepth == if mesh.Some? then focussed else old(renderCustomDepth)
      ensures paintBrush == old(paintBrush) && strokes == old(strokes)
      ensures brushScaleDivisor == old(brushScaleDivisor) && brushPosition == old(brushPosition)
      ensures materials == old(materials) && meshMaterials == old(meshMaterials)
      ensures canvasInstances == old(canvasInstances)
    {
      if mesh.Some? {
        renderCustomDepth := focussed;
      }
    }
  }
}
