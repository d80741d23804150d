/**
 * The value types shared by the heatmap runtime: one recorded gaze sample,
 * one aggregate row of the attention-metrics table and the sort keys.
 * Times, UV coordinates and scales are modelled as `real`; the 32-bit float
 * narrowing and rounding of the engine are not part of this model.
 */
module HeatmapTypes {

  datatype Option<T> = None | Some(value: T)

  datatype Vec2 = Vec2(x: real, y: real)

  datatype Vec3 = Vec3(x: real, y: real, z: real)

  /** One recorded sample: when, on which object, where on its UV map, and
      the paint-brush scale divisor that was in effect. */
  datatype DataPoint = DataPoint(
    time: real,            // seconds since recording started
    objectName: string,    // runtime name of the actor that was looked at
    coordinates: Vec2,     // UV coordinate of the hit
    scaleDivisor: Vec2)    // paint-brush scale divisor
  {
    /** The object name as the engine compares it. */
    function NameKey(): string
    {
      Fold(objectName)
    }
  }

  /** The value a freshly constructed data point holds. */
  const DefaultDataPoint := DataPoint(0.0, "", Vec2(0.0, 0.0), Vec2(1.0, 1.0))

  /** One row of the attention-metrics table, keyed by metrics name. */
  datatype Entry = Entry(
    total: real,             // summed duration of every counted session
    average: real,           // total divided by the number of sessions
    firstAttentionAfter: real,  // start time of the first counted session
    timesFocussed: int,      // number of counted sessions
    indices: seq<int>)       // global session indices, in counting order

  /** The value a freshly constructed metrics entry holds. */
  const DefaultEntry := Entry(0.0, 0.0, 0.0, 0, [])

  /** The keys the metrics table can be sorted by; `Max` is the enumeration's
      end marker and has no ordering of its own. */
  datatype SortMode = Name | First | Total | Times | Average | Max

  /** Both the aggregation and the load use this threshold unless told otherwise. */
  const DefaultMetricsThreshold: real := 0.0

  /** ASCII lower-casing, the only case folding engine strings perform. */
  function Lower(c: char): char
  {
    if 'A' <= c <= 'Z' then (c as int + 32) as char else c
  }

  /** The form under which engine strings are compared for equality and looked
      up as map keys: ASCII letters are folded to lower case. */
  function Fold(s: string): (r: string)
    ensures |r| == |s|
    ensures forall i :: 0 <= i < |s| ==> r[i] == Lower(s[i])
  {
    seq(|s|, i requires 0 <= i < |s| => Lower(s[i]))
  }

  /** Equality of engine strings, which ignores ASCII case. */
  predicate SameName(a: string, b: string)
  {
    Fold(a) == Fold(b)
  }

  ghost predicate TimesNonDecreasing(s: seq<DataPoint>)
  {
    forall i, j :: 0 <= i < j < |s| ==> s[i].time <= s[j].time
  }

  /** Folding a folded string changes nothing. */
  lemma FoldFolded(s: string)
    ensures Fold(Fold(s)) == Fold(s)
  {
  }

  /** An engine map keyed by strings never holds two keys that are equal
      ignoring case: adding one replaces the other. */
  predicate CaseDistinctKeys<V>(m: map<string, V>)
  {
    forall k1, k2 :: k1 in m && k2 in m && SameName(k1, k2) ==> k1 == k2
  }

  /** An engine string map as looked up: keyed by folded names. */
  function FoldKeys<V>(m: map<string, V>): map<string, V>
    requires CaseDistinctKeys(m)
  {
    map k | k in m :: Fold(k) := m[k]
  }

  /** A name finds the entry of an engine string map whose key it equals
      ignoring case, and only such an entry. */
  lemma FoldKeysLookup<V>(m: map<string, V>)
    requires CaseDistinctKeys(m)
    ensures forall k :: k in m ==> Fold(k) in FoldKeys(m) && FoldKeys(m)[Fold(k)] == m[k]
    ensures forall name :: Fold(name) in FoldKeys(m) ==> exists k :: k in m && SameName(k, name)
    ensures forall k :: k in FoldKeys(m) ==> Fold(k) == k
  {
    forall f | f in FoldKeys(m) ensures Fold(f) == f {
      var k :| k in m && Fold(k) == f;
      FoldFolded(k);
    }
  }

  /** A map whose keys are already folded is looked up as it is. */
  lemma FoldKeysOfFolded<V>(m: map<string, V>)
    requires forall k :: k in m ==> Fold(k) == k
    ensures CaseDistinctKeys(m)
    ensures FoldKeys(m) == m
  {
    assert forall k :: k in FoldKeys(m) ==> k in m;
  }
}
