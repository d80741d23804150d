/**
 * A worked instance of the attention-metrics aggregation: the recording
 * (0 s on A, 1 s on A, 2 s on B, 5 s on A) with A and B mapped to metrics
 * names "ma" and "mb" and the default threshold of 0.
 */
module MetricsExample {
  import opened HeatmapTypes
  import opened AttentionSessions
  import opened MetricsTable

  function Sample(time: real, name: string): DataPoint
  {
    DataPoint(time, name, Vec2(0.5, 0.5), Vec2(1.0, 1.0))
  }

  lemma FoldLower(s: string)
    requires forall i :: 0 <= i < |s| ==> !('A' <= s[i] <= 'Z')
    ensures Fold(s) == s
  {
  }

  const Recording: seq<DataPoint> := [Sample(0.0, "a"), Sample(1.0, "a"), Sample(2.0, "b"), Sample(5.0, "a")]

  const Names: map<string, string> := map["a" := "ma", "b" := "mb"]

  /** One more sample either extends the last session or opens a new one. */
  lemma SessionsSnoc(s: seq<DataPoint>, p: DataPoint)
    ensures |s| > 0 && s[|s| - 1].NameKey() == p.NameKey() ==>
              var rs := Sessions(s);
              Sessions(s + [p]) == rs[..|rs| - 1] + [rs[|rs| - 1] + [p]]
    ensures !(|s| > 0 && s[|s| - 1].NameKey() == p.NameKey()) ==> Sessions(s + [p]) == Sessions(s) + [[p]]
  {
    assert (s + [p])[..|s|] == s;
  }

  lemma ExampleSessions()
    ensures Sessions(Recording) == [Recording[..2], [Recording[2]], [Recording[3]]]
  {
    var p0, p1, p2, p3 := Recording[0], Recording[1], Recording[2], Recording[3];
    FoldLower("a");
    FoldLower("b");
    assert p0.NameKey() == "a" && p1.NameKey() == "a" && p2.NameKey() == "b";
    assert p3.NameKey() == "a";
    SessionsSnoc([], p0);
    assert [] + [p0] == [p0];
    SessionsSnoc([p0], p1);
    assert [p0] + [p1] == [p0, p1];
    assert [[p0]][..0] + [[p0, p1]] == [[p0, p1]];
    SessionsSnoc([p0, p1], p2);
    assert [p0, p1] + [p2] == [p0, p1, p2];
    SessionsSnoc([p0, p1, p2], p3);
    assert [p0, p1, p2] + [p3] == Recording;
    assert Recording[..2] == [p0, p1];
  }

  /** The durations of the three sessions: 1 s on A, then a single sample
      each on B and on A. */
  lemma ExampleGaps()
    ensures GapSum(Recording[..2]) == 1.0 && GapSum([Recording[2]]) == 0.0 && GapSum([Recording[3]]) == 0.0
  {
    assert Recording[..2][..1] == [Recording[0]];
  }

  /** The two closed sessions both reach the threshold of 0. */
  lemma ExampleClosedKept()
    ensures Kept([Recording[..2], [Recording[2]]], Names, DefaultMetricsThreshold) ==
              [Attention("ma", 0.0, 1.0), Attention("mb", 2.0, 0.0)]
  {
    FoldLower("a");
    FoldLower("b");
    ExampleGaps();
    var r0, r1 := Recording[..2], [Recording[2]];
    assert r0[0].NameKey() == "a" && r1[0].NameKey() == "b";
    assert KeptIfLongEnough(r0, Names, 0.0) == [Attention("ma", 0.0, 1.0)];
    assert KeptIfLongEnough(r1, Names, 0.0) == [Attention("mb", 2.0, 0.0)];
    assert [r0, r1][..1] == [r0] && [r0][..0] == [];
    assert Kept([r0], Names, 0.0) == [Attention("ma", 0.0, 1.0)];
  }

  /** The final session on A counts without a threshold check. */
  lemma ExampleFinalCounted()
    ensures Counted([Recording[3]], Names) == [Attention("ma", 5.0, 0.0)]
  {
    FoldLower("a");
    ExampleGaps();
    assert Recording[3].NameKey() == "a";
  }

  /** A recording of three sessions contributes its first two sessions by
      threshold and its last one regardless. */
  lemma AllKeptOfThree(s: seq<DataPoint>, names: map<string, string>, threshold: real, r0: Run, r1: Run, r2: Run)
    requires |r0| > 0 && |r1| > 0 && |r2| > 0 && Sessions(s) == [r0, r1, r2]
    ensures AllKept(s, names, threshold) == Kept([r0, r1], names, threshold) + Counted(r2, names)
  {
    var rs := Sessions(s);
    assert |rs| == 3 && rs[..|rs| - 1] == [r0, r1] && rs[|rs| - 1] == r2;
  }

  lemma ExampleKept()
    ensures AllKept(Recording, Names, DefaultMetricsThreshold) ==
              [Attention("ma", 0.0, 1.0), Attention("mb", 2.0, 0.0), Attention("ma", 5.0, 0.0)]
  {
    ExampleSessions();
    AllKeptOfThree(Recording, Names, DefaultMetricsThreshold, Recording[..2], [Recording[2]], [Recording[3]]);
    ExampleClosedKept();
    ExampleFinalCounted();
  }

  lemma ExampleTable()
    ensures var atts := [Attention("ma", 0.0, 1.0), Attention("mb", 2.0, 0.0), Attention("ma", 5.0, 0.0)];
            var t := Tabulate(atts);
            t.keys == ["ma", "mb"] &&
            t.entries == map["ma" := Entry(1.0, 0.5, 0.0, 2, [0, 2]), "mb" := Entry(0.0, 0.0, 2.0, 1, [1])]
  {
    var atts := [Attention("ma", 0.0, 1.0), Attention("mb", 2.0, 0.0), Attention("ma", 5.0, 0.0)];
    FoldLower("ma");
    FoldLower("mb");
    assert atts[..2][..1] == [atts[0]] && [atts[0]][..0] == [];
    assert atts[..2] == [atts[0], atts[1]];
    assert Tabulate([atts[0]]) == Table(["ma"], map["ma" := Entry(1.0, 1.0, 0.0, 1, [0])]);
    assert Tabulate(atts[..2]) == Table(["ma", "mb"], map["ma" := Entry(1.0, 1.0, 0.0, 1, [0]),
                                                          "mb" := Entry(0.0, 0.0, 2.0, 1, [1])]);
    assert Tabulate(atts) == AddSession(Tabulate(atts[..2]), atts[2], 2);
    assert [0] + [2] == [0, 2] && |[0, 2]| as real == 2.0 && (1.0 + 0.0) / 2.0 == 0.5;
    assert Tabulate(atts).entries ==
             map["ma" := Entry(1.0, 1.0, 0.0, 1, [0]), "mb" := Entry(0.0, 0.0, 2.0, 1, [1])]
               ["ma" := Entry(1.0, 0.5, 0.0, 2, [0, 2])];
  }

  /** A is looked at twice (0 to 1 s, then from 5 s on, the trailing session
      lasting 0), B once from 2 s to 5 s. A session's duration runs up to
      its own last sample only, so B's single-sample session lasts 0, and
      the two sessions on A get indices 0 and 2. */
  lemma RecordingExample()
    ensures var t := Tabulate(AllKept(Recording, Names, DefaultMetricsThreshold));
            t.keys == ["ma", "mb"] &&
            t.entries == map["ma" := Entry(1.0, 0.5, 0.0, 2, [0, 2]), "mb" := Entry(0.0, 0.0, 2.0, 1, [1])]
  {
    ExampleKept();
    ExampleTable();
  }
}
