/**
 * The specification side of the attention-metrics aggregator of HeatmapRT.cpp:
 * how a recorded sequence of samples splits into attention sessions (maximal
 * runs of samples on the same object), how long a session lasts, and which
 * sessions count towards the metrics table.
 */
module AttentionSessions {
  import opened HeatmapTypes

  /** A session: a non-empty run of consecutive samples on one object. */
  type Run = seq<DataPoint>

  /** Splits the samples into maximal runs of equal object name, reading left
      to right: a sample on the same object as its predecessor extends the open
      run, any other sample opens a new one. */
  function Sessions(s: seq<DataPoint>): (runs: seq<Run>)
    ensures |runs| == 0 <==> |s| == 0
    ensures forall i :: 0 <= i < |runs| ==> |runs[i]| > 0
    ensures |s| > 0 ==> runs[|runs| - 1][|runs[|runs| - 1]| - 1] == s[|s| - 1]
    decreases |s|
  {
    if |s| == 0 then []
    else
      var init, p := s[..|s| - 1], s[|s| - 1];
      var rs := Sessions(init);
      if |init| > 0 && init[|init| - 1].NameKey() == p.NameKey() then
        rs[..|rs| - 1] + [rs[|rs| - 1] + [p]]
      else
        rs + [[p]]
  }

  /** The session duration as the aggregator accumulates it: the sum of the
      time differences between consecutive samples of the run. */
  function GapSum(r: Run): real
    decreases |r|
  {
    if |r| <= 1 then 0.0
    else GapSum(r[..|r| - 1]) + (r[|r| - 1].time - r[|r| - 2].time)
  }

  /** One session that counts, already resolved to its metrics name. */
  datatype Attention = Attention(metricsName: string, start: real, duration: real)

  /** The final open session: counted whenever its object has a metrics name. */
  function Counted(r: Run, names: map<string, string>): seq<Attention>
    requires |r| > 0
  {
    if r[0].NameKey() in names then
      [Attention(names[r[0].NameKey()], r[0].time, GapSum(r))]
    else []
  }

  /** A session closed by a change of object: dropped when it is shorter than
      the threshold, otherwise counted like the final one. */
  function KeptIfLongEnough(r: Run, names: map<string, string>, threshold: real): seq<Attention>
    requires |r| > 0
  {
    if GapSum(r) < threshold then [] else Counted(r, names)
  }

  /** The counted sessions among closed runs, in closing order. */
  function Kept(rs: seq<Run>, names: map<string, string>, threshold: real): seq<Attention>
    requires forall i :: 0 <= i < |rs| ==> |rs[i]| > 0
    decreases |rs|
  {
    if |rs| == 0 then []
    else Kept(rs[..|rs| - 1], names, threshold) + KeptIfLongEnough(rs[|rs| - 1], names, threshold)
  }

  /** Every session that contributes to the metrics table, in the order the
      aggregator folds them in; position k of this sequence is the session
      index the aggregator hands out to it. */
  function AllKept(s: seq<DataPoint>, names: map<string, string>, threshold: real): seq<Attention>
  {
    var rs := Sessions(s);
    if |rs| == 0 then []
    else Kept(rs[..|rs| - 1], names, threshold) + Counted(rs[|rs| - 1], names)
  }

  function Flatten(rs: seq<Run>): seq<DataPoint>
    decreases |rs|
  {
    if |rs| == 0 then [] else Flatten(rs[..|rs| - 1]) + rs[|rs| - 1]
  }

  ghost predicate OnOneObject(r: Run)
  {
    forall k :: 0 <= k < |r| ==> r[k].NameKey() == r[0].NameKey()
  }

  lemma FlattenSnoc(rs: seq<Run>, r: Run)
    ensures Flatten(rs + [r]) == Flatten(rs) + r
  {
    assert (rs + [r])[..|rs|] == rs;
  }

  /** Concatenated, the sessions give back the recorded sequence. */
  lemma {:induction false} SessionsCoverSamples(s: seq<DataPoint>)
    ensures Flatten(Sessions(s)) == s
    decreases |s|
  {
    if |s| > 0 {
      var init, p := s[..|s| - 1], s[|s| - 1];
      var rs := Sessions(init);
      SessionsCoverSamples(init);
      assert init + [p] == s;
      if |init| > 0 && init[|init| - 1].NameKey() == p.NameKey() {
        assert rs == rs[..|rs| - 1] + [rs[|rs| - 1]];
        CoverExtended(rs[..|rs| - 1], rs[|rs| - 1], p, init);
      } else {
        FlattenSnoc(rs, [p]);
      }
    }
  }

  lemma CoverExtended(front: seq<Run>, last: Run, p: DataPoint, init: seq<DataPoint>)
    requires Flatten(front + [last]) == init
    ensures Flatten(front + [last + [p]]) == init + [p]
  {
    FlattenSnoc(front, last);
    FlattenSnoc(front, last + [p]);
    var f := Flatten(front);
    assert f + (last + [p]) == (f + last) + [p];
  }

  /** Every session lies on a single object. */
  lemma {:induction false} SessionsOnOneObject(s: seq<DataPoint>)
    ensures forall i :: 0 <= i < |Sessions(s)| ==> OnOneObject(Sessions(s)[i])
    decreases |s|
  {
    if |s| > 0 {
      var init, p := s[..|s| - 1], s[|s| - 1];
      var rs := Sessions(init);
      SessionsOnOneObject(init);
      if |init| > 0 && init[|init| - 1].NameKey() == p.NameKey() {
        var last := rs[|rs| - 1];
        assert OnOneObject(last);
        assert last[|last| - 1] == init[|init| - 1];
        assert OnOneObject(last + [p]);
      }
    }
  }

  /** Neighbouring sessions lie on different objects, so every session is a
      maximal run of samples on its object. */
  lemma {:induction false} SessionsAreMaximal(s: seq<DataPoint>)
    ensures forall i :: 0 <= i < |Sessions(s)| - 1 ==>
              Sessions(s)[i][0].NameKey() != Sessions(s)[i + 1][0].NameKey()
    decreases |s|
  {
    if |s| > 0 {
      var init, p := s[..|s| - 1], s[|s| - 1];
      var rs := Sessions(init);
      SessionsAreMaximal(init);
      if |init| > 0 && init[|init| - 1].NameKey() == p.NameKey() {
        var last := rs[|rs| - 1];
        forall i | 0 <= i < |Sessions(s)| - 1
          ensures Sessions(s)[i][0].NameKey() != Sessions(s)[i + 1][0].NameKey()
        {
          assert Sessions(s)[i] == rs[i];
          assert Sessions(s)[i + 1][0] == rs[i + 1][0];
        }
      } else if |rs| > 0 {
        SessionsOnOneObject(init);
        var last := rs[|rs| - 1];
        assert OnOneObject(last);
        assert last[|last| - 1] == init[|init| - 1];
      }
    }
  }

  /** The accumulated duration telescopes: it is the time of the run's last
      sample minus the time of its first. */
  lemma {:induction false} GapSumTelescopes(r: Run)
    requires |r| > 0
    ensures GapSum(r) == r[|r| - 1].time - r[0].time
    decreases |r|
  {
    if |r| > 1 {
      GapSumTelescopes(r[..|r| - 1]);
    }
  }

  /** A session of a single sample lasts 0, and the time up to the next
      object's first sample never belongs to the session before it. */
  lemma SingleSampleSessionLastsZero(p: DataPoint)
    ensures GapSum([p]) == 0.0
  {
  }

  /** With non-decreasing timestamps no session has a negative duration. */
  lemma {:induction false} SessionDurationsNonNegative(s: seq<DataPoint>)
    requires TimesNonDecreasing(s)
    ensures forall i :: 0 <= i < |Sessions(s)| ==> GapSum(Sessions(s)[i]) >= 0.0
    decreases |s|
  {
    if |s| > 0 {
      var init, p := s[..|s| - 1], s[|s| - 1];
      assert TimesNonDecreasing(init);
      var rs := Sessions(init);
      SessionDurationsNonNegative(init);
      if |init| > 0 && init[|init| - 1].NameKey() == p.NameKey() {
        assert init[|init| - 1].time <= p.time by {
          assert s[|s| - 2] == init[|init| - 1];
        }
        DurationsExtended(rs, p);
      } else {
        DurationsOpened(rs, p);
      }
    }
  }

  lemma DurationsExtended(rs: seq<Run>, p: DataPoint)
    requires |rs| > 0 && |rs[|rs| - 1]| > 0
    requires rs[|rs| - 1][|rs[|rs| - 1]| - 1].time <= p.time
    requires forall i :: 0 <= i < |rs| ==> GapSum(rs[i]) >= 0.0
    ensures var rs' := rs[..|rs| - 1] + [rs[|rs| - 1] + [p]];
            forall i :: 0 <= i < |rs'| ==> GapSum(rs'[i]) >= 0.0
  {
    var last := rs[|rs| - 1];
    GapSumSnoc(last, p);
    var rs' := rs[..|rs| - 1] + [last + [p]];
    forall i | 0 <= i < |rs'|
      ensures GapSum(rs'[i]) >= 0.0
    {
      if i < |rs| - 1 {
        assert rs'[i] == rs[i];
      }
    }
  }

  lemma DurationsOpened(rs: seq<Run>, p: DataPoint)
    requires forall i :: 0 <= i < |rs| ==> GapSum(rs[i]) >= 0.0
    ensures forall i :: 0 <= i < |rs + [[p]]| ==> GapSum((rs + [[p]])[i]) >= 0.0
  {
    assert GapSum([p]) == 0.0;
  }

  lemma GapSumSnoc(r: Run, p: DataPoint)
    requires |r| > 0
    ensures GapSum(r + [p]) == GapSum(r) + (p.time - r[|r| - 1].time)
  {
    assert (r + [p])[..|r|] == r;
  }

  /** A run counts iff it is the final one or long enough, and its object has
      a metrics name: stated for the closed runs, position by position. */
  lemma {:induction false} KeptMembers(rs: seq<Run>, names: map<string, string>, threshold: real, a: Attention)
    requires forall i :: 0 <= i < |rs| ==> |rs[i]| > 0
    ensures a in Kept(rs, names, threshold) <==>
              exists i :: 0 <= i < |rs| && GapSum(rs[i]) >= threshold &&
                rs[i][0].NameKey() in names &&
                a == Attention(names[rs[i][0].NameKey()], rs[i][0].time, GapSum(rs[i]))
    decreases |rs|
  {
    if |rs| > 0 {
      var init := rs[..|rs| - 1];
      KeptMembers(init, names, threshold, a);
      var r := rs[|rs| - 1];
      if a in Kept(rs, names, threshold) {
        if a !in Kept(init, names, threshold) {
          assert a in KeptIfLongEnough(r, names, threshold);
          assert rs[|rs| - 1] == r;
        } else {
          var i :| 0 <= i < |init| && GapSum(init[i]) >= threshold && init[i][0].NameKey() in names &&
            a == Attention(names[init[i][0].NameKey()], init[i][0].time, GapSum(init[i]));
          assert rs[i] == init[i];
        }
      }
      if exists i :: 0 <= i < |rs| && GapSum(rs[i]) >= threshold &&
           rs[i][0].NameKey() in names &&
           a == Attention(names[rs[i][0].NameKey()], rs[i][0].time, GapSum(rs[i])) {
        var i :| 0 <= i < |rs| && GapSum(rs[i]) >= threshold &&
           rs[i][0].NameKey() in names &&
           a == Attention(names[rs[i][0].NameKey()], rs[i][0].time, GapSum(rs[i]));
        if i < |rs| - 1 {
          assert init[i] == rs[i];
        }
      }
    }
  }

  /** The closed runs folded in by threshold and the final run counted
      regardless: the members, position by position. */
  lemma LastCountedMembers(rs: seq<Run>, names: map<string, string>, threshold: real, a: Attention)
    requires |rs| > 0
    requires forall i :: 0 <= i < |rs| ==> |rs[i]| > 0
    ensures a in Kept(rs[..|rs| - 1], names, threshold) + Counted(rs[|rs| - 1], names) <==>
              exists i :: 0 <= i < |rs| &&
                (i == |rs| - 1 || GapSum(rs[i]) >= threshold) &&
                rs[i][0].NameKey() in names &&
                a == Attention(names[rs[i][0].NameKey()], rs[i][0].time, GapSum(rs[i]))
  {
    var init := rs[..|rs| - 1];
    var last := rs[|rs| - 1];
    KeptMembers(init, names, threshold, a);
    if a in Kept(init, names, threshold) + Counted(last, names) {
      if a in Kept(init, names, threshold) {
        var i :| 0 <= i < |init| && GapSum(init[i]) >= threshold && init[i][0].NameKey() in names &&
          a == Attention(names[init[i][0].NameKey()], init[i][0].time, GapSum(init[i]));
        assert rs[i] == init[i];
      } else {
        assert a in Counted(last, names);
        assert last[0].NameKey() in names && a == Attention(names[last[0].NameKey()], last[0].time, GapSum(last));
      }
    }
    if exists i :: 0 <= i < |rs| &&
         (i == |rs| - 1 || GapSum(rs[i]) >= threshold) &&
         rs[i][0].NameKey() in names &&
         a == Attention(names[rs[i][0].NameKey()], rs[i][0].time, GapSum(rs[i])) {
      var i :| 0 <= i < |rs| &&
         (i == |rs| - 1 || GapSum(rs[i]) >= threshold) &&
         rs[i][0].NameKey() in names &&
         a == Attention(names[rs[i][0].NameKey()], rs[i][0].time, GapSum(rs[i]));
      if i < |rs| - 1 {
        assert init[i] == rs[i];
        assert a in Kept(init, names, threshold);
      }
    }
  }

  /** Which sessions contribute: every session but the last when it lasts at
      least the threshold, the last one regardless of its duration, and in
      both cases only when its object has a metrics name. */
  lemma AllKeptMembers(s: seq<DataPoint>, names: map<string, string>, threshold: real, a: Attention)
    ensures var rs := Sessions(s);
            a in AllKept(s, names, threshold) <==>
              exists i :: 0 <= i < |rs| &&
                (i == |rs| - 1 || GapSum(rs[i]) >= threshold) &&
                rs[i][0].NameKey() in names &&
                a == Attention(names[rs[i][0].NameKey()], rs[i][0].time, GapSum(rs[i]))
  {
    var rs := Sessions(s);
    if |rs| > 0 {
      LastCountedMembers(rs, names, threshold, a);
      if a in AllKept(s, names, threshold) {
        var i :| 0 <= i < |rs| &&
          (i == |rs| - 1 || GapSum(rs[i]) >= threshold) &&
          rs[i][0].NameKey() in names &&
          a == Attention(names[rs[i][0].NameKey()], rs[i][0].time, GapSum(rs[i]));
        assert Sessions(s)[i] == rs[i];
      }
    }
  }

  /** The final session is folded in without a threshold check: when its
      object has a metrics name it is always the last contribution, even when
      it lasts less than the threshold (a lone trailing sample lasts 0). */
  lemma FinalSessionAlwaysCounted(s: seq<DataPoint>, names: map<string, string>, threshold: real)
    requires |s| > 0 && s[|s| - 1].NameKey() in names
    ensures var rs := Sessions(s);
            var last := rs[|rs| - 1];
            var kept := AllKept(s, names, threshold);
            |kept| > 0 &&
            kept[|kept| - 1] == Attention(names[s[|s| - 1].NameKey()], last[0].time, GapSum(last))
  {
    var rs := Sessions(s);
    SessionsOnOneObject(s);
    var last := rs[|rs| - 1];
    assert OnOneObject(last);
    assert last[0].NameKey() == last[|last| - 1].NameKey();
  }

  /** Reading one more sample on the object of the previous one: the closed
      sessions stay, the open one grows by the time since the previous sample
      and keeps its start. */
  lemma SameObjectStep(s: seq<DataPoint>, i: int)
    requires 0 < i < |s| && s[i].NameKey() == s[i - 1].NameKey()
    ensures var rs, rs' := Sessions(s[..i]), Sessions(s[..i + 1]);
            |rs'| == |rs| && rs'[..|rs'| - 1] == rs[..|rs| - 1] &&
            GapSum(rs'[|rs'| - 1]) == GapSum(rs[|rs| - 1]) + (s[i].time - s[i - 1].time) &&
            rs'[|rs'| - 1][0] == rs[|rs| - 1][0]
  {
    var init := s[..i];
    assert s[..i + 1][..i] == init && s[..i + 1][i] == s[i];
    var rs := Sessions(init);
    var last := rs[|rs| - 1];
    assert last[|last| - 1] == s[i - 1];
    GapSumSnoc(last, s[i]);
  }

  /** Reading a sample on another object closes the open session, whose
      samples all lie on the previous sample's object, and opens a new one. */
  lemma NewObjectStep(s: seq<DataPoint>, i: int)
    requires 0 < i < |s| && s[i].NameKey() != s[i - 1].NameKey()
    ensures Sessions(s[..i + 1]) == Sessions(s[..i]) + [[s[i]]]
    ensures var rs := Sessions(s[..i]);
            rs[|rs| - 1][0].NameKey() == s[i - 1].NameKey()
  {
    var init := s[..i];
    assert s[..i + 1][..i] == init && s[..i + 1][i] == s[i];
    SessionsOnOneObject(init);
    var rs := Sessions(init);
    var last := rs[|rs| - 1];
    assert OnOneObject(last);
    assert last[|last| - 1] == s[i - 1];
  }

  /** The first sample opens the first session. */
  lemma FirstSampleStep(s: seq<DataPoint>)
    requires |s| > 0
    ensures Sessions(s[..1]) == [[s[0]]]
  {
    assert s[..1][..0] == [];
  }

  /** Nothing to aggregate: an empty recording yields no session. */
  lemma EmptyRecordingKeepsNothing(names: map<string, string>, threshold: real)
    ensures AllKept([], names, threshold) == []
  {
  }
}
