/**
 * The attention-metrics table of HeatmapRT.cpp and how counted sessions are
 * folded into it. The engine's map keeps insertion order, which both the sort
 * and the metrics writer observe, so a table is the key order together with
 * the entries.
 */
module MetricsTable {
  import opened HeatmapTypes
  import opened AttentionSessions

  /** The metrics table. Engine maps compare string keys ignoring ASCII case,
      so `entries` is keyed by the folded metrics name, while `keys` lists the
      names in insertion order as spelled when first inserted. */
  datatype Table = Table(keys: seq<string>, entries: map<string, Entry>)

  const EmptyTable := Table([], map[])

  /** Folds one counted session, carrying global session index `index`, into
      the table: a new metrics name gets a fresh entry (the only place its
      first-attention time is set), a known one is extended and its average
      recomputed from the new total and the new number of indices. Names that
      differ only in ASCII case share one entry. */
  function AddSession(t: Table, a: Attention, index: int): Table
  {
    var k := Fold(a.metricsName);
    if k !in t.entries then
      Table(t.keys + [a.metricsName], t.entries[k := Entry(a.duration, a.duration, a.start, 1, [index])])
    else
      var e := t.entries[k];
      var indices := e.indices + [index];
      var total := e.total + a.duration;
      Table(t.keys, t.entries[k := Entry(total, total / |indices| as real, e.firstAttentionAfter,
                                         e.timesFocussed + 1, indices)])
  }

  /** The table after folding in the counted sessions in order, the k-th of
      them with session index k. */
  function Tabulate(atts: seq<Attention>): Table
    decreases |atts|
  {
    if |atts| == 0 then EmptyTable
    else AddSession(Tabulate(atts[..|atts| - 1]), atts[|atts| - 1], |atts| - 1)
  }

  /** The positions of the sessions counted under folded metrics name `k`. */
  function Positions(atts: seq<Attention>, k: string): (ps: seq<int>)
    ensures forall j :: j in ps <==> 0 <= j < |atts| && Fold(atts[j].metricsName) == k
    ensures forall i, j :: 0 <= i < j < |ps| ==> ps[i] < ps[j]
    decreases |atts|
  {
    if |atts| == 0 then []
    else
      var n := |atts| - 1;
      var init := Positions(atts[..n], k);
      assert forall i :: 0 <= i < |init| ==> init[i] in init;
      if Fold(atts[n].metricsName) == k then init + [n] else init
  }

  /** The summed duration of the sessions counted under folded metrics name `k`. */
  function DurationSum(atts: seq<Attention>, k: string): real
    decreases |atts|
  {
    if |atts| == 0 then 0.0
    else
      var n := |atts| - 1;
      DurationSum(atts[..n], k) + (if Fold(atts[n].metricsName) == k then atts[n].duration else 0.0)
  }

  /** What the fold computes, stated per folded metrics name without the fold: a name
      has an entry iff some session was counted under it; the entry's indices
      are exactly those sessions' positions, its total their summed duration,
      its count their number, its average total over count, and its first
      attention the start of the first of them. */
  lemma {:induction false} TabulateComputes(atts: seq<Attention>, k: string)
    ensures k in Tabulate(atts).entries <==> |Positions(atts, k)| > 0
    ensures k in Tabulate(atts).entries ==>
              var ps := Positions(atts, k);
              |ps| > 0 && ps[0] in ps &&
              Tabulate(atts).entries[k] ==
                Entry(DurationSum(atts, k), DurationSum(atts, k) / |ps| as real,
                      atts[ps[0]].start, |ps|, ps)
    decreases |atts|
  {
    if |atts| > 0 {
      var n := |atts| - 1;
      var init, a := atts[..n], atts[n];
      TabulateComputes(init, k);
      assert atts == init + [a];
      if Fold(a.metricsName) != k {
        ComputesElsewhere(init, a, k);
      } else if |Positions(init, k)| > 0 {
        ComputesExtended(init, a, k);
      } else {
        ComputesCreated(init, a, k);
      }
    }
  }

  /** The three ways one more session changes the entry under `k`, each from
      what holds before it. */
  lemma ComputesElsewhere(init: seq<Attention>, a: Attention, k: string)
    requires Fold(a.metricsName) != k
    requires k in Tabulate(init).entries <==> |Positions(init, k)| > 0
    requires k in Tabulate(init).entries ==>
               var ps := Positions(init, k);
               |ps| > 0 && ps[0] in ps && Tabulate(init).entries[k] ==
                 Entry(DurationSum(init, k), DurationSum(init, k) / |ps| as real, init[ps[0]].start, |ps|, ps)
    ensures var atts := init + [a];
            (k in Tabulate(atts).entries <==> |Positions(atts, k)| > 0) &&
            (k in Tabulate(atts).entries ==>
               var ps := Positions(atts, k);
               |ps| > 0 && ps[0] in ps && Tabulate(atts).entries[k] ==
                 Entry(DurationSum(atts, k), DurationSum(atts, k) / |ps| as real, atts[ps[0]].start, |ps|, ps))
  {
    var atts := init + [a];
    var n := |init|;
    assert atts[..n] == init && atts[n] == a;
    var ps := Positions(init, k);
    assert Positions(atts, k) == ps;
    assert DurationSum(atts, k) == DurationSum(init, k);
    AddSessionElsewhere(Tabulate(init), a, n, k);
    if |ps| > 0 {
      assert ps[0] in ps;
      assert atts[ps[0]] == init[ps[0]];
    }
  }

  lemma ComputesExtended(init: seq<Attention>, a: Attention, k: string)
    requires Fold(a.metricsName) == k && |Positions(init, k)| > 0
    requires k in Tabulate(init).entries
    requires var ps := Positions(init, k);
             ps[0] in ps && Tabulate(init).entries[k] ==
               Entry(DurationSum(init, k), DurationSum(init, k) / |ps| as real, init[ps[0]].start, |ps|, ps)
    ensures var atts := init + [a];
            var ps := Positions(atts, k);
            k in Tabulate(atts).entries && |ps| > 0 && ps[0] in ps &&
            Tabulate(atts).entries[k] ==
              Entry(DurationSum(atts, k), DurationSum(atts, k) / |ps| as real, atts[ps[0]].start, |ps|, ps)
  {
    var atts := init + [a];
    var n := |init|;
    assert atts[..n] == init && atts[n] == a;
    var ps := Positions(init, k);
    assert Positions(atts, k) == ps + [n];
    var total := DurationSum(atts, k);
    assert total == DurationSum(init, k) + a.duration;
    assert ps[0] in ps;
    assert atts[ps[0]] == init[ps[0]];
    AddSessionExtends(Tabulate(init), a, n, k);
    assert (ps + [n])[0] == ps[0] && |ps + [n]| == |ps| + 1;
  }

  lemma ComputesCreated(init: seq<Attention>, a: Attention, k: string)
    requires Fold(a.metricsName) == k && |Positions(init, k)| == 0
    requires k !in Tabulate(init).entries
    ensures var atts := init + [a];
            var ps := Positions(atts, k);
            k in Tabulate(atts).entries && |ps| > 0 && ps[0] in ps &&
            Tabulate(atts).entries[k] ==
              Entry(DurationSum(atts, k), DurationSum(atts, k) / |ps| as real, atts[ps[0]].start, |ps|, ps)
  {
    var atts := init + [a];
    var n := |init|;
    assert atts[..n] == init && atts[n] == a;
    assert Positions(atts, k) == [n];
    DurationSumWithoutPositions(init, k);
    AddSessionCreates(Tabulate(init), a, n, k);
  }

  lemma AddSessionElsewhere(t: Table, a: Attention, index: int, k: string)
    requires Fold(a.metricsName) != k
    ensures k in AddSession(t, a, index).entries <==> k in t.entries
    ensures k in t.entries ==> AddSession(t, a, index).entries[k] == t.entries[k]
  {
  }

  lemma AddSessionCreates(t: Table, a: Attention, index: int, k: string)
    requires Fold(a.metricsName) == k && k !in t.entries
    ensures k in AddSession(t, a, index).entries
    ensures AddSession(t, a, index).entries[k] == Entry(a.duration, a.duration, a.start, 1, [index])
  {
  }

  lemma AddSessionExtends(t: Table, a: Attention, index: int, k: string)
    requires Fold(a.metricsName) == k && k in t.entries
    ensures k in AddSession(t, a, index).entries
    ensures var e := t.entries[k];
            AddSession(t, a, index).entries[k] ==
              Entry(e.total + a.duration, (e.total + a.duration) / (|e.indices| + 1) as real,
                    e.firstAttentionAfter, e.timesFocussed + 1, e.indices + [index])
  {
  }

  lemma {:induction false} DurationSumWithoutPositions(atts: seq<Attention>, k: string)
    requires |Positions(atts, k)| == 0
    ensures DurationSum(atts, k) == 0.0
    decreases |atts|
  {
    if |atts| > 0 {
      var n := |atts| - 1;
      assert n !in Positions(atts, k);
      assert |Positions(atts[..n], k)| == 0;
      DurationSumWithoutPositions(atts[..n], k);
    }
  }

  /** Table-wide consequences: every entry was focussed as often as it holds
      indices, its average is its total over that count, its indices rise
      strictly, and each session index 0..|atts|-1 belongs to exactly one
      entry, the one named by that session. */
  lemma TabulateInvariants(atts: seq<Attention>)
    ensures forall k :: k in Tabulate(atts).entries ==> EntryInvariant(atts, k, Tabulate(atts).entries[k])
  {
    forall k | k in Tabulate(atts).entries
      ensures EntryInvariant(atts, k, Tabulate(atts).entries[k])
    {
      TabulateComputes(atts, k);
    }
  }

  /** The entry kept for folded metrics name `k` after counting `atts`. */
  ghost predicate EntryInvariant(atts: seq<Attention>, k: string, e: Entry)
  {
    && |e.indices| >= 1
    && e.timesFocussed == |e.indices|
    && e.average == e.total / |e.indices| as real
    && (forall i, j :: 0 <= i < j < |e.indices| ==> e.indices[i] < e.indices[j])
    && (forall j :: j in e.indices <==> 0 <= j < |atts| && Fold(atts[j].metricsName) == k)
  }

  /** The session indices are handed out as 0, 1, 2, ... : every index below
      the number of counted sessions sits in the entry of that session's name,
      and in no other entry. */
  lemma IndicesOwnedOnce(atts: seq<Attention>, j: int)
    requires 0 <= j < |atts|
    ensures Fold(atts[j].metricsName) in Tabulate(atts).entries
    ensures forall k :: k in Tabulate(atts).entries ==>
              (j in Tabulate(atts).entries[k].indices <==> k == Fold(atts[j].metricsName))
  {
    TabulateComputes(atts, Fold(atts[j].metricsName));
    forall k | k in Tabulate(atts).entries
      ensures j in Tabulate(atts).entries[k].indices <==> k == Fold(atts[j].metricsName)
    {
      TabulateComputes(atts, k);
    }
  }

  /** The key order lists every metrics name that has an entry, each once
      (no two keys differ only in ASCII case). */
  lemma {:induction false} TabulateKeysDistinct(atts: seq<Attention>)
    ensures forall i :: 0 <= i < |Tabulate(atts).keys| ==> Fold(Tabulate(atts).keys[i]) in Tabulate(atts).entries
    ensures forall k :: k in Tabulate(atts).entries ==>
              exists i :: 0 <= i < |Tabulate(atts).keys| && Fold(Tabulate(atts).keys[i]) == k
    ensures forall i, j :: 0 <= i < j < |Tabulate(atts).keys| ==>
              Fold(Tabulate(atts).keys[i]) != Fold(Tabulate(atts).keys[j])
    decreases |atts|
  {
    if |atts| > 0 {
      var t := Tabulate(atts[..|atts| - 1]);
      TabulateKeysDistinct(atts[..|atts| - 1]);
      var ks := Tabulate(atts).keys;
      forall k | k in Tabulate(atts).entries
        ensures exists i :: 0 <= i < |ks| && Fold(ks[i]) == k
      {
        if k in t.entries {
          var i :| 0 <= i < |t.keys| && Fold(t.keys[i]) == k;
          assert ks[i] == t.keys[i];
        } else {
          assert Fold(ks[|ks| - 1]) == k;
        }
      }
    }
  }

  /** Each key is spelled as the first session counted under it spelled its
      metrics name; later spellings that differ only in case do not rename it. */
  lemma {:induction false} TabulateKeySpelling(atts: seq<Attention>)
    ensures forall i :: 0 <= i < |Tabulate(atts).keys| ==>
              var ps := Positions(atts, Fold(Tabulate(atts).keys[i]));
              |ps| > 0 && ps[0] in ps && Tabulate(atts).keys[i] == atts[ps[0]].metricsName
    decreases |atts|
  {
    if |atts| > 0 {
      var n := |atts| - 1;
      var init := atts[..n];
      TabulateKeySpelling(init);
      TabulateKeysDistinct(init);
      var t := Tabulate(init);
      var ks := Tabulate(atts).keys;
      forall i | 0 <= i < |ks|
        ensures var ps := Positions(atts, Fold(ks[i]));
                |ps| > 0 && ps[0] in ps && ks[i] == atts[ps[0]].metricsName
      {
        if i < |t.keys| {
          assert ks[i] == t.keys[i];
          FirstPositionKept(atts, Fold(ks[i]));
          var p0 := Positions(init, Fold(ks[i]))[0];
          assert p0 in Positions(init, Fold(ks[i]));
          assert atts[p0] == init[p0];
        } else {
          TabulateComputes(init, Fold(ks[i]));
          assert Positions(atts, Fold(ks[i])) == [n];
        }
      }
    }
  }

  /** Some session was counted under `k1` before any session under `k2`. */
  ghost predicate FirstCountedBefore(atts: seq<Attention>, k1: string, k2: string)
  {
    |Positions(atts, k1)| > 0 && |Positions(atts, k2)| > 0 &&
    Positions(atts, k1)[0] < Positions(atts, k2)[0]
  }

  lemma FirstPositionKept(atts: seq<Attention>, k: string)
    requires |atts| > 0 && |Positions(atts[..|atts| - 1], k)| > 0
    ensures |Positions(atts, k)| > 0
    ensures Positions(atts, k)[0] == Positions(atts[..|atts| - 1], k)[0] < |atts| - 1
  {
    var p := Positions(atts[..|atts| - 1], k)[0];
    assert p in Positions(atts[..|atts| - 1], k);
  }

  /** The keys are ordered by the position of the first session counted under
      each name. */
  lemma {:induction false} TabulateKeyOrder(atts: seq<Attention>)
    ensures forall i, j :: 0 <= i < j < |Tabulate(atts).keys| ==>
              FirstCountedBefore(atts, Fold(Tabulate(atts).keys[i]), Fold(Tabulate(atts).keys[j]))
    decreases |atts|
  {
    if |atts| > 0 {
      var n := |atts| - 1;
      var init := atts[..n];
      TabulateKeyOrder(init);
      TabulateKeysDistinct(init);
      var t := Tabulate(init);
      var a := atts[n];
      var ks := Tabulate(atts).keys;
      forall i, j | 0 <= i < j < |ks|
        ensures FirstCountedBefore(atts, Fold(ks[i]), Fold(ks[j]))
      {
        assert ks[i] == t.keys[i] && Fold(ks[i]) in t.entries;
        TabulateComputes(init, Fold(ks[i]));
        FirstPositionKept(atts, Fold(ks[i]));
        if j < |t.keys| {
          assert ks[j] == t.keys[j] && Fold(ks[j]) in t.entries;
          assert FirstCountedBefore(init, Fold(t.keys[i]), Fold(t.keys[j]));
          TabulateComputes(init, Fold(ks[j]));
          FirstPositionKept(atts, Fold(ks[j]));
        } else {
          assert ks[j] == a.metricsName && Fold(a.metricsName) !in t.entries;
          TabulateComputes(init, Fold(a.metricsName));
          assert Positions(atts, Fold(ks[j])) == [n];
        }
      }
    }
  }

  /** Folding in a session never lowers any total when its duration is not
      negative, and leaves the first-attention time of every name that already
      had an entry as it was. */
  lemma AddSessionMonotone(t: Table, a: Attention, index: int)
    requires a.duration >= 0.0
    ensures forall k :: k in t.entries ==> k in AddSession(t, a, index).entries
    ensures forall k :: k in t.entries ==>
              AddSession(t, a, index).entries[k].total >= t.entries[k].total &&
              AddSession(t, a, index).entries[k].firstAttentionAfter == t.entries[k].firstAttentionAfter
  {
  }

  /** Counted sessions all last non-negative time, so every total is at least 0. */
  lemma {:induction false} TotalsNonNegative(atts: seq<Attention>)
    requires forall j :: 0 <= j < |atts| ==> atts[j].duration >= 0.0
    ensures forall k :: k in Tabulate(atts).entries ==> Tabulate(atts).entries[k].total >= 0.0
    decreases |atts|
  {
    if |atts| > 0 {
      TotalsNonNegative(atts[..|atts| - 1]);
    }
  }
}
