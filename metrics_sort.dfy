/**
 * Sorting the attention-metrics table (HeatmapRT.cpp, SortAttentionMetrics):
 * the comparator for each sort mode and direction, why it is a strict order
 * for every mode except the `Max` end marker, and a sort of the table's rows
 * into a permutation that the comparator never finds out of order.
 */
module MetricsSort {
  import opened HeatmapTypes
  import opened MetricsTable

  /** One (key, entry) pair of the table, as the sort sees it. */
  datatype Row = Row(key: string, entry: Entry)

  /** Lexicographic order by character code, a proper prefix first: the order
      the engine's case-insensitive string compare applies to folded strings. */
  function LexLess(a: string, b: string): bool
    decreases |a|
  {
    if |b| == 0 then false
    else if |a| == 0 then true
    else if a[0] != b[0] then a[0] < b[0]
    else LexLess(a[1..], b[1..])
  }

  /** The engine's `<` on strings: case-insensitive lexicographic order. */
  function NameLess(a: string, b: string): bool
  {
    LexLess(Fold(a), Fold(b))
  }

  lemma {:induction false} LexLessIrreflexive(a: string)
    ensures !LexLess(a, a)
    decreases |a|
  {
    if |a| > 0 {
      LexLessIrreflexive(a[1..]);
    }
  }

  lemma {:induction false} LexLessTransitive(a: string, b: string, c: string)
    requires LexLess(a, b) && LexLess(b, c)
    ensures LexLess(a, c)
    decreases |a|
  {
    if |a| > 0 && a[0] == b[0] && b[0] == c[0] {
      LexLessTransitive(a[1..], b[1..], c[1..]);
    }
  }

  /** Two strings that are not equal are ordered one way or the other. */
  lemma {:induction false} LexLessTotal(a: string, b: string)
    requires a != b
    ensures LexLess(a, b) || LexLess(b, a)
    decreases |a|
  {
    if |a| > 0 && |b| > 0 && a[0] == b[0] {
      assert a == [a[0]] + a[1..] && b == [b[0]] + b[1..];
      LexLessTotal(a[1..], b[1..]);
    }
  }

  /** The comparator handed to the engine's sort, as written: for each mode it
      compares the chosen key, ascending or descending, and for the `Max` end
      marker it answers true. */
  function Comparator(mode: SortMode, ascending: bool, a: Row, b: Row): bool
  {
    match mode
    case Name => if ascending then NameLess(a.key, b.key) else NameLess(b.key, a.key)
    case First =>
      if ascending then a.entry.firstAttentionAfter < b.entry.firstAttentionAfter
      else a.entry.firstAttentionAfter > b.entry.firstAttentionAfter
    case Total =>
      if ascending then a.entry.total < b.entry.total else a.entry.total > b.entry.total
    case Times =>
      if ascending then a.entry.timesFocussed < b.entry.timesFocussed
      else a.entry.timesFocussed > b.entry.timesFocussed
    case Average =>
      if ascending then a.entry.average < b.entry.average else a.entry.average > b.entry.average
    case Max => true
  }

  /** For every real mode the comparator is a strict order: no row precedes
      itself, and precedence is transitive (so also asymmetric). */
  lemma ComparatorIrreflexive(mode: SortMode, ascending: bool, a: Row)
    requires mode != Max
    ensures !Comparator(mode, ascending, a, a)
  {
    if mode == Name {
      LexLessIrreflexive(Fold(a.key));
    }
  }

  lemma ComparatorTransitive(mode: SortMode, ascending: bool, a: Row, b: Row, c: Row)
    requires mode != Max
    requires Comparator(mode, ascending, a, b) && Comparator(mode, ascending, b, c)
    ensures Comparator(mode, ascending, a, c)
  {
    if mode == Name {
      if ascending {
        LexLessTransitive(Fold(a.key), Fold(b.key), Fold(c.key));
      } else {
        LexLessTransitive(Fold(c.key), Fold(b.key), Fold(a.key));
      }
    }
  }

  lemma ComparatorAsymmetric(mode: SortMode, ascending: bool, a: Row, b: Row)
    requires mode != Max
    requires Comparator(mode, ascending, a, b)
    ensures !Comparator(mode, ascending, b, a)
  {
    if Comparator(mode, ascending, b, a) {
      ComparatorTransitive(mode, ascending, a, b, a);
      ComparatorIrreflexive(mode, ascending, a);
    }
  }

  /** Sorting by name ties only keys that are equal up to ASCII case, and the
      table never holds two such keys, so the name order is total on a table. */
  lemma NameOrderTotal(ascending: bool, a: Row, b: Row)
    requires Fold(a.key) != Fold(b.key)
    ensures Comparator(Name, ascending, a, b) || Comparator(Name, ascending, b, a)
  {
    LexLessTotal(Fold(a.key), Fold(b.key));
  }

  /** The `Max` marker's comparator claims every row precedes itself, so it is
      no strict order and a sort under it has no meaningful result. */
  lemma MaxComparatorNotAnOrder(ascending: bool, a: Row)
    ensures Comparator(Max, ascending, a, a)
  {
  }

  /** No later row precedes an earlier one under the comparator. */
  ghost predicate SortedBy(mode: SortMode, ascending: bool, rows: seq<Row>)
  {
    forall i, j :: 0 <= i < j < |rows| ==> !Comparator(mode, ascending, rows[j], rows[i])
  }

  /** The table's pairs in key order. */
  function RowsOf(t: Table): (rows: seq<Row>)
    requires forall i :: 0 <= i < |t.keys| ==> Fold(t.keys[i]) in t.entries
    ensures |rows| == |t.keys|
    ensures forall i :: 0 <= i < |rows| ==> rows[i] == Row(t.keys[i], t.entries[Fold(t.keys[i])])
  {
    seq(|t.keys|, i requires 0 <= i < |t.keys| => Row(t.keys[i], t.entries[Fold(t.keys[i])]))
  }

  /** Sorts the rows by the comparator of `mode` and direction `ascending`.
      The engine's sort is not stable, so nothing is promised about the order
      of rows the comparator ties; this insertion sort is one such sort. The
      `Max` marker's comparator answers true for every pair, which orders
      nothing, so for it only the permutation is promised. */
  method SortRows(rows: seq<Row>, mode: SortMode, ascending: bool) returns (sorted: seq<Row>)
    ensures multiset(sorted) == multiset(rows)
    ensures mode != Max ==> SortedBy(mode, ascending, sorted)
  {
    sorted := [];
    var i := 0;
    while i < |rows|
      invariant 0 <= i <= |rows|
      invariant multiset(sorted) == multiset(rows[..i])
      invariant mode != Max ==> SortedBy(mode, ascending, sorted)
    {
      PrefixGrows(rows, i);
      sorted := InsertRow(sorted, rows[i], mode, ascending);
      i := i + 1;
    }
    assert rows[..i] == rows;
  }

  /** Inserts `r` before the first row it precedes. */
  method InsertRow(sorted: seq<Row>, r: Row, mode: SortMode, ascending: bool) returns (next: seq<Row>)
    ensures multiset(next) == multiset(sorted) + multiset{r}
    ensures mode != Max && SortedBy(mode, ascending, sorted) ==> SortedBy(mode, ascending, next)
  {
    var j := InsertionSlot(sorted, r, mode, ascending);
    if mode != Max && SortedBy(mode, ascending, sorted) {
      InsertKeepsSorted(mode, ascending, sorted, r, j);
    }
    InsertAddsOne(sorted, r, j);
    next := sorted[..j] + [r] + sorted[j..];
  }

  lemma InsertAddsOne(s: seq<Row>, r: Row, j: int)
    requires 0 <= j <= |s|
    ensures multiset(s[..j] + [r] + s[j..]) == multiset(s) + multiset{r}
  {
    assert s == s[..j] + s[j..];
  }

  lemma PrefixGrows(rows: seq<Row>, i: int)
    requires 0 <= i < |rows|
    ensures multiset(rows[..i + 1]) == multiset(rows[..i]) + multiset{rows[i]}
  {
    assert rows[..i + 1] == rows[..i] + [rows[i]];
  }

  /** The position before the first row that `r` precedes, or the end. */
  method InsertionSlot(sorted: seq<Row>, r: Row, mode: SortMode, ascending: bool) returns (j: int)
    ensures 0 <= j <= |sorted|
    ensures forall k :: 0 <= k < j ==> !Comparator(mode, ascending, r, sorted[k])
    ensures j < |sorted| ==> Comparator(mode, ascending, r, sorted[j])
  {
    j := 0;
    while j < |sorted| && !Comparator(mode, ascending, r, sorted[j])
      invariant 0 <= j <= |sorted|
      invariant forall k :: 0 <= k < j ==> !Comparator(mode, ascending, r, sorted[k])
    {
      j := j + 1;
    }
  }

  /** Inserting `r` before the first row it precedes keeps a sorted sequence sorted. */
  lemma InsertKeepsSorted(mode: SortMode, ascending: bool, s: seq<Row>, r: Row, j: int)
    requires mode != Max
    requires 0 <= j <= |s|
    requires SortedBy(mode, ascending, s)
    requires forall k :: 0 <= k < j ==> !Comparator(mode, ascending, r, s[k])
    requires j < |s| ==> Comparator(mode, ascending, r, s[j])
    ensures SortedBy(mode, ascending, s[..j] + [r] + s[j..])
  {
    var t := s[..j] + [r] + s[j..];
    forall a, b | 0 <= a < b < |t|
      ensures !Comparator(mode, ascending, t[b], t[a])
    {
      if b < j {
        assert t[a] == s[a] && t[b] == s[b];
      } else if b == j {
        assert t[b] == r && t[a] == s[a];
      } else if a == j {
        assert t[a] == r && t[b] == s[b - 1];
        if Comparator(mode, ascending, s[b - 1], r) {
          if b - 1 == j {
            ComparatorAsymmetric(mode, ascending, r, s[j]);
          } else {
            ComparatorTransitive(mode, ascending, s[b - 1], r, s[j]);
          }
        }
      } else if a < j {
        assert t[a] == s[a] && t[b] == s[b - 1];
      } else {
        assert t[a] == s[a - 1] && t[b] == s[b - 1];
      }
    }
  }

  /** A table whose key order lists each entry exactly once. */
  ghost predicate WellFormed(t: Table)
  {
    && (forall i :: 0 <= i < |t.keys| ==> Fold(t.keys[i]) in t.entries)
    && (forall k :: k in t.entries ==> exists i :: 0 <= i < |t.keys| && Fold(t.keys[i]) == k)
    && (forall i, j :: 0 <= i < j < |t.keys| ==> Fold(t.keys[i]) != Fold(t.keys[j]))
  }

  /** Every table the aggregation builds is well formed. */
  lemma TabulateWellFormed(atts: seq<AttentionSessions.Attention>)
    ensures WellFormed(Tabulate(atts))
  {
    TabulateKeysDistinct(atts);
  }

  /** The table the refill loop builds from `rows`: each pair added in turn,
      each to a key not present yet. */
  function KeysOf(rows: seq<Row>): (keys: seq<string>)
    ensures |keys| == |rows|
    ensures forall i :: 0 <= i < |rows| ==> keys[i] == rows[i].key
  {
    seq(|rows|, i requires 0 <= i < |rows| => rows[i].key)
  }

  lemma OccursTwice(s: seq<Row>, i: int, j: int)
    requires 0 <= i < j < |s| && s[i] == s[j]
    ensures multiset(s)[s[i]] >= 2
  {
    assert s == s[..j] + [s[j]] + s[j + 1..];
    assert s[i] in s[..j];
  }

  lemma {:induction false} DistinctOccursOnce(s: seq<Row>, x: Row)
    requires forall i, j :: 0 <= i < j < |s| ==> s[i] != s[j]
    ensures multiset(s)[x] <= 1
    decreases |s|
  {
    if |s| > 0 {
      var init := s[..|s| - 1];
      DistinctOccursOnce(init, x);
      assert s == init + [s[|s| - 1]];
    }
  }

  lemma RowsOfDistinct(t: Table)
    requires forall i :: 0 <= i < |t.keys| ==> Fold(t.keys[i]) in t.entries
    requires forall i, j :: 0 <= i < j < |t.keys| ==> Fold(t.keys[i]) != Fold(t.keys[j])
    ensures forall i, j :: 0 <= i < j < |RowsOf(t)| ==> RowsOf(t)[i] != RowsOf(t)[j]
  {
  }

  /** Each row of a permutation of a table's rows is a pair of the table. */
  lemma PermutedRowsAreEntries(t: Table, rows: seq<Row>)
    requires forall i :: 0 <= i < |t.keys| ==> Fold(t.keys[i]) in t.entries
    requires multiset(rows) == multiset(RowsOf(t))
    ensures forall i :: 0 <= i < |rows| ==>
              Fold(rows[i].key) in t.entries && rows[i].entry == t.entries[Fold(rows[i].key)]
  {
    var old_ := RowsOf(t);
    forall i | 0 <= i < |rows|
      ensures Fold(rows[i].key) in t.entries && rows[i].entry == t.entries[Fold(rows[i].key)]
    {
      assert rows[i] in multiset(old_);
      var k :| 0 <= k < |old_| && old_[k] == rows[i];
    }
  }

  lemma PermutedKeysCover(t: Table, rows: seq<Row>)
    requires WellFormed(t)
    requires multiset(rows) == multiset(RowsOf(t))
    ensures forall k :: k in t.entries ==> exists i :: 0 <= i < |rows| && Fold(KeysOf(rows)[i]) == k
  {
    var old_ := RowsOf(t);
    forall k | k in t.entries
      ensures exists i :: 0 <= i < |rows| && Fold(KeysOf(rows)[i]) == k
    {
      var m :| 0 <= m < |t.keys| && Fold(t.keys[m]) == k;
      assert old_[m] in multiset(rows);
      var i :| 0 <= i < |rows| && rows[i] == old_[m];
      assert Fold(KeysOf(rows)[i]) == k;
    }
  }

  lemma PermutedKeysDistinct(t: Table, rows: seq<Row>)
    requires WellFormed(t)
    requires multiset(rows) == multiset(RowsOf(t))
    ensures forall i, j :: 0 <= i < j < |rows| ==> Fold(KeysOf(rows)[i]) != Fold(KeysOf(rows)[j])
  {
    RowsOfDistinct(t);
    forall i, j | 0 <= i < j < |rows|
      ensures Fold(KeysOf(rows)[i]) != Fold(KeysOf(rows)[j])
    {
      DistinctOccursOnce(RowsOf(t), rows[i]);
      OnceMeansDistinct(rows, i, j);
      DistinctRowsDistinctKeys(t, rows, i, j);
    }
  }

  /** A value that occurs at most once in a sequence is different from every
      other element of it. */
  lemma OnceMeansDistinct(s: seq<Row>, i: int, j: int)
    requires 0 <= i < j < |s| && multiset(s)[s[i]] <= 1
    ensures s[i] != s[j]
  {
    if s[i] == s[j] {
      OccursTwice(s, i, j);
    }
  }

  /** Two different rows of a permutation of a table's rows have keys that
      fold apart. */
  lemma DistinctRowsDistinctKeys(t: Table, rows: seq<Row>, i: int, j: int)
    requires forall a :: 0 <= a < |t.keys| ==> Fold(t.keys[a]) in t.entries
    requires forall a, b :: 0 <= a < b < |t.keys| ==> Fold(t.keys[a]) != Fold(t.keys[b])
    requires multiset(rows) == multiset(RowsOf(t))
    requires 0 <= i < j < |rows| && rows[i] != rows[j]
    ensures Fold(KeysOf(rows)[i]) != Fold(KeysOf(rows)[j])
  {
    var old_ := RowsOf(t);
    assert rows[i] in multiset(old_) && rows[j] in multiset(old_);
    var m :| 0 <= m < |old_| && old_[m] == rows[i];
    var n :| 0 <= n < |old_| && old_[n] == rows[j];
    assert m != n;
    if m < n {
      assert Fold(t.keys[m]) != Fold(t.keys[n]);
    } else {
      assert Fold(t.keys[n]) != Fold(t.keys[m]);
    }
  }

  /** Rebuilding a well-formed table from any permutation of its rows gives
      back the same entries, a well-formed table again, whose rows are that
      permutation. */
  lemma RefillFromPermutation(t: Table, rows: seq<Row>)
    requires WellFormed(t)
    requires multiset(rows) == multiset(RowsOf(t))
    ensures WellFormed(Table(KeysOf(rows), t.entries))
    ensures RowsOf(Table(KeysOf(rows), t.entries)) == rows
  {
    PermutedRowsAreEntries(t, rows);
    PermutedKeysCover(t, rows);
    PermutedKeysDistinct(t, rows);
  }

  /** The table the refill loop builds: the rows added in order, each to a
      key that is not present yet. */
  function Refill(rows: seq<Row>): (t: Table)
    ensures t.keys == KeysOf(rows)
    decreases |rows|
  {
    if |rows| == 0 then EmptyTable
    else
      var t := Refill(rows[..|rows| - 1]);
      var r := rows[|rows| - 1];
      Table(t.keys + [r.key], t.entries[Fold(r.key) := r.entry])
  }

  lemma {:induction false} RefillEntries(t: Table, rows: seq<Row>)
    requires forall i :: 0 <= i < |rows| ==>
               Fold(rows[i].key) in t.entries && rows[i].entry == t.entries[Fold(rows[i].key)]
    ensures forall k :: k in Refill(rows).entries <==> exists i :: 0 <= i < |rows| && Fold(rows[i].key) == k
    ensures forall k :: k in Refill(rows).entries ==> k in t.entries && Refill(rows).entries[k] == t.entries[k]
    decreases |rows|
  {
    if |rows| > 0 {
      var init := rows[..|rows| - 1];
      RefillEntries(t, init);
      forall k | k in Refill(rows).entries
        ensures exists i :: 0 <= i < |rows| && Fold(rows[i].key) == k
      {
        if k in Refill(init).entries {
          var i :| 0 <= i < |init| && Fold(init[i].key) == k;
          assert rows[i] == init[i];
        } else {
          assert Fold(rows[|rows| - 1].key) == k;
        }
      }
      forall k | exists i :: 0 <= i < |rows| && Fold(rows[i].key) == k
        ensures k in Refill(rows).entries
      {
        var i :| 0 <= i < |rows| && Fold(rows[i].key) == k;
        if i < |rows| - 1 {
          assert init[i] == rows[i];
        }
      }
    }
  }

  /** Emptying the table and adding back a permutation of its rows restores
      its entries and leaves the rows in the permutation's order. */
  lemma RefillPermutation(t: Table, rows: seq<Row>)
    requires WellFormed(t)
    requires multiset(rows) == multiset(RowsOf(t))
    ensures Refill(rows) == Table(KeysOf(rows), t.entries)
    ensures WellFormed(Refill(rows))
    ensures RowsOf(Refill(rows)) == rows
  {
    PermutedRowsAreEntries(t, rows);
    PermutedKeysCover(t, rows);
    RefillEntries(t, rows);
    SameEntries(Refill(rows).entries, t.entries, rows);
    RefillFromPermutation(t, rows);
  }

  /** Two maps agree when each holds exactly the folded keys of `rows` and
      the first's values are the second's. */
  lemma SameEntries(m1: map<string, Entry>, m2: map<string, Entry>, rows: seq<Row>)
    requires forall k :: k in m1 <==> exists i :: 0 <= i < |rows| && Fold(rows[i].key) == k
    requires forall k :: k in m2 ==> exists i :: 0 <= i < |rows| && Fold(KeysOf(rows)[i]) == k
    requires forall k :: k in m1 ==> k in m2 && m1[k] == m2[k]
    ensures m1 == m2
  {
    forall k | k in m2
      ensures k in m1
    {
      var i :| 0 <= i < |rows| && Fold(KeysOf(rows)[i]) == k;
      assert Fold(rows[i].key) == k;
    }
  }
}
