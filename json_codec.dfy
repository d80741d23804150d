/**
 * The JSON side of JsonParser.cpp over an abstract JSON tree: reading and
 * writing recorded data points, writing the metrics table, reading and
 * writing the material-overlay configuration, and the generic object reader.
 * Turning text into a tree and back, and touching the file system, belong to
 * the engine; a file is given as what reading it would produce.
 */
module JsonCodec {
  import opened HeatmapTypes
  import opened MetricsTable

  /** An object is the list of its members in text order, each a key as
      spelled and a value. */
  datatype JValue =
    | JNum(n: real)
    | JStr(s: string)
    | JArr(items: seq<JValue>)
    | JObj(members: seq<(string, JValue)>)

  /** A file as the reader finds it: absent, present but unreadable, or read,
      with the tree its text deserializes to (None when it is not JSON). */
  datatype FileContents = Missing | Unreadable | Text(parsed: Option<JValue>)

  /** Reading the file as a string succeeds exactly when the file is readable. */
  predicate FileReadSucceeds(file: FileContents)
  {
    file.Text?
  }

  /** The engine's deserializer accepts only an object or an array at the
      root of the text. */
  predicate IsContainer(v: JValue)
  {
    v.JArr? || v.JObj?
  }

  /** The tree a file deserializes to; an unreadable file yields the empty
      string, which deserializes to nothing, and so does text whose root is
      a lone number or string. */
  function Deserialized(file: FileContents): (r: Option<JValue>)
    ensures r.Some? <==> file.Text? && file.parsed.Some? && IsContainer(file.parsed.value)
    ensures r.Some? ==> r == file.parsed
  {
    if file.Text? && file.parsed.Some? && IsContainer(file.parsed.value) then file.parsed else None
  }

  /** The value an engine object holds under `name`. Its field map compares
      keys without regard to ASCII case, and a member replaces an earlier one
      whose key compares equal, so the last such member is the one found. */
  function Lookup(members: seq<(string, JValue)>, name: string): Option<JValue>
    decreases |members|
  {
    if |members| == 0 then None
    else if SameName(members[|members| - 1].0, name) then Some(members[|members| - 1].1)
    else Lookup(members[..|members| - 1], name)
  }

  /** A lookup finds nothing exactly when no key equals `name` ignoring case,
      and otherwise the value of the last member whose key does. */
  lemma {:induction false} LookupFindsLast(members: seq<(string, JValue)>, name: string)
    ensures Lookup(members, name).None? <==> forall k :: 0 <= k < |members| ==> !SameName(members[k].0, name)
    ensures Lookup(members, name).Some? ==>
              exists k :: 0 <= k < |members| && SameName(members[k].0, name) &&
                Lookup(members, name).value == members[k].1 &&
                forall j :: k < j < |members| ==> !SameName(members[j].0, name)
    decreases |members|
  {
    if |members| > 0 {
      var n := |members| - 1;
      LookupFindsLast(members[..n], name);
      assert forall k :: 0 <= k < n ==> members[..n][k] == members[k];
      if !SameName(members[n].0, name) && Lookup(members, name).Some? {
        var k :| 0 <= k < n && SameName(members[..n][k].0, name) &&
          Lookup(members[..n], name).value == members[..n][k].1 &&
          forall j :: k < j < n ==> !SameName(members[..n][j].0, name);
        assert SameName(members[k].0, name);
      }
    }
  }

  /** The member at `k` answers to `name` and no later one does: the lookup
      finds its value. */
  lemma LookupAt(members: seq<(string, JValue)>, k: int, name: string)
    requires 0 <= k < |members| && SameName(members[k].0, name)
    requires forall j :: k < j < |members| ==> !SameName(members[j].0, name)
    ensures Lookup(members, name) == Some(members[k].1)
  {
    LookupFindsLast(members, name);
    var k' :| 0 <= k' < |members| && SameName(members[k'].0, name) &&
      Lookup(members, name).value == members[k'].1 &&
      forall j :: k' < j < |members| ==> !SameName(members[j].0, name);
    assert k' == k;
  }

  /** The number under `name`, or None when there is none or it is not a number. */
  function NumberField(members: seq<(string, JValue)>, name: string): Option<real>
  {
    var v := Lookup(members, name);
    if v.Some? && v.value.JNum? then Some(v.value.n) else None
  }

  /** The string under `name`, or None when there is none or it is not a string. */
  function StringField(members: seq<(string, JValue)>, name: string): Option<string>
  {
    var v := Lookup(members, name);
    if v.Some? && v.value.JStr? then Some(v.value.s) else None
  }

  /** The members the reader sees in a value: a value that is not an object
      reads as an empty object. */
  function MembersOf(v: JValue): seq<(string, JValue)>
  {
    if v.JObj? then v.members else []
  }

  /** A lookup finds the same value under every spelling of a name. */
  lemma {:induction false} LookupIgnoresCase(members: seq<(string, JValue)>, a: string, b: string)
    requires SameName(a, b)
    ensures Lookup(members, a) == Lookup(members, b)
    decreases |members|
  {
    if |members| > 0 {
      LookupIgnoresCase(members[..|members| - 1], a, b);
    }
  }

  /** Two member lists whose keys are spelled alike up to case, position by
      position, with equal values, hold the same value under every name. */
  lemma {:induction false} LookupIgnoresKeyCase(m1: seq<(string, JValue)>, m2: seq<(string, JValue)>, name: string)
    requires |m1| == |m2|
    requires forall k :: 0 <= k < |m1| ==> SameName(m1[k].0, m2[k].0) && m1[k].1 == m2[k].1
    ensures Lookup(m1, name) == Lookup(m2, name)
    decreases |m1|
  {
    if |m1| > 0 {
      var n := |m1| - 1;
      LookupIgnoresKeyCase(m1[..n], m2[..n], name);
    }
  }

  const TimeField := "TimePassedSinceRecordingStarted"
  const NameField := "ObjectName"
  const UField := "U"
  const VField := "V"
  const DivisorXField := "PaintBrushScaleDivisorX"
  const DivisorYField := "PaintBrushScaleDivisorY"

  /** No field written after another one of a data point answers to the
      earlier one's name, even ignoring case. */
  lemma PointFieldsApart()
    ensures !SameName(NameField, TimeField)
    ensures !SameName(UField, TimeField) && !SameName(UField, NameField)
    ensures !SameName(VField, TimeField) && !SameName(VField, NameField) && !SameName(VField, UField)
    ensures !SameName(DivisorXField, TimeField) && !SameName(DivisorXField, NameField)
    ensures !SameName(DivisorXField, UField) && !SameName(DivisorXField, VField)
    ensures !SameName(DivisorYField, TimeField) && !SameName(DivisorYField, NameField)
    ensures !SameName(DivisorYField, UField) && !SameName(DivisorYField, VField)
    ensures !SameName(DivisorYField, DivisorXField)
  {
    assert Fold(VField)[0] != Fold(UField)[0];
    assert Fold(DivisorYField)[22] != Fold(DivisorXField)[22];
  }

  /** One array entry as a data point. The fields are tried in the order time,
      object name, U, V, divisor X, divisor Y, and the first one missing or of
      the wrong kind rejects the entry; an entry that is not an object reads
      as an empty object and is rejected too. */
  function DecodePoint(v: JValue): Option<DataPoint>
  {
    var fields := MembersOf(v);
    var time := NumberField(fields, TimeField);
    if time.None? then None
    else
      var name := StringField(fields, NameField);
      if name.None? then None
      else
        var u := NumberField(fields, UField);
        if u.None? then None
        else
          var w := NumberField(fields, VField);
          if w.None? then None
          else
            var dx := NumberField(fields, DivisorXField);
            if dx.None? then None
            else
              var dy := NumberField(fields, DivisorYField);
              if dy.None? then None
              else Some(DataPoint(time.value, name.value, Vec2(u.value, w.value), Vec2(dx.value, dy.value)))
  }

  /** The accepted entries, decoded, in array order. */
  function DecodePoints(items: seq<JValue>): seq<DataPoint>
    decreases |items|
  {
    if |items| == 0 then []
    else
      var p := DecodePoint(items[|items| - 1]);
      DecodePoints(items[..|items| - 1]) + (if p.Some? then [p.value] else [])
  }

  /** The file is read and its text is a JSON array. */
  predicate HoldsArray(file: FileContents)
  {
    FileReadSucceeds(file) && Deserialized(file).Some? && Deserialized(file).value.JArr?
  }

  /** Reads recorded data points. The output is emptied first; it succeeds
      exactly when the file is read and its text is a JSON array, and then
      holds the accepted entries in order. */
  method ReadAttentionTrackingData(file: FileContents) returns (data: seq<DataPoint>, success: bool)
    ensures success <==> HoldsArray(file)
    ensures success ==> data == DecodePoints(Deserialized(file).value.items)
    ensures !success ==> data == []
  {
    data := [];
    success := FileReadSucceeds(file);
    var root := Deserialized(file);
    if root.None? || !root.value.JArr? {
      success := false;
      return;
    }
    var items := root.value.items;
    var i := 0;
    while i < |items|
      invariant 0 <= i <= |items|
      invariant data == DecodePoints(items[..i])
    {
      assert items[..i + 1][..i] == items[..i];
      var fields := MembersOf(items[i]);
      var time := NumberField(fields, TimeField);
      if time.None? {
        i := i + 1;
        continue;
      }
      var name := StringField(fields, NameField);
      if name.None? {
        i := i + 1;
        continue;
      }
      var u := NumberField(fields, UField);
      if u.None? {
        i := i + 1;
        continue;
      }
      var v := NumberField(fields, VField);
      if v.None? {
        i := i + 1;
        continue;
      }
      var dx := NumberField(fields, DivisorXField);
      if dx.None? {
        i := i + 1;
        continue;
      }
      var dy := NumberField(fields, DivisorYField);
      if dy.None? {
        i := i + 1;
        continue;
      }
      data := data + [DataPoint(time.value, name.value, Vec2(u.value, v.value), Vec2(dx.value, dy.value))];
      i := i + 1;
    }
    assert items[..i] == items;
  }

  /** The object written for one data point: exactly the six fields, in the
      order they are set. */
  function EncodePoint(p: DataPoint): JValue
  {
    JObj([(TimeField, JNum(p.time)), (NameField, JStr(p.objectName)),
          (UField, JNum(p.coordinates.x)), (VField, JNum(p.coordinates.y)),
          (DivisorXField, JNum(p.scaleDivisor.x)), (DivisorYField, JNum(p.scaleDivisor.y))])
  }

  function EncodePoints(data: seq<DataPoint>): (r: seq<JValue>)
    ensures |r| == |data|
    ensures forall i :: 0 <= i < |data| ==> r[i] == EncodePoint(data[i])
  {
    seq(|data|, i requires 0 <= i < |data| => EncodePoint(data[i]))
  }

  /** Writes the data points as one array of objects, in order; whether the
      write succeeds is up to the file system. */
  method WriteAttentionTrackingData(data: seq<DataPoint>, writeSucceeds: bool)
    returns (written: JValue, success: bool)
    ensures written == JArr(EncodePoints(data))
    ensures success == writeSucceeds
  {
    var rootArray: seq<JValue> := [];
    var i := 0;
    while i < |data|
      invariant 0 <= i <= |data|
      invariant rootArray == EncodePoints(data[..i])
    {
      rootArray := rootArray + [EncodePoint(data[i])];
      i := i + 1;
    }
    assert data[..i] == data;
    written := JArr(rootArray);
    success := writeSucceeds;
  }

  /** Every written point is read back as itself. */
  lemma DecodeEncodePoint(p: DataPoint)
    ensures DecodePoint(EncodePoint(p)) == Some(p)
  {
    var written := EncodePoint(p).members;
    PointFieldsApart();
    LookupAt(written, 0, TimeField);
    LookupAt(written, 1, NameField);
    LookupAt(written, 2, UField);
    LookupAt(written, 3, VField);
    LookupAt(written, 4, DivisorXField);
    LookupAt(written, 5, DivisorYField);
  }

  /** Reading what was written gives back the same data points, in order. */
  lemma {:induction false} DecodeEncodePoints(data: seq<DataPoint>)
    ensures DecodePoints(EncodePoints(data)) == data
    decreases |data|
  {
    if |data| > 0 {
      var n := |data| - 1;
      assert EncodePoints(data)[..n] == EncodePoints(data[..n]);
      DecodeEncodePoints(data[..n]);
      DecodeEncodePoint(data[n]);
      assert data == data[..n] + [data[n]];
    }
  }

  /** Decoding is record by record: the points of two arrays laid end to end
      are those of the first followed by those of the second, so a rejected
      entry costs only itself. */
  lemma {:induction false} DecodePointsAppend(a: seq<JValue>, b: seq<JValue>)
    ensures DecodePoints(a + b) == DecodePoints(a) + DecodePoints(b)
    decreases |b|
  {
    if |b| == 0 {
      assert a + b == a;
    } else {
      var n := |b| - 1;
      assert (a + b)[..|a + b| - 1] == a + b[..n];
      assert (a + b)[|a + b| - 1] == b[n];
      DecodePointsAppend(a, b[..n]);
    }
  }

  /** An entry is accepted iff it is an object carrying all six fields with
      the expected kinds, each found whatever the case of its key; the point
      is made of the numbers and the string found. */
  lemma DecodePointAccepts(v: JValue)
    ensures DecodePoint(v).Some? <==>
              v.JObj? && NumberField(v.members, TimeField).Some? && StringField(v.members, NameField).Some? &&
              NumberField(v.members, UField).Some? && NumberField(v.members, VField).Some? &&
              NumberField(v.members, DivisorXField).Some? && NumberField(v.members, DivisorYField).Some?
    ensures DecodePoint(v).Some? ==>
              DecodePoint(v).value ==
                DataPoint(NumberField(v.members, TimeField).value, StringField(v.members, NameField).value,
                          Vec2(NumberField(v.members, UField).value, NumberField(v.members, VField).value),
                          Vec2(NumberField(v.members, DivisorXField).value, NumberField(v.members, DivisorYField).value))
  {
  }

  /** An entry whose keys are those of a written point spelled in another
      case, with the same values, is read back as that point. */
  lemma DecodeRespelledPoint(p: DataPoint, members: seq<(string, JValue)>)
    requires var written := EncodePoint(p).members;
             |members| == |written| &&
             forall k :: 0 <= k < |written| ==> SameName(members[k].0, written[k].0) && members[k].1 == written[k].1
    ensures DecodePoint(JObj(members)) == Some(p)
  {
    var written := EncodePoint(p).members;
    LookupIgnoresKeyCase(members, written, TimeField);
    LookupIgnoresKeyCase(members, written, NameField);
    LookupIgnoresKeyCase(members, written, UField);
    LookupIgnoresKeyCase(members, written, VField);
    LookupIgnoresKeyCase(members, written, DivisorXField);
    LookupIgnoresKeyCase(members, written, DivisorYField);
    DecodeEncodePoint(p);
  }

  /** The decoded points never outnumber the entries. */
  lemma {:induction false} DecodePointsAtMostEntries(items: seq<JValue>)
    ensures |DecodePoints(items)| <= |items|
    decreases |items|
  {
    if |items| > 0 {
      DecodePointsAtMostEntries(items[..|items| - 1]);
    }
  }

  // ---- The metrics table (write only) ----

  function EncodeIndices(indices: seq<int>): (r: seq<JValue>)
    ensures |r| == |indices|
    ensures forall i :: 0 <= i < |indices| ==> r[i] == JNum(indices[i] as real)
  {
    seq(|indices|, i requires 0 <= i < |indices| => JNum(indices[i] as real))
  }

  /** The object written for one table entry: its metrics name under
      "ObjectName", the total, the average and the session indices; the first
      attention time and the focus count are not written. */
  function EncodeMetric(key: string, e: Entry): JValue
  {
    JObj([("ObjectName", JStr(key)), ("TotalAttentionTime", JNum(e.total)),
          ("AverageAttentionTime", JNum(e.average)),
          ("AttentionSequenceIndices", JArr(EncodeIndices(e.indices)))])
  }

  function EncodeMetrics(t: Table): (r: seq<JValue>)
    requires forall i :: 0 <= i < |t.keys| ==> Fold(t.keys[i]) in t.entries
    ensures |r| == |t.keys|
    ensures forall i :: 0 <= i < |t.keys| ==> r[i] == EncodeMetric(t.keys[i], t.entries[Fold(t.keys[i])])
  {
    seq(|t.keys|, i requires 0 <= i < |t.keys| => EncodeMetric(t.keys[i], t.entries[Fold(t.keys[i])]))
  }

  /** Writes the table as one array of objects in the table's key order. */
  method WriteAttentionMetrics(t: Table, writeSucceeds: bool) returns (written: JValue, success: bool)
    requires forall i :: 0 <= i < |t.keys| ==> Fold(t.keys[i]) in t.entries
    ensures written == JArr(EncodeMetrics(t))
    ensures success == writeSucceeds
  {
    var rootArray: seq<JValue> := [];
    var i := 0;
    while i < |t.keys|
      invariant 0 <= i <= |t.keys|
      invariant rootArray == EncodeMetrics(Table(t.keys[..i], t.entries))
    {
      var e := t.entries[Fold(t.keys[i])];
      var indices: seq<JValue> := [];
      var j := 0;
      while j < |e.indices|
        invariant 0 <= j <= |e.indices|
        invariant indices == EncodeIndices(e.indices[..j])
      {
        indices := indices + [JNum(e.indices[j] as real)];
        j := j + 1;
      }
      assert e.indices[..j] == e.indices;
      rootArray := rootArray + [JObj([("ObjectName", JStr(t.keys[i])), ("TotalAttentionTime", JNum(e.total)),
                                      ("AverageAttentionTime", JNum(e.average)),
                                      ("AttentionSequenceIndices", JArr(indices))])];
      i := i + 1;
    }
    assert t.keys[..i] == t.keys;
    written := JArr(rootArray);
    success := writeSucceeds;
  }

  /** The indices as numbers, or None when some item is not a whole number. */
  function ReadIndices(items: seq<JValue>): Option<seq<int>>
    decreases |items|
  {
    if |items| == 0 then Some([])
    else
      var init := ReadIndices(items[..|items| - 1]);
      var last := items[|items| - 1];
      if init.Some? && last.JNum? && last.n == last.n.Floor as real
      then Some(init.value + [last.n.Floor])
      else None
  }

  /** What the metrics file preserves: per entry, in table order, its name,
      total, average and the session indices in order. */
  lemma MetricsWrittenInTableOrder(t: Table, i: int)
    requires forall k :: 0 <= k < |t.keys| ==> Fold(t.keys[k]) in t.entries
    requires 0 <= i < |t.keys|
    ensures var o := EncodeMetrics(t)[i].members;
            var e := t.entries[Fold(t.keys[i])];
            && Lookup(o, "ObjectName") == Some(JStr(t.keys[i]))
            && Lookup(o, "TotalAttentionTime") == Some(JNum(e.total))
            && Lookup(o, "AverageAttentionTime") == Some(JNum(e.average))
            && Lookup(o, "AttentionSequenceIndices").Some?
            && Lookup(o, "AttentionSequenceIndices").value.JArr?
            && ReadIndices(Lookup(o, "AttentionSequenceIndices").value.items) == Some(e.indices)
            && Lookup(o, "FirstAttentionAfter").None? && Lookup(o, "TimesFocussed").None?
  {
    var o := EncodeMetrics(t)[i].members;
    LookupAt(o, 0, "ObjectName");
    LookupAt(o, 1, "TotalAttentionTime");
    LookupAt(o, 2, "AverageAttentionTime");
    LookupAt(o, 3, "AttentionSequenceIndices");
    LookupFindsLast(o, "FirstAttentionAfter");
    LookupFindsLast(o, "TimesFocussed");
    ReadEncodedIndices(t.entries[Fold(t.keys[i])].indices);
  }

  lemma {:induction false} ReadEncodedIndices(indices: seq<int>)
    ensures ReadIndices(EncodeIndices(indices)) == Some(indices)
    decreases |indices|
  {
    if |indices| > 0 {
      var n := |indices| - 1;
      assert EncodeIndices(indices)[..n] == EncodeIndices(indices[..n]);
      ReadEncodedIndices(indices[..n]);
      assert indices == indices[..n] + [indices[n]];
    }
  }

  // ---- Configuration ----

  /** Whether the heatmap and the textures are shown, as blend weights. */
  datatype ConfigData = ConfigData(showHeatmap: real, showTextures: real)

  /** Reads the configuration. A file that cannot be read or deserialized
      gives (0, 0) and failure. A deserialized value lacking either number
      (a value that is not an object lacks both) gives (0, 0) as well, but
      the success flag stays as the file read left it: true. */
  function ReadConfigData(file: FileContents): (ConfigData, bool)
  {
    var root := Deserialized(file);
    if root.None? then (ConfigData(0.0, 0.0), false)
    else
      var fields := MembersOf(root.value);
      var showHeatmap := NumberField(fields, "ShowHeatmap");
      var showTextures := NumberField(fields, "ShowTextures");
      if showHeatmap.None? || showTextures.None? then
        (ConfigData(0.0, 0.0), FileReadSucceeds(file))
      else
        (ConfigData(showHeatmap.value, showTextures.value), FileReadSucceeds(file))
  }

  function EncodeConfig(c: ConfigData): JValue
  {
    JObj([("ShowHeatmap", JNum(c.showHeatmap)), ("ShowTextures", JNum(c.showTextures))])
  }

  /** Writes the configuration as one object with its two numbers. */
  function WriteConfigData(c: ConfigData, writeSucceeds: bool): (JValue, bool)
  {
    (EncodeConfig(c), writeSucceeds)
  }

  /** A written configuration reads back as itself, with success. */
  lemma ReadWrittenConfig(c: ConfigData)
    ensures ReadConfigData(Text(Some(WriteConfigData(c, true).0))) == (c, true)
  {
    var written := EncodeConfig(c).members;
    LookupAt(written, 0, "ShowHeatmap");
    LookupAt(written, 1, "ShowTextures");
  }

  /** The reader's outcomes: success only with a readable file whose text
      deserializes to an object or an array, values other than (0, 0) only
      from an object carrying both numbers, and (0, 0) with success from an
      array. */
  lemma ReadConfigOutcomes(file: FileContents)
    ensures ReadConfigData(file).1 <==>
              FileReadSucceeds(file) && file.parsed.Some? && IsContainer(file.parsed.value)
    ensures ReadConfigData(file).0 != ConfigData(0.0, 0.0) ==>
              var v := Deserialized(file).value;
              v.JObj? && NumberField(v.members, "ShowHeatmap").Some? && NumberField(v.members, "ShowTextures").Some?
    ensures FileReadSucceeds(file) && file.parsed.Some? && file.parsed.value.JArr? ==>
              ReadConfigData(file) == (ConfigData(0.0, 0.0), true)
    ensures FileReadSucceeds(file) && file.parsed.Some? && !IsContainer(file.parsed.value) ==>
              ReadConfigData(file) == (ConfigData(0.0, 0.0), false)
  {
  }

  // ---- The generic object reader ----

  /** The object reader as written: it returns the deserialized object, but
      reports failure on every path, including the successful one. */
  function ReadJsonAsWritten(file: FileContents): (Option<seq<(string, JValue)>>, bool)
  {
    if !FileReadSucceeds(file) then (None, false)
    else
      var root := Deserialized(file);
      if root.None? || !root.value.JObj? then (None, false)
      else (Some(root.value.members), false)
  }

  /** The success flag of the reader as written is false even when it returns
      an object: a readable file holding `{}` shows it. */
  lemma ReadJsonAsWrittenReportsFailureOnSuccess()
    ensures ReadJsonAsWritten(Text(Some(JObj([])))).0 == Some([])
    ensures !ReadJsonAsWritten(Text(Some(JObj([])))).1
  {
  }

  /** The object reader as evidently intended: success exactly when an object
      is returned. */
  function ReadJson(file: FileContents): (Option<seq<(string, JValue)>>, bool)
  {
    if !FileReadSucceeds(file) then (None, false)
    else
      var root := Deserialized(file);
      if root.None? || !root.value.JObj? then (None, false)
      else (Some(root.value.members), true)
  }

  /** The corrected reader reports success iff the file holds an object, and
      then returns exactly that object's fields. */
  lemma ReadJsonSucceedsIffObject(file: FileContents)
    ensures ReadJson(file).1 <==> ReadJson(file).0.Some?
    ensures ReadJson(file).1 <==> file.Text? && file.parsed.Some? && file.parsed.value.JObj?
    ensures ReadJson(file).1 ==> ReadJson(file).0.value == file.parsed.value.members
    ensures ReadJson(file).0 == ReadJsonAsWritten(file).0
  {
  }
}
