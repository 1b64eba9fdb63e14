/**
  The assembly loop of build_rows: one output row per anchor, in anchor
  order. Each row starts as a copy of the anchor dict with anchor_time
  formatted as text, then receives, for each of the eight measurement streams
  in a fixed order, the six columns of its nearest record within the stream's
  tolerance ('' in all six when there is none). No anchors at all ends the
  run with SystemExit.
 */
module Panel {
  import opened Wrappers
  import opened Records
  import opened Fields
  import opened Matcher
  import opened Anchors
  import SeriesBuilder
  import BloodGas

  /** One stream to match: the column prefix, the series and the tolerance in seconds. */
  datatype Stream = Stream(name: string, series: SeriesMap, tolerance: nat)

  /** The four tolerance windows, in seconds. */
  datatype Windows = Windows(bloodgas: nat, hemoglobin: nat, temperature: nat, cardiacIndex: nat)

  /** The column prefixes of the eight streams, in the order the loop visits them. */
  const MeasurementNames: seq<string> :=
    ["arterial_sat", "arterial_pco2", "arterial_ph", "central_sat", "central_pco2", "hemoglobin", "temperature", "cardiac_index"]

  /** The two stream lists of the assembly loop, one after the other. */
  function ConfiguredStreams(arterial: map<string, SeriesMap>, central: map<string, SeriesMap>,
                             hgb: SeriesMap, temp: SeriesMap, ci: SeriesMap, w: Windows): (streams: seq<Stream>)
    requires "arterial_sat" in arterial && "arterial_pco2" in arterial && "arterial_ph" in arterial
    requires "central_sat" in central && "central_pco2" in central
    ensures |streams| == |MeasurementNames|
    ensures forall k :: 0 <= k < |streams| ==> streams[k].name == MeasurementNames[k]
    ensures forall k :: 0 <= k < 5 ==> streams[k].tolerance == w.bloodgas
  {
    [ Stream("arterial_sat", arterial["arterial_sat"], w.bloodgas),
      Stream("arterial_pco2", arterial["arterial_pco2"], w.bloodgas),
      Stream("arterial_ph", arterial["arterial_ph"], w.bloodgas),
      Stream("central_sat", central["central_sat"], w.bloodgas),
      Stream("central_pco2", central["central_pco2"], w.bloodgas),
      Stream("hemoglobin", hgb, w.hemoglobin),
      Stream("temperature", temp, w.temperature),
      Stream("cardiac_index", ci, w.cardiacIndex) ]
  }

  /** Streams built from valid series are valid, under the eight configured names. */
  lemma ConfiguredStreamsValid(arterial: map<string, SeriesMap>, central: map<string, SeriesMap>,
                               hgb: SeriesMap, temp: SeriesMap, ci: SeriesMap, w: Windows)
    requires "arterial_sat" in arterial && "arterial_pco2" in arterial && "arterial_ph" in arterial
    requires "central_sat" in central && "central_pco2" in central
    requires forall n :: n in arterial ==> ValidSeriesMap(arterial[n])
    requires forall n :: n in central ==> ValidSeriesMap(central[n])
    requires ValidSeriesMap(hgb) && ValidSeriesMap(temp) && ValidSeriesMap(ci)
    ensures StreamsValid(ConfiguredStreams(arterial, central, hgb, temp, ci, w))
    ensures StreamNames(ConfiguredStreams(arterial, central, hgb, temp, ci, w)) == MeasurementNames
  {
  }

  /** The six column suffixes append_measurement writes, in order. */
  const Suffixes: seq<string> := ["_value", "_unit", "_label", "_source", "_time", "_delta_minutes"]

  /** The six columns of one stream. */
  function StreamColumns(name: string): (cs: seq<string>)
    ensures |cs| == |Suffixes| && forall j :: 0 <= j < |Suffixes| ==> cs[j] == name + Suffixes[j]
  {
    seq(|Suffixes|, j requires 0 <= j < |Suffixes| => name + Suffixes[j])
  }

  /** The measurement columns of a run over streams with these names. */
  function Columns(names: seq<string>): seq<string>
  {
    if names == [] then [] else Columns(names[..|names| - 1]) + StreamColumns(names[|names| - 1])
  }

  /** The keys of the anchor dict. */
  const AnchorColumns: seq<string> :=
    ["anchor_type", "subject_id", "hadm_id", "icustay_id", "anchor_time",
     "cardiac_output_value", "cardiac_output_unit", "cardiac_output_label",
     "cardiac_output_source", "cardiac_output_time", "cardiac_output_delta_minutes"]

  /** What append_measurement assigns for stream `name` and lookup result m. */
  function MeasurementFields(name: string, m: Option<Match>): seq<Field>
  {
    match m
    case None =>
      [ Field(name + "_value", Blank), Field(name + "_unit", Blank), Field(name + "_label", Blank),
        Field(name + "_source", Blank), Field(name + "_time", Blank), Field(name + "_delta_minutes", Blank) ]
    case Some(hit) =>
      [ Field(name + "_value", Number(hit.rec.value)),
        Field(name + "_unit", Text(hit.rec.unit)),
        Field(name + "_label", Text(hit.rec.labelText)),
        Field(name + "_source", Text(hit.rec.source)),
        Field(name + "_time", Formatted(hit.rec.time)),
        Field(name + "_delta_minutes", Minutes(hit.deltaMinutes)) ]
  }

  /** append_measurement: six assignments into the row dict. */
  method AppendMeasurement(row: Row, name: string, m: Option<Match>)
    modifies row
    ensures row.fields == PutAll(old(row.fields), MeasurementFields(name, m))
  {
    ghost var fs := MeasurementFields(name, m);
    ghost var start := row.fields;
    row.Put(name + "_value", if m.Some? then Number(m.value.rec.value) else Blank);
    row.Put(name + "_unit", if m.Some? then Text(m.value.rec.unit) else Blank);
    row.Put(name + "_label", if m.Some? then Text(m.value.rec.labelText) else Blank);
    row.Put(name + "_source", if m.Some? then Text(m.value.rec.source) else Blank);
    row.Put(name + "_time", if m.Some? then Formatted(m.value.rec.time) else Blank);
    row.Put(name + "_delta_minutes", if m.Some? then Minutes(m.value.deltaMinutes) else Blank);
    PutAllUnrolled(start, fs);
  }

  /** Six assignments in a row. */
  lemma PutAllUnrolled(fs: seq<Field>, news: seq<Field>)
    requires |news| == 6
    ensures PutAll(fs, news) ==
      PutField(PutField(PutField(PutField(PutField(PutField(fs,
        news[0].name, news[0].cell), news[1].name, news[1].cell), news[2].name, news[2].cell),
        news[3].name, news[3].cell), news[4].name, news[4].cell), news[5].name, news[5].cell)
  {
    var f1 := PutField(fs, news[0].name, news[0].cell);
    var f2 := PutField(f1, news[1].name, news[1].cell);
    var f3 := PutField(f2, news[2].name, news[2].cell);
    var f4 := PutField(f3, news[3].name, news[3].cell);
    var f5 := PutField(f4, news[4].name, news[4].cell);
    var f6 := PutField(f5, news[5].name, news[5].cell);
    assert PutAll(fs, news) == PutAll(f1, news[1..]);
    assert PutAll(f1, news[1..]) == PutAll(f2, news[2..]) by { assert news[1..][1..] == news[2..]; }
    assert PutAll(f2, news[2..]) == PutAll(f3, news[3..]) by { assert news[2..][1..] == news[3..]; }
    assert PutAll(f3, news[3..]) == PutAll(f4, news[4..]) by { assert news[3..][1..] == news[4..]; }
    assert PutAll(f4, news[4..]) == PutAll(f5, news[5..]) by { assert news[4..][1..] == news[5..]; }
    assert PutAll(f5, news[5..]) == PutAll(f6, []) by { assert news[5..][1..] == []; }
  }

  /** Every stream holds valid (aligned and sorted) series. */
  ghost predicate StreamsValid(streams: seq<Stream>)
  {
    forall k :: 0 <= k < |streams| ==> ValidSeriesMap(streams[k].series)
  }

  /** The measurement columns an anchor's row gets, stream by stream. */
  ghost function MatchedFields(a: Anchor, streams: seq<Stream>): seq<Field>
    requires StreamsValid(streams)
  {
    FieldsOf(StreamNames(streams), Lookups(a, streams))
  }

  /** What the lookups for one anchor give, stream by stream. */
  ghost function Lookups(a: Anchor, streams: seq<Stream>): (ms: seq<Option<Match>>)
    requires StreamsValid(streams)
    ensures |ms| == |streams|
  {
    seq(|streams|, k requires 0 <= k < |streams| => NearestSpec(streams[k].series, a.key, a.time, streams[k].tolerance))
  }

  /** The six fields of each stream in turn, from the stream names and what each lookup gave. */
  function FieldsOf(names: seq<string>, ms: seq<Option<Match>>): seq<Field>
    requires |names| == |ms|
  {
    if names == [] then []
    else FieldsOf(names[..|names| - 1], ms[..|ms| - 1]) + MeasurementFields(names[|names| - 1], ms[|ms| - 1])
  }

  /** One more stream appends its six fields. */
  lemma MatchedFieldsSnoc(a: Anchor, streams: seq<Stream>, k: int)
    requires StreamsValid(streams) && 0 <= k < |streams|
    ensures MatchedFields(a, streams[..k + 1]) ==
      MatchedFields(a, streams[..k]) + MeasurementFields(streams[k].name, NearestSpec(streams[k].series, a.key, a.time, streams[k].tolerance))
  {
    var pre, cur := streams[..k], streams[..k + 1];
    assert StreamNames(cur)[..k] == StreamNames(pre);
    assert Lookups(a, cur)[..k] == Lookups(a, pre);
  }

  /** The finished row of one anchor. */
  ghost function RowSpec(a: Anchor, streams: seq<Stream>): seq<Field>
    requires StreamsValid(streams)
  {
    PutAll(PutField(AnchorFields(a), "anchor_time", Formatted(a.time)), MatchedFields(a, streams))
  }

  /** The body of the assembly loop for one anchor: copy the anchor dict, format anchor_time, match every stream. */
  method BuildRow(anchor: Anchor, streams: seq<Stream>) returns (row: Row)
    requires StreamsValid(streams)
    ensures fresh(row)
    ensures row.fields == RowSpec(anchor, streams)
  {
    var key := anchor.key;
    row := new Row(AnchorFields(anchor));
    row.Put("anchor_time", Formatted(anchor.time));
    ghost var base := row.fields;
    for k := 0 to |streams|
      invariant row.fields == PutAll(base, MatchedFields(anchor, streams[..k]))
      modifies row
    {
      var s := streams[k];
      assert ValidSeriesMap(s.series);
      var m := NearestRecord(s.series, key, anchor.time, s.tolerance);
      MatchedFieldsSnoc(anchor, streams, k);
      PutAllAppend(base, MatchedFields(anchor, streams[..k]), MeasurementFields(s.name, m));
      AppendMeasurement(row, s.name, m);
    }
    assert streams[..|streams|] == streams;
  }

  /** The assembly loop, then the `if not rows` check. */
  method AssembleRows(anchors: seq<Anchor>, streams: seq<Stream>) returns (res: Result<seq<Row>, Error>)
    requires StreamsValid(streams)
    ensures res.Failure? <==> anchors == []
    ensures res.Failure? ==> res.error == NoAnchorsFound
    ensures res.Success? ==> |res.value| == |anchors|
    ensures res.Success? ==> forall i :: 0 <= i < |anchors| ==> res.value[i].fields == RowSpec(anchors[i], streams)
    ensures res.Success? ==> forall i :: 0 <= i < |res.value| ==> fresh(res.value[i])
  {
    var rows: seq<Row> := [];
    for i := 0 to |anchors|
      invariant |rows| == i
      invariant forall j :: 0 <= j < i ==> rows[j].fields == RowSpec(anchors[j], streams)
      invariant forall j :: 0 <= j < i ==> fresh(rows[j])
    {
      var row := BuildRow(anchors[i], streams);
      rows := rows + [row];
    }
    if rows == [] {
      return Failure(NoAnchorsFound);
    }
    return Success(rows);
  }

  /** The last two characters of a string. */
  function Tail2(s: string): string
    requires |s| >= 2
  {
    s[|s| - 2..]
  }

  lemma Tail2OfConcat(a: string, b: string)
    requires |b| >= 2
    ensures Tail2(a + b) == Tail2(b)
  {
    assert (a + b)[|a + b| - 2..] == b[|b| - 2..];
  }

  /** The suffixes end in distinct pairs of characters, so a column name determines its suffix and its stream. */
  lemma SuffixDetermines(n1: string, j1: int, n2: string, j2: int)
    requires 0 <= j1 < |Suffixes| && 0 <= j2 < |Suffixes|
    ensures n1 + Suffixes[j1] == n2 + Suffixes[j2] ==> j1 == j2 && n1 == n2
  {
    Tail2OfConcat(n1, Suffixes[j1]);
    Tail2OfConcat(n2, Suffixes[j2]);
    var s1, s2 := n1 + Suffixes[j1], n2 + Suffixes[j2];
    assert n1 == s1[..|n1|];
    assert n2 == s2[..|n2|];
  }

  /** A stream's columns are its name with one of the six suffixes. */
  lemma {:induction false} ColumnsMember(names: seq<string>, x: string)
    ensures x in Columns(names) <==> exists k, j :: 0 <= k < |names| && 0 <= j < |Suffixes| && x == names[k] + Suffixes[j]
  {
    if names != [] {
      var init, last := names[..|names| - 1], names[|names| - 1];
      ColumnsMember(init, x);
      if exists k, j :: 0 <= k < |names| && 0 <= j < |Suffixes| && x == names[k] + Suffixes[j] {
        var k, j :| 0 <= k < |names| && 0 <= j < |Suffixes| && x == names[k] + Suffixes[j];
        if k < |init| {
          assert init[k] == names[k];
        } else {
          assert StreamColumns(last)[j] == x;
        }
      }
      if x in Columns(init) {
        var k, j :| 0 <= k < |init| && 0 <= j < |Suffixes| && x == init[k] + Suffixes[j];
        assert names[k] == init[k];
      }
      if x in StreamColumns(last) {
        var j :| 0 <= j < |Suffixes| && StreamColumns(last)[j] == x;
        assert x == names[|names| - 1] + Suffixes[j];
      }
    }
  }

  ghost predicate Distinct(s: seq<string>)
  {
    forall i, j :: 0 <= i < j < |s| ==> s[i] != s[j]
  }

  /** Streams with distinct names write distinct columns. */
  lemma {:induction false} ColumnsDistinct(names: seq<string>)
    requires Distinct(names)
    ensures Distinct(Columns(names))
  {
    if names != [] {
      var init, last := names[..|names| - 1], names[|names| - 1];
      ColumnsDistinct(init);
      var a, b := Columns(init), StreamColumns(last);
      forall i, j | 0 <= i < j < |a + b| ensures (a + b)[i] != (a + b)[j] {
        if j < |a| {
          assert (a + b)[i] == a[i] && (a + b)[j] == a[j];
        } else if i >= |a| {
          assert (a + b)[i] == last + Suffixes[i - |a|] && (a + b)[j] == last + Suffixes[j - |a|];
          SuffixDetermines(last, i - |a|, last, j - |a|);
        } else {
          assert (a + b)[i] == a[i] && (a + b)[j] == last + Suffixes[j - |a|];
          ColumnsMember(init, a[i]);
          var k, s :| 0 <= k < |init| && 0 <= s < |Suffixes| && a[i] == init[k] + Suffixes[s];
          SuffixDetermines(init[k], s, last, j - |a|);
          assert names[k] == init[k];
        }
      }
    }
  }

  /** Only the prefixes "anchor" and "cardiac_output" can collide with an anchor column. */
  lemma NotAnchorColumn(name: string, j: int)
    requires 0 <= j < |Suffixes|
    requires name != "anchor" && name != "cardiac_output"
    ensures name + Suffixes[j] !in AnchorColumns
  {
    var c := name + Suffixes[j];
    // anchor_time is "anchor" + "_time", and the last six columns are the cardiac_output stream's
    assert AnchorColumns == AnchorColumns[..4] + ["anchor" + Suffixes[4]] + StreamColumns("cardiac_output") by {
      CardiacOutputColumns();
    }
    SuffixDetermines(name, j, "anchor", 4);
    forall i | 0 <= i < 6 ensures StreamColumns("cardiac_output")[i] != c {
      SuffixDetermines(name, j, "cardiac_output", i);
    }
    Tail2OfConcat(name, Suffixes[j]);
    forall i | 0 <= i < 4 ensures AnchorColumns[i] != c {
      assert Tail2(AnchorColumns[i]) in {"pe", "id"};
    }
  }

  lemma CardiacOutputColumns()
    ensures AnchorColumns[5..] == StreamColumns("cardiac_output")
    ensures AnchorColumns[4] == "anchor" + Suffixes[4]
  {
    var co := StreamColumns("cardiac_output");
    assert AnchorColumns[5] == co[0] && AnchorColumns[6] == co[1] && AnchorColumns[7] == co[2];
    assert AnchorColumns[8] == co[3] && AnchorColumns[9] == co[4] && AnchorColumns[10] == co[5];
  }

  lemma MeasurementFieldNames(name: string, m: Option<Match>)
    ensures Names(MeasurementFields(name, m)) == StreamColumns(name)
  {
  }

  lemma {:induction false} FieldsOfNames(names: seq<string>, ms: seq<Option<Match>>)
    requires |names| == |ms|
    ensures Names(FieldsOf(names, ms)) == Columns(names)
  {
    if names != [] {
      var n, m := names[|names| - 1], ms[|ms| - 1];
      FieldsOfNames(names[..|names| - 1], ms[..|ms| - 1]);
      MeasurementFieldNames(n, m);
      var front := FieldsOf(names[..|names| - 1], ms[..|ms| - 1]);
      assert Names(front + MeasurementFields(n, m)) == Names(front) + Names(MeasurementFields(n, m));
    }
  }

  /** The names of the streams, in order. */
  function StreamNames(streams: seq<Stream>): seq<string>
  {
    seq(|streams|, k requires 0 <= k < |streams| => streams[k].name)
  }

  /** Stream names a row can take without one stream overwriting another's or an anchor's columns. */
  ghost predicate NamesUsable(names: seq<string>)
  {
    Distinct(names) && forall k :: 0 <= k < |names| ==> names[k] != "anchor" && names[k] != "cardiac_output"
  }

  /**
    The fixed schema: every row is the anchor dict with anchor_time
    formatted, in the anchor's key order, followed by the six columns of each
    stream in stream order; so every row has the same keys, those of the
    first row, which the writer uses as the header.
   */
  lemma RowLayout(a: Anchor, streams: seq<Stream>)
    requires StreamsValid(streams) && NamesUsable(StreamNames(streams))
    ensures RowSpec(a, streams) == AnchorFields(a)[4 := Field("anchor_time", Formatted(a.time))] + MatchedFields(a, streams)
    ensures Names(RowSpec(a, streams)) == AnchorColumns + Columns(StreamNames(streams))
  {
    FieldsLayout(a, StreamNames(streams), Lookups(a, streams));
  }

  /** RowLayout for any lookup results. */
  lemma FieldsLayout(a: Anchor, names: seq<string>, ms: seq<Option<Match>>)
    requires |names| == |ms| && NamesUsable(names)
    ensures
      var base := PutField(AnchorFields(a), "anchor_time", Formatted(a.time));
      && PutAll(base, FieldsOf(names, ms)) == AnchorFields(a)[4 := Field("anchor_time", Formatted(a.time))] + FieldsOf(names, ms)
      && Names(PutAll(base, FieldsOf(names, ms))) == AnchorColumns + Columns(names)
  {
    var base := PutField(AnchorFields(a), "anchor_time", Formatted(a.time));
    AnchorBase(a);
    var fs := FieldsOf(names, ms);
    FieldsFresh(names, ms);
    PutAllFresh(base, fs);
    NamesConcat(base, fs);
  }

  /** Formatting anchor_time replaces it in place; the keys stay the anchor columns. */
  lemma AnchorBase(a: Anchor)
    ensures PutField(AnchorFields(a), "anchor_time", Formatted(a.time)) == AnchorFields(a)[4 := Field("anchor_time", Formatted(a.time))]
    ensures Names(AnchorFields(a)[4 := Field("anchor_time", Formatted(a.time))]) == AnchorColumns
  {
    PutFieldExisting(AnchorFields(a), 4, "anchor_time", Formatted(a.time));
  }

  /** The measurement columns are distinct and none of them is an anchor column. */
  lemma FieldsFresh(names: seq<string>, ms: seq<Option<Match>>)
    requires |names| == |ms| && NamesUsable(names)
    ensures Names(FieldsOf(names, ms)) == Columns(names)
    ensures DistinctNames(FieldsOf(names, ms))
    ensures forall i :: 0 <= i < |FieldsOf(names, ms)| ==> FieldsOf(names, ms)[i].name !in AnchorColumns
  {
    var fs := FieldsOf(names, ms);
    FieldsOfNames(names, ms);
    ColumnsDistinct(names);
    forall i | 0 <= i < |fs| ensures fs[i].name !in AnchorColumns {
      assert fs[i].name == Names(fs)[i];
      ColumnsMember(names, fs[i].name);
      var k, j :| 0 <= k < |names| && 0 <= j < |Suffixes| && fs[i].name == names[k] + Suffixes[j];
      NotAnchorColumn(names[k], j);
    }
    forall i, j | 0 <= i < j < |fs| ensures fs[i].name != fs[j].name {
      assert fs[i].name == Names(fs)[i] && fs[j].name == Names(fs)[j];
    }
  }

  /** The eight configured names satisfy the schema's condition. */
  lemma MeasurementNamesUsable()
    ensures NamesUsable(MeasurementNames)
  {
  }

  lemma {:induction false} FieldsOfLength(names: seq<string>, ms: seq<Option<Match>>)
    requires |names| == |ms|
    ensures |FieldsOf(names, ms)| == 6 * |names|
  {
    if names != [] {
      FieldsOfLength(names[..|names| - 1], ms[..|ms| - 1]);
    }
  }

  /** A slice of a concatenation that lies within one of its parts. */
  lemma SliceOfConcat<T>(x: seq<T>, y: seq<T>, i: int, j: int)
    requires 0 <= i <= j <= |x + y|
    ensures j <= |x| ==> (x + y)[i..j] == x[i..j]
    ensures i == |x| && j == |x + y| ==> (x + y)[i..j] == y
  {
  }

  /** Stream k's six fields sit at positions 6k .. 6k+5. */
  lemma {:induction false} FieldsOfAt(names: seq<string>, ms: seq<Option<Match>>, k: int)
    requires |names| == |ms| && 0 <= k < |names|
    ensures |FieldsOf(names, ms)| == 6 * |names|
    ensures FieldsOf(names, ms)[6 * k .. 6 * k + 6] == MeasurementFields(names[k], ms[k])
  {
    var n := |names| - 1;
    var initNames, initMs := names[..n], ms[..n];
    FieldsOfLength(initNames, initMs);
    var front := FieldsOf(initNames, initMs);
    var back := MeasurementFields(names[n], ms[n]);
    assert FieldsOf(names, ms) == front + back;
    if k < n {
      FieldsOfAt(initNames, initMs, k);
      assert initNames[k] == names[k] && initMs[k] == ms[k];
    }
    SliceOfConcat(front, back, 6 * k, 6 * k + 6);
  }

  /** Stream k's six columns sit at positions 6k .. 6k+5 of the measurement part of the row. */
  lemma MatchedFieldsAt(a: Anchor, streams: seq<Stream>, k: int)
    requires StreamsValid(streams) && 0 <= k < |streams|
    ensures |MatchedFields(a, streams)| == 6 * |streams|
    ensures MatchedFields(a, streams)[6 * k .. 6 * k + 6] ==
      MeasurementFields(streams[k].name, NearestSpec(streams[k].series, a.key, a.time, streams[k].tolerance))
  {
    FieldsOfAt(StreamNames(streams), Lookups(a, streams), k);
  }

  /**
    Stream k's cells in a row: its six columns sit at positions 11 + 6k
    onwards; they are all '' when the lookup found nothing, and otherwise
    hold the matched record's value, unit, label, source and formatted time
    and the distance in minutes.
   */
  lemma RowCells(a: Anchor, streams: seq<Stream>, k: int)
    requires StreamsValid(streams) && NamesUsable(StreamNames(streams)) && 0 <= k < |streams|
    ensures |RowSpec(a, streams)| == 11 + 6 * |streams|
    ensures
      var cells, m := RowSpec(a, streams)[11 + 6 * k .. 11 + 6 * k + 6], NearestSpec(streams[k].series, a.key, a.time, streams[k].tolerance);
      && (forall j :: 0 <= j < 6 ==> cells[j].name == streams[k].name + Suffixes[j])
      && (m.None? ==> forall j :: 0 <= j < 6 ==> cells[j].cell == Blank)
      && (m.Some? ==>
            && cells[0].cell == Number(m.value.rec.value) && cells[1].cell == Text(m.value.rec.unit)
            && cells[2].cell == Text(m.value.rec.labelText) && cells[3].cell == Text(m.value.rec.source)
            && cells[4].cell == Formatted(m.value.rec.time) && cells[5].cell == Minutes(m.value.deltaMinutes))
  {
    var names, ms := StreamNames(streams), Lookups(a, streams);
    FieldsCells(a, names, ms, k);
    MeasurementCells(names[k], ms[k]);
    assert names[k] == streams[k].name;
    assert ms[k] == NearestSpec(streams[k].series, a.key, a.time, streams[k].tolerance);
  }

  /** RowCells for any lookup results: stream k's slice of the row is its six fields. */
  lemma FieldsCells(a: Anchor, names: seq<string>, ms: seq<Option<Match>>, k: int)
    requires |names| == |ms| && NamesUsable(names) && 0 <= k < |names|
    ensures |PutAll(PutField(AnchorFields(a), "anchor_time", Formatted(a.time)), FieldsOf(names, ms))| == 11 + 6 * |names|
    ensures PutAll(PutField(AnchorFields(a), "anchor_time", Formatted(a.time)), FieldsOf(names, ms))[11 + 6 * k .. 11 + 6 * k + 6]
      == MeasurementFields(names[k], ms[k])
  {
    FieldsLayout(a, names, ms);
    FieldsOfAt(names, ms, k);
    var head, fs := AnchorFields(a)[4 := Field("anchor_time", Formatted(a.time))], FieldsOf(names, ms);
    assert |head| == 11;
    assert (head + fs)[11 + 6 * k .. 11 + 6 * k + 6] == fs[6 * k .. 6 * k + 6];
  }

  /** The six fields of one stream, cell by cell. */
  lemma MeasurementCells(name: string, m: Option<Match>)
    ensures
      var cells := MeasurementFields(name, m);
      && |cells| == 6
      && (forall j :: 0 <= j < 6 ==> cells[j].name == name + Suffixes[j])
      && (m.None? ==> forall j :: 0 <= j < 6 ==> cells[j].cell == Blank)
      && (m.Some? ==>
            && cells[0].cell == Number(m.value.rec.value) && cells[1].cell == Text(m.value.rec.unit)
            && cells[2].cell == Text(m.value.rec.labelText) && cells[3].cell == Text(m.value.rec.source)
            && cells[4].cell == Formatted(m.value.rec.time) && cells[5].cell == Minutes(m.value.deltaMinutes))
  {
    MeasurementFieldNames(name, m);
    assert forall j :: 0 <= j < 6 ==> MeasurementFields(name, m)[j].name == Names(MeasurementFields(name, m))[j];
  }

  /** The eight streams build_rows loads, or the failure of a blood-gas load. */
  ghost function LoadedStreams(bloodGasRows: seq<BloodGas.BloodGasRow>, includeVenous: bool,
                               hgbRecords: seq<KeyedRecord>, tempRecords: seq<KeyedRecord>, ciRecords: seq<KeyedRecord>,
                               w: Windows): (r: Result<seq<Stream>, Error>)
    ensures r.Success? ==> StreamsValid(r.value) && StreamNames(r.value) == MeasurementNames
  {
    var arterial :- BloodGas.LoadBloodGasSpec(bloodGasRows, BloodGas.ArterialPrefixes, BloodGas.ArterialItems);
    var central :- BloodGas.LoadBloodGasSpec(bloodGasRows, BloodGas.CentralPrefixes(includeVenous), BloodGas.CentralItems);
    BloodGas.LoadBloodGasSpecShape(bloodGasRows, BloodGas.ArterialPrefixes, BloodGas.ArterialItems);
    BloodGas.LoadBloodGasSpecShape(bloodGasRows, BloodGas.CentralPrefixes(includeVenous), BloodGas.CentralItems);
    BloodGas.ItemNames();
    SeriesBuilder.BuildSeriesSpecValid(hgbRecords);
    SeriesBuilder.BuildSeriesSpecValid(tempRecords);
    SeriesBuilder.BuildSeriesSpecValid(ciRecords);
    var hgb, temp, ci := SeriesBuilder.BuildSeriesSpec(hgbRecords), SeriesBuilder.BuildSeriesSpec(tempRecords), SeriesBuilder.BuildSeriesSpec(ciRecords);
    ConfiguredStreamsValid(arterial, central, hgb, temp, ci, w);
    Success(ConfiguredStreams(arterial, central, hgb, temp, ci, w))
  }

  /** LoadedStreams in terms of the two loads it performs. */
  lemma LoadedStreamsSuccess(bloodGasRows: seq<BloodGas.BloodGasRow>, includeVenous: bool,
                             hgbRecords: seq<KeyedRecord>, tempRecords: seq<KeyedRecord>, ciRecords: seq<KeyedRecord>, w: Windows)
    ensures
      var arterial := BloodGas.LoadBloodGasSpec(bloodGasRows, BloodGas.ArterialPrefixes, BloodGas.ArterialItems);
      var central := BloodGas.LoadBloodGasSpec(bloodGasRows, BloodGas.CentralPrefixes(includeVenous), BloodGas.CentralItems);
      var loaded := LoadedStreams(bloodGasRows, includeVenous, hgbRecords, tempRecords, ciRecords, w);
      && (arterial.Failure? ==> loaded == Failure(arterial.error))
      && (arterial.Success? && central.Failure? ==> loaded == Failure(central.error))
      && (arterial.Success? && central.Success? ==>
            && "arterial_sat" in arterial.value && "arterial_pco2" in arterial.value && "arterial_ph" in arterial.value
            && "central_sat" in central.value && "central_pco2" in central.value
            && loaded == Success(ConfiguredStreams(arterial.value, central.value, SeriesBuilder.BuildSeriesSpec(hgbRecords),
                                                   SeriesBuilder.BuildSeriesSpec(tempRecords), SeriesBuilder.BuildSeriesSpec(ciRecords), w)))
  {
    BloodGas.LoadBloodGasSpecShape(bloodGasRows, BloodGas.ArterialPrefixes, BloodGas.ArterialItems);
    BloodGas.LoadBloodGasSpecShape(bloodGasRows, BloodGas.CentralPrefixes(includeVenous), BloodGas.CentralItems);
    BloodGas.ItemNames();
  }

  /**
    build_rows on rows already read: the anchors first, then both blood-gas
    loads over the same rows, the hemoglobin, temperature and cardiac index
    series from their selected records, then the assembly loop. The first
    failure ends the run.
   */
  method BuildRows(swanRows: seq<SwanRow>, bloodGasRows: seq<BloodGas.BloodGasRow>, includeVenous: bool,
                   hgbRecords: seq<KeyedRecord>, tempRecords: seq<KeyedRecord>, ciRecords: seq<KeyedRecord>,
                   w: Windows) returns (res: Result<seq<Row>, Error>)
    ensures AnchorEntriesSpec(swanRows).Failure? ==> res == Failure(AnchorEntriesSpec(swanRows).error)
    ensures AnchorEntriesSpec(swanRows).Success? && LoadedStreams(bloodGasRows, includeVenous, hgbRecords, tempRecords, ciRecords, w).Failure? ==>
      res == Failure(LoadedStreams(bloodGasRows, includeVenous, hgbRecords, tempRecords, ciRecords, w).error)
    ensures AnchorEntriesSpec(swanRows).Success? && LoadedStreams(bloodGasRows, includeVenous, hgbRecords, tempRecords, ciRecords, w).Success? ==>
      var anchors := AnchorEntriesSpec(swanRows).value;
      var streams := LoadedStreams(bloodGasRows, includeVenous, hgbRecords, tempRecords, ciRecords, w).value;
      && (res.Failure? <==> anchors == [])
      && (res.Failure? ==> res.error == NoAnchorsFound)
      && (res.Success? ==> |res.value| == |anchors| && forall i :: 0 <= i < |anchors| ==> res.value[i].fields == RowSpec(anchors[i], streams))
    ensures res.Success? ==> forall i :: 0 <= i < |res.value| ==> fresh(res.value[i])
  {
    var anchors :- BuildAnchorEntries(swanRows);
    var arterial :- BloodGas.LoadBloodGasSeries(bloodGasRows, BloodGas.ArterialPrefixes, BloodGas.ArterialItems);
    var central :- BloodGas.LoadBloodGasSeries(bloodGasRows, BloodGas.CentralPrefixes(includeVenous), BloodGas.CentralItems);
    var hgb := SeriesBuilder.BuildSeriesFromRows(hgbRecords);
    var temp := SeriesBuilder.BuildSeriesFromRows(tempRecords);
    var ci := SeriesBuilder.BuildSeriesFromRows(ciRecords);
    LoadedStreamsSuccess(bloodGasRows, includeVenous, hgbRecords, tempRecords, ciRecords, w);
    var streams := ConfiguredStreams(arterial, central, hgb, temp, ci, w);
    res := AssembleRows(anchors, streams);
  }

  /** Every row of a run has the same keys: the anchor columns, then the six columns of each of the eight streams. */
  lemma PanelHeader(a: Anchor, bloodGasRows: seq<BloodGas.BloodGasRow>, includeVenous: bool,
                    hgbRecords: seq<KeyedRecord>, tempRecords: seq<KeyedRecord>, ciRecords: seq<KeyedRecord>, w: Windows)
    requires LoadedStreams(bloodGasRows, includeVenous, hgbRecords, tempRecords, ciRecords, w).Success?
    ensures Names(RowSpec(a, LoadedStreams(bloodGasRows, includeVenous, hgbRecords, tempRecords, ciRecords, w).value))
      == AnchorColumns + Columns(MeasurementNames)
    ensures |AnchorColumns + Columns(MeasurementNames)| == 11 + 6 * 8
  {
    var streams := LoadedStreams(bloodGasRows, includeVenous, hgbRecords, tempRecords, ciRecords, w).value;
    MeasurementNamesUsable();
    RowLayout(a, streams);
    ColumnsLength(MeasurementNames);
  }

  lemma {:induction false} ColumnsLength(names: seq<string>)
    ensures |Columns(names)| == 6 * |names|
  {
    if names != [] {
      ColumnsLength(names[..|names| - 1]);
    }
  }
}
