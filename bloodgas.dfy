/**
  load_bloodgas_series: keep the blood-gas rows whose upper-cased specimen
  type starts with one of the given prefixes and whose itemid the mapping
  names, append each to the series of its measurement name under its entity
  key, then sort every bucket by time.
 */
module BloodGas {
  import opened Wrappers
  import opened Records
  import opened SeriesBuilder

  /** ARTERIAL_ITEMS and CENTRAL_ITEMS: lab itemid to measurement name. */
  const ArterialItems: map<int, string> := map[50817 := "arterial_sat", 50818 := "arterial_pco2", 50820 := "arterial_ph"]
  const CentralItems: map<int, string> := map[50817 := "central_sat", 50818 := "central_pco2"]

  /** The specimen prefixes build_rows passes: 'ART' for arterial; 'CENTRAL', and 'VEN' when venous rows are included, for central. */
  const ArterialPrefixes: seq<string> := ["ART"]

  function CentralPrefixes(includeVenous: bool): seq<string>
  {
    if includeVenous then ["CENTRAL", "VEN"] else ["CENTRAL"]
  }

  /** One row of the blood-gas table, with the columns the loader reads. */
  datatype BloodGasRow = BloodGasRow(
    specimenType: Option<string>,
    itemid: string,
    subject: RawId, hadm: RawId, icustay: RawId,
    time: int,
    value: Option<real>,
    unit: string,
    labLabel: string)

  function UpperChar(c: char): char
  {
    if 'a' <= c <= 'z' then (c as int - 32) as char else c
  }

  /** str.upper on ASCII letters; other characters are kept. */
  function Upper(s: string): (u: string)
    ensures |u| == |s| && forall i :: 0 <= i < |s| ==> u[i] == UpperChar(s[i])
  {
    seq(|s|, i requires 0 <= i < |s| => UpperChar(s[i]))
  }

  /** `any(spec.startswith(p) for p in prefixes)` with `spec = (row.get('specimen_type') or '').upper()`. */
  predicate SpecimenMatches(specimenType: Option<string>, prefixes: seq<string>)
  {
    var spec := Upper(if specimenType.Some? then specimenType.value else "");
    exists i :: 0 <= i < |prefixes| && prefixes[i] <= spec
  }

  /**
    The loop body for one row: Success(None) when the row is skipped, the
    measurement name and keyed record when it is kept, and the ValueError of
    int() when its itemid (or, for a kept row, one of its ids) is not an integer.
   */
  function BloodGasEntry(row: BloodGasRow, prefixes: seq<string>, mapping: map<int, string>): (r: Result<Option<(string, KeyedRecord)>, Error>)
    ensures r.Success? && r.value.Some? ==> r.value.value.0 in mapping.Values
  {
    if !SpecimenMatches(row.specimenType, prefixes) then Success(None)
    else
      var itemid :- ParseInt(row.itemid);
      if itemid !in mapping then Success(None)
      else
        var subject :- NormalizeInt(row.subject);
        var hadm :- NormalizeInt(row.hadm);
        var icustay :- NormalizeInt(row.icustay);
        Success(Some((mapping[itemid], KeyedRecord(Key(subject, hadm, icustay),
                                                   Record(row.time, row.value, row.unit, row.labLabel, "labevents")))))
  }

  /** The rows kept so far, in input order, or the first row's failure. */
  function BloodGasEntries(rows: seq<BloodGasRow>, prefixes: seq<string>, mapping: map<int, string>): Result<seq<(string, KeyedRecord)>, Error>
  {
    if rows == [] then Success([])
    else
      var kept :- BloodGasEntries(rows[..|rows| - 1], prefixes, mapping);
      var entry :- BloodGasEntry(rows[|rows| - 1], prefixes, mapping);
      Success(if entry.Some? then kept + [entry.value] else kept)
  }

  /** The kept records for one measurement name, in input order. */
  function Named(entries: seq<(string, KeyedRecord)>, name: string): seq<KeyedRecord>
  {
    if entries == [] then []
    else
      var last := entries[|entries| - 1];
      Named(entries[..|entries| - 1], name) + (if last.0 == name then [last.1] else [])
  }

  /** What load_bloodgas_series returns: a finished series for every name the mapping uses. */
  function LoadBloodGasSpec(rows: seq<BloodGasRow>, prefixes: seq<string>, mapping: map<int, string>): Result<map<string, SeriesMap>, Error>
  {
    var entries :- BloodGasEntries(rows, prefixes, mapping);
    Success(map name | name in mapping.Values :: BuildSeriesSpec(Named(entries, name)))
  }

  /** Once a prefix of the rows fails, the whole run fails with that error. */
  lemma {:induction false} EntriesFailurePersists(rows: seq<BloodGasRow>, n: nat, prefixes: seq<string>, mapping: map<int, string>)
    requires n <= |rows|
    requires BloodGasEntries(rows[..n], prefixes, mapping).Failure?
    ensures BloodGasEntries(rows, prefixes, mapping) == BloodGasEntries(rows[..n], prefixes, mapping)
  {
    if n < |rows| {
      var init := rows[..|rows| - 1];
      assert init[..n] == rows[..n];
      EntriesFailurePersists(init, n, prefixes, mapping);
    } else {
      assert rows[..n] == rows;
    }
  }

  /** One more row: its entry is appended to the kept entries of the rows before it. */
  lemma EntriesStep(rows: seq<BloodGasRow>, i: nat, prefixes: seq<string>, mapping: map<int, string>, kept: seq<(string, KeyedRecord)>)
    requires i < |rows|
    requires BloodGasEntries(rows[..i], prefixes, mapping) == Success(kept)
    ensures BloodGasEntries(rows[..i + 1], prefixes, mapping) ==
      match BloodGasEntry(rows[i], prefixes, mapping)
      case Failure(e) => Failure(e)
      case Success(entry) => Success(if entry.Some? then kept + [entry.value] else kept)
  {
    assert rows[..i + 1][..i] == rows[..i];
  }

  lemma NamedSnoc(entries: seq<(string, KeyedRecord)>, e: (string, KeyedRecord), name: string)
    ensures Named(entries + [e], name) == Named(entries, name) + (if e.0 == name then [e.1] else [])
  {
    assert (entries + [e])[..|entries|] == entries;
  }

  /** Appending a kept record to its name's series keeps every series equal to the grouping of its entries. */
  lemma GroupKept(seriesMap: map<string, SeriesMap>, entries: seq<(string, KeyedRecord)>, name: string, record: KeyedRecord)
    requires name in seriesMap
    requires forall n :: n in seriesMap ==> seriesMap[n] == Group(Named(entries, n))
    ensures forall n :: n in seriesMap ==>
      seriesMap[name := AppendRecord(seriesMap[name], record)][n] == Group(Named(entries + [(name, record)], n))
  {
    forall n | n in seriesMap
      ensures seriesMap[name := AppendRecord(seriesMap[name], record)][n] == Group(Named(entries + [(name, record)], n))
    {
      NamedSnoc(entries, (name, record), n);
      if n == name {
        GroupSnoc(Named(entries, name), record);
      } else {
        assert Named(entries + [(name, record)], n) == Named(entries, n) + [];
        assert Named(entries, n) + [] == Named(entries, n);
      }
    }
  }

  /** The second loop of load_bloodgas_series: sort the buckets of every name's series. */
  method SortEverySeries(seriesMap: map<string, SeriesMap>, ghost entries: seq<(string, KeyedRecord)>)
    returns (sortedMap: map<string, SeriesMap>)
    requires forall n :: n in seriesMap ==> seriesMap[n] == Group(Named(entries, n))
    ensures sortedMap == map n | n in seriesMap :: BuildSeriesSpec(Named(entries, n))
  {
    sortedMap := seriesMap;
    var names := seriesMap.Keys;
    while names != {}
      invariant names <= seriesMap.Keys && sortedMap.Keys == seriesMap.Keys
      invariant forall n :: n in sortedMap ==> sortedMap[n] == if n in names then seriesMap[n] else BuildSeriesSpec(Named(entries, n))
      decreases names
    {
      var name :| name in names;
      GroupAligned(Named(entries, name));
      var sorted := SortBuckets(sortedMap[name]);
      ResortedGroup(Named(entries, name));
      sortedMap := sortedMap[name := sorted];
      names := names - {name};
    }
  }

  /** The series map after the filtering and append loop, before any bucket is sorted. */
  function CollectedSpec(rows: seq<BloodGasRow>, prefixes: seq<string>, mapping: map<int, string>): Result<map<string, SeriesMap>, Error>
  {
    var entries :- BloodGasEntries(rows, prefixes, mapping);
    Success(map name | name in mapping.Values :: Group(Named(entries, name)))
  }

  /** `series_map[meas_name].setdefault(key, ...)` and the two appends: the kept record goes to the end of its bucket under its name. */
  method FileRecord(seriesMap: map<string, SeriesMap>, ghost entries: seq<(string, KeyedRecord)>, name: string, record: KeyedRecord)
    returns (filed: map<string, SeriesMap>)
    requires name in seriesMap
    requires forall n :: n in seriesMap ==> seriesMap[n] == Group(Named(entries, n))
    ensures filed.Keys == seriesMap.Keys
    ensures forall n :: n in filed ==> filed[n] == Group(Named(entries + [(name, record)], n))
  {
    var series := AppendRecord(seriesMap[name], record);
    filed := seriesMap[name := series];
    GroupKept(seriesMap, entries, name, record);
  }

  /** The first loop of load_bloodgas_series: filter the rows and append each kept record to its name's bucket. */
  method CollectBloodGas(rows: seq<BloodGasRow>, prefixes: seq<string>, mapping: map<int, string>)
    returns (res: Result<map<string, SeriesMap>, Error>)
    ensures res == CollectedSpec(rows, prefixes, mapping)
  {
    var seriesMap: map<string, SeriesMap> := map name | name in mapping.Values :: map[];
    ghost var entries: seq<(string, KeyedRecord)> := [];
    for i := 0 to |rows|
      invariant BloodGasEntries(rows[..i], prefixes, mapping) == Success(entries)
      invariant seriesMap.Keys == mapping.Values
      invariant forall name :: name in seriesMap ==> seriesMap[name] == Group(Named(entries, name))
    {
      var row := rows[i];
      EntriesStep(rows, i, prefixes, mapping, entries);
      var entry := BloodGasEntry(row, prefixes, mapping);
      if entry.Failure? {
        EntriesFailurePersists(rows, i + 1, prefixes, mapping);
        return Failure(entry.error);
      }
      if entry.value.None? {
        continue;
      }
      var (name, record) := entry.value.value;
      seriesMap := FileRecord(seriesMap, entries, name, record);
      entries := entries + [(name, record)];
    }
    assert rows[..|rows|] == rows;
    assert seriesMap == map name | name in mapping.Values :: Group(Named(entries, name));
    res := Success(seriesMap);
  }

  /** load_bloodgas_series: the filtering and append loop, then the sorting loop over every name's buckets. */
  method LoadBloodGasSeries(rows: seq<BloodGasRow>, prefixes: seq<string>, mapping: map<int, string>)
    returns (res: Result<map<string, SeriesMap>, Error>)
    ensures res == LoadBloodGasSpec(rows, prefixes, mapping)
  {
    var collected :- CollectBloodGas(rows, prefixes, mapping);
    ghost var entries := BloodGasEntries(rows, prefixes, mapping).value;
    var seriesMap := SortEverySeries(collected, entries);
    assert seriesMap == map name | name in mapping.Values :: BuildSeriesSpec(Named(entries, name));
    res := Success(seriesMap);
  }

  /**
    The row filter: a row is kept exactly when its upper-cased specimen type
    starts with a prefix, its itemid parses to a key of the mapping and its ids
    normalise; a kept row goes to the mapping's name for its itemid, with its
    normalised key and source 'labevents'.
   */
  lemma BloodGasEntryKept(row: BloodGasRow, prefixes: seq<string>, mapping: map<int, string>)
    ensures (exists e :: BloodGasEntry(row, prefixes, mapping) == Success(Some(e))) <==>
      && SpecimenMatches(row.specimenType, prefixes)
      && ParseInt(row.itemid).Success? && ParseInt(row.itemid).value in mapping
      && NormalizeInt(row.subject).Success? && NormalizeInt(row.hadm).Success? && NormalizeInt(row.icustay).Success?
    ensures forall e: (string, KeyedRecord) :: BloodGasEntry(row, prefixes, mapping) == Success(Some(e)) ==>
      && e.0 == mapping[ParseInt(row.itemid).value]
      && e.1.key == Key(NormalizeInt(row.subject).value, NormalizeInt(row.hadm).value, NormalizeInt(row.icustay).value)
      && e.1.rec == Record(row.time, row.value, row.unit, row.labLabel, "labevents")
    // a specimen that fails the filter skips the row, whatever its item id
    ensures !SpecimenMatches(row.specimenType, prefixes) ==> BloodGasEntry(row, prefixes, mapping) == Success(None)
    // a passing specimen with an unparsable item id ends the load
    ensures SpecimenMatches(row.specimenType, prefixes) && ParseInt(row.itemid).Failure? ==>
      BloodGasEntry(row, prefixes, mapping) == Failure(InvalidIntLiteral(row.itemid))
    // an unmapped item id skips the row before any id is normalised
    ensures SpecimenMatches(row.specimenType, prefixes) && ParseInt(row.itemid).Success? && ParseInt(row.itemid).value !in mapping ==>
      BloodGasEntry(row, prefixes, mapping) == Success(None)
    // a mapped row fails with the first id that does not normalise
    ensures SpecimenMatches(row.specimenType, prefixes) && ParseInt(row.itemid).Success? && ParseInt(row.itemid).value in mapping ==>
      && (NormalizeInt(row.subject).Failure? ==> BloodGasEntry(row, prefixes, mapping) == Failure(NormalizeInt(row.subject).error))
      && (NormalizeInt(row.subject).Success? && NormalizeInt(row.hadm).Failure? ==>
            BloodGasEntry(row, prefixes, mapping) == Failure(NormalizeInt(row.hadm).error))
      && (NormalizeInt(row.subject).Success? && NormalizeInt(row.hadm).Success? && NormalizeInt(row.icustay).Failure? ==>
            BloodGasEntry(row, prefixes, mapping) == Failure(NormalizeInt(row.icustay).error))
  {
  }

  /** The kept entries are exactly the entries of the rows kept one by one. */
  lemma {:induction false} BloodGasEntriesMembers(rows: seq<BloodGasRow>, prefixes: seq<string>, mapping: map<int, string>)
    requires BloodGasEntries(rows, prefixes, mapping).Success?
    ensures forall e :: e in BloodGasEntries(rows, prefixes, mapping).value <==>
      exists i :: 0 <= i < |rows| && BloodGasEntry(rows[i], prefixes, mapping) == Success(Some(e))
  {
    if rows != [] {
      var init := rows[..|rows| - 1];
      BloodGasEntriesMembers(init, prefixes, mapping);
      forall e ensures e in BloodGasEntries(rows, prefixes, mapping).value <==>
        exists i :: 0 <= i < |rows| && BloodGasEntry(rows[i], prefixes, mapping) == Success(Some(e))
      {
        if exists i :: 0 <= i < |rows| && BloodGasEntry(rows[i], prefixes, mapping) == Success(Some(e)) {
          var i :| 0 <= i < |rows| && BloodGasEntry(rows[i], prefixes, mapping) == Success(Some(e));
          if i < |rows| - 1 {
            assert init[i] == rows[i];
          }
        }
        if e in BloodGasEntries(init, prefixes, mapping).value {
          var i :| 0 <= i < |init| && BloodGasEntry(init[i], prefixes, mapping) == Success(Some(e));
          assert rows[i] == init[i];
        }
      }
    }
  }

  /** The loader fails exactly when some row's own processing fails. */
  lemma {:induction false} BloodGasEntriesFailure(rows: seq<BloodGasRow>, prefixes: seq<string>, mapping: map<int, string>)
    ensures BloodGasEntries(rows, prefixes, mapping).Failure? <==>
      exists i :: 0 <= i < |rows| && BloodGasEntry(rows[i], prefixes, mapping).Failure?
  {
    if rows != [] {
      var init := rows[..|rows| - 1];
      BloodGasEntriesFailure(init, prefixes, mapping);
      if exists i :: 0 <= i < |rows| && BloodGasEntry(rows[i], prefixes, mapping).Failure? {
        var i :| 0 <= i < |rows| && BloodGasEntry(rows[i], prefixes, mapping).Failure?;
        if i < |rows| - 1 {
          assert init[i] == rows[i];
        }
      }
      if BloodGasEntries(init, prefixes, mapping).Failure? {
        var i :| 0 <= i < |init| && BloodGasEntry(init[i], prefixes, mapping).Failure?;
        assert rows[i] == init[i];
      }
    }
  }

  /** Upper-casing is idempotent, so the filter ignores the case of the specimen type. */
  lemma SpecimenMatchIgnoresCase(s: string, prefixes: seq<string>)
    ensures SpecimenMatches(Some(s), prefixes) == SpecimenMatches(Some(Upper(s)), prefixes)
  {
    assert Upper(Upper(s)) == Upper(s);
  }

  /** Including venous specimens only adds rows to the central series' filter. */
  lemma VenousWidensCentral(specimenType: Option<string>)
    ensures SpecimenMatches(specimenType, CentralPrefixes(false)) ==> SpecimenMatches(specimenType, CentralPrefixes(true))
    ensures SpecimenMatches(specimenType, CentralPrefixes(true)) && !SpecimenMatches(specimenType, CentralPrefixes(false)) ==>
      "VEN" <= Upper(specimenType.value)
  {
    if SpecimenMatches(specimenType, CentralPrefixes(false)) {
      assert CentralPrefixes(true)[0] == CentralPrefixes(false)[0];
    }
  }

  /** A missing or empty specimen type never passes a filter whose prefixes are all non-empty. */
  lemma MissingSpecimenRejected(prefixes: seq<string>)
    requires forall i :: 0 <= i < |prefixes| ==> prefixes[i] != ""
    ensures !SpecimenMatches(None, prefixes) && !SpecimenMatches(Some(""), prefixes)
  {
  }

  /** A successful load has a series for every name of the mapping, and every one of its buckets is valid. */
  lemma LoadBloodGasSpecShape(rows: seq<BloodGasRow>, prefixes: seq<string>, mapping: map<int, string>)
    ensures LoadBloodGasSpec(rows, prefixes, mapping).Success? ==>
      var loaded := LoadBloodGasSpec(rows, prefixes, mapping).value;
      loaded.Keys == mapping.Values && forall n :: n in loaded ==> ValidSeriesMap(loaded[n])
  {
    if LoadBloodGasSpec(rows, prefixes, mapping).Success? {
      var entries := BloodGasEntries(rows, prefixes, mapping).value;
      forall n | n in mapping.Values ensures ValidSeriesMap(BuildSeriesSpec(Named(entries, n))) {
        BuildSeriesSpecValid(Named(entries, n));
      }
    }
  }

  /** The measurement names each mapping uses. */
  lemma ItemNames()
    ensures ArterialItems.Values == {"arterial_sat", "arterial_pco2", "arterial_ph"}
    ensures CentralItems.Values == {"central_sat", "central_pco2"}
  {
    assert ArterialItems[50817] == "arterial_sat" && ArterialItems[50818] == "arterial_pco2" && ArterialItems[50820] == "arterial_ph";
    assert CentralItems[50817] == "central_sat" && CentralItems[50818] == "central_pco2";
  }
}
