# Matched measurement panels: the nearest-timestamp join

`scripts/build_matched_measurements.py` builds one output row per cardiac
output measurement (the *anchor*). For each anchor it looks up, in eight
measurement streams, the record of the same ICU stay whose chart time is
closest to the anchor's time. A stream only matches within its tolerance
window. The streams are arterial and central blood gases, hemoglobin,
temperature and cardiac index.

This project models the join engine of that script and proves properties of
it:

- **Series builder.** Records are grouped by entity key. The key is the triple
  (subject, admission, ICU stay). Each bucket is then sorted stably by time.
  The blood-gas loader first filters rows by specimen prefix and item id.
- **Nearest record.** A `bisect_left` search is followed by comparing the two
  neighbours of the insertion point. A tolerance test follows.
- **Anchor construction.** Rows are filtered by the cardiac output item ids.
  Missing ids become -1. The anchors are sorted by (subject, admission, stay,
  time).
- **Panel assembly.** A row dict is written per anchor: the anchor's fields,
  then six columns for each stream.

Times and tolerances are integer seconds. A row dict is a `Fields.Row` object
whose ordered fields the assembly updates in place. Python's `sorted` becomes
`StableSort.SortBy`. That function is proved sorted, a permutation, and
stable. It is also proved to be the only sequence with those properties, so
it specifies any stable sort.

Modules, in dependency order:

- `Wrappers`: `Option` and `Result`.
- `StableSort`: the lexicographic key order and the stable sort.
- `Records`: the `int()` parse, `normalize_int`, records and series.
- `Fields`: the ordered row dict.
- `Anchors`: `build_anchor_entries`.
- `Matcher`: `bisect_left` and `nearest_record`.
- `SeriesBuilder`: `build_series_from_rows`.
- `BloodGas`: `load_bloodgas_series`.
- `Panel`: `append_measurement` and `build_rows`.

## Model

| member | source | states |
|---|---|---|
| Records.ParseDecimal | scripts/build_matched_measurements.py:49 | the value of `int(text)`: digits read as their decimal value, a leading `-` negates, and empty or sign-only text has no value |
| Records.ParseDecimalRejects | scripts/build_matched_measurements.py:49 | where the model's `int()` gives no value: text holding any non-digit other than a leading sign (`12.0`, `abc`) has no value; a leading `+` followed by digits reads as those digits |
| Records.ParseInt | scripts/build_matched_measurements.py:49 | `int(text)` raising: it succeeds exactly where the text has a decimal value, with that value; otherwise it fails with the ValueError, carrying the text, that ends the run |
| Records.ParseDecimalRoundTrip | scripts/build_matched_measurements.py:49 | parsing the decimal text of any integer gives back that integer |
| Records.NormalizeInt | scripts/build_matched_measurements.py:40-41 | None, `''` and `'nan'` become -1; any other text is parsed with `int()` |
| Records.NormalizeIntRoundTrip | scripts/build_matched_measurements.py:40-41 | the id written as decimal text normalizes back to itself |
| Records.SortedByTimeNonDecreasing | scripts/build_matched_measurements.py:86-88 | records sorted by time have non-decreasing times |
| StableSort.LexLe | scripts/build_matched_measurements.py:69 | Python's order on tuples of ints: the first differing position decides, and a proper prefix comes first |
| StableSort.SortBy | scripts/build_matched_measurements.py:86 | the sort keeps the length and is a permutation of its input |
| StableSort.SortBySorted | scripts/build_matched_measurements.py:69 | the sort's output is ordered by the key, lexicographically |
| StableSort.SortByStable | scripts/build_matched_measurements.py:69 | for every key value, the elements with that key keep their input order (`sorted` and `list.sort` are stable) |
| StableSort.StableSortUnique | scripts/build_matched_measurements.py:69 | two key-ordered sequences with the same elements in the same per-key order are equal |
| StableSort.SortByCharacterized | scripts/build_matched_measurements.py:86 | any sequence ordered by the key, with every key's elements in input order, is the sort's output |
| StableSort.LexLeTotal | scripts/build_matched_measurements.py:69 | tuple comparison orders any two keys |
| StableSort.LexLeTransitive | scripts/build_matched_measurements.py:69 | tuple comparison is transitive |
| StableSort.LexLeAntisymmetric | scripts/build_matched_measurements.py:69 | keys that compare both ways are equal |
| StableSort.InsertSorted | scripts/build_matched_measurements.py:69 | inserting into a key-ordered sequence keeps it ordered |
| StableSort.InsertWithKey | scripts/build_matched_measurements.py:69 | an insertion puts the new element before every existing element with the same key |
| StableSort.WithKeyFindsAll | scripts/build_matched_measurements.py:69 | every element is among the elements that share its key |
| Anchors.AnchorOf | scripts/build_matched_measurements.py:49-68 | one iteration of the anchor loop: `int(itemid)` first, the cardiac output filter, then the three ids normalized; the row is skipped, becomes an anchor, or fails |
| Anchors.AnchorSortKey | scripts/build_matched_measurements.py:69 | the sort key `(subject_id, hadm_id, icustay_id, anchor_time)` |
| Anchors.AnchorFields | scripts/build_matched_measurements.py:56-68 | the anchor dict's eleven keys in insertion order. The values are the constant type and source, the normalized ids, the time as a datetime and as text, the row's value, unit and label, and delta 0.0 |
| Anchors.AnchorOfCorrect | scripts/build_matched_measurements.py:48-68 | a row becomes an anchor exactly when its item id parses and is a cardiac output id and its three ids normalize; the anchor carries the normalized key (-1,-1,-1 for missing ids) and the row's time, value, unit and label; a bad item id fails with that text |
| Anchors.OtherItemsSkipped | scripts/build_matched_measurements.py:50-51 | a row whose item id is any other id written in decimal is skipped without failing |
| Anchors.OtherItemIdsSkipped | scripts/build_matched_measurements.py:49-51 | a row whose item id parses, in any spelling `int()` is modelled to accept, to an id outside the cardiac output ids is skipped before any id is normalized |
| Anchors.AnchorRowsStep | scripts/build_matched_measurements.py:48-68 | one more row either fails the run with its error, appends its anchor, or is skipped |
| Anchors.AnchorRowsFailurePersists | scripts/build_matched_measurements.py:48-68 | once a row has failed, no later row changes the outcome |
| Anchors.AnchorRowsFailure | scripts/build_matched_measurements.py:48-68 | the run fails exactly when some row fails |
| Anchors.AnchorRowsMembers | scripts/build_matched_measurements.py:48-68 | the kept anchors are exactly the anchors of the input rows |
| Anchors.BuildAnchorEntries | scripts/build_matched_measurements.py:44-70 | the filtering loop followed by the sort computes the anchor list, or the first row's error |
| Anchors.AnchorEntriesSorted | scripts/build_matched_measurements.py:69 | the anchors are ordered by (subject, admission, stay, time), are a permutation of the kept anchors, keep the input order among equal keys, and per entity have non-decreasing times |
| Anchors.SameEntityOrder | scripts/build_matched_measurements.py:69 | of two anchors of the same entity, the one ordered first is not later |
| SeriesBuilder.RecordsWithKeyMembers | scripts/build_matched_measurements.py:80-84 | a bucket collects exactly the input's records with that key |
| SeriesBuilder.RecordsWithKeyEmpty | scripts/build_matched_measurements.py:80-84 | a key has an empty bucket exactly when it does not occur in the input |
| SeriesBuilder.AppendRecord | scripts/build_matched_measurements.py:82-84 | one step of the append loop: the `defaultdict` lookup, a fresh bucket for a new key, and the two appends. It adds the record's key to the map and no other key |
| SeriesBuilder.GroupSnoc | scripts/build_matched_measurements.py:80-84 | grouping one more record is appending it to the grouping so far |
| SeriesBuilder.GroupRows | scripts/build_matched_measurements.py:79-84 | the append loop groups every record under its key, in input order, with times aligned to records |
| SeriesBuilder.GroupAligned | scripts/build_matched_measurements.py:83-84 | after the append loop, every bucket's times are its records' times |
| SeriesBuilder.SortBucket | scripts/build_matched_measurements.py:86-88 | one bucket sorted stably by time, with the times list rebuilt from the sorted records |
| SeriesBuilder.SortBuckets | scripts/build_matched_measurements.py:85-88 | the sorting loop replaces every non-empty bucket by its stable sort by time, with the times rebuilt from it |
| SeriesBuilder.ResortedGroup | scripts/build_matched_measurements.py:85-88 | sorting the grouped buckets gives the finished series map |
| SeriesBuilder.BuildSeriesFromRows | scripts/build_matched_measurements.py:78-89 | the two loops compute the finished series map |
| SeriesBuilder.BuildSeriesSpecCorrect | scripts/build_matched_measurements.py:78-89 | the result holds exactly the input's keys; each bucket is non-empty and aligned, with non-decreasing times; it holds exactly the input's records with that key, with their multiplicities; equal-time records keep their input order |
| SeriesBuilder.BuildSeriesSpecValid | scripts/build_matched_measurements.py:78-89 | every finished bucket is aligned and sorted, as nearest_record needs |
| BloodGas.CentralPrefixes | scripts/build_matched_measurements.py:159-162 | the central load's prefixes: `CENTRAL`, and also `VEN` when venous rows are included |
| BloodGas.SpecimenMatches | scripts/build_matched_measurements.py:97-98 | the specimen filter: the upper-cased specimen type, `''` when missing, starts with one of the prefixes |
| BloodGas.Upper | scripts/build_matched_measurements.py:97 | upper-casing keeps the length and maps every character |
| BloodGas.SpecimenMatchIgnoresCase | scripts/build_matched_measurements.py:97-99 | the specimen filter gives the same answer for a specimen type and its upper-cased form |
| BloodGas.MissingSpecimenRejected | scripts/build_matched_measurements.py:97-99 | a missing or empty specimen type never passes the filter |
| BloodGas.VenousWidensCentral | scripts/build_matched_measurements.py:159-164 | `--include-venous` only adds the specimens that start with VEN to the central load |
| BloodGas.BloodGasEntry | scripts/build_matched_measurements.py:97-114 | a kept row is filed under a measurement name of the mapping |
| BloodGas.BloodGasEntryKept | scripts/build_matched_measurements.py:97-114 | a row is kept exactly when its specimen passes, its item id parses and is in the mapping, and its ids normalize; it is filed under `mapping[itemid]` with its normalized key and a labevents record of its time, value, unit and label. A failing specimen skips the row whatever its item id; a passing specimen with an unparsable item id fails with that text; an unmapped id skips the row; a mapped row fails with the first id that does not normalize |
| BloodGas.EntriesStep | scripts/build_matched_measurements.py:96-117 | one more row fails the load, adds its entry, or is skipped |
| BloodGas.EntriesFailurePersists | scripts/build_matched_measurements.py:96-117 | once a row has failed, later rows do not change the outcome |
| BloodGas.BloodGasEntriesFailure | scripts/build_matched_measurements.py:96-117 | the load fails exactly when some row fails |
| BloodGas.BloodGasEntriesMembers | scripts/build_matched_measurements.py:96-117 | the kept entries are exactly the entries of the input rows |
| BloodGas.NamedSnoc | scripts/build_matched_measurements.py:115-117 | an entry extends only its own measurement's records |
| BloodGas.GroupKept | scripts/build_matched_measurements.py:115-117 | appending an entry to its measurement's series keeps every measurement's series the grouping of its entries |
| BloodGas.FileRecord | scripts/build_matched_measurements.py:114-117 | filing a kept record under its measurement name keeps the names and keeps every name's series the grouping of its entries, the new one last |
| BloodGas.CollectBloodGas | scripts/build_matched_measurements.py:93-117 | the filtering loop gives every measurement name of the mapping the grouping of its entries, or the first row's error |
| BloodGas.SortEverySeries | scripts/build_matched_measurements.py:118-122 | the sorting loop turns every grouped measurement into its finished series map |
| BloodGas.LoadBloodGasSeries | scripts/build_matched_measurements.py:92-123 | load_bloodgas_series: per measurement name, the finished series of the kept rows filed under it |
| BloodGas.LoadBloodGasSpecShape | scripts/build_matched_measurements.py:93 | a successful load has exactly the mapping's measurement names, and every series in it is valid |
| BloodGas.ItemNames | scripts/build_matched_measurements.py:19-20 | the arterial load provides sat, pco2 and ph, and the central load sat and pco2 |
| Matcher.Dist | scripts/build_matched_measurements.py:136 | the absolute difference of two times in seconds: it is one of the two differences and at least both |
| Matcher.BisectLeft | scripts/build_matched_measurements.py:130 | on sorted times, the result is the leftmost insertion point: every earlier time is before the target, every later one is not |
| Matcher.InsertionPointOf | scripts/build_matched_measurements.py:130 | every sorted sequence has a leftmost insertion point |
| Matcher.TwoNeighbours | scripts/build_matched_measurements.py:133-139 | the candidate rule gives the nearest record of the whole sorted bucket. The rule keeps idx-1 unless idx is strictly closer, and takes idx when idx-1 is absent. Nearest means the smallest distance, and the earlier time when two are equally close. Among records sharing the winning time, it is the last one before the target, or the first one at or after it |
| Matcher.NearestUnique | scripts/build_matched_measurements.py:133-139 | a sorted bucket has at most one nearest record in that sense |
| Matcher.NearestExists | scripts/build_matched_measurements.py:130-139 | every non-empty sorted bucket has a nearest record |
| Matcher.NearestRecord | scripts/build_matched_measurements.py:126-144 | nearest_record returns None for an absent key or an empty bucket, and otherwise the copy, with its delta, of the nearest record within the tolerance |
| Matcher.NearestSpecCorrect | scripts/build_matched_measurements.py:126-144 | no match exactly when the key is absent, the bucket is empty, or every record is farther than the tolerance. A match is an unchanged stored record at the smallest distance, not over the tolerance, and the earliest of the equally close. Its delta in minutes is the distance in seconds / 60 |
| Matcher.ToleranceExample | scripts/build_matched_measurements.py:140-143 | a record 10 minutes away in a 15-minute window matches with delta 10.0; 20 minutes away does not |
| Matcher.TieBreakExample | scripts/build_matched_measurements.py:137 | of two records ten minutes either side, the earlier one is chosen |
| Matcher.NearestWinsExample | scripts/build_matched_measurements.py:133-139 | of records 20 minutes before and 5 minutes after, the 5-minute one is chosen |
| Fields.PutField | scripts/build_matched_measurements.py:148-153 | `row[name] = cell` on an insertion-ordered dict: an existing key's cell is replaced where it stands, a new key is appended |
| Fields.PutFieldLookup | scripts/build_matched_measurements.py:148-153 | after `row[name] = cell` the dict maps name to cell and every other key as before |
| Fields.PutFieldNames | scripts/build_matched_measurements.py:148-153 | assigning an existing key keeps the key order; a new key goes last |
| Fields.PutFieldDistinct | scripts/build_matched_measurements.py:148-153 | a dict's keys stay distinct |
| Fields.PutFieldExisting | scripts/build_matched_measurements.py:234 | assigning an existing key replaces its cell where it stands |
| Fields.PutFieldNew | scripts/build_matched_measurements.py:148-153 | assigning a new key appends it |
| Fields.PutAllAppend | scripts/build_matched_measurements.py:236-252 | assignments in two batches are the assignments in one |
| Fields.PutAllFresh | scripts/build_matched_measurements.py:236-252 | assigning distinct new keys appends them in order |
| Fields.Row.constructor | scripts/build_matched_measurements.py:233 | `anchor.copy()`: a row holding the given fields |
| Fields.Row.Put | scripts/build_matched_measurements.py:148-153 | one dict assignment, in place |
| Panel.ConfiguredStreams | scripts/build_matched_measurements.py:236-250 | the eight streams in loop order, under the eight measurement names; the five blood-gas streams use the blood-gas window |
| Panel.ConfiguredStreamsValid | scripts/build_matched_measurements.py:236-250 | streams over valid series are valid and carry the eight measurement names |
| Panel.StreamColumns | scripts/build_matched_measurements.py:148-153 | a stream's six columns are its name followed by each suffix |
| Panel.MeasurementFields | scripts/build_matched_measurements.py:148-153 | the six assignments of append_measurement: `''` in all six without a match, otherwise the record's value, unit, label, source, formatted time and delta |
| Panel.AppendMeasurement | scripts/build_matched_measurements.py:147-153 | append_measurement performs the stream's six assignments on the row, in place |
| Panel.PutAllUnrolled | scripts/build_matched_measurements.py:148-153 | the six assignments, one after another |
| Panel.MeasurementCells | scripts/build_matched_measurements.py:147-153 | the six columns are `_value`, `_unit`, `_label`, `_source`, `_time` and `_delta_minutes`. Without a match all six are `''`. With a match they are the record's value, unit, label, source and formatted time, and the delta |
| Panel.MeasurementFieldNames | scripts/build_matched_measurements.py:147-153 | append_measurement writes exactly the stream's six columns |
| Panel.MatchedFieldsSnoc | scripts/build_matched_measurements.py:236-252 | one more stream appends its six fields |
| Panel.BuildRow | scripts/build_matched_measurements.py:231-252 | one iteration of the assembly loop builds a fresh row: the anchor dict with anchor_time formatted, then every stream's assignments in order |
| Panel.AssembleRows | scripts/build_matched_measurements.py:229-257 | one row per anchor, in anchor order. Each row is the anchor's row as above. No anchors is the `No anchors found.` exit, and it is the only failure. Every returned row is a newly allocated dict |
| Panel.FieldsOfLength | scripts/build_matched_measurements.py:236-252 | each stream contributes six fields |
| Panel.FieldsOfNames | scripts/build_matched_measurements.py:236-252 | the measurement part's keys are every stream's six columns, in stream order |
| Panel.FieldsOfAt | scripts/build_matched_measurements.py:236-252 | stream k's fields sit at positions 6k to 6k+5 of the measurement part |
| Panel.MatchedFieldsAt | scripts/build_matched_measurements.py:236-252 | stream k's six fields are those of its lookup, at positions 6k to 6k+5 |
| Panel.ColumnsMember | scripts/build_matched_measurements.py:148-153 | a column belongs to the measurement part exactly when it is some stream name plus some suffix |
| Panel.ColumnsDistinct | scripts/build_matched_measurements.py:148-153 | distinct stream names give distinct columns |
| Panel.SuffixDetermines | scripts/build_matched_measurements.py:148-153 | a column name determines its stream name and its suffix |
| Panel.NotAnchorColumn | scripts/build_matched_measurements.py:56-68 | a stream other than "anchor" and "cardiac_output" never writes over an anchor column |
| Panel.CardiacOutputColumns | scripts/build_matched_measurements.py:61-67 | the anchor's last six keys are the cardiac_output columns, and anchor_time is "anchor" plus the `_time` suffix |
| Panel.AnchorBase | scripts/build_matched_measurements.py:233-234 | formatting anchor_time replaces it in place and keeps the anchor's key order |
| Panel.FieldsFresh | scripts/build_matched_measurements.py:236-252 | the measurement columns are distinct and none is an anchor column |
| Panel.FieldsLayout | scripts/build_matched_measurements.py:233-252 | for any lookup results, the row is the anchor dict with anchor_time formatted, followed by each stream's six fields |
| Panel.RowLayout | scripts/build_matched_measurements.py:233-252 | every row is the anchor dict with anchor_time formatted, then each stream's six fields. Its keys are the anchor columns followed by every stream's columns in stream order |
| Panel.FieldsCells | scripts/build_matched_measurements.py:233-252 | stream k's six fields sit at row positions 11+6k onwards |
| Panel.RowCells | scripts/build_matched_measurements.py:233-252 | stream k's six cells in a row carry its six column names. Without a match all six are `''`; with a match they hold the nearest record's fields and delta |
| Panel.MeasurementNamesUsable | scripts/build_matched_measurements.py:236-250 | the eight names are distinct and clash with no anchor column |
| Panel.LoadedStreams | scripts/build_matched_measurements.py:159-251 | the eight streams loaded from their inputs are valid and carry the eight measurement names |
| Panel.LoadedStreamsSuccess | scripts/build_matched_measurements.py:159-164 | a blood-gas load failure ends the run with its error, the arterial load first; otherwise all five blood-gas measurement names are present |
| Panel.BuildRows | scripts/build_matched_measurements.py:156-257 | build_rows fails with the first failure among the anchors, the arterial load, the central load and zero anchors, in that order. The failures of the hemoglobin, temperature and cardiac-index loaders are not represented. Otherwise it gives one row per anchor, in anchor order, each that anchor's row over the loaded streams and newly allocated |
| Panel.PanelHeader | scripts/build_matched_measurements.py:259 | every row's keys, and so the header, are the 11 anchor columns followed by six columns for each of the eight measurements: 59 columns |
| Panel.ColumnsLength | scripts/build_matched_measurements.py:148-153 | each stream contributes six columns |

## Left out

- CSV reading and writing, argparse, the output header write and the final print are not modelled. The inputs are the rows already read, as sequences of records. The tolerances are the `Windows` parameter.
- `parse_dt` / `strptime` are not modelled: times are integer seconds. The code does not skip rows with unparsable dates; `parse_dt` raises and the run ends. Because times arrive as integers here, that failure path is not represented.
- `strftime` is not modelled: a formatted time is the `Formatted(t)` cell over the same integer.
- `parse_float` is not modelled: a value is an opaque `Option<real>` payload.
- Panel.AppendMeasurement: `round(delta_minutes, 3)` is not modelled; the delta cell holds the unrounded seconds / 60.
- Records.ParseDecimal, Records.ParseDecimalRejects, Records.ParseInt: accept an optional sign and ASCII digits only. Python's `int()` also accepts surrounding whitespace, `_` separators and non-ASCII digits; those strings fail here.
- BloodGas.Upper: upper-cases ASCII letters only, not the full Unicode case mapping of `str.upper()`.
- Tolerances are non-negative integer seconds, not float-minute `timedelta`s. The delta is compared in seconds.
- `hgb_filter`, `temp_filter`, `load_htemp` and `load_swan` are not part of this model. The hemoglobin, temperature and cardiac index streams are built with `SeriesBuilder.BuildSeriesFromRows` from records already selected and keyed.
- Panel.BuildRows: the hemoglobin, temperature and cardiac-index streams are built from records already selected and keyed, so their loaders cannot fail. In the script those loaders can raise between the central load and the `No anchors found.` exit. `normalize_int` can raise on an id such as `12.0` (lines 180-182, 194-196, 216-218) and `parse_dt` on a bad date (lines 183, 197, 219). The model's failure order has no such step.
- `rec.pop(...)` of the id fields is not modelled. A record is a key plus its payload, and the caller's dicts are not mutated.
- SeriesBuilder.SortBuckets: sorts each bucket by the records' own times, not by the zipped `times` list. The two are the same because every bucket is aligned (SeriesBuilder.GroupAligned).
- Series maps and buckets are values, not shared objects. The aliasing between a `defaultdict` and the buckets it hands out is not represented. Matcher.NearestRecord receives the map by value, so `series.get(key)` cannot insert the key.
- The row dict's key order is modelled. Its hash-table behaviour is not.
- The `isinstance(record.get('time'), datetime)` test of append_measurement always holds in the model, because every record carries a time.
