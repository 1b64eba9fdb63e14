/**
  build_series_from_rows: group records by entity key into MeasurementSeries
  buckets (parallel `times` / `records` lists, appended in input order), then
  sort every bucket stably by time.
 */
module SeriesBuilder {
  import opened Records
  import StableSort

  /** The records of `rows` that carry key `k`, in input order. */
  function RecordsWithKey(rows: seq<KeyedRecord>, k: Key): (rs: seq<Record>)
    ensures |rs| <= |rows|
  {
    if rows == [] then []
    else RecordsWithKey(rows[..|rows| - 1], k) + (if rows[|rows| - 1].key == k then [rows[|rows| - 1].rec] else [])
  }

  /** The keys that occur in `rows`. */
  function KeysOf(rows: seq<KeyedRecord>): set<Key>
  {
    set r | r in rows :: r.key
  }

  lemma {:induction false} RecordsWithKeyMembers(rows: seq<KeyedRecord>, k: Key)
    ensures forall r :: r in RecordsWithKey(rows, k) <==> KeyedRecord(k, r) in rows
  {
    if rows != [] {
      var init, last := rows[..|rows| - 1], rows[|rows| - 1];
      RecordsWithKeyMembers(init, k);
      assert rows == init + [last];
    }
  }

  lemma RecordsWithKeyEmpty(rows: seq<KeyedRecord>, k: Key)
    ensures RecordsWithKey(rows, k) == [] <==> k !in KeysOf(rows)
  {
    RecordsWithKeyMembers(rows, k);
    if k in KeysOf(rows) {
      var r :| r in rows && r.key == k;
      assert r == KeyedRecord(k, r.rec);
      assert r.rec in RecordsWithKey(rows, k);
    }
  }

  /** The bucket the appends build for key `k`, before sorting. */
  function Collected(rows: seq<KeyedRecord>, k: Key): MeasurementSeries
  {
    var rs := RecordsWithKey(rows, k);
    MeasurementSeries(TimesOf(rs), rs)
  }

  /** The series map after the append loop over `rows`. */
  function Group(rows: seq<KeyedRecord>): SeriesMap
  {
    map k | k in KeysOf(rows) :: Collected(rows, k)
  }

  /** One step of the append loop: `bucket = series[key]` (a fresh bucket if absent), then both appends. */
  function AppendRecord(series: SeriesMap, r: KeyedRecord): (out: SeriesMap)
    ensures out.Keys == series.Keys + {r.key}
  {
    var b := if r.key in series then series[r.key] else MeasurementSeries([], []);
    series[r.key := MeasurementSeries(b.times + [r.rec.time], b.records + [r.rec])]
  }

  /** Appending a record to the input appends it to its key's bucket and touches no other bucket. */
  lemma GroupSnoc(rows: seq<KeyedRecord>, r: KeyedRecord)
    ensures Group(rows + [r]) == AppendRecord(Group(rows), r)
  {
    var rows' := rows + [r];
    assert rows'[..|rows'| - 1] == rows;
    assert KeysOf(rows') == KeysOf(rows) + {r.key} by {
      forall x | x in rows' ensures x in rows || x == r {
      }
    }
    var g, g' := Group(rows), Group(rows');
    forall k | k in g'
      ensures g'[k] == AppendRecord(g, r)[k]
    {
      if k == r.key {
        var rs := RecordsWithKey(rows, k);
        RecordsWithKeyEmpty(rows, k);
        assert TimesOf(rs + [r.rec]) == TimesOf(rs) + [r.rec.time];
      }
    }
  }

  /** Sort one bucket by time, stably: `sorted(zip(times, records), key=time)` and unzip. */
  function SortBucket(b: MeasurementSeries): MeasurementSeries
  {
    var rs := StableSort.SortBy(b.records, TimeKey);
    MeasurementSeries(TimesOf(rs), rs)
  }

  /** What the sorting loop leaves in a bucket: `if combined:` skips an empty bucket. */
  function Resorted(b: MeasurementSeries): MeasurementSeries
  {
    if b.records == [] then b else SortBucket(b)
  }

  /** The finished stream: every key that occurs, with its records sorted stably by time. */
  function BuildSeriesSpec(rows: seq<KeyedRecord>): SeriesMap
  {
    map k | k in KeysOf(rows) :: SortBucket(Collected(rows, k))
  }

  /**
    The second loop of build_series_from_rows (and of load_bloodgas_series):
    every bucket is replaced by its time-sorted version.
   */
  method SortBuckets(series: SeriesMap) returns (sorted: SeriesMap)
    requires forall k :: k in series ==> Aligned(series[k])
    ensures sorted == map k | k in series :: Resorted(series[k])
  {
    sorted := series;
    var todo := series.Keys;
    while todo != {}
      invariant todo <= series.Keys && sorted.Keys == series.Keys
      invariant forall k :: k in sorted ==> sorted[k] == if k in todo then series[k] else Resorted(series[k])
      decreases todo
    {
      var k :| k in todo;
      var bucket := sorted[k];
      if bucket.records != [] {
        sorted := sorted[k := SortBucket(bucket)];
      }
      todo := todo - {k};
    }
  }

  lemma GroupAligned(rows: seq<KeyedRecord>)
    ensures forall k :: k in Group(rows) ==> Aligned(Group(rows)[k])
  {
  }

  lemma ResortedGroup(rows: seq<KeyedRecord>)
    ensures (map k | k in Group(rows) :: Resorted(Group(rows)[k])) == BuildSeriesSpec(rows)
  {
    forall k | k in KeysOf(rows) ensures Group(rows)[k].records != [] {
      RecordsWithKeyEmpty(rows, k);
    }
  }

  /** The append loop of build_series_from_rows: every record goes to the end of its key's bucket. */
  method GroupRows(rows: seq<KeyedRecord>) returns (grouped: SeriesMap)
    ensures grouped == Group(rows)
  {
    grouped := map[];
    for i := 0 to |rows|
      invariant grouped == Group(rows[..i])
    {
      var row := rows[i];
      grouped := AppendRecord(grouped, row);
      GroupSnoc(rows[..i], row);
      assert rows[..i + 1] == rows[..i] + [row];
    }
    assert rows[..|rows|] == rows;
  }

  /** build_series_from_rows: the append loop, then the sorting loop. */
  method BuildSeriesFromRows(rows: seq<KeyedRecord>) returns (series: SeriesMap)
    ensures series == BuildSeriesSpec(rows)
  {
    var grouped := GroupRows(rows);
    GroupAligned(rows);
    series := SortBuckets(grouped);
    ResortedGroup(rows);
  }

  /**
    What a finished stream holds: exactly the keys that occur in the input;
    under each, a non-empty bucket whose times line up with its records and
    never decrease, whose records are exactly the input's records with that
    key (same multiplicities), and where records with equal times keep their
    input order.
   */
  lemma BuildSeriesSpecCorrect(rows: seq<KeyedRecord>, k: Key)
    ensures k in BuildSeriesSpec(rows) <==> exists i :: 0 <= i < |rows| && rows[i].key == k
    ensures k in BuildSeriesSpec(rows) ==>
      var b := BuildSeriesSpec(rows)[k];
      && ValidSeries(b)
      && b.records != []
      && (forall r :: r in b.records <==> KeyedRecord(k, r) in rows)
      && multiset(b.records) == multiset(RecordsWithKey(rows, k))
      && forall tk :: StableSort.WithKey(b.records, TimeKey, tk) == StableSort.WithKey(RecordsWithKey(rows, k), TimeKey, tk)
  {
    if k in KeysOf(rows) {
      var r :| r in rows && r.key == k;
      var i :| 0 <= i < |rows| && rows[i] == r;
    }
    if k in BuildSeriesSpec(rows) {
      var rs := RecordsWithKey(rows, k);
      var sorted := StableSort.SortBy(rs, TimeKey);
      StableSort.SortBySorted(rs, TimeKey);
      SortedByTimeNonDecreasing(sorted);
      RecordsWithKeyEmpty(rows, k);
      RecordsWithKeyMembers(rows, k);
      forall x ensures x in sorted <==> x in rs {
        assert x in sorted <==> x in multiset(sorted);
      }
      forall tk ensures StableSort.WithKey(sorted, TimeKey, tk) == StableSort.WithKey(rs, TimeKey, tk) {
        StableSort.SortByStable(rs, TimeKey, tk);
      }
    }
  }

  /** Every bucket of a finished stream is aligned and sorted, which is what nearest_record relies on. */
  lemma BuildSeriesSpecValid(rows: seq<KeyedRecord>)
    ensures ValidSeriesMap(BuildSeriesSpec(rows))
  {
    forall k | k in BuildSeriesSpec(rows) ensures ValidSeries(BuildSeriesSpec(rows)[k]) {
      BuildSeriesSpecCorrect(rows, k);
    }
  }
}
