/**
  nearest_record: the bounded nearest-neighbour lookup of one anchor time in
  one entity's sorted series. bisect_left finds the leftmost insertion point
  idx; only idx - 1 and idx are compared, the earlier candidate is kept unless
  the later one is strictly closer, and a best distance above the tolerance
  gives no match.

  IsNearest says, without mentioning the search, which record that is: one at
  the smallest distance, at the earliest time among the equally close ones,
  and, among several records sharing that time, the last one before the target
  or the first one at or after it.
 */
module Matcher {
  import opened Wrappers
  import opened Records

  /** `abs((t - target).total_seconds())`. */
  function Dist(t: int, target: int): (d: nat)
    ensures d == t - target || d == target - t
    ensures t - target <= d && target - t <= d
  {
    if t >= target then t - target else target - t
  }

  /** A matched record: a copy of the stored record plus `delta_minutes`. */
  datatype Match = Match(rec: Record, deltaMinutes: real)

  /** Everything before idx is earlier than the target, everything from idx on is not. */
  ghost predicate IsInsertionPoint(times: seq<int>, target: int, idx: int)
  {
    0 <= idx <= |times|
    && (forall i :: 0 <= i < idx ==> times[i] < target)
    && (forall i :: idx <= i < |times| ==> target <= times[i])
  }

  /** bisect_left(times, target). */
  method BisectLeft(times: seq<int>, target: int) returns (idx: nat)
    ensures idx <= |times|
    ensures NonDecreasing(times) ==> IsInsertionPoint(times, target, idx)
  {
    var lo, hi := 0, |times|;
    while lo < hi
      invariant 0 <= lo <= hi <= |times|
      invariant NonDecreasing(times) ==> forall i :: 0 <= i < lo ==> times[i] < target
      invariant NonDecreasing(times) ==> forall i :: hi <= i < |times| ==> target <= times[i]
    {
      var mid := (lo + hi) / 2;
      if times[mid] < target {
        lo := mid + 1;
      } else {
        hi := mid;
      }
    }
    idx := lo;
  }

  /** Record i is the one the lookup must return (before the tolerance test). */
  ghost predicate IsNearest(times: seq<int>, target: int, i: int)
  {
    && 0 <= i < |times|
    // no record is closer
    && (forall j :: 0 <= j < |times| ==> Dist(times[i], target) <= Dist(times[j], target))
    // of two equally close times, the earlier wins
    && (forall j :: 0 <= j < |times| && Dist(times[j], target) == Dist(times[i], target) ==> times[i] <= times[j])
    // before the target: the last such record; at or after it: the first such record
    && (times[i] < target ==> forall j :: i < j < |times| ==> target <= times[j])
    && (target <= times[i] ==> forall j :: 0 <= j < i ==> times[j] < target)
  }

  /** At most one record of a sorted series is the nearest one. */
  lemma NearestUnique(times: seq<int>, target: int, i: int, j: int)
    requires NonDecreasing(times)
    requires IsNearest(times, target, i) && IsNearest(times, target, j)
    ensures i == j
  {
    assert times[i] == times[j];
  }

  /**
    The heart of nearest_record: in a sorted series, of the two neighbours of
    the leftmost insertion point, the earlier unless the later is strictly
    closer, is the nearest record of the whole series.
   */
  lemma TwoNeighbours(times: seq<int>, target: int, idx: int, i: int)
    requires NonDecreasing(times)
    requires IsInsertionPoint(times, target, idx)
    requires
      || (i == idx - 1 && 0 < idx && (idx == |times| || Dist(times[idx - 1], target) <= Dist(times[idx], target)))
      || (i == idx && idx < |times| && (idx == 0 || Dist(times[idx], target) < Dist(times[idx - 1], target)))
    ensures IsNearest(times, target, i)
  {
    forall j | 0 <= j < |times|
      ensures Dist(times[i], target) <= Dist(times[j], target)
      ensures Dist(times[j], target) == Dist(times[i], target) ==> times[i] <= times[j]
    {
      if j < idx {
        // every record before idx is at most as close as idx - 1
        assert times[j] <= times[idx - 1] < target;
      } else {
        // every record from idx on is at most as close as idx
        assert target <= times[idx] <= times[j];
      }
    }
  }

  /** The leftmost insertion point, counted rather than searched. */
  ghost function InsertionPointOf(times: seq<int>, target: int): (idx: nat)
    ensures idx <= |times|
    ensures NonDecreasing(times) ==> IsInsertionPoint(times, target, idx)
  {
    if times == [] || target <= times[0] then 0
    else
      assert NonDecreasing(times) ==> NonDecreasing(times[1..]);
      1 + InsertionPointOf(times[1..], target)
  }

  lemma NearestExists(times: seq<int>, target: int)
    requires times != [] && NonDecreasing(times)
    ensures exists i :: IsNearest(times, target, i)
  {
    var idx := InsertionPointOf(times, target);
    if 0 < idx && (idx == |times| || Dist(times[idx - 1], target) <= Dist(times[idx], target)) {
      TwoNeighbours(times, target, idx, idx - 1);
    } else {
      TwoNeighbours(times, target, idx, idx);
    }
  }

  /** The index of the nearest record of a non-empty sorted series. */
  ghost function NearestIndex(times: seq<int>, target: int): (i: nat)
    requires times != [] && NonDecreasing(times)
    ensures IsNearest(times, target, i)
  {
    NearestExists(times, target);
    var i :| IsNearest(times, target, i);
    i
  }

  /** What nearest_record(series, key, target, tolerance) returns. */
  ghost function NearestSpec(series: SeriesMap, key: Key, target: int, tolerance: nat): Option<Match>
    requires key in series ==> ValidSeries(series[key])
  {
    if key !in series || series[key].times == [] then None
    else
      var b := series[key];
      var i := NearestIndex(b.times, target);
      var d := Dist(b.times[i], target);
      if d > tolerance then None else Some(Match(b.records[i], d as real / 60.0))
  }

  /** nearest_record. `series.get(key)` looks the key up without inserting it, and the stored record is copied, not changed. */
  method NearestRecord(series: SeriesMap, key: Key, target: int, tolerance: nat) returns (r: Option<Match>)
    requires key in series ==> ValidSeries(series[key])
    ensures key !in series || series[key].times == [] ==> r == None
    ensures r == NearestSpec(series, key, target, tolerance)
  {
    if key !in series || series[key].times == [] {
      return None;
    }
    var bucket := series[key];
    var n := |bucket.times|;
    var idx := BisectLeft(bucket.times, target);
    var candidates := [idx - 1, idx];
    var best: Option<Record> := None;
    var bestDelta: Option<nat> := None;
    ghost var bestIdx: int := -1;
    for k := 0 to |candidates|
      invariant best.Some? <==> bestDelta.Some?
      invariant best.Some? ==> 0 <= bestIdx < n && best.value == bucket.records[bestIdx] && bestDelta.value == Dist(bucket.times[bestIdx], target)
      invariant k == 0 ==> best.None?
      invariant k == 1 ==> if 0 < idx then best.Some? && bestIdx == idx - 1 else best.None?
      invariant k == 2 ==> best.Some? && bestIdx in {idx - 1, idx}
      invariant k == 2 && bestIdx == idx - 1 ==> 0 < idx && (idx == n || Dist(bucket.times[idx - 1], target) <= Dist(bucket.times[idx], target))
      invariant k == 2 && bestIdx == idx ==> idx < n && (idx == 0 || Dist(bucket.times[idx], target) < Dist(bucket.times[idx - 1], target))
    {
      var cand := candidates[k];
      if 0 <= cand < n {
        var t := bucket.times[cand];
        var delta := Dist(t, target);
        if bestDelta.None? || delta < bestDelta.value {
          bestDelta := Some(delta);
          best := Some(bucket.records[cand]);
          bestIdx := cand;
        }
      }
    }
    TwoNeighbours(bucket.times, target, idx, bestIdx);
    NearestUnique(bucket.times, target, bestIdx, NearestIndex(bucket.times, target));
    if best.None? || bestDelta.value > tolerance {
      return None;
    }
    r := Some(Match(best.value, bestDelta.value as real / 60.0));
  }

  /**
    The lookup's contract in one place: no match exactly when the key is
    absent, its series is empty, or every record is farther than the
    tolerance (so a distance equal to the tolerance matches); a match is an
    unchanged stored record at the smallest distance, the earliest of equally
    close times, with its distance in minutes.
   */
  lemma NearestSpecCorrect(series: SeriesMap, key: Key, target: int, tolerance: nat)
    requires key in series ==> ValidSeries(series[key])
    ensures NearestSpec(series, key, target, tolerance).None? <==>
      key !in series || series[key].times == [] ||
      forall j :: 0 <= j < |series[key].times| ==> Dist(series[key].times[j], target) > tolerance
    ensures NearestSpec(series, key, target, tolerance).Some? ==>
      var b, m := series[key], NearestSpec(series, key, target, tolerance).value;
      exists i :: 0 <= i < |b.times|
        && m.rec == b.records[i]
        && m.rec.time == b.times[i]
        && m.deltaMinutes * 60.0 == Dist(b.times[i], target) as real
        && Dist(b.times[i], target) <= tolerance
        && (forall j :: 0 <= j < |b.times| ==> Dist(b.times[i], target) <= Dist(b.times[j], target))
        && (forall j :: 0 <= j < |b.times| && Dist(b.times[j], target) == Dist(b.times[i], target) ==> b.times[i] <= b.times[j])
  {
    if key in series && series[key].times != [] {
      var b := series[key];
      var i := NearestIndex(b.times, target);
      if Dist(b.times[i], target) <= tolerance {
        var m := NearestSpec(series, key, target, tolerance).value;
        assert m.rec == b.records[i];
      }
    }
  }

  /** A record 10 minutes before the anchor matches inside a 15-minute window; one 20 minutes before does not. */
  lemma ToleranceExample(rec: Record, key: Key, anchorTime: int)
    requires rec.time == anchorTime - 600
    ensures NearestSpec(map[key := MeasurementSeries([rec.time], [rec])], key, anchorTime, 900) == Some(Match(rec, 10.0))
    ensures NearestSpec(map[key := MeasurementSeries([rec.time], [rec])], key, anchorTime + 600, 900) == None
  {
    var series := map[key := MeasurementSeries([rec.time], [rec])];
    assert ValidSeries(series[key]);
    var i := NearestIndex([rec.time], anchorTime);
    var i' := NearestIndex([rec.time], anchorTime + 600);
  }

  /** Two records ten minutes either side of the anchor: the earlier one is chosen. */
  lemma TieBreakExample(before: Record, after: Record, key: Key, anchorTime: int)
    requires before.time == anchorTime - 600 && after.time == anchorTime + 600
    ensures NearestSpec(map[key := MeasurementSeries([before.time, after.time], [before, after])], key, anchorTime, 1800)
      == Some(Match(before, 10.0))
  {
    var times := [before.time, after.time];
    var series := map[key := MeasurementSeries(times, [before, after])];
    assert ValidSeries(series[key]);
    var i := NearestIndex(times, anchorTime);
    assert Dist(times[0], anchorTime) == Dist(times[1], anchorTime);
    assert i == 0;
  }

  /** Records 5 and 20 minutes away under a 30-minute window: the 5-minute one is chosen. */
  lemma NearestWinsExample(near: Record, far: Record, key: Key, anchorTime: int)
    requires near.time == anchorTime + 300 && far.time == anchorTime - 1200
    ensures NearestSpec(map[key := MeasurementSeries([far.time, near.time], [far, near])], key, anchorTime, 1800)
      == Some(Match(near, 5.0))
  {
    var times := [far.time, near.time];
    var series := map[key := MeasurementSeries(times, [far, near])];
    assert ValidSeries(series[key]);
    var i := NearestIndex(times, anchorTime);
    assert i == 1 by {
      assert Dist(times[1], anchorTime) < Dist(times[0], anchorTime);
    }
  }
}
