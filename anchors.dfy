/**
  build_anchor_entries: every Swan-Ganz chart row whose itemid is a cardiac
  output item becomes an anchor, and the anchors are sorted by
  (subject_id, hadm_id, icustay_id, anchor_time).
 */
module Anchors {
  import opened Wrappers
  import opened Records
  import opened Fields
  import StableSort

  /** CO_ITEMIDS: the chart items that record cardiac output. */
  const CoItemIds: set<int> := {2136, 220088, 224604, 224842, 227543, 228117, 228369}

  /** One row of the Swan-Ganz measurement table, with the columns the anchor builder reads. */
  datatype SwanRow = SwanRow(
    itemid: string,
    subject: RawId, hadm: RawId, icustay: RawId,
    time: int,
    value: Option<real>,
    unit: string,
    labelText: string)

  /** A cardiac output measurement that anchors one output row. */
  datatype Anchor = Anchor(key: Key, time: int, value: Option<real>, unit: string, labelText: string)

  /** The loop body for one row: int(itemid) first, then the item filter, then the ids. */
  function AnchorOf(row: SwanRow): Result<Option<Anchor>, Error>
  {
    var itemid :- ParseInt(row.itemid);
    if itemid !in CoItemIds then Success(None)
    else
      var subject :- NormalizeInt(row.subject);
      var hadm :- NormalizeInt(row.hadm);
      var icustay :- NormalizeInt(row.icustay);
      Success(Some(Anchor(Key(subject, hadm, icustay), row.time, row.value, row.unit, row.labelText)))
  }

  /** The anchors collected from `rows`, in input order, or the first row's failure. */
  function AnchorRows(rows: seq<SwanRow>): Result<seq<Anchor>, Error>
  {
    if rows == [] then Success([])
    else
      var kept :- AnchorRows(rows[..|rows| - 1]);
      var anchor :- AnchorOf(rows[|rows| - 1]);
      Success(if anchor.Some? then kept + [anchor.value] else kept)
  }

  /** The sort key `(subject_id, hadm_id, icustay_id, anchor_time)`. */
  function AnchorSortKey(a: Anchor): seq<int>
  {
    [a.key.subject, a.key.hadm, a.key.icustay, a.time]
  }

  /** What build_anchor_entries returns. */
  function AnchorEntriesSpec(rows: seq<SwanRow>): Result<seq<Anchor>, Error>
  {
    var anchors :- AnchorRows(rows);
    Success(StableSort.SortBy(anchors, AnchorSortKey))
  }

  /** The anchor dict, keys in the order the source writes them. */
  function AnchorFields(a: Anchor): seq<Field>
  {
    [ Field("anchor_type", Text("cardiac_output")),
      Field("subject_id", Int(a.key.subject)),
      Field("hadm_id", Int(a.key.hadm)),
      Field("icustay_id", Int(a.key.icustay)),
      Field("anchor_time", Time(a.time)),
      Field("cardiac_output_value", Number(a.value)),
      Field("cardiac_output_unit", Text(a.unit)),
      Field("cardiac_output_label", Text(a.labelText)),
      Field("cardiac_output_source", Text("chartevents")),
      Field("cardiac_output_time", Formatted(a.time)),
      Field("cardiac_output_delta_minutes", Minutes(0.0)) ]
  }

  /** A failing row before row i makes the whole run fail as it did. */
  lemma {:induction false} AnchorRowsFailurePersists(rows: seq<SwanRow>, n: nat)
    requires n <= |rows|
    requires AnchorRows(rows[..n]).Failure?
    ensures AnchorRows(rows) == AnchorRows(rows[..n])
  {
    if n < |rows| {
      var init := rows[..|rows| - 1];
      assert init[..n] == rows[..n];
      AnchorRowsFailurePersists(init, n);
    } else {
      assert rows[..n] == rows;
    }
  }

  /** One more row extends the anchors of the rows before it, or ends the run with its failure. */
  lemma AnchorRowsStep(rows: seq<SwanRow>, i: nat, kept: seq<Anchor>)
    requires i < |rows|
    requires AnchorRows(rows[..i]) == Success(kept)
    ensures AnchorOf(rows[i]).Failure? ==> AnchorRows(rows) == Failure(AnchorOf(rows[i]).error)
    ensures AnchorOf(rows[i]).Success? ==>
      AnchorRows(rows[..i + 1]) == Success(if AnchorOf(rows[i]).value.Some? then kept + [AnchorOf(rows[i]).value.value] else kept)
  {
    assert rows[..i + 1][..i] == rows[..i];
    if AnchorOf(rows[i]).Failure? {
      AnchorRowsFailurePersists(rows, i + 1);
    }
  }

  /** build_anchor_entries: the filtering loop, then the sort. */
  method BuildAnchorEntries(rows: seq<SwanRow>) returns (res: Result<seq<Anchor>, Error>)
    ensures res == AnchorEntriesSpec(rows)
  {
    var anchors: seq<Anchor> := [];
    for i := 0 to |rows|
      invariant AnchorRows(rows[..i]) == Success(anchors)
    {
      var row := rows[i];
      AnchorRowsStep(rows, i, anchors);
      var itemid :- ParseInt(row.itemid);
      if itemid in CoItemIds {
        var subject :- NormalizeInt(row.subject);
        var hadm :- NormalizeInt(row.hadm);
        var icustay :- NormalizeInt(row.icustay);
        anchors := anchors + [Anchor(Key(subject, hadm, icustay), row.time, row.value, row.unit, row.labelText)];
      }
    }
    assert rows[..|rows|] == rows;
    res := Success(StableSort.SortBy(anchors, AnchorSortKey));
  }

  /**
    Which rows become anchors and with what: a row is kept exactly when its
    itemid is one of CO_ITEMIDS and every id parses; the anchor's key is the
    normalized ids (-1 for a missing one, 'nan' included) and the rest is the
    row's time, value, unit and label unchanged. A malformed itemid fails
    even on a row that would have been skipped.
   */
  lemma AnchorOfCorrect(row: SwanRow)
    ensures AnchorOf(row).Success? && AnchorOf(row).value.Some? <==>
      && ParseInt(row.itemid).Success? && ParseInt(row.itemid).value in CoItemIds
      && NormalizeInt(row.subject).Success? && NormalizeInt(row.hadm).Success? && NormalizeInt(row.icustay).Success?
    ensures ParseInt(row.itemid).Failure? ==> AnchorOf(row) == Failure(InvalidIntLiteral(row.itemid))
    ensures AnchorOf(row).Success? && AnchorOf(row).value.Some? ==>
      var a := AnchorOf(row).value.value;
      && a.key == Key(NormalizeInt(row.subject).value, NormalizeInt(row.hadm).value, NormalizeInt(row.icustay).value)
      && a.time == row.time && a.value == row.value && a.unit == row.unit && a.labelText == row.labelText
    ensures IsMissing(row.subject) && IsMissing(row.hadm) && IsMissing(row.icustay) && AnchorOf(row).Success? && AnchorOf(row).value.Some? ==>
      AnchorOf(row).value.value.key == Key(-1, -1, -1)
  {
  }

  /** The anchors are exactly the kept rows' anchors, in input order, as long as no row fails. */
  lemma {:induction false} AnchorRowsMembers(rows: seq<SwanRow>)
    requires AnchorRows(rows).Success?
    ensures forall a :: a in AnchorRows(rows).value <==> exists i :: 0 <= i < |rows| && AnchorOf(rows[i]) == Success(Some(a))
  {
    if rows != [] {
      AnchorRowsMembers(rows[..|rows| - 1]);
      forall a ensures a in AnchorRows(rows).value <==> exists i :: 0 <= i < |rows| && AnchorOf(rows[i]) == Success(Some(a)) {
        AnchorRowsMemberSnoc(rows, a);
      }
    }
  }

  /** The step of AnchorRowsMembers: the last row adds its own anchor, if any. */
  lemma AnchorRowsMemberSnoc(rows: seq<SwanRow>, a: Anchor)
    requires rows != [] && AnchorRows(rows).Success?
    requires var init := rows[..|rows| - 1];
      a in AnchorRows(init).value <==> exists i :: 0 <= i < |init| && AnchorOf(init[i]) == Success(Some(a))
    ensures a in AnchorRows(rows).value <==> exists i :: 0 <= i < |rows| && AnchorOf(rows[i]) == Success(Some(a))
  {
    var init := rows[..|rows| - 1];
    var last := AnchorOf(rows[|rows| - 1]).value;
    assert AnchorRows(rows).value == AnchorRows(init).value + if last.Some? then [last.value] else [];
    if exists i :: 0 <= i < |rows| && AnchorOf(rows[i]) == Success(Some(a)) {
      var i :| 0 <= i < |rows| && AnchorOf(rows[i]) == Success(Some(a));
      if i < |rows| - 1 {
        assert init[i] == rows[i];
      }
    }
    if a in AnchorRows(init).value {
      var i :| 0 <= i < |init| && AnchorOf(init[i]) == Success(Some(a));
      assert rows[i] == init[i];
    }
  }

  /** The run fails exactly when some row fails. */
  lemma {:induction false} AnchorRowsFailure(rows: seq<SwanRow>)
    ensures AnchorRows(rows).Failure? <==> exists i :: 0 <= i < |rows| && AnchorOf(rows[i]).Failure?
  {
    if rows != [] {
      var init := rows[..|rows| - 1];
      AnchorRowsFailure(init);
      if exists i :: 0 <= i < |rows| && AnchorOf(rows[i]).Failure? {
        var i :| 0 <= i < |rows| && AnchorOf(rows[i]).Failure?;
        if i < |rows| - 1 {
          assert init[i] == rows[i];
        }
      }
      if AnchorRows(init).Failure? {
        var i :| 0 <= i < |init| && AnchorOf(init[i]).Failure?;
        assert rows[i] == init[i];
      }
    }
  }

  /**
    The anchors come out sorted by (subject, hadm, icustay, time), as a
    permutation of the kept anchors, with anchors of equal sort key in input
    order; within one entity the times never decrease.
   */
  lemma AnchorEntriesSorted(rows: seq<SwanRow>)
    ensures AnchorEntriesSpec(rows).Success? <==> AnchorRows(rows).Success?
    ensures AnchorEntriesSpec(rows).Success? ==>
      var sorted, kept := AnchorEntriesSpec(rows).value, AnchorRows(rows).value;
      && StableSort.SortedBy(sorted, AnchorSortKey)
      && multiset(sorted) == multiset(kept)
      && (forall k :: StableSort.WithKey(sorted, AnchorSortKey, k) == StableSort.WithKey(kept, AnchorSortKey, k))
      && (forall i, j :: 0 <= i < j < |sorted| && sorted[i].key == sorted[j].key ==> sorted[i].time <= sorted[j].time)
  {
    if AnchorRows(rows).Success? {
      var kept := AnchorRows(rows).value;
      var sorted := StableSort.SortBy(kept, AnchorSortKey);
      StableSort.SortBySorted(kept, AnchorSortKey);
      forall k ensures StableSort.WithKey(sorted, AnchorSortKey, k) == StableSort.WithKey(kept, AnchorSortKey, k) {
        StableSort.SortByStable(kept, AnchorSortKey, k);
      }
      forall i, j | 0 <= i < j < |sorted| && sorted[i].key == sorted[j].key
        ensures sorted[i].time <= sorted[j].time
      {
        SameEntityOrder(sorted[i], sorted[j]);
      }
    }
  }

  /** For one entity, the sort key orders anchors by time. */
  lemma SameEntityOrder(a: Anchor, b: Anchor)
    requires a.key == b.key
    requires StableSort.LexLe(AnchorSortKey(a), AnchorSortKey(b))
    ensures a.time <= b.time
  {
    var ka, kb := AnchorSortKey(a), AnchorSortKey(b);
    // the three id components are equal, so the order is decided by the time
    assert StableSort.LexLe(ka[1..], kb[1..]);
    assert StableSort.LexLe(ka[1..][1..], kb[1..][1..]);
    assert ka[1..][1..][1..] == [a.time] && kb[1..][1..][1..] == [b.time];
    StableSort.LexLeSingleton(a.time, b.time);
  }

  /** A row that is not a cardiac output item is skipped. */
  lemma OtherItemsSkipped(row: SwanRow, n: int)
    requires row.itemid == DecimalString(n) && n !in CoItemIds
    ensures AnchorOf(row) == Success(None)
  {
    ParseDecimalRoundTrip(n);
  }

  /** A row whose item id parses to any value outside the cardiac output ids is skipped. */
  lemma OtherItemIdsSkipped(row: SwanRow)
    ensures ParseInt(row.itemid).Success? && ParseInt(row.itemid).value !in CoItemIds ==> AnchorOf(row) == Success(None)
  {
  }
}
