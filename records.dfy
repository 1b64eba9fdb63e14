/**
  The values the matcher works on: entity keys, timestamped records and the
  per-key measurement series, plus `normalize_int`, which turns a raw id
  field into an integer with -1 for a missing id.

  Timestamps are whole seconds (the source's `datetime` values, parsed from
  '%Y-%m-%d %H:%M:%S' text, have no finer part).
 */
module Records {
  import opened Wrappers
  import StableSort

  /** Failures that abort the source's run. */
  datatype Error =
    | InvalidIntLiteral(text: string)  // ValueError from int(text)
    | NoAnchorsFound                   // SystemExit('No anchors found.')

  /** A raw id field of a row: absent (None) or the text of the column. */
  datatype RawId = NullId | TextId(text: string)

  predicate IsDigit(c: char)
  {
    '0' <= c <= '9'
  }

  predicate AllDigits(s: string)
  {
    forall i :: 0 <= i < |s| ==> IsDigit(s[i])
  }

  /** The value of a string of decimal digits, most significant first. */
  function DigitsValue(ds: string): nat
    requires AllDigits(ds)
  {
    if ds == [] then 0 else DigitsValue(ds[..|ds| - 1]) * 10 + (ds[|ds| - 1] as int - '0' as int)
  }

  /**
    int(s) for an optional '+' or '-' followed by one or more ASCII digits;
    None for any other text (Python's int() also accepts surrounding
    whitespace, `_` and non-ASCII digits).
   */
  function ParseDecimal(s: string): (r: Option<int>)
    ensures s != [] && AllDigits(s) ==> r == Some(DigitsValue(s))
    ensures s == [] || s == "-" || s == "+" ==> r == None
    ensures |s| > 1 && s[0] == '-' && AllDigits(s[1..]) ==> r == Some(-(DigitsValue(s[1..]) as int))
  {
    var negative := |s| > 0 && s[0] == '-';
    var body := if |s| > 0 && (s[0] == '-' || s[0] == '+') then s[1..] else s;
    if body != [] && AllDigits(body) then
      var magnitude: int := DigitsValue(body);
      Some(if negative then -magnitude else magnitude)
    else None
  }

  /**
    Where the model's int() gives no value: any character other than a digit,
    except a sign in first place, leaves the text without a value (Python's
    int() also accepts surrounding whitespace, `_` and non-ASCII digits); a
    '+' followed by digits reads as those digits.
   */
  lemma ParseDecimalRejects(s: string)
    ensures (exists i :: 0 <= i < |s| && !IsDigit(s[i]) && !(i == 0 && (s[0] == '-' || s[0] == '+'))) ==> ParseDecimal(s) == None
    ensures |s| > 1 && s[0] == '+' && AllDigits(s[1..]) ==> ParseDecimal(s) == Some(DigitsValue(s[1..]))
  {
    if i :| 0 <= i < |s| && !IsDigit(s[i]) && !(i == 0 && (s[0] == '-' || s[0] == '+')) {
      if s[0] == '-' || s[0] == '+' {
        assert s[1..][i - 1] == s[i];
        assert !AllDigits(s[1..]);
      } else {
        assert !AllDigits(s);
      }
    }
  }

  /** The decimal digits of n, as str(n) writes them. */
  function NatDigits(n: nat): (ds: string)
    ensures ds != [] && AllDigits(ds)
  {
    if n < 10 then [('0' as int + n) as char]
    else NatDigits(n / 10) + [('0' as int + n % 10) as char]
  }

  /** str(n) for an integer. */
  function DecimalString(n: int): string
  {
    if n < 0 then "-" + NatDigits(-n) else NatDigits(n)
  }

  lemma {:induction false} NatDigitsValue(n: nat)
    ensures DigitsValue(NatDigits(n)) == n
  {
    if n >= 10 {
      NatDigitsValue(n / 10);
      var ds := NatDigits(n);
      assert ds[..|ds| - 1] == NatDigits(n / 10);
    }
  }

  /** Reading back what str(n) writes gives n. */
  lemma ParseDecimalRoundTrip(n: int)
    ensures ParseDecimal(DecimalString(n)) == Some(n)
  {
    if n < 0 {
      NatDigitsValue(-n);
      assert ("-" + NatDigits(-n))[1..] == NatDigits(-n);
    } else {
      NatDigitsValue(n);
    }
  }

  /** int(text), raising ValueError on malformed text. */
  function ParseInt(text: string): (r: Result<int, Error>)
    ensures r.Success? <==> ParseDecimal(text).Some?
    ensures r.Success? ==> r.value == ParseDecimal(text).value
    ensures r.Failure? ==> r.error == InvalidIntLiteral(text)
  {
    match ParseDecimal(text)
    case Some(n) => Success(n)
    case None => Failure(InvalidIntLiteral(text))
  }

  predicate IsMissing(v: RawId)
  {
    v == NullId || v == TextId("") || v == TextId("nan")
  }

  /** normalize_int: -1 for None, '' or 'nan', otherwise int(value). */
  function NormalizeInt(v: RawId): (r: Result<int, Error>)
    ensures IsMissing(v) ==> r == Success(-1)
    ensures !IsMissing(v) ==> r == ParseInt(v.text)
  {
    if IsMissing(v) then Success(-1) else ParseInt(v.text)
  }

  /** An id written out by str() is read back unchanged; only 'nan', '' and None become -1. */
  lemma NormalizeIntRoundTrip(n: int)
    ensures NormalizeInt(TextId(DecimalString(n))) == Success(n)
  {
    ParseDecimalRoundTrip(n);
    if n < 0 {
      assert DecimalString(n)[0] == '-';
    } else {
      assert IsDigit(DecimalString(n)[0]);
    }
  }

  /** The entity key (subject_id, hadm_id, icustay_id); -1 stands for a missing id. */
  datatype Key = Key(subject: int, hadm: int, icustay: int)

  /**
    One measurement record: the dict a loader builds, minus the three key
    fields it pops. `value` is what parse_float gave (None when the text was
    empty or not a number); it is carried, never inspected.
   */
  datatype Record = Record(time: int, value: Option<real>, unit: string, labelText: string, source: string)

  /** A record still carrying its key, as a loader first builds it. */
  datatype KeyedRecord = KeyedRecord(key: Key, rec: Record)

  /** The source's MeasurementSeries: parallel lists of times and records. */
  datatype MeasurementSeries = MeasurementSeries(times: seq<int>, records: seq<Record>)

  /** One measurement stream: a series per entity key. */
  type SeriesMap = map<Key, MeasurementSeries>

  /** Sort key for a bucket: the record's time (a one-element tuple). */
  function TimeKey(r: Record): seq<int>
  {
    [r.time]
  }

  /** The times of a sequence of records, in the same order. */
  function TimesOf(rs: seq<Record>): (ts: seq<int>)
    ensures |ts| == |rs|
    ensures forall i :: 0 <= i < |rs| ==> ts[i] == rs[i].time
  {
    seq(|rs|, i requires 0 <= i < |rs| => rs[i].time)
  }

  ghost predicate NonDecreasing(s: seq<int>)
  {
    forall i, j :: 0 <= i < j < |s| ==> s[i] <= s[j]
  }

  /** The two parallel lists line up: times[i] is the time of records[i]. */
  ghost predicate Aligned(b: MeasurementSeries)
  {
    |b.times| == |b.records| && forall i :: 0 <= i < |b.times| ==> b.times[i] == b.records[i].time
  }

  /** The invariant of every bucket the builders produce: aligned and sorted by time. */
  ghost predicate ValidSeries(b: MeasurementSeries)
  {
    Aligned(b) && NonDecreasing(b.times)
  }

  ghost predicate ValidSeriesMap(m: SeriesMap)
  {
    forall k :: k in m ==> ValidSeries(m[k])
  }

  /** Records sorted by TimeKey have non-decreasing times. */
  lemma SortedByTimeNonDecreasing(rs: seq<Record>)
    requires StableSort.SortedBy(rs, TimeKey)
    ensures NonDecreasing(TimesOf(rs))
  {
    forall i, j | 0 <= i < j < |rs| ensures rs[i].time <= rs[j].time {
      assert StableSort.LexLe(TimeKey(rs[i]), TimeKey(rs[j]));
      StableSort.LexLeSingleton(rs[i].time, rs[j].time);
    }
  }
}
