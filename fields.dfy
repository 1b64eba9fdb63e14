/**
  An output row of the panel: a Python dict from column name to cell value,
  which keeps the order in which its keys were first inserted. It is modelled
  as a sequence of (name, cell) fields; assigning to an existing key replaces
  its cell where it stands, assigning to a new key appends it.
 */
module Fields {
  import opened Wrappers

  /** The values a row holds. */
  datatype Cell =
    | Text(text: string)       // a str ('' for a missing measurement)
    | Int(n: int)              // an id
    | Number(v: Option<real>)  // what parse_float gave; None is written as an empty cell
    | Time(t: int)             // a datetime object
    | Formatted(t: int)        // the '%Y-%m-%d %H:%M:%S' text of the datetime t
    | Minutes(m: real)         // a delta in minutes

  /** The '' a missing measurement leaves in each of its columns. */
  const Blank: Cell := Text("")

  datatype Field = Field(name: string, cell: Cell)

  /** The keys of a row, in order. */
  function Names(fs: seq<Field>): (ns: seq<string>)
    ensures |ns| == |fs| && forall i :: 0 <= i < |fs| ==> ns[i] == fs[i].name
  {
    seq(|fs|, i requires 0 <= i < |fs| => fs[i].name)
  }

  lemma NamesConcat(xs: seq<Field>, ys: seq<Field>)
    ensures Names(xs + ys) == Names(xs) + Names(ys)
  {
  }

  ghost predicate DistinctNames(fs: seq<Field>)
  {
    forall i, j :: 0 <= i < j < |fs| ==> fs[i].name != fs[j].name
  }

  /** row.get(name). */
  function Lookup(fs: seq<Field>, name: string): Option<Cell>
  {
    if fs == [] then None
    else if fs[0].name == name then Some(fs[0].cell)
    else Lookup(fs[1..], name)
  }

  /** row[name] = cell. */
  function PutField(fs: seq<Field>, name: string, cell: Cell): seq<Field>
  {
    if fs == [] then [Field(name, cell)]
    else if fs[0].name == name then [Field(name, cell)] + fs[1..]
    else [fs[0]] + PutField(fs[1..], name, cell)
  }

  /** After row[name] = cell, the row maps name to cell and every other key as before. */
  lemma {:induction false} PutFieldLookup(fs: seq<Field>, name: string, cell: Cell, other: string)
    ensures Lookup(PutField(fs, name, cell), other) == if other == name then Some(cell) else Lookup(fs, other)
  {
    if fs != [] && fs[0].name != name {
      PutFieldLookup(fs[1..], name, cell, other);
    }
  }

  /** An existing key keeps its place; a new key goes last. */
  lemma {:induction false} PutFieldNames(fs: seq<Field>, name: string, cell: Cell)
    ensures Names(PutField(fs, name, cell)) == if name in Names(fs) then Names(fs) else Names(fs) + [name]
  {
    if fs != [] && fs[0].name != name {
      PutFieldNames(fs[1..], name, cell);
      assert Names(fs) == [fs[0].name] + Names(fs[1..]);
    }
  }

  /** The keys of a dict stay distinct. */
  lemma PutFieldDistinct(fs: seq<Field>, name: string, cell: Cell)
    requires DistinctNames(fs)
    ensures DistinctNames(PutField(fs, name, cell))
  {
    var r := PutField(fs, name, cell);
    PutFieldNames(fs, name, cell);
    assert Names(r) == if name in Names(fs) then Names(fs) else Names(fs) + [name];
    forall i, j | 0 <= i < j < |r| ensures r[i].name != r[j].name {
      assert Names(r)[i] == r[i].name && Names(r)[j] == r[j].name;
      if name !in Names(fs) && j == |fs| {
        assert Names(fs)[i] == fs[i].name;
      }
    }
  }

  /** Assigning an existing key replaces its cell in place. */
  lemma {:induction false} PutFieldExisting(fs: seq<Field>, i: nat, name: string, cell: Cell)
    requires i < |fs| && fs[i].name == name
    requires forall j :: 0 <= j < i ==> fs[j].name != name
    ensures PutField(fs, name, cell) == fs[i := Field(name, cell)]
  {
    if i > 0 {
      PutFieldExisting(fs[1..], i - 1, name, cell);
      assert fs[i := Field(name, cell)] == [fs[0]] + fs[1..][i - 1 := Field(name, cell)];
    }
  }

  /** The assignments of `news`, one after the other. */
  function PutAll(fs: seq<Field>, news: seq<Field>): seq<Field>
    decreases news
  {
    if news == [] then fs
    else PutAll(PutField(fs, news[0].name, news[0].cell), news[1..])
  }

  lemma {:induction false} PutAllAppend(fs: seq<Field>, xs: seq<Field>, ys: seq<Field>)
    ensures PutAll(fs, xs + ys) == PutAll(PutAll(fs, xs), ys)
    decreases xs
  {
    if xs != [] {
      assert (xs + ys)[1..] == xs[1..] + ys;
      PutAllAppend(PutField(fs, xs[0].name, xs[0].cell), xs[1..], ys);
    } else {
      assert xs + ys == ys;
    }
  }

  /** Assigning a new key appends it. */
  lemma {:induction false} PutFieldNew(fs: seq<Field>, name: string, cell: Cell)
    requires name !in Names(fs)
    ensures PutField(fs, name, cell) == fs + [Field(name, cell)]
  {
    if fs != [] {
      assert Names(fs) == [fs[0].name] + Names(fs[1..]);
      PutFieldNew(fs[1..], name, cell);
      assert fs == [fs[0]] + fs[1..];
    }
  }

  /** Assigning distinct new keys appends them in order. */
  lemma {:induction false} PutAllFresh(fs: seq<Field>, news: seq<Field>)
    requires DistinctNames(news)
    requires forall i :: 0 <= i < |news| ==> news[i].name !in Names(fs)
    ensures PutAll(fs, news) == fs + news
    decreases news
  {
    if news != [] {
      var f := news[0];
      PutFieldNew(fs, f.name, f.cell);
      var fs' := fs + [f];
      forall i | 0 <= i < |news[1..]| ensures news[1..][i].name !in Names(fs') {
        assert news[1..][i] == news[i + 1];
        assert Names(fs') == Names(fs) + [f.name];
      }
      PutAllFresh(fs', news[1..]);
      assert fs' + news[1..] == fs + news;
    }
  }

  /** A row dict whose entries the assembly loop assigns in place. */
  class Row {
    var fields: seq<Field>

    /** `row = anchor.copy()`. */
    constructor (init: seq<Field>)
      ensures fields == init
    {
      fields := init;
    }

    /** `row[name] = cell`. */
    method Put(name: string, cell: Cell)
      modifies this
      ensures fields == PutField(old(fields), name, cell)
    {
      fields := PutField(fields, name, cell);
    }
  }
}
