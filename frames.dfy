/**
  The table model shared by the three exoplanet ranking scripts: a data
  frame as pandas holds it after `read_csv`, and the whole-table operations
  the scripts chain together (column selection, numeric coercion, `dropna`,
  `drop_duplicates`, the `between` mask and derived score columns).
 */
module Frames {

  datatype Option<T> = None | Some(value: T)

  /** One cell of a frame: a blank (NaN), a number, or text that was not parsed as a number. */
  datatype Cell = Missing | Num(value: real) | Text(text: string)

  /** The cells of one row, by column name. */
  type Record = map<string, Cell>

  /** A row with its index label (the RangeIndex that `read_csv` assigns). */
  datatype Row = Row(index: nat, cells: Record)

  datatype Frame = Frame(columns: set<string>, rows: seq<Row>)

  /** pandas raises KeyError naming every absent label. */
  datatype Error = MissingColumns(names: set<string>)

  datatype Result<T> = Ok(value: T) | Err(error: Error) {
    predicate IsFailure() { Err? }
    function PropagateFailure<U>(): Result<U> requires Err? { Err(error) }
    function Extract(): T requires Ok? { value }
  }

  /** A column absent from a row reads as NaN. */
  function Lookup(rec: Record, col: string): Cell {
    if col in rec then rec[col] else Missing
  }

  function Get(r: Row, col: string): Cell {
    Lookup(r.cells, col)
  }

  function Abs(x: real): real {
    if x < 0.0 then -x else x
  }

  /** The frame carries the index `read_csv` gives it: row k has label k. */
  ghost predicate RangeIndexed(rows: seq<Row>) {
    forall k :: 0 <= k < |rows| ==> rows[k].index == k
  }

  /** Index labels grow along the rows, as they do in any subset of a RangeIndexed frame. */
  ghost predicate IndexIncreasing(rows: seq<Row>) {
    forall i, j :: 0 <= i < j < |rows| ==> rows[i].index < rows[j].index
  }

  ghost predicate HasIndex(rows: seq<Row>, i: int) {
    exists k :: 0 <= k < |rows| && rows[k].index == i
  }

  /** A row of a frame carries a label the frame has. */
  lemma MemberHasIndex(rows: seq<Row>, x: Row)
    requires x in rows
    ensures HasIndex(rows, x.index)
  {
    var k :| 0 <= k < |rows| && rows[k] == x;
  }

  /** No two rows share a value in column `key`. */
  ghost predicate UniqueKeys(rows: seq<Row>, key: string) {
    forall i, j :: 0 <= i < j < |rows| ==> Get(rows[i], key) != Get(rows[j], key)
  }

  // ---------------------------------------------------------------- selection

  /** `df[cols]`: keeps only the listed columns; KeyError if one is absent. */
  function Select(df: Frame, cols: seq<string>): (r: Result<Frame>)
    ensures r.Err? <==> !((set c | c in cols) <= df.columns)
    ensures r.Err? ==> r.error == MissingColumns((set c | c in cols) - df.columns)
    ensures r.Ok? ==> r.value.columns == (set c | c in cols) && |r.value.rows| == |df.rows|
    ensures r.Ok? ==> forall k :: 0 <= k < |df.rows| ==>
              && r.value.rows[k].index == df.rows[k].index
              && r.value.rows[k].cells.Keys <= (set c | c in cols)
              && forall c :: c in cols ==> Get(r.value.rows[k], c) == Get(df.rows[k], c)
  {
    var wanted := set c | c in cols;
    if !(wanted <= df.columns) then Err(MissingColumns(wanted - df.columns))
    else
      Ok(Frame(wanted, seq(|df.rows|, k requires 0 <= k < |df.rows| =>
        Row(df.rows[k].index, map c | c in wanted && c in df.rows[k].cells :: df.rows[k].cells[c]))))
  }

  /** The rows that satisfy `keep`, in their original order (a boolean mask). */
  function Where(rows: seq<Row>, keep: Row -> bool): (r: seq<Row>)
    ensures forall x :: x in r <==> x in rows && keep(x)
    ensures IndexIncreasing(rows) ==> IndexIncreasing(r)
    ensures |r| <= |rows|
  {
    if rows == [] then []
    else if keep(rows[0]) then
      var rest := Where(rows[1..], keep);
      assert IndexIncreasing(rows) ==> forall j :: 0 <= j < |rest| ==> rows[0].index < rest[j].index by {
        if IndexIncreasing(rows) {
          forall j | 0 <= j < |rest| ensures rows[0].index < rest[j].index {
            assert rest[j] in rows[1..];
          }
        }
      }
      [rows[0]] + rest
    else Where(rows[1..], keep)
  }

  // ---------------------------------------------------------------- coercion

  /** `pd.to_numeric(errors="coerce")` on one cell; `parse` is how text is read as a number. */
  function ToNumeric(c: Cell, parse: string -> Option<real>): (r: Cell)
    ensures r.Num? || r.Missing?
    ensures c.Num? ==> r == c
  {
    match c
    case Missing => Missing
    case Num(_) => c
    case Text(s) => if parse(s).Some? then Num(parse(s).value) else Missing
  }

  /** `df[col] = pd.to_numeric(df[col], errors="coerce")`. */
  function CoerceColumn(df: Frame, col: string, parse: string -> Option<real>): (r: Frame)
    requires col in df.columns
    ensures r.columns == df.columns && |r.rows| == |df.rows|
    ensures forall k :: 0 <= k < |df.rows| ==>
              && r.rows[k].index == df.rows[k].index
              && r.rows[k].cells.Keys == df.rows[k].cells.Keys + {col}
              && Get(r.rows[k], col) == ToNumeric(Get(df.rows[k], col), parse)
              && forall c :: c != col ==> Get(r.rows[k], c) == Get(df.rows[k], c)
  {
    Frame(df.columns, seq(|df.rows|, k requires 0 <= k < |df.rows| =>
      Row(df.rows[k].index, df.rows[k].cells[col := ToNumeric(Get(df.rows[k], col), parse)])))
  }

  /** Coerces each listed column that the frame has, one after the other. */
  function CoerceColumns(df: Frame, cols: seq<string>, parse: string -> Option<real>): Frame
    decreases |cols|
  {
    if cols == [] then df
    else CoerceColumns(if cols[0] in df.columns then CoerceColumn(df, cols[0], parse) else df, cols[1..], parse)
  }

  lemma ToNumericIdempotent(c: Cell, parse: string -> Option<real>)
    ensures ToNumeric(ToNumeric(c, parse), parse) == ToNumeric(c, parse)
  {
  }

  /** Every listed column present in the frame is coerced, everything else is untouched. */
  lemma {:induction false} CoerceColumnsCells(df: Frame, cols: seq<string>, parse: string -> Option<real>)
    ensures CoerceColumns(df, cols, parse).columns == df.columns
    ensures |CoerceColumns(df, cols, parse).rows| == |df.rows|
    ensures forall k, c :: 0 <= k < |df.rows| ==>
              && CoerceColumns(df, cols, parse).rows[k].index == df.rows[k].index
              && Get(CoerceColumns(df, cols, parse).rows[k], c) ==
                   if c in cols && c in df.columns then ToNumeric(Get(df.rows[k], c), parse) else Get(df.rows[k], c)
    decreases |cols|
  {
    if cols != [] {
      var next := if cols[0] in df.columns then CoerceColumn(df, cols[0], parse) else df;
      CoerceColumnsCells(next, cols[1..], parse);
      forall k, c | 0 <= k < |df.rows|
        ensures Get(CoerceColumns(df, cols, parse).rows[k], c) ==
                  if c in cols && c in df.columns then ToNumeric(Get(df.rows[k], c), parse) else Get(df.rows[k], c)
      {
        ToNumericIdempotent(Get(df.rows[k], c), parse);
        assert c in cols <==> c == cols[0] || c in cols[1..] by {
          assert cols == [cols[0]] + cols[1..];
        }
      }
    }
  }

  /**
    The loop over `numeric_cols` that reassigns each present column in place
    with its coerced version.
   */
  method CoerceNumericColumns(df: Frame, cols: seq<string>, parse: string -> Option<real>) returns (out: Frame)
    ensures out == CoerceColumns(df, cols, parse)
    ensures out.columns == df.columns && |out.rows| == |df.rows|
    ensures forall k, c :: 0 <= k < |df.rows| ==>
              && out.rows[k].index == df.rows[k].index
              && Get(out.rows[k], c) ==
                   if c in cols && c in df.columns then ToNumeric(Get(df.rows[k], c), parse) else Get(df.rows[k], c)
  {
    out := df;
    var i := 0;
    while i < |cols|
      invariant 0 <= i <= |cols|
      invariant CoerceColumns(out, cols[i..], parse) == CoerceColumns(df, cols, parse)
    {
      assert cols[i..][1..] == cols[i + 1..];
      if cols[i] in out.columns {
        out := CoerceColumn(out, cols[i], parse);
      }
      i := i + 1;
    }
    CoerceColumnsCells(df, cols, parse);
  }

  // ---------------------------------------------------------------- dropna

  /** No cell of the `subset` columns is NaN. */
  predicate NoneMissing(r: Row, subset: set<string>) {
    forall c | c in subset :: Get(r, c) != Missing
  }

  /** `df.dropna(subset=...)`: KeyError if a subset column is absent. */
  function DropNa(df: Frame, subset: set<string>): (r: Result<Frame>)
    ensures r.Err? <==> !(subset <= df.columns)
    ensures r.Err? ==> r.error == MissingColumns(subset - df.columns)
    ensures r.Ok? ==> r.value.columns == df.columns
    ensures r.Ok? ==> forall x :: x in r.value.rows <==> x in df.rows && NoneMissing(x, subset)
    ensures r.Ok? && IndexIncreasing(df.rows) ==> IndexIncreasing(r.value.rows)
  {
    if !(subset <= df.columns) then Err(MissingColumns(subset - df.columns))
    else Ok(Frame(df.columns, Where(df.rows, x => NoneMissing(x, subset))))
  }

  // ---------------------------------------------------------------- drop_duplicates

  /** Keeps a row only when its key is neither in `seen` nor on an earlier row. */
  function DedupFrom(rows: seq<Row>, key: string, seen: set<Cell>): (r: seq<Row>)
    ensures forall x :: x in r ==> x in rows && Get(x, key) !in seen
    ensures UniqueKeys(r, key)
    ensures IndexIncreasing(rows) ==> IndexIncreasing(r)
  {
    if rows == [] then []
    else if Get(rows[0], key) in seen then DedupFrom(rows[1..], key, seen)
    else [rows[0]] + DedupFrom(rows[1..], key, seen + {Get(rows[0], key)})
  }

  /** No row before `x` (by index label) among `rows` has the same key. */
  ghost predicate FirstOfKey(rows: seq<Row>, x: Row, key: string) {
    forall y :: y in rows && y.index < x.index ==> Get(y, key) != Get(x, key)
  }

  lemma {:induction false} DedupFromMembers(rows: seq<Row>, key: string, seen: set<Cell>)
    requires IndexIncreasing(rows)
    ensures forall x :: x in DedupFrom(rows, key, seen) <==>
              x in rows && Get(x, key) !in seen && FirstOfKey(rows, x, key)
  {
    if rows != [] {
      var h, t := rows[0], rows[1..];
      assert IndexIncreasing(t);
      assert forall y :: y in t ==> h.index < y.index;
      if Get(h, key) in seen {
        DedupFromMembers(t, key, seen);
      } else {
        DedupFromMembers(t, key, seen + {Get(h, key)});
      }
      forall x
        ensures x in DedupFrom(rows, key, seen) <==> x in rows && Get(x, key) !in seen && FirstOfKey(rows, x, key)
      {
        if x != h && x in rows {
          assert x in t;
          assert FirstOfKey(rows, x, key) <==> FirstOfKey(t, x, key) && Get(h, key) != Get(x, key);
        }
      }
    }
  }

  /** `df.drop_duplicates(subset=key, keep="first")`: KeyError if `key` is absent. */
  function DropDuplicates(df: Frame, key: string): (r: Result<Frame>)
    ensures r.Err? <==> key !in df.columns
    ensures r.Err? ==> r.error == MissingColumns({key})
    ensures r.Ok? ==> r.value.columns == df.columns && UniqueKeys(r.value.rows, key)
    ensures r.Ok? && IndexIncreasing(df.rows) ==> IndexIncreasing(r.value.rows)
  {
    if key !in df.columns then Err(MissingColumns({key}))
    else Ok(Frame(df.columns, DedupFrom(df.rows, key, {})))
  }

  /** The surviving rows are exactly those no earlier row shares a key with. */
  lemma DropDuplicatesMembers(df: Frame, key: string)
    requires key in df.columns && IndexIncreasing(df.rows)
    ensures forall x :: x in DropDuplicates(df, key).value.rows <==> x in df.rows && FirstOfKey(df.rows, x, key)
  {
    DedupFromMembers(df.rows, key, {});
  }

  // ---------------------------------------------------------------- between

  /** An inclusive range constraint on one column: `df[col].between(lo, hi)`. */
  datatype Range = Range(col: string, lo: real, hi: real)

  /** `Series.between` is inclusive at both ends; NaN is never between. */
  predicate InRange(c: Cell, lo: real, hi: real) {
    c.Num? && lo <= c.value <= hi
  }

  predicate InRanges(r: Row, ranges: seq<Range>) {
    forall g | g in ranges :: InRange(Get(r, g.col), g.lo, g.hi)
  }

  function RangeColumns(ranges: seq<Range>): set<string> {
    set g | g in ranges :: g.col
  }

  /** The `&` of the `between` masks of all constraints. */
  function Between(df: Frame, ranges: seq<Range>): (r: Result<Frame>)
    ensures r.Err? <==> !(RangeColumns(ranges) <= df.columns)
    ensures r.Ok? ==> r.value.columns == df.columns
    ensures r.Ok? ==> forall x :: x in r.value.rows <==> x in df.rows && InRanges(x, ranges)
    ensures r.Ok? && IndexIncreasing(df.rows) ==> IndexIncreasing(r.value.rows)
  {
    if !(RangeColumns(ranges) <= df.columns) then Err(MissingColumns(RangeColumns(ranges) - df.columns))
    else Ok(Frame(df.columns, Where(df.rows, x => InRanges(x, ranges))))
  }

  // ---------------------------------------------------------------- clean, dedupe, filter

  /** `dropna(subset)`, then `drop_duplicates(key, keep="first")`, then the range mask. */
  function Shortlist(df: Frame, subset: set<string>, key: string, ranges: seq<Range>): Result<Frame>
  {
    var clean :- DropNa(df, subset);
    var unique :- DropDuplicates(clean, key);
    Between(unique, ranges)
  }

  /** No row before `x` that survives the missing-value drop has the key of `x`. */
  ghost predicate FirstUsable(rows: seq<Row>, x: Row, subset: set<string>, key: string) {
    forall y :: y in rows && y.index < x.index && NoneMissing(y, subset) ==> Get(y, key) != Get(x, key)
  }

  lemma ShortlistFails(df: Frame, subset: set<string>, key: string, ranges: seq<Range>)
    requires RangeColumns(ranges) <= subset
    ensures Shortlist(df, subset, key, ranges).Err? <==> !(subset <= df.columns && key in df.columns)
    ensures !(subset <= df.columns) ==> Shortlist(df, subset, key, ranges) == Err(MissingColumns(subset - df.columns))
    ensures subset <= df.columns && key !in df.columns ==> Shortlist(df, subset, key, ranges) == Err(MissingColumns({key}))
  {
  }

  /**
    A row is shortlisted exactly when it has no NaN in `subset`, it is the
    first such row with its key, and it is within every range. Because
    duplicates are dropped before the ranges are applied, a planet whose first
    usable row is out of range is gone even when a later row would be in range.
   */
  lemma {:induction false} ShortlistMembers(df: Frame, subset: set<string>, key: string, ranges: seq<Range>)
    requires IndexIncreasing(df.rows)
    requires subset <= df.columns && key in df.columns && RangeColumns(ranges) <= df.columns
    ensures Shortlist(df, subset, key, ranges).Ok?
    ensures var out := Shortlist(df, subset, key, ranges).value;
            && out.columns == df.columns
            && IndexIncreasing(out.rows)
            && UniqueKeys(out.rows, key)
            && forall x :: x in out.rows <==>
                 x in df.rows && NoneMissing(x, subset) && FirstUsable(df.rows, x, subset, key) && InRanges(x, ranges)
  {
    var clean := DropNa(df, subset).value;
    DropDuplicatesMembers(clean, key);
    var unique := DropDuplicates(clean, key).value;
    var out := Between(unique, ranges).value;
    assert Shortlist(df, subset, key, ranges) == Ok(out);
    forall x
      ensures x in out.rows <==> x in df.rows && NoneMissing(x, subset) && FirstUsable(df.rows, x, subset, key) && InRanges(x, ranges)
    {
      if x in df.rows && NoneMissing(x, subset) {
        assert FirstOfKey(clean.rows, x, key) <==> FirstUsable(df.rows, x, subset, key);
      }
    }
    forall i, j | 0 <= i < j < |out.rows|
      ensures Get(out.rows[i], key) != Get(out.rows[j], key)
    {
      assert out.rows[i] in out.rows && out.rows[j] in out.rows;
      assert out.rows[i] in clean.rows;
    }
  }

  // ---------------------------------------------------------------- derived columns

  /** `df[name] = <expression of each row>`. */
  function WithColumn(df: Frame, name: string, f: Row -> Cell): (r: Frame)
    ensures r.columns == df.columns + {name} && |r.rows| == |df.rows|
    ensures forall k :: 0 <= k < |df.rows| ==>
              && r.rows[k].index == df.rows[k].index
              && r.rows[k].cells.Keys == df.rows[k].cells.Keys + {name}
              && Get(r.rows[k], name) == f(df.rows[k])
              && forall c :: c != name ==> Get(r.rows[k], c) == Get(df.rows[k], c)
  {
    Frame(df.columns + {name}, seq(|df.rows|, k requires 0 <= k < |df.rows| =>
      Row(df.rows[k].index, df.rows[k].cells[name := f(df.rows[k])])))
  }

  /** `(df[col] - ideal).abs()`: NaN stays NaN. */
  function Deviation(c: Cell, ideal: real): (r: Cell)
    ensures r.Num? <==> c.Num?
    ensures r.Num? ==> r.value >= 0.0 && (r.value == c.value - ideal || r.value == ideal - c.value)
  {
    if c.Num? then Num(Abs(c.value - ideal)) else Missing
  }

  /** `a + b` of two columns: NaN if either is NaN. */
  function Plus(a: Cell, b: Cell): (r: Cell)
    ensures r.Num? <==> a.Num? && b.Num?
    ensures r.Num? ==> r.value == a.value + b.value
  {
    if a.Num? && b.Num? then Num(a.value + b.value) else Missing
  }
}
