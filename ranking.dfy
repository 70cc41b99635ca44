/**
  Ranking a frame by a score column: `sort_values(col).reset_index(drop=True)`
  and `head(n)`. pandas' default sort is not stable, so only the order of the
  scores and the permutation are promised, never the order of ties.
 */
module Ranking {
  import opened Frames

  /** The ascending order of `sort_values`: numbers by value, NaN after every number. */
  predicate CellLeq(a: Cell, b: Cell) {
    if a.Num? && b.Num? then a.value <= b.value else !b.Num?
  }

  /** Both cells are numbers and the first is no greater. */
  predicate NumLeq(a: Cell, b: Cell) {
    a.Num? && b.Num? && a.value <= b.value
  }

  ghost predicate SortedBy(s: seq<Record>, col: string) {
    forall i, j :: 0 <= i < j < |s| ==> CellLeq(Lookup(s[i], col), Lookup(s[j], col))
  }

  /** No two records share a value in column `key`. */
  ghost predicate DistinctKeys(s: seq<Record>, key: string) {
    forall i, j :: 0 <= i < j < |s| ==> Lookup(s[i], key) != Lookup(s[j], key)
  }

  function Insert(x: Record, s: seq<Record>, col: string): (r: seq<Record>)
    ensures multiset(r) == multiset(s) + multiset{x}
  {
    if s == [] || CellLeq(Lookup(x, col), Lookup(s[0], col)) then [x] + s
    else
      assert s == [s[0]] + s[1..];
      [s[0]] + Insert(x, s[1..], col)
  }

  lemma {:induction false} InsertKeepsSorted(x: Record, s: seq<Record>, col: string)
    requires SortedBy(s, col)
    ensures SortedBy(Insert(x, s, col), col)
  {
    if s != [] && !CellLeq(Lookup(x, col), Lookup(s[0], col)) {
      var rest := Insert(x, s[1..], col);
      InsertKeepsSorted(x, s[1..], col);
      forall j | 0 <= j < |rest| ensures CellLeq(Lookup(s[0], col), Lookup(rest[j], col)) {
        assert rest[j] in multiset(rest);
        if rest[j] != x {
          assert rest[j] in s[1..];
        }
      }
    }
  }

  /** Orders the records by column `col`. */
  function SortRecords(s: seq<Record>, col: string): (r: seq<Record>)
    ensures multiset(r) == multiset(s)
    ensures SortedBy(r, col)
  {
    if s == [] then []
    else
      assert s == [s[0]] + s[1..];
      InsertKeepsSorted(s[0], SortRecords(s[1..], col), col);
      Insert(s[0], SortRecords(s[1..], col), col)
  }

  function Records(rows: seq<Row>): (r: seq<Record>)
    ensures |r| == |rows| && forall k :: 0 <= k < |rows| ==> r[k] == rows[k].cells
  {
    seq(|rows|, k requires 0 <= k < |rows| => rows[k].cells)
  }

  /** `reset_index(drop=True)`: the rows are labelled 0, 1, 2, ... in their new order. */
  function Renumber(s: seq<Record>): (r: seq<Row>)
    ensures RangeIndexed(r) && Records(r) == s
  {
    seq(|s|, k requires 0 <= k < |s| => Row(k, s[k]))
  }

  /** `df.sort_values(col).reset_index(drop=True)`. */
  function SortValues(df: Frame, col: string): (r: Frame)
    ensures r.columns == df.columns
    ensures RangeIndexed(r.rows)
    ensures multiset(Records(r.rows)) == multiset(Records(df.rows))
    ensures SortedBy(Records(r.rows), col)
  {
    Frame(df.columns, Renumber(SortRecords(Records(df.rows), col)))
  }

  /** `df.head(n)`: the first n rows, or all of them when there are fewer. */
  function Head(df: Frame, n: nat): (r: Frame)
    ensures r.columns == df.columns
    ensures |r.rows| == if |df.rows| < n then |df.rows| else n
    ensures forall k :: 0 <= k < |r.rows| ==> r.rows[k] == df.rows[k]
  {
    Frame(df.columns, if |df.rows| < n then df.rows else df.rows[..n])
  }

  /** A property of every record carries over to any permutation of them. */
  lemma PermutationKeeps(x: seq<Record>, y: seq<Record>, P: Record -> bool)
    requires multiset(x) == multiset(y)
    requires forall k :: 0 <= k < |x| ==> P(x[k])
    ensures forall k :: 0 <= k < |y| ==> P(y[k])
  {
    forall k | 0 <= k < |y| ensures P(y[k]) {
      assert y[k] in multiset(x);
      var m :| 0 <= m < |x| && x[m] == y[k];
    }
  }

  lemma {:induction false} InsertKeepsKeysDistinct(x: Record, s: seq<Record>, col: string, key: string)
    requires DistinctKeys(s, key)
    requires forall y :: y in s ==> Lookup(y, key) != Lookup(x, key)
    ensures DistinctKeys(Insert(x, s, col), key)
  {
    if s != [] && !CellLeq(Lookup(x, col), Lookup(s[0], col)) {
      var rest := Insert(x, s[1..], col);
      assert DistinctKeys(s[1..], key);
      InsertKeepsKeysDistinct(x, s[1..], col, key);
      forall j | 0 <= j < |rest| ensures Lookup(s[0], key) != Lookup(rest[j], key) {
        assert rest[j] in multiset(rest);
        if rest[j] != x {
          assert rest[j] in s[1..];
        }
      }
    }
  }

  /** Sorting never makes two records share a key. */
  lemma {:induction false} SortKeepsKeysDistinct(s: seq<Record>, col: string, key: string)
    requires DistinctKeys(s, key)
    ensures DistinctKeys(SortRecords(s, col), key)
  {
    if s != [] {
      assert DistinctKeys(s[1..], key);
      SortKeepsKeysDistinct(s[1..], col, key);
      var sorted := SortRecords(s[1..], col);
      forall y | y in sorted ensures Lookup(y, key) != Lookup(s[0], key) {
        assert y in multiset(s[1..]);
      }
      InsertKeepsKeysDistinct(s[0], sorted, col, key);
    }
  }

  /** `sort_values(...).reset_index(drop=True)` keeps a unique key column unique. */
  lemma SortValuesKeepsKeysUnique(df: Frame, col: string, key: string)
    requires UniqueKeys(df.rows, key)
    ensures UniqueKeys(SortValues(df, col).rows, key)
  {
    SortKeepsKeysDistinct(Records(df.rows), col, key);
  }

  /**
    Sorting a frame whose rows all have a number in `col` and satisfy `P`:
    every sorted row still satisfies `P`, the key stays unique, and the
    numbers in `col` never decrease down the frame.
   */
  lemma SortValuesOrders(df: Frame, col: string, key: string, P: Record -> bool)
    requires UniqueKeys(df.rows, key)
    requires forall k :: 0 <= k < |df.rows| ==> P(df.rows[k].cells) && Get(df.rows[k], col).Num?
    ensures var r := SortValues(df, col).rows;
            && UniqueKeys(r, key)
            && (forall k :: 0 <= k < |r| ==> P(r[k].cells))
            && forall i, j :: 0 <= i <= j < |r| ==> NumLeq(Get(r[i], col), Get(r[j], col))
  {
    var r := SortValues(df, col).rows;
    SortValuesKeepsKeysUnique(df, col, key);
    PermutationKeeps(Records(df.rows), Records(r), x => P(x) && Lookup(x, col).Num?);
    forall k | 0 <= k < |r| ensures P(r[k].cells) && Get(r[k], col).Num? {
      assert Records(r)[k] == r[k].cells;
    }
    forall i, j | 0 <= i <= j < |r| ensures NumLeq(Get(r[i], col), Get(r[j], col)) {
      assert Records(r)[i] == r[i].cells && Records(r)[j] == r[j].cells;
    }
  }
}
