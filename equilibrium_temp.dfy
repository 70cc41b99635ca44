/**
  The ranking by equilibrium temperature: select the name and temperature,
  drop rows whose temperature is the text 'null', convert the temperature,
  drop rows missing either column, keep the first row per `pl_name`, keep
  temperatures in [175, 310] K, score by |T - 255|, sort, and plot the ten best.
 */
module EquilibriumTemp {
  import opened Frames
  import opened Ranking

  const COLUMNS: seq<string> := ["pl_name", "pl_eqt"]
  const RANGES: seq<Range> := [Range("pl_eqt", 175.0, 310.0)]
  /** The temperature the score measures distance from, in kelvin. */
  const IDEAL_TEMP: real := 255.0
  const TOP_N: nat := 10

  /** The temperature cell is not the text 'null'. */
  predicate NotNull(r: Row) {
    Get(r, "pl_eqt") != Text("null")
  }

  /** Selection, the 'null' mask, and the temperature converted to numbers. */
  function Cleaned(df: Frame, parse: string -> Option<real>): Result<Frame> {
    var sel :- Select(df, COLUMNS);
    assert "pl_eqt" in COLUMNS;
    Ok(CoerceColumn(Frame(sel.columns, Where(sel.rows, NotNull)), "pl_eqt", parse))
  }

  /**
    `dropna()` over both columns, first row per name kept, temperature range
    applied.
   */
  function Shortlisted(df: Frame, parse: string -> Option<real>): Result<Frame> {
    var numeric :- Cleaned(df, parse);
    Shortlist(numeric, numeric.columns, "pl_name", RANGES)
  }

  /** The temperature score column. */
  function Scored(df: Frame): Frame {
    WithColumn(df, "temp_score", r => Deviation(Get(r, "pl_eqt"), IDEAL_TEMP))
  }

  /** The filtered, scored candidates before sorting. */
  function Candidates(df: Frame, parse: string -> Option<real>): Result<Frame> {
    var shortlisted :- Shortlisted(df, parse);
    Ok(Scored(shortlisted))
  }

  /** The candidates sorted by temperature score, relabelled 0, 1, 2, ... */
  function Ranked(df: Frame, parse: string -> Option<real>): Result<Frame> {
    var candidates :- Candidates(df, parse);
    Ok(SortValues(candidates, "temp_score"))
  }

  /** The ten best candidates that are plotted. */
  function Top10(df: Frame, parse: string -> Option<real>): Result<Frame> {
    var ranked :- Ranked(df, parse);
    Ok(Head(ranked, TOP_N))
  }

  // ---------------------------------------------------------------- specification

  /** A source row survives the cleaning: not 'null', a name, and a temperature that converts. */
  ghost predicate Usable(r: Row, parse: string -> Option<real>) {
    && NotNull(r)
    && Get(r, "pl_name") != Missing
    && ToNumeric(Get(r, "pl_eqt"), parse).Num?
  }

  /** The temperature of a source row converts to a number in [175, 310] K. */
  ghost predicate Temperate(r: Row, parse: string -> Option<real>) {
    InRange(ToNumeric(Get(r, "pl_eqt"), parse), 175.0, 310.0)
  }

  /** Source row i becomes a candidate: usable, temperate, and no earlier usable row has its name. */
  ghost predicate Admitted(rows: seq<Row>, i: int, parse: string -> Option<real>) {
    && 0 <= i < |rows|
    && Usable(rows[i], parse)
    && Temperate(rows[i], parse)
    && forall j :: 0 <= j < i && Usable(rows[j], parse) ==> Get(rows[j], "pl_name") != Get(rows[i], "pl_name")
  }

  /** A scored candidate row: a name, a temperature in range and its score as defined. */
  ghost predicate Candidate(r: Record) {
    && r.Keys <= {"pl_name", "pl_eqt", "temp_score"}
    && Lookup(r, "pl_name") != Missing
    && InRange(Lookup(r, "pl_eqt"), 175.0, 310.0)
    && Lookup(r, "temp_score") == Num(Abs(Lookup(r, "pl_eqt").value - IDEAL_TEMP))
    && InRange(Lookup(r, "temp_score"), 0.0, 80.0)
  }

  // ---------------------------------------------------------------- proofs

  lemma SelectedColumns()
    ensures (set c | c in COLUMNS) == {"pl_name", "pl_eqt"}
  {
    assert COLUMNS[0] in COLUMNS && COLUMNS[1] in COLUMNS;
  }

  lemma RangeColumnsAreTemperature()
    ensures RangeColumns(RANGES) == {"pl_eqt"}
  {
    assert RANGES[0].col in RangeColumns(RANGES);
  }

  /** The run stops with KeyError exactly when the name or the temperature column is absent. */
  lemma CandidatesFail(df: Frame, parse: string -> Option<real>)
    ensures Candidates(df, parse).Err? <==> !({"pl_name", "pl_eqt"} <= df.columns)
    ensures Candidates(df, parse).Err? ==> Candidates(df, parse) == Err(MissingColumns({"pl_name", "pl_eqt"} - df.columns))
  {
    SelectedColumns();
    if Cleaned(df, parse).Ok? {
      var numeric := Cleaned(df, parse).value;
      RangeColumnsAreTemperature();
      ShortlistFails(numeric, numeric.columns, "pl_name", RANGES);
    }
  }

  /** The cleaned frame has both columns and its labels still increase. */
  lemma CleanedFrame(df: Frame, parse: string -> Option<real>)
    requires RangeIndexed(df.rows) && {"pl_name", "pl_eqt"} <= df.columns
    ensures Cleaned(df, parse).Ok?
    ensures Cleaned(df, parse).value.columns == {"pl_name", "pl_eqt"}
    ensures IndexIncreasing(Cleaned(df, parse).value.rows)
  {
    SelectedColumns();
  }

  /** A cleaned row is source row `x.index` with its temperature converted. */
  lemma CleanedCells(df: Frame, parse: string -> Option<real>, x: Row)
    requires RangeIndexed(df.rows) && {"pl_name", "pl_eqt"} <= df.columns
    requires Cleaned(df, parse).Ok? && x in Cleaned(df, parse).value.rows
    ensures x.index < |df.rows| && NotNull(df.rows[x.index])
    ensures x.cells.Keys <= {"pl_name", "pl_eqt"}
    ensures Get(x, "pl_eqt") == ToNumeric(Get(df.rows[x.index], "pl_eqt"), parse)
    ensures Get(x, "pl_name") == Get(df.rows[x.index], "pl_name")
  {
    SelectedColumns();
    var sel := Select(df, COLUMNS).value;
    var kept := Frame(sel.columns, Where(sel.rows, NotNull));
    var numeric := CoerceColumn(kept, "pl_eqt", parse);
    var k :| 0 <= k < |numeric.rows| && numeric.rows[k] == x;
    var y := kept.rows[k];
    assert y in sel.rows && NotNull(y);
    var m :| 0 <= m < |sel.rows| && sel.rows[m] == y;
    assert "pl_eqt" in COLUMNS && "pl_name" in COLUMNS;
  }

  /** What the missing-value drop and the range mask see of a cleaned row. */
  lemma CleanedRow(df: Frame, parse: string -> Option<real>, x: Row)
    requires RangeIndexed(df.rows) && {"pl_name", "pl_eqt"} <= df.columns
    requires Cleaned(df, parse).Ok? && x in Cleaned(df, parse).value.rows
    ensures x.index < |df.rows|
    ensures NoneMissing(x, {"pl_name", "pl_eqt"}) <==> Usable(df.rows[x.index], parse)
    ensures InRanges(x, RANGES) <==> Temperate(df.rows[x.index], parse)
  {
    CleanedCells(df, parse, x);
    assert NoneMissing(x, {"pl_name", "pl_eqt"}) <==> Get(x, "pl_name") != Missing && Get(x, "pl_eqt") != Missing;
    assert InRanges(x, RANGES) <==> InRange(Get(x, "pl_eqt"), 175.0, 310.0) by {
      assert RANGES[0] in RANGES;
    }
  }

  /** A source row that is not 'null' reaches the cleaned frame. */
  lemma CleanedKeeps(df: Frame, parse: string -> Option<real>, i: nat)
    requires RangeIndexed(df.rows) && {"pl_name", "pl_eqt"} <= df.columns
    requires i < |df.rows| && NotNull(df.rows[i])
    ensures Cleaned(df, parse).Ok? && HasIndex(Cleaned(df, parse).value.rows, i)
  {
    SelectedColumns();
    var sel := Select(df, COLUMNS).value;
    var kept := Frame(sel.columns, Where(sel.rows, NotNull));
    var numeric := CoerceColumn(kept, "pl_eqt", parse);
    assert "pl_eqt" in COLUMNS;
    assert Get(sel.rows[i], "pl_eqt") == Get(df.rows[i], "pl_eqt");
    assert sel.rows[i] in kept.rows;
    var k :| 0 <= k < |kept.rows| && kept.rows[k] == sel.rows[i];
    assert numeric.rows[k].index == i;
  }

  /** Every shortlisted row is the cleaned form of an admitted source row. */
  lemma ShortlistedIsAdmitted(df: Frame, parse: string -> Option<real>, x: Row)
    requires RangeIndexed(df.rows) && {"pl_name", "pl_eqt"} <= df.columns
    requires Shortlisted(df, parse).Ok? && x in Shortlisted(df, parse).value.rows
    ensures x in Cleaned(df, parse).value.rows
    ensures Admitted(df.rows, x.index, parse)
  {
    CleanedFrame(df, parse);
    var numeric := Cleaned(df, parse).value;
    RangeColumnsAreTemperature();
    ShortlistMembers(numeric, numeric.columns, "pl_name", RANGES);
    CleanedCells(df, parse, x);
    CleanedRow(df, parse, x);
    forall j | 0 <= j < x.index && Usable(df.rows[j], parse)
      ensures Get(df.rows[j], "pl_name") != Get(df.rows[x.index], "pl_name")
    {
      CleanedKeeps(df, parse, j);
      var k :| 0 <= k < |numeric.rows| && numeric.rows[k].index == j;
      CleanedCells(df, parse, numeric.rows[k]);
      CleanedRow(df, parse, numeric.rows[k]);
    }
  }

  /** The cleaned form of an admitted source row is shortlisted. */
  lemma AdmittedRowShortlisted(df: Frame, parse: string -> Option<real>, x: Row)
    requires RangeIndexed(df.rows) && {"pl_name", "pl_eqt"} <= df.columns
    requires Cleaned(df, parse).Ok? && x in Cleaned(df, parse).value.rows
    requires Admitted(df.rows, x.index, parse)
    ensures Shortlisted(df, parse).Ok? && x in Shortlisted(df, parse).value.rows
    ensures HasIndex(Shortlisted(df, parse).value.rows, x.index)
  {
    CleanedFrame(df, parse);
    var numeric := Cleaned(df, parse).value;
    RangeColumnsAreTemperature();
    ShortlistMembers(numeric, numeric.columns, "pl_name", RANGES);
    CleanedCells(df, parse, x);
    CleanedRow(df, parse, x);
    forall y | y in numeric.rows && y.index < x.index && NoneMissing(y, numeric.columns)
      ensures Get(y, "pl_name") != Get(x, "pl_name")
    {
      CleanedCells(df, parse, y);
      CleanedRow(df, parse, y);
    }
    assert FirstUsable(numeric.rows, x, numeric.columns, "pl_name");
    MemberHasIndex(Shortlisted(df, parse).value.rows, x);
  }

  /** Every admitted source row is shortlisted, in its cleaned form. */
  lemma AdmittedIsShortlisted(df: Frame, parse: string -> Option<real>, i: nat)
    requires RangeIndexed(df.rows) && {"pl_name", "pl_eqt"} <= df.columns
    requires Admitted(df.rows, i, parse)
    ensures Shortlisted(df, parse).Ok? && HasIndex(Shortlisted(df, parse).value.rows, i)
  {
    CleanedKeeps(df, parse, i);
    var numeric := Cleaned(df, parse).value.rows;
    var k :| 0 <= k < |numeric| && numeric[k].index == i;
    AdmittedRowShortlisted(df, parse, numeric[k]);
  }

  /** Each shortlisted row has at most a name and a temperature, taken from its source row. */
  lemma ShortlistedRows(df: Frame, parse: string -> Option<real>)
    requires RangeIndexed(df.rows) && {"pl_name", "pl_eqt"} <= df.columns && Shortlisted(df, parse).Ok?
    ensures var s := Shortlisted(df, parse).value.rows;
            forall k :: 0 <= k < |s| ==>
              && s[k].index < |df.rows|
              && s[k].cells.Keys <= {"pl_name", "pl_eqt"}
              && Get(s[k], "pl_name") != Missing
              && InRanges(s[k], RANGES)
              && Get(s[k], "pl_eqt") == ToNumeric(Get(df.rows[s[k].index], "pl_eqt"), parse)
              && Get(s[k], "pl_name") == Get(df.rows[s[k].index], "pl_name")
  {
    var s := Shortlisted(df, parse).value.rows;
    forall k | 0 <= k < |s|
      ensures s[k].index < |df.rows|
      ensures s[k].cells.Keys <= {"pl_name", "pl_eqt"}
      ensures Get(s[k], "pl_name") != Missing
      ensures InRanges(s[k], RANGES)
      ensures Get(s[k], "pl_eqt") == ToNumeric(Get(df.rows[s[k].index], "pl_eqt"), parse)
      ensures Get(s[k], "pl_name") == Get(df.rows[s[k].index], "pl_name")
    {
      ShortlistedIsAdmitted(df, parse, s[k]);
      CleanedCells(df, parse, s[k]);
      CleanedRow(df, parse, s[k]);
    }
  }

  /** Scoring keeps the rows and their values and adds the temperature score. */
  lemma ScoredRows(df: Frame)
    ensures var s := Scored(df);
            && |s.rows| == |df.rows|
            && forall k :: 0 <= k < |df.rows| ==>
                 && s.rows[k].index == df.rows[k].index
                 && Get(s.rows[k], "pl_eqt") == Get(df.rows[k], "pl_eqt")
                 && Get(s.rows[k], "pl_name") == Get(df.rows[k], "pl_name")
                 && (InRanges(df.rows[k], RANGES) && Get(df.rows[k], "pl_name") != Missing
                       && df.rows[k].cells.Keys <= {"pl_name", "pl_eqt"} ==>
                       Candidate(s.rows[k].cells))
  {
    forall k | 0 <= k < |df.rows| && InRanges(df.rows[k], RANGES) && Get(df.rows[k], "pl_name") != Missing
               && df.rows[k].cells.Keys <= {"pl_name", "pl_eqt"}
      ensures Candidate(Scored(df).rows[k].cells)
    {
      assert RANGES[0] in RANGES;
    }
  }

  /** A source row becomes a candidate exactly when it is admitted. */
  lemma AdmittedIffCandidate(df: Frame, parse: string -> Option<real>)
    requires RangeIndexed(df.rows) && {"pl_name", "pl_eqt"} <= df.columns
    ensures Candidates(df, parse).Ok?
    ensures forall i :: Admitted(df.rows, i, parse) <==> HasIndex(Candidates(df, parse).value.rows, i)
  {
    CleanedFrame(df, parse);
    var numeric := Cleaned(df, parse).value;
    RangeColumnsAreTemperature();
    ShortlistMembers(numeric, numeric.columns, "pl_name", RANGES);
    var s := Shortlisted(df, parse).value;
    ScoredRows(s);
    var c := Scored(s);
    assert Candidates(df, parse) == Ok(c);
    forall i
      ensures Admitted(df.rows, i, parse) <==> HasIndex(c.rows, i)
    {
      if Admitted(df.rows, i, parse) {
        AdmittedIsShortlisted(df, parse, i);
        var k :| 0 <= k < |s.rows| && s.rows[k].index == i;
        assert c.rows[k].index == i;
      }
      if HasIndex(c.rows, i) {
        var k :| 0 <= k < |c.rows| && c.rows[k].index == i;
        ShortlistedIsAdmitted(df, parse, s.rows[k]);
      }
    }
  }

  /**
    The candidates are exactly the admitted source rows, each carrying its
    source row's name and converted temperature and the score; no name
    appears twice.
   */
  lemma CandidatesExactly(df: Frame, parse: string -> Option<real>)
    requires RangeIndexed(df.rows) && {"pl_name", "pl_eqt"} <= df.columns
    ensures Candidates(df, parse).Ok?
    ensures var c := Candidates(df, parse).value.rows;
            && UniqueKeys(c, "pl_name")
            && (forall i :: Admitted(df.rows, i, parse) <==> HasIndex(c, i))
            && forall k :: 0 <= k < |c| ==>
                 && c[k].index < |df.rows|
                 && Candidate(c[k].cells)
                 && Get(c[k], "pl_eqt") == ToNumeric(Get(df.rows[c[k].index], "pl_eqt"), parse)
                 && Get(c[k], "pl_name") == Get(df.rows[c[k].index], "pl_name")
  {
    CleanedFrame(df, parse);
    var numeric := Cleaned(df, parse).value;
    RangeColumnsAreTemperature();
    ShortlistMembers(numeric, numeric.columns, "pl_name", RANGES);
    var s := Shortlisted(df, parse).value;
    ScoredRows(s);
    assert Candidates(df, parse) == Ok(Scored(s));
    ShortlistedRows(df, parse);
    AdmittedIffCandidate(df, parse);
  }

  /**
    A row with no name, a 'null' temperature or one that does not convert is
    never a candidate: `dropna()` without a subset checks the name too.
   */
  lemma UnusableNeverCandidate(df: Frame, parse: string -> Option<real>, i: nat)
    requires RangeIndexed(df.rows) && {"pl_name", "pl_eqt"} <= df.columns
    requires i < |df.rows| && !Usable(df.rows[i], parse)
    ensures Candidates(df, parse).Ok? && !HasIndex(Candidates(df, parse).value.rows, i)
  {
    AdmittedIffCandidate(df, parse);
  }

  /** Sorting a frame of scored candidates by temperature score. */
  lemma SortedCandidates(c: Frame)
    requires UniqueKeys(c.rows, "pl_name")
    requires forall k :: 0 <= k < |c.rows| ==> Candidate(c.rows[k].cells)
    ensures var r := SortValues(c, "temp_score").rows;
            && UniqueKeys(r, "pl_name")
            && (forall k :: 0 <= k < |r| ==> Candidate(r[k].cells))
            && forall i, j :: 0 <= i <= j < |r| ==> NumLeq(Get(r[i], "temp_score"), Get(r[j], "temp_score"))
  {
    SortValuesOrders(c, "temp_score", "pl_name", x => Candidate(x));
  }

  /**
    The sorted output is a permutation of the candidates, relabelled 0..n-1,
    with non-decreasing temperature score between 0 and 80, and no name twice.
   */
  lemma RankedProperties(df: Frame, parse: string -> Option<real>)
    requires RangeIndexed(df.rows) && {"pl_name", "pl_eqt"} <= df.columns
    ensures Ranked(df, parse).Ok?
    ensures var c := Candidates(df, parse).value.rows;
            var r := Ranked(df, parse).value.rows;
            && RangeIndexed(r)
            && multiset(Records(r)) == multiset(Records(c))
            && UniqueKeys(r, "pl_name")
            && (forall k :: 0 <= k < |r| ==> Candidate(r[k].cells))
            && forall i, j :: 0 <= i <= j < |r| ==> NumLeq(Get(r[i], "temp_score"), Get(r[j], "temp_score"))
  {
    CandidatesExactly(df, parse);
    SortedCandidates(Candidates(df, parse).value);
  }

  /** `top10` is the first min(10, n) sorted rows, labelled 0..9, none scoring worse than a row left out. */
  lemma TopTen(df: Frame, parse: string -> Option<real>)
    requires RangeIndexed(df.rows) && {"pl_name", "pl_eqt"} <= df.columns
    ensures Top10(df, parse).Ok?
    ensures var r := Ranked(df, parse).value.rows;
            var t := Top10(df, parse).value.rows;
            && |t| == (if |r| < 10 then |r| else 10)
            && RangeIndexed(t)
            && (forall k :: 0 <= k < |t| ==> t[k] == r[k])
            && forall i, j :: 0 <= i < |t| <= j < |r| ==> NumLeq(Get(t[i], "temp_score"), Get(r[j], "temp_score"))
  {
    RankedProperties(df, parse);
  }

  /** A planet at exactly 255 K is ranked ahead of every planet at another temperature. */
  lemma IdealTemperatureFirst(df: Frame, parse: string -> Option<real>, i: nat, j: nat)
    requires RangeIndexed(df.rows) && {"pl_name", "pl_eqt"} <= df.columns
    requires Ranked(df, parse).Ok?
    requires i < |Ranked(df, parse).value.rows| && j < |Ranked(df, parse).value.rows|
    requires Get(Ranked(df, parse).value.rows[i], "pl_eqt") == Num(IDEAL_TEMP)
    requires Get(Ranked(df, parse).value.rows[j], "pl_eqt") != Num(IDEAL_TEMP)
    ensures i < j
  {
    RankedProperties(df, parse);
    var r := Ranked(df, parse).value.rows;
    assert Candidate(r[i].cells) && Candidate(r[j].cells);
  }
}
