/**
  The ranking by orbital distance and planet mass: select five columns,
  coerce `pl_orbsmax` and `pl_masse`, drop rows missing either, keep the
  first row per `pl_name`, keep distances in [0.5, 3.5] AU and masses in
  [0.3, 10.0] Earth masses, score by |distance - 1| + |mass - 1|, sort, take
  the ten best, and size the plot window around every candidate.
 */
module OrbitMass {
  import opened Frames
  import opened Ranking

  const SELECTED: seq<string> := ["pl_name", "hostname", "pl_orbsmax", "pl_masse", "disc_year"]
  /** The columns a row must have a value in. */
  const REQUIRED: set<string> := {"pl_orbsmax", "pl_masse"}
  const RANGES: seq<Range> := [Range("pl_orbsmax", 0.5, 3.5), Range("pl_masse", 0.3, 10.0)]
  /** Every column a candidate row can have: the selection plus the three scores. */
  const FIELDS: set<string> :=
    {"pl_name", "hostname", "pl_orbsmax", "pl_masse", "disc_year", "distance_score", "mass_score", "habitability_score"}
  const TOP_N: nat := 10
  /** The columns scoring adds. */
  const SCORE_COLS: set<string> := {"distance_score", "mass_score", "habitability_score"}
  /** Margins the plot window leaves around the candidates. */
  const BUFFER_X: real := 0.8
  const BUFFER_Y: real := 1.0

  /** The selected frame with both measured columns converted to numbers. */
  function Numeric(sel: Frame, parse: string -> Option<real>): Frame
    requires REQUIRED <= sel.columns
  {
    CoerceColumn(CoerceColumn(sel, "pl_orbsmax", parse), "pl_masse", parse)
  }

  /** Selection, conversion, missing values dropped, first row per name kept, ranges applied. */
  function Shortlisted(df: Frame, parse: string -> Option<real>): Result<Frame> {
    var sel :- Select(df, SELECTED);
    assert "pl_orbsmax" in SELECTED && "pl_masse" in SELECTED;
    Shortlist(Numeric(sel, parse), REQUIRED, "pl_name", RANGES)
  }

  /** The distance, mass and combined habitability score columns. */
  function Scored(df: Frame): Frame {
    var withDistance := WithColumn(df, "distance_score", r => Deviation(Get(r, "pl_orbsmax"), 1.0));
    var withMass := WithColumn(withDistance, "mass_score", r => Deviation(Get(r, "pl_masse"), 1.0));
    WithColumn(withMass, "habitability_score", r => Plus(Get(r, "distance_score"), Get(r, "mass_score")))
  }

  /** The filtered, scored candidates before sorting. */
  function Candidates(df: Frame, parse: string -> Option<real>): Result<Frame> {
    var shortlisted :- Shortlisted(df, parse);
    Ok(Scored(shortlisted))
  }

  /** The candidates sorted by habitability score, relabelled 0, 1, 2, ... */
  function Ranked(df: Frame, parse: string -> Option<real>): Result<Frame> {
    var candidates :- Candidates(df, parse);
    Ok(SortValues(candidates, "habitability_score"))
  }

  /** The ten best candidates, highlighted and labelled on the plot. */
  function Top10(df: Frame, parse: string -> Option<real>): Result<Frame> {
    var ranked :- Ranked(df, parse);
    Ok(Head(ranked, TOP_N))
  }

  // ---------------------------------------------------------------- plot window

  datatype Window = Window(xMin: real, xMax: real, yMin: real, yMax: real)

  /** The numbers of a column in row order, NaN skipped as pandas' `min` and `max` skip it. */
  function Values(rows: seq<Row>, col: string): (r: seq<real>)
    ensures forall k :: 0 <= k < |rows| && Get(rows[k], col).Num? ==> Get(rows[k], col).value in r
    ensures forall v :: v in r ==> exists k :: 0 <= k < |rows| && Get(rows[k], col) == Num(v)
  {
    if rows == [] then []
    else
      var rest := Values(rows[1..], col);
      assert forall v :: v in rest ==> exists k :: 0 <= k < |rows| && Get(rows[k], col) == Num(v) by {
        forall v | v in rest ensures exists k :: 0 <= k < |rows| && Get(rows[k], col) == Num(v) {
          var k :| 0 <= k < |rows[1..]| && Get(rows[1..][k], col) == Num(v);
          assert Get(rows[k + 1], col) == Num(v);
        }
      }
      if Get(rows[0], col).Num? then [Get(rows[0], col).value] + rest else rest
  }

  /** The smallest value of a non-empty column. */
  function Min(xs: seq<real>): (m: real)
    requires xs != []
    ensures m in xs && forall x :: x in xs ==> m <= x
  {
    if |xs| == 1 then xs[0]
    else
      var rest := Min(xs[1..]);
      assert forall x :: x in xs ==> x == xs[0] || x in xs[1..];
      if xs[0] <= rest then xs[0] else rest
  }

  /** The largest value of a non-empty column. */
  function Max(xs: seq<real>): (m: real)
    requires xs != []
    ensures m in xs && forall x :: x in xs ==> x <= m
  {
    if |xs| == 1 then xs[0]
    else
      var rest := Max(xs[1..]);
      assert forall x :: x in xs ==> x == xs[0] || x in xs[1..];
      if xs[0] >= rest then xs[0] else rest
  }

  /** Python's `max(0, x)`. */
  function AtLeastZero(x: real): (r: real)
    ensures r >= 0.0 && r >= x
    ensures r == x || r == 0.0
  {
    if x > 0.0 then x else 0.0
  }

  /** Some row holds a number in column `col`. */
  ghost predicate HasNumber(rows: seq<Row>, col: string) {
    exists k :: 0 <= k < |rows| && Get(rows[k], col).Num?
  }

  /**
    One axis's limits: the smallest value of the column less the buffer but
    never below zero, and the largest value plus the buffer. With no numbers
    the limits are NaN and setting them fails, modelled as None.
   */
  function Limits(rows: seq<Row>, col: string, buffer: real): (r: Option<(real, real)>)
    ensures r.Some? <==> HasNumber(rows, col)
    ensures r.Some? ==> 0.0 <= r.value.0
  {
    var xs := Values(rows, col);
    if xs == [] then
      None
    else
      assert HasNumber(rows, col) by {
        var k :| 0 <= k < |rows| && Get(rows[k], col) == Num(xs[0]);
      }
      Some((AtLeastZero(Min(xs) - buffer), Max(xs) + buffer))
  }

  /**
    Every number of the column has at least `buffer` to spare below the upper
    limit, and at least `buffer` above the lower limit unless that was clipped
    to zero, which still lies below every number that is not negative.
   */
  lemma LimitsHold(rows: seq<Row>, col: string, buffer: real, k: nat)
    requires 0.0 <= buffer && k < |rows| && Get(rows[k], col).Num?
    ensures Limits(rows, col, buffer).Some?
    ensures var (lo, hi) := Limits(rows, col, buffer).value;
            var x := Get(rows[k], col).value;
            && x + buffer <= hi
            && (lo == 0.0 || lo + buffer <= x)
            && (0.0 <= x ==> lo <= x)
  {
    var xs := Values(rows, col);
    var x := Get(rows[k], col).value;
    assert x in xs;
    assert Min(xs) <= x <= Max(xs);
  }

  /** The upper limit sits exactly one buffer above a number of the column. */
  lemma LimitsTight(rows: seq<Row>, col: string, buffer: real)
    requires Limits(rows, col, buffer).Some?
    ensures exists k :: 0 <= k < |rows| && Get(rows[k], col) == Num(Limits(rows, col, buffer).value.1 - buffer)
  {
    var xs := Values(rows, col);
    assert Max(xs) in xs;
  }

  /** The axis limits of the plot: distance across, mass up. */
  function AxisWindow(df: Frame): (w: Option<Window>)
    ensures w.Some? <==> HasNumber(df.rows, "pl_orbsmax") && HasNumber(df.rows, "pl_masse")
    ensures w.Some? ==> 0.0 <= w.value.xMin && 0.0 <= w.value.yMin
  {
    match (Limits(df.rows, "pl_orbsmax", BUFFER_X), Limits(df.rows, "pl_masse", BUFFER_Y))
    case (Some((xMin, xMax)), Some((yMin, yMax))) => Some(Window(xMin, xMax, yMin, yMax))
    case _ => None
  }

  /** Row x's distance and mass are numbers inside the window. */
  predicate InWindow(w: Option<Window>, x: Row) {
    && w.Some?
    && Get(x, "pl_orbsmax").Num? && w.value.xMin <= Get(x, "pl_orbsmax").value <= w.value.xMax
    && Get(x, "pl_masse").Num? && w.value.yMin <= Get(x, "pl_masse").value <= w.value.yMax
  }

  // ---------------------------------------------------------------- specification

  /** Both measured columns of a source row convert to numbers. */
  ghost predicate Usable(r: Row, parse: string -> Option<real>) {
    ToNumeric(Get(r, "pl_orbsmax"), parse).Num? && ToNumeric(Get(r, "pl_masse"), parse).Num?
  }

  /** Both measured columns convert to numbers within the looser habitable ranges. */
  ghost predicate WithinRanges(r: Row, parse: string -> Option<real>) {
    InRange(ToNumeric(Get(r, "pl_orbsmax"), parse), 0.5, 3.5) && InRange(ToNumeric(Get(r, "pl_masse"), parse), 0.3, 10.0)
  }

  /** Source row i becomes a candidate: usable, within range, and no earlier usable row has its name. */
  ghost predicate Admitted(rows: seq<Row>, i: int, parse: string -> Option<real>) {
    && 0 <= i < |rows|
    && Usable(rows[i], parse)
    && WithinRanges(rows[i], parse)
    && forall j :: 0 <= j < i && Usable(rows[j], parse) ==> Get(rows[j], "pl_name") != Get(rows[i], "pl_name")
  }

  /** A scored candidate row: only the selected and score fields, values in range, scores as defined. */
  ghost predicate Candidate(r: Record) {
    && r.Keys <= FIELDS
    && InRange(Lookup(r, "pl_orbsmax"), 0.5, 3.5)
    && InRange(Lookup(r, "pl_masse"), 0.3, 10.0)
    && Lookup(r, "distance_score") == Num(Abs(Lookup(r, "pl_orbsmax").value - 1.0))
    && Lookup(r, "mass_score") == Num(Abs(Lookup(r, "pl_masse").value - 1.0))
    && Lookup(r, "habitability_score") == Num(Lookup(r, "distance_score").value + Lookup(r, "mass_score").value)
    && InRange(Lookup(r, "habitability_score"), 0.0, 11.5)
  }

  /**
    Every selected cell of `y` is the cell of source row `src`, converted to a
    number for the distance and the mass.
   */
  ghost predicate CarriesSource(y: Row, src: Row, parse: string -> Option<real>) {
    forall col :: col in SELECTED ==>
      Get(y, col) == if col in REQUIRED then ToNumeric(Get(src, col), parse) else Get(src, col)
  }

  // ---------------------------------------------------------------- proofs

  lemma RangeColumnsAreRequired()
    ensures RangeColumns(RANGES) == REQUIRED
  {
    assert RANGES[0].col in RangeColumns(RANGES);
    assert RANGES[1].col in RangeColumns(RANGES);
  }

  lemma SelectedColumns()
    ensures (set c | c in SELECTED) == {"pl_name", "hostname", "pl_orbsmax", "pl_masse", "disc_year"}
  {
    assert SELECTED[0] in SELECTED && SELECTED[1] in SELECTED && SELECTED[2] in SELECTED;
    assert SELECTED[3] in SELECTED && SELECTED[4] in SELECTED;
  }

  /** The converted frame keeps the RangeIndex and the row count. */
  lemma NumericFrame(df: Frame, parse: string -> Option<real>)
    requires RangeIndexed(df.rows) && Select(df, SELECTED).Ok?
    ensures REQUIRED <= Select(df, SELECTED).value.columns
    ensures var numeric := Numeric(Select(df, SELECTED).value, parse);
            && numeric.columns == (set c | c in SELECTED)
            && |numeric.rows| == |df.rows|
            && RangeIndexed(numeric.rows)
            && IndexIncreasing(numeric.rows)
  {
    SelectedColumns();
  }

  /** Row m of the converted frame in terms of source row m. */
  lemma NumericRow(df: Frame, parse: string -> Option<real>, m: nat)
    requires Select(df, SELECTED).Ok? && m < |df.rows|
    ensures REQUIRED <= Select(df, SELECTED).value.columns
    ensures var numeric := Numeric(Select(df, SELECTED).value, parse);
            && |numeric.rows| == |df.rows|
            && numeric.rows[m].cells.Keys <= (set c | c in SELECTED)
            && Get(numeric.rows[m], "pl_orbsmax") == ToNumeric(Get(df.rows[m], "pl_orbsmax"), parse)
            && Get(numeric.rows[m], "pl_masse") == ToNumeric(Get(df.rows[m], "pl_masse"), parse)
            && Get(numeric.rows[m], "pl_name") == Get(df.rows[m], "pl_name")
            && (NoneMissing(numeric.rows[m], REQUIRED) <==> Usable(df.rows[m], parse))
            && (InRanges(numeric.rows[m], RANGES) <==> WithinRanges(df.rows[m], parse))
  {
    SelectedColumns();
    var sel := Select(df, SELECTED).value;
    assert "pl_orbsmax" in SELECTED && "pl_masse" in SELECTED && "pl_name" in SELECTED;
    var x := Numeric(sel, parse).rows[m];
    assert Get(x, "pl_orbsmax") == ToNumeric(Get(df.rows[m], "pl_orbsmax"), parse);
    assert Get(x, "pl_masse") == ToNumeric(Get(df.rows[m], "pl_masse"), parse);
    assert NoneMissing(x, REQUIRED) <==> Get(x, "pl_orbsmax") != Missing && Get(x, "pl_masse") != Missing;
    assert InRanges(x, RANGES) <==> InRange(Get(x, "pl_orbsmax"), 0.5, 3.5) && InRange(Get(x, "pl_masse"), 0.3, 10.0) by {
      assert RANGES[0] in RANGES && RANGES[1] in RANGES;
    }
  }

  /** Row k of the scored frame: the source cells kept and the three scores computed from them. */
  lemma ScoredCells(df: Frame, k: nat)
    requires k < |df.rows|
    ensures var y := Scored(df).rows[k];
            var x := df.rows[k];
            && |Scored(df).rows| == |df.rows|
            && y.index == x.index
            && y.cells.Keys == x.cells.Keys + {"distance_score", "mass_score", "habitability_score"}
            && Get(y, "pl_orbsmax") == Get(x, "pl_orbsmax")
            && Get(y, "pl_masse") == Get(x, "pl_masse")
            && Get(y, "pl_name") == Get(x, "pl_name")
            && Get(y, "distance_score") == Deviation(Get(x, "pl_orbsmax"), 1.0)
            && Get(y, "mass_score") == Deviation(Get(x, "pl_masse"), 1.0)
            && Get(y, "habitability_score") == Plus(Get(y, "distance_score"), Get(y, "mass_score"))
            && forall col :: col !in SCORE_COLS ==> Get(y, col) == Get(x, col)
  {
    var distance := WithColumn(df, "distance_score", r => Deviation(Get(r, "pl_orbsmax"), 1.0));
    var mass := WithColumn(distance, "mass_score", r => Deviation(Get(r, "pl_masse"), 1.0));
    assert Get(distance.rows[k], "distance_score") == Deviation(Get(df.rows[k], "pl_orbsmax"), 1.0);
    assert Get(mass.rows[k], "mass_score") == Deviation(Get(df.rows[k], "pl_masse"), 1.0);
  }

  /** A row scored from an in-range row with only the selected fields is a candidate. */
  lemma ScoredIsCandidate(x: Row, y: Row)
    requires InRanges(x, RANGES) && x.cells.Keys <= (set c | c in SELECTED)
    requires y.cells.Keys == x.cells.Keys + {"distance_score", "mass_score", "habitability_score"}
    requires Get(y, "pl_orbsmax") == Get(x, "pl_orbsmax") && Get(y, "pl_masse") == Get(x, "pl_masse")
    requires Get(y, "distance_score") == Deviation(Get(x, "pl_orbsmax"), 1.0)
    requires Get(y, "mass_score") == Deviation(Get(x, "pl_masse"), 1.0)
    requires Get(y, "habitability_score") == Plus(Get(y, "distance_score"), Get(y, "mass_score"))
    ensures Candidate(y.cells)
  {
    SelectedColumns();
    assert RANGES[0] in RANGES && RANGES[1] in RANGES;
  }

  /** Scoring keeps the rows and their values and adds the score columns. */
  lemma ScoredRows(df: Frame)
    ensures var s := Scored(df);
            && |s.rows| == |df.rows|
            && forall k :: 0 <= k < |df.rows| ==>
                 && s.rows[k].index == df.rows[k].index
                 && Get(s.rows[k], "pl_orbsmax") == Get(df.rows[k], "pl_orbsmax")
                 && Get(s.rows[k], "pl_masse") == Get(df.rows[k], "pl_masse")
                 && Get(s.rows[k], "pl_name") == Get(df.rows[k], "pl_name")
                 && (InRanges(df.rows[k], RANGES) && df.rows[k].cells.Keys <= (set c | c in SELECTED) ==>
                       Candidate(s.rows[k].cells))
  {
    forall k | 0 <= k < |df.rows|
      ensures InRanges(df.rows[k], RANGES) && df.rows[k].cells.Keys <= (set c | c in SELECTED) ==>
                Candidate(Scored(df).rows[k].cells)
    {
      ScoredCells(df, k);
      if InRanges(df.rows[k], RANGES) && df.rows[k].cells.Keys <= (set c | c in SELECTED) {
        ScoredIsCandidate(df.rows[k], Scored(df).rows[k]);
      }
    }
  }

  /** The run stops with KeyError exactly when one of the five selected columns is absent. */
  lemma CandidatesFail(df: Frame, parse: string -> Option<real>)
    ensures Candidates(df, parse).Err? <==> !((set c | c in SELECTED) <= df.columns)
    ensures Candidates(df, parse).Err? ==> Candidates(df, parse) == Err(MissingColumns((set c | c in SELECTED) - df.columns))
  {
    SelectedColumns();
    if Select(df, SELECTED).Ok? {
      var sel := Select(df, SELECTED).value;
      RangeColumnsAreRequired();
      ShortlistFails(Numeric(sel, parse), REQUIRED, "pl_name", RANGES);
    }
  }

  /** Every shortlisted row is the converted form of an admitted source row. */
  lemma ShortlistedIsAdmitted(df: Frame, parse: string -> Option<real>, x: Row)
    requires RangeIndexed(df.rows) && Select(df, SELECTED).Ok?
    requires Shortlisted(df, parse).Ok? && x in Shortlisted(df, parse).value.rows
    ensures REQUIRED <= Select(df, SELECTED).value.columns
    ensures x.index < |df.rows| && x == Numeric(Select(df, SELECTED).value, parse).rows[x.index]
    ensures Admitted(df.rows, x.index, parse)
  {
    NumericFrame(df, parse);
    var numeric := Numeric(Select(df, SELECTED).value, parse);
    RangeColumnsAreRequired();
    SelectedColumns();
    ShortlistMembers(numeric, REQUIRED, "pl_name", RANGES);
    var m :| 0 <= m < |numeric.rows| && numeric.rows[m] == x;
    NumericRow(df, parse, m);
    forall j | 0 <= j < m && Usable(df.rows[j], parse)
      ensures Get(df.rows[j], "pl_name") != Get(df.rows[m], "pl_name")
    {
      NumericRow(df, parse, j);
      assert numeric.rows[j] in numeric.rows;
    }
  }

  /** Every admitted source row is shortlisted, in its converted form. */
  lemma AdmittedIsShortlisted(df: Frame, parse: string -> Option<real>, i: nat)
    requires RangeIndexed(df.rows) && Select(df, SELECTED).Ok?
    requires Admitted(df.rows, i, parse)
    ensures REQUIRED <= Select(df, SELECTED).value.columns
    ensures Shortlisted(df, parse).Ok?
    ensures Numeric(Select(df, SELECTED).value, parse).rows[i] in Shortlisted(df, parse).value.rows
  {
    NumericFrame(df, parse);
    var numeric := Numeric(Select(df, SELECTED).value, parse);
    RangeColumnsAreRequired();
    SelectedColumns();
    ShortlistMembers(numeric, REQUIRED, "pl_name", RANGES);
    NumericRow(df, parse, i);
    var x := numeric.rows[i];
    forall y | y in numeric.rows && y.index < x.index && NoneMissing(y, REQUIRED)
      ensures Get(y, "pl_name") != Get(x, "pl_name")
    {
      var j :| 0 <= j < |numeric.rows| && numeric.rows[j] == y;
      NumericRow(df, parse, j);
    }
    assert FirstUsable(numeric.rows, x, REQUIRED, "pl_name");
  }

  /** Each shortlisted row carries the converted values of the source row it came from. */
  lemma ShortlistedRows(df: Frame, parse: string -> Option<real>)
    requires RangeIndexed(df.rows) && Select(df, SELECTED).Ok? && Shortlisted(df, parse).Ok?
    ensures var s := Shortlisted(df, parse).value.rows;
            forall k :: 0 <= k < |s| ==>
              && s[k].index < |df.rows|
              && s[k].cells.Keys <= (set c | c in SELECTED)
              && InRanges(s[k], RANGES)
              && Get(s[k], "pl_orbsmax") == ToNumeric(Get(df.rows[s[k].index], "pl_orbsmax"), parse)
              && Get(s[k], "pl_masse") == ToNumeric(Get(df.rows[s[k].index], "pl_masse"), parse)
              && Get(s[k], "pl_name") == Get(df.rows[s[k].index], "pl_name")
  {
    var s := Shortlisted(df, parse).value.rows;
    forall k | 0 <= k < |s|
      ensures s[k].index < |df.rows|
      ensures s[k].cells.Keys <= (set c | c in SELECTED)
      ensures InRanges(s[k], RANGES)
      ensures Get(s[k], "pl_orbsmax") == ToNumeric(Get(df.rows[s[k].index], "pl_orbsmax"), parse)
      ensures Get(s[k], "pl_masse") == ToNumeric(Get(df.rows[s[k].index], "pl_masse"), parse)
      ensures Get(s[k], "pl_name") == Get(df.rows[s[k].index], "pl_name")
    {
      ShortlistedIsAdmitted(df, parse, s[k]);
      NumericRow(df, parse, s[k].index);
    }
  }

  /** Row m of the converted frame carries source row m. */
  lemma NumericCarriesSource(df: Frame, parse: string -> Option<real>, m: nat)
    requires Select(df, SELECTED).Ok? && m < |df.rows|
    ensures REQUIRED <= Select(df, SELECTED).value.columns
    ensures var numeric := Numeric(Select(df, SELECTED).value, parse);
            |numeric.rows| == |df.rows| && CarriesSource(numeric.rows[m], df.rows[m], parse)
  {
    SelectedColumns();
    var sel := Select(df, SELECTED).value;
    forall col | col in SELECTED
      ensures Get(Numeric(sel, parse).rows[m], col) ==
                if col in REQUIRED then ToNumeric(Get(df.rows[m], col), parse) else Get(df.rows[m], col)
    {
      assert Get(sel.rows[m], col) == Get(df.rows[m], col);
    }
  }

  /** Adding the score columns keeps what a row carries of its source row. */
  lemma ScoringCarriesSource(x: Row, y: Row, src: Row, parse: string -> Option<real>)
    requires CarriesSource(x, src, parse)
    requires forall col :: col !in SCORE_COLS ==> Get(y, col) == Get(x, col)
    ensures CarriesSource(y, src, parse)
  {
    forall col | col in SELECTED
      ensures col !in SCORE_COLS
    {
      SelectedColumns();
    }
  }

  /** Candidate row k keeps every selected cell of its source row, converted as the script does. */
  lemma CandidateCarriesSource(df: Frame, parse: string -> Option<real>, k: nat)
    requires RangeIndexed(df.rows) && Select(df, SELECTED).Ok? && Shortlisted(df, parse).Ok?
    requires k < |Shortlisted(df, parse).value.rows|
    ensures var c := Scored(Shortlisted(df, parse).value).rows;
            && |c| == |Shortlisted(df, parse).value.rows|
            && c[k].index < |df.rows|
            && CarriesSource(c[k], df.rows[c[k].index], parse)
  {
    var s := Shortlisted(df, parse).value;
    var x := s.rows[k];
    ShortlistedIsAdmitted(df, parse, x);
    ScoredCells(s, k);
    NumericCarriesSource(df, parse, x.index);
    ScoringCarriesSource(x, Scored(s).rows[k], df.rows[x.index], parse);
  }

  /** A source row becomes a candidate exactly when it is admitted. */
  lemma AdmittedIffCandidate(df: Frame, parse: string -> Option<real>)
    requires RangeIndexed(df.rows)
    requires (set c | c in SELECTED) <= df.columns
    ensures Candidates(df, parse).Ok?
    ensures forall i :: Admitted(df.rows, i, parse) <==> HasIndex(Candidates(df, parse).value.rows, i)
  {
    NumericFrame(df, parse);
    SelectedColumns();
    var numeric := Numeric(Select(df, SELECTED).value, parse);
    RangeColumnsAreRequired();
    ShortlistMembers(numeric, REQUIRED, "pl_name", RANGES);
    var s := Shortlisted(df, parse).value;
    ScoredRows(s);
    var c := Scored(s);
    assert Candidates(df, parse) == Ok(c);
    forall i
      ensures Admitted(df.rows, i, parse) <==> HasIndex(c.rows, i)
    {
      if Admitted(df.rows, i, parse) {
        AdmittedIsShortlisted(df, parse, i);
        var k :| 0 <= k < |s.rows| && s.rows[k] == numeric.rows[i];
        assert c.rows[k].index == i;
      }
      if HasIndex(c.rows, i) {
        var k :| 0 <= k < |c.rows| && c.rows[k].index == i;
        ShortlistedIsAdmitted(df, parse, s.rows[k]);
      }
    }
  }

  /**
    The candidates are exactly the admitted source rows, each carrying its
    source row's converted values, only the selected and score fields, and the
    scores; no name appears twice.
   */
  lemma CandidatesExactly(df: Frame, parse: string -> Option<real>)
    requires RangeIndexed(df.rows)
    requires (set c | c in SELECTED) <= df.columns
    ensures Candidates(df, parse).Ok?
    ensures var c := Candidates(df, parse).value.rows;
            && UniqueKeys(c, "pl_name")
            && (forall i :: Admitted(df.rows, i, parse) <==> HasIndex(c, i))
            && forall k :: 0 <= k < |c| ==>
                 && c[k].index < |df.rows|
                 && Candidate(c[k].cells)
                 && Get(c[k], "pl_orbsmax") == ToNumeric(Get(df.rows[c[k].index], "pl_orbsmax"), parse)
                 && Get(c[k], "pl_masse") == ToNumeric(Get(df.rows[c[k].index], "pl_masse"), parse)
                 && Get(c[k], "pl_name") == Get(df.rows[c[k].index], "pl_name")
                 && CarriesSource(c[k], df.rows[c[k].index], parse)
  {
    NumericFrame(df, parse);
    var numeric := Numeric(Select(df, SELECTED).value, parse);
    RangeColumnsAreRequired();
    SelectedColumns();
    ShortlistMembers(numeric, REQUIRED, "pl_name", RANGES);
    var s := Shortlisted(df, parse).value;
    ScoredRows(s);
    var c := Scored(s);
    assert Candidates(df, parse) == Ok(c);
    ShortlistedRows(df, parse);
    AdmittedIffCandidate(df, parse);
    forall k | 0 <= k < |s.rows|
      ensures c.rows[k].index < |df.rows|
      ensures CarriesSource(c.rows[k], df.rows[c.rows[k].index], parse)
    {
      CandidateCarriesSource(df, parse, k);
    }
  }

  /** A row whose distance or mass is blank or not a number is never a candidate. */
  lemma MissingNeverCandidate(df: Frame, parse: string -> Option<real>, i: nat)
    requires RangeIndexed(df.rows) && (set c | c in SELECTED) <= df.columns
    requires i < |df.rows|
    requires ToNumeric(Get(df.rows[i], "pl_orbsmax"), parse) == Missing || ToNumeric(Get(df.rows[i], "pl_masse"), parse) == Missing
    ensures Candidates(df, parse).Ok? && !HasIndex(Candidates(df, parse).value.rows, i)
  {
    CandidatesExactly(df, parse);
  }

  /** Sorting a frame of scored candidates by habitability score. */
  lemma SortedCandidates(c: Frame)
    requires UniqueKeys(c.rows, "pl_name")
    requires forall k :: 0 <= k < |c.rows| ==> Candidate(c.rows[k].cells)
    ensures var r := SortValues(c, "habitability_score").rows;
            && UniqueKeys(r, "pl_name")
            && (forall k :: 0 <= k < |r| ==> Candidate(r[k].cells))
            && forall i, j :: 0 <= i <= j < |r| ==>
                 NumLeq(Get(r[i], "habitability_score"), Get(r[j], "habitability_score"))
  {
    SortValuesOrders(c, "habitability_score", "pl_name", x => Candidate(x));
  }

  /**
    The sorted output is a permutation of the candidates, relabelled 0..n-1,
    with non-decreasing habitability score, between 0 and 11.5, and no name twice.
   */
  lemma RankedProperties(df: Frame, parse: string -> Option<real>)
    requires RangeIndexed(df.rows) && (set c | c in SELECTED) <= df.columns
    ensures Ranked(df, parse).Ok?
    ensures var c := Candidates(df, parse).value.rows;
            var r := Ranked(df, parse).value.rows;
            && RangeIndexed(r)
            && multiset(Records(r)) == multiset(Records(c))
            && UniqueKeys(r, "pl_name")
            && (forall k :: 0 <= k < |r| ==> Candidate(r[k].cells))
            && forall i, j :: 0 <= i <= j < |r| ==>
                 NumLeq(Get(r[i], "habitability_score"), Get(r[j], "habitability_score"))
  {
    CandidatesExactly(df, parse);
    SortedCandidates(Candidates(df, parse).value);
  }

  /** `top10` is the first min(10, n) sorted rows, none scoring worse than a row left out. */
  lemma TopTen(df: Frame, parse: string -> Option<real>)
    requires RangeIndexed(df.rows) && (set c | c in SELECTED) <= df.columns
    ensures Top10(df, parse).Ok?
    ensures var r := Ranked(df, parse).value.rows;
            var t := Top10(df, parse).value.rows;
            && |t| == (if |r| < 10 then |r| else 10)
            && (forall k :: 0 <= k < |t| ==> t[k] == r[k])
            && forall i, j :: 0 <= i < |t| <= j < |r| ==>
                 NumLeq(Get(t[i], "habitability_score"), Get(r[j], "habitability_score"))
  {
    RankedProperties(df, parse);
  }

  /** The window around a frame of candidates exists iff the frame has a row, and holds every row. */
  lemma WindowAroundCandidates(f: Frame)
    requires forall k :: 0 <= k < |f.rows| ==> Candidate(f.rows[k].cells)
    ensures AxisWindow(f).Some? <==> |f.rows| > 0
    ensures forall k :: 0 <= k < |f.rows| ==> InWindow(AxisWindow(f), f.rows[k])
  {
    forall k | 0 <= k < |f.rows| ensures InWindow(AxisWindow(f), f.rows[k]) {
      assert Candidate(f.rows[k].cells);
      LimitsHold(f.rows, "pl_orbsmax", BUFFER_X, k);
      LimitsHold(f.rows, "pl_masse", BUFFER_Y, k);
    }
  }

  /**
    When there is at least one candidate the plot window exists, starts at or
    above zero on both axes, and contains every candidate's distance and mass;
    with none, the limits cannot be set.
   */
  lemma WindowContainsCandidates(df: Frame, parse: string -> Option<real>)
    requires RangeIndexed(df.rows) && (set c | c in SELECTED) <= df.columns
    ensures Ranked(df, parse).Ok?
    ensures var r := Ranked(df, parse).value;
            && (AxisWindow(r).Some? <==> |r.rows| > 0)
            && forall k :: 0 <= k < |r.rows| ==> InWindow(AxisWindow(r), r.rows[k])
  {
    RankedProperties(df, parse);
    WindowAroundCandidates(Ranked(df, parse).value);
  }
}
