/**
  The conservative ranking by planet radius and insolation flux: coerce the
  numeric columns, drop rows missing `pl_rade` or `pl_insol`, keep the first
  row per `pl_name`, keep radii in [0.5, 1.6] Earth radii and fluxes in
  [0.3, 1.7] Earth flux, score each planet by |radius - 1| + |flux - 1|,
  sort by that score and show the ten best.
 */
module RadiusInsolation {
  import opened Frames
  import opened Ranking

  /** The columns the cleaning loop converts to numbers when the file has them. */
  const NUMERIC_COLS: seq<string> := ["pl_rade", "pl_insol", "pl_orbper", "pl_orbsma", "st_teff", "st_rad"]
  /** The columns a row must have a value in. */
  const REQUIRED: set<string> := {"pl_rade", "pl_insol"}
  const RANGES: seq<Range> := [Range("pl_rade", 0.5, 1.6), Range("pl_insol", 0.3, 1.7)]
  const TOP_N: nat := 10
  /** The columns scoring adds. */
  const SCORE_COLS: set<string> := {"radius_score", "flux_score", "habitability_score"}

  /** The radius, flux and combined habitability score columns. */
  function Scored(df: Frame): Frame {
    var withRadius := WithColumn(df, "radius_score", r => Deviation(Get(r, "pl_rade"), 1.0));
    var withFlux := WithColumn(withRadius, "flux_score", r => Deviation(Get(r, "pl_insol"), 1.0));
    WithColumn(withFlux, "habitability_score", r => Plus(Get(r, "radius_score"), Get(r, "flux_score")))
  }

  /** The frame after the cleaning loop has converted the numeric columns. */
  function Numeric(df: Frame, parse: string -> Option<real>): Frame {
    CoerceColumns(df, NUMERIC_COLS, parse)
  }

  /** Missing values dropped, first row per name kept, Earth-like ranges applied. */
  function Shortlisted(df: Frame, parse: string -> Option<real>): Result<Frame> {
    Shortlist(Numeric(df, parse), REQUIRED, "pl_name", RANGES)
  }

  /** The filtered, scored candidates before sorting. */
  function Candidates(df: Frame, parse: string -> Option<real>): Result<Frame> {
    var shortlisted :- Shortlisted(df, parse);
    Ok(Scored(shortlisted))
  }

  /** The candidates sorted by habitability score, relabelled 0, 1, 2, ... */
  function Ranked(df: Frame, parse: string -> Option<real>): Result<Frame> {
    var candidates :- Candidates(df, parse);
    Ok(SortValues(candidates, "habitability_score"))
  }

  /** The best candidates highlighted and printed. */
  function TopCandidates(df: Frame, parse: string -> Option<real>): Result<Frame> {
    var ranked :- Ranked(df, parse);
    Ok(Head(ranked, TOP_N))
  }

  // ---------------------------------------------------------------- specification

  /** Both numeric columns of a source row convert to numbers. */
  ghost predicate Usable(r: Row, parse: string -> Option<real>) {
    ToNumeric(Get(r, "pl_rade"), parse).Num? && ToNumeric(Get(r, "pl_insol"), parse).Num?
  }

  /** Both numeric columns of a source row convert to numbers within the Earth-like ranges. */
  ghost predicate EarthLike(r: Row, parse: string -> Option<real>) {
    InRange(ToNumeric(Get(r, "pl_rade"), parse), 0.5, 1.6) && InRange(ToNumeric(Get(r, "pl_insol"), parse), 0.3, 1.7)
  }

  /**
    Source row i becomes a candidate: it is usable and Earth-like, and no
    earlier usable row has its name. Note that the earlier row need not be
    Earth-like.
   */
  ghost predicate Admitted(rows: seq<Row>, i: int, parse: string -> Option<real>) {
    && 0 <= i < |rows|
    && Usable(rows[i], parse)
    && EarthLike(rows[i], parse)
    && forall j :: 0 <= j < i && Usable(rows[j], parse) ==> Get(rows[j], "pl_name") != Get(rows[i], "pl_name")
  }

  /** A scored candidate row: values in range and the three score columns as defined. */
  ghost predicate Candidate(r: Record) {
    && InRange(Lookup(r, "pl_rade"), 0.5, 1.6)
    && InRange(Lookup(r, "pl_insol"), 0.3, 1.7)
    && Lookup(r, "radius_score") == Num(Abs(Lookup(r, "pl_rade").value - 1.0))
    && Lookup(r, "flux_score") == Num(Abs(Lookup(r, "pl_insol").value - 1.0))
    && Lookup(r, "habitability_score") == Num(Lookup(r, "radius_score").value + Lookup(r, "flux_score").value)
    && InRange(Lookup(r, "habitability_score"), 0.0, 1.3)
  }

  /**
    Every cell of `y` outside the score columns is the cell of source row
    `src`, converted to a number when the cleaning loop converts its column.
   */
  ghost predicate CarriesSource(y: Row, src: Row, columns: set<string>, parse: string -> Option<real>) {
    forall col :: col !in SCORE_COLS ==>
      Get(y, col) == if col in NUMERIC_COLS && col in columns then ToNumeric(Get(src, col), parse) else Get(src, col)
  }

  // ---------------------------------------------------------------- proofs

  lemma RangeColumnsAreRequired()
    ensures RangeColumns(RANGES) == REQUIRED
  {
    assert RANGES[0].col in RangeColumns(RANGES);
    assert RANGES[1].col in RangeColumns(RANGES);
  }

  /** The coerced frame keeps the columns, the row count and the RangeIndex. */
  lemma NumericFrame(df: Frame, parse: string -> Option<real>)
    requires RangeIndexed(df.rows)
    ensures var numeric := Numeric(df, parse);
            && numeric.columns == df.columns
            && |numeric.rows| == |df.rows|
            && RangeIndexed(numeric.rows)
            && IndexIncreasing(numeric.rows)
  {
    CoerceColumnsCells(df, NUMERIC_COLS, parse);
  }

  /** The cells of row m of the coerced frame that the filters read. */
  lemma NumericCells(df: Frame, parse: string -> Option<real>, m: nat)
    requires REQUIRED <= df.columns && m < |df.rows|
    ensures var numeric := Numeric(df, parse);
            && |numeric.rows| == |df.rows|
            && Get(numeric.rows[m], "pl_rade") == ToNumeric(Get(df.rows[m], "pl_rade"), parse)
            && Get(numeric.rows[m], "pl_insol") == ToNumeric(Get(df.rows[m], "pl_insol"), parse)
            && Get(numeric.rows[m], "pl_name") == Get(df.rows[m], "pl_name")
  {
    CoerceColumnsCells(df, NUMERIC_COLS, parse);
    assert "pl_rade" in NUMERIC_COLS && "pl_insol" in NUMERIC_COLS;
    assert "pl_name" !in NUMERIC_COLS;
  }

  /** Row m of the coerced frame in terms of source row m. */
  lemma NumericRow(df: Frame, parse: string -> Option<real>, m: nat)
    requires REQUIRED <= df.columns && m < |df.rows|
    ensures var numeric := Numeric(df, parse);
            && |numeric.rows| == |df.rows|
            && Get(numeric.rows[m], "pl_rade") == ToNumeric(Get(df.rows[m], "pl_rade"), parse)
            && Get(numeric.rows[m], "pl_insol") == ToNumeric(Get(df.rows[m], "pl_insol"), parse)
            && Get(numeric.rows[m], "pl_name") == Get(df.rows[m], "pl_name")
            && (NoneMissing(numeric.rows[m], REQUIRED) <==> Usable(df.rows[m], parse))
            && (InRanges(numeric.rows[m], RANGES) <==> EarthLike(df.rows[m], parse))
  {
    NumericCells(df, parse, m);
    var x := Numeric(df, parse).rows[m];
    assert NoneMissing(x, REQUIRED) <==> Get(x, "pl_rade") != Missing && Get(x, "pl_insol") != Missing;
    assert InRanges(x, RANGES) <==> InRange(Get(x, "pl_rade"), 0.5, 1.6) && InRange(Get(x, "pl_insol"), 0.3, 1.7) by {
      assert RANGES[0] in RANGES && RANGES[1] in RANGES;
    }
  }

  /** Row k of the scored frame: the source cells kept and the three scores computed from them. */
  lemma ScoredCells(df: Frame, k: nat)
    requires k < |df.rows|
    ensures var y := Scored(df).rows[k];
            var x := df.rows[k];
            && |Scored(df).rows| == |df.rows|
            && y.index == x.index
            && Get(y, "pl_rade") == Get(x, "pl_rade")
            && Get(y, "pl_insol") == Get(x, "pl_insol")
            && Get(y, "pl_name") == Get(x, "pl_name")
            && Get(y, "radius_score") == Deviation(Get(x, "pl_rade"), 1.0)
            && Get(y, "flux_score") == Deviation(Get(x, "pl_insol"), 1.0)
            && Get(y, "habitability_score") == Plus(Get(y, "radius_score"), Get(y, "flux_score"))
            && forall col :: col !in SCORE_COLS ==> Get(y, col) == Get(x, col)
  {
    var radius := WithColumn(df, "radius_score", r => Deviation(Get(r, "pl_rade"), 1.0));
    var flux := WithColumn(radius, "flux_score", r => Deviation(Get(r, "pl_insol"), 1.0));
    assert Get(radius.rows[k], "radius_score") == Deviation(Get(df.rows[k], "pl_rade"), 1.0);
    assert Get(flux.rows[k], "flux_score") == Deviation(Get(df.rows[k], "pl_insol"), 1.0);
  }

  /** A row scored from an Earth-like row is a candidate. */
  lemma ScoredIsCandidate(x: Row, y: Row)
    requires InRanges(x, RANGES)
    requires Get(y, "pl_rade") == Get(x, "pl_rade") && Get(y, "pl_insol") == Get(x, "pl_insol")
    requires Get(y, "radius_score") == Deviation(Get(x, "pl_rade"), 1.0)
    requires Get(y, "flux_score") == Deviation(Get(x, "pl_insol"), 1.0)
    requires Get(y, "habitability_score") == Plus(Get(y, "radius_score"), Get(y, "flux_score"))
    ensures Candidate(y.cells)
  {
    assert RANGES[0] in RANGES && RANGES[1] in RANGES;
  }

  /** Scoring keeps the rows and their values and adds the score columns. */
  lemma ScoredRows(df: Frame)
    ensures var s := Scored(df);
            && |s.rows| == |df.rows|
            && forall k :: 0 <= k < |df.rows| ==>
                 && s.rows[k].index == df.rows[k].index
                 && Get(s.rows[k], "pl_rade") == Get(df.rows[k], "pl_rade")
                 && Get(s.rows[k], "pl_insol") == Get(df.rows[k], "pl_insol")
                 && Get(s.rows[k], "pl_name") == Get(df.rows[k], "pl_name")
                 && (InRanges(df.rows[k], RANGES) ==> Candidate(s.rows[k].cells))
  {
    forall k | 0 <= k < |df.rows|
      ensures InRanges(df.rows[k], RANGES) ==> Candidate(Scored(df).rows[k].cells)
    {
      ScoredCells(df, k);
      if InRanges(df.rows[k], RANGES) {
        ScoredIsCandidate(df.rows[k], Scored(df).rows[k]);
      }
    }
  }

  /** The run stops with KeyError exactly when `pl_rade`, `pl_insol` or `pl_name` is absent. */
  lemma CandidatesFail(df: Frame, parse: string -> Option<real>)
    ensures Candidates(df, parse).Err? <==> !({"pl_rade", "pl_insol", "pl_name"} <= df.columns)
    ensures !(REQUIRED <= df.columns) ==> Candidates(df, parse) == Err(MissingColumns(REQUIRED - df.columns))
    ensures REQUIRED <= df.columns && "pl_name" !in df.columns ==> Candidates(df, parse) == Err(MissingColumns({"pl_name"}))
  {
    var numeric := Numeric(df, parse);
    CoerceColumnsCells(df, NUMERIC_COLS, parse);
    RangeColumnsAreRequired();
    ShortlistFails(numeric, REQUIRED, "pl_name", RANGES);
  }

  /** Every shortlisted row is the coerced form of an admitted source row. */
  lemma ShortlistedIsAdmitted(df: Frame, parse: string -> Option<real>, x: Row)
    requires RangeIndexed(df.rows) && {"pl_name", "pl_rade", "pl_insol"} <= df.columns
    requires Shortlisted(df, parse).Ok? && x in Shortlisted(df, parse).value.rows
    ensures x.index < |df.rows| && x == Numeric(df, parse).rows[x.index]
    ensures Admitted(df.rows, x.index, parse)
  {
    var numeric := Numeric(df, parse);
    NumericFrame(df, parse);
    RangeColumnsAreRequired();
    ShortlistMembers(numeric, REQUIRED, "pl_name", RANGES);
    var m :| 0 <= m < |numeric.rows| && numeric.rows[m] == x;
    NumericRow(df, parse, m);
    forall j | 0 <= j < m && Usable(df.rows[j], parse)
      ensures Get(df.rows[j], "pl_name") != Get(df.rows[m], "pl_name")
    {
      NumericRow(df, parse, j);
      assert numeric.rows[j] in numeric.rows;
    }
  }

  /** Every admitted source row is shortlisted, in its coerced form. */
  lemma AdmittedIsShortlisted(df: Frame, parse: string -> Option<real>, i: nat)
    requires RangeIndexed(df.rows) && {"pl_name", "pl_rade", "pl_insol"} <= df.columns
    requires Admitted(df.rows, i, parse)
    ensures Shortlisted(df, parse).Ok? && Numeric(df, parse).rows[i] in Shortlisted(df, parse).value.rows
  {
    var numeric := Numeric(df, parse);
    NumericFrame(df, parse);
    RangeColumnsAreRequired();
    ShortlistMembers(numeric, REQUIRED, "pl_name", RANGES);
    NumericRow(df, parse, i);
    var x := numeric.rows[i];
    forall y | y in numeric.rows && y.index < x.index && NoneMissing(y, REQUIRED)
      ensures Get(y, "pl_name") != Get(x, "pl_name")
    {
      var j :| 0 <= j < |numeric.rows| && numeric.rows[j] == y;
      NumericRow(df, parse, j);
    }
    assert FirstUsable(numeric.rows, x, REQUIRED, "pl_name");
  }

  /** Each shortlisted row carries the converted values of the source row it came from. */
  lemma ShortlistedRows(df: Frame, parse: string -> Option<real>)
    requires RangeIndexed(df.rows) && REQUIRED <= df.columns && Shortlisted(df, parse).Ok?
    ensures var s := Shortlisted(df, parse).value.rows;
            forall k :: 0 <= k < |s| ==>
              && s[k].index < |df.rows|
              && Get(s[k], "pl_rade") == ToNumeric(Get(df.rows[s[k].index], "pl_rade"), parse)
              && Get(s[k], "pl_insol") == ToNumeric(Get(df.rows[s[k].index], "pl_insol"), parse)
              && Get(s[k], "pl_name") == Get(df.rows[s[k].index], "pl_name")
  {
    var s := Shortlisted(df, parse).value.rows;
    forall k | 0 <= k < |s|
      ensures s[k].index < |df.rows|
      ensures Get(s[k], "pl_rade") == ToNumeric(Get(df.rows[s[k].index], "pl_rade"), parse)
      ensures Get(s[k], "pl_insol") == ToNumeric(Get(df.rows[s[k].index], "pl_insol"), parse)
      ensures Get(s[k], "pl_name") == Get(df.rows[s[k].index], "pl_name")
    {
      ShortlistedIsAdmitted(df, parse, s[k]);
      NumericCells(df, parse, s[k].index);
    }
  }

  /** Row m of the frame after the cleaning loop carries source row m. */
  lemma NumericCarriesSource(df: Frame, parse: string -> Option<real>, m: nat)
    requires m < |df.rows|
    ensures var numeric := Numeric(df, parse);
            |numeric.rows| == |df.rows| && CarriesSource(numeric.rows[m], df.rows[m], df.columns, parse)
  {
    CoerceColumnsCells(df, NUMERIC_COLS, parse);
  }

  /** Adding the score columns keeps what a row carries of its source row. */
  lemma ScoringCarriesSource(x: Row, y: Row, src: Row, columns: set<string>, parse: string -> Option<real>)
    requires CarriesSource(x, src, columns, parse)
    requires forall col :: col !in SCORE_COLS ==> Get(y, col) == Get(x, col)
    ensures CarriesSource(y, src, columns, parse)
  {
  }

  /** Candidate row k keeps every cell of its source row, converted as by the cleaning loop. */
  lemma CandidateCarriesSource(df: Frame, parse: string -> Option<real>, k: nat)
    requires RangeIndexed(df.rows) && REQUIRED <= df.columns && Shortlisted(df, parse).Ok?
    requires k < |Shortlisted(df, parse).value.rows|
    ensures var c := Scored(Shortlisted(df, parse).value).rows;
            && |c| == |Shortlisted(df, parse).value.rows|
            && c[k].index < |df.rows|
            && CarriesSource(c[k], df.rows[c[k].index], df.columns, parse)
  {
    var s := Shortlisted(df, parse).value;
    var x := s.rows[k];
    ShortlistedIsAdmitted(df, parse, x);
    ScoredCells(s, k);
    NumericCarriesSource(df, parse, x.index);
    ScoringCarriesSource(x, Scored(s).rows[k], df.rows[x.index], df.columns, parse);
  }

  /** A source row becomes a candidate exactly when it is admitted. */
  lemma AdmittedIffCandidate(df: Frame, parse: string -> Option<real>)
    requires RangeIndexed(df.rows)
    requires {"pl_name", "pl_rade", "pl_insol"} <= df.columns
    ensures Candidates(df, parse).Ok?
    ensures forall i :: Admitted(df.rows, i, parse) <==> HasIndex(Candidates(df, parse).value.rows, i)
  {
    NumericFrame(df, parse);
    RangeColumnsAreRequired();
    ShortlistMembers(Numeric(df, parse), REQUIRED, "pl_name", RANGES);
    var s := Shortlisted(df, parse).value;
    ScoredRows(s);
    var c := Scored(s);
    assert Candidates(df, parse) == Ok(c);
    forall i
      ensures Admitted(df.rows, i, parse) <==> HasIndex(c.rows, i)
    {
      if Admitted(df.rows, i, parse) {
        AdmittedIsShortlisted(df, parse, i);
        var k :| 0 <= k < |s.rows| && s.rows[k] == Numeric(df, parse).rows[i];
        assert c.rows[k].index == i;
      }
      if HasIndex(c.rows, i) {
        var k :| 0 <= k < |c.rows| && c.rows[k].index == i;
        ShortlistedIsAdmitted(df, parse, s.rows[k]);
      }
    }
  }

  /**
    The candidates are exactly the admitted source rows, each carrying its
    source row's converted values and the score columns, with no name twice.
   */
  lemma CandidatesExactly(df: Frame, parse: string -> Option<real>)
    requires RangeIndexed(df.rows)
    requires {"pl_name", "pl_rade", "pl_insol"} <= df.columns
    ensures Candidates(df, parse).Ok?
    ensures var c := Candidates(df, parse).value.rows;
            && UniqueKeys(c, "pl_name")
            && (forall i :: Admitted(df.rows, i, parse) <==> HasIndex(c, i))
            && forall k :: 0 <= k < |c| ==>
                 && c[k].index < |df.rows|
                 && Candidate(c[k].cells)
                 && Get(c[k], "pl_rade") == ToNumeric(Get(df.rows[c[k].index], "pl_rade"), parse)
                 && Get(c[k], "pl_insol") == ToNumeric(Get(df.rows[c[k].index], "pl_insol"), parse)
                 && Get(c[k], "pl_name") == Get(df.rows[c[k].index], "pl_name")
                 && CarriesSource(c[k], df.rows[c[k].index], df.columns, parse)
  {
    NumericFrame(df, parse);
    RangeColumnsAreRequired();
    ShortlistMembers(Numeric(df, parse), REQUIRED, "pl_name", RANGES);
    var s := Shortlisted(df, parse).value;
    ScoredRows(s);
    assert Candidates(df, parse) == Ok(Scored(s));
    ShortlistedRows(df, parse);
    AdmittedIffCandidate(df, parse);
    forall k | 0 <= k < |s.rows|
      ensures Scored(s).rows[k].index < |df.rows|
      ensures CarriesSource(Scored(s).rows[k], df.rows[Scored(s).rows[k].index], df.columns, parse)
    {
      CandidateCarriesSource(df, parse, k);
    }
  }

  /** A row whose radius or flux is blank or not a number is never a candidate: it is not read as zero. */
  lemma MissingNeverCandidate(df: Frame, parse: string -> Option<real>, i: nat)
    requires RangeIndexed(df.rows) && {"pl_name", "pl_rade", "pl_insol"} <= df.columns
    requires i < |df.rows|
    requires ToNumeric(Get(df.rows[i], "pl_rade"), parse) == Missing || ToNumeric(Get(df.rows[i], "pl_insol"), parse) == Missing
    ensures Candidates(df, parse).Ok? && !HasIndex(Candidates(df, parse).value.rows, i)
  {
    CandidatesExactly(df, parse);
  }

  /**
    Duplicates go before the range filter: when the first usable row of a
    planet is out of range, a later in-range row of the same planet is not a
    candidate either.
   */
  lemma DedupBeforeFilter(df: Frame, parse: string -> Option<real>, i: nat, j: nat)
    requires RangeIndexed(df.rows) && {"pl_name", "pl_rade", "pl_insol"} <= df.columns
    requires i < j < |df.rows|
    requires Usable(df.rows[i], parse) && !EarthLike(df.rows[i], parse)
    requires Get(df.rows[i], "pl_name") == Get(df.rows[j], "pl_name")
    ensures Candidates(df, parse).Ok?
    ensures !HasIndex(Candidates(df, parse).value.rows, i) && !HasIndex(Candidates(df, parse).value.rows, j)
  {
    CandidatesExactly(df, parse);
  }

  /**
    The sorted output is a permutation of the candidates, relabelled 0..n-1,
    with non-decreasing habitability score, between 0 and 1.3, and no name twice.
   */
  lemma RankedProperties(df: Frame, parse: string -> Option<real>)
    requires RangeIndexed(df.rows) && {"pl_name", "pl_rade", "pl_insol"} <= df.columns
    ensures Ranked(df, parse).Ok?
    ensures var c := Candidates(df, parse).value.rows;
            var r := Ranked(df, parse).value.rows;
            && RangeIndexed(r)
            && multiset(Records(r)) == multiset(Records(c))
            && UniqueKeys(r, "pl_name")
            && (forall k :: 0 <= k < |r| ==> Candidate(r[k].cells))
            && forall i, j :: 0 <= i <= j < |r| ==>
                 NumLeq(Get(r[i], "habitability_score"), Get(r[j], "habitability_score"))
  {
    CandidatesExactly(df, parse);
    SortedCandidates(Candidates(df, parse).value);
  }

  /** Sorting a frame of scored candidates by habitability score. */
  lemma SortedCandidates(c: Frame)
    requires UniqueKeys(c.rows, "pl_name")
    requires forall k :: 0 <= k < |c.rows| ==> Candidate(c.rows[k].cells)
    ensures var r := SortValues(c, "habitability_score").rows;
            && UniqueKeys(r, "pl_name")
            && (forall k :: 0 <= k < |r| ==> Candidate(r[k].cells))
            && forall i, j :: 0 <= i <= j < |r| ==>
                 NumLeq(Get(r[i], "habitability_score"), Get(r[j], "habitability_score"))
  {
    SortValuesOrders(c, "habitability_score", "pl_name", x => Candidate(x));
  }

  /** The top candidates are the first min(10, n) sorted rows, none scoring worse than a row left out. */
  lemma TopTen(df: Frame, parse: string -> Option<real>)
    requires RangeIndexed(df.rows) && {"pl_name", "pl_rade", "pl_insol"} <= df.columns
    ensures TopCandidates(df, parse).Ok?
    ensures var r := Ranked(df, parse).value.rows;
            var t := TopCandidates(df, parse).value.rows;
            && |t| == (if |r| < 10 then |r| else 10)
            && (forall k :: 0 <= k < |t| ==> t[k] == r[k])
            && forall i, j :: 0 <= i < |t| <= j < |r| ==>
                 NumLeq(Get(t[i], "habitability_score"), Get(r[j], "habitability_score"))
  {
    RankedProperties(df, parse);
  }
}
