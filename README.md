# Habitable-exoplanet rankings

Three analysis scripts take the NASA Exoplanet Archive table and rank its planets by how Earth-like they are. Each one runs the same pipeline over a pandas DataFrame:

1. convert the measured columns to numbers, with unparseable values becoming NaN;
2. drop rows with a missing value;
3. keep the first row per planet name (`pl_name`);
4. keep the rows whose values lie inside inclusive ranges;
5. score each row by its distance from an Earth reference;
6. sort by score and take the ten best.

The three scripts differ in their columns, ranges and references:

- **Radius and insolation flux**: radius in [0.5, 1.6] Earth radii and flux in [0.3, 1.7] Earth flux. The score is |radius − 1| + |flux − 1|.
- **Orbital distance and mass**: semi-major axis in [0.5, 3.5] AU and mass in [0.3, 10.0] Earth masses. The score is |distance − 1| + |mass − 1|. The plot window is sized around every candidate.
- **Equilibrium temperature**: the temperature must lie in [175, 310] K, and rows whose temperature is the text `'null'` are dropped. The score is |T − 255|.

The project models those pipelines in Dafny and proves what each promises.

- `frames.dfy` (module `Frames`) holds the DataFrame operations the scripts use:
  - column selection, boolean masks and `to_numeric(errors="coerce")`;
  - `dropna`, `drop_duplicates(keep="first")` and `between`;
  - derived columns.
- A table is a set of column labels plus a sequence of rows.
- Each row carries its index label and a map from column to cell.
- A cell is NaN (`Missing`), a number, or text. A missing column reads as NaN.
- The index label is the `RangeIndex` that `read_csv` assigns. It is what "first occurrence" and "the source row a candidate came from" are stated in terms of.
- A KeyError for an absent column is the error value `MissingColumns`.
- `ranking.dfy` (module `Ranking`) holds `sort_values(col).reset_index(drop=True)` and `head(n)`.
- `radius_insolation.dfy`, `orbit_mass.dfy` and `equilibrium_temp.dfy` hold one pipeline each.
- Each pipeline module gives an independent characterisation of a candidate: the predicate `Admitted` over the source rows. It proves that the pipeline's output is exactly the admitted rows, scored as defined, and then ranked.

## Model

Paths are relative to the repository root.

| member | source | states |
|---|---|---|
| Frames.Select | src/habitable_exo_comparisons/habitable_by_orbDistance_and_mass.py:11 | Fails exactly when a listed column is absent, naming the absent labels. Otherwise the frame has exactly the listed columns. Each row keeps its index label and its cells of the listed columns, and has no other cells. |
| Frames.Where | src/habitable_exo_comparisons/habitable_by_equilibrium_temp.py:14 | A boolean mask keeps exactly the rows satisfying it, in their original label order. |
| Frames.ToNumeric | src/habitable_exo_comparisons/habitable_by_orbDistance_and_mass.py:14-15 | Coercion yields a number or NaN, never text, and leaves numbers unchanged. |
| Frames.ToNumericIdempotent | src/habitable_exo_filtering/habitable_by_radii_and_insolation_flux.py:23 | Coercing an already coerced cell changes nothing. |
| Frames.CoerceColumn | src/habitable_exo_comparisons/habitable_by_orbDistance_and_mass.py:14-15 | Replacing one column by its coercion. Same columns, rows and labels. That column's cell is the coerced source cell, and every other cell is unchanged. |
| Frames.CoerceColumns | src/habitable_exo_filtering/habitable_by_radii_and_insolation_flux.py:21-23 | The cleaning loop as a fold over the listed columns, each coerced only when the frame has it. Specified by CoerceColumnsCells. |
| Frames.CoerceColumnsCells | src/habitable_exo_filtering/habitable_by_radii_and_insolation_flux.py:20-23 | After the loop over the numeric columns, a cell is coerced exactly when its column is listed and present in the frame. Every other cell, the labels and the columns are unchanged. |
| Frames.CoerceNumericColumns | src/habitable_exo_filtering/habitable_by_radii_and_insolation_flux.py:21-23 | The in-place loop, which skips absent columns, computes the same frame as the specification fold, cell by cell as above. |
| Frames.DropNa | src/habitable_exo_filtering/habitable_by_radii_and_insolation_flux.py:26 | Fails exactly when a subset column is absent. Otherwise keeps exactly the rows with no NaN in the subset, in order. |
| Frames.DedupFrom | src/habitable_exo_filtering/habitable_by_radii_and_insolation_flux.py:29 | Keeps only rows of the input whose key is unseen, and no two kept rows share a key. |
| Frames.DedupFromMembers | src/habitable_exo_filtering/habitable_by_radii_and_insolation_flux.py:29 | A row survives exactly when its key is unseen and no row with an earlier label has the same key. |
| Frames.DropDuplicates | src/habitable_exo_comparisons/habitable_by_orbDistance_and_mass.py:21 | Fails exactly when the key column is absent. Otherwise no two rows share a key, and label order is kept. |
| Frames.DropDuplicatesMembers | src/habitable_exo_comparisons/habitable_by_equilibrium_temp.py:23 | The survivors are exactly the first row (by label) of each key. |
| Frames.Between | src/habitable_exo_filtering/habitable_by_radii_and_insolation_flux.py:39-42 | Keeps exactly the rows whose every constrained cell is a number within its bounds, both ends inclusive. A NaN cell is never within bounds. |
| Frames.Shortlist | src/habitable_exo_filtering/habitable_by_radii_and_insolation_flux.py:26-42 | dropna on the subset, then drop_duplicates on the key, then the range mask. Specified by ShortlistFails and ShortlistMembers. |
| Frames.ShortlistFails | src/habitable_exo_filtering/habitable_by_radii_and_insolation_flux.py:26-42 | dropna → drop_duplicates → mask fails exactly when a subset column or the key is absent, and reports which. |
| Frames.ShortlistMembers | src/habitable_exo_comparisons/habitable_by_orbDistance_and_mass.py:18-30 | The shortlist is exactly the rows with no NaN in the subset, with no earlier NaN-free row sharing the key, and in range. Keys are unique and label order is kept. |
| Frames.WithColumn | src/habitable_exo_filtering/habitable_by_radii_and_insolation_flux.py:45-47 | Assigning a derived column sets that cell of every row to the row's expression and leaves every other cell and the labels unchanged. |
| Frames.Deviation | src/habitable_exo_filtering/habitable_by_radii_and_insolation_flux.py:45-46 | `(x - ideal).abs()` is a number exactly when x is. When it is, it is non-negative and equals ±(x − ideal). |
| Frames.Plus | src/habitable_exo_filtering/habitable_by_radii_and_insolation_flux.py:47 | The sum of two score columns is a number exactly when both are, and is then their sum. |
| Ranking.SortRecords | src/habitable_exo_filtering/habitable_by_radii_and_insolation_flux.py:50 | The sorted records are a permutation of the input, ascending in the sort column, with NaN last. |
| Ranking.Renumber | src/habitable_exo_filtering/habitable_by_radii_and_insolation_flux.py:50 | `reset_index(drop=True)` labels rows 0, 1, 2, … and keeps their records. |
| Ranking.SortValues | src/habitable_exo_comparisons/habitable_by_orbDistance_and_mass.py:40 | Same columns, labels 0..n−1, a permutation of the records, and ascending in the column. |
| Ranking.Head | src/habitable_exo_filtering/habitable_by_radii_and_insolation_flux.py:114 | `head(n)` is the first min(n, rows) rows. |
| Ranking.SortValuesKeepsKeysUnique | src/habitable_exo_comparisons/habitable_by_equilibrium_temp.py:38 | Sorting never makes two rows share a unique key. |
| Ranking.SortValuesOrders | src/habitable_exo_comparisons/habitable_by_orbDistance_and_mass.py:40 | When every row satisfies P and has a numeric score, every sorted row still satisfies P, keys stay unique, and scores are non-decreasing. |
| RadiusInsolation.Numeric | src/habitable_exo_filtering/habitable_by_radii_and_insolation_flux.py:20-23 | The frame after the cleaning loop. Specified by NumericFrame, NumericCells and NumericRow. |
| RadiusInsolation.Shortlisted | src/habitable_exo_filtering/habitable_by_radii_and_insolation_flux.py:26-42 | The cleaned, deduplicated, range-filtered frame. Specified by ShortlistedIsAdmitted, AdmittedIsShortlisted and ShortlistedRows. |
| RadiusInsolation.Scored | src/habitable_exo_filtering/habitable_by_radii_and_insolation_flux.py:45-47 | The three score columns. Specified by ScoredCells and ScoredRows. |
| RadiusInsolation.Candidates | src/habitable_exo_filtering/habitable_by_radii_and_insolation_flux.py:20-47 | The scored candidates before sorting. Specified by CandidatesFail, AdmittedIffCandidate and CandidatesExactly. |
| RadiusInsolation.Ranked | src/habitable_exo_filtering/habitable_by_radii_and_insolation_flux.py:50 | The candidates sorted by habitability_score and relabelled. Specified by RankedProperties. |
| RadiusInsolation.TopCandidates | src/habitable_exo_filtering/habitable_by_radii_and_insolation_flux.py:114 | The ten best ranked candidates. Specified by TopTen. |
| RadiusInsolation.NumericFrame | src/habitable_exo_filtering/habitable_by_radii_and_insolation_flux.py:20-23 | The coerced frame keeps the columns, the row count and the `RangeIndex`. |
| RadiusInsolation.NumericCells | src/habitable_exo_filtering/habitable_by_radii_and_insolation_flux.py:20-23 | In the coerced frame, radius and flux are the coerced source cells and the name is untouched. |
| RadiusInsolation.NumericRow | src/habitable_exo_filtering/habitable_by_radii_and_insolation_flux.py:20-42 | A coerced row passes dropna exactly when its source row is usable (both values convert). It passes the mask exactly when the source values are in the Earth-like ranges. |
| RadiusInsolation.ScoredCells | src/habitable_exo_filtering/habitable_by_radii_and_insolation_flux.py:45-47 | In every scored row the source cells are kept, radius_score and flux_score are the deviations from 1 and habitability_score is their sum. |
| RadiusInsolation.ScoredIsCandidate | src/habitable_exo_filtering/habitable_by_radii_and_insolation_flux.py:39-47 | A row scored from one with radius and flux in range is a candidate, with a score in [0, 1.3]. |
| RadiusInsolation.ScoredRows | src/habitable_exo_filtering/habitable_by_radii_and_insolation_flux.py:45-47 | Every in-range row gets radius_score = \|r−1\|, flux_score = \|f−1\| and habitability_score as their sum, which lies in [0, 1.3]. |
| RadiusInsolation.CandidatesFail | src/habitable_exo_filtering/habitable_by_radii_and_insolation_flux.py:21-29 | The run fails exactly when pl_rade, pl_insol or pl_name is absent, and reports which. |
| RadiusInsolation.ShortlistedIsAdmitted | src/habitable_exo_filtering/habitable_by_radii_and_insolation_flux.py:26-42 | Every shortlisted row is the coerced form of an admitted source row. |
| RadiusInsolation.AdmittedIsShortlisted | src/habitable_exo_filtering/habitable_by_radii_and_insolation_flux.py:26-42 | Every admitted source row is shortlisted. |
| RadiusInsolation.ShortlistedRows | src/habitable_exo_filtering/habitable_by_radii_and_insolation_flux.py:20-42 | Each shortlisted row carries its source row's coerced radius and flux and its name. |
| RadiusInsolation.NumericCarriesSource | src/habitable_exo_filtering/habitable_by_radii_and_insolation_flux.py:20-23 | After the cleaning loop, every non-score cell of a row is its source cell, converted exactly when its column is listed and present. |
| RadiusInsolation.CandidateCarriesSource | src/habitable_exo_filtering/habitable_by_radii_and_insolation_flux.py:20-47 | A candidate row keeps every non-score cell of its source row, converted exactly when the cleaning loop converts its column. |
| RadiusInsolation.AdmittedIffCandidate | src/habitable_exo_filtering/habitable_by_radii_and_insolation_flux.py:20-47 | A source row is a candidate if and only if it is admitted. Admitted means both values convert, both are in range, and no earlier usable row has its name. |
| RadiusInsolation.CandidatesExactly | src/habitable_exo_filtering/habitable_by_radii_and_insolation_flux.py:20-47 | The candidates are exactly the admitted rows, with unique names. Each carries every cell of its source row outside the score columns (converted when the loop converts its column) and the scores as defined. |
| RadiusInsolation.MissingNeverCandidate | src/habitable_exo_filtering/habitable_by_radii_and_insolation_flux.py:20-26 | A row whose radius or flux is missing or non-numeric is never a candidate. It is not read as zero. |
| RadiusInsolation.DedupBeforeFilter | src/habitable_exo_filtering/habitable_by_radii_and_insolation_flux.py:26-42 | If a planet's first usable row is out of range, none of its rows is a candidate, even a later in-range duplicate. |
| RadiusInsolation.SortedCandidates | src/habitable_exo_filtering/habitable_by_radii_and_insolation_flux.py:50 | Sorting scored candidates keeps them candidates with unique names, in non-decreasing score. |
| RadiusInsolation.RankedProperties | src/habitable_exo_filtering/habitable_by_radii_and_insolation_flux.py:50 | The sorted output is labelled 0..n−1, is a permutation of the candidates, and has unique names. Every row is a candidate, and scores are non-decreasing. |
| RadiusInsolation.TopTen | src/habitable_exo_filtering/habitable_by_radii_and_insolation_flux.py:114 | The best candidates are the first min(10, n) sorted rows, none scoring worse than a row left out. |
| OrbitMass.Numeric | src/habitable_exo_comparisons/habitable_by_orbDistance_and_mass.py:14-15 | The selected frame with distance and mass coerced. Specified by NumericFrame, NumericRow and NumericCarriesSource. |
| OrbitMass.Shortlisted | src/habitable_exo_comparisons/habitable_by_orbDistance_and_mass.py:11-30 | Selection, coercion, dropna, drop_duplicates and the range mask. Specified by ShortlistedIsAdmitted, AdmittedIsShortlisted and ShortlistedRows. |
| OrbitMass.Scored | src/habitable_exo_comparisons/habitable_by_orbDistance_and_mass.py:35-37 | The three score columns. Specified by ScoredCells and ScoredRows. |
| OrbitMass.Candidates | src/habitable_exo_comparisons/habitable_by_orbDistance_and_mass.py:11-37 | The scored candidates before sorting. Specified by CandidatesFail, AdmittedIffCandidate and CandidatesExactly. |
| OrbitMass.Ranked | src/habitable_exo_comparisons/habitable_by_orbDistance_and_mass.py:40 | The candidates sorted by habitability_score and relabelled. Specified by RankedProperties. |
| OrbitMass.Top10 | src/habitable_exo_comparisons/habitable_by_orbDistance_and_mass.py:94 | The ten best ranked candidates. Specified by TopTen. |
| OrbitMass.AtLeastZero | src/habitable_exo_comparisons/habitable_by_orbDistance_and_mass.py:137-139 | `max(0, x)`: never negative, never below x, and equal to x or to 0. |
| OrbitMass.Values | src/habitable_exo_comparisons/habitable_by_orbDistance_and_mass.py:137-140 | The numbers of a column, NaN skipped. Every number of the column is in it, and each value comes from some row. |
| OrbitMass.Min | src/habitable_exo_comparisons/habitable_by_orbDistance_and_mass.py:137 | The minimum is one of the values and no greater than any. |
| OrbitMass.Max | src/habitable_exo_comparisons/habitable_by_orbDistance_and_mass.py:138 | The maximum is one of the values and no less than any. |
| OrbitMass.Limits | src/habitable_exo_comparisons/habitable_by_orbDistance_and_mass.py:137-140 | An axis's limits exist exactly when the column has a number, and the lower limit is never negative. |
| OrbitMass.LimitsHold | src/habitable_exo_comparisons/habitable_by_orbDistance_and_mass.py:137-140 | Every number is at least one buffer below the upper limit. It is at least one buffer above the lower limit unless that limit was clipped to 0, and a non-negative number is never below it. |
| OrbitMass.LimitsTight | src/habitable_exo_comparisons/habitable_by_orbDistance_and_mass.py:138 | The upper limit is exactly one buffer above some row's value. |
| OrbitMass.AxisWindow | src/habitable_exo_comparisons/habitable_by_orbDistance_and_mass.py:133-143 | The window exists exactly when both columns have a number, and x_min ≥ 0 and y_min ≥ 0. |
| OrbitMass.NumericFrame | src/habitable_exo_comparisons/habitable_by_orbDistance_and_mass.py:11-15 | The selected, coerced frame has exactly the five columns and keeps the row count and the `RangeIndex`. |
| OrbitMass.NumericRow | src/habitable_exo_comparisons/habitable_by_orbDistance_and_mass.py:11-30 | A row keeps only the five selected fields. Distance and mass are the coerced source cells. It passes dropna and the mask exactly when its source row is usable and within range. |
| OrbitMass.ScoredCells | src/habitable_exo_comparisons/habitable_by_orbDistance_and_mass.py:35-37 | In every scored row the source cells are kept, three score fields are added, distance_score and mass_score are the deviations from 1, and habitability_score is their sum. |
| OrbitMass.ScoredIsCandidate | src/habitable_exo_comparisons/habitable_by_orbDistance_and_mass.py:11-37 | A row scored from an in-range row with only the five selected fields is a candidate, with a score in [0, 11.5]. |
| OrbitMass.ScoredRows | src/habitable_exo_comparisons/habitable_by_orbDistance_and_mass.py:35-37 | Every in-range row gets distance_score, mass_score and habitability_score as defined, with a score in [0, 11.5]. |
| OrbitMass.CandidatesFail | src/habitable_exo_comparisons/habitable_by_orbDistance_and_mass.py:11 | The run fails exactly when one of the five selected columns is absent, and reports which. |
| OrbitMass.ShortlistedIsAdmitted | src/habitable_exo_comparisons/habitable_by_orbDistance_and_mass.py:14-30 | Every shortlisted row is the coerced form of an admitted source row. |
| OrbitMass.AdmittedIsShortlisted | src/habitable_exo_comparisons/habitable_by_orbDistance_and_mass.py:14-30 | Every admitted source row is shortlisted. |
| OrbitMass.ShortlistedRows | src/habitable_exo_comparisons/habitable_by_orbDistance_and_mass.py:11-30 | Each shortlisted row has only selected fields, is in range, and carries its source row's coerced values and name. |
| OrbitMass.NumericCarriesSource | src/habitable_exo_comparisons/habitable_by_orbDistance_and_mass.py:11-15 | A converted row holds the five selected cells of its source row, with only distance and mass converted. |
| OrbitMass.CandidateCarriesSource | src/habitable_exo_comparisons/habitable_by_orbDistance_and_mass.py:11-37 | A candidate row keeps name, host, distance, mass and discovery year of its source row, with distance and mass converted. |
| OrbitMass.AdmittedIffCandidate | src/habitable_exo_comparisons/habitable_by_orbDistance_and_mass.py:11-37 | A source row is a candidate if and only if it is admitted. Admitted means both values convert, both are in range, and no earlier usable row has its name. |
| OrbitMass.CandidatesExactly | src/habitable_exo_comparisons/habitable_by_orbDistance_and_mass.py:11-37 | The candidates are exactly the admitted rows, with unique names. Each has only selected and score fields, all five selected cells of its source row (distance and mass converted), and the scores as defined. |
| OrbitMass.MissingNeverCandidate | src/habitable_exo_comparisons/habitable_by_orbDistance_and_mass.py:14-18 | A row whose distance or mass is missing or non-numeric is never a candidate. |
| OrbitMass.SortedCandidates | src/habitable_exo_comparisons/habitable_by_orbDistance_and_mass.py:40 | Sorting scored candidates keeps them candidates with unique names, in non-decreasing score. |
| OrbitMass.RankedProperties | src/habitable_exo_comparisons/habitable_by_orbDistance_and_mass.py:40 | The sorted output is labelled 0..n−1, is a permutation of the candidates, and has unique names. Every row is a candidate, and scores are non-decreasing. |
| OrbitMass.TopTen | src/habitable_exo_comparisons/habitable_by_orbDistance_and_mass.py:94 | top10 is the first min(10, n) sorted rows, none scoring worse than a row left out. |
| OrbitMass.WindowAroundCandidates | src/habitable_exo_comparisons/habitable_by_orbDistance_and_mass.py:137-143 | Over a frame of candidates, the window exists exactly when there is a row. Every row's distance and mass lie inside it. |
| OrbitMass.WindowContainsCandidates | src/habitable_exo_comparisons/habitable_by_orbDistance_and_mass.py:133-143 | The window over the sorted candidates exists exactly when there is one, and it contains every candidate. |
| EquilibriumTemp.NotNull | src/habitable_exo_comparisons/habitable_by_equilibrium_temp.py:14 | The mask `pl_eqt != 'null'`. Its effect is stated by CleanedCells and CleanedKeeps. |
| EquilibriumTemp.Cleaned | src/habitable_exo_comparisons/habitable_by_equilibrium_temp.py:11-17 | Selection, the 'null' mask and coercion. Specified by CleanedFrame, CleanedCells and CleanedKeeps. |
| EquilibriumTemp.Shortlisted | src/habitable_exo_comparisons/habitable_by_equilibrium_temp.py:20-32 | dropna over both columns, drop_duplicates and the range mask. Specified by ShortlistedIsAdmitted, AdmittedIsShortlisted and ShortlistedRows. |
| EquilibriumTemp.Scored | src/habitable_exo_comparisons/habitable_by_equilibrium_temp.py:37 | The temp_score column. Specified by ScoredRows and CandidatesExactly. |
| EquilibriumTemp.Candidates | src/habitable_exo_comparisons/habitable_by_equilibrium_temp.py:11-37 | The scored candidates before sorting. Specified by CandidatesFail, AdmittedIffCandidate and CandidatesExactly. |
| EquilibriumTemp.Ranked | src/habitable_exo_comparisons/habitable_by_equilibrium_temp.py:38 | The candidates sorted by temp_score and relabelled. Specified by RankedProperties. |
| EquilibriumTemp.Top10 | src/habitable_exo_comparisons/habitable_by_equilibrium_temp.py:43 | The ten best ranked candidates, relabelled. Specified by TopTen. |
| EquilibriumTemp.CandidatesFail | src/habitable_exo_comparisons/habitable_by_equilibrium_temp.py:11 | The run fails exactly when pl_name or pl_eqt is absent, and reports which. |
| EquilibriumTemp.CleanedFrame | src/habitable_exo_comparisons/habitable_by_equilibrium_temp.py:11-17 | After selection, the 'null' mask and coercion, the frame has exactly the two columns and increasing labels. |
| EquilibriumTemp.CleanedCells | src/habitable_exo_comparisons/habitable_by_equilibrium_temp.py:11-17 | A cleaned row comes from a source row whose temperature is not 'null'. It has only the two fields, with the coerced temperature and the same name. |
| EquilibriumTemp.CleanedRow | src/habitable_exo_comparisons/habitable_by_equilibrium_temp.py:14-32 | A cleaned row passes `dropna()` exactly when its source row has a name and a convertible, non-'null' temperature. It passes the mask exactly when that temperature is in [175, 310]. |
| EquilibriumTemp.CleanedKeeps | src/habitable_exo_comparisons/habitable_by_equilibrium_temp.py:14 | Every source row whose temperature is not 'null' reaches the cleaned frame. |
| EquilibriumTemp.ShortlistedIsAdmitted | src/habitable_exo_comparisons/habitable_by_equilibrium_temp.py:14-32 | Every shortlisted row is the cleaned form of an admitted source row. |
| EquilibriumTemp.AdmittedRowShortlisted | src/habitable_exo_comparisons/habitable_by_equilibrium_temp.py:20-32 | The cleaned form of an admitted row is shortlisted. |
| EquilibriumTemp.AdmittedIsShortlisted | src/habitable_exo_comparisons/habitable_by_equilibrium_temp.py:14-32 | Every admitted source row is shortlisted. |
| EquilibriumTemp.ShortlistedRows | src/habitable_exo_comparisons/habitable_by_equilibrium_temp.py:11-32 | Each shortlisted row has a name and only the two fields, is in range, and carries its source row's coerced temperature and name. |
| EquilibriumTemp.ScoredRows | src/habitable_exo_comparisons/habitable_by_equilibrium_temp.py:37 | Every named, in-range row gets temp_score = \|T − 255\|, which lies in [0, 80]. |
| EquilibriumTemp.AdmittedIffCandidate | src/habitable_exo_comparisons/habitable_by_equilibrium_temp.py:11-37 | A source row is a candidate if and only if it is admitted. Admitted means it is not 'null', has a name, its temperature converts and is in range, and no earlier usable row has its name. |
| EquilibriumTemp.CandidatesExactly | src/habitable_exo_comparisons/habitable_by_equilibrium_temp.py:11-37 | The candidates are exactly the admitted rows, with unique names. Each carries its source row's temperature and the score as defined. |
| EquilibriumTemp.UnusableNeverCandidate | src/habitable_exo_comparisons/habitable_by_equilibrium_temp.py:14-20 | A row with a 'null' or non-numeric temperature, or with no name, is never a candidate. |
| EquilibriumTemp.SortedCandidates | src/habitable_exo_comparisons/habitable_by_equilibrium_temp.py:38 | Sorting scored candidates keeps them candidates with unique names, in non-decreasing temp_score. |
| EquilibriumTemp.RankedProperties | src/habitable_exo_comparisons/habitable_by_equilibrium_temp.py:38 | The sorted output is labelled 0..n−1, is a permutation of the candidates, and has unique names. Every row is a candidate, and temp_score is non-decreasing. |
| EquilibriumTemp.TopTen | src/habitable_exo_comparisons/habitable_by_equilibrium_temp.py:43 | top10 is the first min(10, n) sorted rows, labelled 0..9, none scoring worse than a row left out. |
| EquilibriumTemp.IdealTemperatureFirst | src/habitable_exo_comparisons/habitable_by_equilibrium_temp.py:37-38 | A planet at exactly 255 K is ranked ahead of every planet at another temperature. |

## Left out

- Ranking.SortValues: the order of rows with equal scores is not specified. The scripts call `sort_values` with pandas' default quicksort, which is not stable. The model sorts by insertion but promises only sortedness and permutation.
- Reading and writing CSV files, `print` calls and the preview tables are not modelled. The input is an already-parsed frame.
  - `head(5)` and `head(20)` are previews only.
  - The displayed column lists are display-only (habitable_by_radii_and_insolation_flux.py:60-66, habitable_by_orbDistance_and_mass.py:49, habitable_by_equilibrium_temp.py:46).
- How `read_csv` and `to_numeric` read text as a number is not modelled. It is the parameter `parse`.
- `read_csv` already turns the text `null` into NaN by default. The model keeps the `'null'` mask for frames whose cells still hold that text.
- All plotting, styling, the colorbar and the legend are left out, as are the per-planet label offsets.
  - The equilibrium-temperature colorbar label mentions 288 K, but the score uses 255 K (habitable_by_equilibrium_temp.py:37). The model follows the score.
  - Only the axis limits of the orbit/mass plot are modelled, as `OrbitMass.AxisWindow`.
  - `set_xlim` with NaN limits raises. This is modelled as the window being `None`.
- Scores are real numbers. IEEE-754 rounding of the differences and sums is not modelled.
- Column order is not modelled. A frame's columns are a set, so a selection's column order is not kept.
- A KeyError reports the labels missing at the first failing step, as pandas does.
- `copy()` calls are not modelled. Frames are values, so there is no aliasing.
- data/importing_raw_data.py (a network download) is not part of this model.
- src/historical_earth_trends/historical_CO2_trends.py (a download, a rolling mean and a polynomial fit) is not part of this model.
