# SecureCheck police dashboard: prediction and report catalog

This project is a Dafny model of the logic inside the SecureCheck dashboard
(`streamlit.py`). The dashboard is a page over a `ledger` table of traffic-stop
records. The model covers three pieces of it:

- **The "Predict stop outcome and violation" form.** The submitted stop has a
  gender, an age, a stop duration and two yes/no flags. The flags arrive as
  the select-box options `"0"` / `"1"` and go through integer conversion. The
  historical rows whose five columns all equal these values are kept. The
  prediction is the most frequent `violation` and the most frequent
  `stop_outcome` among the kept rows. When no row is kept, the prediction is
  the fixed pair violation `"speeding"`, outcome `"warning"`
  (modules `Ledger`, `Tally`, `Prediction`).
- **The two flag phrases of the summary sentence**: "a search was conducted" /
  "no search was conducted" and "was drug-related" / "was not drug-related"
  (module `Prediction`).
- **The "Advanced Queries" catalog**: the report names offered in the select
  box, and the map from report name to query text. The model proves the lookup
  made when "Run" is pressed always finds its name (module `Reports`). The
  query texts are kept as opaque strings.

Everything is pure functions over immutable values. The loaded table is a
`seq<StopRecord>`. A request is a `Request` value. The prediction is a
`PredictionResult` value.

The model follows the code in one place where a stricter design could be
expected: the code does not check the request for an out-of-range age or
gender. The form's widgets restrict those, and the filter is defined for any
values.

The model departs from the running program in two places:
- Ties between equally frequent values: the data-frame library returns the
  smallest of the tied values, while `Tally.Mode` promises only some value of
  maximal count (its body returns the earliest tied value in row order).
- An unknown report name: the dictionary lookup raises a key error, while
  `Reports.GetTemplate` returns `UnknownReport`.

## Model

| member | source | states |
|---|---|---|
| `Tally.Count` | streamlit.py:180-181 | the frequency the vote ranks by never exceeds the column's length; its full meaning is given by `Tally.CountIsMultiplicity` |
| `Tally.CountIsMultiplicity` | streamlit.py:180-181 | the count of a value equals its multiplicity in the column's multiset, an independent definition of frequency |
| `Tally.CountPositiveIffMember` | streamlit.py:180-181 | a value has a positive count exactly when it occurs in the column |
| `Tally.Mode` | streamlit.py:180-181 | the chosen value of a non-empty column occurs in it, and no value occurs more often |
| `Tally.UniqueModeIsChosen` | streamlit.py:179-181 | when one value is strictly more frequent than every other, that value is the one chosen |
| `Ledger.FlagText` | streamlit.py:161 | the text of a 0/1 flag is one of the two options the select boxes offer (the drug box at line 163 offers the same two) |
| `Ledger.FlagInt` | streamlit.py:174-176 | integer conversion of a "0"/"1" option yields 0 or 1, and converting back gives the same option |
| `Ledger.KeyOf` | streamlit.py:171-177 | the match key's two flags are 0/1 values whose text is the submitted option; gender, age and duration are the submitted ones |
| `Ledger.Matches` | streamlit.py:172-176 | a row matches exactly when its own key of five compared columns (gender, age, search flag, duration, drug flag) equals the given key |
| `Ledger.Filter` | streamlit.py:171-177 | a row is kept exactly when it is in the data and matches all five compared columns; never more rows than the data |
| `Ledger.MatchingIndices` | streamlit.py:171-177 | the kept positions are in range, strictly increasing, and are exactly the positions of matching rows |
| `Ledger.FilterIsMatchingSubsequence` | streamlit.py:171-177 | the kept rows are the rows at the matching positions, unchanged and in their original order |
| `Ledger.SurvivesIff` | streamlit.py:171-177 | a row survives exactly when gender, age and duration equal the submitted ones and its flags equal the integer conversions of the submitted options |
| `Ledger.FilterKeepsMultiplicity` | streamlit.py:171-177 | a matching row appears in the result as often as in the data; a non-matching row not at all |
| `Ledger.FilterKeepsAllWhenAllMatch` | streamlit.py:171-177 | when every row matches, the result is the data itself |
| `Ledger.FilterSnoc` | streamlit.py:171-177 | a row appended to the data is appended to the result exactly when it matches |
| `Prediction.Violations` | streamlit.py:181 | the selected `violation` column has one entry per filtered row, the i-th being that row's violation |
| `Prediction.Outcomes` | streamlit.py:180 | the selected `stop_outcome` column has one entry per filtered row, the i-th being that row's outcome |
| `Prediction.Predict` | streamlit.py:170-184 | no matching row gives ("speeding", "warning"); otherwise the violation and the outcome are each a most frequent value of their column among the matching rows |
| `Prediction.NoMatchFallsBack` | streamlit.py:182-184 | when no row of the data matches the request, the prediction is exactly violation "speeding", outcome "warning" |
| `Prediction.PredictedOutcomeIsMatchingMajority` | streamlit.py:179-180 | when some row matches, the predicted outcome is the outcome of a matching row and no outcome is more frequent among the matching rows |
| `Prediction.PredictedViolationIsMatchingMajority` | streamlit.py:179-181 | when some row matches, the predicted violation is the violation of a matching row and no violation is more frequent among the matching rows |
| `Prediction.PredictOnAllMatching` | streamlit.py:170-181 | when every row matches, the two votes run over the whole data |
| `Prediction.ScenarioMajorityViolation` | streamlit.py:170-181 | three matching rows with violations speeding, speeding, parking, plus one row of another age, predict violation speeding |
| `Prediction.PredictedPairNeedNotCoOccur` | streamlit.py:180-181 | the two votes are independent: four matching rows can predict a (violation, outcome) pair that no single row has |
| `Prediction.SearchPhrase` | streamlit.py:187 | the phrase is "a search was conducted" exactly when the option is "1", and "no search was conducted" exactly when it is "0" |
| `Prediction.DrugPhrase` | streamlit.py:188 | the phrase is "was drug-related" exactly when the option is "1", and "was not drug-related" exactly when it is "0" |
| `Reports.GetTemplate` | streamlit.py:140 | a name is found exactly when it is a catalog key, with that key's query text; any other name yields `UnknownReport` carrying the name |
| `Reports.MenuMatchesCatalog` | streamlit.py:92-136 | a name is offered in the select box exactly when it is a key of the query map |
| `Reports.SelectedReportResolves` | streamlit.py:138-140 | any offered name is found by the lookup, with a non-empty query text |
| `Reports.NonexistentReportIsUnknown` | streamlit.py:140 | a name outside the catalog is reported as unknown, not answered with an empty query |

## Left out

- `create_connection` and `fetch_data` (streamlit.py:8-35) are MySQL I/O. The loaded table is a parameter of `Predict`. The model also leaves out the `except` branch of `fetch_data`, which prints and returns nothing.
- Running a report and showing its result (streamlit.py:141-144) is left out. The result comes from MySQL, and the meaning of the query texts belongs to the database. The page also shows the same "no results" warning for a failed query and for an empty result; this is not modelled.
- Charts, CSS and markdown, and the `st.*` widgets themselves are left out. The form's age bounds 16-100 (streamlit.py:159) are not a precondition, because the filter is defined for every age.
- The stop-duration options, taken from the distinct non-null durations in the data (streamlit.py:164), are not modelled. The request's duration can be any string.
- The summary sentence's date and time formatting (streamlit.py:194-200) is left out. Only the two flag phrases are modelled.
- Null values are not modelled: every column of a `StopRecord` holds a value. The data-frame `mode()` skips nulls. If every matching row had a null outcome or violation, `mode()[0]` would fail, and the model cannot express that case.
- `Ledger.FlagInt` is defined only on the options "0" and "1". Those are the only values the select boxes return. Integer conversion of other strings is not modelled.
- Tally.Mode: the contract states only that the result is a value of maximal count. The data-frame library breaks ties by returning the smallest of the sorted modes. That rule lives in the library, not in the dashboard, and the contract does not pin it. The body picks the earliest maximal value in row order.
- Column types follow the table: the three flags (`search_conducted`, `drugs_related_stop`, `is_arrested`) are integers 0/1, the age is an integer, and the other columns are strings. The data-frame's dtype coercions in the `==` comparisons are not modelled.
- Reports.GetTemplate: for a name outside the catalog the program raises a key error at the lookup; the model returns `UnknownReport` instead. The menu only offers catalog names (`Reports.SelectedReportResolves`), so the page never reaches that case.
- Tally.Count: its own contract states only the bound by the column's length; that the count is the value's multiplicity, and positive exactly for members, is stated by `Tally.CountIsMultiplicity` and `Tally.CountPositiveIffMember`.
