# sistema-rbc: case-based retrieval, modelled in Dafny

The system helps with breast-cancer diagnosis. It reads a table of past
examinations (one row per patient: an `ID`, a `Diagnosis` of `M` or `B`, and
numeric measurements of the cell nuclei) into a *case base*, `BaseDeCasos`. It
then ranks every stored case by its similarity to a new examination, the
*query*. Similarity is `1 / (1 + d)`, where `d` is the weighted Euclidean
distance over the query's attributes. An attribute without a weight weighs 1.
The ranking is a stable sort by descending similarity. Optionally, the
table's chosen columns are min-max scaled when the base is built. The query
is then scaled with `normalize_data` against the same raw table.
`zscore_normalize` offers z-score standardisation of a query.

The model has seven modules:

- `OrderedDict` (`dict.dfy`): Python's insertion-ordered `dict`, as a key order plus a map.
- `ColumnStats` (`stats.dfy`): column minimum, maximum and mean, and the two rescaling formulas.
- `Frame` (`frame.dfy`): the table, as a value.
- `Normalize` (`utils.dfy`): `normalize_data` and `zscore_normalize`, as loops proved against specification functions.
- `Cases` (`cases.dfy`): the case record, and the weighted squared sum, distance and similarity as specification functions.
- `Ranking` (`ranking.dfy`): the stable descending sort and its properties.
- `Cbr` (`cbr.dfy`): the class `CaseBase`, whose constructor, distance, similarity and retrieval methods are proved against those functions.

`Scenario` (`scenario.dfy`) works one small base through by hand. A benign
case equals the query, and a malignant case is 5 away on each of two
attributes. The lemmas prove distance 0 and similarity 1 for the first case.
For the second they prove a squared sum of 50, a distance between 7.07 and
7.08, and a similarity between 0.1237 and 0.1240. The ranking puts the
benign case first.

`math.sqrt` is a library call. It enters as a parameter `sqrt` that must
return the non-negative square root of every non-negative real
(`Cases.IsSquareRoot`). Numbers are exact reals.

## Model

| member | source | states |
|---|---|---|
| OrderedDict.Empty | src/utils.py:54 | The empty dict `{}` the normalisers start from is well formed and has no keys. |
| OrderedDict.Insert | src/utils.py:62 | Assigning `d[k] = v` keeps the dict well formed and sets `k` to `v`. An existing key keeps its place; a new key goes last. |
| OrderedDict.InsertNextKey | src/utils.py:55-62 | When a dict is filled with another dict's keys in that dict's order, the next key is always new, and the key order grows by exactly that key. |
| OrderedDict.Dedup | src/cbr.py:34 | The key order of the comprehension over the chosen attributes holds exactly those names, each once. |
| OrderedDict.DedupOfDistinct | src/cbr.py:34 | Without repeated attribute names, the case's key order is the list of chosen attributes itself. |
| Frame.Table | src/cbr.py:33-35 | The DataFrame the base is built from: per row an `ID` and a `Diagnosis`, and named numeric columns with one entry per row (`Valid`). |
| ColumnStats.ColMin | src/utils.py:56 | The column minimum is one of the column's values and is at most every value. |
| ColumnStats.ColMax | src/utils.py:57 | The column maximum is one of the column's values and is at least every value. |
| ColumnStats.ColMean | src/utils.py:75 | `Series.mean`: the column sum divided by the number of rows. |
| ColumnStats.MeanBetween | src/utils.py:75 | The column mean lies between the column minimum and maximum. |
| ColumnStats.MinMaxScale | src/utils.py:58-61 | The scaled value is in [0, 1] for an input within the range. The minimum maps to 0 and, for a non-zero range, the maximum maps to 1. A zero range gives 0. |
| ColumnStats.ScaleWithinRange | src/utils.py:58-59 | For a non-zero range, `(v - min) / (max - min)` sends the minimum to 0, the maximum to 1, and every value of the range into [0, 1]. |
| ColumnStats.MinMaxScaleMonotone | src/utils.py:58-61 | Min-max scaling preserves the order of its inputs for any range, including a zero range, which sends every input to 0. |
| ColumnStats.DivMonotone | src/utils.py:59 | Dividing by a positive range preserves order. |
| ColumnStats.ZScore | src/utils.py:77-80 | An input equal to the mean gives 0, and a zero deviation gives 0. For a positive deviation the result is positive exactly when the input exceeds the mean. |
| ColumnStats.ZScoreSign | src/utils.py:77-78 | For a positive deviation, `(v - mean) / std` is positive exactly when `v > mean`. |
| ColumnStats.ZScoreStrictlyIncreasing | src/utils.py:77-80 | For a positive deviation, standardisation strictly preserves order. |
| ColumnStats.ScaleColumn | src/cbr.py:25-30 | The column as the scaling loop leaves it: the same length, each entry min-max scaled with the column's own minimum and maximum. |
| ColumnStats.ScaleColumnAt | src/cbr.py:27-30 | Each entry of a scaled column is the min-max formula applied to the original entry with the column's own minimum and maximum. |
| ColumnStats.ScaleColumnRange | src/cbr.py:25-30 | Every entry of a scaled column is in [0, 1]. Minimum entries become 0. Maximum entries become 1 when the range is non-zero. A column of zero range becomes all 0. |
| ColumnStats.ScaledRangeIsUnit | src/cbr.py:25-30 | A scaled column of non-zero range has minimum 0 and maximum 1. |
| ColumnStats.ScaleColumnIdempotent | src/cbr.py:24-30 | Scaling an already scaled column changes nothing, so an attribute chosen twice is scaled as if once. |
| Normalize.Covers | src/utils.py:55-57 | `dataframe[attr]` exists for every key of the query, and the table is well formed with at least one row. |
| Normalize.MinMaxAgainst | src/utils.py:56-61 | One query value min-max scaled against its column of the table. |
| Normalize.MinMaxDict | src/utils.py:54-63 | What `normalize_data` returns: the query's keys in the query's order, each value scaled against its own column. |
| Normalize.NormalizeData | src/utils.py:46-63 | The loop returns the min-max dict: the query's keys in the query's order, each value scaled against its own column of the table. |
| Normalize.MinMaxDictByKeys | src/utils.py:54-63 | A well-formed dict with the query's key order whose every value is the scaled input is the min-max result. |
| Normalize.MinMaxDictFacts | src/utils.py:55-62 | The result is well formed with the query's keys. Each in-range value scales into [0, 1]; a value at the minimum gives 0, and one at the maximum of a non-zero range gives 1. A zero-range column gives 0. |
| Normalize.MinMaxKeyIndependent | src/utils.py:55-62 | Changing one input value changes only that key's output, and the new output is that value scaled. |
| Normalize.ZScoreAgainst | src/utils.py:75-80 | One query value standardised against its column's mean and the given deviation. |
| Normalize.ZScoreDict | src/utils.py:73-82 | What `zscore_normalize` returns: the query's keys in order, each value standardised against its own column. |
| Normalize.ZScoreNormalize | src/utils.py:65-82 | The loop returns the query's keys in order, each value standardised against its column's mean and the given deviation. |
| Normalize.ZScoreDictByKeys | src/utils.py:73-82 | A well-formed dict with the query's key order whose every value is the standardised input is the z-score result. |
| Normalize.ZScoreDictFacts | src/utils.py:74-81 | An input equal to its column mean, or one whose column has zero deviation, standardises to 0. |
| Cases.Case | src/cbr.py:6-10 | A case: its `id`, its `diagnosis` and its attribute dict. |
| Cases.Weight | src/cbr.py:65 | An attribute without a weight weighs 1. With non-negative weights given, every attribute's weight is non-negative. |
| Cases.IsSquareRoot | src/cbr.py:67 | `math.sqrt` returns the non-negative square root of every non-negative real. |
| Cases.Comparable | src/cbr.py:64-66 | The lookup `caso2.atributos[atributo]` succeeds for every attribute of the first case, whose dict is well formed. |
| Cases.WeightedSqSum | src/cbr.py:63-66 | The running sum of weighted squared differences is non-negative when the weights are. |
| Cases.SqTerm | src/cbr.py:66 | One attribute's term `w * (x - y) ** 2` is non-negative for a non-negative weight, and 0 when the weight or the difference is 0. |
| Cases.SqSumStep | src/cbr.py:64-66 | One more attribute adds `w * (x - y)^2`, with `w` the attribute's weight or 1. |
| Cases.SqSum | src/cbr.py:63-66 | The final `soma`: the weighted squared sum of two cases over the first case's attributes, in order. |
| Cases.DistanceOf | src/cbr.py:80-85 | The distance is the non-negative number whose square is the weighted squared sum. |
| Cases.SimilarityOf | src/cbr.py:63-69 | The similarity lies in (0, 1]. |
| Cases.InverseBounds | src/cbr.py:68 | `1 / (1 + d)` lies in (0, 1] for `d >= 0`. |
| Cases.SqrtZero | src/cbr.py:67 | The square root is zero exactly at zero. |
| Cases.SqrtStrictlyIncreasing | src/cbr.py:67 | The square root is strictly increasing. |
| Cases.InverseStrictlyDecreasing | src/cbr.py:68 | `1 / (1 + d)` is strictly decreasing in `d`. |
| Cases.SelfSqSumZero | src/cbr.py:63-66 | Comparing an attribute map with itself gives a zero sum. |
| Cases.SelfSimilarity | src/cbr.py:54-69 | Every case is at distance 0 from itself, with similarity 1, for any non-negative weights. |
| Cases.SimilarityOneIffZeroDistance | src/cbr.py:63-69 | Similarity is 1 exactly when the distance is 0, which happens exactly when the squared sum is 0. |
| Cases.SimilarityStrictlyDecreasing | src/cbr.py:67-68 | Of two cases, the nearer one to the query is the more similar, and vice versa. |
| Cases.SimilarityOrderBySqSum | src/cbr.py:63-68 | Comparing squared sums ranks cases exactly as comparing similarities does. |
| Cases.ZeroWeightCancels | src/cbr.py:65-66 | An attribute of weight 0 does not affect the sum, however different its values are. |
| Cases.ZeroWeightIgnoresAttribute | src/cbr.py:80-84 | Changing a zero-weight attribute of the stored case leaves its distance to the query unchanged. |
| Ranking.InsertByScore | src/cbr.py:51 | One step of the stable sort: a pair goes after every placed pair whose score is at least its own. |
| Ranking.SortDesc | src/cbr.py:51 | `list.sort(key=score, reverse=True)`: a stable sort by descending score, as insertion of each pair in list order. |
| Ranking.InsertCounts | src/cbr.py:51 | Inserting a pair into the sorted prefix adds exactly that pair. |
| Ranking.InsertFirsts | src/cbr.py:51 | Inserting a pair adds exactly its case to the cases listed. |
| Ranking.InsertSorted | src/cbr.py:51 | Inserting into a list sorted by descending score keeps it sorted. |
| Ranking.InsertTies | src/cbr.py:51 | Inserting into a sorted list places the new pair after every pair of equal score. |
| Ranking.SortDescSorted | src/cbr.py:51 | The sort yields non-increasing scores. |
| Ranking.SortDescCounts | src/cbr.py:51 | The sort yields a permutation of its input. |
| Ranking.SortDescFirsts | src/cbr.py:51 | The sorted list holds the same cases, with the same multiplicities. |
| Ranking.SortDescFirstsStep | src/cbr.py:51 | Sorting one more pair adds its case to the sorted cases, as it does to the input's. |
| Ranking.SortDescTies | src/cbr.py:51 | For every score, the pairs with that score keep their input order (stability). |
| Ranking.SortDescCorrect | src/cbr.py:51 | The sort yields a sorted, stable permutation of the input, of the same length. |
| Ranking.SortDescOfSorted | src/cbr.py:51 | Sorting a list already in descending order returns it unchanged. |
| Ranking.InsertAtEnd | src/cbr.py:51 | A pair scoring no more than every pair already placed goes last. |
| Cbr.RowDict | src/cbr.py:34 | The per-row attribute dict is well formed. |
| Cbr.RowDictFacts | src/cbr.py:34 | The row dict lists each chosen attribute once, in order of first choice, and holds the row's value for each. |
| Cbr.RowDictKeys | src/cbr.py:34 | The row dict's key order is the chosen attributes in order of first occurrence. |
| Cbr.RowDictAt | src/cbr.py:34 | Each chosen attribute is present and holds row `i`'s value in its column. |
| Cbr.StoredColumns | src/cbr.py:21-30 | The columns the cases are read from have the table's names and row count. With scaling off, they are the table's own columns. |
| Cbr.ScaleStep | src/cbr.py:24-30 | One pass of the scaling loop keeps its invariant. Columns chosen so far are scaled exactly once, and all others are untouched. |
| Cbr.StoredColumnsByKeys | src/cbr.py:21-30 | A column map that agrees key by key with the stored columns is the stored column map. |
| Cbr.ScaleChosenColumns | src/cbr.py:21-30 | The scaling loop over a copy of the columns ends with exactly the stored columns: each chosen column scaled, all others as in the table. |
| Cbr.RowOfStoredColumns | src/cbr.py:33-35 | Row `i` read from the stored columns is the case for row `i`. |
| Cbr.RowCase | src/cbr.py:33-35 | The case built from row `i`: the row's `ID` and `Diagnosis` and the dict of its chosen attributes read from the stored columns. |
| Cbr.BuildCases | src/cbr.py:32-36 | The row loop yields one case per table row, in row order, each the case for its row. |
| Cbr.StoredValue | src/cbr.py:21-30 | A stored value equals the table's value with scaling off. With scaling on it is in [0, 1]: the column minimum becomes 0, the maximum of a non-zero range becomes 1, and a zero-range column becomes 0. |
| Cbr.RowCaseFacts | src/cbr.py:33-36 | The case for row `i` carries the row's `ID` and `Diagnosis`. Its dict has the chosen attributes in order of first choice, each holding the stored value. |
| Cbr.QueryScalingMatchesStored | src/cbr.py:24-30 | A table row scaled by `normalize_data` equals the attribute dict the case base stores for that row when scaling is on. Query and cases are scaled alike. |
| Cbr.RowCovers | src/utils.py:55-57 | A table row, read as a dict, is a query the table can scale: every key names a column. |
| Cbr.ScaledRowValues | src/cbr.py:24-34 | The values of a row scaled as a query equal the values stored for that row. |
| Cbr.ScaledEntry | src/cbr.py:27-28 | The query formula applied to a raw table value gives the stored scaled value. |
| Cbr.Scores | src/cbr.py:46-49 | The unsorted list pairs every stored case, in base order, with its similarity to the query. |
| Cbr.ScoresStep | src/cbr.py:47-49 | Scoring one more case appends that case with its similarity. |
| Cbr.RankingFacts | src/cbr.py:46-52 | The ranking has one pair per stored case, holding the same cases. Each pair's score is that case's similarity. Scores never increase, and equal scores keep base order. |
| Cbr.SimilarityOfSum | src/cbr.py:67-69 | `1 / (1 + sqrt(soma))` from the finished sum is the case similarity, and it is 1 exactly when the sum is 0. |
| Cbr.CaseBase.constructor | src/cbr.py:13-36 | The base holds one case per table row, in row order. Each case is that row's case, with the chosen attributes scaled over the whole table when scaling is on. |
| Cbr.CaseBase.Distance | src/cbr.py:71-85 | The loop's result is the weighted Euclidean distance `DistanceOf`: the non-negative root of the weighted squared sum. |
| Cbr.CaseBase.Similarity | src/cbr.py:54-69 | The loop's result is `SimilarityOf`. It lies in (0, 1], and is 1 exactly when the squared sum is 0. |
| Cbr.CaseBase.Retrieve | src/cbr.py:38-52 | The result is the stable descending sort of the scored cases. It has one pair per stored case, holding the same cases, each scored by its own similarity. It is sorted by non-increasing similarity, with ties in base order. |
| Scenario.TwoAttributeSqSum | src/cbr.py:63-66 | Over two attributes of weight 1, the squared sum is the sum of the two squared differences. |
| Scenario.RootOfFifty | src/cbr.py:67 | `sqrt(50)` lies strictly between 7.07 and 7.08. |
| Scenario.InverseOfRootOfFifty | src/cbr.py:68 | `1 / (1 + sqrt(50))` lies strictly between 0.1237 and 0.1240. |
| Scenario.BenignScore | src/cbr.py:63-68 | A case equal to the query has distance 0 and similarity 1. |
| Scenario.MalignantScore | src/cbr.py:63-68 | The case 5 away on both attributes has squared sum 50, distance about 7.0711 and similarity about 0.1239. |
| Scenario.TwoCaseOrder | src/cbr.py:46-51 | Of two cases, the one at least as similar is ranked first. |
| Scenario.TwoCaseRanking | src/cbr.py:38-52 | The two-case base ranks the benign case first with similarity 1, then the malignant case. |

## Left out

- Floating point: values are exact reals. There is no rounding, NaN or infinity, so a sum that overflows or a NaN in the table is not modelled.
- `math.sqrt` is a parameter, required to return the non-negative square root of each non-negative real.
- pandas' `Series.std` (the sample standard deviation) is not computed. `zscore_normalize` receives the per-column deviations as a map `stds`. `Series.min`, `Series.max` and `Series.mean` are modelled.
- A missing column or key raises `KeyError` in the source. The model instead requires every chosen attribute to be a table column, every query key to be a column, and the stored case to have every key of the query.
- A table without rows gives NaN statistics in pandas. The normalisers require at least one row.
- Negative weights can make the sum negative, and `math.sqrt` then raises `ValueError`. The model requires non-negative weights.
- The table keeps `ID` and `Diagnosis` apart from the numeric attribute columns. Case ids are integers, so the GUI's string id `"Entrada"` for the query case is not modelled.
- Cbr.CaseBase.Distance: its contract ties the result to `DistanceOf` and does not itself state `0 <= d` or `d * d == sum`. Those facts are the contract of `Cases.DistanceOf`.
- `load_data` is not part of this model: it is a network fetch of dataset 17 from the UCI Machine Learning Repository through `ucimlrepo`, followed by column renaming.
- The Tk GUI in `gui/interface.py` and the console scripts `src/visualize_dataset.py` and `src/visualize_dataset_v2.py` are not part of this model. The scripts do console display, `input()` prompts, metadata tables and CSV/Excel export.
- The default `normalizar=False` of `BaseDeCasos` has no counterpart: the constructor takes the flag explicitly, and a caller that omits it in the source corresponds to passing `false`.
- The import of `normalize_data` in `src/cbr.py` is unused there and has no counterpart.
- Mutation of the caller's DataFrame is not modelled, because the table is a value. The source copies the frame before scaling, so the caller's table is unchanged in both.
