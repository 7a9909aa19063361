# Fraud-detection pre-processing and evaluation, modelled in Dafny

This project models the data-preparation stages of a fraud-detection
pipeline over a table of payment transactions. It also models the two pure
computations behind the evaluator's figures. Every stage is a pure function
from a table to a new table, and the lemmas state what each stage
guarantees.

- **Cleaner** (`clean_data`) drops the columns `nameOrig`, `nameDest` and
  `isFlaggedFraud` when they are present. When none is present it returns
  an equal copy.
- **Encoder** (`encode_features`) fails with a KeyError when there is no
  `type` column. Otherwise it one-hot encodes `type` with `drop_first=True`.
  The levels are sorted. The first level is the reference category and gets
  no indicator. Every other level `v` gets a boolean column `type_v`,
  appended after the remaining columns.
- **Balancer** (`balance_data`) counts the fraud rows (label 1) and the
  normal rows (label 0). When fraud is the minority it keeps every fraud row
  and a random sample of as many normal rows. Otherwise it keeps every row.
  Both branches then shuffle.
- **Splitter** (the partition half of `split_and_save`) removes the label
  column to form the features. It then cuts features and labels into aligned
  train and test parts, with a stratified 80/20 split.
- **Evaluation** covers the confusion matrix of `plot_confusion_matrix` and
  the top-10 importance ranking of `plot_feature_importance`.

A table is a list of column names plus a list of rows. Each row maps a
column name to a cell: an integer, a text, a boolean flag or a missing value
(`Tables`). The random draws are not computed. `sample(n=...)`,
`sample(frac=1)` and `train_test_split` become chooser parameters: lists of
row positions. Preconditions demand only what the library guarantees of a
draw:

- any sample of the right size;
- any permutation;
- a stratified permutation whose classes get their proportional shares,
  within one row.

Each lemma holds for every such choice. Errors are results, not
exceptions: `MissingColumn` for a KeyError, `InvalidSplit` for the
splitter's ValueError, and `LengthMismatch` for columns of unequal length.

Files: `tables.dfy`, `ordering.dfy` (sorting with duplicates removed, and
string order) and `picking.dfy` (choosing rows by position) are shared
foundations. `cleaner.dfy`, `encoder.dfy`, `balancer.dfy`, `splitter.dfy`,
`pipeline.dfy` and `evaluation.dfy` follow the program's stages.

## Model

| member | source | states |
|---|---|---|
| Tables.Drop | src/preprocess.py:127 | `drop(columns=...)` keeps the row count and each surviving cell, removes exactly the named columns, and keeps a well-formed frame well formed |
| Tables.Labels | src/preprocess.py:128 | `y = df[target_col]`: one label per row, in row order, each the row's cell under the label column |
| Cleaner.Present | src/preprocess.py:65 | the candidates found among the frame's columns are exactly those in both lists |
| Cleaner.Clean | src/preprocess.py:62-74 | the output columns are the input columns minus any of `nameOrig`, `nameDest`, `isFlaggedFraud` that are present; the row count is unchanged; when none is present the output equals the input |
| Cleaner.CleanKeepsOrderAndCells | src/preprocess.py:62-68 | on a well-formed frame, the surviving columns keep their relative order, every surviving cell keeps its value, and the result is well formed |
| Cleaner.CleanIdempotent | src/preprocess.py:65-72 | cleaning twice gives the same frame as cleaning once |
| Encoder.TypeTexts | src/preprocess.py:87 | a text is listed exactly when some row's `type` cell holds it |
| Encoder.Categories | src/preprocess.py:87 | the levels are strictly sorted, have no repeats, and are exactly the texts found in `type` |
| Encoder.Kept | src/preprocess.py:87 | `drop_first=True`: one level fewer than there are, never one that is not a level |
| Encoder.KeptLevels | src/preprocess.py:86-87 | a level keeps an indicator if and only if it is not the first (reference) level |
| Encoder.IndicatorNames | src/preprocess.py:87 | one name per kept level, in level order, the level prefixed with `type_` |
| Encoder.Indicators | src/preprocess.py:87 | a row has one indicator per non-reference level, and `type_v` is set exactly when the row's type is `v` |
| Encoder.EncodeRow | src/preprocess.py:87 | an encoded row has the row's columns without `type` plus every indicator; other cells keep their values unless an indicator has their name; `type_v` is set exactly when the row's type is `v` |
| Encoder.Encode | src/preprocess.py:82-87 | a frame without `type` gives `MissingColumn("type")` and no table; otherwise the row count is kept and `type` is gone |
| Encoder.EncodeColumns | src/preprocess.py:86-87 | the columns are the other columns in their order, then one `type_v` per non-reference level; with k distinct levels that is the original count minus 1 plus k−1 (none when k = 0) |
| Encoder.EncodeWellFormed | src/preprocess.py:87 | when no indicator name clashes with an existing column, the encoded frame is well formed |
| Encoder.EncodeKeepsCells | src/preprocess.py:87 | on a well-formed frame, every cell outside `type` whose column is not also named like an indicator survives in its row, in the same row order |
| Encoder.EncodeIndicatorSet | src/preprocess.py:87 | a row's indicator for level `v` is set if and only if its type is `v`, so at most one indicator is set |
| Encoder.ReferenceIsSmallest | src/preprocess.py:86-87 | the dropped reference level is smaller than every level that keeps an indicator |
| Encoder.EncodeReferenceRow | src/preprocess.py:86-87 | all of a row's indicators are unset if and only if its type is the reference level, is not a text, or the column has no level |
| Balancer.Select | src/preprocess.py:104-105 | every selected row carries the requested label |
| Balancer.SelectCount | src/preprocess.py:98-99 | the number of selected rows equals the number of label cells equal to the label |
| Balancer.SelectDisjoint | src/preprocess.py:104-105 | the fraud rows and the normal rows together are a sub-multiset of the frame: no row is selected twice |
| Balancer.ValidChoice | src/preprocess.py:109-116 | what the draws may be: in the minority branch, `count_fraud` distinct positions among the normal rows; in both branches, a permutation of the combined frame |
| Balancer.Combined | src/preprocess.py:109-114 | the frame before the shuffle has 2·count_fraud rows when fraud is the minority and all rows otherwise |
| Balancer.Balance | src/preprocess.py:98-116 | a missing label column gives `MissingColumn`; otherwise the columns are kept, and there are 2·count_fraud rows when fraud is the minority and all rows otherwise |
| Balancer.ShuffleKeeps | src/preprocess.py:116 | the shuffle keeps the multiset of rows and of labels |
| Balancer.CombinedLabels | src/preprocess.py:109-112 | before the shuffle, the undersampled frame holds count_fraud labels 1 and count_fraud labels 0, and no other label |
| Balancer.BalanceSubMultiset | src/preprocess.py:104-116 | in both branches the output rows are a sub-multiset of the input rows, and a well-formed frame stays well formed |
| Balancer.BalanceUndersamples | src/preprocess.py:98-116 | when count_fraud < count_normal, the output has 2·count_fraud rows and holds every fraud row: exactly count_fraud with label 1, exactly count_fraud with label 0, none with any other label |
| Balancer.BalanceKeepsAll | src/preprocess.py:113-116 | when count_fraud ≥ count_normal, the output is a permutation of the input: equal multisets of rows and of labels, other labels included |
| Splitter.TestSize | src/preprocess.py:36 | the test size is ceil(0.20·n): the least k with 5k ≥ n |
| Splitter.Feasible | src/preprocess.py:131-133 | what `train_test_split` refuses: a missing label, texts mixed with other labels, an empty train part, a class with fewer than two members, or more classes than rows in either part |
| Splitter.StratifiedChoice | src/preprocess.py:131-133 | what the stratified draw may be: both lists together order every row once, the test part has ceil(0.2n) rows, and each class's train count is within one row of its share |
| Splitter.SplitFrame | src/preprocess.py:127-133 | a missing label column gives `MissingColumn`; a frame the splitter refuses (a missing label or a mix of texts with other labels among them) gives `InvalidSplit`, and only then; otherwise X has every column but the label, in the frame's order, both parts have the same columns, the test part has ceil(0.2n) rows and the train part the rest |
| Splitter.SplitAligned | src/preprocess.py:127-133 | row j of X_train (or X_test) is the chosen input row without its label, and y_train[j] (or y_test[j]) is that row's label; both parts are well formed when the frame is |
| Splitter.PositionsPartition | src/preprocess.py:131-133 | the train and test positions share nothing and together cover every row |
| Splitter.SplitPartition | src/preprocess.py:131-133 | the train and test row sets are disjoint and cover all rows; the feature and label multisets of the two parts add up to those of the frame |
| Splitter.SplitStratified | src/preprocess.py:130-133 | each class's count in the test part is within one row of its proportional share of the test size |
| Splitter.SplitTwentyRows | src/preprocess.py:130-133 | 10 fraud and 10 normal rows split into 16 train and 4 test rows: 2 of each class in test, 8 of each in train |
| Pipeline.BalanceThenSplit | src/preprocess.py:181-184 | 10 fraud rows among more normal rows balance and then split into 16 train and 4 test rows, with 2 fraud and 2 normal in test |
| Evaluation.AxisLabels | src/evaluation.py:58 | the matrix labels are strictly increasing, have no repeats, and are exactly the labels in the truth or the predictions |
| Evaluation.ConfusionMatrix | src/evaluation.py:57-58 | inputs of different lengths give `LengthMismatch`; otherwise the matrix is square over the labels, and entry [i][j] counts rows with true label i and predicted label j |
| Evaluation.ConfusionBinary | src/evaluation.py:58-66 | when the labels are 0 and 1 and both occur, the matrix is 2×2, ordered licit (0) then fraud (1) on both axes |
| Evaluation.PredsFor | src/evaluation.py:58 | the predictions of the rows with true label a are as many as those rows, and hold each label b as often as the pair (a, b) occurs |
| Evaluation.SumOfCounts | src/evaluation.py:58 | counting each label of a list without repeats that holds all of xs counts every element of xs once |
| Evaluation.ConfusionRowSums | src/evaluation.py:57-58 | row i sums to the number of rows whose true label is the i-th label |
| Evaluation.ConfusionTotal | src/evaluation.py:57-58 | all entries together sum to the number of test rows |
| Evaluation.ConfusionTrace | src/evaluation.py:57-58 | the trace equals the number of rows where the prediction equals the truth |
| Evaluation.Zip | src/evaluation.py:80 | entry i pairs the i-th feature name with the i-th importance |
| Evaluation.SortDesc | src/evaluation.py:81 | the sort is a permutation with non-increasing importances |
| Evaluation.TopFeatures | src/evaluation.py:76-81 | names and importances of different lengths give `LengthMismatch` |
| Evaluation.RankingShape | src/evaluation.py:76-81 | the ranking has min(10, n) entries; each is a feature name paired with its own importance; together they are a sub-multiset of the input; names are distinct when the feature names are |
| Evaluation.RankingOrder | src/evaluation.py:81 | ranked importances do not increase, and every feature left out has importance at most the last ranked one |

## Left out

- Reading and writing CSV files, the `mkdir` of the output folder, model loading with `joblib`, `sys.exit` and the logging are I/O, so they are not modelled.
- `main()` in the preprocessor and `run()` in the evaluator only sequence the stages. `Pipeline.BalanceThenSplit` covers the balance-then-split part; the cleaning and encoding in between are not chained in one lemma.
- `random_state=42` and the actual random generator are not modelled: every sample, shuffle and split is a chooser parameter, and each lemma holds for every choice the library could make. Whether a given seed reproduces a given run is out of scope.
- `src/train.py` is not part of this model. Fitting the random forest, its `feature_importances_`, `predict`, the F1 score and the classification report come from an external learner. The predictions and importances are inputs.
- The ROC curve and AUC of `plot_roc_curve` are floating-point work inside scikit-learn and are not modelled.
- Plotting, the tick labels, figure sizes and file names of the figures are rendering, so they are not modelled.
- `ModelEvaluator.load_artifacts`, which sets the evaluator's fields, is I/O, so the evaluator is not modelled as an object. Its two computations are pure functions over the fields' values.
- Balancer.Select: a label matches only a number cell equal to 0 or 1. pandas would also equate `True` with 1 and `1.0` with 1; the label column is an integer column, so this does not arise.
- Encoder.Categories: only text cells of `type` are levels, compared in code-point order. A missing type gets no indicator set, as in pandas; non-text, non-missing types are treated the same way, whereas pandas would give such a value (a number or a boolean in `type`) its own level and a `type_<value>` indicator.
- Encoder.EncodeKeepsCells: a column whose name equals an indicator's (such as an existing `type_CASH_OUT`) is left out of the cell-keeping claim: in the model the indicator overwrites that cell, while pandas would keep both columns under one name.
- Encoder.EncodeWellFormed: an indicator name equal to an existing column (a frame with a column such as `type_CASH_OUT` already present) is excluded by a precondition. pandas would produce two columns of one name, which a row map cannot hold.
- Splitter.TestSize: ceil(0.20·n) is computed exactly as ⌈n/5⌉. For n below 2^52 the ceiling of the double-precision product 0.2·n is the same, because the product's rounding error never carries it across an integer.
- Splitter.Feasible: every distinct cell is its own class, and a text label mixed with other labels is an `InvalidSplit` (a TypeError in numpy). numpy would merge `True` with `1` and `False` with `0` into one class; the model keeps them apart, so it is exact only for a label column that holds integers alone, as the fraud label does.
- Splitter.SplitFrame: because of that, the refusal and the per-class shares are stated per cell. A label column that mixes booleans with the integers 0 and 1 can be refused, or shared out, differently than by scikit-learn.
- Splitter.StratifiedChoice states scikit-learn's allocation by its bounds: each class's train count is the floor or ceiling of its share. The exact tie-breaking of the allocation is not modelled.
- Evaluation.ConfusionMatrix follows scikit-learn: the axes are the labels that occur, so the matrix is 2×2 only when both 0 and 1 occur. That case is `ConfusionBinary`. When only one class occurs the matrix is 1×1, and the figure's two tick labels no longer match it.
- Evaluation.SortDesc: one particular order among equal importances. `sort_values` makes no stability promise here, so no lemma depends on the order of ties. The requirement that ties follow the original column order is therefore not modelled. The code gives no such guarantee.
- Numeric cells hold integers. The amount and balance columns, which are floats in the data, are carried along without being inspected, so no stage depends on their values.
- Importances are exact reals. Floating-point NaN values, which `sort_values` would place last, are not modelled.
