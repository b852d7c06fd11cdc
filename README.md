# AHP poll: the pairwise matrix and the priority engine

This project models the numerical core of an Analytic Hierarchy Process (Saaty's AHP) poll. It has two parts.

**Building the pairwise matrix.**
- The poll holds an n by n matrix of judgments over its n options. It starts with 1 on the diagonal and the "unanswered" sentinel 0 everywhere else.
- It repeatedly asks for the first unanswered cell in row-major order.
- It records each answer as a score in one cell and its reciprocal in the mirrored cell. It counts the comparisons, of which there are (n·n − n)/2.

**Computing priorities.** From a completed matrix the engine computes:
- the column sums;
- the column-normalised matrix;
- the row means, which are the priority weights;
- the product A·w and the per-row eigenvalue estimates (A·w)[i]/w[i], with their mean and their running maximum from 0;
- Saaty's consistency ratio CR = ((avg − n)/(n − 1)) / RI(n).

**Files and modules.**
- `sums.dfy`, module `Sums`: finite sums over rows and columns. These are the specification functions every loop is proved against.
- `array_helper.dfy`, module `ArrayHelper`: the square-array helper.
- `calc.dfy`, module `Calc`: the calculator.
  - Each of its steps is a method with the source's loops. The column sums, the normalised matrix and the weights are built in fresh arrays, as the source does. The product A·w and the eigen vector are built as sequence values (see "## Left out").
  - Each method is proved equal to a reference function on matrix values.
  - The properties of those functions are lemmas: the weights are positive and sum to 1, and a perfectly consistent matrix gets weights proportional to its scale, eigenvalue n and CR = 0.
- `ahp.dfy`, module `Ahp`:
  - the `Poll` object, whose matrix rows are arrays updated in place;
  - the row-major search for the next question;
  - the answer write and the buttons' scores;
  - the question count;
  - a replay of a whole poll. Its theorem is that the matrix stays reciprocal, that exactly (n·n − n)/2 comparisons are asked before the search reports none, and that no comparison is asked twice. Once every comparison is answered, the consistency ratio is not negative.

**Representation.**
- A matrix is held as the source holds it: a list of rows, each row an array (`seq<array<real>>`). The ghost `ArrayHelper.Cells` reads the value out as a `seq<seq<real>>`.
- Numbers are exact reals.

**Legacy copies.** `js/ahpCalc.obj.js` (helper and calculator) and `js/site.js` (traversal, vote and counters) are older copies of the same algorithms, with the same effect. They differ in two places:
- the legacy `_getInitializedArray` fills its row with a loop (js/ahpCalc.obj.js:32-38), where the current one calls `new Array(size).fill(0)` (js/ahpArrayHelper.js:34);
- the legacy `recordVote` (js/site.js:380-392) does not save the poll state, where the current one calls `pollStorage.savePollState()` (js/ahp.js:225).

Neither difference changes a value the model tracks. The legacy copies are modelled by the same members, and the third column of the table gives their lines. Because both calculator copies are the one member `Calc.CalculateResults`, they return the same results for the same matrix.

## Model

| member | source | states |
|---|---|---|
| `ArrayHelper.GetInitializedArray` | js/ahpArrayHelper.js:33-35 | A fresh array of `size` zeros (legacy loop js/ahpCalc.obj.js:32-38). |
| `ArrayHelper.SetUpSquareArray` | js/ahpArrayHelper.js:11-25 | `size` fresh, pairwise distinct rows of length `size`, with 1 on the diagonal and 0 elsewhere (the value is `Identity(size)`). `size = 0` gives the empty matrix. Legacy: js/ahpCalc.obj.js:9-24. |
| `Calc.RandomIndexDefined` | js/ahpCalc.js:10 | The random-index table has 10 entries, none negative. Entry k is positive exactly when k ≥ 2, so the ratio is defined exactly for 3 ≤ n ≤ 10 (legacy js/ahpCalc.obj.js:46). |
| `Calc.CalculateSumRow` | js/ahpCalc.js:40-53 | Returns a fresh array of n entries, entry j being the sum of column j (legacy js/ahpCalc.obj.js:72-85). |
| `Calc.ColumnSumsAtLeastOne` | js/ahpCalc.js:45-50 | With no negative cell and 1 on the diagonal, every column sum is ≥ 1, so normalising never divides by 0. |
| `Calc.NormalizeResults` | js/ahpCalc.js:62-77 | A square matrix of fresh, pairwise distinct rows whose cell (i, j) is cell (i, j) of the input divided by `sumRow[j]` (legacy js/ahpCalc.obj.js:93-108). |
| `Calc.NormalizedColumnsSumToOne` | js/ahpCalc.js:62-77 | Every column of the normalised matrix sums to exactly 1. |
| `Calc.CalculateResultAverages` | js/ahpCalc.js:85-98 | Returns a fresh array whose entry i is the mean of row i of the normalised matrix (legacy js/ahpCalc.obj.js:116-129). |
| `Calc.RowMeansSumToOne` | js/ahpCalc.js:85-98 | The row means of a square matrix whose columns each sum to 1 add up to 1. |
| `Calc.WeightsSumToOne` | js/ahpCalc.js:21-24 | The weights of a well-formed, non-empty matrix sum to exactly 1. |
| `Calc.WeightsPositive` | js/ahpCalc.js:21-24 | Every weight of a well-formed matrix is positive. |
| `Calc.WeightsAreDistribution` | js/ahpCalc.js:21-24 | The weights are a probability distribution: all positive, summing to 1. |
| `Calc.MultiplyByColumn` | js/ahpCalc.js:129-136 | The first loop of the eigenvalue step yields the product A·w, each row added left to right (legacy js/ahpCalc.obj.js:157-164). |
| `Calc.MaxFromZero` | js/ahpCalc.js:141-147 | The running maximum from 0 is ≥ 0 and ≥ every estimate, and is either 0 or one of the estimates. |
| `Calc.CalcPrincipalEigenValue` | js/ahpCalc.js:126-157 | The eigen vector is (A·w)[i]/w[i] for every i, the average is their mean, and the maximum is `MaxFromZero` of them, hence ≥ 0 and ≥ every entry (legacy js/ahpCalc.obj.js:154-181). |
| `Calc.RatioSign` | js/ahpCalc.js:110-111 | For 3 ≤ n ≤ 10 the ratio is non-negative exactly when the average eigenvalue estimate is at least n (both directions). |
| `Calc.CalcConsistencyRatio` | js/ahpCalc.js:107-117 | `cr` is `ConsistencyRatio` of the average eigenvalue estimate, and the eigen record is the one above (legacy js/ahpCalc.obj.js:138-145). |
| `Calc.CalculateResults` | js/ahpCalc.js:21-32 | The weights, eigen vector, average, maximum and CR equal `PrioritiesOf` of the input matrix. The weights are positive and sum to 1 (legacy js/ahpCalc.obj.js:57-64). |
| `Calc.ConsistentIsWellFormed` | js/ahpCalc.js:21-32 | A perfectly consistent matrix, with cell (i, j) = v[i]/v[j] for positive v, is well formed, and its scale has a positive sum. |
| `Calc.ConsistentColumnSums` | js/ahpCalc.js:40-53 | Column j of a perfectly consistent matrix sums to Σv / v[j]. |
| `Calc.ConsistentNormalizedRow` | js/ahpCalc.js:62-77 | Row i of the normalised consistent matrix is constantly v[i] / Σv. |
| `Calc.ConsistentWeights` | js/ahpCalc.js:62-98 | For a perfectly consistent matrix the weights recover the scale: w[i] = v[i] / Σv. |
| `Calc.ConsistentRatios` | js/ahpCalc.js:129-148 | For a perfectly consistent matrix every eigenvalue estimate is exactly n. |
| `Calc.UniformEstimates` | js/ahpCalc.js:139-149 | Estimates that all equal a positive k have mean k and running maximum k. |
| `Calc.ZeroRatioAtN` | js/ahpCalc.js:107-117 | An average estimate of exactly n gives CI = 0 and so CR = 0. |
| `Calc.ConsistentMatrixHasZeroRatio` | js/ahpCalc.js:21-32 | A perfectly consistent matrix gets weights v[i] / Σv, average and maximum eigenvalue n, and CR = 0 (legacy js/ahpCalc.obj.js:57-64, 138-181). |
| `Calc.EstimatesAtLeastSquare` | js/ahpCalc.js:129-148 | For a matrix of positive cells, each the reciprocal of its mirror, and any positive weights, the eigenvalue estimates (A·w)[i]/w[i] add up to at least n·n. |
| `Calc.MirrorTotalAtLeastSquare` | js/ahpCalc.js:129-148 | A matrix of positive cells, each the reciprocal of its mirror, adds up to at least n·n: a cell and its mirror add up to at least 2. |
| `Calc.CompletedRatioNonNegative` | js/ahpCalc.js:107-111 | For a completed reciprocal matrix of 3 to 10 options, the average eigenvalue is at least n and the consistency ratio is non-negative (legacy js/ahpCalc.obj.js:138-145). |
| `Ahp.ZeroFrom` | js/ahp.js:505-509 | The inner scan returns the first column at or after j holding 0, or None exactly when none does. |
| `Ahp.NextUnansweredFrom` | js/ahp.js:504-511 | The scan of rows i onward returns the first 0 cell in row-major order, with every earlier cell non-zero, or None exactly when no 0 is left. |
| `Ahp.NextUnanswered` | js/ahp.js:503-512 | The question asked next is the first 0 cell in row-major order with every earlier cell non-zero. The result is None (the source's `false`) exactly when no cell is 0 (legacy js/site.js:619-628). |
| `Ahp.FirstZeroUnique` | js/ahp.js:503-512 | At most one cell is the first zero, so the next question is determined by the matrix alone. |
| `Ahp.GetNextQuestion` | js/ahp.js:503-512 | The nested loop with its early return computes `NextUnanswered` of the matrix. It modifies nothing, so repeated calls on an unchanged matrix agree (legacy js/site.js:619-628). |
| `Ahp.AfterVote` | js/ahp.js:215-216 | After the vote, cell (col, row) holds 1/score and, off the diagonal, cell (row, col) holds the score. Every other cell is unchanged (legacy js/site.js:384-385). |
| `Ahp.ReciprocalIsWellFormed` | js/ahpCalc.js:21-24 | A matrix with the poll's invariant meets the calculator's precondition: no negative cell, 1 on the diagonal. |
| `Ahp.IdentityIsReciprocal` | js/ahp.js:492-494 | The matrix `_setUpResultArray` builds satisfies the reciprocal invariant. |
| `Ahp.AfterVoteCell` | js/ahp.js:215-216 | After a positive vote on an off-diagonal pair, each cell still satisfies the invariant: non-negative, 0 exactly when its mirror is, times its mirror 1 when answered, and 1 on the diagonal. |
| `Ahp.AfterVoteKeepsReciprocal` | js/ahp.js:215-216 | A positive vote on an off-diagonal pair keeps the whole matrix reciprocal (legacy js/site.js:384-385). |
| `Ahp.NextUnansweredAbove` | js/ahp.js:503-512 | In a reciprocal matrix the pair asked next has row < col, and its mirror is unanswered too. |
| `Ahp.UnansweredNone` | js/ahp.js:503-512 | The count of 0 cells is 0 exactly when the search finds no question. |
| `Ahp.AfterVoteAnswersTwo` | js/ahp.js:215-216 | Voting on an unanswered off-diagonal pair removes exactly two 0 cells. |
| `Ahp.IdentityUnanswered` | js/ahpArrayHelper.js:11-25 | The set-up matrix of n options has n·n − n unanswered cells. |
| `Ahp.ConsecutiveProductEven` | js/ahp.js:75 | n·n − n is never negative and always even. |
| `Ahp.QuestionTotal` | js/ahp.js:75 | The question total t satisfies 2t = n·n − n, so the division by 2 is exact. |
| `Ahp.SimpleAnswer` | js/ahp.js:161-181 | Every simple button's score is positive. The right-hand buttons, and only they, reverse the pair. Only "same" scores `eq` (1), and exactly the two "much more" buttons score `high` (4). Scores js/ahp.js:26-30; legacy js/site.js:207, 330-350. |
| `Ahp.Oriented` | js/ahp.js:151-152 | An answer is recorded on `leftpair` or on `rightpair`: the displayed pair or its reverse, so the same two options, in the displayed order exactly when the left option is preferred or the pair is diagonal (legacy js/site.js:320-321). |
| `Ahp.Answered` | js/ahp.js:211-219 | Recording an answer to the displayed pair advances the question index by 1, leaves that comparison answered both ways (the pair and its mirror are non-zero), and turns no answered cell back to 0; the answer goes on `leftpair` or `rightpair` (js/ahp.js:151-152). |
| `Ahp.Replay` | js/ahp.js:113-129 | Each answer is recorded on the displayed pair while a question is left (the search returns `false` otherwise and the vote buttons are unbound, js/ahp.js:148-156); answers after that have no effect. The question index grows by at most one per answer, by exactly one per answer when a question is still open at the end, and answered cells stay answered (js/ahp.js:211-222). |
| `Ahp.Asked` | js/ahp.js:113-129 | The displayed comparisons in order, one for each step of the question index. |
| `Ahp.AskedPairs` | js/ahp.js:113-129 | In a reciprocal matrix every displayed comparison lies above the diagonal, was unanswered when the replay began, is answered at the end, and none is displayed twice. |
| `Ahp.AnswerStep` | js/ahp.js:211-219 | Answering the displayed pair of a reciprocal matrix with 2z unanswered cells hits an in-range pair. The matrix stays reciprocal and has 2(z − 1) unanswered cells. |
| `Ahp.ReplayStops` | js/ahp.js:113-129 | With no answer left, or no question left (the search returned `false`), the poll does not change. |
| `Ahp.ReplayStep` | js/ahp.js:211-222 | The first answer is recorded on the displayed pair, and the question index advances by one. The rest of the poll continues from that reciprocal matrix, which has two fewer unanswered cells. |
| `Ahp.ReplayOutcome` | js/ahp.js:211-222 | From a reciprocal matrix with 2z unanswered cells, k answers ask min(k, z) questions, and the index advances by min(k, z). The matrix stays reciprocal, and the search reports none exactly when k ≥ z. |
| `Ahp.ReplayAsksEachPairOnce` | js/ahp.js:211-222 | The outcome above, and the min(k, z) displayed comparisons are pairwise distinct, lie above the diagonal, were unanswered at the start and are answered at the end: no comparison is asked twice. |
| `Ahp.PollAsksQuestionTotal` | js/ahp.js:73-76 | From the set-up matrix and question index 1, the poll asks exactly `questionTotal` questions. After k answers the index is 1 + min(k, total), the displayed comparisons are min(k, total) distinct pairs above the diagonal, and none is left exactly when k ≥ total. The final matrix is reciprocal and valid input for the calculator. |
| `Ahp.CompletedRatioNonNegative` | js/ahpCalc.js:107-111 | A reciprocal matrix with no unanswered cell, of 3 to 10 options, is valid calculator input with average eigenvalue at least n and a non-negative consistency ratio. |
| `Ahp.FinishedPollRatioNonNegative` | js/ahp.js:113-129 | Once a poll of 3 to 10 options has had an answer for every comparison, the calculator's consistency ratio of its matrix is non-negative. |
| `Ahp.Poll.constructor` | js/ahp.js:11-43 | The poll starts with the given options, an empty matrix, question index 1 and question total 0. |
| `Ahp.Poll.SetUpResultArray` | js/ahp.js:492-494 | The matrix becomes n fresh, distinct rows of length n, with 1 on the diagonal and 0 elsewhere (legacy js/site.js:608-610). |
| `Ahp.Poll.InitializeQuestionCount` | js/ahp.js:73-76 | The question index becomes 1 and the total (n·n − n)/2, a whole number (legacy js/site.js:250-253). |
| `Ahp.Poll.RecordVote` | js/ahp.js:215-219 | The matrix becomes `AfterVote` of the old matrix. No other cell and no other row changes, and the question index grows by exactly 1 (legacy js/site.js:384-388). |

## Left out

**Not modelled.**
- All DOM, event binding and rendering code is left out, because it is UI with no numerical logic. This covers:
  - `_display*` apart from its stop rule, which `Ahp.Replay` and `Ahp.ReplayStops` model;
  - `_bind*`/`_unbind*`, `_calculateResult`'s table, and the 0.11 green/orange threshold;
  - `js/displayHelper.js` and `js/main.js`.
- `js/pollStorage.js` (localStorage) is left out, and so is the `savePollState` call at the end of `recordVote`, because it is persistence.
- The `console.log` in `recordVote` is left out; it is output only.
- `_convertRealToRoundedPercent` is left out because it depends on JavaScript number-to-string formatting.
- `startPoll` is left out, because it reads the DOM. `Ahp.Poll.constructor` takes the option labels it would assign.
- `resultCount` and `question` are left out; they are display fields.
- The source's local arrays `arr` and `eigenVector` in `_calcPrincipalEigenValue` (js/ahpCalc.js:129-148) are fresh, and nothing else refers to them. `Calc.MultiplyByColumn` and `Calc.CalcPrincipalEigenValue` therefore build them as sequence values, element by element in the source's order, and `Eigen.eigenVector` is a sequence. The model does not capture their allocation as arrays, which affects no other state.

**Arithmetic.** Numbers are exact reals, not IEEE-754 doubles, so there is no rounding, NaN or Infinity. Every division the source performs unguarded is given a precondition that keeps its divisor non-zero:
- Calc.CalculateResults: requires 3 ≤ n ≤ 10. Below 3 the source gives no usable ratio:
  - for n = 0 the average is already 0/0 and the table read `consistencyIndex[-1]` is `undefined`, so the ratio is NaN;
  - for n = 1 CI is already (avg − 1)/(1 − 1), a division by 0, at js/ahpCalc.js:110, before the table is read;
  - for n = 2 the ratio divides by the table's zero entry (NaN or Infinity).

  For n > 10 it reads past the table (`undefined`, so NaN).
- Calc.CalcPrincipalEigenValue: requires a non-empty matrix and non-zero weights. The source's average of an empty matrix is 0/0.
- Calc.NormalizeResults: requires non-zero column sums. `Calc.ColumnSumsAtLeastOne` shows that every matrix the poll builds meets this.

**Weaker than the source.**
- Ahp.Poll.RecordVote: requires `score != 0`, because the source would store `1/0 = Infinity`. The reciprocal invariant (`Ahp.AfterVoteKeepsReciprocal`) is proved for positive scores. The source never checks either condition; its buttons only supply positive scores.
- Ahp.GetNextQuestion: requires the matrix to have one row per option, because the source indexes the rows by the options' count.
- Ahp.Replay: stops using answers once no question is left, because in the source the buttons are unbound by then.
- Detailed buttons are not modelled one by one. They pass `parseInt` of a button label, so they are modelled as any `Ahp.Answer` with a positive score.

**Where the intended behaviour and the code differ, the model follows the code.**
- Invalid sizes, invalid scores and unsupported sizes are meant to be reported as errors. The code raises none, so they are preconditions here, not results.
- A single option is meant to give CI = 0. The code first computes CI = (avg − 1)/(1 − 1), a division by 0 (js/ahpCalc.js:110), and then divides by the table's first entry, also 0 (js/ahpCalc.js:111). The model therefore requires n ≥ 3 for the ratio.
- A consistency ratio is not negative only for a completed matrix (`Ahp.CompletedRatioNonNegative`). The bound is not claimed for a matrix that still holds 0 cells.
