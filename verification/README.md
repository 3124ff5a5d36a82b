# Verified model of the analytics, scheduling and alerting core

This project models the parts of the repository whose correctness rests on an algorithm rather
than on one branch, in four groups. `dafny verify dfyconfig.toml` checks all of it.

1. **The normal-equations stack** (`RealSums`, `LinearAlgebra`, `CholeskyFactor`, `LeastSquares`,
   `Ols`, `GoodnessOfFit`, `WithinTransform`, `Panel`, `Granger`, `Correlation`, `Diagnostics`,
   `Statistics`). The chain runs from the triangular loops over flat row-major buffers (L L^T = A,
   then A x = b) to orthogonal residuals, the unique global least-squares minimum, and from there
   to nested models, entity dummies, correlation matrices and the value and range of every
   statistic. The factorisation's failure test is proved complete: a design is refused exactly
   when its columns are linearly dependent.
2. **Workflow validation** (`WorkflowDag`): Kahn's algorithm, sound and complete, with its three
   errors; its queue order is proved to fix the result completely.
3. **Forecasts** (`Differencing`, `Autoregression`, `Arima`, `LinRegr`, `Mstl`, `Expo`,
   `AutoArima`, and what they compute in `ForecastLaws`, `MstlLaws`, `ExpoLaws`, `SelectionLaws`):
   differencing and integration undo each other; each forecaster continues the series of its own
   model exactly, and on every series its coefficients, smoothing and choices are characterised by
   what they minimise and how they respond to errors; order selection terminates, is reproducible
   and is optimal up to its own tie rule.
4. **State machines and their runs** (`Feedback`, `Consolidation`, `Alerts`, `AlertRuns`,
   `AlertHandler`, `AlertSoundness`, `Backlog`): the bounded feedback store, the memory scheduler
   with and without feedback compared in lock-step, alert evaluation under crashes, replays and
   interleaving with its effect on every record, and the backlog merge iterated over scans.

`StringOrder`, `Sets` and `Results` are shared helpers.

## How the model is built

- `f64` becomes `real`. A matrix is the program's flat buffer; `Grid` and `AsVec` read a buffer as
  a total function, and the mathematics is stated about those functions.
- Where a square root is needed the root function is a parameter with the two facts `IsSqrt`
  states: it is non-negative and squares to its argument, on non-negative arguments.
- An infinite variance inflation factor and an infinite information criterion are constructors.
  The natural logarithm in the criteria is a parameter; one lemma assumes that it increases, the
  others assume nothing about it. The order
  search takes its score as a parameter, so its theorems hold for every criterion.
- Errors are `Result` values. An outcome predicate (`OlsOutcome`, `DagOutcome`, `EtsOutcome` and
  so on) says for every input which error or what kind of result is returned; the method with
  the program's loops is proved against it, and the theorems are about the predicate.
- Timestamps are strings read by a parameter `parse`, which yields nanoseconds on one time line
  or nothing. Methods under a mutex are atomic steps.
- The memoised steps of an evaluation run come from a crate that is not part of this model. They
  are assumed to be a map from step to recorded result that survives a crash: a recorded stage is
  not executed again, an unrecorded one is executed from its start, and the clock is read anew.

## Where the code and its documentation disagree

The model follows the code. Each point is a proved statement.

- The usage-aware planner is documented as able to save recently used working buffers. A working
  memory has a lifetime of zero days, so every tick expires it whatever its credit
  (`Consolidation.WorkingNeverSurvives`).
- A test comment (diagnostics.rs:244) bounds the Breusch-Godfrey statistic of a design with an
  intercept by 0 and n. That is proved, for every design whose columns span a constant
  (`Diagnostics.BreuschGodfreyRange`). The function also accepts designs without an intercept, about
  which nothing is documented, and there the statistic can be negative
  (`Diagnostics.NegativeLmExample`).
- Resolved backlog items are documented as pruned one scan later. Without evidence an item is
  resolved by the first scan and pruned from the second on exactly when the ledger does not record
  its id, or records it as resolved (`Backlog.PrunedIff`); an id the ledger records with another
  outcome is resolved anew by every scan and never pruned (`Backlog.VanishedForGood`).
- Order selection reports that d + 4 points are needed when nothing fits; it fails exactly below
  d + 6 points (`AutoArima.FailsExactlyWhenShort`). The second length check of the ARIMA fit cannot
  fail after the first (`Arima.Fit`).
- An alert is documented to fire strictly above or strictly below its target (tdw-alerts lib.rs:30
  and :32). The evaluator departs from that exactly at the target, where it fires
  (`Alerts.FiresAtTarget`, with the input in `Alerts.FiresExactlyAtTarget`), so it returns what the
  documented rule would exactly when no alert of the snapshot is quoted at its target
  (`Alerts.EvaluatesStrictlyIff`).
- Alert ids are documented as stable and supplied by the caller, and nothing refuses a reused one.
  Every fired alert met its condition under its run's quotes exactly when untriggered alerts that
  share an id ask for the same thing (`AlertSoundness.FiresAreJustIff`); otherwise a run that judged
  one of them can fire the other (`AlertSoundness.ReusedIdFiresUnjustly`).

## Model

| member | source | states |
|---|---|---|
| LinearAlgebra.Matrix.Gram | crates/tdw-analytics-econometrics/src/linalg.rs:64-78 | the result is exactly the matrix of inner products of the columns, although only its upper triangle is computed and the rest mirrored |
| LinearAlgebra.Matrix.TransposeMulVec | crates/tdw-analytics-econometrics/src/linalg.rs:83-91 | entry c is the inner product of column c with the vector, although it is accumulated row by row |
| LinearAlgebra.Matrix.MulVec | crates/tdw-analytics-econometrics/src/linalg.rs:96-106 | the matrix-vector product |
| CholeskyFactor.Factor | crates/tdw-analytics-econometrics/src/linalg.rs:127-147 | succeeds exactly when the symmetric matrix read off the lower triangle is positive definite; then L is lower triangular with positive diagonal and L times its transpose is that matrix; otherwise the error is Singular |
| CholeskyFactor.FailedPivot | crates/tdw-analytics-econometrics/src/linalg.rs:136-139 | a pivot that is not positive yields a non-zero vector on which the quadratic form is not positive, so no positive definite matrix is ever refused |
| CholeskyFactor.GramPositiveDefinite | crates/tdw-analytics-econometrics/src/linalg.rs:64-78 | a Gram matrix is positive definite exactly when the columns of the design are linearly independent; with Factor this makes the failure test sound and complete for least squares |
| CholeskyFactor.SquaredPositiveDefinite | crates/tdw-analytics-econometrics/src/linalg.rs:127-147 | L times its transpose is positive definite for every lower-triangular L with positive diagonal |
| CholeskyFactor.Cholesky.Solve | crates/tdw-analytics-econometrics/src/linalg.rs:157-178 | forward then back substitution solves A x = b for the factored A |
| CholeskyFactor.SolutionUnique | crates/tdw-analytics-econometrics/src/linalg.rs:157-178 | a positive definite system has only one solution, so Solve returns the solution |
| CholeskyFactor.Cholesky.InverseDiagonal | crates/tdw-analytics-econometrics/src/linalg.rs:185-195 | entry j is entry (j, j) of the inverse of the factored matrix, and is positive |
| CholeskyFactor.InverseEntryPositive | crates/tdw-analytics-econometrics/src/linalg.rs:185-195 | the diagonal of the inverse of a positive definite matrix is positive |
| LeastSquares.SystemIsNormal | crates/tdw-analytics-econometrics/src/ols.rs:134-137 | solving X^T X b = X^T y is the same as making the residuals orthogonal to every design column |
| LeastSquares.NormalOrthogonal | crates/tdw-analytics-econometrics/src/ols.rs:136-146 | residuals of a solution are orthogonal to the whole column space |
| LeastSquares.RssDecomposition | crates/tdw-analytics-econometrics/src/ols.rs:136-150 | moving the coefficients by d adds exactly the squared length of X d to the residual sum of squares |
| LeastSquares.LeastSquaresMinimum | crates/tdw-analytics-econometrics/src/ols.rs:121-146 | a solution of the normal equations minimises the residual sum of squares over all coefficient vectors, and is the only minimiser when the columns are independent |
| LeastSquares.ExactFit | crates/tdw-analytics-econometrics/src/ols.rs:121-146 | a response that is a combination of independent columns is fitted by exactly that combination, with zero residual sum of squares |
| LeastSquares.VariationSplits | crates/tdw-analytics-econometrics/src/ols.rs:167-176 | when the columns span a constant, total variation is explained plus residual variation |
| Ols.Fit | crates/tdw-analytics-econometrics/src/ols.rs:121-196 | every outcome: which input is refused with which error (a dependent design, and no other, is Singular), and that a fit solves the normal equations and carries the stated standard errors, R2, adjusted R2, F and Durbin-Watson |
| Ols.FitIsMinimum | crates/tdw-analytics-econometrics/src/ols.rs:121-146 | the returned coefficients are the strict minimiser of the residual sum of squares |
| Ols.FitUnique | crates/tdw-analytics-econometrics/src/ols.rs:121-146 | two fits of the same data have equal coefficients |
| Ols.InterceptDiagnostics | crates/tdw-analytics-econometrics/src/ols.rs:167-196 | with a constant in the column span: 0 <= R2 <= 1, adjusted R2 <= R2, F >= 0, and the residual sum of squares is at most the total one |
| Ols.RSquaredAtMostOne | crates/tdw-analytics-econometrics/src/ols.rs:167-176 | R2 never exceeds 1, with or without an intercept |
| GoodnessOfFit.RSquaredNonnegativeIff | crates/tdw-analytics-econometrics/src/ols.rs:167-176 | R2 is non-negative for every response exactly when the columns of the design span a constant |
| GoodnessOfFit.NegativeRSquared | crates/tdw-analytics-econometrics/src/ols.rs:167-176 | for every design that does not span a constant, a response whose R2 is negative |
| Ols.DurbinWatsonRange | crates/tdw-analytics-econometrics/src/ols.rs:200-206 | the Durbin-Watson statistic lies in [0, 4] for every residual series |
| Statistics.FitStatistics | crates/tdw-analytics-econometrics/src/ols.rs:166-187 | for every fit, in residual and total sums of squares with their degrees of freedom: R2 times the total is the explained part; (1 - adjusted R2) times n - k times the total is the residual sum times n - 1; F times k - 1 times the residual sum is the explained part times n - k; zero where the program defines them so |
| Statistics.CoefficientStatistics | crates/tdw-analytics-econometrics/src/ols.rs:147-163 | the squared standard error times n - k is the residual sum of squares times a diagonal entry of the inverse of X^T X; the t statistic times the standard error is the estimate |
| Statistics.DurbinWatsonIs | crates/tdw-analytics-econometrics/src/ols.rs:200-206 | the statistic times the residual sum of squares is the sum of squared changes of the residuals |
| Statistics.TotalIs | crates/tdw-analytics-econometrics/src/ols.rs:166-167 | n times the total sum of squares in raw sums of the response |
| Ols.DesignFromColumns | crates/tdw-analytics-econometrics/src/ols.rs:219-241 | the flat design holds the intercept and the given columns at the right entries; unequal lengths and an empty design are refused |
| Ols.Regress | crates/tdw-analytics-econometrics/src/ols.rs:219-241 | building the design and fitting it: the outcome in terms of the columns |
| Ols.InterceptSpansConstant | crates/tdw-analytics-econometrics/src/ols.rs:219-241 | a design built with an intercept spans the constants |
| Panel.Validate | crates/tdw-analytics-econometrics/src/panel.rs:73-86 | accepts exactly the non-empty, equally long, rectangular panels and returns their number of regressors |
| Panel.GroupIndices | crates/tdw-analytics-econometrics/src/panel.rs:123-129 | each entity maps to its observation indices in order |
| Panel.DemeanInPlace | crates/tdw-analytics-econometrics/src/panel.rs:162-170 | in place, the listed entries lose their mean and all others stay |
| Panel.WithinTransformData | crates/tdw-analytics-econometrics/src/panel.rs:138-159 | the loop over entities, in any order, demeans response and regressors within each entity |
| Panel.FixedEffects | crates/tdw-analytics-econometrics/src/panel.rs:138-159 | every outcome, and that a result holds the least-squares slopes of the demeaned data |
| Panel.FixedEffectsIsDummyRegression | crates/tdw-analytics-econometrics/src/panel.rs:131-159 | no choice of one intercept per entity and slopes fits the raw panel better than the returned slopes with the intercepts they imply, and none fits equally well |
| Panel.FixedEffectsRSquared | crates/tdw-analytics-econometrics/src/panel.rs:131-159 | R2 is the share of the within-entity variation that the slopes explain, what is left being the residual sum of squares of the raw panel with one intercept per entity; the entity count is the number of distinct labels |
| Panel.FixedEffectsRefuses | crates/tdw-analytics-econometrics/src/panel.rs:73-86 | which panels are refused and with which numbers in the error, in the order of the checks |
| WithinTransform.WithinIsDummyVariables | crates/tdw-analytics-econometrics/src/panel.rs:131-159 | the residual sum of squares of the demeaned fit is the minimum over all entity intercepts and slopes |
| WithinTransform.PanelDecomposition | crates/tdw-analytics-econometrics/src/panel.rs:138-159 | the raw-panel sum of squares is the demeaned one plus the squared misfit of the intercepts |
| WithinTransform.WithinOrthogonal | crates/tdw-analytics-econometrics/src/panel.rs:162-170 | demeaned series are orthogonal to everything that is constant within entities |
| WithinTransform.WithinUnique | crates/tdw-analytics-econometrics/src/panel.rs:138-159 | the minimising slopes and intercepts are unique |
| Granger.LagColumnsAligned | crates/tdw-analytics-econometrics/src/granger.rs:55-60 | lag column i pairs each observation with the one i + 1 steps earlier |
| Granger.ResidualSumOfSquares | crates/tdw-analytics-econometrics/src/granger.rs:127-140 | the reconstructed sum equals the fitted model's residual sum of squares |
| Granger.GrangerCausality | crates/tdw-analytics-econometrics/src/granger.rs:70-123 | every outcome; in a result both sums are the least ones of the nested models, and F is formed from them |
| Granger.NestedRss | crates/tdw-analytics-econometrics/src/granger.rs:70-123 | a model that adds columns never has a larger least residual sum of squares |
| Granger.GrangerOrdersRss | crates/tdw-analytics-econometrics/src/granger.rs:70-123 | the unrestricted sum never exceeds the restricted one and the F statistic is never negative |
| Statistics.GrangerStatistic | crates/tdw-analytics-econometrics/src/granger.rs:106-114 | F times lag times the unrestricted sum is the drop in the sum times the degrees of freedom of the unrestricted model; zero when that model fits exactly |
| Correlation.Pearson | crates/tdw-analytics-econometrics/src/correlation.rs:40-59 | the loop's sums give the correlation, zero when a series does not vary |
| Correlation.CorrelationCoefficient | crates/tdw-analytics-econometrics/src/correlation.rs:28-36 | unequal lengths are refused, otherwise the correlation |
| Correlation.CorrelationMatrix | crates/tdw-analytics-econometrics/src/correlation.rs:68-87 | refuses empty or ragged input, otherwise every entry is the correlation of its columns, written to both triangles |
| Correlation.CorrelationIsInnerProduct | crates/tdw-analytics-econometrics/src/correlation.rs:40-59 | every correlation is the inner product of the standardised columns |
| Correlation.CorrelationRange | crates/tdw-analytics-econometrics/src/correlation.rs:40-59 | correlations lie in [-1, 1] |
| Statistics.CorrelationIs | crates/tdw-analytics-econometrics/src/correlation.rs:40-59 | in raw sums: the squared correlation times both variations is the squared covariation, with its sign; zero exactly where a series does not vary |
| Correlation.CorrelationMatrixIsPsd | crates/tdw-analytics-econometrics/src/correlation.rs:68-87 | the matrix is symmetric with unit diagonal and positive semidefinite, also with columns that do not vary |
| Correlation.VarianceInflation | crates/tdw-analytics-econometrics/src/correlation.rs:101-129 | every outcome; each factor comes from the auxiliary regression of its column on the others |
| Correlation.VifAtLeastOne | crates/tdw-analytics-econometrics/src/correlation.rs:101-129 | each finite factor is at least 1 and is the reciprocal of 1 - R2; it is infinite exactly when R2 is within the machine epsilon of 1 |
| Statistics.VifIsLargestRatio | crates/tdw-analytics-econometrics/src/correlation.rs:101-129 | a finite factor times the squared misfit of any affine combination of all other columns is at least the total variation of the column |
| Statistics.VifIsAttained | crates/tdw-analytics-econometrics/src/correlation.rs:101-129 | some combination reaches equality, so the factor is the largest such ratio |
| Diagnostics.BreuschGodfrey | crates/tdw-analytics-econometrics/src/diagnostics.rs:136-180 | every outcome; a result combines the fit with the auxiliary fit of its residuals on the regressors and the lagged residuals |
| Diagnostics.BreuschGodfreyRange | crates/tdw-analytics-econometrics/src/diagnostics.rs:136-180 | LM never exceeds n, is non-negative when the design has an intercept or its columns span a constant, and Durbin-Watson stays in [0, 4] |
| Diagnostics.NegativeLmExample | crates/tdw-analytics-econometrics/src/diagnostics.rs:136-180 | a design that spans no constant can make LM negative: four observations on which it is -4/3 |
| Statistics.BreuschGodfreyIs | crates/tdw-analytics-econometrics/src/diagnostics.rs:136-180 | LM times the variation of the residuals is n times what the auxiliary least-squares fit on regressors and lagged residuals explains of them |
| Statistics.LaggedColumnsAre | crates/tdw-analytics-econometrics/src/diagnostics.rs:158-168 | each auxiliary column holds the residuals so many observations back, and zero before the sample |
| WorkflowDag.ValidateDag | crates/tdw-agent/src/lib.rs:1112-1162 | Ok exactly for distinct ids, declared endpoints and no cycle; then the order is a permutation of the nodes with every edge forward, first in first out; each error names the first offender of its kind, and Cycle means a cycle exists |
| WorkflowDag.Kahn | crates/tdw-agent/src/lib.rs:1137-1155 | the main loop: edges forward, queue discipline, and every node left out still has a pending edge |
| WorkflowDag.ReleaseAll | crates/tdw-agent/src/lib.rs:1145-1154 | the inner loop keeps the counts and the queue |
| WorkflowDag.ReleaseOne | crates/tdw-agent/src/lib.rs:1147-1153 | the decremented count exists and is positive, so the inner MissingNode and underflow cannot occur |
| WorkflowDag.PendingStep | crates/tdw-agent/src/lib.rs:1130-1150 | placing a node releases exactly its outgoing edges, parallel edges counted |
| WorkflowDag.ReleaseKeepsQueue | crates/tdw-agent/src/lib.rs:1150-1153 | a node released by the last placed node joins the queue behind all others, in the order of the last edges that reach them |
| WorkflowDag.QueueOrder | crates/tdw-agent/src/lib.rs:1130-1155 | why one node comes before another, in terms of edges: the other has a predecessor placed after all of its own; or one node released both, the other by a later edge; or neither has predecessors and its id is smaller |
| WorkflowDag.OrderUnique | crates/tdw-agent/src/lib.rs:1137-1158 | only one order is both topological and first in, first out, so the queue discipline fixes the returned order completely |
| WorkflowDag.OutcomeUnique | crates/tdw-agent/src/lib.rs:1112-1162 | the outcome, errors included, is a function of the workflow |
| WorkflowDag.OrderRulesOutCycles | crates/tdw-agent/src/lib.rs:1157-1158 | a topological order rules out every cycle, self-loops included |
| WorkflowDag.PredecessorsGiveCycle | crates/tdw-agent/src/lib.rs:1159-1161 | a non-empty set in which every node has a predecessor contains a cycle |
| WorkflowDag.ShortOrder | crates/tdw-agent/src/lib.rs:1157-1161 | an order that misses nodes means a cycle |
| WorkflowDag.DeclareNodes | crates/tdw-agent/src/lib.rs:1116-1121 | succeeds exactly on distinct ids and names the first duplicate |
| WorkflowDag.CountEdges | crates/tdw-agent/src/lib.rs:1123-1135 | succeeds exactly when all endpoints are declared, source checked first, and then counts and lists every edge |
| Differencing.Difference | crates/tdw-analytics-forecast/src/arima.rs:86-99 | the d-th difference and the last value of each level |
| Differencing.AnchorsAre | crates/tdw-analytics-forecast/src/arima.rs:86-99 | anchor k is the last value of the k-th difference, zero when that is empty |
| Differencing.Integrate | crates/tdw-analytics-forecast/src/arima.rs:107-120 | the repeated running totals from the anchors, innermost first |
| Differencing.DifferenceOfIntegral | crates/tdw-analytics-forecast/src/arima.rs:86-120 | differencing history plus integrated forecast d times gives the history's difference followed by the forecast |
| Differencing.IntegralOfDifference | crates/tdw-analytics-forecast/src/arima.rs:86-120 | integrating the future part of a difference gives back the future |
| Differencing.IntegralOfLastDifferences | crates/tdw-analytics-forecast/src/arima.rs:101-120 | the same, read off the last entries of the difference of history and future |
| Differencing.RoundTripIff | crates/tdw-analytics-forecast/src/arima.rs:86-120 | the round trip holds exactly when the history has d entries or there is nothing to integrate |
| Arima.FitAr | crates/tdw-analytics-forecast/src/arima.rs:124-161 | succeeds exactly when there are enough rows and independent lags; then the unique least-squares autoregression and its one-step errors |
| Arima.LongArInnovations | crates/tdw-analytics-forecast/src/arima.rs:172-198 | the errors of the largest order up to the requested one that fits, padded with zeros, or zeros when none fits |
| Arima.FitStages | crates/tdw-analytics-forecast/src/arima.rs:236-342 | both stages: least squares on own lags and lagged innovations, or the mean when there are no regressors, with the residual deviation and the three information criteria; a short sample or dependent columns give the stated error |
| Arima.Fit | crates/tdw-analytics-forecast/src/arima.rs:227-342 | every outcome of a fit, criteria included, the second length check shown unreachable |
| Arima.CriteriaOrder | crates/tdw-analytics-forecast/src/arima.rs:307-327 | the corrected criterion exceeds the plain one and is infinite exactly when fewer than p + q + 4 residuals are left; the Bayesian one is below the plain one exactly when the logarithm of the count is below 2 |
| ForecastLaws.CriteriaAre | crates/tdw-analytics-forecast/src/arima.rs:307-327 | the three criteria in full, with the parameter count p + q + 2, the residual count and the residual variance |
| ForecastLaws.CriteriaPreferBetterFits | crates/tdw-analytics-forecast/src/arima.rs:307-327 | between fits with equally many parameters and residuals every criterion prefers the smaller residual variance, for any increasing logarithm |
| ForecastLaws.ArimaRefuses | crates/tdw-analytics-forecast/src/arima.rs:227-266 | which series are too short and by how much, in the order of the checks; beyond that only a dependent design is refused |
| ForecastLaws.ArimaFitIs | crates/tdw-analytics-forecast/src/arima.rs:246-306 | the coefficients have the least squared one-step errors of all coefficients from the start of the second stage on, given the first stage's innovations, and the squared deviation is their mean |
| ForecastLaws.StageStartIs | crates/tdw-analytics-forecast/src/arima.rs:246-258 | the second stage starts after the lags of both kinds and, with a moving-average part, after the long autoregression |
| ForecastLaws.LongArOrderIs | crates/tdw-analytics-forecast/src/arima.rs:206-217 | the exact order of the long autoregression for every sample size and order |
| ForecastLaws.InnovationsAre | crates/tdw-analytics-forecast/src/arima.rs:172-198 | entry by entry: zero during the warm-up of the largest order that can be regressed, then its one-step errors with the coefficients of least squared errors; deviations from the mean when no order can |
| ForecastLaws.StagePredictionIs | crates/tdw-analytics-forecast/src/arima.rs:292-303 | the prediction term by term: intercept, AR coefficient i on the value i + 1 back, MA coefficient j on the innovation j + 1 back, nothing for entries outside the sample |
| Arima.Forecast | crates/tdw-analytics-forecast/src/arima.rs:356-410 | the forecast is the fitted relation rolled forward with zero future innovations, integrated to levels |
| Arima.FitAndForecast | crates/tdw-analytics-forecast/src/arima.rs:417-429 | fit, then forecast, with the errors of either |
| Arima.FutureInnovationsAreZero | crates/tdw-analytics-forecast/src/arima.rs:376-399 | innovations appended beyond the sample change no prediction |
| Arima.ForecastDifferences | crates/tdw-analytics-forecast/src/arima.rs:356-410 | every forecast, differenced d times after its history, follows the fitted relation |
| Arima.ArRecovered | crates/tdw-analytics-forecast/src/arima.rs:255-290 | on a differenced history that follows an autoregression exactly, the fit returns its coefficients |
| Arima.ArimaContinues | crates/tdw-analytics-forecast/src/arima.rs:227-410 | ARIMA(p, d, 0), p = 0 included, on its own model: the coefficients are the true ones and the forecast is the true continuation |
| Autoregression.RollIsContinuation | crates/tdw-analytics-forecast/src/linregr.rs:90-105 | a future that follows a recurrence is what rolling the recurrence forward produces |
| Autoregression.RollFollows | crates/tdw-analytics-forecast/src/linregr.rs:90-105 | conversely, what is rolled forward follows the recurrence |
| Autoregression.RecurrenceRecovered | crates/tdw-analytics-forecast/src/linregr.rs:66-88 | regression on an exact recurrence with a unique solution finds its coefficients |
| LinRegr.Linregr | crates/tdw-analytics-forecast/src/linregr.rs:31-111 | every outcome; points are the fitted recurrence rolled forward with future covariates |
| LinRegr.LinregrContinues | crates/tdw-analytics-forecast/src/linregr.rs:31-111 | on a history that follows a linear recurrence with covariates exactly, a successful forecast is its continuation |
| ForecastLaws.LinregrForecast | crates/tdw-analytics-forecast/src/linregr.rs:31-111 | with at least one lag, the points extend the series by the relation whose coefficients have the least squared one-step errors on it |
| ForecastLaws.LinPredictionIs | crates/tdw-analytics-forecast/src/linregr.rs:92-101 | the prediction term by term: intercept, coefficient i on the value i + 1 back, one coefficient on each covariate at the time predicted |
| ForecastLaws.LeastOneStepErrors | crates/tdw-analytics-forecast/src/linregr.rs:66-88 | a regression on features of the past has the least squared one-step errors of all coefficients |
| Mstl.CenteredMovingAverage | crates/tdw-analytics-forecast/src/mstl.rs:35-68 | the centred window mean inside, edges extrapolated, for odd and even periods |
| Mstl.ExtrapolateEdges | crates/tdw-analytics-forecast/src/mstl.rs:74-108 | edges continue the outermost two defined points, or stay flat from a single one; defined points stay |
| Mstl.PhaseAverages | crates/tdw-analytics-forecast/src/mstl.rs:130-144 | the loop's totals give each phase's mean of the detrended series |
| Mstl.Decompose | crates/tdw-analytics-forecast/src/mstl.rs:117-161 | every outcome and all three components |
| Mstl.TrendIsLine | crates/tdw-analytics-forecast/src/mstl.rs:35-108 | on a line plus a season that sums to zero the trend is the line at every index, edges included |
| Mstl.DecompositionRecovers | crates/tdw-analytics-forecast/src/mstl.rs:117-161 | on such a series the trend is the line, the seasonal part is the season and the residual is zero |
| Mstl.SeasonalSumsToZero | crates/tdw-analytics-forecast/src/mstl.rs:145-152 | for every series the seasonal component sums to zero over a period |
| MstlLaws.TrendInside | crates/tdw-analytics-forecast/src/mstl.rs:35-68 | for every series, inside: m times the trend is the sum of the m values around it when m is odd; for even m the two outermost values count half |
| MstlLaws.TrendEdges | crates/tdw-analytics-forecast/src/mstl.rs:74-108 | for every series, at both edges the trend keeps the slope of the outermost two inner points |
| MstlLaws.DecompositionIs | crates/tdw-analytics-forecast/src/mstl.rs:117-161 | for every series: the parts add up to it, the season repeats and sums to zero over a period, and the residual has the same mean in every phase |
| Expo.Fit | crates/tdw-analytics-forecast/src/expo.rs:62-142 | the loop computes the additive Holt-Winters recursion; every refusal with its error |
| Expo.HoltWinters | crates/tdw-analytics-forecast/src/expo.rs:182-195 | horizon check, then the fit's error or its projection |
| ExpoLaws.ErrorCorrection | crates/tdw-analytics-forecast/src/expo.rs:108-137 | one step in terms of its error e: the level moves alpha e beyond level plus trend, the trend by alpha beta e, the season of the moment by gamma (e - alpha e), the accumulated error by e squared |
| ExpoLaws.OneMoreObservation | crates/tdw-analytics-forecast/src/expo.rs:97-172 | over whole fits: an observation that misses the one-step forecast by e moves the forecast h steps beyond it by alpha e + h alpha beta e, plus gamma (e - alpha e) in its own phase, and adds e squared to the accumulated error |
| ExpoLaws.LevelIsGeometric | crates/tdw-analytics-forecast/src/expo.rs:97-142 | over the whole run without trend and season, the level is the geometrically weighted sum of all observations |
| ExpoLaws.InitialIs | crates/tdw-analytics-forecast/src/expo.rs:85-105 | the starting level, trend and season in raw sums of the first one or two periods |
| ExpoLaws.FitRefuses | crates/tdw-analytics-forecast/src/expo.rs:62-82 | exactly which inputs are refused and with which error |
| Expo.ErrorGrows | crates/tdw-analytics-forecast/src/expo.rs:108-121 | the accumulated error is non-negative and never falls |
| Expo.LineExactIff | crates/tdw-analytics-forecast/src/expo.rs:97-172 | on an arithmetic progression of two or more entries the non-seasonal fit has zero error exactly when it smooths a trend or there is none, and then forecasts the progression |
| Expo.PeriodicExact | crates/tdw-analytics-forecast/src/expo.rs:85-172 | on a periodic series a seasonal fit has zero error and forecasts the right phase, for any coefficients and any length |
| Expo.SeasonalLineIsFlat | crates/tdw-analytics-forecast/src/expo.rs:85-142 | a seasonal fit has an error on every sloping line |
| Expo.Ets | crates/tdw-analytics-forecast/src/expo.rs:217-262 | the nested grid loops keep the first candidate of least error, and one always exists |
| Expo.EtsIsMinimum | crates/tdw-analytics-forecast/src/expo.rs:217-262 | what is projected is the fit of a grid candidate that no other candidate beats |
| ExpoLaws.EtsChoice | crates/tdw-analytics-forecast/src/expo.rs:217-262 | the candidates written out in tenths, and the choice: the least accumulated error, and among equal errors the smallest coefficients, level first |
| Expo.EtsContinuesLine | crates/tdw-analytics-forecast/src/expo.rs:217-246 | on an arithmetic progression the selector returns its continuation |
| Expo.EtsContinuesPeriod | crates/tdw-analytics-forecast/src/expo.rs:217-246 | on two or more periods of a periodic series the selector returns its continuation |
| AutoArima.SelectD | crates/tdw-analytics-forecast/src/autoarima.rs:91-110 | differencing stops at the first order where the bound, the length or the variance rule says so |
| AutoArima.NeverOverDifferences | crates/tdw-analytics-forecast/src/autoarima.rs:91-110 | a constant difference is never differenced again, and at least three values are left |
| AutoArima.LineIsDifferencedOnce | crates/tdw-analytics-forecast/src/autoarima.rs:91-110 | a line of more than three points is differenced once if it slopes, else never |
| AutoArima.NoVariance | crates/tdw-analytics-forecast/src/autoarima.rs:69-78 | the variance is non-negative, and zero exactly on constant series |
| SelectionLaws.VarianceIs | crates/tdw-analytics-forecast/src/autoarima.rs:69-78 | the variance is the population one, in raw sums |
| SelectionLaws.DifferencingRule | crates/tdw-analytics-forecast/src/autoarima.rs:91-110 | differencing goes on exactly while more than three values are left and one more difference takes more than a tenth off a positive variance |
| AutoArima.Stepwise | crates/tdw-analytics-forecast/src/autoarima.rs:140-189 | terminates; tries each in-range order at most once, seeds included; keeps a champion; its whole course is a function of the fits; on grids of at most 101 cells all neighbours of the result were tried |
| AutoArima.Round | crates/tdw-analytics-forecast/src/autoarima.rs:164-186 | one round tries every allowed unvisited move in order; it improves exactly when the best model changes |
| AutoArima.StepwiseIsNearlyBest | crates/tdw-analytics-forecast/src/autoarima.rs:120-189 | the chosen criterion is within one tie of 1e-9 per attempt of every finite criterion fitted, although the tie-break is not transitive |
| AutoArima.NearlyBest | crates/tdw-analytics-forecast/src/autoarima.rs:120-136 | the incumbent misses the best finite criterion by at most one tie per fit |
| SelectionLaws.SearchPrefers | crates/tdw-analytics-forecast/src/autoarima.rs:120-189 | over the whole search: a model that beats all others tried by more than 1e-9 is the result; when all are within 1e-9 the result has the fewest coefficients, then the fewest autoregressive ones; the five seeds inside the bounds are always tried |
| SelectionLaws.AttemptOrder | crates/tdw-analytics-forecast/src/autoarima.rs:140-176 | the attempts begin with the seeds inside the bounds in their fixed order, and moves are tried in the order p - 1, p + 1, q - 1, q + 1 |
| AutoArima.SelectionIsDeterministic | crates/tdw-analytics-forecast/src/autoarima.rs:17-21 | searches that see the same fits try the same orders in the same sequence and choose the same model |
| AutoArima.MovesAreNeighbours | crates/tdw-analytics-forecast/src/autoarima.rs:170-175 | the enabled moves are exactly the neighbours inside the grid |
| AutoArima.FailsExactlyWhenShort | crates/tdw-analytics-forecast/src/autoarima.rs:213-217 | nothing can be fitted exactly when the series has fewer than d + 6 entries, two more than the error reports |
| AutoArima.AutoForecast | crates/tdw-analytics-forecast/src/autoarima.rs:202-225 | selection of d, the search, and the result: the chosen fit, the value of its criterion and its forecast |
| SelectionLaws.ReportedCriterion | crates/tdw-analytics-forecast/src/autoarima.rs:46-53 | which stored criterion is compared and reported |
| Feedback.RetrievalFeedbackStore.WithPerAgentCap | crates/tdw-agent-store/src/feedback.rs:170-184 | overrides the default cap of 256 events per agent |
| Feedback.RetrievalFeedbackStore.WithGlobalCap | crates/tdw-agent-store/src/feedback.rs:177-188 | overrides the default cap of 4096 events |
| Feedback.RetrievalFeedbackStore.Append | crates/tdw-agent-store/src/feedback.rs:199-240 | refuses invalid events unchanged; otherwise truncates, evicts under both caps and appends; continues any run from an empty store |
| Feedback.RetrievalFeedbackStore.UsageFor | crates/tdw-agent-store/src/feedback.rs:283-299 | counts of events and used events, and the latest used timestamp |
| Feedback.UsageMeans | crates/tdw-agent-store/src/feedback.rs:283-299 | the counts event by event, and the latest used timestamp in character order |
| Feedback.AdmissionIs | crates/tdw-agent-store/src/feedback.rs:100-122 | which events are refused, with which error and in which order, with the white space and the 256 bytes written out; an accepted event is recorded unchanged but for keeping the first 64 hit ids |
| Feedback.Utf8LengthIs | crates/tdw-agent-store/src/feedback.rs:110-115 | the length counted in bytes of UTF-8, character by character |
| Feedback.StoreIsBounded | crates/tdw-agent-store/src/feedback.rs:199-240 | over any submissions: within the global cap, each agent within its cap (zero acting as one), each agent's events a suffix of its accepted ones, the newest accepted event last |
| Feedback.StoreIsFaithful | crates/tdw-agent-store/src/feedback.rs:199-240 | over any submissions nothing is evicted early: an event among the last `global` of all and the last `cap` of its agent is still stored, and the store is an ordered selection of the accepted history |
| Consolidation.ConsolidationPlan | crates/tdw-agent/src/consolidate.rs:62-86 | one decision per memory, in order: expire overdue working memories, promote other overdue ones, leave core and young ones |
| Consolidation.PlanIs | crates/tdw-agent/src/consolidate.rs:62-86 | the plan action by action, with lifetimes of 0, 1, 7 and 90 days and the tier each promotion goes to |
| Consolidation.ConsolidationPlanWithUsage | crates/tdw-agent/src/consolidate.rs:131-157 | the usage-aware planner is the plain planner at credited ages |
| Consolidation.LaterIsYounger | crates/tdw-agent-store/src/memory.rs:86-99 | a later anchor never makes a memory older |
| Consolidation.EffectiveAgeIsMinimum | crates/tdw-agent-store/src/memory.rs:440-453 | credit turns the age into the lesser of the raw age and the days since the last use |
| Consolidation.HintCounts | crates/tdw-agent-store/src/memory.rs:454-465 | the hint counts different queries among the uses of the memory |
| Consolidation.LastUsedIsLatest | crates/tdw-agent-store/src/memory.rs:442-448 | the timestamp used for credit is the greatest among the used events that reference the memory |
| StringOrder.LessIff | crates/tdw-agent-store/src/memory.rs:442-448 | the order behind latest and ascending: the first difference decides, by the smaller character or the shorter text |
| Consolidation.MemoryStore.UpsertAt | crates/tdw-agent-store/src/memory.rs:179-207 | refuses a name that is not a safe path segment and changes nothing; otherwise replaces by name and anchors a memory that has no anchor |
| Consolidation.MemoryStore.Remove | crates/tdw-agent-store/src/memory.rs:266-279 | drops the memory of that name and nothing else; an absent name changes nothing |
| Consolidation.MemoryStore.ConsolidateAt | crates/tdw-agent-store/src/memory.rs:324-354 | plan then apply: every memory meets the fate its own age decides, independent of the others |
| Consolidation.MemoryStore.ApplyFeedbackTick | crates/tdw-agent-store/src/memory.rs:424-490 | the same at effective ages; without events it is the bare tick |
| Consolidation.PlanTicks | crates/tdw-agent-store/src/memory.rs:339-352 | applying a plan by name, action after action, ticks exactly the planned memories |
| Consolidation.TickMoves | crates/tdw-agent-store/src/memory.rs:324-490 | in elapsed nanoseconds: a tick moves a short-term, mid-term or long-term memory up one tier exactly when 1, 7 or 90 days have passed since its anchor and, with feedback, since its latest use; the new anchor is the tick's time; missing or unreadable times keep it |
| Consolidation.TiersTakeTime | crates/tdw-agent-store/src/memory.rs:324-490 | over any run, with or without feedback, a short-term memory reaches the middle, long and core tiers no sooner than 1, 8 and 98 days after its anchor |
| Consolidation.FeedbackNeverGetsAhead | crates/tdw-agent-store/src/memory.rs:324-490 | two runs in lock-step over any ticks, inserts and removals: the same memories, each in at most the tier it has without feedback |
| Consolidation.UnusedRunsAgree | crates/tdw-agent-store/src/memory.rs:424-490 | a memory that no event marks as used has an identical history in both runs |
| Consolidation.WorkingNeverSurvives | crates/tdw-agent/src/consolidate.rs:139-153 | no credit saves a working memory from a tick, and no other memory expires or loses its tier |
| Alerts.InMemoryAlertStore.Insert | crates/tdw-alerts/src/lib.rs:242-248 | appends, without looking for the id |
| Alerts.InMemoryAlertStore.DeleteById | crates/tdw-alerts/src/lib.rs:263-271 | removes every record with the id and reports whether there was one |
| Alerts.RetainedIsFilter | crates/tdw-alerts/src/lib.rs:263-271 | deleting keeps every record of another id, in order |
| Alerts.InMemoryAlertStore.SetActive | crates/tdw-alerts/src/lib.rs:273-285 | sets the flag of the first record with the id only |
| Alerts.InMemoryAlertStore.ListEligible | crates/tdw-alerts/src/lib.rs:287-297 | the active, untriggered, unexpired records in order |
| Alerts.EligibleIsFilter | crates/tdw-alerts/src/lib.rs:287-297 | listing takes a record exactly when it is active, not triggered and not expired, in order |
| Alerts.InMemoryAlertStore.MarkFired | crates/tdw-alerts/src/lib.rs:299-313 | true exactly when the first record with the id is eligible, which it then no longer is; nothing else changes |
| Alerts.FetchQuotes | crates/tdw-alert-evaluator/src/lib.rs:147-186 | exactly the answerable quotes of the symbols asked for |
| Alerts.QuotesAre | crates/tdw-alert-evaluator/src/lib.rs:147-186 | a symbol is quoted exactly when a snapshot alert asks for it and the source answers, with the source's price |
| Alerts.Evaluate | crates/tdw-alert-evaluator/src/lib.rs:194-222 | the ids whose alert has a quote that meets its condition, boundary included, in sorted order |
| Alerts.FiringIsFilter | crates/tdw-alert-evaluator/src/lib.rs:200-218 | an alert is taken exactly when its quote is at or beyond its target, in order |
| Alerts.FiresAtTarget | crates/tdw-alert-evaluator/src/lib.rs:205-212 | an alert fires where the documented strict rule says so and, beyond it, exactly when its quote equals its target |
| Alerts.EvaluatesStrictlyIff | crates/tdw-alert-evaluator/src/lib.rs:194-222 | the ids returned are those of the documented strict rule exactly when no alert of the snapshot is quoted at its target |
| Alerts.FiresExactlyAtTarget | crates/tdw-alert-evaluator/src/lib.rs:205-212 | the failing input: an alert above 100 quoted at 100 |
| AlertHandler.FireAndNotify | crates/tdw-alert-evaluator/src/lib.rs:232-288 | its steps are marks and notifications of this run only; afterwards the first record of each given id is fired if it was active, untriggered and unexpired, every other record is unchanged, the count is the number of changed records, and the notified alerts are those of the winners with a quote, in order |
| AlertHandler.WinnersAre | crates/tdw-alert-evaluator/src/lib.rs:239-262 | the winners are the distinct given ids whose first record was eligible, in order, one per changed record |
| AlertHandler.AnnouncedAre | crates/tdw-alert-evaluator/src/lib.rs:264-280 | notified, in the order of ids, is exactly the first snapshot alert of each winner whose symbol has a quote |
| AlertHandler.EvaluateAlerts | crates/tdw-alert-evaluator/src/lib.rs:105-292 | the whole handler, from whatever an earlier attempt memoised: a run of the machine by its own steps only; stages not memoised load, fetch and judge as the program does; the last stage's effect on every record, its count and its notifications; a finished run does nothing again |
| AlertRuns.FiresAtMostOnce | crates/tdw-alerts/src/lib.rs:299-313 | over any interleaving of store operations and crashing, replaying runs, between two fires of an id lies a deletion of it |
| AlertRuns.LogIsComplete | crates/tdw-alerts/src/lib.rs:299-313 | in every step of the machine a record becomes triggered exactly when a fire of it is logged, and a deletion is logged exactly when it removes something |
| AlertRuns.NotifiesAtMostOncePerFire | crates/tdw-alert-evaluator/src/lib.rs:244-280 | notifications of an id never outnumber its fires, which never outnumber its deletions by more than one |
| AlertSoundness.FiresAreJustIff | crates/tdw-alert-evaluator/src/lib.rs:117-280 | over all interleavings of store operations and crashing, replaying runs whose inserts come from a pool of alerts: every fired alert was active, untriggered and unexpired and its condition holds under its run's quotes, exactly when untriggered alerts of the pool that share an id have the same symbol, target and condition |
| AlertSoundness.ConsistentPoolFiresJustly | crates/tdw-alert-evaluator/src/lib.rs:117-280 | one half: with such a pool every record and every memoised snapshot can be traced to an inserted alert with the same id and terms |
| AlertSoundness.SwapFiresUnjustly | crates/tdw-alert-evaluator/src/lib.rs:194-260 | the other half: for any two untriggered alerts with one id and a price that meets the first and not the second, ten steps that end in firing the second |
| AlertSoundness.FiresAreJust | crates/tdw-alert-evaluator/src/lib.rs:117-280 | in particular every fire is just when no id is inserted twice |
| AlertSoundness.HarmlessReuse | crates/tdw-alerts/src/lib.rs:242-248 | inserting one and the same alert any number of times is harmless |
| AlertSoundness.ReusedIdFiresUnjustly | crates/tdw-alert-evaluator/src/lib.rs:194-260 | a concrete run in which a reused id fires on a quote that does not meet its condition |
| Backlog.MergeBacklog | xtask/src/improve_scan.rs:698-760 | the loops compute the merge exactly, and the result is ranked |
| Backlog.MergeMembers | xtask/src/improve_scan.rs:698-760 | for distinct evidence: distinct ids, ranked, and each item is exactly what its id calls for |
| Backlog.KnownEvidence | xtask/src/improve_scan.rs:711-735 | found again, status by status: blocked, in-review and needs-design are kept; done and resolved become pending with where they were reopened from; any other takes the found status; the ledger speaks for the recorded status; the evidence is as found |
| Backlog.NewEvidence | xtask/src/improve_scan.rs:711-735 | an item found for the first time is taken as it is |
| Backlog.NoEvidence | xtask/src/improve_scan.rs:737-751 | not found, case by case: kept in buckets not scanned, gone when it counts as resolved, otherwise kept as resolved |
| Backlog.NothingElse | xtask/src/improve_scan.rs:704-751 | the merge holds each id once and no id that was neither found nor recorded |
| Backlog.JudgementHolds | xtask/src/improve_scan.rs:716-725 | over any number of scans that find the item, a judgement and where it was reopened from are kept |
| Backlog.BucketRank | xtask/src/improve_scan.rs:762-767 | the position among the known buckets, unknown ones last |
| Backlog.ArrangedRanked | xtask/src/improve_scan.rs:753-758 | the sort orders by bucket rank, then count descending, then id |
| Backlog.MergeOrder | xtask/src/improve_scan.rs:753-767 | the order of every result, bucket by bucket with the names written out, then larger counts, then ids in character order |
| Backlog.RankingUnique | xtask/src/improve_scan.rs:753-758 | items with distinct ids have only one ranking |
| Backlog.MergeEvolves | xtask/src/improve_scan.rs:704-752 | the merge treats every id on its own |
| Backlog.TwoScansSettle | xtask/src/improve_scan.rs:698-760 | with open evidence a third identical scan changes nothing, from any backlog |
| Backlog.SettlesIff | xtask/src/improve_scan.rs:698-760 | every backlog is settled for good after two scans exactly when no found item outside the ledger arrives done or resolved |
| Backlog.ScansStaySettled | xtask/src/improve_scan.rs:698-760 | with open evidence every number of scans from two on gives the same backlog |
| Backlog.ClosedEvidenceFlips | xtask/src/improve_scan.rs:716-735 | such an item, unless a judgement in the starting backlog holds it, is closed after a scan exactly when it was not closed before, for every scan of any number of them |
| Backlog.SkippedBucketsSurvive | xtask/src/improve_scan.rs:737-744 | over any number of scans an unseen item of a bucket not scanned is kept, with nothing changed but a status the ledger gives it |
| Backlog.VanishedEvidence | xtask/src/improve_scan.rs:737-751 | one scan of a scanned bucket without evidence: an item that counts as resolved is pruned, any other becomes resolved |
| Backlog.VanishedForGood | xtask/src/improve_scan.rs:737-751 | over any number of such scans: an id the ledger records with an outcome other than resolved is resolved anew by every scan, any other is gone from the second scan on |
| Backlog.PrunedIff | xtask/src/improve_scan.rs:737-751 | from the second scan on, an item without evidence is pruned exactly when the ledger does not record its id or records it as resolved |

## Left out

- Rounding, overflow, NaN and infinities of `f64`; all arithmetic is exact, and a pivot or a
  variance is compared with zero exactly.
- Model labels and other display strings.
- Fama-MacBeth, the augmented Dickey-Fuller test, cointegration, and the panel estimators other
  than fixed effects: beyond what they reuse from least squares they would add easier members.
- Quant and portfolio ratios, precision metrics, quantile bands, baselines and theta.
- Files, persistence, the network, Postgres, email, schedulers, wall clocks and mutex poisoning:
  the model has the pure step each of them triggers, on in-memory stores without a backing file.
- `list_by_owner`, `validate_restored` and the construction of an alert from its specification: each
  is settled by reading one branch.
- Code and document generators, command dispatch, serde and schema structs, registries.
- The failing notifier: a notification that is attempted counts as sent.
- Integer widths: counts and periods are unbounded, except that ages saturate at 2^32 - 1 days.
- Panel.WithinTransformData: entities are visited in an arbitrary order instead of ascending id,
  which proves the result for every order.
- Panel.FixedEffects: a result's standard errors are those of the demeaned regression with its
  degrees of freedom, as in the program; no correction for the absorbed intercepts is modelled.
- Diagnostics.BreuschGodfreyRange: spanning a constant is sufficient for the lower bound and not
  necessary, because the auxiliary regression only ever sees residuals.
- AlertHandler.FireAndNotify: a notification is recorded as the alert it is about; the quote that the
  program hands to the notifier with it is the recorded one of its symbol and is not repeated.
- AlertHandler.EvaluateAlerts: the handler alone is uninterrupted; interruption and interleaving are
  in the machine of steps that it is shown to be a run of.
