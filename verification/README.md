# ICESEE in Dafny

ICESEE assimilates observations into ice-sheet models with an ensemble Kalman filter that runs over MPI ranks. This
project models its numerical and stateful core and proves what that core guarantees. Numbers are exact reals. A
collective is a function of the per-rank data (MPI 3.1: section 5.5 for Gatherv, 5.6 for Scatterv, 5.9.6 for Allreduce,
6.4.2 for communicator splits). `dafny verify dfyconfig.toml` checks everything.

| file | content |
|---|---|
| `Arith.dfy`, `Sums.dfy`, `Matrices.dfy`, `Outcomes.dfy` | quotients, finite sums, dense matrices, result types |
| `Partition.dfy` | every block decomposition, and the index maps over several variables |
| `Collectives.dfy` | Scatterv/Gatherv row mean, Allreduce of column blocks, stacked row blocks |
| `ObservationOperator.dfy` | the one-hot operator, plain and streamed in blocks |
| `Spectrum.dfy` | the truncated pseudo-inverse loop |
| `Transform.dfy` | innovation, X5, and what X5 does to an ensemble |
| `Solution.dfy` | the system X5 solves, and the analysis as a Kalman update |
| `AnalysisUpdate.dfy`, `RankRows.dfy` | forecast mean, inflation, thickness clamp, stored analysis mean; the same on the rows of several ranks |
| `Rounds.dfy` | round-robin forecasts, the gather permutation, member-wise inversion |
| `BatchStore.dfy`, `StoreRuns.dfy` | the batched file store, whole runs of it, and the forecast step that uses it |
| `Schedule.dfy`, `TimeLoop.dfy` | observation schedule, time loop, cursor, restarts, synthetic observations |
| `FullRun.dfy`, `FilterRun.dfy` | the whole full-parallel run against the plain filter recursion, and with the modelled analysis in it |
| `Checkpoint.dfy` | atomic checkpoint write, crashes and restarts as a state machine |
| `RandomPhases.dfy` | Hermitian random phases and the real inverse transform |
| `Taper.dfy`, `Geometry.dfy`, `ElapsedTime.dfy` | Gaspari-Cohn weight, ISSM geometry repair, elapsed-time text |

Where the code does less than its comments or names suggest, the code is followed and the exact condition is proved:

- The message "Sum of each X5 column is not 1.0" compares a truth value with 1.0, so it fires exactly when some column
  sums to zero (`ComputeX5`). With the member mean stored it never fires (`X5ColumnsSumToOne`).
- Every launch of the full-parallel run, fresh ones included, skips the observation at its first step, if there is one,
  because the cursor counts observed steps up to and including the start (`LaunchAssimilates`). So a resumed run adds up
  to the uninterrupted one exactly when k_start is 0 or not observed, and to the schedule exactly when neither 0 nor
  k_start is (`InterruptionLosesExactlyOne`, `RestartsLoseOnlyTheirStarts`).
- With restart enabled and serial file creation, both defaults, the store creates its first batch of files before the
  restart decision looks for finished steps. A first launch then starts at min(batch size, nt): for nt <= 100 it
  computes nothing, beyond that it skips the first batch (`FirstLaunch`, `DefaultFirstLaunch`, `CheckpointSafetyIff`).
- Creating the store deletes the step files of earlier runs, so a resumed run works without the results of the steps
  before it, and its first forecast is of zeros (`FirstForecastAfterLaunch`). A run without restarts loses them too when
  it has several batches and several rounds (`HistoryKeptIff`).
- With more batches than one and more rounds than one, a run ends with every file outside the last batch empty
  (`RunErasesHistory`); otherwise, and only then, it is the plain filter recursion (`RunIsRecursionIff`).
- Parallel file creation with at least as many members as ranks lets every rank truncate the files when it reaches the
  batch, so later ranks erase what earlier ones wrote (`LateOpeningErases`).
- The gather renumbers members, and the member number is passed to the model; a forecast may rely on the number only
  with one round or one rank (`NumbersHarmlessIff`).
- With more than one round, a full-parallel forecast that crosses a batch boundary returns to the old batch to read the
  next members, which truncates it (`FullParallelForecast`, `ForecastArrivesIff`).
- The gather of a default forecast reorders members unless there is one round or one rank (`GatherIsIdentityIff`).
- `state_vector_load_distribution` tests the world size but distributes over the given communicator
  (`LoadDistributionTiles`); `icesee_mpi_row_distribution` fails unless there are more rows than ranks.
- The update looks for parameter and thickness rows inside the rows of each rank, so several ranks inflate and clamp
  other rows than one process would, up to velocity rows clamped as thickness and state rows inflated in a run without
  parameters (`LocalInflationAgrees`, `LocalClampAgrees`). The thickness floor is 1; a comment says 1e-3.
- On the flotation line the geometry repair checks nothing (`FlotationLineIsUnchecked`).
- A text of minutes and seconds only is read in full by one elapsed-time parser, while the other drops the minutes
  (`TwoFields`); on all texts the printer makes they agree (`ParsersInvertPrinter`).
- The two Gaspari-Cohn forms differ on negative arguments, which distances never are (`FormsAgreeIff`).

## Model

| member | source | states |
|---|---|---|
| Partition.BlocksTile | ICESEE/src/parallelization/EnKF_parallel_io.py:103-107 | for every n and rank count the blocks cover [0, n) with no overlap and nothing outside |
| Partition.BlocksBalanced | ICESEE/src/parallelization/EnKF_parallel_io.py:103-107 | block sizes differ by at most one, larger blocks first |
| Partition.DecompositionsAgree | ICESEE/src/utils/tools.py:379-392 | block_decomp, the even member distribution and the row distribution are the closed form wherever they return a block, and the latter two fail exactly below, respectively at or below, the rank count |
| Partition.LoadDistribution | ICESEE/src/parallelization/parallel_mpi/icesee_mpi_parallel_manager.py:431-447 | the workload list and its running prefix sum give the closed form, with the one-row-per-rank branch otherwise |
| Partition.LoadDistributionTiles | ICESEE/src/parallelization/parallel_mpi/icesee_mpi_parallel_manager.py:431-447 | the blocks cover all rows exactly if n exceeds the world size or does not exceed the communicator size |
| Partition.GetIndex | ICESEE/src/utils/tools.py:337-409 | the dictionary and local size built by the loop, and exactly which inputs raise |
| Partition.IndexMapLookup | ICESEE/src/utils/tools.py:394-405 | a variable's entry is its own block of global indices; a repeated name keeps the last |
| Partition.IndexMapHolds | ICESEE/src/utils/tools.py:394-405 | the entry of a name's last occurrence holds exactly the indices of its block, each once, in order |
| Partition.DictionariesPartition | ICESEE/src/utils/tools.py:366-409 | with distinct names, every global index is in exactly one entry of exactly one rank's dictionary, and no other index is |
| Partition.LocalSizeCounts | ICESEE/src/utils/tools.py:366-409 | the local size is the number of indices in the dictionary |
| Partition.IndexMapsPartition | ICESEE/src/utils/tools.py:366-409 | every global state index belongs to exactly one variable on exactly one rank |
| Collectives.IntervalsTile | ICESEE/src/parallelization/parallel_mpi/icesee_mpi_parallel_manager.py:670-685 | counts and displacements tile the flattened row-major buffer exactly |
| Collectives.Gatherv | ICESEE/src/parallelization/parallel_mpi/icesee_mpi_parallel_manager.py:690-704 | contributions land at their displacements and none overwrites another |
| Collectives.MeanFromRoot | ICESEE/src/parallelization/parallel_mpi/icesee_mpi_parallel_manager.py:664-709 | scatter, local mean and gather give every row's sequential mean, for every nd, Nens > 0 and rank count |
| Collectives.DistributedProductIsProduct | ICESEE/src/parallelization/EnKF_parallel_io.py:964-1019 | the Allreduce of H[:, block] times x[block] is H times x, idle ranks included |
| Collectives.RowBlocksAreProduct | ICESEE/src/parallelization/EnKF_parallel_io.py:1172-1181 | stacking every rank's rows times X5 is the whole ensemble times X5 |
| ObservationOperator.WriteH | ICESEE/src/parallelization/EnKF_parallel_io.py:855-938 | for every row block, column chunk and index list the streamed file is the one-hot matrix; errors exactly for an empty or too large index |
| ObservationOperator.WriteChunk | ICESEE/src/parallelization/EnKF_parallel_io.py:913-938 | exactly the rows whose one lies in the chunk become unit rows, all others keep their value |
| ObservationOperator.PlainH | ICESEE/src/utils/utils.py:140-160 | the plain construction is the same one-hot matrix |
| ObservationOperator.ObservationReads | ICESEE/src/utils/utils.py:148-160 | H times x reads x at the observation indices |
| Spectrum.Truncate | ICESEE/src/parallelization/EnKF_parallel_io.py:1066-1088 | the in-place loop leaves the truncated inverse and counts its rank |
| Spectrum.TruncationKeepsShortestPrefix | ICESEE/src/parallelization/EnKF_parallel_io.py:1079-1088 | the kept prefix is the shortest holding 99.9% of the total, each kept value is positive and inverted, the rest is zero |
| Spectrum.ZeroTotal | ICESEE/src/parallelization/EnKF_parallel_io.py:1074-1077 | the guarded zero-sum branch is taken only when every value is zero |
| Transform.EtaRowsSumToZero | ICESEE/src/parallelization/EnKF_parallel_io.py:1002-1024 | rows of Eta sum to zero exactly when H cannot tell the stored mean from the member mean |
| Transform.AnomalyFormsAgree | ICESEE/src/parallelization/_mpi_analysis_functions.py:62-66 | the distributed Eta is H applied to the perturbations |
| Transform.ComputeX5 | ICESEE/src/parallelization/EnKF_parallel_io.py:1035-1119 | the loops and products give X5, and the warning fires exactly when some column sums to zero |
| Transform.X5IsShift | ICESEE/src/parallelization/EnKF_parallel_io.py:1090-1111 | X5[i, j] is w[i] plus the identity, with weights that add up to zero |
| Transform.X5ColumnsSumToOne | ICESEE/src/parallelization/EnKF_parallel_io.py:1110-1114 | every column of X5 sums to one |
| Transform.RootX5IsDistributed | ICESEE/src/parallelization/_mpi_analysis_functions.py:107-161 | X5 built on the root is the X5 built from Allreduced pieces, for any rank count |
| Transform.DistributedAnalysisIsSequential | ICESEE/src/parallelization/EnKF_parallel_io.py:1172-1181 | the whole raw analysis over any number of ranks equals the one-process analysis that reads states by observation index |
| Transform.ShiftKeepsAnomalies | ICESEE/src/parallelization/_mpi_analysis_functions.py:279-283 | multiplying by such a transform leaves every anomaly as it was |
| Transform.SameCovariance | ICESEE/src/parallelization/_mpi_analysis_functions.py:279-283 | equal anomalies give equal ensemble covariance |
| Transform.AnalysisShiftsEnsemble | ICESEE/src/parallelization/EnKF_parallel_io.py:1022-1181 | for every H, ensemble, data and decomposition output the raw analysis moves all members by one vector and keeps anomalies and covariance |
| Solution.X5Solves | ICESEE/src/parallelization/EnKF_parallel_io.py:1066-1111 | X5 is the identity plus Eta transposed times U z, where s[i]^2 z[i, j] is column i of U times column j of D' for every kept value and z is zero for the others |
| Solution.X5SolvesNormalEquations | ICESEE/src/parallelization/EnKF_parallel_io.py:1066-1111 | with orthonormal U, x3 solves U diag(s^2) U' x3 = U U' D' in every kept direction and has no part in the others |
| Solution.AnalysisIsKalmanUpdate | ICESEE/src/parallelization/EnKF_parallel_io.py:1022-1181 | on any number of ranks the raw analysis adds to a state entry the anomaly products with the observed rows times x3, which solves that system for observation minus mean |
| AnalysisUpdate.ForecastMean | ICESEE/src/parallelization/EnKF_parallel_io.py:392-415 | the running sum over members, divided, is the row mean |
| AnalysisUpdate.InflateInPlace | ICESEE/src/EnKF/_localization_inflation.py:47-96 | the same array ends with every entry inflated about its original row mean; a negative factor raises and changes nothing |
| AnalysisUpdate.InflateCopy | ICESEE/src/EnKF/_localization_inflation.py:97-107 | the same values in a new array, unless the factor is one |
| AnalysisUpdate.InflationScalesAnomalies | ICESEE/src/EnKF/_localization_inflation.py:84-107 | row means are kept and anomalies multiplied by exactly the factor |
| AnalysisUpdate.Update | ICESEE/src/parallelization/EnKF_parallel_io.py:1178-1232 | the written ensemble after update, parameter inflation and clamp, and the stored mean |
| AnalysisUpdate.UpdatedEntryLaw | ICESEE/src/parallelization/EnKF_parallel_io.py:1183-1204 | state rows are kept, parameter anomalies are multiplied by the factor, thickness rows are the larger of that and one |
| AnalysisUpdate.StoredMeanIsRawMean | ICESEE/src/run_model_da/icesee_da_partial_parallel.py:621-624 | states times row sums of X5 over Nens is the mean of the updated ensemble, for any X5 |
| AnalysisUpdate.StoredMeanVersusWritten | ICESEE/src/parallelization/EnKF_parallel_io.py:1181-1232 | the stored mean is at most the written ensemble's, equal exactly where the clamp changed no member of the row |
| RankRows.LocalInflationAgrees | ICESEE/src/parallelization/EnKF_parallel_io.py:1181-1191 | the ranks inflate the rows one process would: with state and parameter variables, exactly with one rank, fewer rows than variables, or two ranks and one row short of two per variable; without parameter variables, exactly when all ranks but the last hold whole blocks or rows are fewer than variables; without state variables, always |
| RankRows.LocalClampAgrees | ICESEE/src/parallelization/EnKF_parallel_io.py:1184-1205 | the clamped rows agree in the same cases as inflation with both kinds of variable when thickness and others are present, in those of left-over rows with thickness only, always without |
| RankRows.WholeBlocksIff | ICESEE/src/parallelization/EnKF_parallel_io.py:103-107 | when all ranks but the last hold a multiple of the number of variables, in closed form |
| RankRows.UpdateOnRanksIsUpdate | ICESEE/src/parallelization/EnKF_parallel_io.py:1181-1213 | when both agree, the ranks' updates put together are the update of one process, for every ensemble |
| Rounds.EachMemberForecastOnce | ICESEE/src/parallelization/_mpi_forecast_functions.py:83-87 | every member is forecast by exactly one rank in exactly one round, for every Nens >= ranks |
| Rounds.ForecastRank | ICESEE/src/parallelization/_mpi_forecast_functions.py:82-212 | a rank's list holds the forecasts of its members in round order |
| Rounds.ForecastStep | ICESEE/src/parallelization/_mpi_forecast_functions.py:193-240 | round loops, gather and flattening give column c the forecast of member c / rounds + (c mod rounds) * ranks |
| Rounds.GatheredIsPermutation | ICESEE/src/parallelization/_mpi_forecast_functions.py:215-240 | that index map is a permutation, with its inverse |
| Rounds.GatherIsIdentityIff | ICESEE/src/parallelization/_mpi_forecast_functions.py:215-240 | it is the identity exactly with one round or one rank |
| Rounds.RunSteps | ICESEE/src/parallelization/_mpi_forecast_functions.py:83-240 | the forecasts of any number of steps, passing step and member number to the model, are the modelled run |
| Rounds.RunPermutesTrajectories | ICESEE/src/parallelization/_mpi_forecast_functions.py:83-240 | after any number of steps each column holds the trajectory of one original member, forecast at each step under the number it then has |
| Rounds.OriginInjective | ICESEE/src/parallelization/_mpi_forecast_functions.py:215-240 | no two columns hold the same original member |
| Rounds.GatherKeepsSum | ICESEE/src/parallelization/_mpi_forecast_functions.py:215-240 | every sum over members is unchanged by the gather |
| Rounds.RunKeepsSum | ICESEE/src/parallelization/_mpi_forecast_functions.py:83-240 | over any number of steps, for forecasts that may use the member number, sums over columns are sums over those trajectories |
| Rounds.RunKeepsMean | ICESEE/src/parallelization/_mpi_forecast_functions.py:83-240 | when the forecast ignores the number, the ensemble mean of any component is that of the unscheduled run |
| Rounds.NumbersHarmlessIff | ICESEE/src/parallelization/_mpi_forecast_functions.py:83-240 | every forecast, number-dependent ones included, keeps the ensemble total of the unscheduled run exactly with one round or one rank |
| Rounds.StridedCovers | ICESEE/src/parallelization/_parallel_i_o.py:518 | range(rank, Nens, size) misses no member of its residue class |
| Rounds.InvertMembers | ICESEE/src/parallelization/_parallel_i_o.py:516-561 | strided local inversions applied by the root update every member exactly once, for any rank count |
| BatchStore.EnKFStore.constructor | ICESEE/src/parallelization/EnKF_parallel_io.py:115-137 | the files found are gone and the first batch is open |
| BatchStore.EnKFStore.CreateBatch | ICESEE/src/parallelization/EnKF_parallel_io.py:154-199 | open handles are exactly start .. min(start + batch, nt) - 1, their files are truncated, other files untouched |
| BatchStore.EnKFStore.EnsureBatch | ICESEE/src/parallelization/EnKF_parallel_io.py:286-299 | the batch of t is open, switched only if it was not |
| BatchStore.EnKFStore.Read | ICESEE/src/parallelization/EnKF_parallel_io.py:316-349 | the addressed slice, or an index error exactly for t >= nt |
| BatchStore.EnKFStore.Write | ICESEE/src/parallelization/EnKF_parallel_io.py:328-357 | the addressed slice is replaced and nothing else |
| BatchStore.BatchLaw | ICESEE/src/parallelization/EnKF_parallel_io.py:288-289 | a time is in a batch exactly when that is its batch and it is below nt |
| StoreRuns.StoreKeepsWritesSinceOpened | ICESEE/src/parallelization/EnKF_parallel_io.py:154-357 | on every run, each cell holds the last value written since its batch was last opened |
| StoreRuns.ForwardRunRefinesArray | ICESEE/src/parallelization/EnKF_parallel_io.py:154-357 | on a run that never returns to an earlier batch the store is the plain array, closed batches included |
| StoreRuns.Replay | ICESEE/src/parallelization/EnKF_parallel_io.py:286-357 | a run on the object reaches the modelled state and every read returns the current values |
| StoreRuns.ForwardReadSeesArray | ICESEE/src/parallelization/EnKF_parallel_io.py:316-349 | on a forward run a read returns the last values written |
| StoreRuns.ReadSeesArrayIff | ICESEE/src/parallelization/EnKF_parallel_io.py:286-299 | after a forward run a read of t is right exactly if t's batch is not behind the open one or the value is zero |
| StoreRuns.NewStoreIsEmpty | ICESEE/src/parallelization/EnKF_parallel_io.py:115-137 | a new store object reads zero everywhere |
| StoreRuns.ForecastRound | ICESEE/src/parallelization/_mpi_forecast_functions.py:446-545 | one round: ranks forecast the members read at k and write them at the next time |
| StoreRuns.FullParallelForecast | ICESEE/src/parallelization/_mpi_forecast_functions.py:440-549 | from any open batch, with batches created once: all forecasts arrive and history is kept inside a batch or with one round; otherwise the old batch is erased, only the last round is left, forecast from zeros, and other batches are untouched |
| StoreRuns.ForecastArrivesIff | ICESEE/src/parallelization/_mpi_forecast_functions.py:440-549 | the first member's forecast arrives exactly inside a batch, with one round, or if it is zero anyway |
| StoreRuns.FirstForecastAfterLaunch | ICESEE/src/parallelization/_mpi_forecast_functions.py:446-545 | a process that starts at a step beyond 0 forecasts zeros, exactly which members arriving |
| StoreRuns.LateOpeningErases | ICESEE/src/parallelization/EnKF_parallel_io.py:205-235 | with every rank truncating files it first reaches, over any interleaving a written member survives exactly until another rank first reaches the batch |
| StoreRuns.OneRoundKeepsLastOnly | ICESEE/src/parallelization/EnKF_parallel_io.py:205-235 | ranks that enter a new batch with one member each leave only the last one's |
| FullRun.FullParallelRun | ICESEE/src/run_model_da/icesee_da_full_parallel.py:506-589 | the loop over store, ranks, cursor, forecasts and analyses does a run, and with one batch or one round leaves the plain filter recursion in the files |
| FullRun.RunIsRecursionIff | ICESEE/src/run_model_da/icesee_da_full_parallel.py:506-589 | all runs of all models end with the recursion in the files exactly with one batch or one round |
| FullRun.RunErasesHistory | ICESEE/src/run_model_da/icesee_da_full_parallel.py:506-589 | with several rounds every run ends with all files outside its last batch empty |
| FullRun.RunExists | ICESEE/src/run_model_da/icesee_da_full_parallel.py:506-589 | every model, schedule and initial ensemble has a run |
| FullRun.MachineMatchesStore | ICESEE/src/parallelization/_mpi_forecast_functions.py:440-549 | a step erases and keeps in the store what the restart machine says |
| FullRun.KeptMatchesStore | ICESEE/src/parallelization/_mpi_forecast_functions.py:440-549 | a step the machine drops is in an emptied file, one it keeps in an unchanged one |
| FilterRun.FilterAnalysisIs | ICESEE/src/parallelization/EnKF_parallel_io.py:982-1213 | the analysis in the run, at column km, is the sequential analysis with the observations of column km, inflated and clamped by one process |
| FilterRun.AnalysisRankFree | ICESEE/src/parallelization/EnKF_parallel_io.py:1022-1213 | transform, update, inflation and clamp on several ranks equal those on one where rows agree |
| FilterRun.RunIsSequentialFilter | ICESEE/src/run_model_da/icesee_da_full_parallel.py:506-589 | where moreover no step erases a batch, a run on several ranks leaves in the files the recursion of any model that analyses so |
| FilterRun.OneRankIsSequential | ICESEE/src/run_model_da/icesee_da_full_parallel.py:506-589 | the program on one rank is such a model |
| FilterRun.RunIsRankFree | ICESEE/src/run_model_da/icesee_da_full_parallel.py:506-589 | with any operator, the files hold what one rank computes |
| Schedule.GenerateSchedule | ICESEE/src/utils/utils.py:181-213 | requests are spaced and fill the window; the schedule is strictly increasing, in range and exactly the accepted nearest steps |
| Schedule.WindowLaw | ICESEE/src/utils/utils.py:195-196 | the window is the configured one cut to the model's first and last time |
| Schedule.RequestSpacing | ICESEE/src/utils/utils.py:201-202 | requests begin at the start and follow each other at the interval |
| Schedule.AcceptedIff | ICESEE/src/utils/utils.py:204-209 | a request is accepted exactly when some time of the grid is within half the least gap of it |
| Schedule.SortedSet | ICESEE/src/utils/utils.py:212 | sorted(set(..)): strictly increasing with the same elements |
| Schedule.ScheduledNearRequest | ICESEE/src/utils/utils.py:203-210 | each scheduled step lies within half the smallest grid gap of some request |
| Schedule.MergedRequestsAreClose | ICESEE/src/utils/utils.py:203-212 | two requests share a step only if they are at most one grid gap apart |
| TimeLoop.PassedIsPrefix | ICESEE/src/run_model_da/icesee_da_partial_parallel.py:463-464 | on an increasing schedule the observed steps before k are the first ones |
| TimeLoop.Loop | ICESEE/src/run_model_da/icesee_da_full_parallel.py:506-589 | from either starting cursor the loop does the remaining analyses in order and ends with the number of observed steps |
| TimeLoop.FreshLoop | ICESEE/src/run_model_da/icesee_da_partial_parallel.py:390-719 | from km = 0 every scheduled step below nt is assimilated exactly once, in order, in its own column |
| TimeLoop.AssimilateSchedule | ICESEE/src/run_model_da/icesee_da_partial_parallel.py:390-719 | schedule and loop together: every accepted request before nt is assimilated, and nothing else |
| TimeLoop.ResumeCursorExact | ICESEE/src/utils/tools.py:886-906 | the resumed cursor is the uninterrupted one, or exactly one ahead when k_start is observed |
| TimeLoop.ResumeCursorCounts | ICESEE/src/utils/tools.py:886-906 | for any given number of observations, clamped, the cursor counts those at or before k_start |
| TimeLoop.RunLaunch | ICESEE/src/run_model_da/icesee_da_full_parallel.py:345-589 | one launch, fresh or resumed: cursor recomputed from its first step, then the loop |
| TimeLoop.LaunchAssimilates | ICESEE/src/run_model_da/icesee_da_full_parallel.py:345-346 | a launch assimilates a scheduled step, in its own column, exactly when the step lies strictly inside it |
| TimeLoop.InterruptedRun | ICESEE/src/run_model_da/icesee_da_full_parallel.py:345-346 | what the two launches of an interrupted run assimilate, the first one starting at step 0 |
| TimeLoop.InterruptionLosesExactlyOne | ICESEE/src/run_model_da/icesee_da_full_parallel.py:345-346 | together they are the uninterrupted run exactly if k_start is 0 or not observed, otherwise only that analysis is missing; they are the whole schedule exactly if neither 0 nor k_start is observed |
| TimeLoop.RestartsLoseOnlyTheirStarts | ICESEE/src/run_model_da/icesee_da_full_parallel.py:345-346 | over any number of crashes and restarts a missing analysis is one at a start step, and all of those are missing when each launch resumes where the last stopped |
| TimeLoop.FillColumns | ICESEE/src/parallelization/EnKF_parallel_io.py:761-791 | each column is generated once, at its own step, for every variable: observed rows, measured bed rows in snapshot columns, zeros elsewhere; later columns are untouched |
| Checkpoint.Checkpointer.AtomicWriteJson | ICESEE/src/utils/tools.py:861-873 | whichever operation fails or is never reached, the path holds the old or the whole new payload |
| Checkpoint.AttemptIsMoves | ICESEE/src/utils/tools.py:861-873 | every call of the atomic write, whatever fails in it, is a sequence of moves of the machine |
| Checkpoint.SaveCheckpoint | ICESEE/src/utils/tools.py:861-877 | saving through the method keeps the invariant of the machine |
| Checkpoint.NextKeepsSound | ICESEE/src/run_model_da/icesee_da_full_parallel.py:506-611 | every move of the machine keeps the invariant |
| Checkpoint.CheckpointSafetyIff | ICESEE/src/run_model_da/icesee_da_full_parallel.py:293-313 | over every run and crash point the path is complete, no stored step is beyond the completed ones and no step is worked on early, exactly when a launch without checkpoint starts at 0 or does nothing |
| Checkpoint.SavedStepIsResumedAfter | ICESEE/src/run_model_da/icesee_da_full_parallel.py:594-611 | on every behaviour, once the save of step k is in place a launch starts at k + 1 |
| Checkpoint.CrashedStepIsResumed | ICESEE/src/run_model_da/icesee_da_full_parallel.py:813-829 | on every behaviour, once the crash handler's save is in place a launch starts at the step that was worked on |
| Checkpoint.SavedExactlyAtMultiples | ICESEE/src/run_model_da/icesee_da_full_parallel.py:594-596 | a completed step is saved exactly if it is a multiple of the interval or the last |
| Checkpoint.LostWorkIsBounded | ICESEE/src/run_model_da/icesee_da_full_parallel.py:594-611 | over any crashes and restarts in which loop saves succeed, a crash costs fewer steps than the interval |
| Checkpoint.HistoryKeptIff | ICESEE/src/run_model_da/icesee_da_full_parallel.py:293-313 | a step is always worked on with the results of all earlier steps in the files exactly when there is one step at most, no step can complete, restarting is off and the run has one batch or one round, or a restarting run never gets past step 0 |
| Checkpoint.UnsafeLaunch | ICESEE/src/utils/tools.py:851-856 | otherwise a three-state run works on a step whose predecessors never ran |
| Checkpoint.FirstLaunch | ICESEE/src/run_model_da/icesee_da_full_parallel.py:293-313 | the first launch starts at min(batch size, nt) with restart and serial creation, else at 0 |
| Checkpoint.DefaultFirstLaunch | ICESEE/src/run_model_da/icesee_da_full_parallel.py:147-148 | with defaults it computes nothing up to nt = 100 and skips a batch beyond; a forced fresh start begins at 0 |
| RandomPhases.Phases1D | ICESEE/src/run_model_da/_error_generation.py:475-483 | the masked assignments give the phase function |
| RandomPhases.DrawsOf1D | ICESEE/src/run_model_da/_error_generation.py:475-483 | each index of the lower half has its own draw, its mirror image the opposite one, middle indices none |
| RandomPhases.Hermitian1D | ICESEE/src/run_model_da/_error_generation.py:475-483 | phases at negated indices are opposite modulo one, for odd and even sizes |
| RandomPhases.Phases2D | ICESEE/src/run_model_da/_error_generation.py:833-853 | the double loop with done flags settles each conjugate pair once, from its first point |
| RandomPhases.DrawsOf2D | ICESEE/src/run_model_da/_error_generation.py:833-853 | the same for the lower half plane and the lower halves of its middle rows |
| RandomPhases.Hermitian2D | ICESEE/src/run_model_da/_error_generation.py:833-853 | the same opposition on the grid |
| RandomPhases.FreqIsEven | ICESEE/src/run_model_da/_error_generation.py:408 | the squared wave number is even under index negation |
| RandomPhases.FreqLaw | ICESEE/src/run_model_da/_error_generation.py:408 | the wave number index is the representative of k modulo n around zero |
| RandomPhases.AngleLaw | ICESEE/src/run_model_da/_error_generation.py:473-489 | the angle of a term is zero at the origin and grows by k / n of a turn per point |
| RandomPhases.InverseTransformIsReal1D | ICESEE/src/run_model_da/_error_generation.py:473-489 | the imaginary part of the inverse transform is zero at every point |
| RandomPhases.InverseTransformIsReal2D | ICESEE/src/run_model_da/_error_generation.py:833-857 | the same in two dimensions |
| Taper.LocalizationMatrix | ICESEE/src/EnKF/_localization_inflation.py:276-296 | the two masked assignments give the weight of each normalised distance |
| Taper.FormsAgreeIff | ICESEE/src/EnKF/_localization_inflation.py:465-487 | both implementations agree exactly on nonnegative arguments and roots of the polynomial |
| Taper.FarFactored | ICESEE/src/EnKF/_localization_inflation.py:483-484 | the factorisation of the outer piece |
| Taper.Junctions | ICESEE/src/EnKF/_localization_inflation.py:478-487 | one at zero, and the pieces meet at one and two |
| Taper.Lipschitz | ICESEE/src/EnKF/_localization_inflation.py:478-487 | the weight falls by at least nothing and at most five times the distance, hence is continuous everywhere |
| Taper.NonIncreasing | ICESEE/src/EnKF/_localization_inflation.py:478-487 | the weight never grows with distance |
| Taper.WithinUnit | ICESEE/src/EnKF/_localization_inflation.py:478-487 | the weight lies in [0, 1] and is zero from two on |
| Taper.LocalizationShape | ICESEE/src/EnKF/_localization_inflation.py:276-296 | the same for localised distances, with the cut-off at the localisation radius |
| Geometry.RepairGeometry | ICESEE/src/parallelization/_parallel_i_o.py:417-442 | in place, each thickness and surface entry becomes its repaired value and every other row, the bed included, is untouched |
| Geometry.RepairedPoint | ICESEE/src/parallelization/_parallel_i_o.py:417-442 | thin ice is one thick, other ice keeps its thickness; grounded ice stands on the bed, floating ice displaces its weight, on the flotation line the surface stays |
| Geometry.RepairIsIdempotent | ICESEE/src/parallelization/_parallel_i_o.py:426-441 | thickness is at least one and a second repair changes nothing |
| Geometry.BaseRespectsBed | ICESEE/src/parallelization/_parallel_i_o.py:429-441 | the base is at the bed when grounded, strictly above when floating, and the exact condition for not below |
| Geometry.FlotationLineIsUnchecked | ICESEE/src/parallelization/_parallel_i_o.py:429-441 | a point on the flotation line whose base ends below the bed |
| ElapsedTime.FieldsAddUp | ICESEE/src/utils/tools.py:655-661 | the clock fields are in range and add up to the whole seconds and milliseconds |
| ElapsedTime.PaddedReads | ICESEE/src/utils/tools.py:662 | a printed field reads back and holds no separator |
| ElapsedTime.ParsersInvertPrinter | ICESEE/scripts/plotting/scaling_line_bar_plots.py:17-35 | both parsers turn the printed text of any time, of any number of days or negative, into the time truncated to the millisecond |
| ElapsedTime.SecondParserReads | ICESEE/scripts/plotting/scaling_plots.py:6-30 | the second parser reads any four-field clock text with three decimals |
| ElapsedTime.ThreeFields | ICESEE/scripts/plotting/scaling_line_bar_plots.py:17-35 | both parsers read hours, minutes and seconds |
| ElapsedTime.TwoFields | ICESEE/scripts/plotting/scaling_plots.py:6-30 | of minutes and seconds the first parser drops the minutes, so the parsers agree exactly if there are none |

## Left out

- The singular value decomposition, the FFT and the random generators: their outputs are parameters. Of the spectrum only "nonnegative and descending" is used, of the sine only oddness and period one; draws are indexed by the point they are for.
- Floating-point rounding: all numbers are exact reals.
- Model forecasts, inversions and process noise: functions of one member. Noise carried from round to round is not modelled.
- HDF5, Zarr, barriers and deadlock: files are maps from time to matrix, ranks act round by round.
- Truncate: models the guarded loop; `EnKF_X5` has no zero-sum guard and divides zero by zero there.
- GetIndex: models the `var_nd` branch; the equal-size branch is left out.
- ForecastStep: needs Nens to be a multiple of the rank count, because the root buffer does not fit the senders otherwise; fewer members than ranks is left out.
- Update: the local_analysis branch, DEnKF and the per-timestep bed relaxation are left out.
- InflateInPlace: the non-scalar factor is left out; the code uses an undefined array there.
- CreateBatch: models creation by one rank, or by all ranks collectively; creation by several one-rank communicators, which members lose their columns to, is covered by LateOpeningErases, which takes a rank's opening and write as one step. A file that cannot be deleted is not modelled.
- FullParallelForecast: needs serial creation or one rank, as several one-rank communicators truncate files per rank; fewer members than ranks is left out.
- FullParallelRun: as FullParallelForecast, and the ensemble is initialised; with restart and serial creation the program finds the empty file of step 0 and skips that.
- RunIsRecursionIff: the state has at least one row, without which no file can be made.
- UpdateOnRanksIsUpdate: one block of rows per input variable.
- FilterAnalysis: the decomposition is a function of column and ensemble; the stored mean and the mean file are not part of the run.
- Loop: the observed steps and their number come from one schedule; the skip guard on existing step files is off.
- CheckpointSafetyIff: without the user override of the start step and without `enforce_contiguous_history`; "completed" means computed by some process, and HistoryKeptIff says when the results are still there. The current step is unset when a process starts.
- ParsersInvertPrinter: int() and float() accept more texts than the numerals modelled here (spaces, underscores, exponents); the log line search is left out.
- LocalizationMatrix: takes the matrix flattened; the Gaussian branch and the other tapers are left out.
- PlainH: the choice of observation indices, with bed masks and missing data, is an input.
- FillColumns: bed masks and snapshot columns are inputs, and a row belongs to one variable; truth plus noise is one function of row, truth column and observation.
- Spack packaging, configuration, plotting, timers and logging.
