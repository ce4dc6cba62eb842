# Adaptive confidence intervals: weights, simulation tables and file naming

This project models three pieces of the adaptive-inference experiment code:

- **The two-point allocation-rate ratio.** `twopoint_stable_var_ratio` computes, for every round t and
  arm, λ = (1 − e)/(1 + T·(t/T)^α − t) + e²/(1 + T − t) from the propensity
  matrix e. It then asserts that every λ lies in [0, 1]. The model returns the
  matrix, or `Err(AssertionError)` when an entry is non-finite (a zero
  `bad_denom`) or outside [0, 1]. It proves that propensities in [0, 1] and
  t/T ≤ (t/T)^α ≤ 1 (a decay 0 ≤ α ≤ 1) rule the failure out. It also proves
  that for every α > 1 and T ≥ 2, where 0 < (1/T)^α < 1/T, an arm with
  propensity 0 in round 1 gets λ > 1, so one of the two assertions fires
  (`lamb >= 0` fires first when any entry is negative or NaN).
- **The array and table steps of one simulation replicate** (`experiments/simulations.py`):
  - the baseline-mean shift;
  - the uniform and propensity-score weights;
  - the constant-allocation ("lvdl") ratio 1/(T − t + 1);
  - the `abserr` row;
  - the column-major long tables for arm statistics and contrasts;
  - the per-replicate table, which concatenates every method's statistics
    table and then every method's contrast table. The method `ReplicateTable`
    builds it with the source's two append loops and is proved equal to the
    specification `ReplicateRows`.
- **File and directory naming** (`adaptive_CI/saving.py`):
  - `compose_filename` joins the non-empty identifiers with `_` and adds
    `.extension`. The commit hash and the time stamp are inputs; the commit is
    empty when git exits with a non-zero status.
  - `get_sherlock_dir` builds the cluster path with `os.path.join` semantics
    and stays pure: the user name, whether the path exists and whether the
    run is on the cluster are parameters. It returns the `makedirs`/`chmod`
    calls it would make, in order, as a list of effects.

Modules follow the source files: `Weights` (weights.dfy), `Simulations`
(simulations.dfy) and `Saving` (saving.dfy). `Weights` and `Simulations`
share `Arrays` (matrices, `Option`, `Result`), and `Saving` and `Simulations`
import `Decimal`
(`str(n)` for non-negative integers and its inverse).

Where code and documentation disagree, the model follows the code. The
docstring of `get_sherlock_dir` shows the layout
`.../athey/username/project/...` and one example with a trailing slash. The
code puts the project before the user name, and the call of that example,
`get_sherlock_dir('toronto')`, returns a path without the trailing slash
(`Saving.DocTrailingSlashDoesNotHold`). For plain components (non-empty and
without `/`) the path never ends with a slash (`Saving.SherlockPathLayout`);
an empty last component does give one, so `get_sherlock_dir('toronto', '')`
returns the documented string (`Saving.EmptyTailEndsWithSlash`). The other two
docstring examples hold (`Saving.DocExampleNoTail`,
`Saving.DocExampleWithTail`).

## Model

| member | source | states |
|---|---|---|
| Weights.GoodDenom | adaptive_CI/weights.py:43 | `good_denom` = 1 + T − t is at least 1 on every row 1..T |
| Weights.TwoPointRatio | adaptive_CI/weights.py:38-49 | a successful result has the shape of e and every entry in [0, 1]; the result is the assertion error exactly when some λ is non-finite or outside [0, 1] |
| Weights.TwoPointRatioEntry | adaptive_CI/weights.py:40-45 | entry [i, k] of a successful result is λ of e[i][k] on row i + 1, and that λ is finite |
| Weights.BadDenomAtLeastOne | adaptive_CI/weights.py:42 | `bad_denom` ≥ 1 whenever (t/T)^α ≥ t/T, and = 1 on the last row when (T/T)^α = 1 |
| Weights.LambdaInUnitInterval | adaptive_CI/weights.py:42-48 | for 0 ≤ e ≤ 1 and t/T ≤ (t/T)^α, λ is finite, passes both assertions, and is at most 1 − e + e² |
| Weights.TwoPointRatioSucceeds | adaptive_CI/weights.py:38-49 | valid propensities and powers never trigger the assertions: the result is always a matrix |
| Weights.TwoPointRatioIsEntrywise | adaptive_CI/weights.py:40-45 | each entry depends only on its own propensity, its row and T (the computation is elementwise) |
| Weights.LambdaFinalRow | adaptive_CI/weights.py:42-45 | on row T the two denominators are 1 and λ = 1 − e + e² |
| Weights.LambdaSaturated | adaptive_CI/weights.py:42-45 | with e = 1 the `bad_denom` term vanishes and λ = 1/(T − t + 1) |
| Weights.TwoPointRatioFailsForSteepDecay | adaptive_CI/weights.py:42-48 | one instance: with α = 2, T = 2 and a zero propensity, λ = 2 on row 1 and the `lamb <= 1` assertion fires |
| Weights.LambdaExceedsOneBelowFloor | adaptive_CI/weights.py:42-45 | with e = 0 on a row where (t/T)^α < t/T and `bad_denom` > 0, λ is finite and greater than 1 |
| Weights.TwoPointRatioFailsBelowFloor | adaptive_CI/weights.py:40-48 | a zero propensity on such a row makes the computation fail with the assertion error |
| Weights.SteepDecayFirstRow | adaptive_CI/weights.py:42 | for T ≥ 2 and 0 < (1/T)^α < 1/T (every α > 1), `bad_denom` on round 1 lies strictly between 0 and 1 |
| Weights.TwoPointRatioFailsForAnySteepDecay | adaptive_CI/weights.py:38-48 | for every α > 1 and T ≥ 2, a zero propensity in round 1 makes the computation fail with the assertion error (one of the two assertions fires) |
| Weights.BadDenom | adaptive_CI/weights.py:42 | no contract of its own; pinned by `BadDenomAtLeastOne`, `SteepDecayFirstRow` |
| Weights.Lambda | adaptive_CI/weights.py:42-45 | no contract of its own; pinned by `LambdaInUnitInterval`, `LambdaFinalRow`, `LambdaSaturated`, `LambdaExceedsOneBelowFloor` |
| Weights.Entry | adaptive_CI/weights.py:40-45 | no contract of its own; pinned by `TwoPointRatioEntry`, `TwoPointRatioIsEntrywise` |
| Decimal.NatToString | adaptive_CI/saving.py:44 | `str(n)` is a non-empty string of digits with no leading zero unless n = 0 |
| Decimal.ParseNatToString | adaptive_CI/saving.py:44 | reading the digits of `str(n)` back gives n |
| Decimal.NatToStringInjective | experiments/simulations.py:252 | distinct numbers render to distinct strings |
| Arrays.Zeros | experiments/simulations.py:139 | `np.zeros(K)`: K entries, every one 0 |
| Arrays.Abs | experiments/simulations.py:237 | `np.abs` of one entry: non-negative and equal to x or −x |
| Simulations.BaselineMeans | experiments/simulations.py:139 | the baseline has T rows (one for T = 0) of K entries; row 0 is zero and row t is the mean row of round t − 1 |
| Simulations.BaselineMeansUsesOnlyThePast | experiments/simulations.py:139 | baseline row t depends only on the mean rows before t |
| Simulations.ElementaryWeights | experiments/simulations.py:153-154 | uniform weights are 1 everywhere and propensity weights equal the propensities, with the shape of `probs` |
| Simulations.ElementaryWeightsNonNegative | experiments/simulations.py:153-154 | both schemes give non-negative weights on non-negative propensities |
| Simulations.ConstantAllocationRatio | experiments/simulations.py:194 | the T×K ratio has entry [i, k]·(T − i) = 1 |
| Simulations.ConstantAllocationRatioBounds | experiments/simulations.py:194 | every entry lies in (0, 1], and the last row is 1 |
| Simulations.ConstantAllocationRatioIncreasing | experiments/simulations.py:194 | the ratio strictly increases from row to row |
| Simulations.SaturatedTwoPointIsConstantAllocation | experiments/simulations.py:193-195 | the two-point ratio of an all-ones propensity matrix is exactly the constant-allocation ratio |
| Simulations.WithAbsErr | experiments/simulations.py:237 | one row is appended, the original rows are kept, and the new row is the absolute bias (row 2), which is non-negative |
| Simulations.RepeatList | experiments/simulations.py:238 | `labels * n` has n times the number of labels elements |
| Simulations.RepeatListAt | experiments/simulations.py:238 | element j of `labels * n` is label j mod (number of labels) |
| Simulations.RepeatEach | experiments/simulations.py:239 | `np.repeat(xs, n)` has n times the length of xs elements |
| Simulations.RepeatEachAt | experiments/simulations.py:239 | element j of `np.repeat(xs, n)` is element j div n of xs |
| Simulations.FlattenColumns | experiments/simulations.py:240 | the column-major flattening of an R×C matrix has R·C values |
| Simulations.FlattenColumnsAt | experiments/simulations.py:240 | value j of the column-major flattening is entry (j mod R, j div R) |
| Simulations.LongTable | experiments/simulations.py:238-242 | the long table has R·C rows |
| Simulations.LongTableRow | experiments/simulations.py:238-242 | row j carries label j mod R, policy j div R, entry (j mod R, j div R), the method name and the configuration |
| Simulations.StatsTable | experiments/simulations.py:236-242 | an arm-statistics table has 9·K rows |
| Simulations.StatsTableLayout | experiments/simulations.py:237-242 | row j is statistic j mod 9 of arm j div 9 (the labels are the constant `StatsLabels`, the list of line 238), with the stored value, or the absolute bias on the `abserr` row |
| Simulations.AbsErrIsAbsoluteBias | experiments/simulations.py:237-240 | for every arm the `abserr` row is the absolute value of the same arm's `bias` row |
| Simulations.ContrastTable | experiments/simulations.py:248-255 | a contrast table has 8·(K − 1) rows |
| Simulations.ContrastTableLayout | experiments/simulations.py:249-255 | row j is statistic j mod 8 of contrast "(0,k)" with k = j div 8 + 1 (the labels are the constant `ContrastLabels`, the list of lines 249-251) and the stored value |
| Simulations.Frame | experiments/simulations.py:238-242 | no contract of its own; pinned by `LongTable`, `LongTableRow` |
| Simulations.ArmPolicies | experiments/simulations.py:239 | no contract of its own; pinned by `StatsTableLayout`, `StatsRowsAreArms` |
| Simulations.Pairs | experiments/simulations.py:252 | no contract of its own; pinned by `ContrastTable`, `ReplicateRowsLength` |
| Simulations.PolicyText | experiments/simulations.py:239-252 | no contract of its own; pinned by `ContrastLabelInjective` |
| Simulations.ContrastPolicies | experiments/simulations.py:252 | no contract of its own; pinned by `ContrastTableLayout`, `ContrastRowsArePairs` |
| Simulations.ContrastLabel | experiments/simulations.py:252 | no contract of its own; pinned by `ContrastLabelInjective` |
| Simulations.ContrastLabelInjective | experiments/simulations.py:252 | different arms k give different labels "(0,k)" |
| Simulations.Concat | experiments/simulations.py:258 | no contract of its own; pinned by `ConcatAppend`, `ConcatLength`, `ConcatBlocks`, `ConcatMember` |
| Simulations.ConcatAppend | experiments/simulations.py:258 | concatenating two lists of tables is concatenating their concatenations |
| Simulations.ConcatLength | experiments/simulations.py:258 | m tables of n rows concatenate to m·n rows |
| Simulations.ConcatBlocks | experiments/simulations.py:258 | table m of equally long tables starts at row m·n of the concatenation |
| Simulations.ConcatMember | experiments/simulations.py:258 | every concatenated row comes from one of the tables |
| Simulations.StatsTables | experiments/simulations.py:235-243 | one arm-statistics table of 9·K rows per method |
| Simulations.ContrastTables | experiments/simulations.py:247-256 | one contrast table of 8·(K − 1) rows per method |
| Simulations.ReplicateTable | experiments/simulations.py:235-258 | the two append loops and the final concatenation give exactly `ReplicateRows` |
| Simulations.ReplicateRows | experiments/simulations.py:258 | no contract of its own; pinned by `ReplicateRowsLength`, `ReplicateStatsBlock`, `ReplicateContrastBlock`, `ReplicateArmRowsFirst` |
| Simulations.ReplicateRowsLength | experiments/simulations.py:258 | the replicate table has 9K rows per statistics table plus 8(K − 1) per contrast table |
| Simulations.ReplicateStatsBlock | experiments/simulations.py:258 | the statistics table of method m occupies rows m·9K onward, in insertion order |
| Simulations.ReplicateContrastBlock | experiments/simulations.py:258 | the contrast table of method m follows all statistics tables, at row 9K times the number of methods + m·8(K − 1) |
| Simulations.StatsRowsAreArms | experiments/simulations.py:239 | every row of the statistics part has an arm policy |
| Simulations.ContrastRowsArePairs | experiments/simulations.py:252 | every row of the contrast part has a contrast policy |
| Simulations.ReplicateArmRowsFirst | experiments/simulations.py:258 | no arm row comes after a contrast row |
| Saving.NonEmpty | adaptive_CI/saving.py:46 | `filter(None, parts)` keeps exactly the non-empty parts and drops every empty one |
| Saving.NonEmptyAppend | adaptive_CI/saving.py:46 | filtering distributes over concatenation |
| Saving.NonEmptyDropsBlank | adaptive_CI/saving.py:45-46 | a blank identifier never contributes to the name |
| Saving.IdentParts | adaptive_CI/saving.py:45-46 | no contract of its own; pinned by `FilenameParts` |
| Saving.Join | adaptive_CI/saving.py:47 | no contract of its own; pinned by `FilenameParts`, `FilenameWithCommit`, `FilenameWithoutCommit` |
| Saving.ComposeFilename | adaptive_CI/saving.py:21-49 | no contract of its own; pinned by `FilenameParts`, `StampRoundTrip` |
| Saving.FilenameParts | adaptive_CI/saving.py:44-49 | the name is the `_`-join of the non-empty members of [prefix, commit, rnd], a dot and the extension |
| Saving.FilenameWithCommit | adaptive_CI/saving.py:44-49 | with every identifier present the name is prefix_commit_rnd.extension |
| Saving.FilenameWithoutCommit | adaptive_CI/saving.py:40-49 | when git exits with a non-zero status (empty commit) the name is prefix_rnd.extension |
| Saving.FilenameAllEmpty | adaptive_CI/saving.py:46-48 | with every identifier empty the name is "." followed by the extension |
| Saving.StampIsLastField | adaptive_CI/saving.py:44-48 | a stamp without `_` is the last `_`-field of the name without its extension |
| Saving.StampRoundTrip | adaptive_CI/saving.py:44-48 | the integer time stamp is read back from the name, whatever the prefix and commit |
| Saving.PathJoin | adaptive_CI/saving.py:72-73 | no contract of its own; pinned by `PathJoinAllPlain`, `PathJoinEmpty` |
| Saving.PathJoinAll | adaptive_CI/saving.py:72-73 | no contract of its own; pinned by `PathJoinAllPlain`, `SherlockPathLayout` |
| Saving.SherlockBase | adaptive_CI/saving.py:72 | no contract of its own; pinned by `SherlockBaseLayout` |
| Saving.SherlockPath | adaptive_CI/saving.py:73 | no contract of its own; pinned by `SherlockPathLayout`, `EmptyTailEndsWithSlash` |
| Saving.PermissionPaths | adaptive_CI/saving.py:77-81 | one directory per tail prefix, from the base down: one more than the tail has components of them |
| Saving.ChmodAll | adaptive_CI/saving.py:78-81 | one `chmod(·, 0o775)` per directory, in order (the mode is the constant `GroupWritable`) |
| Saving.PermissionPathsStep | adaptive_CI/saving.py:79-81 | each tail component adds its directory after the previous ones |
| Saving.GetSherlockDir | adaptive_CI/saving.py:55-82 | returns the joined path; only when the path is missing, creation is asked and the run is on the cluster: makedirs(path) and then chmod of base and of each tail prefix; no effect otherwise |
| Saving.PermissionPathsEnds | adaptive_CI/saving.py:77-81 | permissions are set from the base down to the returned path itself |
| Saving.PermissionPathsArePrefixes | adaptive_CI/saving.py:77-81 | for plain components, each directory is a prefix of the path and one component longer than the previous one |
| Saving.PathJoinAllPlain | adaptive_CI/saving.py:72-73 | joining plain components adds exactly one `/` before each |
| Saving.SherlockBaseLayout | adaptive_CI/saving.py:72 | the base is "/scratch/groups/athey/" + project + "/" + user |
| Saving.SherlockPathLayout | adaptive_CI/saving.py:72-73 | the path is the base followed by "/" + c for each tail component, in order |
| Saving.DocExampleNoTail | adaptive_CI/saving.py:63-64 | the first documented example holds |
| Saving.DocExampleWithTail | adaptive_CI/saving.py:69-70 | the third documented example holds |
| Saving.DocTrailingSlashDoesNotHold | adaptive_CI/saving.py:61-67 | for `get_sherlock_dir('toronto')` the path has no trailing slash (second example) and puts the project before the user (layout line), contrary to the docstring |
| Saving.PathJoinEmpty | adaptive_CI/saving.py:73 | joining an empty component appends one `/` unless the path is empty or already ends with one |
| Saving.EmptyTailEndsWithSlash | adaptive_CI/saving.py:66-67 | with one empty tail component the path ends with `/`, which is how the second documented string can come out |

## Left out

- Exponentiation: Dafny has no real power function, so (t/T)^α is an input `pw`. `ValidPowers` states the only property the bound needs, t/T ≤ (t/T)^α ≤ 1, which holds for 0 ≤ α ≤ 1.
- Weights.TwoPointRatio: numpy's shape errors are not modelled; `requires |pw| == |e|` stands for the broadcast of `t` against e. Floating point is modelled as exact reals, so rounding near the [0, 1] bounds is not captured.
- The commented-out older ratio in `adaptive_CI/weights.py` (lines 9-34) is dead code and is not modelled. `stick_breaking`, `twopoint_stable_var_ratio_old` and the estimators that `simulations.py` calls (`sample_mean`, `aw_scores`, `aw_stats`, `aw_contrasts`, the Bernstein bounds) are defined in other files and are outside the modelled core. `BaselineMeans` takes the sample means as an input.
- Simulations.ElementaryWeights: the square-root weights (`np.sqrt(probs)` and the two-point weights built from it) are not modelled, because Dafny has no real square root.
- Simulations.BaselineMeans: `requires HasShape(means, |means|, K)` excludes the `ValueError` that `np.row_stack` raises on rows of different lengths.
- Simulations.WithAbsErr: `requires |stat| > 2` excludes the `IndexError` of `stat[2]` on a matrix with fewer than three rows.
- Simulations.ReplicateRows: `pd.concat` keeps each table's own 0-based index, so index labels repeat in the result; a `seq<Row>` keeps the row positions only.
- Simulations.BaselineMeans: for T = 0 `np.row_stack` gives a single zero row, and the model keeps that one row.
- Simulations.StatsTable and ContrastTable: the statistics matrices are inputs of the stated shapes (8×K and 8×(K − 1)); a mismatched matrix, which would make pandas raise, is excluded by `requires`.
- Simulations.Concat: `pd.concat([])` raises a `ValueError`, while `Concat([])` is the empty table. The source's method dictionaries always hold six entries, so that case does not arise there.
- The policy column: a contrast cell stores the arm k rather than the string "(0,k)". `PolicyText` renders it, and `ContrastLabelInjective` shows that no information is lost.
- The random data generation, the bandit run, the replicate loop over `dfs`, the final concatenation across replicates, pickling and printing: they are I/O or randomness outside the modelled core. The commented-out W-decorrelation and saved-timepoint blocks have no effect and are not modelled.
- Saving.ComposeFilename: the git call and the clock are replaced by the `commit` and `rnd` inputs. `commit` is empty only when git exits with a non-zero status (`CalledProcessError`); when the `git` executable cannot be run, `check_output` raises an `OSError` (`FileNotFoundError`) that escapes `compose_filename`, and that failure path is not modelled. The float computation `int(time() * 1e8 % 1e8)` is not modelled; `StampRoundTrip` takes its integer result.
- Saving.GetSherlockDir: `create` is a required parameter; its source default (true) is not modelled. `getuser()`, `exists(path)` and `on_sherlock()` (the `GROUP_SCRATCH` environment test) are parameters. `makedirs` and `chmod` are returned as effects and never performed, so file-system failures and concurrent creation are not captured.
- Saving.PathJoin: it models `posixpath.join` for string components only; bytes paths are not modelled.
