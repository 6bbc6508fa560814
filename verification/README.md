# DevOps AI Agent: a Dafny model of the anomaly-to-report pipeline

The agent reads a batch of node metrics (`timestamp, node, cpu, memory,
latency_ms`), flags anomalous rows, and writes one incident report for each
of the most recent anomalies. Flagging uses either a rolling z-score on `cpu`
or an isolation forest on all three metrics. Each report is a runbook-style
remediation suggestion followed by four metadata bullets.

This project models that pipeline in Dafny and proves properties of the model.

| module | file | models |
|---|---|---|
| `Wrappers` | wrappers.dfy | `Option` and `Result` |
| `Metrics` | metrics.dfy | the batch rows and the timestamp kinds |
| `Lines` | lines.dfy | `str.split("\n")`, `"\n".join`, `str.strip` (the `str.isspace` set) |
| `Format` | format.dfy | `format(x, ".1f")` and `".0f"`, `round(x, 2)`, `str()` of the rounded float; all over exact reals |
| `Advisor` | advisor.dfy | `suggest_action`: the nine-branch cascade, the message texts, the history note |
| `Detectors` | detectors.dfy | `rolling_zscore_anomalies`, forward/backward gap filling, the isolation-forest wrapper |
| `Summarizer` | summarizer.dfy | `templated_summary`, including `textwrap.dedent` and `strip` |
| `Agent` | agent.dfy | `main` without I/O: configuration defaults, detection, selection with `tail(limit)`, reports, console output and the reports file |

Main modelling decisions:

- **The z-score is kept as a pair.** It is stored as (deviation, variance), so the model never takes a square root. A row is flagged when the variance is positive and `deviation² ≥ zthr² · variance` (or `zthr ≤ 0`). `Detectors.ExceedsMatchesDivision` proves this is the same test as `|deviation / σ| ≥ zthr`. Rows where pandas produces NaN are `None`:
  - the rows before the window fills;
  - windows with zero standard deviation.

  A comparison against NaN is false, so those rows are never flagged.
- **The isolation forest is a function parameter.** Its fitting and prediction come in as a parameter, constrained only to return one label per sample.
- **Numbers are exact reals, rounded half-to-even.** Python's formatting rounds the exact binary value correctly; over exact reals, half-to-even is the counterpart.
- **The report keeps its four-space indentation.** Every suggestion is at least two lines, and each line starts at column 0 (`Advisor.TemplateLinesSolid`). So the common margin `textwrap.dedent` finds is empty. The bullet lines keep their four-space indent in every report `main` writes for a row whose node id, metric label and timestamp text have no line break (`Agent.ReportLayout`). A one-line suggestion, such as the default, gives flush bullets (`Summarizer.SingleLineLayout`); so would a suggestion whose later lines are all blank or indented by at least four spaces, which never reaches the summary from `main` when the node id is a single line.

## Model

| member | source | states |
|---|---|---|
| `Advisor.ReadingOf` | src/agent.py:28-30 | an absent `cpu`, `memory` or `latency_ms` key reads as 0 |
| `Advisor.NodeOf` | src/agent.py:31 | an absent `node` key reads as `"unknown"` |
| `Advisor.ClassifyIsElifChain` | src/agent.py:33-93 | the ordered rule table (first guard that holds wins) picks the same branch as the `if/elif` chain for every reading, and some rule always holds, so the fallback text of line 34 is never returned |
| `Advisor.ClassifyFirstMatch` | src/agent.py:37-93 | the chosen branch's guard holds and no earlier guard does |
| `Advisor.LeakBranchIff` | src/agent.py:37-43 | the leak/saturation text is chosen exactly when cpu ≥ 90 and memory ≥ 85 |
| `Advisor.LeakBeatsCpuSpike` | src/agent.py:37-63 | a reading that also meets the CPU-spike guard gets the earlier leak/saturation branch (order matters) |
| `Advisor.MildIff` | src/agent.py:88-93 | the informational text is chosen exactly when cpu < 80, memory < 75 and latency < 150 |
| `Advisor.HighCpuBranches` | src/agent.py:37-69 | cpu ≥ 80 always yields one of the four CPU-driven branches |
| `Advisor.MemoryExhaustionNeedsLowCpu` | src/agent.py:51-75 | the memory-exhaustion branch is chosen exactly when cpu < 80, memory ≥ 90 and the network guard fails; with 80 ≤ cpu < 90 and memory ≥ 90 the result is the downstream or sustained-CPU text instead |
| `Advisor.TemplateLinesSolid` | src/agent.py:39-93 | every branch's text has at least two lines, none starting with whitespace, when the node id has no line break |
| `Advisor.NodeCountIsMultiplicity` | src/agent.py:97 | the count of history rows for the node is the node's multiplicity in the history |
| `Advisor.SuggestAction` | src/agent.py:15-102 | the result is the branch text, plus a newline and the recurrence note when the history is given and holds the node more than 3 times |
| `Advisor.CascadeTextIsPrefix` | src/agent.py:96-102 | the branch text is always a prefix of the result, and the result is longer exactly when the node escalates |
| `Advisor.EscalationBoundary` | src/agent.py:99-100 | three history rows for the node add no note; four add it |
| `Advisor.NoHistoryNoNote` | src/agent.py:96 | without a history the result is exactly the joined branch template |
| `Advisor.EmptyRowIsInformational` | src/agent.py:28-93 | a row with no keys yields the informational headline for `unknown` followed by its single action line |
| `Detectors.PopVariance` | src/detectors.py:33 | the population variance (`ddof=0`) is never negative |
| `Detectors.Window` | src/detectors.py:32-33 | the window at row i holds exactly the w values ending at i |
| `Detectors.ScoreAt` | src/detectors.py:32-36 | a z-score exists exactly when the window is full and its variance is positive, and then it is built from the window's mean and variance |
| `Detectors.ExceedsMatchesDivision` | src/detectors.py:36-41 | the division-free flag test agrees with `abs((x - mu) / sd) >= zthr` |
| `Detectors.SignSymmetry` | src/detectors.py:41 | deviations of k·σ and -k·σ are flagged alike, exactly when abs(k) ≥ zthr |
| `Detectors.RollingZScore` | src/detectors.py:6-43 | one output row per input row, same row, its z-score from its window, flagged exactly when the score meets the threshold |
| `Detectors.ColdStartNeverFlagged` | src/detectors.py:32-33 | the first window-1 rows are never flagged |
| `Detectors.ZeroVarianceNeverFlagged` | src/detectors.py:36 | a window with zero variance never flags its row |
| `Detectors.VarianceZeroIffConstant` | src/detectors.py:33-36 | the variance is zero exactly when all window values are equal |
| `Detectors.ConstantWindowNeverFlagged` | src/detectors.py:33-41 | a row whose window is constant is never flagged |
| `Detectors.WindowOneFlagsNothing` | src/detectors.py:32-41 | with window 1 no row is ever flagged |
| `Detectors.ThresholdMonotone` | src/detectors.py:41 | every row flagged at a threshold is flagged at any lower threshold |
| `Detectors.ForwardFillNearest` | src/detectors.py:68 | forward filling puts the nearest present value at or before each position, or nothing |
| `Detectors.BackFillNearest` | src/detectors.py:68 | backward filling puts the nearest present value at or after each position, or nothing |
| `Detectors.FillGapsNearest` | src/detectors.py:68 | `ffill` then `bfill` gives the nearest earlier value, else the nearest later one |
| `Detectors.FillGapsKeepsPresent` | src/detectors.py:68 | filling keeps the length and never changes a present value |
| `Detectors.FillGapsComplete` | src/detectors.py:68 | after filling no cell is missing exactly when the column is empty or has some value |
| `Detectors.FilledMatrix` | src/detectors.py:68 | sample i of the feature matrix holds, in column order, the filled cell i of every column |
| `Detectors.IsolationForestFlags` | src/detectors.py:46-84 | an empty batch, no feature column, or an all-missing column cannot be fitted, and every other input is; then there is one flag per sample, set exactly when the forest labels that sample -1 on the filled matrix |
| `Detectors.CompleteColumnsUnfilled` | src/detectors.py:68-82 | columns without gaps reach the forest unchanged: sample i is cell i of each column, and the flag is set exactly when its label is -1 |
| `Metrics.ColumnOf` | src/detectors.py:29 | the column holds each row's value of that metric, in row order |
| `Format.RoundHalfEven` | src/agent.py:155 | the result is within 0.5 of the input, and on an exact tie it is even |
| `Format.RoundHalfEvenNearest` | src/agent.py:155 | no integer is closer to the input than the rounded value |
| `Format.Fixed` | src/agent.py:40 | `:.1f` and `:.0f` text is a canonical numeral: a leading minus exactly for negative values and nowhere else, digits with at most one point, no leading zero before a digit, ending in a digit |
| `Format.NumeralShape` | src/agent.py:40 | a canonical numeral has no minus after its first character, at most one point, a digit first after the sign, a zero there either last or followed by the point, and a digit last |
| `Format.FixedReadsBack` | src/agent.py:40 | the `:.{d}f` text spells the rounded value: exactly d digits follow the point, and the digits read the integer nearest to abs(x)·10^d, ties to even |
| `Format.Round2` | src/agent.py:155 | `round(x, 2)` is within half a hundredth of x, and on an exact tie the hundredths count is even |
| `Format.CentsText` | src/summarizer.py:44 | the printed rounded value is a canonical numeral of at least three characters: a minus exactly for a negative value and nowhere else, one point, no leading zero before a digit, ending in a digit |
| `Format.CentsTextReadsBack` | src/summarizer.py:44 | the printed `round(x, 2)` reads back as the rounded hundredths, with one or two fraction digits and no trailing zero except in `N.0` |
| `Lines.SplitJoin` | src/summarizer.py:39 | splitting joined lines gives back the lines when none holds a newline |
| `Lines.JoinSplit` | src/summarizer.py:39 | joining the split of a text gives back the text |
| `Lines.StripPadded` | src/summarizer.py:45 | `strip` removes exactly the surrounding whitespace of a body that starts and ends solid |
| `Summarizer.WhenText` | src/summarizer.py:26-29 | a string timestamp is used as is, a date-time by its ISO text, any other object by its `str()` text, an absent one as `"None"` |
| `Summarizer.Summary` | src/summarizer.py:4-45 | the report never starts or ends with whitespace |
| `Summarizer.SingleLineLayout` | src/summarizer.py:39-45 | a one-line suggestion gives the suggestion followed by the four bullets, flush left |
| `Summarizer.MultiLineLayout` | src/summarizer.py:39-45 | a suggestion of two or more solid lines is kept as is and the four bullets keep a four-space indent |
| `Summarizer.DedentRemovesMargin` | src/summarizer.py:39 | `textwrap.dedent` turns a line of only spaces and tabs into an empty line and strips exactly the margin from every other line; the margin is spaces and tabs that start the indent of every non-blank line |
| `Summarizer.MarginIsLongest` | src/summarizer.py:39 | when some line is not blank, the margin is the longest common one: any run that starts the indent of every non-blank line starts the margin |
| `Summarizer.DedentPadded` | src/summarizer.py:39 | lines that are blank or four spaces before a solid line dedent to those lines with the four spaces removed, and to empty lines where blank |
| `Summarizer.ThresholdIgnored` | src/summarizer.py:35 | the `threshold` entry has no effect on the report |
| `Summarizer.EmptyEventSummary` | src/summarizer.py:26-45 | an empty event gives the default suggestion and the bullets `None`, `unknown`, `cpu`, `N/A` |
| `Agent.ZScoreFlags` | src/agent.py:132-139 | window 0 flags nothing; otherwise the flags are the rolling z-score flags on `cpu` |
| `Agent.FeatureColumns` | src/agent.py:141-142 | the forest's columns are `cpu`, `memory`, `latency_ms` in that order, one present cell per row |
| `Agent.Detect` | src/agent.py:131-145 | one flag per row; tag `cpu` exactly on the z-score path, `composite` otherwise; the z-score path fails exactly for a negative window and otherwise gives the z-score flags; the forest path fails exactly for an empty batch and otherwise gives the forest's flags on the three feature columns |
| `Agent.ZScorePathFlags` | src/agent.py:131-137 | on the z-score path with a positive window a row is flagged exactly when the rolling z-score of its `cpu` meets the threshold |
| `Agent.ForestPathFlags` | src/agent.py:139-143 | on the forest path a non-empty batch is always fitted, and a row is flagged exactly when the forest labels its `[cpu, memory, latency_ms]` sample -1 |
| `Agent.FlaggedRows` | src/agent.py:138 | the selection holds exactly the flagged rows, each with the detector's tag |
| `Agent.FlaggedIndices` | src/agent.py:138 | set positions only, strictly increasing, as many as there are set flags |
| `Agent.FlaggedIndicesComplete` | src/agent.py:138 | every set flag's position is listed |
| `Agent.FlaggedRowsInOrder` | src/agent.py:138 | anomaly k is the row at the k-th set flag, so the boolean filter keeps batch order |
| `Agent.FlaggedCount` | src/agent.py:138 | there is one anomaly per set flag |
| `Agent.Tail` | src/agent.py:150 | `tail(n)` is a suffix: the last n items for n ≥ 0 (nothing for 0), all but the first -n for n < 0 |
| `Agent.TailIsRecentFlagged` | src/agent.py:148-150 | the reported anomalies are min(limit, flagged) many, and they are all the flagged rows from some row onwards |
| `Agent.Selected` | src/agent.py:148-150 | never more anomalies than a non-negative limit, each with the detector's tag |
| `Agent.Reports` | src/agent.py:150-160 | one report per selected anomaly, in order |
| `Agent.Publish` | src/agent.py:162-169 | the reports file is the reports separated by blank lines; the reports are printed unless `print` is false |
| `Agent.Run` | src/agent.py:118-169 | a non-CSV source fails; a CSV run succeeds exactly when detection does and otherwise fails with detection's error; the anomalies are the selected last `limit_alerts` flagged rows, one report each, tagged `cpu` exactly on the z-score path, with the file and console contents above |
| `Agent.RunReportsRecent` | src/agent.py:138-150 | a successful run reports on min(limit, flagged) anomalies: the most recent flagged rows |
| `Agent.RunReport` | src/agent.py:150-160 | the i-th report is the summary of the i-th anomaly |
| `Agent.ShortBatchNoReports` | src/agent.py:132-169 | on the z-score path with a window longer than the batch, the run succeeds with no reports and an empty reports file |
| `Agent.ReportLayout` | src/agent.py:151-159 | for a row whose node id, metric label and timestamp text are each free of line breaks, each report is the row's branch text with no recurrence note (no history is passed), then the four bullets indented by four spaces, the value bullet showing `round(cpu, 2)` |

## Left out

- Loading: `load_config` (YAML) and `load_csv` (file reading, timestamp parsing, sorting) are not modelled. The configuration and the loaded, ordered batch are inputs.
- The `argparse` entry point and the `print_notify` notifier are not modelled. Printed messages are returned as a list.
- Output files and paths are not modelled. The reports file becomes its text; the saved anomalies become the selected rows.
- The `zscore` column of the saved anomalies CSV is not kept: only the rows and their `metric` tag are.
- The isolation forest's fitting and prediction are a parameter. Their output is constrained only to have one label per sample.
- `metrics_simulator.py` and `metrics_source.py` are not part of this model.
- Binary floating point is left out: the model uses exact reals. Three consequences:
  - rounding a value whose binary representation lies on the other side of a tie can differ;
  - exponent notation for very large or very small floats is not rendered;
  - infinities, NaN inputs and negative zero are not represented.
- Missing (NaN) metric cells in `main`'s batch are not represented; the gap filling is modelled on its own, on optional cells.
- Configuration values of the wrong type are not modelled, for example a string window, or a truthy non-boolean `print` value. Only absent versus present-and-well-typed keys are.
- `textwrap.dedent` follows the regular-expression implementation used up to Python 3.13. Later versions treat whitespace-only lines slightly differently, and that difference is not modelled.
- A rolling window of 0 is modelled as producing no complete window, so nothing is flagged. A negative window is an error.
- Summarizer.Summary: its own contract only states that the text is stripped; the full layout is stated by `Summarizer.SingleLineLayout` and `Summarizer.MultiLineLayout`.
