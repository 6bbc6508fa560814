/** The agent's entry point (`main`, src/agent.py) with its input and output
    taken away: the configuration and the loaded batch come in as values, the
    fitted isolation forest as a function, and the reports, the saved
    anomalies and the console messages go out as values. */
module Agent {
  import opened Wrappers
  import opened Lines
  import opened Metrics
  import Format
  import Advisor
  import Detectors
  import Summarizer

  /** The configuration keys `main` reads; `None` is an absent key. */
  datatype Config = Config(
    sourceKind: Option<string>,
    detectionMethod: Option<string>,
    rollingWindow: Option<int>,
    zscoreThreshold: Option<real>,
    limitAlerts: Option<int>,
    printAlerts: Option<bool>)

  /** Why a run stops before any report: a source other than a CSV file, a
      negative rolling window (which pandas refuses), or a forest that
      cannot be fitted. */
  datatype RunError = UnsupportedSource | NegativeWindow | FitFailed(error: Detectors.FitError)

  /** A row of the anomalies table: the flagged row and its `metric` tag. */
  datatype Anomaly = Anomaly(row: MetricRow, metric: string)

  /** What a run leaves behind: the anomalies it reported on (the rows saved
      for the dashboard), the reports in order, the text written to the
      reports file, and the messages printed. */
  datatype Artifacts = Artifacts(
    anomalies: seq<Anomaly>,
    reports: seq<string>,
    reportText: string,
    console: seq<string>)

  const ZScoreMethod := "rolling_zscore"
  const DefaultWindow := 20
  const DefaultThreshold := 3.0
  const DefaultLimit := 10
  const ForestSettings := Detectors.ForestSettings(200, 0.02, 42)

  function MethodOf(cfg: Config): string {
    cfg.detectionMethod.GetOr(ZScoreMethod)
  }

  /** Only the exact method name selects the z-score detector; any other
      value, a misspelling included, selects the isolation forest. */
  predicate ZScorePath(cfg: Config) {
    MethodOf(cfg) == ZScoreMethod
  }

  function WindowOf(cfg: Config): int {
    cfg.rollingWindow.GetOr(DefaultWindow)
  }

  function ThresholdOf(cfg: Config): real {
    cfg.zscoreThreshold.GetOr(DefaultThreshold)
  }

  function LimitOf(cfg: Config): int {
    cfg.limitAlerts.GetOr(DefaultLimit)
  }

  // ---- Detection ----

  /** The per-row flags of a detector and the tag its anomalies get. */
  datatype Detection = Detection(flags: seq<bool>, metric: string)

  /** A column of loaded cells, every one present. */
  function Cells(xs: seq<real>): (cs: seq<Option<real>>)
    ensures |cs| == |xs| && forall i :: 0 <= i < |xs| ==> cs[i] == Some(xs[i])
  {
    seq(|xs|, i requires 0 <= i < |xs| => Some(xs[i]))
  }

  /** The flags of the rolling z-score on `cpu`. A window of 0 leaves every
      rolling mean undefined, so nothing is flagged. */
  function ZScoreFlags(rows: seq<MetricRow>, window: nat, zthr: real): (flags: seq<bool>)
    ensures |flags| == |rows|
    ensures window == 0 ==> forall i :: 0 <= i < |rows| ==> !flags[i]
    ensures window >= 1 ==>
              forall i :: 0 <= i < |rows| ==>
                flags[i] == Detectors.RollingZScore(rows, Cpu, window, zthr)[i].isAnomaly
  {
    if window == 0 then seq(|rows|, i requires 0 <= i < |rows| => false)
    else
      var out := Detectors.RollingZScore(rows, Cpu, window, zthr);
      seq(|rows|, i requires 0 <= i < |rows| => out[i].isAnomaly)
  }

  /** The feature columns of the isolation forest: `cpu`, `memory` and
      `latency_ms`, in that order. */
  function FeatureColumns(rows: seq<MetricRow>): (columns: seq<seq<Option<real>>>)
    ensures |columns| == 3
    ensures forall c :: 0 <= c < 3 ==> |columns[c]| == |rows|
    ensures forall i :: 0 <= i < |rows| ==>
              && columns[0][i] == Some(rows[i].cpu)
              && columns[1][i] == Some(rows[i].memory)
              && columns[2][i] == Some(rows[i].latency)
  {
    [Cells(ColumnOf(rows, Cpu)), Cells(ColumnOf(rows, Memory)), Cells(ColumnOf(rows, Latency))]
  }

  /** The detection step of `main`. */
  function Detect(cfg: Config, rows: seq<MetricRow>, forest: Detectors.Forest): (r: Result<Detection, RunError>)
    requires Detectors.OneLabelPerSample(forest)
    ensures r.Success? ==> |r.value.flags| == |rows|
    ensures r.Success? ==> (r.value.metric == "cpu" <==> ZScorePath(cfg))
    ensures r.Success? && !ZScorePath(cfg) ==> r.value.metric == "composite"
    ensures ZScorePath(cfg) ==> (r.Failure? <==> WindowOf(cfg) < 0)
    ensures ZScorePath(cfg) && r.Failure? ==> r.error == NegativeWindow
    ensures !ZScorePath(cfg) ==> (r.Failure? <==> |rows| == 0)
    ensures !ZScorePath(cfg) && r.Failure? ==> r.error == FitFailed(Detectors.NoSamples)
    ensures r.Success? && ZScorePath(cfg) ==>
              r.value.flags == ZScoreFlags(rows, WindowOf(cfg), ThresholdOf(cfg))
    ensures r.Success? && !ZScorePath(cfg) ==>
              Detectors.IsolationForestFlags(FeatureColumns(rows), |rows|, ForestSettings, forest)
                == Success(r.value.flags)
  {
    if ZScorePath(cfg) then
      if WindowOf(cfg) < 0 then Failure(NegativeWindow)
      else Success(Detection(ZScoreFlags(rows, WindowOf(cfg), ThresholdOf(cfg)), "cpu"))
    else
      var columns := FeatureColumns(rows);
      assert |rows| > 0 ==> forall c :: 0 <= c < 3 ==> columns[c][0].Some?;
      var fit := Detectors.IsolationForestFlags(columns, |rows|, ForestSettings, forest);
      if fit.Failure? then Failure(FitFailed(fit.error))
      else Success(Detection(fit.value, "composite"))
  }

  /** The samples the forest sees: one `[cpu, memory, latency_ms]` per row. */
  function Samples(rows: seq<MetricRow>): (m: seq<seq<real>>)
    ensures |m| == |rows|
    ensures forall i :: 0 <= i < |rows| ==> m[i] == [rows[i].cpu, rows[i].memory, rows[i].latency]
  {
    seq(|rows|, i requires 0 <= i < |rows| => [rows[i].cpu, rows[i].memory, rows[i].latency])
  }

  /** On the z-score path with a positive window, a row is flagged exactly
      when the rolling z-score of its `cpu` reaches the threshold. */
  lemma ZScorePathFlags(cfg: Config, rows: seq<MetricRow>, forest: Detectors.Forest)
    requires Detectors.OneLabelPerSample(forest)
    requires ZScorePath(cfg) && WindowOf(cfg) >= 1
    ensures var r := Detect(cfg, rows, forest);
            && r.Success?
            && forall i :: 0 <= i < |rows| ==>
                 (r.value.flags[i] <==>
                    Detectors.RollingZScore(rows, Cpu, WindowOf(cfg), ThresholdOf(cfg))[i].isAnomaly)
  {
  }

  /** On the forest path a non-empty batch is always fitted (the loaded
      cells are never missing, so filling changes nothing), and a row is
      flagged exactly when the forest labels its sample -1. */
  lemma ForestPathFlags(cfg: Config, rows: seq<MetricRow>, forest: Detectors.Forest)
    requires Detectors.OneLabelPerSample(forest)
    requires !ZScorePath(cfg) && |rows| > 0
    ensures var r := Detect(cfg, rows, forest);
            && r.Success?
            && forall i :: 0 <= i < |rows| ==>
                 (r.value.flags[i] <==> forest(ForestSettings, Samples(rows))[i] == -1)
  {
    var columns := FeatureColumns(rows);
    Detectors.CompleteColumnsUnfilled(columns, |rows|, ForestSettings, forest);
    var raw := seq(|rows|, i requires 0 <= i < |rows| =>
                 seq(|columns|, c requires 0 <= c < |columns| => columns[c][i].value));
    forall i | 0 <= i < |rows| ensures raw[i] == Samples(rows)[i] {
      assert raw[i] == [columns[0][i].value, columns[1][i].value, columns[2][i].value];
    }
    assert raw == Samples(rows);
  }

  // ---- Selecting the anomalies ----

  /** The rows whose flag is set, in order, each tagged. */
  function FlaggedRows(rows: seq<MetricRow>, flags: seq<bool>, tag: string): (r: seq<Anomaly>)
    requires |flags| == |rows|
    ensures |r| <= |rows|
    ensures forall a :: a in r ==> a.metric == tag
    ensures forall a :: a in r ==> exists i :: 0 <= i < |rows| && flags[i] && a.row == rows[i]
    ensures forall i :: 0 <= i < |rows| && flags[i] ==> Anomaly(rows[i], tag) in r
  {
    if |rows| == 0 then []
    else
      var rest := FlaggedRows(rows[1..], flags[1..], tag);
      assert forall i :: 1 <= i < |rows| ==> rows[1..][i - 1] == rows[i] && flags[1..][i - 1] == flags[i];
      if flags[0] then [Anomaly(rows[0], tag)] + rest else rest
  }

  /** The positions of the set flags from `from` on, in increasing order. */
  function FlaggedIndices(flags: seq<bool>, from: nat): (idx: seq<nat>)
    requires from <= |flags|
    ensures forall k :: 0 <= k < |idx| ==> from <= idx[k] < |flags| && flags[idx[k]]
    ensures forall k, l :: 0 <= k < l < |idx| ==> idx[k] < idx[l]
    ensures |idx| == CountSet(flags[from..])
    decreases |flags| - from
  {
    if from == |flags| then []
    else
      var later := FlaggedIndices(flags, from + 1);
      assert flags[from..][1..] == flags[from + 1..];
      if flags[from] then [from] + later else later
  }

  /** Every set flag from `from` on is listed. */
  lemma {:induction false} FlaggedIndicesComplete(flags: seq<bool>, from: nat)
    requires from <= |flags|
    ensures forall i :: from <= i < |flags| && flags[i] ==> i in FlaggedIndices(flags, from)
    decreases |flags| - from
  {
    if from < |flags| {
      FlaggedIndicesComplete(flags, from + 1);
    }
  }

  /** One step of `FlaggedRows`: the first row, if flagged, then the rest. */
  lemma FlaggedRowsStep(rows: seq<MetricRow>, flags: seq<bool>, tag: string)
    requires |flags| == |rows| > 0
    ensures FlaggedRows(rows, flags, tag) ==
              (if flags[0] then [Anomaly(rows[0], tag)] else []) + FlaggedRows(rows[1..], flags[1..], tag)
  {
  }

  /** Putting row `j` (when flagged) in front of anomalies that follow
      positions `later` keeps them following the positions. */
  lemma PrependInOrder(rows: seq<MetricRow>, tag: string, j: nat, flagged: bool, later: seq<nat>, tail: seq<Anomaly>)
    requires j < |rows|
    requires forall k :: 0 <= k < |later| ==> later[k] < |rows|
    requires |tail| == |later| && forall k :: 0 <= k < |later| ==> tail[k] == Anomaly(rows[later[k]], tag)
    ensures var idx := if flagged then [j] + later else later;
            var r := (if flagged then [Anomaly(rows[j], tag)] else []) + tail;
            |r| == |idx| && forall k :: 0 <= k < |idx| ==> r[k] == Anomaly(rows[idx[k]], tag)
  {
  }

  /** The anomalies of a suffix of the batch are its flagged rows taken in
      batch order: anomaly `k` is the row at the `k`-th set flag. */
  lemma {:induction false} FlaggedSuffixInOrder(rows: seq<MetricRow>, flags: seq<bool>, tag: string, j: nat)
    requires |flags| == |rows| && j <= |rows|
    ensures |FlaggedRows(rows[j..], flags[j..], tag)| == |FlaggedIndices(flags, j)|
    ensures forall k :: 0 <= k < |FlaggedIndices(flags, j)| ==>
              FlaggedRows(rows[j..], flags[j..], tag)[k] == Anomaly(rows[FlaggedIndices(flags, j)[k]], tag)
    decreases |rows| - j
  {
    if j < |rows| {
      FlaggedSuffixInOrder(rows, flags, tag, j + 1);
      FlaggedRowsStep(rows[j..], flags[j..], tag);
      assert rows[j..][1..] == rows[j + 1..] && flags[j..][1..] == flags[j + 1..];
      PrependInOrder(rows, tag, j, flags[j], FlaggedIndices(flags, j + 1),
                     FlaggedRows(rows[j + 1..], flags[j + 1..], tag));
    }
  }

  /** The anomalies are the flagged rows taken in batch order. */
  lemma {:induction false} FlaggedRowsInOrder(rows: seq<MetricRow>, flags: seq<bool>, tag: string)
    requires |flags| == |rows|
    ensures var idx := FlaggedIndices(flags, 0);
            var r := FlaggedRows(rows, flags, tag);
            && |r| == |idx|
            && forall k :: 0 <= k < |idx| ==> r[k] == Anomaly(rows[idx[k]], tag)
  {
    FlaggedSuffixInOrder(rows, flags, tag, 0);
    assert rows[0..] == rows && flags[0..] == flags;
  }

  /** How many flags are set. */
  function CountSet(flags: seq<bool>): (n: nat)
    ensures n <= |flags|
  {
    if |flags| == 0 then 0 else (if flags[0] then 1 else 0) + CountSet(flags[1..])
  }

  /** pandas `DataFrame.tail(n)`, which is `iloc[-n:]` (and nothing for
      `n == 0`): the last `n` rows, or for a negative `n` all rows but the
      first `-n`. */
  function Tail<T>(xs: seq<T>, n: int): (r: seq<T>)
    ensures n >= 0 ==> |r| == (if n <= |xs| then n else |xs|)
    ensures n < 0 ==> |r| == (if -n <= |xs| then |xs| + n else 0)
    ensures r == xs[|xs| - |r|..]
  {
    if n == 0 then []
    else
      var start := if -n < 0 then (if |xs| + -n < 0 then 0 else |xs| + -n)
                   else (if -n <= |xs| then -n else |xs|);
      xs[start..]
  }

  // ---- Reporting ----

  /** The row as `suggest_action` reads it: every key present. */
  function FieldsOf(row: MetricRow): Advisor.Fields {
    Advisor.Fields(Some(row.cpu), Some(row.memory), Some(row.latency), Some(row.node))
  }

  /** The `threshold` entry: the configured z-score threshold, else "N/A". */
  function ThresholdEntry(cfg: Config): Summarizer.Threshold {
    match cfg.zscoreThreshold
    case Some(z) => Summarizer.ThresholdLevel(z)
    case None => Summarizer.ThresholdText("N/A")
  }

  /** The event `main` builds for one anomaly; `suggest_action` is called
      without a history. */
  function EventOf(a: Anomaly, cfg: Config): Summarizer.Event {
    Summarizer.Event(
      Some(a.row.timestamp),
      Some(a.metric),
      Some(a.row.node),
      Some(Summarizer.CentsValue(Format.Round2(a.row.cpu))),
      Some(ThresholdEntry(cfg)),
      Some(Advisor.SuggestAction(FieldsOf(a.row), None)))
  }

  /** The report of one anomaly. */
  function Report(a: Anomaly, cfg: Config): string {
    Summarizer.Summary(EventOf(a, cfg))
  }

  function Reports(selected: seq<Anomaly>, cfg: Config): (reports: seq<string>)
    ensures |reports| == |selected|
    ensures forall i :: 0 <= i < |selected| ==> reports[i] == Report(selected[i], cfg)
  {
    seq(|selected|, i requires 0 <= i < |selected| => Report(selected[i], cfg))
  }

  /** The anomalies reported on: the last `limit_alerts` flagged rows. */
  function Selected(cfg: Config, rows: seq<MetricRow>, d: Detection): (selected: seq<Anomaly>)
    requires |d.flags| == |rows|
    ensures LimitOf(cfg) >= 0 ==> |selected| <= LimitOf(cfg)
    ensures forall a :: a in selected ==> a.metric == d.metric
  {
    Tail(FlaggedRows(rows, d.flags, d.metric), LimitOf(cfg))
  }

  const ReportSeparator := "\n\n"

  /** The artifacts of the anomalies reported on, given their reports: each
      report printed unless printing is switched off, all of them written
      one blank line apart. */
  function Publish(cfg: Config, selected: seq<Anomaly>, reports: seq<string>): (art: Artifacts)
    ensures art.anomalies == selected && art.reports == reports
    ensures art.reportText == JoinWith(reports, ReportSeparator)
    ensures art.console == (if cfg.printAlerts == Some(false) then [] else reports)
  {
    var console := if cfg.printAlerts.GetOr(true) then reports else [];
    Artifacts(selected, reports, JoinWith(reports, ReportSeparator), console)
  }

  /** `main`, from the loaded batch to what it prints and saves. */
  function Run(cfg: Config, rows: seq<MetricRow>, forest: Detectors.Forest): (r: Result<Artifacts, RunError>)
    requires Detectors.OneLabelPerSample(forest)
    ensures cfg.sourceKind != Some("csv") ==> r == Failure(UnsupportedSource)
    ensures r.Success? ==> cfg.sourceKind == Some("csv")
    ensures cfg.sourceKind == Some("csv") ==> (r.Success? <==> Detect(cfg, rows, forest).Success?)
    ensures cfg.sourceKind == Some("csv") && r.Failure? ==> r.error == Detect(cfg, rows, forest).error
    ensures r.Success? ==> r.value.anomalies == Selected(cfg, rows, Detect(cfg, rows, forest).value)
    ensures r.Success? ==> |r.value.reports| == |r.value.anomalies|
    ensures r.Success? && LimitOf(cfg) >= 0 ==> |r.value.anomalies| <= LimitOf(cfg)
    ensures r.Success? ==> forall a :: a in r.value.anomalies ==> (a.metric == "cpu" <==> ZScorePath(cfg))
    ensures r.Success? ==> r.value.reportText == JoinWith(r.value.reports, ReportSeparator)
    ensures r.Success? ==> r.value.console == (if cfg.printAlerts == Some(false) then [] else r.value.reports)
  {
    if cfg.sourceKind != Some("csv") then Failure(UnsupportedSource)
    else
      match Detect(cfg, rows, forest)
      case Failure(e) => Failure(e)
      case Success(d) =>
        var selected := Selected(cfg, rows, d);
        Success(Publish(cfg, selected, Reports(selected, cfg)))
  }

  // ---- Properties of a run ----

  /** Every set flag contributes one anomaly. */
  lemma {:induction false} FlaggedCount(rows: seq<MetricRow>, flags: seq<bool>, tag: string)
    requires |flags| == |rows|
    ensures |FlaggedRows(rows, flags, tag)| == CountSet(flags)
  {
    if |rows| > 0 {
      FlaggedCount(rows[1..], flags[1..], tag);
    }
  }

  lemma {:induction false} NoneSet(flags: seq<bool>)
    requires forall i :: 0 <= i < |flags| ==> !flags[i]
    ensures CountSet(flags) == 0
  {
    if |flags| > 0 {
      NoneSet(flags[1..]);
    }
  }

  /** The last `n` anomalies are exactly the anomalies of a suffix of the
      batch, and there are as many of them as `n` allows. */
  lemma {:induction false} TailIsRecentFlagged(rows: seq<MetricRow>, flags: seq<bool>, tag: string, n: nat)
    requires |flags| == |rows|
    ensures var t := Tail(FlaggedRows(rows, flags, tag), n);
            && |t| == (if n <= CountSet(flags) then n else CountSet(flags))
            && exists j :: 0 <= j <= |rows| && t == FlaggedRows(rows[j..], flags[j..], tag)
  {
    FlaggedCount(rows, flags, tag);
    var all := FlaggedRows(rows, flags, tag);
    var t := Tail(all, n);
    if |all| <= n {
      assert t == all;
      assert rows[0..] == rows && flags[0..] == flags;
    } else {
      var rest := FlaggedRows(rows[1..], flags[1..], tag);
      FlaggedCount(rows[1..], flags[1..], tag);
      assert t == Tail(rest, n);
      TailIsRecentFlagged(rows[1..], flags[1..], tag, n);
      var j :| 0 <= j <= |rows[1..]| && Tail(rest, n) == FlaggedRows(rows[1..][j..], flags[1..][j..], tag);
      assert rows[1..][j..] == rows[j + 1..] && flags[1..][j..] == flags[j + 1..];
    }
  }

  /** A run reports on the most recent anomalies: those of some suffix of
      the batch, as many as `limit_alerts` allows. */
  lemma RunReportsRecent(cfg: Config, rows: seq<MetricRow>, forest: Detectors.Forest)
    requires Detectors.OneLabelPerSample(forest)
    requires Run(cfg, rows, forest).Success? && LimitOf(cfg) >= 0
    ensures var d := Detect(cfg, rows, forest).value;
            var anomalies := Run(cfg, rows, forest).value.anomalies;
            && |anomalies| == (if LimitOf(cfg) <= CountSet(d.flags) then LimitOf(cfg) else CountSet(d.flags))
            && exists j :: 0 <= j <= |rows| && anomalies == FlaggedRows(rows[j..], d.flags[j..], d.metric)
  {
    var d := Detect(cfg, rows, forest).value;
    TailIsRecentFlagged(rows, d.flags, d.metric, LimitOf(cfg));
  }

  /** Report `i` of a run is the report of anomaly `i`. */
  lemma RunReport(cfg: Config, rows: seq<MetricRow>, forest: Detectors.Forest, i: nat)
    requires Detectors.OneLabelPerSample(forest)
    requires Run(cfg, rows, forest).Success? && i < |Run(cfg, rows, forest).value.reports|
    ensures var art := Run(cfg, rows, forest).value;
            art.reports[i] == Report(art.anomalies[i], cfg)
  {
  }

  /** A batch shorter than the rolling window yields no report at all. */
  lemma ShortBatchNoReports(cfg: Config, rows: seq<MetricRow>, forest: Detectors.Forest)
    requires Detectors.OneLabelPerSample(forest)
    requires cfg.sourceKind == Some("csv") && ZScorePath(cfg)
    requires WindowOf(cfg) > |rows|
    ensures Run(cfg, rows, forest).Success?
    ensures Run(cfg, rows, forest).value.reports == []
    ensures Run(cfg, rows, forest).value.reportText == ""
  {
    var d := Detect(cfg, rows, forest).value;
    forall i | 0 <= i < |rows| ensures !d.flags[i] {
      Detectors.ColdStartNeverFlagged(rows, Cpu, WindowOf(cfg), ThresholdOf(cfg), i);
    }
    var all := FlaggedRows(rows, d.flags, d.metric);
    FlaggedCount(rows, d.flags, d.metric);
    NoneSet(d.flags);
  }

  /** A report is the layout of the anomaly's suggestion and fields. */
  lemma ReportIsLayout(a: Anomaly, cfg: Config)
    ensures Report(a, cfg) ==
              Summarizer.Layout(
                Advisor.SuggestAction(FieldsOf(a.row), None),
                Summarizer.WhenText(Some(a.row.timestamp)),
                a.row.node, a.metric,
                Format.CentsText(Format.Round2(a.row.cpu)))
  {
  }

  /** Without a history the suggestion of a row is its branch's lines, which
      are at least two and each starts solid. */
  lemma SuggestionLines(row: MetricRow)
    requires NoNewline(row.node)
    ensures var m := Advisor.Reading(row.cpu, row.memory, row.latency);
            var sl := Advisor.TemplateLines(Advisor.ElifChain(m), row.node, m);
            && Advisor.SuggestAction(FieldsOf(row), None) == Join(sl)
            && |sl| >= 2 && SolidLines(sl)
  {
    var f := FieldsOf(row);
    var m := Advisor.Reading(row.cpu, row.memory, row.latency);
    assert Advisor.ReadingOf(f) == m && Advisor.NodeOf(f) == row.node;
    Advisor.NoHistoryNoNote(f);
    Advisor.TemplateLinesSolid(Advisor.ElifChain(m), row.node, m);
  }

  /** The rendered `value` is one line ending in a digit. */
  lemma ValueOneLine(x: real)
    ensures var value := Format.CentsText(Format.Round2(x));
            |value| > 0 && NoNewline(value) && !IsSpace(value[|value| - 1])
  {
    var value := Format.CentsText(Format.Round2(x));
    Format.NumeralNoNewline(value);
    assert Format.IsDigit(value[|value| - 1]);
  }

  /** What one report says when the node id and the timestamp are single
      lines: the advisor's lines with no escalation note, then the bullets,
      which keep four spaces of indent because the suggestion's second line
      has none. */
  lemma ReportLayout(a: Anomaly, cfg: Config)
    requires NoNewline(a.row.node) && NoNewline(a.metric)
    requires NoNewline(Summarizer.WhenText(Some(a.row.timestamp)))
    ensures var m := Advisor.Reading(a.row.cpu, a.row.memory, a.row.latency);
            var when := Summarizer.WhenText(Some(a.row.timestamp));
            var value := Format.CentsText(Format.Round2(a.row.cpu));
            Report(a, cfg) ==
              Join(Advisor.TemplateLines(Advisor.ElifChain(m), a.row.node, m) +
                   Summarizer.Indented("    ", Summarizer.BulletLines(when, a.row.node, a.metric, value)))
  {
    var m := Advisor.Reading(a.row.cpu, a.row.memory, a.row.latency);
    var sl := Advisor.TemplateLines(Advisor.ElifChain(m), a.row.node, m);
    var value := Format.CentsText(Format.Round2(a.row.cpu));
    var when := Summarizer.WhenText(Some(a.row.timestamp));
    SuggestionLines(a.row);
    ValueOneLine(a.row.cpu);
    ReportIsLayout(a, cfg);
    Summarizer.MultiLineLayout(sl, when, a.row.node, a.metric, value);
  }

}
