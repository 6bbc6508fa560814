/** The remediation advisor (`suggest_action`, src/agent.py): an ordered rule
    table over (cpu, memory, latency), first match wins, plus an additive note
    for nodes with a recurring history. */
module Advisor {
  import opened Wrappers
  import opened Lines
  import Format

  /** The keys `suggest_action` reads from a row; `None` is an absent key. */
  datatype Fields = Fields(
    cpu: Option<real>,
    memory: Option<real>,
    latency: Option<real>,
    node: Option<string>)

  /** The three metric values after defaulting absent keys to 0. */
  datatype Reading = Reading(cpu: real, memory: real, latency: real)

  function ReadingOf(f: Fields): (m: Reading)
    ensures f.cpu.None? ==> m.cpu == 0.0
    ensures f.memory.None? ==> m.memory == 0.0
    ensures f.latency.None? ==> m.latency == 0.0
  {
    Reading(f.cpu.GetOr(0.0), f.memory.GetOr(0.0), f.latency.GetOr(0.0))
  }

  function NodeOf(f: Fields): (node: string)
    ensures f.node.None? ==> node == "unknown"
  {
    f.node.GetOr("unknown")
  }

  /** The nine branches of the cascade, named after their diagnosis. */
  datatype Branch =
    | LeakOrSaturation
    | DownstreamBottleneck
    | NetworkCongestion
    | CpuSpike
    | SustainedCpu
    | MemoryExhaustion
    | ElevatedMemory
    | HighLatency
    | MildAnomaly

  /** The test of each branch taken on its own, without the earlier branches'
      negations. */
  predicate Guard(b: Branch, m: Reading) {
    match b
    case LeakOrSaturation => m.cpu >= 90.0 && m.memory >= 85.0
    case DownstreamBottleneck => m.cpu >= 85.0 && m.latency >= 200.0
    case NetworkCongestion => m.latency >= 250.0 && m.cpu < 70.0 && m.memory < 70.0
    case CpuSpike => m.cpu >= 95.0
    case SustainedCpu => m.cpu >= 80.0
    case MemoryExhaustion => m.memory >= 90.0
    case ElevatedMemory => m.memory >= 75.0
    case HighLatency => m.latency >= 150.0
    case MildAnomaly => true
  }

  /** The rule table in priority order. */
  const Cascade: seq<Branch> := [
    LeakOrSaturation, DownstreamBottleneck, NetworkCongestion, CpuSpike,
    SustainedCpu, MemoryExhaustion, ElevatedMemory, HighLatency, MildAnomaly
  ]

  /** The position of the first rule whose guard holds, if any. */
  function FirstMatch(rules: seq<Branch>, m: Reading): (r: Option<nat>)
    ensures r.Some? ==> r.value < |rules| && Guard(rules[r.value], m)
    ensures r.Some? ==> forall j :: 0 <= j < r.value ==> !Guard(rules[j], m)
    ensures r.None? <==> forall j :: 0 <= j < |rules| ==> !Guard(rules[j], m)
  {
    if |rules| == 0 then None
    else if Guard(rules[0], m) then Some(0)
    else
      match FirstMatch(rules[1..], m)
      case None => None
      case Some(i) => Some(i + 1)
  }

  /** The branch the cascade selects; `None` would leave the default action
      in place. */
  function Classify(m: Reading): Option<Branch> {
    match FirstMatch(Cascade, m)
    case Some(i) => Some(Cascade[i])
    case None => None
  }

  /** The cascade written as the source's `if`/`elif` chain. */
  function ElifChain(m: Reading): Branch {
    if m.cpu >= 90.0 && m.memory >= 85.0 then LeakOrSaturation
    else if m.cpu >= 85.0 && m.latency >= 200.0 then DownstreamBottleneck
    else if m.latency >= 250.0 && m.cpu < 70.0 && m.memory < 70.0 then NetworkCongestion
    else if m.cpu >= 95.0 then CpuSpike
    else if m.cpu >= 80.0 then SustainedCpu
    else if m.memory >= 90.0 then MemoryExhaustion
    else if m.memory >= 75.0 then ElevatedMemory
    else if m.latency >= 150.0 then HighLatency
    else MildAnomaly
  }

  /** The rule table and the `elif` chain agree on every reading, and the table
      always matches, so the default action is never what is returned. */
  lemma ClassifyIsElifChain(m: Reading)
    ensures Classify(m) == Some(ElifChain(m))
  {
    var r := FirstMatch(Cascade, m);
    assert Guard(Cascade[8], m);
    var i := r.value;
    assert forall j :: 0 <= j < i ==> !Guard(Cascade[j], m);
    if i == 0 {} else if i == 1 {
      assert !Guard(Cascade[0], m);
    } else if i == 2 {
      assert !Guard(Cascade[0], m) && !Guard(Cascade[1], m);
    } else if i == 3 {
      assert !Guard(Cascade[0], m) && !Guard(Cascade[1], m) && !Guard(Cascade[2], m);
    } else {
      assert !Guard(Cascade[0], m) && !Guard(Cascade[1], m) && !Guard(Cascade[2], m);
      assert !Guard(Cascade[3], m);
      if i >= 5 { assert !Guard(Cascade[4], m); }
      if i >= 6 { assert !Guard(Cascade[5], m); }
      if i >= 7 { assert !Guard(Cascade[6], m); }
      if i >= 8 { assert !Guard(Cascade[7], m); }
    }
  }

  /** The branch chosen, and every branch ahead of it in the table declined. */
  lemma ClassifyFirstMatch(m: Reading)
    ensures Classify(m).Some?
    ensures Guard(Classify(m).value, m)
    ensures forall j :: 0 <= j < |Cascade| && Cascade[j] == Classify(m).value ==>
              forall k :: 0 <= k < j ==> !Guard(Cascade[k], m)
  {
    assert Guard(Cascade[8], m);
    var i := FirstMatch(Cascade, m).value;
    forall j | 0 <= j < |Cascade| && Cascade[j] == Classify(m).value
      ensures forall k :: 0 <= k < j ==> !Guard(Cascade[k], m)
    {
      assert Cascade[j] == Cascade[i];
      assert j == i;
    }
  }

  // ---- Properties of the cascade ----

  /** The leak/saturation branch fires exactly when cpu >= 90 and memory >= 85. */
  lemma LeakBranchIff(m: Reading)
    ensures Classify(m) == Some(LeakOrSaturation) <==> m.cpu >= 90.0 && m.memory >= 85.0
  {
    ClassifyIsElifChain(m);
  }

  /** cpu = 95, memory = 90 meets the CPU-spike test too, but the leak branch
      is earlier in the table and wins. */
  lemma LeakBeatsCpuSpike()
    ensures Guard(CpuSpike, Reading(95.0, 90.0, 0.0))
    ensures Classify(Reading(95.0, 90.0, 0.0)) == Some(LeakOrSaturation)
  {
    ClassifyIsElifChain(Reading(95.0, 90.0, 0.0));
  }

  /** The informational branch is chosen exactly when no metric is elevated. */
  lemma MildIff(m: Reading)
    ensures Classify(m) == Some(MildAnomaly) <==>
              m.cpu < 80.0 && m.memory < 75.0 && m.latency < 150.0
  {
    ClassifyIsElifChain(m);
  }

  /** A cpu of 80 or more always yields a CPU-related branch. */
  lemma HighCpuBranches(m: Reading)
    requires m.cpu >= 80.0
    ensures Classify(m).Some?
    ensures Classify(m).value in {LeakOrSaturation, DownstreamBottleneck, CpuSpike, SustainedCpu}
  {
    ClassifyIsElifChain(m);
  }

  /** Memory exhaustion is reachable only below 80% cpu; between 80 and 90 the
      result is a CPU branch even when memory is at 90 or more. */
  lemma MemoryExhaustionNeedsLowCpu(m: Reading)
    ensures Classify(m) == Some(MemoryExhaustion) <==>
              m.cpu < 80.0 && m.memory >= 90.0 && !(m.latency >= 250.0 && m.cpu < 70.0 && m.memory < 70.0)
    ensures 80.0 <= m.cpu < 90.0 && m.memory >= 90.0 ==>
              Classify(m) in {Some(DownstreamBottleneck), Some(SustainedCpu)}
  {
    ClassifyIsElifChain(m);
  }

  // ---- Rendering ----

  const Siren := "\U{1F6A8}"
  const WarningSign := "\U{26A0}\U{FE0F}"
  const InfoSign := "\U{2139}\U{FE0F}"

  /** The text left in place when no branch matches. */
  const DefaultAction := WarningSign + " Anomaly detected. Investigate system health."

  /** The first line of each branch's template: severity, node id and the
      metric values (`:.1f` for percentages, `:.0f` for milliseconds), as
      the pieces the f-string glues together. */
  function HeadlinePieces(b: Branch, node: string, m: Reading): seq<string> {
    match b
    case LeakOrSaturation =>
      [Siren, " Critical: Node ", node, " shows CPU ", Format.Fixed(m.cpu, 1), "% + Memory ",
       Format.Fixed(m.memory, 1), "%."]
    case DownstreamBottleneck =>
      [Siren, " Critical: High CPU ", Format.Fixed(m.cpu, 1), "% with Latency ",
       Format.Fixed(m.latency, 0), "ms on ", node, "."]
    case NetworkCongestion =>
      [WarningSign, " Warning: Latency ", Format.Fixed(m.latency, 0), "ms on ", node,
       " while CPU/Memory ", "normal."]
    case CpuSpike =>
      [Siren, " Critical: CPU ", "spike ", Format.Fixed(m.cpu, 1), "% on ", node, "."]
    case SustainedCpu =>
      [WarningSign, " Warning: Sustained ", "CPU load ", Format.Fixed(m.cpu, 1), "% on ", node, "."]
    case MemoryExhaustion =>
      [Siren, " Critical: Memory ", "exhaustion ", Format.Fixed(m.memory, 1), "% on ", node, "."]
    case ElevatedMemory =>
      [WarningSign, " Warning: Elevated ", "memory usage ", Format.Fixed(m.memory, 1), "% on ", node, "."]
    case HighLatency =>
      [WarningSign, " Warning: Latency ", "above 150ms (", Format.Fixed(m.latency, 0), "ms) on ", node, "."]
    case MildAnomaly =>
      [InfoSign, " Informational: ", "Mild anomaly on ", node, "."]
  }

  function Headline(b: Branch, node: string, m: Reading): string {
    Glue(HeadlinePieces(b, node, m))
  }

  const ActionLead := "Suggested Action: "

  /** The fixed lines that follow each branch's headline, each as its
      pieces. The sentences are cut into pieces of at most 20 characters
      only so that the solver checks the characters of each piece on its
      own; a long string literal makes that check very expensive. */
  function GuidancePieces(b: Branch): seq<seq<string>> {
    match b
    case LeakOrSaturation => [
      ["Likely cause: ", "memory ", "leak or workload ", "saturation."],
      [ActionLead, "Restart affected ", "pod ", "and check garbage ", "collection logs."]]
    case DownstreamBottleneck => [
      ["Possible DB or ", "downstream ", "service bottleneck."],
      [ActionLead, "Profile DB queries ", "and scale ", "replicas if needed."]]
    case NetworkCongestion => [
      ["Likely cause: ", "network congestion ", "or downstream ", "dependency issue."],
      [ActionLead, "Check API gateway ", "logs and ", "network ", "connectivity."]]
    case CpuSpike => [[ActionLead, "Kill runaway ", "process or scale ", "api-service ", "replicas."]]
    case SustainedCpu => [[ActionLead, "Inspect logs for ", "infinite loops ", "or long-running ", "jobs."]]
    case MemoryExhaustion => [[ActionLead, "Restart pod, check ", "heap dump, ", "and tune JVM/GC ", "params."]]
    case ElevatedMemory => [[ActionLead, "Monitor caches and ", "investigate ", "object retention."]]
    case HighLatency => [[ActionLead, "Check DB indexes ", "and downstream ", "service health."]]
    case MildAnomaly => [[ActionLead, "Monitor trends; no ", "immediate ", "remediation ", "required."]]
  }

  function Guidance(b: Branch): (lines: seq<string>)
    ensures |lines| == |GuidancePieces(b)|
  {
    var pieces := GuidancePieces(b);
    seq(|pieces|, k requires 0 <= k < |pieces| => Glue(pieces[k]))
  }

  /** The lines of a branch's template. */
  function TemplateLines(b: Branch, node: string, m: Reading): seq<string> {
    [Headline(b, node, m)] + Guidance(b)
  }

  /** Every branch's text is at least two lines, each starting with a
      non-space character, and only the node id could add a line break. */
  lemma TemplateLinesSolid(b: Branch, node: string, m: Reading)
    requires NoNewline(node)
    ensures |TemplateLines(b, node, m)| >= 2
    ensures SolidLines(TemplateLines(b, node, m))
  {
    Format.NumeralNoNewline(Format.Fixed(m.cpu, 1));
    Format.NumeralNoNewline(Format.Fixed(m.memory, 1));
    Format.NumeralNoNewline(Format.Fixed(m.latency, 0));
    HeadlineSolid(b, node, m);
    GuidanceSolid(b);
  }

  /** The precondition shared by the headline lemmas: the node id and the
      rendered metric values hold no line break. */
  predicate OneLineFields(node: string, m: Reading) {
    && NoNewline(node)
    && '\n' !in Format.Fixed(m.cpu, 1) && '\n' !in Format.Fixed(m.memory, 1)
    && '\n' !in Format.Fixed(m.latency, 0)
  }

  /** Each headline is one line starting with its severity sign. Every
      branch gets a lemma of its own, which only applies `GlueSolid`: one
      proof over the literals of all nine branches is too large for the
      solver. */
  lemma HeadlineSolid(b: Branch, node: string, m: Reading)
    requires OneLineFields(node, m)
    ensures NoNewline(Headline(b, node, m)) && StartsSolid(Headline(b, node, m))
  {
    match b {
      case LeakOrSaturation => LeakOrSaturationHeadlineSolid(node, m);
      case DownstreamBottleneck => DownstreamBottleneckHeadlineSolid(node, m);
      case NetworkCongestion => NetworkCongestionHeadlineSolid(node, m);
      case CpuSpike => CpuSpikeHeadlineSolid(node, m);
      case SustainedCpu => SustainedCpuHeadlineSolid(node, m);
      case MemoryExhaustion => MemoryExhaustionHeadlineSolid(node, m);
      case ElevatedMemory => ElevatedMemoryHeadlineSolid(node, m);
      case HighLatency => HighLatencyHeadlineSolid(node, m);
      case MildAnomaly => MildAnomalyHeadlineSolid(node, m);
    }
  }

  lemma LeakOrSaturationHeadlineSolid(node: string, m: Reading)
    requires OneLineFields(node, m)
    ensures NoNewline(Headline(LeakOrSaturation, node, m)) && StartsSolid(Headline(LeakOrSaturation, node, m))
  {
    GlueSolid(HeadlinePieces(LeakOrSaturation, node, m));
  }

  lemma DownstreamBottleneckHeadlineSolid(node: string, m: Reading)
    requires OneLineFields(node, m)
    ensures NoNewline(Headline(DownstreamBottleneck, node, m)) && StartsSolid(Headline(DownstreamBottleneck, node, m))
  {
    GlueSolid(HeadlinePieces(DownstreamBottleneck, node, m));
  }

  lemma NetworkCongestionHeadlineSolid(node: string, m: Reading)
    requires OneLineFields(node, m)
    ensures NoNewline(Headline(NetworkCongestion, node, m)) && StartsSolid(Headline(NetworkCongestion, node, m))
  {
    GlueSolid(HeadlinePieces(NetworkCongestion, node, m));
  }

  lemma CpuSpikeHeadlineSolid(node: string, m: Reading)
    requires OneLineFields(node, m)
    ensures NoNewline(Headline(CpuSpike, node, m)) && StartsSolid(Headline(CpuSpike, node, m))
  {
    GlueSolid(HeadlinePieces(CpuSpike, node, m));
  }

  lemma SustainedCpuHeadlineSolid(node: string, m: Reading)
    requires OneLineFields(node, m)
    ensures NoNewline(Headline(SustainedCpu, node, m)) && StartsSolid(Headline(SustainedCpu, node, m))
  {
    GlueSolid(HeadlinePieces(SustainedCpu, node, m));
  }

  lemma MemoryExhaustionHeadlineSolid(node: string, m: Reading)
    requires OneLineFields(node, m)
    ensures NoNewline(Headline(MemoryExhaustion, node, m)) && StartsSolid(Headline(MemoryExhaustion, node, m))
  {
    GlueSolid(HeadlinePieces(MemoryExhaustion, node, m));
  }

  lemma ElevatedMemoryHeadlineSolid(node: string, m: Reading)
    requires OneLineFields(node, m)
    ensures NoNewline(Headline(ElevatedMemory, node, m)) && StartsSolid(Headline(ElevatedMemory, node, m))
  {
    GlueSolid(HeadlinePieces(ElevatedMemory, node, m));
  }

  lemma HighLatencyHeadlineSolid(node: string, m: Reading)
    requires OneLineFields(node, m)
    ensures NoNewline(Headline(HighLatency, node, m)) && StartsSolid(Headline(HighLatency, node, m))
  {
    GlueSolid(HeadlinePieces(HighLatency, node, m));
  }

  lemma MildAnomalyHeadlineSolid(node: string, m: Reading)
    requires OneLineFields(node, m)
    ensures NoNewline(Headline(MildAnomaly, node, m)) && StartsSolid(Headline(MildAnomaly, node, m))
  {
    GlueSolid(HeadlinePieces(MildAnomaly, node, m));
  }

  /** Every line of guidance is one line starting solid; again one lemma
      per branch. */
  lemma GuidanceSolid(b: Branch)
    ensures SolidLines(Guidance(b))
  {
    match b {
      case LeakOrSaturation => LeakOrSaturationSolid();
      case DownstreamBottleneck => DownstreamBottleneckSolid();
      case NetworkCongestion => NetworkCongestionSolid();
      case CpuSpike => CpuSpikeSolid();
      case SustainedCpu => SustainedCpuSolid();
      case MemoryExhaustion => MemoryExhaustionSolid();
      case ElevatedMemory => ElevatedMemorySolid();
      case HighLatency => HighLatencySolid();
      case MildAnomaly => MildAnomalySolid();
    }
  }

  lemma LeakOrSaturationSolid()
    ensures SolidLines(Guidance(LeakOrSaturation))
  {
    GlueSolid(GuidancePieces(LeakOrSaturation)[0]);
    GlueSolid(GuidancePieces(LeakOrSaturation)[1]);
  }

  lemma DownstreamBottleneckSolid()
    ensures SolidLines(Guidance(DownstreamBottleneck))
  {
    GlueSolid(GuidancePieces(DownstreamBottleneck)[0]);
    GlueSolid(GuidancePieces(DownstreamBottleneck)[1]);
  }

  lemma NetworkCongestionSolid()
    ensures SolidLines(Guidance(NetworkCongestion))
  {
    GlueSolid(GuidancePieces(NetworkCongestion)[0]);
    GlueSolid(GuidancePieces(NetworkCongestion)[1]);
  }

  lemma CpuSpikeSolid()
    ensures SolidLines(Guidance(CpuSpike))
  {
    GlueSolid(GuidancePieces(CpuSpike)[0]);
  }

  lemma SustainedCpuSolid()
    ensures SolidLines(Guidance(SustainedCpu))
  {
    GlueSolid(GuidancePieces(SustainedCpu)[0]);
  }

  lemma MemoryExhaustionSolid()
    ensures SolidLines(Guidance(MemoryExhaustion))
  {
    GlueSolid(GuidancePieces(MemoryExhaustion)[0]);
  }

  lemma ElevatedMemorySolid()
    ensures SolidLines(Guidance(ElevatedMemory))
  {
    GlueSolid(GuidancePieces(ElevatedMemory)[0]);
  }

  lemma HighLatencySolid()
    ensures SolidLines(Guidance(HighLatency))
  {
    GlueSolid(GuidancePieces(HighLatency)[0]);
  }

  lemma MildAnomalySolid()
    ensures SolidLines(Guidance(MildAnomaly))
  {
    GlueSolid(GuidancePieces(MildAnomaly)[0]);
  }

  /** The lines of the cascade's text for a reading and node. */
  function CascadeLines(m: Reading, node: string): seq<string> {
    match Classify(m)
    case Some(b) => TemplateLines(b, node, m)
    case None => [DefaultAction]
  }

  const EscalationNote :=
    "Note: Multiple anomalies detected on this node recently \U{2192} consider cordoning or replacing node."

  /** How many entries of the history's node column equal `node`. */
  function NodeCount(history: seq<string>, node: string): (n: nat)
    ensures n <= |history|
  {
    if |history| == 0 then 0
    else (if history[0] == node then 1 else 0) + NodeCount(history[1..], node)
  }

  /** The count is the multiplicity of the node in the history column. */
  lemma {:induction false} NodeCountIsMultiplicity(history: seq<string>, node: string)
    ensures NodeCount(history, node) == multiset(history)[node]
  {
    if |history| > 0 {
      NodeCountIsMultiplicity(history[1..], node);
      assert history == [history[0]] + history[1..];
      assert multiset(history) == multiset{history[0]} + multiset(history[1..]);
    }
  }

  /** The recurrence test: a history is given and has more than three rows for the node. */
  predicate Escalates(history: Option<seq<string>>, node: string) {
    history.Some? && NodeCount(history.value, node) > 3
  }

  /** The lines of `suggest_action(row, history)`; `history` is the node column
      of the history table, `None` when no history is passed. */
  function AdviceLines(f: Fields, history: Option<seq<string>>): (ls: seq<string>)
    ensures |ls| >= 1
  {
    var base := CascadeLines(ReadingOf(f), NodeOf(f));
    if Escalates(history, NodeOf(f)) then base + [EscalationNote] else base
  }

  /** `suggest_action(row, history)`. */
  function SuggestAction(f: Fields, history: Option<seq<string>>): (text: string)
    ensures Escalates(history, NodeOf(f)) ==>
              text == Join(CascadeLines(ReadingOf(f), NodeOf(f))) + "\n" + EscalationNote
    ensures !Escalates(history, NodeOf(f)) ==>
              text == Join(CascadeLines(ReadingOf(f), NodeOf(f)))
  {
    var base := CascadeLines(ReadingOf(f), NodeOf(f));
    if Escalates(history, NodeOf(f)) then
      JoinAppend(base, [EscalationNote]);
      Join(AdviceLines(f, history))
    else
      Join(AdviceLines(f, history))
  }

  /** The cascade text is always a prefix of the advice, and something follows
      it exactly when the history escalates. */
  lemma CascadeTextIsPrefix(f: Fields, history: Option<seq<string>>)
    ensures var base := Join(CascadeLines(ReadingOf(f), NodeOf(f)));
            var text := SuggestAction(f, history);
            |base| <= |text| && text[..|base|] == base &&
            (|text| > |base| <==> Escalates(history, NodeOf(f)))
  {
  }

  /** Boundary of the recurrence test: three history rows for the node add no
      note, four do. */
  lemma EscalationBoundary(f: Fields)
    ensures var n := NodeOf(f);
            SuggestAction(f, Some([n, n, n])) == Join(CascadeLines(ReadingOf(f), n))
    ensures var n := NodeOf(f);
            SuggestAction(f, Some([n, n, n, n])) ==
              Join(CascadeLines(ReadingOf(f), n)) + "\n" + EscalationNote
  {
    var n := NodeOf(f);
    assert NodeCount([n], n) == 1 by { assert [n][1..] == []; }
    assert NodeCount([n, n], n) == 2 by { assert [n, n][1..] == [n]; }
    assert NodeCount([n, n, n], n) == 3 by { assert [n, n, n][1..] == [n, n]; }
    assert NodeCount([n, n, n, n], n) == 4 by { assert [n, n, n, n][1..] == [n, n, n]; }
  }

  /** Without a history the note never appears. */
  lemma NoHistoryNoNote(f: Fields)
    ensures SuggestAction(f, None) == Join(TemplateLines(ElifChain(ReadingOf(f)), NodeOf(f), ReadingOf(f)))
  {
    ClassifyIsElifChain(ReadingOf(f));
  }

  lemma JoinPair(a: string, b: string)
    ensures Join([a, b]) == a + "\n" + b
  {
    assert [a, b][1..] == [b];
  }

  /** Without a history, a row whose reading falls through every rule gets
      the informational headline and its one line of guidance. */
  lemma NoHistoryMild(f: Fields)
    requires ElifChain(ReadingOf(f)) == MildAnomaly
    ensures SuggestAction(f, None) ==
              Headline(MildAnomaly, NodeOf(f), ReadingOf(f)) + "\n" + Guidance(MildAnomaly)[0]
  {
    NoHistoryNoNote(f);
    var head := Headline(MildAnomaly, NodeOf(f), ReadingOf(f));
    assert |Guidance(MildAnomaly)| == 1;
    var action := Guidance(MildAnomaly)[0];
    assert TemplateLines(MildAnomaly, NodeOf(f), ReadingOf(f)) == [head, action];
    JoinPair(head, action);
  }

  /** A row with none of the keys yields the informational text for `unknown`. */
  lemma EmptyRowIsInformational()
    ensures SuggestAction(Fields(None, None, None, None), None) ==
              Headline(MildAnomaly, "unknown", Reading(0.0, 0.0, 0.0)) + "\n" + Guidance(MildAnomaly)[0]
  {
    var f := Fields(None, None, None, None);
    assert ReadingOf(f) == Reading(0.0, 0.0, 0.0);
    assert NodeOf(f) == "unknown";
    NoHistoryMild(f);
  }
}
