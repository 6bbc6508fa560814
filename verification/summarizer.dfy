/** The report formatter (`templated_summary`, src/summarizer.py): field
    defaults, timestamp rendering, the fixed line layout, then
    `textwrap.dedent` and `str.strip`. */
module Summarizer {
  import opened Wrappers
  import opened Lines
  import opened Metrics
  import Format

  // ---- textwrap.dedent ----

  /** A line made only of spaces and tabs (the empty line included). */
  predicate Blank(l: string) {
    forall k :: 0 <= k < |l| ==> IsIndentChar(l[k])
  }

  /** The leading run of spaces and tabs of a line. */
  function Indent(l: string): (r: string)
    ensures |r| <= |l| && r == l[..|r|]
    ensures Blank(r)
    ensures |r| < |l| ==> !IsIndentChar(l[|r|])
  {
    if |l| > 0 && IsIndentChar(l[0]) then [l[0]] + Indent(l[1..]) else ""
  }

  /** The longest common prefix of two strings. */
  function CommonPrefix(a: string, b: string): (r: string)
    ensures |r| <= |a| && |r| <= |b| && r == a[..|r|] && r == b[..|r|]
    ensures |r| < |a| && |r| < |b| ==> a[|r|] != b[|r|]
  {
    if |a| > 0 && |b| > 0 && a[0] == b[0] then [a[0]] + CommonPrefix(a[1..], b[1..]) else ""
  }

  /** One step of the margin computation: blank lines are skipped, the first
      indent found becomes the margin, and later ones cut it down to the
      common prefix. */
  function MarginStep(acc: Option<string>, l: string): Option<string> {
    if Blank(l) then acc
    else
      match acc
      case None => Some(Indent(l))
      case Some(m) => Some(CommonPrefix(m, Indent(l)))
  }

  function MarginFrom(ls: seq<string>, acc: Option<string>): Option<string> {
    if |ls| == 0 then acc else MarginFrom(ls[1..], MarginStep(acc, ls[0]))
  }

  /** Whitespace-only lines become empty. */
  function BlankOut(l: string): (r: string)
    ensures Blank(l) ==> r == ""
    ensures !Blank(l) ==> r == l
  {
    if Blank(l) then "" else l
  }

  function RemoveMargin(l: string, m: string): string {
    if |m| <= |l| && l[..|m|] == m then l[|m|..] else l
  }

  /** `textwrap.dedent` on a list of lines. */
  function DedentLines(ls: seq<string>): (r: seq<string>)
    ensures |r| == |ls|
  {
    var blanked := seq(|ls|, i requires 0 <= i < |ls| => BlankOut(ls[i]));
    var margin := MarginFrom(blanked, None).GetOr("");
    seq(|ls|, i requires 0 <= i < |ls| => RemoveMargin(blanked[i], margin))
  }

  function Dedent(text: string): string {
    Join(DedentLines(Split(text)))
  }

  // ---- What dedenting does ----

  /** `p` starts `s`. */
  predicate StartsWith(s: string, p: string) {
    |p| <= |s| && s[..|p|] == p
  }

  /** The margin `textwrap.dedent` removes from the lines. */
  function Margin(ls: seq<string>): string {
    MarginFrom(seq(|ls|, i requires 0 <= i < |ls| => BlankOut(ls[i])), None).GetOr("")
  }

  /** Every prefix the two strings share is a prefix of their common prefix. */
  lemma CommonPrefixLongest(a: string, b: string, p: string)
    requires StartsWith(a, p) && StartsWith(b, p)
    ensures StartsWith(CommonPrefix(a, b), p)
  {
    var r := CommonPrefix(a, b);
    assert forall k :: 0 <= k < |p| ==> a[k] == p[k] == b[k];
    assert r[..|p|] == a[..|p|];
  }

  /** The margin found from `acc` on is a prefix of `acc` and of the indent
      of every non-blank line, and it is found exactly when `acc` holds one
      or some line is non-blank. */
  lemma {:induction false} MarginFromCommon(ls: seq<string>, acc: Option<string>)
    requires acc.Some? ==> Blank(acc.value)
    ensures var r := MarginFrom(ls, acc);
            && (r.Some? <==> acc.Some? || exists i :: 0 <= i < |ls| && !Blank(ls[i]))
            && (r.Some? ==> Blank(r.value))
            && (acc.Some? ==> StartsWith(acc.value, r.value))
            && (forall i :: 0 <= i < |ls| && !Blank(ls[i]) ==> StartsWith(Indent(ls[i]), r.value))
  {
    if |ls| > 0 {
      var next := MarginStep(acc, ls[0]);
      assert next.Some? ==> Blank(next.value) by {
        if !Blank(ls[0]) && acc.Some? {
          var c := CommonPrefix(acc.value, Indent(ls[0]));
          assert forall k :: 0 <= k < |c| ==> c[k] == acc.value[k];
        }
      }
      MarginFromCommon(ls[1..], next);
      var r := MarginFrom(ls, acc);
      assert forall i :: 1 <= i < |ls| ==> ls[1..][i - 1] == ls[i];
      if r.Some? {
        if !Blank(ls[0]) {
          if acc.Some? {
            var c := CommonPrefix(acc.value, Indent(ls[0]));
            assert StartsWith(c, r.value);
            assert acc.value[..|r.value|] == c[..|r.value|];
            assert Indent(ls[0])[..|r.value|] == c[..|r.value|];
          }
        }
      }
    }
  }

  /** No longer prefix is common: one shared by `acc` and every non-blank
      indent is a prefix of the margin found. */
  lemma {:induction false} MarginFromLongest(ls: seq<string>, acc: Option<string>, p: string)
    requires acc.Some? ==> StartsWith(acc.value, p)
    requires forall i :: 0 <= i < |ls| && !Blank(ls[i]) ==> StartsWith(Indent(ls[i]), p)
    requires acc.Some? || exists i :: 0 <= i < |ls| && !Blank(ls[i])
    ensures MarginFrom(ls, acc).Some? && StartsWith(MarginFrom(ls, acc).value, p)
  {
    if |ls| > 0 {
      var next := MarginStep(acc, ls[0]);
      if !Blank(ls[0]) && acc.Some? {
        CommonPrefixLongest(acc.value, Indent(ls[0]), p);
      }
      assert forall i :: 1 <= i < |ls| ==> ls[1..][i - 1] == ls[i];
      if next.None? {
        var i :| 0 <= i < |ls| && !Blank(ls[i]);
        assert i != 0;
      }
      MarginFromLongest(ls[1..], next, p);
    }
  }

  /** `textwrap.dedent`: a whitespace-only line becomes empty, every other
      line loses exactly the margin, and the margin is a run of spaces and
      tabs that starts every non-blank line's indent. */
  lemma DedentRemovesMargin(ls: seq<string>)
    ensures Blank(Margin(ls))
    ensures forall i :: 0 <= i < |ls| && Blank(ls[i]) ==> DedentLines(ls)[i] == ""
    ensures forall i :: 0 <= i < |ls| && !Blank(ls[i]) ==>
              StartsWith(Indent(ls[i]), Margin(ls)) && DedentLines(ls)[i] == ls[i][|Margin(ls)|..]
  {
    var blanked := seq(|ls|, i requires 0 <= i < |ls| => BlankOut(ls[i]));
    MarginFromCommon(blanked, None);
    var m := Margin(ls);
    assert forall i :: 0 <= i < |ls| ==> (Blank(blanked[i]) <==> Blank(ls[i]));
    forall i | 0 <= i < |ls| && !Blank(ls[i])
      ensures StartsWith(ls[i], m)
    {
      var ind := Indent(ls[i]);
      assert ls[i][..|m|] == ind[..|m|];
    }
  }

  /** The margin is the longest common one: any run shared by the indents
      of all non-blank lines, when there is one, starts the margin. */
  lemma MarginIsLongest(ls: seq<string>, p: string)
    requires exists i :: 0 <= i < |ls| && !Blank(ls[i])
    requires forall i :: 0 <= i < |ls| && !Blank(ls[i]) ==> StartsWith(Indent(ls[i]), p)
    ensures StartsWith(Margin(ls), p)
  {
    var blanked := seq(|ls|, i requires 0 <= i < |ls| => BlankOut(ls[i]));
    assert forall i :: 0 <= i < |ls| ==> (Blank(blanked[i]) <==> Blank(ls[i]));
    assert forall i :: 0 <= i < |ls| && !Blank(ls[i]) ==> blanked[i] == ls[i];
    MarginFromLongest(blanked, None, p);
  }

  // ---- The report ----

  /** The `value` field: a string, or a float holding a whole number of
      hundredths (what `round(x, 2)` yields). */
  datatype Value = TextValue(text: string) | CentsValue(cents: int)

  /** The `threshold` field, which the report reads but never shows. */
  datatype Threshold = ThresholdText(text: string) | ThresholdLevel(z: real)

  /** The event dictionary; `None` is an absent key. */
  datatype Event = Event(
    timestamp: Option<Stamp>,
    metric: Option<string>,
    node: Option<string>,
    value: Option<Value>,
    threshold: Option<Threshold>,
    suggestion: Option<string>)

  /** A string timestamp is used as is, a date-time through `isoformat()`,
      anything else through `str()`; an absent one is `str(None)`. */
  function WhenText(ts: Option<Stamp>): (when: string)
    ensures ts.Some? && ts.value.Text? ==> when == ts.value.text
    ensures ts.Some? && ts.value.DateTime? ==> when == ts.value.iso
    ensures ts.Some? && ts.value.Other? ==> when == ts.value.repr
    ensures ts.None? ==> when == "None"
  {
    match ts
    case None => "None"
    case Some(Text(s)) => s
    case Some(DateTime(iso)) => iso
    case Some(Other(repr)) => repr
  }

  function ValueText(v: Value): string {
    match v
    case TextValue(s) => s
    case CentsValue(c) => Format.CentsText(c)
  }

  const Bullet := "\U{2022}"
  const DefaultSuggestion := "Investigate logs or scale pods."

  /** The four metadata lines, in the order Time, Node, Metric, Value. */
  function BulletLines(when: string, node: string, metric: string, value: string): seq<string> {
    [ Bullet + " Time: " + when,
      Bullet + " Node: " + node,
      Bullet + " Metric: " + metric,
      Bullet + " Value: " + value ]
  }

  function Indented(indent: string, ls: seq<string>): (r: seq<string>)
    ensures |r| == |ls| && forall i :: 0 <= i < |ls| ==> r[i] == indent + ls[i]
  {
    seq(|ls|, i requires 0 <= i < |ls| => indent + ls[i])
  }

  /** The lines of the triple-quoted template before dedenting: an empty first
      line, the suggestion and the given lines behind four spaces, and the
      four-space line before the closing quotes. */
  function Frame(suggestion: string, flat: seq<string>): seq<string> {
    ["", "    " + suggestion] + Indented("    ", flat) + ["    "]
  }

  /** `textwrap.dedent(template).strip()` for the given field texts. */
  function Layout(suggestion: string, when: string, node: string, metric: string, value: string): (r: string)
    ensures |r| > 0 ==> !IsSpace(r[0]) && !IsSpace(r[|r| - 1])
  {
    Strip(Dedent(Join(Frame(suggestion, BulletLines(when, node, metric, value)))))
  }

  /** `templated_summary(event)`. */
  function Summary(e: Event): (r: string)
    ensures |r| > 0 ==> !IsSpace(r[0]) && !IsSpace(r[|r| - 1])
  {
    Layout(
      e.suggestion.GetOr(DefaultSuggestion),
      WhenText(e.timestamp),
      e.node.GetOr("unknown"),
      e.metric.GetOr("cpu"),
      ValueText(e.value.GetOr(TextValue("N/A"))))
  }

  // ---- Layout lemmas ----

  lemma IndentOfSolid(l: string)
    requires StartsSolid(l)
    ensures Indent(l) == "" && !Blank(l)
  {
  }

  /** Four spaces in front of a solid line are exactly its indent. */
  lemma IndentOfPadded(l: string)
    requires StartsSolid(l)
    ensures Indent("    " + l) == "    " && !Blank("    " + l)
  {
    var x := "    " + l;
    assert x[4] == l[0];
    assert x[..4] == "    ";
  }

  lemma RemovePadding(l: string)
    ensures RemoveMargin("    " + l, "    ") == l
  {
    assert ("    " + l)[..4] == "    ";
    assert ("    " + l)[4..] == l;
  }

  lemma {:induction false} CommonPrefixSelf(a: string)
    ensures CommonPrefix(a, a) == a
  {
    if |a| > 0 {
      CommonPrefixSelf(a[1..]);
    }
  }

  /** Once the margin is empty it stays empty. */
  lemma {:induction false} MarginStaysEmpty(ls: seq<string>)
    ensures MarginFrom(ls, Some("")) == Some("")
  {
    if |ls| > 0 {
      assert MarginStep(Some(""), ls[0]) == Some("");
      MarginStaysEmpty(ls[1..]);
    }
  }

  /** A non-blank line without indent makes the margin empty. */
  lemma {:induction false} MarginEmptied(ls: seq<string>, acc: Option<string>, k: nat)
    requires k < |ls| && StartsSolid(ls[k])
    ensures MarginFrom(ls, acc) == Some("")
  {
    IndentOfSolid(ls[k]);
    var next := MarginStep(acc, ls[0]);
    if k == 0 {
      assert next == Some("");
      MarginStaysEmpty(ls[1..]);
    } else {
      MarginEmptied(ls[1..], next, k - 1);
    }
  }

  /** When every non-blank line has indent `p`, the margin stays `p`. */
  lemma {:induction false} MarginUniform(ls: seq<string>, p: string)
    requires forall k :: 0 <= k < |ls| ==> Blank(ls[k]) || Indent(ls[k]) == p
    ensures MarginFrom(ls, Some(p)) == Some(p)
  {
    if |ls| > 0 {
      CommonPrefixSelf(p);
      assert MarginStep(Some(p), ls[0]) == Some(p);
      MarginUniform(ls[1..], p);
    }
  }

  predicate NoNewlineFields(when: string, node: string, metric: string, value: string) {
    NoNewline(when) && NoNewline(node) && NoNewline(metric) && NoNewline(value)
  }

  lemma BulletsNoNewline(when: string, node: string, metric: string, value: string)
    requires NoNewlineFields(when, node, metric, value)
    ensures var bl := BulletLines(when, node, metric, value);
            |bl| == 4 && forall k :: 0 <= k < 4 ==> NoNewline(bl[k]) && NoNewline("    " + bl[k])
  {
    assert NoNewline(Bullet + " Time: ") && NoNewline(Bullet + " Node: ");
    assert NoNewline(Bullet + " Metric: ") && NoNewline(Bullet + " Value: ");
  }

  /** Splitting a first line and a newline-free tail joined after it. */
  lemma SplitHeadTail(head: string, tail: seq<string>)
    requires |tail| >= 1 && forall k :: 0 <= k < |tail| ==> NoNewline(tail[k])
    ensures Split(Join([head] + tail)) == Split(head) + tail
  {
    JoinAppend([head], tail);
    SplitAtNewline(head, Join(tail));
    SplitJoin(tail);
  }

  /** The template's lines after splitting at newlines: the suggestion's own
      lines follow its first, which alone gets the four spaces. */
  lemma SplitFrame(suggestion: string, flat: seq<string>)
    requires forall k :: 0 <= k < |flat| ==> NoNewline(flat[k])
    ensures Split(Join(Frame(suggestion, flat))) ==
              [""] + Split("    " + suggestion) + (Indented("    ", flat) + ["    "])
  {
    var tail := Indented("    ", flat) + ["    "];
    assert forall k :: 0 <= k < |tail| ==> NoNewline(tail[k]);
    var padded := "    " + suggestion;
    assert Frame(suggestion, flat) == [""] + ([padded] + tail);
    JoinAppend([""], [padded] + tail);
    SplitAtNewline("", Join([padded] + tail));
    SplitHeadTail(padded, tail);
    assert [""] + (Split(padded) + tail) == [""] + Split(padded) + tail;
  }

  lemma {:induction false} JoinFirst(ls: seq<string>)
    requires |ls| >= 1 && |ls[0]| > 0
    ensures |Join(ls)| > 0 && Join(ls)[0] == ls[0][0]
  {
  }

  lemma {:induction false} JoinLast(ls: seq<string>)
    requires |ls| >= 1 && |ls[|ls| - 1]| > 0
    ensures var j := Join(ls); var l := ls[|ls| - 1]; |j| > 0 && j[|j| - 1] == l[|l| - 1]
  {
    if |ls| > 1 {
      JoinLast(ls[1..]);
    }
  }

  /** Stripping the dedented lines `[""] + body + [""]`. */
  lemma StripFramed(pad: string, body: seq<string>)
    requires |body| >= 1 && AllSpace(pad)
    requires StartsSolid(body[0])
    requires var l := body[|body| - 1]; |l| > 0 && !IsSpace(l[|l| - 1])
    ensures Strip(Join([""] + ([pad + body[0]] + body[1..]) + [""])) == Join(body)
  {
    FramedJoin(pad, body);
    JoinFirst(body);
    JoinLast(body);
    AllSpaceNewline(pad);
    StripPadded("\n" + pad, Join(body), "\n");
  }

  /** The text of `[""] + body + [""]` with `pad` before the first body line. */
  lemma FramedJoin(pad: string, body: seq<string>)
    requires |body| >= 1
    ensures Join([""] + ([pad + body[0]] + body[1..]) + [""]) == ("\n" + pad) + Join(body) + "\n"
  {
    var padded := [pad + body[0]] + body[1..];
    var framed := [""] + padded + [""];
    var b := Join(body);
    JoinPrefix(pad, body);
    JoinAppend(padded, [""]);
    assert Join(padded + [""]) == pad + b + "\n";
    assert framed[1..] == padded + [""];
    assert Join(framed) == "" + "\n" + (pad + b + "\n");
    NewlineRegroup(pad, b);
  }

  lemma NewlineRegroup(x: string, y: string)
    ensures "" + "\n" + (x + y + "\n") == ("\n" + x) + y + "\n"
  {
    assert "" + "\n" == "\n";
  }

  /** Stripping `[""] + body + [""]` with nothing in front of the body. */
  lemma StripBare(body: seq<string>)
    requires |body| >= 1 && StartsSolid(body[0]) && EndsSolid(body)
    ensures Strip(Join([""] + body + [""])) == Join(body)
  {
    assert "" + body[0] == body[0];
    assert [""] + ([body[0]] + body[1..]) + [""] == [""] + body + [""];
    StripFramed("", body);
  }

  lemma AllSpaceNewline(pad: string)
    requires AllSpace(pad)
    ensures AllSpace("\n" + pad) && AllSpace("\n")
  {
    assert forall k :: 1 <= k < |"\n" + pad| ==> ("\n" + pad)[k] == pad[k - 1];
  }

  lemma {:induction false} JoinPrefix(pad: string, ls: seq<string>)
    requires |ls| >= 1
    ensures Join([pad + ls[0]] + ls[1..]) == pad + Join(ls)
  {
    if |ls| > 1 {
      assert ([pad + ls[0]] + ls[1..])[1..] == ls[1..];
    }
  }

  predicate EndsSolid(ls: seq<string>) {
    |ls| >= 1 && var l := ls[|ls| - 1]; |l| > 0 && !IsSpace(l[|l| - 1])
  }

  /** The frame of a one-line suggestion, split back into lines. */
  lemma SplitSingleFrame(suggestion: string, flat: seq<string>)
    requires NoNewline(suggestion)
    requires forall k :: 0 <= k < |flat| ==> NoNewline(flat[k])
    ensures Split(Join(Frame(suggestion, flat))) == Frame(suggestion, flat)
  {
    SplitNoNewline(suggestion);
    SplitPrefix("    ", suggestion);
    SplitFrame(suggestion, flat);
  }

  /** Dedenting the one-line frame removes the four-space margin. */
  lemma DedentSingleLines(suggestion: string, flat: seq<string>)
    requires StartsSolid(suggestion) && SolidLines(flat)
    ensures DedentLines(Frame(suggestion, flat)) == ["", suggestion] + flat + [""]
  {
    var ls := Frame(suggestion, flat);
    var out := ["", suggestion] + flat + [""];
    assert ls[|ls| - 1] == "    ";
    assert forall i :: 2 <= i < |ls| - 1 ==> ls[i] == "    " + out[i];
    DedentPadded(ls, out);
  }

  /** Lines that are blank or four spaces before a solid line dedent to
      those lines, and the blank ones to empty lines. */
  lemma DedentPadded(ls: seq<string>, out: seq<string>)
    requires |ls| == |out|
    requires forall i :: 0 <= i < |ls| ==>
               if out[i] == "" then Blank(ls[i]) else ls[i] == "    " + out[i] && StartsSolid(out[i])
    ensures DedentLines(ls) == out
  {
    forall i | 0 <= i < |ls| && out[i] != "" ensures Indent(ls[i]) == "    " && !Blank(ls[i]) {
      IndentOfPadded(out[i]);
    }
    DedentRemovesMargin(ls);
    if i :| 0 <= i < |ls| && !Blank(ls[i]) {
      assert Margin(ls) == "    " by {
        MarginIsLongest(ls, "    ");
      }
      forall k | 0 <= k < |ls| && out[k] != "" ensures DedentLines(ls)[k] == out[k] {
        assert ls[k][4..] == out[k];
      }
    }
  }

  /** Dedent and strip of a frame whose suggestion is one line. */
  lemma DedentSingleFrame(suggestion: string, flat: seq<string>)
    requires NoNewline(suggestion) && StartsSolid(suggestion)
    requires SolidLines(flat) && EndsSolid(flat)
    ensures Strip(Dedent(Join(Frame(suggestion, flat)))) == Join([suggestion] + flat)
  {
    var body := [suggestion] + flat;
    assert Dedent(Join(Frame(suggestion, flat))) == Join([""] + body + [""]) by {
      SplitSingleFrame(suggestion, flat);
      DedentSingleLines(suggestion, flat);
      assert ["", suggestion] + flat + [""] == [""] + body + [""];
    }
    assert StartsSolid(body[0]) && EndsSolid(body) by {
      assert body[0] == suggestion && body[|body| - 1] == flat[|flat| - 1];
    }
    StripBare(body);
  }

  /** A suggestion of several lines, split back after the four spaces. */
  lemma SplitPaddedLines(sl: seq<string>)
    requires |sl| >= 1 && forall k :: 0 <= k < |sl| ==> NoNewline(sl[k])
    ensures Split("    " + Join(sl)) == ["    " + sl[0]] + sl[1..]
  {
    SplitJoin(sl);
    SplitPrefix("    ", Join(sl));
  }

  /** The frame of a several-line suggestion, split back into lines. */
  lemma SplitMultiFrame(sl: seq<string>, flat: seq<string>)
    requires |sl| >= 1 && forall k :: 0 <= k < |sl| ==> NoNewline(sl[k])
    requires forall k :: 0 <= k < |flat| ==> NoNewline(flat[k])
    ensures Split(Join(Frame(Join(sl), flat))) ==
              [""] + (["    " + sl[0]] + sl[1..]) + (Indented("    ", flat) + ["    "])
  {
    SplitPaddedLines(sl);
    SplitFrame(Join(sl), flat);
  }

  /** When the suggestion's second line has no indent, the margin is empty
      and dedenting only clears the closing four-space line. */
  lemma DedentMultiLines(sl: seq<string>, flat: seq<string>)
    requires |sl| >= 2 && SolidLines(sl) && SolidLines(flat)
    ensures var bs := Indented("    ", flat);
            DedentLines([""] + (["    " + sl[0]] + sl[1..]) + (bs + ["    "])) ==
              [""] + (["    " + sl[0]] + sl[1..]) + bs + [""]
  {
    var bs := Indented("    ", flat);
    var ls := [""] + (["    " + sl[0]] + sl[1..]) + (bs + ["    "]);
    var out := [""] + (["    " + sl[0]] + sl[1..]) + bs + [""];
    var n := |ls|;
    var blanked := seq(n, i requires 0 <= i < n => BlankOut(ls[i]));
    IndentOfPadded(sl[0]);
    forall k | 0 <= k < |flat| ensures !Blank(bs[k]) {
      IndentOfPadded(flat[k]);
    }
    forall i | 0 <= i < n ensures blanked[i] == out[i] {
      if 2 <= i < |sl| + 1 {
        assert ls[i] == sl[i - 1];
        IndentOfSolid(sl[i - 1]);
      } else if |sl| + 1 <= i < n - 1 {
        assert ls[i] == bs[i - |sl| - 1];
      }
    }
    assert StartsSolid(blanked[2]);
    MarginEmptied(blanked, None, 2);
    forall i | 0 <= i < n ensures RemoveMargin(blanked[i], "") == out[i] {
      assert blanked[i][..0] == "";
    }
  }

  /** Dedenting the frame of a several-line suggestion. */
  lemma DedentMultiText(sl: seq<string>, flat: seq<string>)
    requires |sl| >= 2 && SolidLines(sl) && SolidLines(flat)
    ensures var body := sl + Indented("    ", flat);
            Dedent(Join(Frame(Join(sl), flat))) ==
              Join([""] + (["    " + body[0]] + body[1..]) + [""])
  {
    var bs := Indented("    ", flat);
    SplitMultiFrame(sl, flat);
    DedentMultiLines(sl, flat);
    Regroup("    ", sl, bs);
  }

  /** Dedent and strip of a frame whose suggestion has several lines, the
      second without indent: the bullets keep their four spaces. */
  lemma DedentMultiFrame(sl: seq<string>, flat: seq<string>)
    requires |sl| >= 2 && SolidLines(sl)
    requires SolidLines(flat) && EndsSolid(flat)
    ensures Strip(Dedent(Join(Frame(Join(sl), flat)))) == Join(sl + Indented("    ", flat))
  {
    DedentMultiText(sl, flat);
    SolidEnds(sl, flat);
    StripFramed("    ", sl + Indented("    ", flat));
  }

  /** The suggestion lines followed by the padded bullets start and end
      with non-space characters. */
  lemma SolidEnds(sl: seq<string>, flat: seq<string>)
    requires |sl| >= 1 && SolidLines(sl) && EndsSolid(flat)
    ensures var body := sl + Indented("    ", flat);
            StartsSolid(body[0]) && EndsSolid(body) && AllSpace("    ")
  {
    var last := flat[|flat| - 1];
    var body := sl + Indented("    ", flat);
    assert body[|body| - 1] == "    " + last;
    assert ("    " + last)[|"    " + last| - 1] == last[|last| - 1];
  }

  /** Re-grouping the dedented lines so the padded first line heads
      `sl + bs`. */
  lemma Regroup(pad: string, sl: seq<string>, bs: seq<string>)
    requires |sl| >= 1
    ensures [""] + ([pad + sl[0]] + sl[1..]) + bs + [""] ==
            [""] + ([pad + (sl + bs)[0]] + (sl + bs)[1..]) + [""]
  {
    assert (sl + bs)[1..] == sl[1..] + bs;
  }

  // ---- The report, end to end ----

  /** The bullet lines start with the bullet; the last ends with the value's
      last character. */
  lemma BulletsSolid(when: string, node: string, metric: string, value: string)
    requires NoNewlineFields(when, node, metric, value)
    requires |value| > 0 && !IsSpace(value[|value| - 1])
    ensures SolidLines(BulletLines(when, node, metric, value))
    ensures EndsSolid(BulletLines(when, node, metric, value))
  {
    BulletsNoNewline(when, node, metric, value);
    var bl := BulletLines(when, node, metric, value);
    forall k | 0 <= k < 4 ensures StartsSolid(bl[k]) {
      assert bl[k][0] == Bullet[0];
    }
    var last := Bullet + " Value: " + value;
    assert last[|last| - 1] == value[|value| - 1];
  }

  /** With a one-line suggestion the margin is the template's four spaces,
      so the report is the suggestion and the bullets, none indented. */
  lemma {:induction false} SingleLineLayout(suggestion: string, when: string, node: string, metric: string, value: string)
    requires NoNewline(suggestion) && StartsSolid(suggestion)
    requires NoNewlineFields(when, node, metric, value)
    requires |value| > 0 && !IsSpace(value[|value| - 1])
    ensures Layout(suggestion, when, node, metric, value) ==
              Join([suggestion] + BulletLines(when, node, metric, value))
  {
    BulletsSolid(when, node, metric, value);
    DedentSingleFrame(suggestion, BulletLines(when, node, metric, value));
  }

  /** With a suggestion of several lines whose second line has no indent, the
      common margin is empty: the suggestion's lines come out as they are and
      each bullet keeps four spaces in front. */
  lemma {:induction false} MultiLineLayout(sl: seq<string>, when: string, node: string, metric: string, value: string)
    requires |sl| >= 2 && SolidLines(sl)
    requires NoNewlineFields(when, node, metric, value)
    requires |value| > 0 && !IsSpace(value[|value| - 1])
    ensures Layout(Join(sl), when, node, metric, value) ==
              Join(sl + Indented("    ", BulletLines(when, node, metric, value)))
  {
    BulletsSolid(when, node, metric, value);
    DedentMultiFrame(sl, BulletLines(when, node, metric, value));
  }

  /** The threshold is read but never shown. */
  lemma ThresholdIgnored(e: Event, t: Option<Threshold>)
    ensures Summary(e.(threshold := t)) == Summary(e)
  {
  }

  /** The one-line report written out. */
  lemma JoinBullets(suggestion: string, when: string, node: string, metric: string, value: string)
    ensures Join([suggestion] + BulletLines(when, node, metric, value)) ==
              suggestion + "\n" +
              Bullet + " Time: " + when + "\n" +
              Bullet + " Node: " + node + "\n" +
              Bullet + " Metric: " + metric + "\n" +
              Bullet + " Value: " + value
  {
    var bl := BulletLines(when, node, metric, value);
    var ls := [suggestion] + bl;
    assert ls[1..] == bl;
    assert bl[1..][1..][1..] == [bl[3]];
    assert Join(bl[2..]) == bl[2] + "\n" + bl[3];
    assert Join(bl[1..]) == bl[1] + "\n" + (bl[2] + "\n" + bl[3]);
    assert Join(bl) == bl[0] + "\n" + (bl[1] + "\n" + (bl[2] + "\n" + bl[3]));
  }

  /** An event with no keys at all: every default shows. */
  lemma {:induction false} EmptyEventSummary()
    ensures Summary(Event(None, None, None, None, None, None)) ==
              DefaultSuggestion + "\n" +
              Bullet + " Time: " + "None" + "\n" +
              Bullet + " Node: " + "unknown" + "\n" +
              Bullet + " Metric: " + "cpu" + "\n" +
              Bullet + " Value: " + "N/A"
  {
    assert NoNewlineFields("None", "unknown", "cpu", "N/A");
    assert NoNewline(DefaultSuggestion) && StartsSolid(DefaultSuggestion);
    SingleLineLayout(DefaultSuggestion, "None", "unknown", "cpu", "N/A");
    JoinBullets(DefaultSuggestion, "None", "unknown", "cpu", "N/A");
  }
}
