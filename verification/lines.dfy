/** Line splitting, joining and whitespace stripping on strings, with the
    character classes Python's `str.strip` and `textwrap.dedent` use. */
module Lines {

  /** Python's `str.isspace` for a single character. */
  predicate IsSpace(c: char) {
    || c == ' ' || c == '\t' || c == '\n' || c == '\r'
    || c == '\U{B}' || c == '\U{C}'
    || ('\U{1C}' <= c <= '\U{1F}')
    || c == '\U{85}' || c == '\U{A0}' || c == '\U{1680}'
    || ('\U{2000}' <= c <= '\U{200A}')
    || c == '\U{2028}' || c == '\U{2029}' || c == '\U{202F}' || c == '\U{205F}' || c == '\U{3000}'
  }

  /** The two characters `textwrap.dedent` treats as indentation. */
  predicate IsIndentChar(c: char) {
    c == ' ' || c == '\t'
  }

  predicate NoNewline(s: string) {
    '\n' !in s
  }

  /** A line that starts with a character `str.isspace` rejects. */
  predicate StartsSolid(l: string) {
    |l| > 0 && !IsSpace(l[0])
  }

  /** Lines that are lines indeed, none of them indented. */
  predicate SolidLines(ls: seq<string>) {
    forall k :: 0 <= k < |ls| ==> NoNewline(ls[k]) && StartsSolid(ls[k])
  }

  /** Splits at every `'\n'`; the result always has one more element than
      `s` has newlines. */
  function Split(s: string): (ls: seq<string>)
    ensures |ls| >= 1
  {
    if |s| == 0 then [""]
    else
      var rest := Split(s[1..]);
      if s[0] == '\n' then [""] + rest
      else [[s[0]] + rest[0]] + rest[1..]
  }

  /** The pieces concatenated in order. */
  function Glue(pieces: seq<string>): string {
    if |pieces| == 0 then "" else Glue(pieces[..|pieces| - 1]) + pieces[|pieces| - 1]
  }

  /** Newline-free pieces glue into one line, which starts solid when the
      first piece does. */
  lemma {:induction false} GlueSolid(pieces: seq<string>)
    requires |pieces| > 0 && StartsSolid(pieces[0])
    requires forall p :: p in pieces ==> NoNewline(p)
    ensures NoNewline(Glue(pieces)) && StartsSolid(Glue(pieces))
  {
    var last := pieces[|pieces| - 1];
    assert last in pieces;
    if |pieces| == 1 {
      assert Glue(pieces) == "" + last;
    } else {
      var init := pieces[..|pieces| - 1];
      assert init[0] == pieces[0];
      assert forall p :: p in init ==> p in pieces;
      GlueSolid(init);
      assert Glue(pieces) == Glue(init) + last;
      assert Glue(pieces)[0] == Glue(init)[0];
    }
  }

  /** Joins lines with `'\n'` between consecutive elements. */
  function Join(ls: seq<string>): string
    requires |ls| >= 1
  {
    if |ls| == 1 then ls[0] else ls[0] + "\n" + Join(ls[1..])
  }

  /** Joins items with `sep` between consecutive elements; `""` for no items. */
  function JoinWith(items: seq<string>, sep: string): string {
    if |items| == 0 then ""
    else if |items| == 1 then items[0]
    else items[0] + sep + JoinWith(items[1..], sep)
  }

  lemma {:induction false} SplitNoNewline(s: string)
    requires NoNewline(s)
    ensures Split(s) == [s]
  {
    if |s| > 0 {
      assert NoNewline(s[1..]) by {
        forall k | 0 <= k < |s[1..]| ensures s[1..][k] != '\n' {
          assert s[1..][k] == s[k + 1];
        }
      }
      SplitNoNewline(s[1..]);
      assert [s[0]] + s[1..] == s;
    }
  }

  /** A newline-free prefix is glued onto the first line. */
  lemma {:induction false} SplitPrefix(p: string, b: string)
    requires NoNewline(p)
    ensures Split(p + b) == [p + Split(b)[0]] + Split(b)[1..]
  {
    if |p| > 0 {
      assert (p + b)[1..] == p[1..] + b;
      assert NoNewline(p[1..]) by {
        forall k | 0 <= k < |p[1..]| ensures p[1..][k] != '\n' {
          assert p[1..][k] == p[k + 1];
        }
      }
      SplitPrefix(p[1..], b);
      assert [p[0]] + (p[1..] + Split(b)[0]) == p + Split(b)[0];
    } else {
      assert p == "";
      assert p + b == b;
      assert p + Split(b)[0] == Split(b)[0];
      assert [Split(b)[0]] + Split(b)[1..] == Split(b);
    }
  }

  /** One step of `Split` at a newline: it starts a new line. */
  lemma SplitConsNewline(t: string)
    ensures Split(['\n'] + t) == [""] + Split(t)
  {
    assert (['\n'] + t)[1..] == t;
  }

  /** One step of `Split` at any other character: it joins the first line. */
  lemma SplitConsChar(c: char, t: string)
    requires c != '\n'
    ensures Split([c] + t) == [[c] + Split(t)[0]] + Split(t)[1..]
  {
    assert ([c] + t)[0] == c && ([c] + t)[1..] == t;
  }

  /** Splitting distributes over a newline. */
  lemma {:induction false} SplitAtNewline(a: string, b: string)
    ensures Split(a + "\n" + b) == Split(a) + Split(b)
  {
    if |a| == 0 {
      assert a + "\n" + b == ['\n'] + b;
      SplitConsNewline(b);
    } else {
      var c, t := a[0], a[1..];
      assert a == [c] + t;
      assert a + "\n" + b == [c] + (t + "\n" + b);
      SplitAtNewline(t, b);
      if c == '\n' {
        NewlineKeepsTail(t, t + "\n" + b, Split(b));
      } else {
        CharKeepsTail(c, t, t + "\n" + b, Split(b));
      }
    }
  }

  /** Prepending a newline to two strings whose splits differ by a common
      tail keeps that relation. */
  lemma NewlineKeepsTail(t: string, u: string, tail: seq<string>)
    requires Split(u) == Split(t) + tail
    ensures Split(['\n'] + u) == Split(['\n'] + t) + tail
  {
    SplitConsNewline(u);
    SplitConsNewline(t);
    PrependAppend("", Split(t), tail);
  }

  /** The same for any other character, which joins the first line. */
  lemma CharKeepsTail(c: char, t: string, u: string, tail: seq<string>)
    requires c != '\n'
    requires Split(u) == Split(t) + tail
    ensures Split([c] + u) == Split([c] + t) + tail
  {
    SplitConsChar(c, u);
    SplitConsChar(c, t);
    ExtendFirstAppend([c], Split(t), tail);
  }

  lemma PrependAppend(p: string, ls: seq<string>, tail: seq<string>)
    ensures [p] + (ls + tail) == ([p] + ls) + tail
  {
  }

  /** Extending the first of some lines commutes with appending more lines. */
  lemma ExtendFirstAppend(p: string, ls: seq<string>, tail: seq<string>)
    requires |ls| >= 1
    ensures [p + (ls + tail)[0]] + (ls + tail)[1..] == ([p + ls[0]] + ls[1..]) + tail
  {
    assert (ls + tail)[0] == ls[0] && (ls + tail)[1..] == ls[1..] + tail;
  }



  /** Splitting a join of newline-free lines gives the lines back. */
  lemma {:induction false} SplitJoin(ls: seq<string>)
    requires |ls| >= 1
    requires forall i :: 0 <= i < |ls| ==> NoNewline(ls[i])
    ensures Split(Join(ls)) == ls
  {
    SplitNoNewline(ls[0]);
    if |ls| > 1 {
      SplitJoin(ls[1..]);
      SplitAtNewline(ls[0], Join(ls[1..]));
      assert [ls[0]] + ls[1..] == ls;
    }
  }

  /** Joining the split lines of a string gives the string back. */
  lemma {:induction false} JoinSplit(s: string)
    ensures Join(Split(s)) == s
  {
    if |s| > 0 {
      JoinSplit(s[1..]);
      var rest := Split(s[1..]);
      if s[0] == '\n' {
        assert Join([""] + rest) == "" + "\n" + Join(rest);
      } else {
        var ls := [[s[0]] + rest[0]] + rest[1..];
        if |rest| == 1 {
          assert Join(ls) == [s[0]] + rest[0];
        } else {
          assert ls[1..] == rest[1..];
          assert Join(rest) == rest[0] + "\n" + Join(rest[1..]);
        }
        assert [s[0]] + s[1..] == s;
      }
    }
  }

  /** Joining two non-empty line lists puts a newline between their joins. */
  lemma {:induction false} JoinAppend(a: seq<string>, b: seq<string>)
    requires |a| >= 1 && |b| >= 1
    ensures Join(a + b) == Join(a) + "\n" + Join(b)
  {
    if |a| == 1 {
      assert (a + b)[1..] == b;
    } else {
      assert (a + b)[1..] == a[1..] + b;
      JoinAppend(a[1..], b);
    }
  }

  /** Removes leading `str.isspace` characters. */
  function LStrip(s: string): (r: string)
    ensures |r| <= |s| && r == s[|s| - |r|..]
    ensures |r| > 0 ==> !IsSpace(r[0])
    ensures forall k :: 0 <= k < |s| - |r| ==> IsSpace(s[k])
  {
    if |s| > 0 && IsSpace(s[0]) then LStrip(s[1..]) else s
  }

  /** Removes trailing `str.isspace` characters. */
  function RStrip(s: string): (r: string)
    ensures |r| <= |s| && r == s[..|r|]
    ensures |r| > 0 ==> !IsSpace(r[|r| - 1])
    ensures forall k :: |r| <= k < |s| ==> IsSpace(s[k])
  {
    if |s| > 0 && IsSpace(s[|s| - 1]) then RStrip(s[..|s| - 1]) else s
  }

  /** Python's `str.strip()` with no argument. */
  function Strip(s: string): (r: string)
    ensures |r| > 0 ==> !IsSpace(r[0]) && !IsSpace(r[|r| - 1])
  {
    RStrip(LStrip(s))
  }

  predicate AllSpace(s: string) {
    forall k :: 0 <= k < |s| ==> IsSpace(s[k])
  }

  /** Stripping whitespace padding around a string that neither starts nor
      ends with whitespace recovers it exactly. */
  lemma StripPadded(pre: string, body: string, post: string)
    requires AllSpace(pre) && AllSpace(post)
    requires |body| > 0 && !IsSpace(body[0]) && !IsSpace(body[|body| - 1])
    ensures Strip(pre + body + post) == body
  {
    LStripSpacePrefix(pre, body + post);
    assert pre + body + post == pre + (body + post);
    RStripSpaceSuffix(body, post);
  }

  lemma {:induction false} LStripSpacePrefix(pre: string, s: string)
    requires AllSpace(pre)
    requires |s| > 0 && !IsSpace(s[0])
    ensures LStrip(pre + s) == s
  {
    if |pre| > 0 {
      assert (pre + s)[1..] == pre[1..] + s;
      LStripSpacePrefix(pre[1..], s);
    } else {
      assert pre + s == s;
    }
  }

  lemma {:induction false} RStripSpaceSuffix(s: string, post: string)
    requires AllSpace(post)
    requires |s| > 0 && !IsSpace(s[|s| - 1])
    ensures RStrip(s + post) == s
  {
    if |post| > 0 {
      assert (s + post)[..|s + post| - 1] == s + post[..|post| - 1];
      RStripSpaceSuffix(s, post[..|post| - 1]);
    } else {
      assert s + post == s;
    }
  }
}
