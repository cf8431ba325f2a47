/** Rendering a spec and parsing it back, line breaks in its values included. */
module FrontmatterAny {
  import Text
  import opened Frontmatter
  import opened FrontmatterRoundTrip

  // ---- Whitespace around a header text ----

  lemma ParseLinePrepend(meta: Meta, line: string, c: char)
    requires Text.IsSpace(c)
    ensures ParseLine(meta, [c] + line) == ParseLine(meta, line)
  {
    var n := Text.FirstIndex(IsColon(), line);
    Text.FirstIndexFacts(IsColon(), line);
    Text.FirstIndexIs(IsColon(), [c] + line, n + 1);
    if n < |line| {
      assert ([c] + line)[..n + 1] == [c] + line[..n] && ([c] + line)[n + 2..] == line[n + 1..];
      Text.StripPrepend(line[..n], c);
    }
  }

  lemma ParsePrepend(meta: Meta, s: string, c: char)
    requires Text.IsSpace(c)
    ensures ParseText(meta, [c] + s) == ParseText(meta, s)
  {
    var t := [c] + s;
    if Text.IsLineBreak(c) {
      Text.FirstIndexIs(Text.IsLineBreak, t, 0);
      ParseTextBreak(meta, t, 0);
      assert t[..0] == "" && t[1..] == s;
      ParseNoLines(meta, "");
    } else {
      var n := Text.FirstIndex(Text.IsLineBreak, s);
      Text.FirstIndexFacts(Text.IsLineBreak, s);
      Text.FirstIndexIs(Text.IsLineBreak, t, n + 1);
      if n < |s| {
        ParseTextBreak(meta, s, n);
        ParseTextBreak(meta, t, n + 1);
        assert t[..n + 1] == [c] + s[..n] && t[n + 2..] == s[n + 1..];
        ParseLinePrepend(meta, s[..n], c);
      } else {
        ParseTextLast(meta, s);
        ParseTextLast(meta, t);
        ParseLinePrepend(meta, s, c);
      }
    }
  }

  lemma {:induction false} ParseStripLeft(meta: Meta, s: string)
    ensures ParseText(meta, Text.StripLeft(s)) == ParseText(meta, s)
    decreases |s|
  {
    if s != "" && Text.IsSpace(s[0]) {
      assert s == [s[0]] + s[1..];
      ParseStripLeft(meta, s[1..]);
      ParsePrepend(meta, s[1..], s[0]);
    }
  }

  /** Stripping a header text does not change what it parses to. */
  lemma ParseStrip(meta: Meta, s: string)
    ensures ParseText(meta, Text.Strip(s)) == ParseText(meta, s)
  {
    ParseStripRight(meta, Text.StripLeft(s));
    ParseStripLeft(meta, s);
  }

  // ---- One rendered line after the other ----

  /** The header lines one after the other, each possibly several lines of text. */
  function ParseTexts(meta: Meta, lines: seq<string>): Meta
    decreases |lines|
  {
    if lines == [] then meta else ParseTexts(ParseText(meta, lines[0]), lines[1..])
  }

  lemma {:induction false} JoinedBreak(a: string, b: string, n: nat)
    requires n == Text.FirstIndex(Text.IsLineBreak, a)
    ensures var s := a + "\n" + b;
      && Text.FirstIndex(Text.IsLineBreak, s) == n && s[..n] == a[..n]
      && s[n + 1..] == if n < |a| then a[n + 1..] + "\n" + b else b
  {
    var s := a + "\n" + b;
    Text.FirstIndexFacts(Text.IsLineBreak, a);
    assert n < |a| ==> s[n] == a[n];
    assert n == |a| ==> s[n] == '\n';
    Text.FirstIndexIs(Text.IsLineBreak, s, n);
    assert n < |a| ==> s[n + 1..] == a[n + 1..] + "\n" + b;
    assert n == |a| ==> s[n + 1..] == b;
  }

  lemma {:induction false} ParseJoined(meta: Meta, a: string, b: string)
    ensures ParseText(meta, a + "\n" + b) == ParseText(ParseText(meta, a), b)
    decreases |a|
  {
    var n := Text.FirstIndex(Text.IsLineBreak, a);
    JoinedBreak(a, b, n);
    ParseTextBreak(meta, a + "\n" + b, n);
    if n < |a| {
      ParseTextBreak(meta, a, n);
      ParseJoined(ParseLine(meta, a[..n]), a[n + 1..], b);
    } else {
      ParseTextLast(meta, a);
      assert a[..n] == a;
    }
  }

  lemma {:induction false} ParsePrefixed(meta: Meta, lines: seq<string>)
    ensures ParseText(meta, Prefixed(lines)) == ParseTexts(meta, lines)
    decreases |lines|
  {
    if lines == [] {
      LastSplit("");
      ParseNoLines(meta, "");
    } else {
      PrefixedHead(lines);
      ParsePrepend(meta, lines[0] + Prefixed(lines[1..]), '\n');
      if |lines| == 1 {
        assert lines[0] + Prefixed(lines[1..]) == lines[0];
      } else {
        PrefixedHead(lines[1..]);
        ParsePrefixedRest(meta, lines[0], lines[1..]);
        ParsePrefixed(ParseText(meta, lines[0]), lines[1..]);
      }
    }
  }

  lemma ParsePrefixedRest(meta: Meta, line: string, more: seq<string>)
    requires more != []
    ensures ParseText(meta, line + Prefixed(more)) == ParseText(ParseText(meta, line), Prefixed(more))
  {
    PrefixedHead(more);
    var rest := more[0] + Prefixed(more[1..]);
    assert line + Prefixed(more) == line + "\n" + rest;
    ParseJoined(meta, line, rest);
    ParsePrepend(ParseText(meta, line), rest, '\n');
  }

  // ---- Where the header ends ----

  lemma {:induction false} FindNone(s: string, pat: string, from: nat)
    ensures var at := Text.Find(s, pat, from);
      forall j :: from <= j && (at < 0 || j < at) ==> !Text.OccursAt(s, pat, j)
    decreases |s| - from
  {
    if from < |s| && from + |pat| <= |s| && !Text.OccursAt(s, pat, from) { FindNone(s, pat, from + 1); }
  }

  lemma NoFenceBefore(content: string, at: nat, k: nat)
    requires 1 <= k < 4 && at + k < |content| && content[at + k] == '\n'
    ensures !Text.OccursAt(content, "\n---", at)
  {
    if at + 4 <= |content| {
      assert content[at..at + 4][k] == content[at + k];
      assert "\n---"[k] == '-';
    }
  }

  /** A fence that starts in the header text lies in it altogether. */
  lemma FenceWithin(head: string, x: string, tail: string, i: nat)
    requires i < |x| && tail != "" && tail[0] == '\n'
    ensures Text.OccursAt(head + x + tail, "\n---", |head| + i) <==> Text.OccursAt(x, "\n---", i)
  {
    var content, at := head + x + tail, |head| + i;
    if i + 4 <= |x| {
      assert content[at..at + 4] == x[i..i + 4];
    } else {
      NoFenceBefore(content, at, |x| - i);
    }
  }

  lemma HeaderEnd(head: string, x: string, tail: string)
    requires |head| == 3 && Text.OccursAt(tail, "\n---", 0)
    ensures Text.Find(head + x + tail, "\n---", 3)
      == 3 + if Text.Find(x, "\n---", 0) >= 0 then Text.Find(x, "\n---", 0) else |x|
  {
    var content, at := head + x + tail, Text.Find(x, "\n---", 0);
    var end := if at >= 0 then at else |x|;
    FindNone(x, "\n---", 0);
    assert tail[..4] == "\n---" && tail[0] == tail[..4][0];
    forall j: nat | 3 <= j < 3 + end ensures !Text.OccursAt(content, "\n---", j) {
      FenceWithin(head, x, tail, j - 3);
    }
    if at >= 0 {
      FenceWithin(head, x, tail, at);
    } else {
      assert content[3 + |x|..3 + |x| + 4] == tail[..4];
    }
    Text.FindFirst(content, "\n---", 3, 3 + end);
  }

  lemma CutAt(content: string, end: nat, header: string, rest: string)
    requires Text.StartsWith(content, "---") && Text.Find(content, "\n---", 3) == end
    requires header == content[3..end] && rest == content[end + 4..]
    ensures ParseFrontmatter(content) == (ParseText(map[], header), Text.DropNewlines(rest))
  {
    ParseStrip(map[], header);
  }

  lemma Slices(head: string, x: string, tail: string, at: nat)
    requires at <= |x| && 4 <= |tail|
    ensures var content := head + x + tail;
      && content[..|head|] == head && content[|head|..|head| + at] == x[..at]
      && content[|head| + at + 4..] == if at + 4 <= |x| then x[at + 4..] + tail else tail[at + 4 - |x|..]
  {
  }

  lemma HeaderCut(x: string, tail: string)
    requires Text.OccursAt(tail, "\n---", 0)
    ensures var at := Text.Find(x, "\n---", 0);
      ParseFrontmatter("---" + x + tail)
      == if at >= 0 then (ParseText(map[], x[..at]), Text.DropNewlines(x[at + 4..] + tail))
         else (ParseText(map[], x), Text.DropNewlines(tail[4..]))
  {
    var content, at := "---" + x + tail, Text.Find(x, "\n---", 0);
    HeaderEnd("---", x, tail);
    if at >= 0 {
      Slices("---", x, tail, at);
      CutAt(content, 3 + at, x[..at], x[at + 4..] + tail);
    } else {
      Slices("---", x, tail, |x|);
      assert x[..|x|] == x;
      CutAt(content, 3 + |x|, x, tail[4..]);
    }
  }

  lemma TailOf(body: string, tail: string)
    requires tail == "\n---" + ("\n\n" + body)
    ensures Text.OccursAt(tail, "\n---", 0) && Text.DropNewlines(tail[4..]) == Text.DropNewlines(body)
  {
    assert tail[0..4] == "\n---" && tail[4..] == "\n\n" + body;
    BodyKept(body);
  }

  lemma Regroup(head: string, x: string, fence: string, gap: string, body: string)
    ensures head + x + fence + gap + body == head + x + (fence + (gap + body))
  {
  }

  // ---- Main result ----

  /** For every spec whatever: without a fence inside its values, parsing the rendered text parses each value's line, or
      lines, in turn and keeps the body; with one, the header ends there and what follows becomes body. */
  lemma RoundTripAny(meta: Meta, body: string)
    ensures var lines := RenderLines(meta, SPEC_KEYS);
      var x, tail := Prefixed(lines), "\n---" + ("\n\n" + body);
      var at := Text.Find(x, "\n---", 0);
      ParseFrontmatter(RenderFrontmatter(meta, body))
      == if at >= 0 then (ParseText(map[], x[..at]), Text.DropNewlines(x[at + 4..] + tail))
         else (ParseTexts(map[], lines), Text.DropNewlines(body))
  {
    var lines, tail := RenderLines(meta, SPEC_KEYS), "\n---" + ("\n\n" + body);
    RenderedShape(meta, body);
    Regroup("---", Prefixed(lines), "\n---", "\n\n", body);
    TailOf(body, tail);
    HeaderCut(Prefixed(lines), tail);
    ParsePrefixed(map[], lines);
  }
}
