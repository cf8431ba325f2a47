/** Rendering a spec and parsing it back. */
module FrontmatterRoundTrip {
  import Text
  import opened Frontmatter

  // ---- What survives a round trip ----

  predicate IsQuote(c: char) { c == '"' || c == '\'' }

  predicate EdgesFree(p: char -> bool, s: string) {
    s != "" ==> !p(s[0]) && !p(s[|s| - 1])
  }

  predicate SingleLine(s: string) {
    forall i :: 0 <= i < |s| ==> !Text.IsLineBreak(s[i])
  }

  /** The renderer puts `s` in quotes. */
  predicate Quoted(s: string) { Text.StartsWith(s, "*") || ':' in s }

  /** A plain string: no quote at either end, no whitespace there either unless it is rendered in quotes,
      not all digits, not a boolean word. */
  predicate Plain(s: string) {
    && EdgesFree(IsQuote, s)
    && (Quoted(s) || EdgesFree(Text.IsSpace, s))
    && !Text.IsDigits(s)
    && Text.Lower(s) != "true" && Text.Lower(s) != "false"
  }

  /** A value that survives being written and read. */
  predicate Representable(v: Value) {
    match v
    case Bool(_) => true
    case Int(n) => n >= 0
    case Str(s) => Plain(s)
    case Null => true
  }

  predicate OneLine(v: Value) { v.Str? ==> SingleLine(v.s) }

  /** No known value holds a line break. */
  ghost predicate OneLiners(meta: Meta) {
    forall k :: k in meta && k in SPEC_KEYS ==> OneLine(meta[k])
  }

  /** What a value reads as after it was written. */
  function Reread(v: Value): Value { ParseValue(" " + RenderValue(v)) }

  /** The known keys of `meta` that are not Null. */
  function Canonical(meta: Meta): Meta {
    map k | k in meta && k in SPEC_KEYS && meta[k] != Null :: meta[k]
  }

  /** What `meta` reads as after it was written. */
  function ReadBack(meta: Meta): Meta {
    map k | k in meta && k in SPEC_KEYS && meta[k] != Null :: Reread(meta[k])
  }

  // ---- Values ----

  lemma TightValue(w: string)
    requires w != "" ==> !Text.IsSpace(w[0]) && !Text.IsSpace(w[|w| - 1])
    ensures Text.Strip(" " + w) == w
  {
    Text.StripPrepend(w, ' ');
    Text.StripTight(w);
  }

  lemma NoQuotes(w: string)
    requires w != "" ==> !IsQuote(w[0]) && !IsQuote(w[|w| - 1])
    ensures Text.StripChar(Text.StripChar(w, '"'), '\'') == w
  {
  }

  lemma QuotedValue(s: string)
    requires s != "" && !IsQuote(s[0]) && !IsQuote(s[|s| - 1])
    ensures Text.StripChar("\"" + s + "\"", '"') == s
  {
    assert ("\"" + s + "\"")[1..] == s + "\"";
    assert (s + "\"")[..|s|] == s;
    assert Text.StripChar(s, '"') == s;
    assert Text.StripChar(s + "\"", '"') == s;
  }

  /** Parsing a rendered value gives the value back. */
  lemma ValueRoundTrip(v: Value)
    requires Representable(v) && v != Null
    ensures ParseValue(" " + RenderValue(v)) == v
  {
    match v
    case Bool(b) =>
      TightValue(RenderValue(v));
      NoQuotes(RenderValue(v));
      LowerWords();
    case Int(n) => NatValue(n);
    case Str(s) => StrValue(s);
  }

  lemma LowerWords()
    ensures Text.Lower("true") == "true" && Text.Lower("false") == "false"
  {
  }

  lemma NatValue(n: nat)
    ensures ParseValue(" " + Text.NatToString(n)) == Int(n)
  {
    var w := Text.NatToString(n);
    assert Text.IsDigit(w[0]) && Text.IsDigit(w[|w| - 1]);
    TightValue(w);
    NoQuotes(w);
    assert Text.Lower(w)[0] == w[0];
    Text.ParsePrintedNat(n);
  }

  lemma StrValue(s: string)
    requires Plain(s)
    ensures ParseValue(" " + RenderValue(Str(s))) == Str(s)
  {
    if Quoted(s) {
      var w := "\"" + s + "\"";
      TightValue(w);
      QuotedValue(s);
      assert Text.StripChar(s, '\'') == s;
    } else {
      TightValue(s);
      NoQuotes(s);
    }
  }

  lemma {:induction false} StripCharShrinks(s: string, c: char)
    ensures |Text.StripChar(s, c)| <= |s|
    ensures |Text.StripChar(s, c)| == |s| ==> Text.StripChar(s, c) == s && (s != "" ==> s[0] != c && s[|s| - 1] != c)
    decreases |s|
  {
    if s != "" && s[0] == c { StripCharShrinks(s[1..], c); }
    else if s != "" && s[|s| - 1] == c { StripCharShrinks(s[..|s| - 1], c); }
  }

  lemma {:induction false} StripCharAppend(s: string, c: char)
    ensures Text.StripChar(s + [c], c) == Text.StripChar(s, c)
    decreases |s|
  {
    if s == "" {
      assert [c][1..] == "";
      assert s + [c] == [c];
    } else if s[0] == c {
      assert (s + [c])[1..] == s[1..] + [c];
      StripCharAppend(s[1..], c);
    } else {
      assert (s + [c])[..|s|] == s;
    }
  }

  lemma {:induction false} StripRightShrinks(s: string)
    ensures |Text.StripRight(s)| <= |s|
    ensures |Text.StripRight(s)| == |s| ==> s == "" || !Text.IsSpace(s[|s| - 1])
  {
    if s != "" && Text.IsSpace(s[|s| - 1]) { StripRightShrinks(s[..|s| - 1]); }
  }

  lemma {:induction false} StripShrinks(s: string)
    ensures |Text.Strip(s)| <= |s|
    ensures |Text.Strip(s)| == |s| ==> EdgesFree(Text.IsSpace, s)
  {
    if s != "" && Text.IsSpace(s[0]) { StripShrinks(s[1..]); } else { StripRightShrinks(s); }
  }

  /** What the parser makes of a rendered string before deciding its type. */
  lemma StrippedString(s: string) returns (u: string)
    ensures u == if Quoted(s) then s else Text.Strip(s)
    ensures var val := Text.StripChar(Text.StripChar(u, '"'), '\'');
      Text.StripChar(Text.StripChar(Text.Strip(" " + RenderValue(Str(s))), '"'), '\'') == val
  {
    var w := RenderValue(Str(s));
    if Quoted(s) {
      u := s;
      TightValue(w);
      assert w[1..] == s + ['"'];
      StripCharAppend(s, '"');
    } else {
      u := Text.Strip(s);
      Text.StripPrepend(s, ' ');
      assert " " + s == [' '] + s;
    }
  }

  lemma NothingStripped(s: string, u: string)
    requires u == if Quoted(s) then s else Text.Strip(s)
    requires Text.StripChar(Text.StripChar(u, '"'), '\'') == s
    ensures EdgesFree(IsQuote, s) && (Quoted(s) || EdgesFree(Text.IsSpace, s))
  {
    StripShrinks(s);
    StripCharShrinks(u, '"');
    StripCharShrinks(Text.StripChar(u, '"'), '\'');
  }

  /** A string that is not plain is read back changed. */
  lemma UnplainChanges(s: string)
    requires !Plain(s)
    ensures Reread(Str(s)) != Str(s)
  {
    var u := StrippedString(s);
    if Text.StripChar(Text.StripChar(u, '"'), '\'') == s { NothingStripped(s, u); }
  }

  /** A written value reads as itself exactly when it is representable. */
  lemma ValueSurvivesIff(v: Value)
    requires v != Null
    ensures Reread(v) == v <==> Representable(v)
  {
    if Representable(v) {
      ValueRoundTrip(v);
    } else if v.Str? {
      UnplainChanges(v.s);
    }
  }

  lemma {:induction false} StripCharSingle(s: string, c: char)
    requires SingleLine(s)
    ensures SingleLine(Text.StripChar(s, c))
    decreases |s|
  {
    if s != "" && s[0] == c { StripCharSingle(s[1..], c); }
    else if s != "" && s[|s| - 1] == c { StripCharSingle(s[..|s| - 1], c); }
  }

  lemma {:induction false} StripRightSingle(s: string)
    requires SingleLine(s)
    ensures SingleLine(Text.StripRight(s))
  {
    if s != "" && Text.IsSpace(s[|s| - 1]) { StripRightSingle(s[..|s| - 1]); }
  }

  lemma {:induction false} StripSingle(s: string)
    requires SingleLine(s)
    ensures SingleLine(Text.Strip(s))
  {
    if s != "" && Text.IsSpace(s[0]) { StripSingle(s[1..]); } else { StripRightSingle(s); }
  }

  lemma RenderedOneLine(v: Value)
    requires OneLine(v)
    ensures SingleLine(RenderValue(v))
  {
    if v.Int? {
      var w := RenderValue(v);
      forall i | 0 <= i < |w| ensures !Text.IsLineBreak(w[i]) {
        assert Text.IsDigit(w[i]) || w[i] == '-';
      }
    }
  }

  lemma ParsedValueOneLine(raw: string)
    requires SingleLine(raw)
    ensures OneLine(ParseValue(raw)) && ParseValue(raw) != Null
  {
    StripSingle(raw);
    StripCharSingle(Text.Strip(raw), '"');
    StripCharSingle(Text.StripChar(Text.Strip(raw), '"'), '\'');
  }

  lemma RereadOneLine(v: Value)
    requires OneLine(v)
    ensures OneLine(Reread(v)) && Reread(v) != Null
  {
    RenderedOneLine(v);
    ParsedValueOneLine(" " + RenderValue(v));
  }

  // ---- Whatever is parsed is free of line breaks ----

  ghost predicate AllOneLine(meta: Meta) { forall k :: k in meta ==> OneLine(meta[k]) }

  lemma ParsedLineOneLine(meta: Meta, line: string)
    requires AllOneLine(meta) && SingleLine(line)
    ensures AllOneLine(ParseLine(meta, line))
  {
    var n := Text.FirstIndex(IsColon(), line);
    if n < |line| { ParsedValueOneLine(line[n + 1..]); }
  }

  lemma {:induction false} ParsedLinesOneLine(meta: Meta, lines: seq<string>)
    requires AllOneLine(meta) && forall l :: l in lines ==> SingleLine(l)
    ensures AllOneLine(ParseLines(meta, lines))
    decreases |lines|
  {
    if lines != [] {
      assert lines[0] in lines;
      ParsedLineOneLine(meta, lines[0]);
      ParsedLinesOneLine(ParseLine(meta, lines[0]), lines[1..]);
    }
  }

  lemma {:induction false} PiecesSingle(s: string)
    ensures forall l :: l in Text.SplitLines(s) ==> SingleLine(l)
    decreases |s|
  {
    if s != "" {
      var n := Text.FirstIndex(Text.IsLineBreak, s);
      Text.FirstIndexFacts(Text.IsLineBreak, s);
      assert SingleLine(s[..n]);
      if n < |s| { PiecesSingle(s[n + 1..]); }
    }
  }

  lemma ParsedOneLine(content: string)
    ensures AllOneLine(ParseFrontmatter(content).0)
  {
    var end := Text.Find(content, "\n---", 3);
    if Text.StartsWith(content, "---") && end >= 0 {
      var lines := Text.SplitLines(Text.Strip(content[3..end]));
      PiecesSingle(Text.Strip(content[3..end]));
      ParsedLinesOneLine(map[], lines);
    }
  }

  // ---- Lines ----

  /** Lower-case letters and underscores only. */
  predicate KeyShaped(k: string) {
    k != "" && forall i :: 0 <= i < |k| ==> 'a' <= k[i] <= 'z' || k[i] == '_'
  }

  lemma SpecKeysShaped()
    ensures forall k :: k in SPEC_KEYS ==> KeyShaped(k)
  {
  }

  lemma LineReread(meta: Meta, k: string, v: Value)
    requires KeyShaped(k)
    ensures ParseLine(meta, k + ": " + RenderValue(v)) == meta[k := Reread(v)]
  {
    var line := k + ": " + RenderValue(v);
    Text.FirstIndexIs(IsColon(), line, |k|);
    assert line[..|k|] == k;
    assert line[|k| + 1..] == " " + RenderValue(v);
    Text.StripTight(k);
  }

  /** The present keys of `keys`, as they read back, on top of `base`. */
  function Overlay(base: Meta, meta: Meta, keys: seq<string>): Meta
    decreases |keys|
  {
    if keys == [] then base
    else Overlay(if Present(meta, keys[0]) then base[keys[0] := Reread(meta[keys[0]])] else base, meta, keys[1..])
  }

  lemma {:induction false} LinesReread(base: Meta, meta: Meta, keys: seq<string>)
    requires forall k :: k in keys ==> KeyShaped(k)
    ensures ParseLines(base, RenderLines(meta, keys)) == Overlay(base, meta, keys)
    decreases |keys|
  {
    if keys != [] {
      assert keys[0] in keys;
      if Present(meta, keys[0]) {
        LineReread(base, keys[0], meta[keys[0]]);
        LinesReread(base[keys[0] := Reread(meta[keys[0]])], meta, keys[1..]);
      } else {
        LinesReread(base, meta, keys[1..]);
      }
    }
  }

  lemma {:induction false} OverlayEffect(base: Meta, meta: Meta, keys: seq<string>)
    ensures var r := Overlay(base, meta, keys);
      forall k ::
        && (k in keys && Present(meta, k) ==> k in r && r[k] == Reread(meta[k]))
        && (!(k in keys && Present(meta, k)) ==> (k in r <==> k in base) && (k in base ==> r[k] == base[k]))
    decreases |keys|
  {
    if keys != [] {
      var base' := if Present(meta, keys[0]) then base[keys[0] := Reread(meta[keys[0]])] else base;
      OverlayEffect(base', meta, keys[1..]);
      assert forall k :: k in keys <==> k == keys[0] || k in keys[1..];
    }
  }

  lemma OverlayAll(meta: Meta, keys: seq<string>)
    ensures Overlay(map[], meta, keys) == map k | k in meta && k in keys && meta[k] != Null :: Reread(meta[k])
  {
    OverlayEffect(map[], meta, keys);
  }

  lemma OverlayIsReadBack(meta: Meta)
    ensures Overlay(map[], meta, SPEC_KEYS) == ReadBack(meta)
  {
    OverlayAll(meta, SPEC_KEYS);
  }

  // ---- The header ----

  /** A rendered header line: no line break, and it starts with a letter or underscore. */
  predicate HeaderLine(line: string) {
    && line != "" && line[0] != '-' && !Text.IsSpace(line[0])
    && forall i :: 0 <= i < |line| ==> !Text.IsLineBreak(line[i])
  }

  lemma RenderedLine(k: string, v: Value)
    requires KeyShaped(k) && OneLine(v)
    ensures HeaderLine(k + ": " + RenderValue(v))
  {
    RenderedOneLine(v);
  }

  lemma {:induction false} RenderedLines(meta: Meta, keys: seq<string>)
    requires forall k :: k in keys ==> KeyShaped(k)
    requires forall k :: k in keys && k in meta ==> OneLine(meta[k])
    ensures forall l :: l in RenderLines(meta, keys) ==> HeaderLine(l)
    decreases |keys|
  {
    if keys != [] {
      assert keys[0] in keys;
      RenderedLines(meta, keys[1..]);
      if Present(meta, keys[0]) { RenderedLine(keys[0], meta[keys[0]]); }
    }
  }

  /** Each line preceded by a newline. */
  function Prefixed(lines: seq<string>): string {
    if lines == [] then "" else "\n" + lines[0] + Prefixed(lines[1..])
  }

  lemma {:induction false} JoinPrefixed(first: string, lines: seq<string>)
    ensures Text.Join([first] + lines) == first + Prefixed(lines)
    decreases |lines|
  {
    if lines != [] {
      assert ([first] + lines)[1..] == [lines[0]] + lines[1..];
      JoinPrefixed(lines[0], lines[1..]);
    } else {
      assert [first] + lines == [first];
    }
  }

  lemma {:induction false} PrefixedConcat(a: seq<string>, b: seq<string>)
    ensures Prefixed(a + b) == Prefixed(a) + Prefixed(b)
    decreases |a|
  {
    if a == [] {
      assert a + b == b;
    } else {
      assert (a + b)[1..] == a[1..] + b;
      PrefixedConcat(a[1..], b);
    }
  }

  lemma PrefixedTwo(a: string, b: string)
    ensures Prefixed([a, b]) == "\n" + a + "\n" + b
  {
    var two, one := [a, b], [b];
    assert two[1..] == one && one[1..] == [];
    assert Prefixed(one) == "\n" + b;
    assert Prefixed(two) == "\n" + a + Prefixed(one);
  }

  lemma JoinShape(lines: seq<string>)
    ensures Text.Join(["---"] + lines + ["---", ""]) == "---" + Prefixed(lines) + "\n---" + "\n"
  {
    var end := ["---", ""];
    assert ["---"] + lines + end == ["---"] + (lines + end);
    JoinPrefixed("---", lines + end);
    PrefixedConcat(lines, end);
    PrefixedTwo("---", "");
  }

  /** The rendered content, cut where the parser will cut it. */
  lemma RenderedShape(meta: Meta, body: string)
    ensures RenderFrontmatter(meta, body) == "---" + Prefixed(RenderLines(meta, SPEC_KEYS)) + "\n---" + "\n\n" + body
  {
    JoinShape(RenderLines(meta, SPEC_KEYS));
  }

  /** A line for each of the keys that has a value: the key, a colon, a space and the value, in double quotes when it
      starts with a star or holds a colon. */
  function HeaderText(meta: Meta, keys: seq<string>): string {
    if keys == [] then ""
    else if keys[0] !in meta then HeaderText(meta, keys[1..])
    else
      var rest := HeaderText(meta, keys[1..]);
      match meta[keys[0]]
      case Null => rest
      case Bool(b) => "\n" + (keys[0] + ": " + if b then "true" else "false") + rest
      case Int(n) => "\n" + (keys[0] + ": " + Text.IntToString(n)) + rest
      case Str(s) =>
        "\n" + (keys[0] + ": " + if (s != "" && s[0] == '*') || ':' in s then "\"" + s + "\"" else s) + rest
  }

  lemma {:induction false} HeaderIsPrefixed(meta: Meta, keys: seq<string>)
    ensures Prefixed(RenderLines(meta, keys)) == HeaderText(meta, keys)
    decreases |keys|
  {
    if keys != [] {
      HeaderIsPrefixed(meta, keys[1..]);
      if Present(meta, keys[0]) {
        var v, rest := meta[keys[0]], RenderLines(meta, keys[1..]);
        StarFirst(v);
        assert ([keys[0] + ": " + RenderValue(v)] + rest)[1..] == rest;
      }
    }
  }

  lemma StarFirst(v: Value)
    ensures v.Str? ==> (Text.StartsWith(v.s, "*") <==> v.s != "" && v.s[0] == '*')
  {
    if v.Str? && v.s != "" { assert v.s[..1] == [v.s[0]]; }
  }

  /** A rendered spec is a fence, the lines of its known fields in the fixed order, a fence, a blank line and the
      body. */
  lemma RenderedText(meta: Meta, body: string)
    ensures RenderFrontmatter(meta, body)
      == "---" + HeaderText(meta, ["id", "name", "schedule", "interval_minutes", "enabled", "workspace", "host",
                                   "permission_mode", "helper_auto_approve", "single_fire", "deleted"])
         + "\n---" + "\n\n" + body
  {
    RenderedShape(meta, body);
    HeaderIsPrefixed(meta, SPEC_KEYS);
  }

  /** Inside the header a newline is never followed by a dash. */
  lemma {:induction false} NoEarlyFence(lines: seq<string>, i: nat)
    requires forall l :: l in lines ==> HeaderLine(l)
    requires i < |Prefixed(lines)| && Prefixed(lines)[i] == '\n'
    ensures i + 1 < |Prefixed(lines)| && Prefixed(lines)[i + 1] != '-'
    decreases |lines|
  {
    if lines != [] {
      var l, rest := lines[0], Prefixed(lines[1..]);
      assert l in lines;
      assert Prefixed(lines) == "\n" + l + rest;
      forall k | 1 <= k <= |l| ensures Prefixed(lines)[k] != '\n' {
        assert Prefixed(lines)[k] == l[k - 1];
      }
      if i == 0 {
        assert Prefixed(lines)[1] == l[0];
      } else {
        assert i > |l|;
        assert Prefixed(lines)[i] == rest[i - 1 - |l|];
        NoEarlyFence(lines[1..], i - 1 - |l|);
        assert Prefixed(lines)[i + 1] == rest[i - |l|];
      }
    }
  }

  lemma FenceMeans(content: string, i: nat)
    ensures Text.OccursAt(content, "\n---", i) ==> i + 1 < |content| && content[i] == '\n' && content[i + 1] == '-'
  {
    if Text.OccursAt(content, "\n---", i) {
      assert content[i..i + 4][0] == '\n' && content[i..i + 4][1] == '-';
    }
  }

  lemma FenceFound(lines: seq<string>, tail: string)
    requires forall l :: l in lines ==> HeaderLine(l)
    ensures var content := "---" + Prefixed(lines) + "\n---" + tail;
      Text.Find(content, "\n---", 3) == 3 + |Prefixed(lines)|
  {
    var x := Prefixed(lines);
    var content := "---" + x + "\n---" + tail;
    forall i: nat | 3 <= i < 3 + |x| ensures !Text.OccursAt(content, "\n---", i) {
      FenceMeans(content, i);
      assert content[i] == x[i - 3];
      if content[i] == '\n' {
        NoEarlyFence(lines, i - 3);
        assert content[i + 1] == x[i - 2];
      }
    }
    assert content[3 + |x|..3 + |x| + 4] == "\n---";
    Text.FindFirst(content, "\n---", 3, 3 + |x|);
  }

  // ---- Stripping the header does not change what it parses to ----

  lemma ParseLineAppend(meta: Meta, line: string, c: char)
    requires Text.IsSpace(c)
    ensures ParseLine(meta, line + [c]) == ParseLine(meta, line)
  {
    var n := Text.FirstIndex(IsColon(), line);
    Text.FirstIndexAppend(IsColon(), line, c);
    if n < |line| {
      assert (line + [c])[..n] == line[..n];
      assert (line + [c])[n + 1..] == line[n + 1..] + [c];
      ParseValueAppend(line[n + 1..], c);
    }
  }

  lemma ParseValueAppend(raw: string, c: char)
    requires Text.IsSpace(c)
    ensures ParseValue(raw + [c]) == ParseValue(raw)
  {
    Text.StripAppend(raw, c);
  }

  /** What the lines of a header text parse to, on top of `meta`. */
  function ParseText(meta: Meta, s: string): Meta { ParseLines(meta, Text.SplitLines(s)) }

  lemma {:induction false} SplitOnce(s: string, n: nat)
    requires n < |s| && Text.IsLineBreak(s[n]) && forall i :: 0 <= i < n ==> !Text.IsLineBreak(s[i])
    ensures Text.SplitLines(s) == [s[..n]] + Text.SplitLines(s[n + 1..])
  {
    Text.FirstIndexIs(Text.IsLineBreak, s, n);
  }

  lemma {:induction false} ParseFirst(meta: Meta, line: string, rest: seq<string>)
    ensures ParseLines(meta, [line] + rest) == ParseLines(ParseLine(meta, line), rest)
  {
    assert ([line] + rest)[1..] == rest;
  }

  lemma {:induction false} ParseTextBreak(meta: Meta, s: string, n: nat)
    requires n == Text.FirstIndex(Text.IsLineBreak, s) < |s|
    ensures ParseText(meta, s) == ParseText(ParseLine(meta, s[..n]), s[n + 1..])
  {
    Text.FirstIndexFacts(Text.IsLineBreak, s);
    SplitOnce(s, n);
    ParseFirst(meta, s[..n], Text.SplitLines(s[n + 1..]));
  }

  lemma LastSplit(s: string)
    requires Text.FirstIndex(Text.IsLineBreak, s) == |s|
    ensures Text.SplitLines(s) == if s == "" then [] else [s]
  {
    assert s[..|s|] == s;
  }

  lemma ParseNoLines(meta: Meta, line: string)
    ensures ParseLines(meta, []) == meta && ParseLine(meta, "") == meta
    ensures ParseLines(meta, [line]) == ParseLine(meta, line)
  {
    assert [line][1..] == [];
  }

  lemma ParseTextLast(meta: Meta, s: string)
    requires Text.FirstIndex(Text.IsLineBreak, s) == |s|
    ensures ParseText(meta, s) == ParseLine(meta, s)
  {
    LastSplit(s);
    ParseNoLines(meta, s);
  }

  lemma {:induction false} ParseAppend(meta: Meta, s: string, c: char)
    requires Text.IsSpace(c)
    ensures ParseText(meta, s + [c]) == ParseText(meta, s)
    decreases |s|
  {
    var t := s + [c];
    var n := Text.FirstIndex(Text.IsLineBreak, s);
    Text.FirstIndexAppend(Text.IsLineBreak, s, c);
    if n < |s| {
      ParseTextBreak(meta, s, n);
      ParseTextBreak(meta, t, n);
      assert t[..n] == s[..n] && t[n + 1..] == s[n + 1..] + [c];
      ParseAppend(ParseLine(meta, s[..n]), s[n + 1..], c);
    } else {
      ParseTextLast(meta, s);
      AppendToLastLine(meta, s, c);
    }
  }

  lemma AppendToLastLine(meta: Meta, s: string, c: char)
    requires Text.IsSpace(c) && Text.FirstIndex(Text.IsLineBreak, s) == |s|
    ensures ParseText(meta, s + [c]) == ParseLine(meta, s)
  {
    var t := s + [c];
    Text.FirstIndexAppend(Text.IsLineBreak, s, c);
    if Text.IsLineBreak(c) {
      ParseTextBreak(meta, t, |s|);
      assert t[..|s|] == s && t[|s| + 1..] == "";
    } else {
      ParseTextLast(meta, t);
      ParseLineAppend(meta, s, c);
    }
  }

  lemma {:induction false} ParseStripRight(meta: Meta, s: string)
    ensures ParseText(meta, Text.StripRight(s)) == ParseText(meta, s)
    decreases |s|
  {
    if s != "" && Text.IsSpace(s[|s| - 1]) {
      var t, c := s[..|s| - 1], s[|s| - 1];
      StripRightDrops(t, c);
      assert s == t + [c];
      ParseStripRight(meta, t);
      ParseAppend(meta, t, c);
    }
  }

  lemma StripRightDrops(t: string, c: char)
    requires Text.IsSpace(c)
    ensures Text.StripRight(t + [c]) == Text.StripRight(t)
  {
    assert (t + [c])[..|t|] == t;
  }

  lemma BreakFirst(s: string)
    ensures Text.SplitLines("\n" + s) == [""] + Text.SplitLines(s)
  {
    var x := "\n" + s;
    Text.FirstIndexIs(Text.IsLineBreak, x, 0);
    assert x[..0] == "" && x[1..] == s;
  }

  lemma PrefixedHead(lines: seq<string>)
    requires lines != []
    ensures Prefixed(lines) == "\n" + (lines[0] + Prefixed(lines[1..]))
  {
  }

  /** The pieces a line-by-line split makes of `Prefixed(lines)`. */
  function Pieces(lines: seq<string>): seq<string> {
    if lines == [] then [] else [""] + lines
  }

  lemma {:induction false} SplitPrefixed(lines: seq<string>)
    requires forall l :: l in lines ==> HeaderLine(l)
    ensures Text.SplitLines(Prefixed(lines)) == Pieces(lines)
    decreases |lines|
  {
    if lines != [] {
      assert lines[0] in lines;
      SplitPrefixed(lines[1..]);
      PrefixedHead(lines);
      SplitStep(lines[0], lines[1..]);
      assert [lines[0]] + lines[1..] == lines;
    }
  }

  lemma SplitStep(l: string, more: seq<string>)
    requires HeaderLine(l)
    requires Text.SplitLines(Prefixed(more)) == Pieces(more)
    ensures Text.SplitLines("\n" + (l + Prefixed(more))) == [""] + ([l] + more)
  {
    SplitHeaderLine(l, more);
    BreakFirst(l + Prefixed(more));
  }

  /** After the newline that starts them, prefixed lines split into the lines. */
  lemma SplitAfterBreak(more: seq<string>)
    requires more != [] && Text.SplitLines(Prefixed(more)) == Pieces(more)
    ensures Prefixed(more)[0] == '\n' && Text.SplitLines(Prefixed(more)[1..]) == more
  {
    var p := Prefixed(more);
    assert p[0] == '\n';
    SplitOnce(p, 0);
    var rest := Text.SplitLines(p[1..]);
    assert ([p[..0]] + rest)[1..] == rest && Pieces(more)[1..] == more;
  }

  lemma SplitHeaderLine(l: string, more: seq<string>)
    requires HeaderLine(l)
    requires Text.SplitLines(Prefixed(more)) == Pieces(more)
    ensures Text.SplitLines(l + Prefixed(more)) == [l] + more
  {
    if more == [] {
      assert l + Prefixed(more) == l;
      Text.FirstIndexIs(Text.IsLineBreak, l, |l|);
      LastSplit(l);
    } else {
      SplitAfterBreak(more);
      var s := l + Prefixed(more);
      SplitOnce(s, |l|);
      assert s[..|l|] == l && s[|l| + 1..] == Prefixed(more)[1..];
    }
  }

  lemma StripHeader(l: string, rest: string)
    requires HeaderLine(l)
    ensures Text.Strip("\n" + (l + rest)) == Text.StripRight(l + rest)
  {
    Text.StripPrepend(l + rest, '\n');
    assert (l + rest)[0] == l[0];
    assert Text.StripLeft(l + rest) == l + rest;
  }

  lemma HeaderParses(lines: seq<string>)
    requires forall l :: l in lines ==> HeaderLine(l)
    ensures ParseLines(map[], Text.SplitLines(Text.Strip(Prefixed(lines)))) == ParseLines(map[], lines)
  {
    if lines != [] {
      assert lines[0] in lines;
      PrefixedHead(lines);
      SplitPrefixed(lines[1..]);
      HeaderTextParses(lines[0], lines[1..]);
      assert [lines[0]] + lines[1..] == lines;
    }
  }

  lemma HeaderTextParses(l: string, more: seq<string>)
    requires HeaderLine(l) && Text.SplitLines(Prefixed(more)) == Pieces(more)
    ensures ParseLines(map[], Text.SplitLines(Text.Strip("\n" + (l + Prefixed(more))))) == ParseLines(map[], [l] + more)
  {
    StripHeader(l, Prefixed(more));
    ParseStripRight(map[], l + Prefixed(more));
    SplitHeaderLine(l, more);
  }

  lemma BodyKept(body: string)
    ensures Text.DropNewlines("\n\n" + body) == Text.DropNewlines(body)
  {
    var one, two := "\n" + body, "\n\n" + body;
    assert two[1..] == one && one[1..] == body;
    assert Text.DropNewlines(one) == Text.DropNewlines(body);
  }

  // ---- Main results ----

  /** A rendered spec parses to its known, non-Null keys, each reread, and its body without leading newlines. */
  lemma RoundTrip(meta: Meta, body: string)
    requires OneLiners(meta)
    ensures ParseFrontmatter(RenderFrontmatter(meta, body)) == (ReadBack(meta), Text.DropNewlines(body))
  {
    var lines := RenderLines(meta, SPEC_KEYS);
    SpecKeysShaped();
    RenderedLines(meta, SPEC_KEYS);
    RenderedShape(meta, body);
    ParseShaped(lines, body);
    HeaderParses(lines);
    LinesReread(map[], meta, SPEC_KEYS);
    OverlayIsReadBack(meta);
  }

  ghost predicate AllRepresentable(meta: Meta) {
    forall k :: k in Canonical(meta) ==> Representable(meta[k])
  }

  lemma ReadBackExactIff(meta: Meta)
    ensures ReadBack(meta) == Canonical(meta) <==> AllRepresentable(meta)
  {
    forall k | k in Canonical(meta) ensures ReadBack(meta)[k] == Canonical(meta)[k] <==> Representable(meta[k]) {
      ValueSurvivesIff(meta[k]);
    }
    assert ReadBack(meta).Keys == Canonical(meta).Keys;
  }

  /** For every spec: parsing the rendered spec returns that spec exactly when every known value is representable and
      free of line breaks and the body does not start with a newline. */
  lemma RoundTripExactIff(meta: Meta, body: string)
    ensures ParseFrontmatter(RenderFrontmatter(meta, body)) == (Canonical(meta), body)
      <==> AllRepresentable(meta) && OneLiners(meta) && (body == "" || body[0] != '\n')
  {
    ReadBackExactIff(meta);
    DropNewlinesIff(body);
    if OneLiners(meta) {
      RoundTrip(meta, body);
    } else {
      var k :| k in meta && k in SPEC_KEYS && !OneLine(meta[k]);
      assert k in Canonical(meta);
      ParsedOneLine(RenderFrontmatter(meta, body));
    }
  }

  lemma {:induction false} DropNewlinesIff(s: string)
    ensures |Text.DropNewlines(s)| <= |s|
    ensures Text.DropNewlines(s) == s <==> s == "" || s[0] != '\n'
  {
    if s != "" && s[0] == '\n' { DropNewlinesIff(s[1..]); }
  }

  lemma ParseShaped(lines: seq<string>, body: string)
    requires forall l :: l in lines ==> HeaderLine(l)
    ensures ParseFrontmatter("---" + Prefixed(lines) + "\n---" + "\n\n" + body)
      == (ParseLines(map[], Text.SplitLines(Text.Strip(Prefixed(lines)))), Text.DropNewlines(body))
  {
    var x, tail := Prefixed(lines), "\n\n" + body;
    var content := "---" + x + "\n---" + "\n\n" + body;
    assert content == "---" + x + "\n---" + tail;
    FenceFound(lines, tail);
    assert content[..3] == "---";
    assert content[3..3 + |x|] == x;
    assert content[3 + |x| + 4..] == tail;
    BodyKept(body);
  }

  lemma {:induction false} CanonicalLines(meta: Meta, keys: seq<string>)
    requires forall k :: k in keys ==> k in SPEC_KEYS
    ensures RenderLines(Canonical(meta), keys) == RenderLines(meta, keys)
    decreases |keys|
  {
    if keys != [] {
      assert keys[0] in keys;
      CanonicalLines(meta, keys[1..]);
    }
  }

  // ---- Rendering what was parsed ----

  /** Written, read and written again, the value looks the same. */
  predicate Restful(v: Value) { RenderValue(Reread(v)) == RenderValue(v) }

  lemma PrefixedInjective(a: seq<string>, b: seq<string>)
    requires (forall l :: l in a ==> HeaderLine(l)) && (forall l :: l in b ==> HeaderLine(l))
    requires Prefixed(a) == Prefixed(b)
    ensures a == b
  {
    SplitPrefixed(a);
    SplitPrefixed(b);
    assert Pieces(a) == Pieces(b);
    if a != [] && b != [] { assert Pieces(a)[1..] == a && Pieces(b)[1..] == b; }
  }

  lemma ContentInjective(a: Meta, b: Meta, body: string)
    requires OneLiners(a) && OneLiners(b)
    ensures RenderFrontmatter(a, body) == RenderFrontmatter(b, body)
      <==> RenderLines(a, SPEC_KEYS) == RenderLines(b, SPEC_KEYS)
  {
    var x, y := RenderLines(a, SPEC_KEYS), RenderLines(b, SPEC_KEYS);
    RenderedShape(a, body);
    RenderedShape(b, body);
    SpecKeysShaped();
    RenderedLines(a, SPEC_KEYS);
    RenderedLines(b, SPEC_KEYS);
    if RenderFrontmatter(a, body) == RenderFrontmatter(b, body) {
      SameMiddle("---", Prefixed(x), Prefixed(y), "\n---", "\n\n", body);
      PrefixedInjective(x, y);
    }
  }

  lemma SameMiddle(head: string, x: string, y: string, fence: string, gap: string, body: string)
    requires head + x + fence + gap + body == head + y + fence + gap + body
    ensures x == y
  {
    var all := head + x + fence + gap + body;
    assert |x| == |y|;
    assert x == all[|head|..|head| + |x|];
    assert y == all[|head|..|head| + |y|];
  }

  lemma {:induction false} LinesAgree(a: Meta, b: Meta, keys: seq<string>)
    requires forall k :: k in keys ==> (Present(a, k) <==> Present(b, k))
    ensures RenderLines(a, keys) == RenderLines(b, keys)
      <==> forall k :: k in keys && Present(a, k) && Present(b, k) ==> RenderValue(a[k]) == RenderValue(b[k])
    decreases |keys|
  {
    if keys != [] {
      var k := keys[0];
      assert k in keys;
      assert forall j :: j in keys <==> j == k || j in keys[1..];
      LinesAgree(a, b, keys[1..]);
      if Present(a, k) {
        HeadAndTail(k + ": " + RenderValue(a[k]), RenderLines(a, keys[1..]),
                    k + ": " + RenderValue(b[k]), RenderLines(b, keys[1..]));
        SameAfter(k + ": ", RenderValue(a[k]), RenderValue(b[k]));
      }
    }
  }

  lemma HeadAndTail(x: string, xs: seq<string>, y: string, ys: seq<string>)
    ensures [x] + xs == [y] + ys <==> x == y && xs == ys
  {
    if [x] + xs == [y] + ys {
      assert ([x] + xs)[0] == ([y] + ys)[0];
      assert ([x] + xs)[1..] == ([y] + ys)[1..];
    }
  }

  lemma SameAfter(head: string, x: string, y: string)
    ensures head + x == head + y <==> x == y
  {
    if head + x == head + y {
      assert (head + x)[|head|..] == x && (head + y)[|head|..] == y;
    }
  }

  /** Rendering what was parsed reproduces the content, up to the body's leading newlines, exactly when each known value
      looks the same after being written, read and written again. */
  lemma RenderIsFixpointIff(meta: Meta, body: string)
    requires OneLiners(meta)
    ensures var parsed := ParseFrontmatter(RenderFrontmatter(meta, body));
      RenderFrontmatter(parsed.0, parsed.1) == RenderFrontmatter(meta, Text.DropNewlines(body))
      <==> forall k :: k in Canonical(meta) ==> Restful(meta[k])
  {
    RoundTrip(meta, body);
    var back := ReadBack(meta);
    forall k | k in back ensures OneLine(back[k]) && back[k] != Null {
      RereadOneLine(meta[k]);
    }
    ContentInjective(back, meta, Text.DropNewlines(body));
    LinesAgree(back, meta, SPEC_KEYS);
  }

  lemma MinusReads(w: string)
    requires |w| > 1 && w[0] == '-' && Text.IsDigit(w[|w| - 1])
    ensures ParseValue(" " + w) == Str(w)
  {
    TightValue(w);
    NoQuotes(w);
    assert Text.Lower(w)[0] == '-';
  }

  lemma MinusRenders(w: string)
    requires |w| > 1 && w[0] == '-' && forall i :: 0 < i < |w| ==> Text.IsDigit(w[i])
    ensures RenderValue(Str(w)) == w
  {
    assert w[..1] != "*" by { assert w[..1][0] == '-'; }
  }

  lemma NegativeRestful(n: int)
    requires n < 0
    ensures Restful(Int(n))
  {
    var w := RenderValue(Int(n));
    assert w == "-" + Text.NatToString(-n);
    MinusReads(w);
    MinusRenders(w);
  }

  lemma WordRestful(s: string, b: bool)
    requires s == RenderValue(Bool(b))
    ensures Restful(Str(s))
  {
    assert RenderValue(Str(s)) == s by { assert s[..1] != "*" by { assert s[..1][0] != '*'; } }
    ValueRoundTrip(Bool(b));
  }

  /** Representable values and all integers are at rest, and so are the two boolean words sent as strings. */
  lemma RestfulValues(v: Value)
    requires v != Null
    ensures Representable(v) || v.Int? || v == Str("true") || v == Str("false") ==> Restful(v)
  {
    if Representable(v) {
      ValueSurvivesIff(v);
    } else if v.Int? {
      NegativeRestful(v.n);
    } else if v == Str("true") || v == Str("false") {
      WordRestful(v.s, v == Str("true"));
    }
  }
}
