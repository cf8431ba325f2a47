/** The spec-delta content format of routines: `---` frontmatter and a prompt body. */
module Frontmatter {
  import Text

  datatype Value = Bool(b: bool) | Int(n: int) | Str(s: string) | Null

  type Meta = map<string, Value>

  const SPEC_KEYS: seq<string> := [
    "id", "name", "schedule", "interval_minutes", "enabled", "workspace", "host",
    "permission_mode", "helper_auto_approve", "single_fire", "deleted"]

  // ---- Parsing ----

  function IsColon(): char -> bool { c => c == ':' }

  /** The value of one header line, after its colon. */
  function ParseValue(raw: string): Value {
    var val := Text.StripChar(Text.StripChar(Text.Strip(raw), '"'), '\'');
    if Text.Lower(val) == "true" || Text.Lower(val) == "false" then Bool(Text.Lower(val) == "true")
    else if Text.IsDigits(val) then Int(Text.ParseNat(val))
    else Str(val)
  }

  function ParseLine(meta: Meta, line: string): Meta {
    var n := Text.FirstIndex(IsColon(), line);
    if n == |line| then meta else meta[Text.Strip(line[..n]) := ParseValue(line[n + 1..])]
  }

  function ParseLines(meta: Meta, lines: seq<string>): Meta
    decreases |lines|
  {
    if lines == [] then meta else ParseLines(ParseLine(meta, lines[0]), lines[1..])
  }

  function ParseFrontmatter(content: string): (Meta, string) {
    if !Text.StartsWith(content, "---") then (map[], content)
    else
      var end := Text.Find(content, "\n---", 3);
      if end < 0 then (map[], content)
      else (ParseLines(map[], Text.SplitLines(Text.Strip(content[3..end]))), Text.DropNewlines(content[end + 4..]))
  }

  // ---- Rendering ----

  /** How a value is written; Null is never written. */
  function RenderValue(v: Value): string {
    match v
    case Bool(b) => if b then "true" else "false"
    case Int(n) => Text.IntToString(n)
    case Str(s) => if Text.StartsWith(s, "*") || ':' in s then "\"" + s + "\"" else s
    case Null => ""
  }

  predicate Present(meta: Meta, key: string) { key in meta && meta[key] != Null }

  function RenderLines(meta: Meta, keys: seq<string>): seq<string>
    decreases |keys|
  {
    if keys == [] then []
    else if !Present(meta, keys[0]) then RenderLines(meta, keys[1..])
    else [keys[0] + ": " + RenderValue(meta[keys[0]])] + RenderLines(meta, keys[1..])
  }

  function RenderFrontmatter(meta: Meta, body: string): string {
    Text.Join(["---"] + RenderLines(meta, SPEC_KEYS) + ["---", ""]) + "\n" + body
  }

  // ---- The two routines as the source runs them ----

  method Parse(content: string) returns (meta: Meta, body: string)
    ensures (meta, body) == ParseFrontmatter(content)
  {
    meta, body := map[], content;
    if !Text.StartsWith(content, "---") {
      return;
    }
    var end := Text.Find(content, "\n---", 3);
    if end < 0 {
      return;
    }
    var lines := Text.SplitLines(Text.Strip(content[3..end]));
    body := Text.DropNewlines(content[end + 4..]);
    for i := 0 to |lines|
      invariant ParseLines(meta, lines[i..]) == ParseLines(map[], lines)
    {
      assert lines[i..][1..] == lines[i + 1..];
      var line := lines[i];
      ColonIff(line);
      if ':' !in line {
        continue;
      }
      var n := Text.FirstIndex(IsColon(), line);
      var key := Text.Strip(line[..n]);
      var val := Text.StripChar(Text.StripChar(Text.Strip(line[n + 1..]), '"'), '\'');
      if Text.Lower(val) == "true" || Text.Lower(val) == "false" {
        meta := meta[key := Bool(Text.Lower(val) == "true")];
      } else if Text.IsDigits(val) {
        meta := meta[key := Int(Text.ParseNat(val))];
      } else {
        meta := meta[key := Str(val)];
      }
    }
  }

  lemma ColonIff(line: string)
    ensures Text.FirstIndex(IsColon(), line) < |line| <==> ':' in line
  {
    Text.FirstIndexFacts(IsColon(), line);
  }

  method Render(meta: Meta, body: string) returns (content: string)
    ensures content == RenderFrontmatter(meta, body)
  {
    var header := RenderHeader(meta, SPEC_KEYS);
    var lines := ["---"] + header + ["---", ""];
    content := Text.Join(lines) + "\n" + body;
  }

  method RenderHeader(meta: Meta, keys: seq<string>) returns (lines: seq<string>)
    ensures lines == RenderLines(meta, keys)
  {
    lines := [];
    for i := 0 to |keys|
      invariant lines + RenderLines(meta, keys[i..]) == RenderLines(meta, keys)
    {
      assert keys[i..][1..] == keys[i + 1..];
      var key := keys[i];
      if key !in meta {
        continue;
      }
      var val := meta[key];
      var rendered: string;
      match val {
        case Bool(b) => rendered := if b then "true" else "false";
        case Int(n) => rendered := Text.IntToString(n);
        case Null => continue;
        case Str(s) =>
          if Text.StartsWith(s, "*") || ':' in s {
            rendered := "\"" + s + "\"";
          } else {
            rendered := s;
          }
      }
      AppendLine(lines, key + ": " + rendered, RenderLines(meta, keys[i + 1..]));
      lines := lines + [key + ": " + rendered];
    }
  }

  lemma AppendLine(lines: seq<string>, line: string, rest: seq<string>)
    ensures lines + [line] + rest == lines + ([line] + rest)
  {
  }
}
