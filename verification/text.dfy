/** The Python string operations the components rely on, over ASCII character classes. */
module Text {

  /** `c` is one of Python's ASCII whitespace characters. */
  predicate IsSpace(c: char) {
    c == ' ' || 9 <= c as int <= 13 || 28 <= c as int <= 31
  }

  predicate StartsWith(s: string, prefix: string) {
    |prefix| <= |s| && s[..|prefix|] == prefix
  }

  /** `str.lstrip()`. */
  function StripLeft(s: string): string {
    if s != "" && IsSpace(s[0]) then StripLeft(s[1..]) else s
  }

  /** `str.rstrip()`. */
  function StripRight(s: string): string {
    if s != "" && IsSpace(s[|s| - 1]) then StripRight(s[..|s| - 1]) else s
  }

  /** `str.strip()`. */
  function Strip(s: string): string {
    StripRight(StripLeft(s))
  }

  /** The rest of the first tag that starts with `prefix`, or the empty string. */
  function TagValue(tags: seq<string>, prefix: string): string {
    if tags == [] then ""
    else if StartsWith(tags[0], prefix) then tags[0][|prefix|..]
    else TagValue(tags[1..], prefix)
  }

  /** `c` ends a line for `str.splitlines`. */
  predicate IsLineBreak(c: char) {
    10 <= c as int <= 13 || 28 <= c as int <= 30 || c as int in {133, 8232, 8233}
  }

  predicate IsDigit(c: char) { '0' <= c <= '9' }

  /** `str.isdigit()`. */
  predicate IsDigits(s: string) {
    s != "" && forall i :: 0 <= i < |s| ==> IsDigit(s[i])
  }

  function LowerChar(c: char): char {
    if 'A' <= c <= 'Z' then (c as int + 32) as char else c
  }

  /** `str.lower()`. */
  function Lower(s: string): (r: string)
    ensures |r| == |s|
    ensures forall i :: 0 <= i < |s| ==> r[i] == LowerChar(s[i])
  {
    if s == "" then "" else [LowerChar(s[0])] + Lower(s[1..])
  }

  /** `str(n)` for a non-negative integer. */
  function NatToString(n: nat): (r: string)
    ensures IsDigits(r)
  {
    if n < 10 then [(n + '0' as int) as char] else NatToString(n / 10) + [(n % 10 + '0' as int) as char]
  }

  /** `str(n)`. */
  function IntToString(n: int): string {
    if n < 0 then "-" + NatToString(-n) else NatToString(n)
  }

  /** `int(s)` for a string of digits. */
  function ParseNat(s: string): nat
    requires forall i :: 0 <= i < |s| ==> IsDigit(s[i])
  {
    if s == "" then 0
    else
      assert IsDigit(s[|s| - 1]);
      ParseNat(s[..|s| - 1]) * 10 + (s[|s| - 1] as int - '0' as int)
  }

  /** `s.strip(c)` for a single character. */
  function StripChar(s: string, c: char): string
    decreases |s|
  {
    if s != "" && s[0] == c then StripChar(s[1..], c)
    else if s != "" && s[|s| - 1] == c then StripChar(s[..|s| - 1], c)
    else s
  }

  /** `s.lstrip("\n")`. */
  function DropNewlines(s: string): string {
    if s != "" && s[0] == '\n' then DropNewlines(s[1..]) else s
  }

  predicate OccursAt(s: string, pat: string, i: nat) {
    i + |pat| <= |s| && s[i..i + |pat|] == pat
  }

  /** `s.find(pat, from)`. */
  function Find(s: string, pat: string, from: nat): (at: int)
    ensures at == -1 || (from <= at && OccursAt(s, pat, at))
    decreases |s| - from
  {
    if from + |pat| > |s| then -1
    else if OccursAt(s, pat, from) then from
    else if from == |s| then -1
    else Find(s, pat, from + 1)
  }

  lemma {:induction false} FindFirst(s: string, pat: string, from: nat, at: nat)
    requires from <= at && OccursAt(s, pat, at)
    requires forall i :: from <= i < at ==> !OccursAt(s, pat, i)
    ensures Find(s, pat, from) == at
    decreases at - from
  {
    if from < at { FindFirst(s, pat, from + 1, at); }
  }

  /** Index of the first character of `s` that satisfies `p`, or `|s|`. */
  function FirstIndex(p: char -> bool, s: string): (i: nat)
    ensures i <= |s|
  {
    if s == "" || p(s[0]) then 0 else 1 + FirstIndex(p, s[1..])
  }

  lemma {:induction false} FirstIndexFacts(p: char -> bool, s: string)
    ensures forall j :: 0 <= j < FirstIndex(p, s) ==> !p(s[j])
    ensures FirstIndex(p, s) < |s| ==> p(s[FirstIndex(p, s)])
  {
    if s != "" && !p(s[0]) {
      FirstIndexFacts(p, s[1..]);
      forall j | 0 <= j < FirstIndex(p, s) ensures !p(s[j]) {
        if j > 0 { assert s[j] == s[1..][j - 1]; }
      }
    }
  }

  lemma {:induction false} FirstIndexIs(p: char -> bool, s: string, n: nat)
    requires n <= |s| && (forall j :: 0 <= j < n ==> !p(s[j])) && (n < |s| ==> p(s[n]))
    ensures FirstIndex(p, s) == n
    decreases |s|
  {
    if n > 0 { FirstIndexIs(p, s[1..], n - 1); }
  }

  lemma {:induction false} FirstIndexConcat(p: char -> bool, s: string, t: string)
    ensures FirstIndex(p, s + t) == if FirstIndex(p, s) < |s| then FirstIndex(p, s) else |s| + FirstIndex(p, t)
  {
    if s == "" {
      assert s + t == t;
    } else if !p(s[0]) {
      assert (s + t)[1..] == s[1..] + t;
      FirstIndexConcat(p, s[1..], t);
    }
  }

  lemma {:induction false} FirstIndexAppend(p: char -> bool, s: string, c: char)
    ensures FirstIndex(p, s + [c])
      == if FirstIndex(p, s) < |s| then FirstIndex(p, s) else if p(c) then |s| else |s| + 1
  {
    FirstIndexConcat(p, s, [c]);
    assert [c][1..] == "";
  }

  /** `s.splitlines()`; the empty piece a `\r\n` pair leaves between its two characters is kept. */
  function SplitLines(s: string): seq<string>
    decreases |s|
  {
    if s == "" then []
    else
      var n := FirstIndex(IsLineBreak, s);
      [s[..n]] + if n < |s| then SplitLines(s[n + 1..]) else []
  }

  function Join(lines: seq<string>): string {
    if lines == [] then "" else if |lines| == 1 then lines[0] else lines[0] + "\n" + Join(lines[1..])
  }

  // ---- Facts ----

  lemma {:induction false} ParsePrintedNat(n: nat)
    ensures ParseNat(NatToString(n)) == n
  {
    if n >= 10 {
      ParsePrintedNat(n / 10);
      var s := NatToString(n);
      assert s[..|s| - 1] == NatToString(n / 10);
    } else {
      assert NatToString(n)[..0] == "";
    }
  }

  /** Stripping leaves alone a string whose two ends are not whitespace. */
  lemma StripTight(s: string)
    requires s != "" ==> !IsSpace(s[0]) && !IsSpace(s[|s| - 1])
    ensures Strip(s) == s
  {
  }

  lemma {:induction false} StripRightAppend(s: string, c: char)
    requires IsSpace(c)
    ensures StripRight(s + [c]) == StripRight(s)
  {
    assert (s + [c])[..|s|] == s;
  }

  lemma {:induction false} StripAppend(s: string, c: char)
    requires IsSpace(c)
    ensures Strip(s + [c]) == Strip(s)
  {
    if s == "" {
      assert ([c])[1..] == "";
      assert StripLeft([c]) == "";
    } else if IsSpace(s[0]) {
      assert (s + [c])[1..] == s[1..] + [c];
      StripAppend(s[1..], c);
    } else {
      StripRightAppend(s, c);
    }
  }

  lemma StripPrepend(s: string, c: char)
    requires IsSpace(c)
    ensures Strip([c] + s) == Strip(s)
  {
    assert ([c] + s)[1..] == s;
  }

  /** Stripping takes whitespace off both ends, and leaves none there. */
  lemma {:induction false} StripMeans(s: string) returns (before: string, after: string)
    ensures s == before + Strip(s) + after
    ensures forall c :: c in before || c in after ==> IsSpace(c)
    ensures Strip(s) != "" ==> !IsSpace(Strip(s)[0]) && !IsSpace(Strip(s)[|Strip(s)| - 1])
  {
    var left := StripLeft(s);
    before := StripLeftMeans(s);
    after := StripRightMeans(left);
    if Strip(s) != "" { assert left[0] == Strip(s)[0]; }
  }

  lemma {:induction false} StripLeftMeans(s: string) returns (before: string)
    ensures s == before + StripLeft(s) && forall c :: c in before ==> IsSpace(c)
    ensures StripLeft(s) != "" ==> !IsSpace(StripLeft(s)[0])
  {
    before := "";
    if s != "" && IsSpace(s[0]) {
      before := StripLeftMeans(s[1..]);
      before := [s[0]] + before;
    }
  }

  lemma {:induction false} StripRightMeans(s: string) returns (after: string)
    ensures s == StripRight(s) + after && forall c :: c in after ==> IsSpace(c)
    ensures StripRight(s) != "" ==> !IsSpace(StripRight(s)[|StripRight(s)| - 1])
  {
    after := "";
    if s != "" && IsSpace(s[|s| - 1]) {
      after := StripRightMeans(s[..|s| - 1]);
      after := after + [s[|s| - 1]];
    }
  }

  /** The value of the first tag with the prefix, and none without one. */
  lemma {:induction false} TagValueIs(tags: seq<string>, prefix: string, k: nat)
    requires k <= |tags| && forall j :: 0 <= j < k ==> !StartsWith(tags[j], prefix)
    requires k < |tags| ==> StartsWith(tags[k], prefix)
    ensures if k < |tags| then tags[k] == prefix + TagValue(tags, prefix) else TagValue(tags, prefix) == ""
    decreases k
  {
    if k > 0 {
      TagValueIs(tags[1..], prefix, k - 1);
    } else if tags != [] {
      assert tags[0] == tags[0][..|prefix|] + tags[0][|prefix|..];
    }
  }
}
