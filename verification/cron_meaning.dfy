/** What a cron expression written from its parts names. */
module CronMeaning {
  import opened Sequences
  import opened Cron
  import Text

  /** A number, or a range of numbers. */
  datatype Part = Part(lo: nat, hi: Option<nat>)

  /** A star, every n-th value, or one of some parts. */
  datatype FieldSpec = Every | EveryNth(n: int) | OneOf(parts: seq<Part>)

  /** Minute, hour, day, month and weekday, which counts from Sunday. */
  datatype Spec = Spec(minute: FieldSpec, hour: FieldSpec, day: FieldSpec, month: FieldSpec, weekday: FieldSpec)

  // ---- How it is written ----

  function WritePart(p: Part): string {
    Text.NatToString(p.lo) + if p.hi.Some? then "-" + Text.NatToString(p.hi.value) else ""
  }

  function WriteParts(ps: seq<Part>): string {
    if ps == [] then "" else if |ps| == 1 then WritePart(ps[0]) else WritePart(ps[0]) + "," + WriteParts(ps[1..])
  }

  function WriteField(f: FieldSpec): string {
    match f
    case Every => "*"
    case EveryNth(n) => "*/" + Text.IntToString(n)
    case OneOf(ps) => WriteParts(ps)
  }

  function Fields(s: Spec): seq<string> {
    [WriteField(s.minute), WriteField(s.hour), WriteField(s.day), WriteField(s.month), WriteField(s.weekday)]
  }

  function Write(s: Spec): string { Spaced(Fields(s)) }

  /** Every list names something. */
  predicate Named(f: FieldSpec) { f.OneOf? ==> f.parts != [] }

  predicate AllNamed(s: Spec) { Named(s.minute) && Named(s.hour) && Named(s.day) && Named(s.month) && Named(s.weekday) }

  // ---- What it names ----

  predicate Holds(p: Part, v: int) { if p.hi.None? then v == p.lo else p.lo <= v <= p.hi.value }

  predicate Fits(f: FieldSpec, v: int) {
    match f
    case Every => true
    case EveryNth(n) => n != 0 && v % n == 0
    case OneOf(ps) => exists i :: 0 <= i < |ps| && Holds(ps[i], v)
  }

  predicate FitsAt(s: Spec, c: Civil) {
    && Fits(s.minute, c.minute) && Fits(s.hour, c.hour) && Fits(s.day, c.day) && Fits(s.month, c.month)
    && Fits(s.weekday, (c.weekday + 1) % 7)
  }

  // ---- One field ----

  predicate Plain(c: char) { !Text.IsSpace(c) && c != ',' && c != '*' }

  lemma DigitsPlain(n: nat)
    ensures var s := Text.NatToString(n);
      && ParseInt(s) == Some(n) && s != ""
      && forall i :: 0 <= i < |s| ==> Text.IsDigit(s[i])
  {
    Text.ParsePrintedNat(n);
  }

  lemma {:induction false} PartReads(p: Part)
    ensures var s := WritePart(p);
      && ParseItem(s) == Some(if p.hi.None? then One(p.lo) else Range(p.lo, p.hi.value))
      && s != "" && forall i :: 0 <= i < |s| ==> Plain(s[i])
  {
    var s, lo := WritePart(p), Text.NatToString(p.lo);
    DigitsPlain(p.lo);
    if p.hi.Some? {
      var hi := Text.NatToString(p.hi.value);
      DigitsPlain(p.hi.value);
      Text.FirstIndexIs(IsHyphen(), s, |lo|);
      assert s[..|lo|] == lo && s[|lo| + 1..] == hi;
    } else {
      assert s == lo;
      Text.FirstIndexIs(IsHyphen(), s, |s|);
    }
  }

  lemma SplitOne(s: string)
    requires forall i :: 0 <= i < |s| ==> s[i] != ','
    ensures SplitCommas(s) == [s]
  {
    Text.FirstIndexIs(IsComma(), s, |s|);
  }

  lemma SplitMore(s: string, t: string)
    requires forall i :: 0 <= i < |s| ==> s[i] != ','
    ensures SplitCommas(s + "," + t) == [s] + SplitCommas(t)
  {
    var all := s + "," + t;
    Text.FirstIndexIs(IsComma(), all, |s|);
    assert all[..|s|] == s && all[|s| + 1..] == t;
  }

  function ItemOf(p: Part): Item { if p.hi.None? then One(p.lo) else Range(p.lo, p.hi.value) }

  function ItemsOf(ps: seq<Part>): seq<Item> { seq(|ps|, i requires 0 <= i < |ps| => ItemOf(ps[i])) }

  predicate Listed(c: char) { !Text.IsSpace(c) && c != '*' }

  lemma ItemsCons(s: string, rest: seq<string>, p: Part, ps: seq<Part>)
    requires ParseItem(s) == Some(ItemOf(p)) && ParseItems(rest) == Some(ItemsOf(ps))
    ensures ParseItems([s] + rest) == Some(ItemsOf([p] + ps))
  {
    assert ([s] + rest)[1..] == rest;
    assert ItemsOf([p] + ps) == [ItemOf(p)] + ItemsOf(ps);
  }

  lemma {:induction false} PartsRead(ps: seq<Part>)
    requires ps != []
    ensures ParseItems(SplitCommas(WriteParts(ps))) == Some(ItemsOf(ps))
    decreases |ps|
  {
    var s := WritePart(ps[0]);
    PartReads(ps[0]);
    if |ps| == 1 {
      SplitOne(s);
      assert ItemsOf([]) == [];
      ItemsCons(s, [], ps[0], []);
      assert [s] + [] == [s] && [ps[0]] + [] == ps;
    } else {
      var rest := ps[1..];
      PartsRead(rest);
      SplitMore(s, WriteParts(rest));
      ItemsCons(s, SplitCommas(WriteParts(rest)), ps[0], rest);
      assert [ps[0]] + rest == ps;
    }
  }

  lemma ListedConcat(a: string, b: string)
    requires (forall i :: 0 <= i < |a| ==> Plain(a[i])) && forall i :: 0 <= i < |b| ==> Listed(b[i])
    ensures forall i :: 0 <= i < |a + "," + b| ==> Listed((a + "," + b)[i])
  {
  }

  lemma {:induction false} PartsListed(ps: seq<Part>)
    requires ps != []
    ensures WriteParts(ps) != "" && forall i :: 0 <= i < |WriteParts(ps)| ==> Listed(WriteParts(ps)[i])
    decreases |ps|
  {
    PartReads(ps[0]);
    if |ps| > 1 {
      PartsListed(ps[1..]);
      ListedConcat(WritePart(ps[0]), WriteParts(ps[1..]));
    }
  }

  lemma MinusReads(n: nat)
    ensures var s := "-" + Text.NatToString(n);
      ParseInt(s) == Some(0 - n as int) && forall i :: 0 <= i < |s| ==> Plain(s[i])
  {
    DigitsPlain(n);
    var s := "-" + Text.NatToString(n);
    assert s[0] == '-' && s[1..] == Text.NatToString(n) && !Text.IsDigit(s[0]);
  }

  lemma {:induction false} SignedReads(n: int)
    ensures var s := Text.IntToString(n);
      ParseInt(s) == Some(n) && s != "" && forall i :: 0 <= i < |s| ==> Plain(s[i])
  {
    if n < 0 { MinusReads(-n); } else { DigitsPlain(n); }
  }

  lemma StepReads(n: int)
    ensures ParseField("*/" + Text.IntToString(n)) == Some(Step(n))
  {
    var s := "*/" + Text.IntToString(n);
    SignedReads(n);
    assert s[..2] == "*/" && s[2..] == Text.IntToString(n) && s[1] == '/';
  }

  lemma {:induction false} PartsParse(ps: seq<Part>)
    requires ps != []
    ensures ParseField(WriteParts(ps)) == Some(Items(ItemsOf(ps)))
  {
    PartsRead(ps);
    PartsListed(ps);
    ItemsParse(WriteParts(ps), ItemsOf(ps));
  }

  lemma {:induction false} ItemsParse(s: string, items: seq<Item>)
    requires s != "" && s[0] != '*' && ParseItems(SplitCommas(s)) == Some(items)
    ensures ParseField(s) == Some(Items(items))
  {
  }

  /** A field reads back as what it was written from. */
  lemma FieldFits(f: FieldSpec, v: int)
    requires Named(f)
    ensures Allows(WriteField(f), v) <==> Fits(f, v)
  {
    match f
    case Every =>
    case EveryNth(n) => StepReads(n);
    case OneOf(ps) =>
      PartsParse(ps);
      ItemsHold(ps, v);
  }

  /** A field holds no blank. */
  lemma FieldIsWord(f: FieldSpec)
    requires Named(f)
    ensures IsWord(WriteField(f))
  {
    var s := WriteField(f);
    match f
    case Every => assert !Text.IsSpace(s[0]);
    case EveryNth(n) =>
      SignedReads(n);
      assert s[0] == '*' && s[1] == '/' && s[2..] == Text.IntToString(n);
    case OneOf(ps) => PartsListed(ps);
  }

  lemma ItemsHold(ps: seq<Part>, v: int)
    ensures Selects(Items(ItemsOf(ps)), v) <==> exists i :: 0 <= i < |ps| && Holds(ps[i], v)
  {
    forall i | 0 <= i < |ps| ensures Picks(ItemsOf(ps)[i], v) <==> Holds(ps[i], v) {}
  }

  // ---- The five fields ----

  lemma WordsCons(word: string, rest: string)
    requires word != "" && forall i :: 0 <= i < |word| ==> !Text.IsSpace(word[i])
    ensures Words(word + " " + rest) == [word] + Words(" " + rest)
    ensures Words(" " + rest) == Words(rest)
    ensures Words(word) == [word]
  {
    var s := word + " " + rest;
    assert s[0] == word[0];
    assert Text.StripLeft(s) == s && Text.StripLeft(word) == word;
    assert (" " + rest)[1..] == rest;
    assert Text.StripLeft(" " + rest) == Text.StripLeft(rest);
    var n, m := Text.FirstIndex(Text.IsSpace, s), Text.FirstIndex(Text.IsSpace, word);
    assert s[|word|] == ' ';
    Text.FirstIndexIs(Text.IsSpace, s, |word|);
    Text.FirstIndexIs(Text.IsSpace, word, |word|);
    assert s[..n] == word && s[n..] == " " + rest;
    assert word[..m] == word && word[m..] == "";
    assert Words("") == [];
  }

  ghost predicate IsWord(w: string) { w != "" && forall i :: 0 <= i < |w| ==> !Text.IsSpace(w[i]) }

  ghost predicate AllWords(ws: seq<string>) { forall i :: 0 <= i < |ws| ==> IsWord(ws[i]) }

  function Spaced(ws: seq<string>): string
    requires ws != []
  {
    if |ws| == 1 then ws[0] else ws[0] + " " + Spaced(ws[1..])
  }

  /** No space at either end. */
  ghost predicate Trim(s: string) { s != "" && !Text.IsSpace(s[0]) && !Text.IsSpace(s[|s| - 1]) }

  lemma OneMoreWord(word: string, rest: string, ws: seq<string>)
    requires IsWord(word) && Trim(rest) && Words(rest) == ws
    ensures Words(word + " " + rest) == [word] + ws && Trim(word + " " + rest)
  {
    WordsCons(word, rest);
    var s := word + " " + rest;
    assert s[0] == word[0] && s[|s| - 1] == rest[|rest| - 1];
  }

  /** Words joined by single spaces split back into those words. */
  lemma {:induction false} SpacedSplits(ws: seq<string>)
    requires ws != [] && AllWords(ws)
    ensures Words(Spaced(ws)) == ws && Trim(Spaced(ws))
    decreases |ws|
  {
    assert IsWord(ws[0]);
    if |ws| == 1 {
      WordsCons(ws[0], "");
    } else {
      SpacedSplits(ws[1..]);
      OneMoreWord(ws[0], Spaced(ws[1..]), ws[1..]);
      assert [ws[0]] + ws[1..] == ws;
    }
  }

  function TabOf(s: Spec): Crontab {
    Crontab(WriteField(s.minute), WriteField(s.hour), WriteField(s.day), WriteField(s.month), WriteField(s.weekday))
  }

  lemma WrittenParses(s: Spec)
    requires AllNamed(s)
    ensures ParseCrontab(Write(s)) == Some(TabOf(s))
  {
    FieldIsWord(s.minute);
    FieldIsWord(s.hour);
    FieldIsWord(s.day);
    FieldIsWord(s.month);
    FieldIsWord(s.weekday);
    SpacedSplits(Fields(s));
    Text.StripTight(Write(s));
  }

  lemma DueWhen(tab: Crontab, c: Civil, minute: bool, hour: bool, day: bool, month: bool, weekday: bool)
    requires Allows(tab.minute, c.minute) == minute && Allows(tab.hour, c.hour) == hour
    requires Allows(tab.day, c.day) == day && Allows(tab.month, c.month) == month
    requires Allows(tab.weekday, (c.weekday + 1) % 7) == weekday
    ensures Due(tab, c) <==> minute && hour && day && month && weekday
  {
  }

  lemma {:induction false} TabFits(s: Spec, c: Civil)
    requires AllNamed(s)
    ensures Due(TabOf(s), c) <==> FitsAt(s, c)
  {
    FieldFits(s.minute, c.minute);
    FieldFits(s.hour, c.hour);
    FieldFits(s.day, c.day);
    FieldFits(s.month, c.month);
    FieldFits(s.weekday, (c.weekday + 1) % 7);
    DueWhen(TabOf(s), c, Fits(s.minute, c.minute), Fits(s.hour, c.hour), Fits(s.day, c.day), Fits(s.month, c.month),
            Fits(s.weekday, (c.weekday + 1) % 7));
  }

  /** Main result: an expression written from its fields names exactly the minutes at which all five fit: a star
      always, a step the multiples of its number, a list the numbers and the closed ranges in it; the weekday counts
      from Sunday as zero to Saturday as six. */
  lemma ScheduleMeans(s: Spec, cal: Calendar, minute: int)
    requires AllNamed(s)
    ensures Scheduled(Write(s), cal, minute) <==> FitsAt(s, cal(minute))
  {
    WrittenParses(s);
    TabFits(s, cal(minute));
  }

  // ---- Expressions that name nothing ----

  /** An expression of any other number of words than five names no minute. */
  lemma FiveOrNever(ws: seq<string>, cal: Calendar, minute: int)
    requires ws != [] && AllWords(ws) && |ws| != 5
    ensures !Scheduled(Spaced(ws), cal, minute) && NextFire(Spaced(ws), cal, minute) == Never
  {
    SpacedSplits(ws);
    Text.StripTight(Spaced(ws));
  }

  /** A step of zero, with or without a sign. */
  predicate ZeroStep(field: string) { Text.StartsWith(field, "*/") && ParseInt(field[2..]) == Some(0) }

  predicate NoField(field: string) { ParseField(field).None? }

  function TabFields(tab: Crontab): seq<string> { [tab.minute, tab.hour, tab.day, tab.month, tab.weekday] }

  function FieldValues(c: Civil): seq<int> { [c.minute, c.hour, c.day, c.month, (c.weekday + 1) % 7] }

  /** Such a field is reached: every field before it allows its value. */
  ghost predicate Reached(tab: Crontab, c: Civil, bad: string -> bool) {
    exists k ::
      0 <= k < 5 && bad(TabFields(tab)[k]) && forall i :: 0 <= i < k ==> Allows(TabFields(tab)[i], FieldValues(c)[i])
  }

  lemma JudgeIs(field: string, v: int)
    ensures Judge(field, v) == DivByZero <==> ZeroStep(field)
    ensures Judge(field, v) == Malformed <==> NoField(field)
    ensures Judge(field, v) == Yes <==> Allows(field, v)
  {
    if ZeroStep(field) { assert field != "*" && ParseField(field) == Some(Step(0)); }
  }

  /** One minute divides by zero, or is malformed, exactly when the first field that does not allow it is a zero step,
      or no field at all. */
  lemma JudgeAtIs(tab: Crontab, c: Civil)
    ensures JudgeAt(tab, c) == DivByZero <==> Reached(tab, c, ZeroStep)
    ensures JudgeAt(tab, c) == Malformed <==> Reached(tab, c, NoField)
  {
    var fs, vs := TabFields(tab), FieldValues(c);
    forall k | 0 <= k < 5
      ensures Judge(fs[k], vs[k]) == DivByZero <==> ZeroStep(fs[k])
      ensures Judge(fs[k], vs[k]) == Malformed <==> NoField(fs[k])
      ensures Judge(fs[k], vs[k]) == Yes <==> Allows(fs[k], vs[k])
    {
      JudgeIs(fs[k], vs[k]);
    }
    assert fs[0] == tab.minute && fs[1] == tab.hour && fs[2] == tab.day && fs[3] == tab.month && fs[4] == tab.weekday;
  }

  /** The search runs into a zero step at minute `j`: none before it is scheduled or reaches a bad field. */
  ghost predicate RunsInto(tab: Crontab, cal: Calendar, minute: int, n: nat, j: int) {
    && minute < j <= minute + n && Reached(tab, cal(j), ZeroStep)
    && forall i :: minute < i < j ==> SaysNo(tab, cal, i)
  }

  /** The minute is not scheduled and reaches no bad field. */
  ghost predicate SaysNo(tab: Crontab, cal: Calendar, i: int) {
    !Due(tab, cal(i)) && !Reached(tab, cal(i), ZeroStep) && !Reached(tab, cal(i), NoField)
  }

  ghost predicate Divides(tab: Crontab, cal: Calendar, minute: int, n: nat) {
    exists j :: RunsInto(tab, cal, minute, n, j)
  }

  lemma RunsLater(tab: Crontab, cal: Calendar, minute: int, n: nat, j: int)
    requires n > 0 && RunsInto(tab, cal, minute, n, j)
    ensures Reached(tab, cal(minute + 1), ZeroStep)
            || (SaysNo(tab, cal, minute + 1) && Divides(tab, cal, minute + 1, n - 1))
  {
    if j == minute + 1 {
      assert Reached(tab, cal(minute + 1), ZeroStep);
    } else {
      assert SaysNo(tab, cal, minute + 1);
      assert RunsInto(tab, cal, minute + 1, n - 1, j);
    }
  }

  lemma RunsSooner(tab: Crontab, cal: Calendar, minute: int, n: nat, j: int)
    requires n > 0 && SaysNo(tab, cal, minute + 1) && RunsInto(tab, cal, minute + 1, n - 1, j)
    ensures RunsInto(tab, cal, minute, n, j)
  {
    forall i | minute < i < j ensures SaysNo(tab, cal, i) { assert i == minute + 1 || minute + 1 < i; }
  }

  lemma DividesStep(tab: Crontab, cal: Calendar, minute: int, n: nat)
    requires n > 0
    ensures Divides(tab, cal, minute, n) <==>
      Reached(tab, cal(minute + 1), ZeroStep)
      || (SaysNo(tab, cal, minute + 1) && Divides(tab, cal, minute + 1, n - 1))
  {
    if Divides(tab, cal, minute, n) {
      var j :| RunsInto(tab, cal, minute, n, j);
      RunsLater(tab, cal, minute, n, j);
    } else if Reached(tab, cal(minute + 1), ZeroStep) {
      assert RunsInto(tab, cal, minute, n, minute + 1);
    } else if SaysNo(tab, cal, minute + 1) && Divides(tab, cal, minute + 1, n - 1) {
      var j :| RunsInto(tab, cal, minute + 1, n - 1, j);
      RunsSooner(tab, cal, minute, n, j);
    }
  }

  lemma {:induction false} SearchDivides(tab: Crontab, cal: Calendar, minute: int, n: nat)
    ensures Search(tab, cal, minute, n) == Raised <==> Divides(tab, cal, minute, n)
    decreases n
  {
    if n > 0 {
      var c := cal(minute + 1);
      SearchOnce(tab, cal, minute, n);
      JudgeMeansDue(tab, c);
      JudgeAtIs(tab, c);
      DividesStep(tab, cal, minute, n);
      SearchDivides(tab, cal, minute + 1, n - 1);
    }
  }

  /** The search fails with a division by zero, which nobody catches, exactly when it runs into a zero step within eight
      days; a malformed field ends it quietly. */
  lemma RaisesIff(expr: string, cal: Calendar, minute: int)
    ensures NextFire(expr, cal, minute) == Raised <==>
      ParseCrontab(expr).Some? && Divides(ParseCrontab(expr).value, cal, minute, 11_520)
  {
    if ParseCrontab(expr).Some? { SearchDivides(ParseCrontab(expr).value, cal, minute, HORIZON); }
  }
}
