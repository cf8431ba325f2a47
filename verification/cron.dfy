/** The hand-rolled cron: five fields, each a star, a step of a star, or a comma list of numbers and ranges, ANDed. */
module Cron {
  import opened Sequences
  import Text

  /** The calendar fields of one minute; `weekday` counts from Monday. */
  datatype Civil = Civil(minute: int, hour: int, day: int, month: int, weekday: int)

  /** Reads the calendar fields of a minute counted from the epoch. */
  type Calendar = int -> Civil

  datatype Crontab = Crontab(minute: string, hour: string, day: string, month: string, weekday: string)

  datatype Verdict = Yes | No | Malformed | DivByZero

  /** What the search returns: a minute, nothing, or an arithmetic error no one catches. */
  datatype Next = At(minute: int) | Never | Raised

  const HORIZON: nat := 8 * 24 * 60

  // ---- What a field means ----

  datatype Item = One(n: int) | Range(lo: int, hi: int)

  datatype Field = Any | Step(n: int) | Items(items: seq<Item>)

  predicate Picks(item: Item, v: int) {
    match item
    case One(n) => v == n
    case Range(lo, hi) => lo <= v <= hi
  }

  /** The field allows the value. */
  predicate Selects(f: Field, v: int) {
    match f
    case Any => true
    case Step(n) => n != 0 && v % n == 0
    case Items(items) => exists i :: 0 <= i < |items| && Picks(items[i], v)
  }

  /** `int(s)` for a word without whitespace. */
  function ParseInt(s: string): Option<int> {
    if Text.IsDigits(s) then Some(Text.ParseNat(s))
    else if s != "" && s[0] == '-' && Text.IsDigits(s[1..]) then Some(0 - Text.ParseNat(s[1..]))
    else if s != "" && s[0] == '+' && Text.IsDigits(s[1..]) then Some(Text.ParseNat(s[1..]))
    else None
  }

  function IsHyphen(): char -> bool { c => c == '-' }

  function IsComma(): char -> bool { c => c == ',' }

  function ParseItem(part: string): Option<Item> {
    var i := Text.FirstIndex(IsHyphen(), part);
    if i < |part| then
      var lo, hi := ParseInt(part[..i]), ParseInt(part[i + 1..]);
      if lo.Some? && hi.Some? then Some(Range(lo.value, hi.value)) else None
    else
      var n := ParseInt(part);
      if n.Some? then Some(One(n.value)) else None
  }

  function ParseItems(parts: seq<string>): (r: Option<seq<Item>>)
    ensures r.Some? <==> forall i :: 0 <= i < |parts| ==> ParseItem(parts[i]).Some?
    ensures r.Some? ==> |r.value| == |parts| && forall i :: 0 <= i < |parts| ==> Some(r.value[i]) == ParseItem(parts[i])
  {
    if parts == [] then Some([])
    else
      var item, rest := ParseItem(parts[0]), ParseItems(parts[1..]);
      assert forall i :: 0 < i < |parts| ==> parts[i] == parts[1..][i - 1];
      if item.Some? && rest.Some? then Some([item.value] + rest.value) else None
  }

  /** `s.split(",")`. */
  function SplitCommas(s: string): seq<string>
    decreases |s|
  {
    var i := Text.FirstIndex(IsComma(), s);
    if i == |s| then [s] else [s[..i]] + SplitCommas(s[i + 1..])
  }

  function ParseField(s: string): Option<Field> {
    if s == "*" then Some(Any)
    else if Text.StartsWith(s, "*/") then
      var n := ParseInt(s[2..]);
      if n.Some? then Some(Step(n.value)) else None
    else
      var items := ParseItems(SplitCommas(s));
      if items.Some? then Some(Items(items.value)) else None
  }

  function Judge(s: string, v: int): Verdict {
    var f := ParseField(s);
    if f.None? then Malformed
    else if f.value == Step(0) then DivByZero
    else if Selects(f.value, v) then Yes
    else No
  }

  // ---- What an expression means ----

  function AndThen(a: Verdict, b: Verdict): Verdict { if a == Yes then b else a }

  /** Sunday is 0. */
  function SundayFirst(weekday: int): int { (weekday + 1) % 7 }

  function JudgeAt(tab: Crontab, c: Civil): Verdict {
    AndThen(Judge(tab.minute, c.minute),
            AndThen(Judge(tab.hour, c.hour),
                    AndThen(Judge(tab.day, c.day),
                            AndThen(Judge(tab.month, c.month), Judge(tab.weekday, SundayFirst(c.weekday))))))
  }

  predicate Allows(s: string, v: int) {
    ParseField(s).Some? && Selects(ParseField(s).value, v)
  }

  /** All five fields are well formed and allow the minute. */
  predicate Due(tab: Crontab, c: Civil) {
    && Allows(tab.minute, c.minute) && Allows(tab.hour, c.hour) && Allows(tab.day, c.day)
    && Allows(tab.month, c.month) && Allows(tab.weekday, SundayFirst(c.weekday))
  }

  lemma JudgeMeansAllows(s: string, v: int)
    ensures Judge(s, v) == Yes <==> Allows(s, v)
  {
  }

  lemma JudgeMeansDue(tab: Crontab, c: Civil)
    ensures JudgeAt(tab, c) == Yes <==> Due(tab, c)
  {
    JudgeMeansAllows(tab.minute, c.minute);
    JudgeMeansAllows(tab.hour, c.hour);
    JudgeMeansAllows(tab.day, c.day);
    JudgeMeansAllows(tab.month, c.month);
    JudgeMeansAllows(tab.weekday, SundayFirst(c.weekday));
  }

  lemma StripLeftShrinks(s: string)
    ensures |Text.StripLeft(s)| <= |s|
    ensures Text.StripLeft(s) != "" ==> !Text.IsSpace(Text.StripLeft(s)[0])
  {
  }

  /** `s.split()`. */
  function Words(s: string): seq<string>
    decreases |s|
  {
    StripLeftShrinks(s);
    var t := Text.StripLeft(s);
    if t == "" then []
    else
      var n := Text.FirstIndex(Text.IsSpace, t);
      [t[..n]] + Words(t[n..])
  }

  function ParseCrontab(expr: string): Option<Crontab> {
    var parts := Words(Text.Strip(expr));
    if |parts| != 5 then None else Some(Crontab(parts[0], parts[1], parts[2], parts[3], parts[4]))
  }

  /** The minute is one the schedule names. */
  predicate Scheduled(expr: string, cal: Calendar, minute: int) {
    ParseCrontab(expr).Some? && Due(ParseCrontab(expr).value, cal(minute))
  }

  // ---- The search ----

  /** Looks at the `n` minutes after `minute`, one by one. */
  function Search(tab: Crontab, cal: Calendar, minute: int, n: nat): Next
    decreases n, minute
  {
    if n == 0 then Never
    else
      match JudgeAt(tab, cal(minute + 1))
      case Yes => At(minute + 1)
      case No => Search(tab, cal, minute + 1, n - 1)
      case Malformed => Never
      case DivByZero => Raised
  }

  function NextFire(expr: string, cal: Calendar, minute: int): Next {
    var tab := ParseCrontab(expr);
    if tab.None? then Never else Search(tab.value, cal, minute, HORIZON)
  }

  /** `k` is the first scheduled minute of the `n` minutes after `minute`. */
  ghost predicate IsFirst(expr: string, cal: Calendar, minute: int, n: nat, k: int) {
    minute < k <= minute + n && Scheduled(expr, cal, k) && forall j :: minute < j < k ==> !Scheduled(expr, cal, j)
  }

  /** A verdict other than yes and no does not depend on the value, so it rules the schedule out for good. */
  lemma BadFieldNeverDue(tab: Crontab, c: Civil, d: Civil)
    requires JudgeAt(tab, c) == Malformed || JudgeAt(tab, c) == DivByZero
    ensures !Due(tab, d)
  {
  }

  lemma FirstIsNext(expr: string, cal: Calendar, minute: int, n: nat, k: int)
    requires n > 0 && Scheduled(expr, cal, minute + 1)
    ensures IsFirst(expr, cal, minute, n, k) <==> k == minute + 1
  {
  }

  lemma FirstIsLater(expr: string, cal: Calendar, minute: int, n: nat, k: int)
    requires n > 0 && !Scheduled(expr, cal, minute + 1)
    ensures IsFirst(expr, cal, minute, n, k) <==> IsFirst(expr, cal, minute + 1, n - 1, k)
  {
    if IsFirst(expr, cal, minute + 1, n - 1, k) {
      forall j | minute < j < k ensures !Scheduled(expr, cal, j) {
        assert j == minute + 1 || minute + 1 < j;
      }
    }
  }

  lemma SearchOnce(tab: Crontab, cal: Calendar, minute: int, n: nat)
    requires n > 0
    ensures Search(tab, cal, minute, n) == match JudgeAt(tab, cal(minute + 1))
      case Yes => At(minute + 1)
      case No => Search(tab, cal, minute + 1, n - 1)
      case Malformed => Never
      case DivByZero => Raised
  {
  }

  lemma {:induction false} SearchFindsFirst(expr: string, cal: Calendar, minute: int, n: nat, k: int)
    requires ParseCrontab(expr).Some?
    ensures Search(ParseCrontab(expr).value, cal, minute, n) == At(k) <==> IsFirst(expr, cal, minute, n, k)
    decreases n
  {
    var tab := ParseCrontab(expr).value;
    if n > 0 {
      var c := cal(minute + 1);
      SearchOnce(tab, cal, minute, n);
      JudgeMeansDue(tab, c);
      match JudgeAt(tab, c)
      case Yes => FirstIsNext(expr, cal, minute, n, k);
      case No =>
        FirstIsLater(expr, cal, minute, n, k);
        SearchFindsFirst(expr, cal, minute + 1, n - 1, k);
      case Malformed => BadFieldNeverDue(tab, c, cal(k));
      case DivByZero => BadFieldNeverDue(tab, c, cal(k));
    }
  }

  /** The search returns exactly the least scheduled minute after the pivot's, if the horizon holds one. */
  lemma NextFireIsLeast(expr: string, cal: Calendar, minute: int, k: int)
    ensures NextFire(expr, cal, minute) == At(k) <==> IsFirst(expr, cal, minute, HORIZON, k)
  {
    if ParseCrontab(expr).Some? { SearchFindsFirst(expr, cal, minute, HORIZON, k); }
  }

  lemma {:induction false} FirstExists(expr: string, cal: Calendar, minute: int, n: nat, j: int) returns (k: int)
    requires minute < j <= minute + n && Scheduled(expr, cal, j)
    ensures IsFirst(expr, cal, minute, n, k) && k <= j
    decreases n
  {
    if Scheduled(expr, cal, minute + 1) {
      k := minute + 1;
    } else {
      k := FirstExists(expr, cal, minute + 1, n - 1, j);
      forall i | minute < i < k ensures !Scheduled(expr, cal, i) {
        assert i == minute + 1 || minute + 1 < i;
      }
    }
  }

  /** The search comes back with a minute exactly when the horizon holds a scheduled one. */
  lemma NextFireFoundIff(expr: string, cal: Calendar, minute: int)
    ensures NextFire(expr, cal, minute).At? <==> exists j :: minute < j <= minute + HORIZON && Scheduled(expr, cal, j)
  {
    var next := NextFire(expr, cal, minute);
    if next.At? {
      NextFireIsLeast(expr, cal, minute, next.minute);
    }
    if j :| minute < j <= minute + HORIZON && Scheduled(expr, cal, j) {
      var k := FirstExists(expr, cal, minute, HORIZON, j);
      NextFireIsLeast(expr, cal, minute, k);
    }
  }

  // ---- The two routines as the source runs them ----

  /** `range(lo, hi)` as a set. */
  function Span(lo: int, hi: int): (r: set<int>)
    ensures forall x :: x in r <==> lo <= x < hi
    decreases hi - lo
  {
    if lo >= hi then {} else {lo} + Span(lo + 1, hi)
  }

  method Matches(field: string, value: int) returns (v: Verdict)
    ensures v == Judge(field, value)
  {
    if field == "*" {
      return Yes;
    }
    if Text.StartsWith(field, "*/") {
      var n := ParseInt(field[2..]);
      if n.None? {
        return Malformed;
      }
      if n.value == 0 {
        return DivByZero;
      }
      return if value % n.value == 0 then Yes else No;
    }
    var values: set<int> := {};
    var parts := SplitCommas(field);
    for i := 0 to |parts|
      invariant forall j :: 0 <= j < i ==> ParseItem(parts[j]).Some?
      invariant value in values <==> exists j :: 0 <= j < i && Picks(ParseItem(parts[j]).value, value)
    {
      var item := ParseItem(parts[i]);
      match item {
        case None => return Malformed;
        case Some(Range(lo, hi)) => values := values + Span(lo, hi + 1);
        case Some(One(n)) => values := values + {n};
      }
    }
    v := if value in values then Yes else No;
  }

  method MatchesMinute(parts: seq<string>, c: Civil) returns (v: Verdict)
    requires |parts| == 5
    ensures v == JudgeAt(Crontab(parts[0], parts[1], parts[2], parts[3], parts[4]), c)
  {
    v := Matches(parts[0], c.minute);
    if v == Yes { v := Matches(parts[1], c.hour); }
    if v == Yes { v := Matches(parts[2], c.day); }
    if v == Yes { v := Matches(parts[3], c.month); }
    if v == Yes { v := Matches(parts[4], SundayFirst(c.weekday)); }
  }

  method ParseCronNext(expr: string, pivot: int, cal: Calendar) returns (next: Next)
    ensures next == NextFire(expr, cal, pivot)
  {
    var parts := Words(Text.Strip(expr));
    if |parts| != 5 {
      return Never;
    }
    ghost var tab := ParseCrontab(expr).value;
    var candidate := pivot;
    for i := 0 to HORIZON
      invariant candidate == pivot + i
      invariant Search(tab, cal, candidate, HORIZON - i) == NextFire(expr, cal, pivot)
    {
      candidate := candidate + 1;
      var v := MatchesMinute(parts, cal(candidate));
      match v {
        case Yes => return At(candidate);
        case Malformed => return Never;
        case DivByZero => return Raised;
        case No =>
      }
    }
    next := Never;
  }
}
