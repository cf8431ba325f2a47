/** The rolling window over the global thread and the messages in it that nobody has addressed. */
module Thread {
  import opened Sequences
  import Text

  const WINDOW: nat := 15
  const MESSAGE_OVERHEAD: nat := 20

  /** A thread message or tally mark; `size` is the length of its content. */
  datatype Row = Row(id: string, ts: int, tags: seq<string>, size: nat)

  function Ts(): Row -> int { (r: Row) => r.ts }

  /** About four characters a token, plus a fixed cost per message. */
  function Tokens(rows: seq<Row>): nat {
    if rows == [] then 0 else (rows[0].size + 3) / 4 + MESSAGE_OVERHEAD + Tokens(rows[1..])
  }

  /** `rows[-limit:]`, which keeps everything when `limit` is zero and drops from the front when it is negative. */
  function LastRows(rows: seq<Row>, limit: int): seq<Row> {
    if limit > 0 then if |rows| <= limit then rows else rows[|rows| - limit..]
    else if -limit <= |rows| then rows[-limit..] else []
  }

  ghost predicate IsSuffix(a: seq<Row>, b: seq<Row>) { |a| <= |b| && a == b[|b| - |a|..] }

  /** `r` is the longest suffix of `rows` that has at most one row or fits the budget. */
  ghost predicate LongestFitting(rows: seq<Row>, maxTokens: int, r: seq<Row>) {
    && IsSuffix(r, rows) && (rows != [] ==> r != [])
    && (|r| <= 1 || Tokens(r) <= maxTokens)
    && forall m :: 0 <= m < |rows| - |r| ==> |rows[m..]| > 1 && Tokens(rows[m..]) > maxTokens
  }

  /** What `Tail` may return, without a token budget or with one. */
  ghost predicate IsTail(rows: seq<Row>, limit: int, maxTokens: Option<int>, r: seq<Row>) {
    var window := LastRows(Sort(Ts(), rows), limit);
    if maxTokens.None? then r == window else LongestFitting(window, maxTokens.value, r)
  }

  /** Oldest first, the last `limit` messages, trimmed from the head to the token budget. */
  method Tail(rows: seq<Row>, limit: int, maxTokens: Option<int>) returns (r: seq<Row>)
    ensures IsTail(rows, limit, maxTokens, r)
  {
    r := LastRows(Sort(Ts(), rows), limit);
    if maxTokens.Some? {
      r := TrimToBudget(r, maxTokens.value);
    }
  }

  method TrimToBudget(rows: seq<Row>, maxTokens: int) returns (r: seq<Row>)
    ensures LongestFitting(rows, maxTokens, r)
  {
    r := rows;
    ghost var k := 0;
    while |r| > 1 && Tokens(r) > maxTokens
      invariant 0 <= k <= |rows| && r == rows[k..] && (rows != [] ==> r != [])
      invariant forall m :: 0 <= m < k ==> |rows[m..]| > 1 && Tokens(rows[m..]) > maxTokens
    {
      r := r[1..];
      k := k + 1;
    }
  }

  lemma {:induction false} TokensAdd(a: seq<Row>, b: seq<Row>)
    ensures Tokens(a + b) == Tokens(a) + Tokens(b)
    decreases |a|
  {
    if a == [] {
      assert a + b == b;
    } else {
      assert (a + b)[1..] == a[1..] + b;
      TokensAdd(a[1..], b);
    }
  }

  /** A message costs twenty tokens and one for every four characters begun. */
  lemma MessageCosts(rows: seq<Row>, r: Row)
    ensures var cost := Tokens(rows + [r]) - Tokens(rows) - 20;
      r.size <= 4 * cost < r.size + 4
  {
    TokensAdd(rows, [r]);
    assert Tokens([r][1..]) == 0;
  }

  function Role(r: Row): string { Text.TagValue(r.tags, "role:") }

  /** The ids that some tally mark covers. */
  function AddressedIds(marks: seq<Row>): set<string> {
    set m, t | m in marks && t in m.tags && Text.StartsWith(t, "addresses:") :: t[10..]
  }

  /** An id is addressed exactly when some mark carries its tag. */
  lemma AddressedIff(marks: seq<Row>, id: string)
    ensures id in AddressedIds(marks) <==> exists m :: m in marks && "addresses:" + id in m.tags
  {
    var tag := "addresses:" + id;
    assert tag[..10] == "addresses:" && tag[10..] == id;
    if id in AddressedIds(marks) {
      var m, t :| m in marks && t in m.tags && Text.StartsWith(t, "addresses:") && t[10..] == id;
      assert t == t[..10] + t[10..] == tag;
    }
  }

  predicate IsPending(addressed: set<string>, r: Row) { Role(r) == "user" && r.id !in addressed }

  function PendingOf(marks: seq<Row>, rows: seq<Row>): seq<Row> {
    Filter((r: Row) => IsPending(AddressedIds(marks), r), rows)
  }

  lemma {:induction false} FilterTwice(p: Row -> bool, q: Row -> bool, both: Row -> bool, rows: seq<Row>)
    requires forall r :: both(r) <==> p(r) && q(r)
    ensures Filter(q, Filter(p, rows)) == Filter(both, rows)
    decreases |rows|
  {
    if rows != [] {
      var init, last := rows[..|rows| - 1], rows[|rows| - 1];
      FilterTwice(p, q, both, init);
      if p(last) { FilterConcat(q, Filter(p, init), [last]); }
    }
  }

  method GatherAddressed(marks: seq<Row>) returns (addressed: set<string>)
    ensures addressed == AddressedIds(marks)
  {
    addressed := {};
    for i := 0 to |marks|
      invariant addressed == AddressedIds(marks[..i])
    {
      var tags := marks[i].tags;
      ghost var before := addressed;
      for j := 0 to |tags|
        invariant addressed == before + set t | t in tags[..j] && Text.StartsWith(t, "addresses:") :: t[10..]
      {
        assert tags[..j + 1] == tags[..j] + [tags[j]];
        if Text.StartsWith(tags[j], "addresses:") {
          addressed := addressed + {tags[j][10..]};
        }
      }
      assert tags[..|tags|] == tags;
      MarksStep(marks[..i], marks[i]);
      assert marks[..i + 1] == marks[..i] + [marks[i]];
    }
    assert marks[..|marks|] == marks;
  }

  /** The unaddressed user messages among the rows, oldest first. */
  method Unaddressed(rows: seq<Row>, marks: seq<Row>) returns (pending: seq<Row>)
    ensures pending == PendingOf(marks, rows)
  {
    var isUser := (r: Row) => Role(r) == "user";
    var users := Filter(isUser, rows);
    ghost var all := AddressedIds(marks);
    FilterTwice(isUser, (r: Row) => r.id !in all, (r: Row) => IsPending(all, r), rows);
    if users == [] {
      return [];
    }
    var addressed := GatherAddressed(marks);
    pending := Filter((r: Row) => r.id !in addressed, users);
  }

  lemma MarksStep(marks: seq<Row>, m: Row)
    ensures AddressedIds(marks + [m])
      == AddressedIds(marks) + set t | t in m.tags && Text.StartsWith(t, "addresses:") :: t[10..]
  {
  }

  /** The rolling window as the supervisor reads it: its messages and the pending ones. */
  method BuildWindow(rows: seq<Row>, marks: seq<Row>, maxMessages: nat, maxTokens: Option<int>)
    returns (messages: seq<Row>, pending: seq<Row>)
    ensures IsTail(rows, maxMessages, maxTokens, messages)
    ensures pending == PendingOf(marks, messages)
    ensures maxMessages > 0 ==> |pending| <= |messages| <= maxMessages
  {
    messages := Tail(rows, maxMessages, maxTokens);
    pending := Unaddressed(messages, marks);
  }

  /** The tail respects its message limit exactly when the limit is positive, or zero and nothing was read; a negative
      limit drops that many of the oldest messages instead. */
  lemma TailLimitIff(rows: seq<Row>, limit: int)
    ensures |LastRows(Sort(Ts(), rows), limit)| <= limit <==> limit > 0 || (limit == 0 && rows == [])
    ensures limit < 0 ==>
      LastRows(Sort(Ts(), rows), limit) == if -limit <= |rows| then Sort(Ts(), rows)[-limit..] else []
  {
  }

  lemma SuffixOfSuffix(a: seq<Row>, b: seq<Row>, c: seq<Row>)
    requires IsSuffix(a, b) && IsSuffix(b, c)
    ensures IsSuffix(a, c)
  {
    var i, j := |c| - |b|, |b| - |a|;
    assert c[i..][j..] == c[i + j..];
  }

  lemma LastRowsSuffix(all: seq<Row>, limit: int)
    ensures IsSuffix(LastRows(all, limit), all)
  {
  }

  lemma TailIsSuffix(rows: seq<Row>, limit: int, maxTokens: Option<int>, r: seq<Row>)
    requires IsTail(rows, limit, maxTokens, r)
    ensures IsSuffix(r, Sort(Ts(), rows))
  {
    LastRowsSuffix(Sort(Ts(), rows), limit);
    if maxTokens.Some? { SuffixOfSuffix(r, LastRows(Sort(Ts(), rows), limit), Sort(Ts(), rows)); }
  }

  ghost predicate InOrder(rows: seq<Row>) { forall i, j :: 0 <= i < j < |rows| ==> rows[i].ts <= rows[j].ts }

  lemma OrderedParts(all: seq<Row>, cut: seq<Row>, r: seq<Row>)
    requires all == cut + r && InOrder(all)
    ensures InOrder(r) && forall x, y :: x in cut && y in r ==> x.ts <= y.ts
  {
    forall i, j | 0 <= i < j < |r| ensures r[i].ts <= r[j].ts {
      assert r[i] == all[|cut| + i] && r[j] == all[|cut| + j];
    }
    forall x, y | x in cut && y in r ensures x.ts <= y.ts {
      var i :| 0 <= i < |cut| && cut[i] == x;
      var j :| 0 <= j < |r| && r[j] == y;
      assert all[i] == x && all[|cut| + j] == y;
    }
  }

  lemma SortedInOrder(rows: seq<Row>)
    ensures InOrder(Sort(Ts(), rows))
  {
    var all := Sort(Ts(), rows);
    forall i, j | 0 <= i < j < |all| ensures all[i].ts <= all[j].ts { assert Ts()(all[i]) <= Ts()(all[j]); }
  }

  /** Whatever the limit and the budget, the rows read are those left out and then the tail: the tail is in the order of
      its times and no row left out is newer than one it holds; with a positive limit and no budget it holds as many
      rows as the limit allows. */
  lemma TailKeepsNewest(rows: seq<Row>, limit: int, maxTokens: Option<int>, r: seq<Row>) returns (cut: seq<Row>)
    requires IsTail(rows, limit, maxTokens, r)
    ensures multiset(rows) == multiset(cut) + multiset(r)
    ensures InOrder(r) && forall x, y :: x in cut && y in r ==> x.ts <= y.ts
    ensures limit > 0 && maxTokens.None? ==> |r| == if |rows| <= limit then |rows| else limit
  {
    var all := Sort(Ts(), rows);
    TailIsSuffix(rows, limit, maxTokens, r);
    cut := all[..|all| - |r|];
    assert all == cut + r;
    SortedInOrder(rows);
    OrderedParts(all, cut, r);
  }

  /** Exactly the rows whose first role tag says user and whose id no mark addresses are pending, in their order. */
  lemma PendingIff(marks: seq<Row>, rows: seq<Row>, r: Row)
    ensures r in PendingOf(marks, rows) <==>
      && r in rows && Text.TagValue(r.tags, "role:") == "user"
      && !exists m :: m in marks && "addresses:" + r.id in m.tags
  {
    AddressedIff(marks, r.id);
  }

  // ---- Every pending count up to the window size occurs ----

  function UserRow(k: nat): Row { Row("", k, ["role:user"], 0) }

  /** A thread of `n` user messages. */
  function UserRows(n: nat): seq<Row> {
    if n == 0 then [] else UserRows(n - 1) + [UserRow(n - 1)]
  }

  lemma {:induction false} FilterAll(p: Row -> bool, rows: seq<Row>)
    requires forall r :: r in rows ==> p(r)
    ensures Filter(p, rows) == rows
    decreases |rows|
  {
    if rows != [] { FilterAll(p, rows[..|rows| - 1]); }
  }

  lemma {:induction false} UserRowsShape(n: nat)
    ensures |UserRows(n)| == n && forall r :: r in UserRows(n) ==> Role(r) == "user"
  {
    if n > 0 {
      UserRowsShape(n - 1);
      var tag := "role:user";
      assert tag[..5] == "role:" && tag[5..] == "user";
    }
  }

  /** A thread of `n` unaddressed user messages, `n` at most the window size, has `n` pending messages. */
  lemma AnyPendingCount(n: nat, messages: seq<Row>)
    requires n <= WINDOW && IsTail(UserRows(n), WINDOW, None, messages)
    ensures |PendingOf([], messages)| == n
  {
    UserRowsShape(n);
    SortMembers(Ts(), UserRows(n));
    FilterAll((r: Row) => IsPending(AddressedIds([]), r), messages);
  }
}
