/** The in-memory puddle: expiring deltas, an unobservable reaper, and bounded subscriber queues. */
module Puddle {
  import opened Sequences

  /** A delta without an expiry, or with one that does not parse, never expires; a timestamp may not parse either. */
  datatype Delta = Delta(id: string, tags: set<string>, ts: Option<int>, expires: Option<int>, sortKey: int)

  datatype Order = Descending | Ascending

  datatype Query = Query(tagsInclude: set<string>, tagsExclude: set<string>, start: Option<int>, end: Option<int>,
                         order: Order, limit: int)

  predicate Expired(d: Delta, now: int) { d.expires.Some? && d.expires.value <= now }

  function Alive(now: int): Delta -> bool { (d: Delta) => !Expired(d, now) }

  predicate InWindow(d: Delta, q: Query) {
    (q.start.Some? || q.end.Some?) ==>
      && d.ts.Some?
      && (q.start.Some? ==> d.ts.value >= q.start.value)
      && (q.end.Some? ==> d.ts.value <= q.end.value)
  }

  function Selected(q: Query, now: int): Delta -> bool {
    (d: Delta) => !Expired(d, now) && q.tagsInclude <= d.tags && q.tagsExclude !! d.tags && InWindow(d, q)
  }

  function SortKey(order: Order): Delta -> int {
    (d: Delta) => if order == Descending then 0 - d.sortKey else d.sortKey
  }

  /** `out[:limit]`, where a negative limit counts from the end. */
  function Head(out: seq<Delta>, limit: int): seq<Delta> {
    if limit >= 0 then (if |out| <= limit then out else out[..limit])
    else if |out| + limit <= 0 then [] else out[..|out| + limit]
  }

  /** What a query returns for the deltas of the store. */
  function Answer(deltas: seq<Delta>, q: Query, now: int): seq<Delta> {
    Head(Sort(SortKey(q.order), Filter(Selected(q, now), deltas)), q.limit)
  }

  /** What a lookup by id returns: the first delta with the id, unless it has expired. */
  function Lookup(deltas: seq<Delta>, id: string, now: int): Option<Delta> {
    if deltas == [] then None
    else if deltas[0].id == id then (if Expired(deltas[0], now) then None else Some(deltas[0]))
    else Lookup(deltas[1..], id, now)
  }

  // ---- A subscriber's queue ----

  function LastOf(items: seq<Delta>, maxsize: nat): seq<Delta> {
    if maxsize == 0 || |items| <= maxsize then items else items[|items| - maxsize..]
  }

  /** Appending to a full queue drops its oldest item. */
  lemma LastOfAppend(items: seq<Delta>, d: Delta, maxsize: nat)
    ensures var last := LastOf(items, maxsize);
      LastOf(items + [d], maxsize) == (if maxsize > 0 && |last| >= maxsize then last[1..] else last) + [d]
  {
  }

  /** A bounded queue; a maximum size of zero means unbounded. */
  class Subscription {
    const maxsize: nat
    var items: seq<Delta>
    /** Everything written since the subscription. */
    ghost var written: seq<Delta>
    /** Everything before this position of `written` was delivered, or dropped before a later one was delivered. */
    ghost var passed: nat

    ghost predicate Valid()
      reads this
    {
      passed <= |written| && items == LastOf(written[passed..], maxsize)
    }

    constructor (maxsize: nat)
      ensures Valid() && this.maxsize == maxsize && items == [] && written == [] && passed == 0
    {
      this.maxsize := maxsize;
      items, written, passed := [], [], 0;
    }

    /** `put_nowait`, dropping the oldest item of a full queue first. */
    method Put(d: Delta)
      requires Valid()
      modifies this
      ensures Valid() && written == old(written) + [d] && passed == old(passed)
    {
      LastOfAppend(written[passed..], d, maxsize);
      assert (written + [d])[passed..] == written[passed..] + [d];
      if maxsize > 0 && |items| >= maxsize {
        items := items[1..];
      }
      items := items + [d];
      written := written + [d];
    }

    /** Delivers the oldest item. Deliveries follow the order of writing and never repeat one. */
    method Take() returns (d: Option<Delta>)
      requires Valid()
      modifies this
      ensures Valid() && written == old(written) && old(passed) <= passed
      ensures d.None? <==> old(passed) == |written|
      ensures d.None? ==> passed == old(passed)
      ensures d.Some? ==> old(passed) < passed && d.value == written[passed - 1]
      ensures d.Some? && (maxsize == 0 || |written| - old(passed) <= maxsize) ==> passed == old(passed) + 1
    {
      if items == [] {
        return None;
      }
      d := Some(items[0]);
      ghost var skipped := |written| - passed - |items|;
      assert items == written[passed + skipped..];
      items := items[1..];
      passed := passed + skipped + 1;
      assert items == written[passed..];
    }
  }

  // ---- The store ----

  class PuddleStore {
    var deltas: seq<Delta>
    var subscribers: seq<Subscription>

    ghost predicate Valid()
      reads this, subscribers
    {
      && (forall i :: 0 <= i < |subscribers| ==> subscribers[i].Valid())
      && (forall i, j :: 0 <= i < j < |subscribers| ==> subscribers[i] != subscribers[j])
    }

    constructor ()
      ensures Valid() && deltas == [] && subscribers == []
    {
      deltas, subscribers := [], [];
    }

    /** A time to live counts from now unless an expiry is given. */
    method Write(id: string, tags: set<string>, ts: Option<int>, ttl: Option<int>, expiresAt: Option<int>, now: int)
      returns (d: Delta)
      requires Valid()
      modifies this, subscribers
      ensures Valid() && subscribers == old(subscribers)
      ensures d.id == id && d.tags == tags && d.ts == Some(d.sortKey)
      ensures d.sortKey == if ts.Some? then ts.value else now
      ensures d.expires == if expiresAt.Some? then expiresAt else if ttl.Some? then Some(now + ttl.value) else None
      ensures deltas == old(deltas) + [d]
      ensures forall s :: s in subscribers ==> s.written == old(s.written) + [d] && s.passed == old(s.passed)
    {
      var expires := expiresAt;
      if ttl.Some? && expiresAt.None? {
        expires := Some(now + ttl.value);
      }
      var stamp := if ts.Some? then ts.value else now;
      d := Delta(id, tags, Some(stamp), expires, stamp);
      deltas := deltas + [d];
      FanOut(d);
    }

    /** Puts the delta into every subscriber's queue. */
    method FanOut(d: Delta)
      requires Valid()
      modifies subscribers
      ensures Valid()
      ensures forall s :: s in subscribers ==> s.written == old(s.written) + [d] && s.passed == old(s.passed)
    {
      for i := 0 to |subscribers|
        invariant Valid()
        invariant forall j :: 0 <= j < i ==>
          && subscribers[j].written == old(subscribers[j].written) + [d]
          && subscribers[j].passed == old(subscribers[j].passed)
        invariant forall j :: i <= j < |subscribers| ==>
          subscribers[j].written == old(subscribers[j].written) && subscribers[j].passed == old(subscribers[j].passed)
      {
        assert forall j :: 0 <= j < |subscribers| && j != i ==> subscribers[j] != subscribers[i];
        subscribers[i].Put(d);
      }
    }

    method Subscribe(maxsize: nat) returns (s: Subscription)
      requires Valid()
      modifies this
      ensures Valid() && fresh(s) && s.maxsize == maxsize && s.written == [] && s.passed == 0
      ensures subscribers == old(subscribers) + [s] && deltas == old(deltas)
    {
      s := new Subscription(maxsize);
      subscribers := subscribers + [s];
    }

    method RunQuery(q: Query, now: int) returns (out: seq<Delta>)
      ensures out == Answer(deltas, q, now)
    {
      var kept: seq<Delta> := [];
      for i := 0 to |deltas|
        invariant kept == Filter(Selected(q, now), deltas[..i])
      {
        assert deltas[..i + 1][..i] == deltas[..i];
        var d := deltas[i];
        if d.expires.Some? && d.expires.value <= now {
          continue;
        }
        if !(q.tagsInclude <= d.tags) {
          continue;
        }
        if !(q.tagsExclude !! d.tags) {
          continue;
        }
        if q.start.Some? || q.end.Some? {
          if d.ts.None? {
            continue;
          }
          if q.start.Some? && d.ts.value < q.start.value {
            continue;
          }
          if q.end.Some? && d.ts.value > q.end.value {
            continue;
          }
        }
        kept := kept + [d];
      }
      assert deltas[..|deltas|] == deltas;
      out := Head(Sort(SortKey(q.order), kept), q.limit);
    }

    method Get(id: string, now: int) returns (found: Option<Delta>)
      ensures found == Lookup(deltas, id, now)
    {
      for i := 0 to |deltas|
        invariant Lookup(deltas[i..], id, now) == Lookup(deltas, id, now)
      {
        assert deltas[i..][1..] == deltas[i + 1..];
        if deltas[i].id != id {
          continue;
        }
        return if Expired(deltas[i], now) then None else Some(deltas[i]);
      }
      found := None;
    }

    method Reap(now: int) returns (reaped: nat)
      requires Valid()
      modifies this`deltas
      ensures Valid() && deltas == Filter(Alive(now), old(deltas)) && reaped == |old(deltas)| - |deltas|
    {
      var before := |deltas|;
      deltas := Filter(Alive(now), deltas);
      reaped := before - |deltas|;
    }
  }

  /** A lookup sees the first delta written under the id: none once that one has expired, whatever follows it. */
  lemma {:induction false} LookupIsFirst(deltas: seq<Delta>, id: string, now: int, k: nat)
    requires k <= |deltas| && (forall j :: 0 <= j < k ==> deltas[j].id != id) && (k < |deltas| ==> deltas[k].id == id)
    ensures Lookup(deltas, id, now) ==
      if k < |deltas| && (deltas[k].expires.Some? ==> now < deltas[k].expires.value) then Some(deltas[k]) else None
    decreases k
  {
    if k > 0 { LookupIsFirst(deltas[1..], id, now, k - 1); }
  }

  // ---- What an answer means ----

  /** An answer holds selected deltas only, in order, as many as the limit allows, and leaves out none that sorts
      before one it holds. */
  lemma AnswerMeaning(deltas: seq<Delta>, q: Query, now: int)
    requires q.limit >= 0
    ensures var out, key := Answer(deltas, q, now), SortKey(q.order);
      && (forall d :: d in out ==> d in deltas && Selected(q, now)(d))
      && SortedBy(key, out)
      && (|out| < q.limit ==> forall d :: d in deltas && Selected(q, now)(d) ==> d in out)
      && (forall d, e :: d in deltas && Selected(q, now)(d) && d !in out && e in out ==> key(e) <= key(d))
  {
    var key, kept := SortKey(q.order), Filter(Selected(q, now), deltas);
    var sorted := Sort(key, kept);
    var out := Answer(deltas, q, now);
    SortMembers(key, kept);
    assert out <= sorted;
    forall d | d in out ensures d in sorted {
      var i :| 0 <= i < |out| && out[i] == d;
      assert sorted[i] == d;
    }
    forall i, j | 0 <= i < j < |out| ensures key(out[i]) <= key(out[j]) {
      assert key(sorted[i]) <= key(sorted[j]);
    }
    forall d, e | d in sorted && d !in out && e in out ensures key(e) <= key(d) {
      CutAfter(key, sorted, out, d, e);
    }
  }

  /** The delta is alive, carries every tag asked for and none excluded, and its timestamp lies in the window, ends
      included; without a window a timestamp that does not parse does no harm. */
  predicate Asked(d: Delta, q: Query, now: int) {
    && (d.expires.Some? ==> now < d.expires.value)
    && (forall t :: t in q.tagsInclude ==> t in d.tags) && (forall t :: t in q.tagsExclude ==> t !in d.tags)
    && (q.start.Some? || q.end.Some? ==> d.ts.Some?)
    && (q.start.Some? && d.ts.Some? ==> q.start.value <= d.ts.value)
    && (q.end.Some? && d.ts.Some? ==> d.ts.value <= q.end.value)
  }

  lemma {:induction false} CountAsked(deltas: seq<Delta>, q: Query, now: int)
    ensures |Filter(Selected(q, now), deltas)| == |Filter((d: Delta) => Asked(d, q, now), deltas)|
    decreases |deltas|
  {
    if deltas != [] {
      CountAsked(deltas[..|deltas| - 1], q, now);
      assert Selected(q, now)(deltas[|deltas| - 1]) <==> Asked(deltas[|deltas| - 1], q, now);
    }
  }

  /** An answer holds what was asked for, newest first or oldest first, as much of it as the limit allows, a negative
      limit withholding that many; nothing newer, or older, is left out than what it holds. */
  lemma AnswerInOrder(deltas: seq<Delta>, q: Query, now: int)
    ensures var out, n := Answer(deltas, q, now), |Filter((d: Delta) => Asked(d, q, now), deltas)|;
      && (forall d :: d in out ==> d in deltas && Asked(d, q, now))
      && (forall i, j :: 0 <= i < j < |out| ==>
            if q.order == Descending then out[i].sortKey >= out[j].sortKey else out[i].sortKey <= out[j].sortKey)
      && |out| == (if 0 <= q.limit <= n then q.limit else if q.limit >= 0 then n
                   else if n + q.limit > 0 then n + q.limit else 0)
      && (|out| == n ==> forall d :: d in deltas && Asked(d, q, now) ==> d in out)
      && (forall d, e :: d in deltas && Asked(d, q, now) && d !in out && e in out ==>
            if q.order == Descending then d.sortKey <= e.sortKey else e.sortKey <= d.sortKey)
  {
    var key, kept := SortKey(q.order), Filter(Selected(q, now), deltas);
    var sorted, out := Sort(key, kept), Answer(deltas, q, now);
    assert forall d :: Selected(q, now)(d) <==> Asked(d, q, now);
    SortMembers(key, kept);
    CountAsked(deltas, q, now);
    HeadIsPrefix(sorted, q.limit);
    PrefixInOrder(q.order, sorted, out);
    forall d | d in out ensures d in sorted { PrefixMember(out, sorted, d); }
    forall d, e | d in sorted && d !in out && e in out ensures key(e) <= key(d) { CutAfter(key, sorted, out, d, e); }
  }

  lemma HeadIsPrefix(s: seq<Delta>, limit: int)
    ensures Head(s, limit) <= s
    ensures |Head(s, limit)|
      == if 0 <= limit <= |s| then limit else if limit >= 0 then |s| else if |s| + limit > 0 then |s| + limit else 0
  {
  }

  lemma PrefixInOrder(order: Order, sorted: seq<Delta>, out: seq<Delta>)
    requires SortedBy(SortKey(order), sorted) && out <= sorted
    ensures forall i, j :: 0 <= i < j < |out| ==>
      if order == Descending then out[i].sortKey >= out[j].sortKey else out[i].sortKey <= out[j].sortKey
  {
    forall i, j | 0 <= i < j < |out|
      ensures if order == Descending then out[i].sortKey >= out[j].sortKey else out[i].sortKey <= out[j].sortKey
    {
      assert SortKey(order)(sorted[i]) <= SortKey(order)(sorted[j]);
    }
  }

  lemma PrefixMember(a: seq<Delta>, b: seq<Delta>, d: Delta)
    requires a <= b && d in a
    ensures d in b
  {
    var i :| 0 <= i < |a| && a[i] == d;
    assert b[i] == d;
  }

  lemma CutAfter(key: Delta -> int, sorted: seq<Delta>, out: seq<Delta>, d: Delta, e: Delta)
    requires SortedBy(key, sorted) && out <= sorted && d in sorted && d !in out && e in out
    ensures key(e) <= key(d)
  {
    var i :| 0 <= i < |out| && out[i] == e;
    var j :| 0 <= j < |sorted| && sorted[j] == d;
    forall k | 0 <= k < |out| ensures sorted[k] != d { assert out[k] in out; }
    assert j >= |out|;
    assert sorted[i] == e;
  }

  // ---- Runs of writes and reaps ----

  datatype Op = Write(d: Delta) | Reap(now: int)

  /** The deltas held after the operations. */
  function Run(ops: seq<Op>): seq<Delta> {
    if ops == [] then []
    else
      var before := Run(ops[..|ops| - 1]);
      match ops[|ops| - 1]
      case Write(d) => before + [d]
      case Reap(now) => Filter(Alive(now), before)
  }

  function IsWrite(): Op -> bool { (op: Op) => op.Write? }

  /** Every reap's clock reading is at most `now`. */
  ghost predicate ReapedBy(ops: seq<Op>, now: int) { forall op :: op in ops && op.Reap? ==> op.now <= now }

  /** What is alive at a time no earlier than the reaps is what would be alive without them. */
  lemma {:induction false} AliveSurvive(ops: seq<Op>, now: int)
    requires ReapedBy(ops, now)
    ensures Filter(Alive(now), Run(ops)) == Filter(Alive(now), Run(Filter(IsWrite(), ops)))
    decreases |ops|
  {
    if ops != [] {
      var init, last := ops[..|ops| - 1], ops[|ops| - 1];
      AliveSurvive(init, now);
      assert last in ops;
      match last
      case Write(d) =>
        var writes := Filter(IsWrite(), init);
        assert (writes + [last])[..|writes|] == writes;
        FilterConcat(Alive(now), Run(init), [d]);
        FilterConcat(Alive(now), Run(writes), [d]);
      case Reap(at) => FilterAbsorbs(Alive(at), Alive(now), Run(init));
    }
  }

  /** Reaping is invisible to queries: each returns what it would have returned had nothing ever been reaped. */
  lemma ReapInvisibleToQuery(ops: seq<Op>, q: Query, now: int)
    requires ReapedBy(ops, now)
    ensures Answer(Run(ops), q, now) == Answer(Run(Filter(IsWrite(), ops)), q, now)
  {
    AliveSurvive(ops, now);
    FilterAbsorbs(Alive(now), Selected(q, now), Run(ops));
    FilterAbsorbs(Alive(now), Selected(q, now), Run(Filter(IsWrite(), ops)));
  }

  ghost predicate UniqueIds(deltas: seq<Delta>) {
    forall i, j :: 0 <= i < j < |deltas| ==> deltas[i].id != deltas[j].id
  }

  /** With unique ids a lookup sees only what is alive. */
  lemma {:induction false} LookupIsAlive(deltas: seq<Delta>, id: string, now: int)
    requires UniqueIds(deltas)
    ensures var found := Lookup(deltas, id, now);
      && (found.Some? ==> found.value in Filter(Alive(now), deltas) && found.value.id == id)
      && (found.None? ==> forall d :: d in Filter(Alive(now), deltas) ==> d.id != id)
    decreases |deltas|
  {
    if deltas != [] {
      var rest := deltas[1..];
      assert forall d :: d in deltas <==> d == deltas[0] || d in rest;
      if deltas[0].id == id {
        forall d | d in rest ensures d.id != id {
          var j :| 0 <= j < |rest| && rest[j] == d;
          assert deltas[j + 1] == d;
        }
      } else {
        LookupIsAlive(rest, id, now);
      }
    }
  }

  lemma {:induction false} RunMembers(ops: seq<Op>)
    ensures forall d :: d in Run(ops) ==> d in Run(Filter(IsWrite(), ops))
    decreases |ops|
  {
    if ops != [] {
      var init, last := ops[..|ops| - 1], ops[|ops| - 1];
      RunMembers(init);
      var writes := Filter(IsWrite(), init);
      assert (writes + [last])[..|writes|] == writes;
    }
  }

  lemma {:induction false} RunUnique(ops: seq<Op>)
    requires UniqueIds(Run(Filter(IsWrite(), ops)))
    ensures UniqueIds(Run(ops))
    decreases |ops|
  {
    if ops != [] {
      var init, last := ops[..|ops| - 1], ops[|ops| - 1];
      var writes := Filter(IsWrite(), init);
      match last
      case Write(d) =>
        assert (writes + [last])[..|writes|] == writes;
        var all := Run(writes) + [d];
        assert all[..|all| - 1] == Run(writes);
        UniquePrefix(Run(writes), d);
        RunUnique(init);
        RunMembers(init);
        UniqueAppend(Run(init), d);
      case Reap(at) =>
        RunUnique(init);
        FilterUnique(Alive(at), Run(init));
    }
  }

  lemma UniquePrefix(deltas: seq<Delta>, d: Delta)
    requires UniqueIds(deltas + [d])
    ensures UniqueIds(deltas) && forall e :: e in deltas ==> e.id != d.id
  {
    var all := deltas + [d];
    forall i, j | 0 <= i < j < |deltas| ensures deltas[i].id != deltas[j].id { assert all[i].id != all[j].id; }
    forall e | e in deltas ensures e.id != d.id {
      var i :| 0 <= i < |deltas| && deltas[i] == e;
      assert all[i].id != all[|deltas|].id;
    }
  }

  lemma UniqueAppend(deltas: seq<Delta>, d: Delta)
    requires UniqueIds(deltas) && forall e :: e in deltas ==> e.id != d.id
    ensures UniqueIds(deltas + [d])
  {
  }

  lemma {:induction false} FilterUnique(p: Delta -> bool, deltas: seq<Delta>)
    requires UniqueIds(deltas)
    ensures UniqueIds(Filter(p, deltas))
    decreases |deltas|
  {
    if deltas != [] {
      var init, last := deltas[..|deltas| - 1], deltas[|deltas| - 1];
      assert deltas == init + [last];
      UniquePrefix(init, last);
      FilterUnique(p, init);
      if p(last) { UniqueAppend(Filter(p, init), last); }
    }
  }

  /** Reaping is invisible to lookups by id, ids being unique. */
  lemma ReapInvisibleToGet(ops: seq<Op>, id: string, now: int)
    requires ReapedBy(ops, now) && UniqueIds(Run(Filter(IsWrite(), ops)))
    ensures Lookup(Run(ops), id, now) == Lookup(Run(Filter(IsWrite(), ops)), id, now)
  {
    var writes := Filter(IsWrite(), ops);
    AliveSurvive(ops, now);
    RunUnique(ops);
    LookupIsAlive(Run(ops), id, now);
    LookupIsAlive(Run(writes), id, now);
    var a, b := Lookup(Run(ops), id, now), Lookup(Run(writes), id, now);
    if a.Some? && b.Some? { SameIdSameDelta(Run(writes), a.value, b.value); }
  }

  lemma SameIdSameDelta(deltas: seq<Delta>, a: Delta, b: Delta)
    requires UniqueIds(deltas) && a in deltas && b in deltas && a.id == b.id
    ensures a == b
  {
    var i :| 0 <= i < |deltas| && deltas[i] == a;
    var j :| 0 <= j < |deltas| && deltas[j] == b;
    assert i == j;
  }

  /** One reap at `at` hides something that is alive at `now` exactly when some delta expires after `now` and by `at`:
      never, when the clock does not run backwards. */
  lemma {:induction false} ReapHidesIff(deltas: seq<Delta>, at: int, now: int)
    ensures Filter(Alive(now), Filter(Alive(at), deltas)) == Filter(Alive(now), deltas)
      <==> forall d :: d in deltas ==> !(d.expires.Some? && now < d.expires.value <= at)
    decreases |deltas|
  {
    if forall d :: d in deltas ==> !(d.expires.Some? && now < d.expires.value <= at) {
      FilterAbsorbs(Alive(at), Alive(now), deltas);
    } else {
      var d :| d in deltas && d.expires.Some? && now < d.expires.value <= at;
      assert d in Filter(Alive(now), deltas) && d !in Filter(Alive(now), Filter(Alive(at), deltas));
    }
  }
}
