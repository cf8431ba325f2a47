/** What the steps of a recall list, and what its two expansions ask the lake for. */
module SearchAsks {
  import opened Sequences
  import opened Walks
  import opened Ancestry
  import opened Search
  import opened SearchTotal
  import Text

  lemma {:induction false} IdsMember(deltas: seq<Delta>, x: string)
    ensures x in Ids(deltas) <==> x != "" && exists d :: d in deltas && d.id == x
    decreases |deltas|
  {
    if deltas != [] {
      IdsMember(deltas[..|deltas| - 1], x);
      assert forall d :: d in deltas <==> d in deltas[..|deltas| - 1] || d == deltas[|deltas| - 1];
    }
  }

  // ---- What one step lists ----

  /** An assistant turn of the chat itself. */
  predicate OwnTurn(d: Delta) {
    "assistant" in d.tags && ("fathom-chat" in d.tags || d.source == "fathom-chat")
  }

  /** Delta `i` is no turn of the chat itself, and is the first such delta with its id, if it has one, nor is that id
      seen already. */
  ghost predicate ListedAt(seen: set<string>, deltas: seq<Delta>, i: nat)
    requires i < |deltas|
  {
    && !OwnTurn(deltas[i])
    && (deltas[i].id != "" ==>
          deltas[i].id !in seen && forall j :: 0 <= j < i && !OwnTurn(deltas[j]) ==> deltas[j].id != deltas[i].id)
  }

  /** Delta `i` is the first with its id, which it has and which is not seen already. */
  ghost predicate AddedAt(seen: set<string>, deltas: seq<Delta>, i: nat)
    requires i < |deltas|
  {
    deltas[i].id != "" && deltas[i].id !in seen && forall j :: 0 <= j < i ==> deltas[j].id != deltas[i].id
  }

  /** `out` holds the deltas at the positions `at`, which ascend. */
  ghost predicate Picked(deltas: seq<Delta>, at: seq<nat>, out: seq<Delta>) {
    && |out| == |at|
    && (forall k :: 0 <= k < |at| ==> at[k] < |deltas| && out[k] == deltas[at[k]])
    && (forall k, l :: 0 <= k < l < |at| ==> at[k] < at[l])
  }

  lemma PickedMore(deltas: seq<Delta>, at: seq<nat>, out: seq<Delta>, d: Delta, took: bool)
    requires Picked(deltas, at, out)
    ensures Picked(deltas + [d], if took then at + [|deltas|] else at, if took then out + [d] else out)
  {
  }

  /** `at` holds the positions that `keeps` says. */
  ghost predicate Exactly(at: seq<nat>, keeps: nat -> bool, n: nat) {
    forall i: nat :: i in at <==> i < n && keeps(i)
  }

  lemma ExactlyMore(at: seq<nat>, keeps: nat -> bool, n: nat)
    requires Exactly(at, keeps, n)
    ensures Exactly(if keeps(n) then at + [n] else at, keeps, n + 1)
  {
    forall i: nat ensures i in (if keeps(n) then at + [n] else at) <==> i < n + 1 && keeps(i) {
      assert i in at + [n] <==> i in at || i == n;
    }
  }

  lemma ListedStays(seen: set<string>, init: seq<Delta>, last: Delta, i: nat)
    requires i < |init|
    ensures ListedAt(seen, init, i) <==> ListedAt(seen, init + [last], i)
  {
    assert forall j :: 0 <= j <= i ==> init[j] == (init + [last])[j];
  }

  lemma AddedStays(seen: set<string>, init: seq<Delta>, last: Delta, i: nat)
    requires i < |init|
    ensures AddedAt(seen, init, i) <==> AddedAt(seen, init + [last], i)
  {
    assert forall j :: 0 <= j <= i ==> init[j] == (init + [last])[j];
  }

  /** A step's listing is exactly its deltas at those positions, in their order. */
  lemma {:induction false} StepLists(seen: set<string>, deltas: seq<Delta>) returns (at: seq<nat>)
    ensures Picked(deltas, at, Deduped(seen, deltas))
    ensures forall i: nat :: i in at <==> i < |deltas| && ListedAt(seen, deltas, i)
    decreases |deltas|
  {
    at := [];
    if deltas != [] {
      var init, last := deltas[..|deltas| - 1], deltas[|deltas| - 1];
      at := StepLists(seen, init);
      assert deltas == init + [last];
      TookIff(seen, init, last);
      PickedMore(init, at, Deduped(seen, init), last, ListedAt(seen, deltas, |init|));
      forall i: nat | i < |init| ensures ListedAt(seen, init, i) <==> ListedAt(seen, deltas, i) {
        ListedStays(seen, init, last, i);
      }
      var keeps := (i: nat) => i < |deltas| && ListedAt(seen, deltas, i);
      ExactlyMore(at, keeps, |init|);
      at := if ListedAt(seen, deltas, |init|) then at + [|init|] else at;
      assert Exactly(at, keeps, |deltas|);
    }
  }

  lemma TookIff(seen: set<string>, init: seq<Delta>, last: Delta)
    ensures var kept := Deduped(seen, init);
      Deduped(seen, init + [last]) == if ListedAt(seen, init + [last], |init|) then kept + [last] else kept
  {
    var all := init + [last];
    assert all[..|init|] == init && all[|init|] == last;
    DedupedIds(seen, init);
    IdsMember(Visible(init), last.id);
    if d :| d in Visible(init) && d.id == last.id {
      var j :| 0 <= j < |init| && init[j] == d;
      assert all[j] == d && !OwnTurn(all[j]);
    }
    forall j | 0 <= j < |init| && !OwnTurn(all[j]) ensures all[j] in Visible(init) { assert all[j] == init[j]; }
  }

  /** An expansion lists exactly the fetched deltas at those positions, in their order. */
  lemma {:induction false} ExpansionLists(seen: set<string>, deltas: seq<Delta>) returns (at: seq<nat>)
    ensures Picked(deltas, at, Unseen(seen, deltas))
    ensures forall i: nat :: i in at <==> i < |deltas| && AddedAt(seen, deltas, i)
    decreases |deltas|
  {
    at := [];
    if deltas != [] {
      var init, last := deltas[..|deltas| - 1], deltas[|deltas| - 1];
      at := ExpansionLists(seen, init);
      assert deltas == init + [last];
      AddedIff(seen, init, last);
      PickedMore(init, at, Unseen(seen, init), last, AddedAt(seen, deltas, |init|));
      forall i: nat | i < |init| ensures AddedAt(seen, init, i) <==> AddedAt(seen, deltas, i) {
        AddedStays(seen, init, last, i);
      }
      var keeps := (i: nat) => i < |deltas| && AddedAt(seen, deltas, i);
      ExactlyMore(at, keeps, |init|);
      at := if AddedAt(seen, deltas, |init|) then at + [|init|] else at;
      assert Exactly(at, keeps, |deltas|);
    }
  }

  lemma AddedIff(seen: set<string>, init: seq<Delta>, last: Delta)
    ensures var kept := Unseen(seen, init);
      Unseen(seen, init + [last]) == if AddedAt(seen, init + [last], |init|) then kept + [last] else kept
  {
    var all := init + [last];
    assert all[..|init|] == init && all[|init|] == last;
    UnseenIds(seen, init);
    IdsMember(init, last.id);
    if d :| d in init && d.id == last.id {
      var j :| 0 <= j < |init| && init[j] == d;
      assert all[j] == d;
    }
    forall j | 0 <= j < |init| ensures all[j] in init { assert all[j] == init[j]; }
  }

  // ---- What the step down asks for ----

  lemma {:induction false} FirstSeenPrefix(seen: set<string>, a: seq<string>, b: seq<string>)
    ensures FirstSeen(seen, a) <= FirstSeen(seen, a + b)
    decreases |b|
  {
    if b == [] {
      assert a + b == a;
    } else {
      var init, last := b[..|b| - 1], b[|b| - 1];
      FirstSeenPrefix(seen, a, init);
      assert a + b == (a + init) + [last];
      FirstSeenAppend(seen, a + init, last);
    }
  }

  lemma RawRefsSnoc(a: seq<Delta>, init: seq<Delta>, last: Delta)
    requires RawRefs(a + init) == RawRefs(a) + RawRefs(init)
    ensures RawRefs((a + init) + [last]) == RawRefs(a) + RawRefs(init + [last])
  {
    RawRefsStep(a + init, last);
    RawRefsStep(init, last);
  }

  lemma {:induction false} RawRefsConcat(a: seq<Delta>, b: seq<Delta>)
    ensures RawRefs(a + b) == RawRefs(a) + RawRefs(b)
    decreases |b|
  {
    if b == [] {
      assert a + b == a;
    } else {
      var init, last := b[..|b| - 1], b[|b| - 1];
      RawRefsConcat(a, init);
      RawRefsSnoc(a, init, last);
      assert b == init + [last] && a + b == (a + init) + [last];
    }
  }

  /** The delta is a provenance or a sediment made from `id`. */
  ghost predicate MadeFrom(d: Delta, id: string) {
    ("kind:provenance" in d.tags || "kind:sediment" in d.tags) && Names(d.tags, id)
  }

  lemma {:induction false} RawRefsAre(deltas: seq<Delta>, id: string)
    ensures id in RawRefs(deltas) <==> exists d :: d in deltas && MadeFrom(d, id)
    decreases |deltas|
  {
    if deltas != [] {
      var init, last := deltas[..|deltas| - 1], deltas[|deltas| - 1];
      RawRefsAre(init, id);
      RefIffNamed(last.tags, id);
      assert last in deltas && forall d :: d in deltas <==> d in init || d == last;
      assert id in RawRefs(deltas) <==> id in RawRefs(init) || MadeFrom(last, id);
    }
  }

  lemma {:induction false} AllDeltasAre(steps: seq<Listing>, d: Delta)
    ensures d in AllDeltas(steps) <==> exists i :: 0 <= i < |steps| && d in steps[i].deltas
    decreases |steps|
  {
    if steps != [] {
      var init := steps[..|steps| - 1];
      AllDeltasAre(init, d);
      if d in AllDeltas(init) {
        var i :| 0 <= i < |init| && d in init[i].deltas;
        assert d in steps[i].deltas;
      }
      if i :| 0 <= i < |steps| && d in steps[i].deltas {
        if i < |init| { assert d in init[i].deltas; }
      }
    }
  }

  /** `cited` are the ids outside `seen` that the deltas are made from, each once, in the order in which the deltas
      first name them. */
  ghost predicate InCitedOrder(seen: set<string>, deltas: seq<Delta>, cited: seq<string>) {
    && NoDup(cited)
    && forall n :: 0 <= n <= |deltas| ==> CitedFirst(seen, deltas, n, cited)
  }

  /** The ids that the first `n` deltas name come before those they do not. */
  ghost predicate CitedFirst(seen: set<string>, deltas: seq<Delta>, n: int, cited: seq<string>) {
    exists m :: CitedBy(seen, deltas, n, cited, m)
  }

  /** The first `n` deltas name exactly the first `m` of the ids. */
  ghost predicate CitedBy(seen: set<string>, deltas: seq<Delta>, n: int, cited: seq<string>, m: int) {
    && 0 <= n <= |deltas| && 0 <= m <= |cited| && (n == |deltas| ==> m == |cited|)
    && forall id :: id in cited[..m] <==> id !in seen && exists d :: d in deltas[..n] && MadeFrom(d, id)
  }

  lemma CitedUpTo(seen: set<string>, deltas: seq<Delta>, n: nat) returns (m: nat)
    requires n <= |deltas|
    ensures CitedBy(seen, deltas, n, FirstSeen(seen, RawRefs(deltas)), m)
  {
    var a, b, cited := deltas[..n], deltas[n..], FirstSeen(seen, RawRefs(deltas));
    assert deltas == a + b;
    RawRefsConcat(a, b);
    FirstSeenPrefix(seen, RawRefs(a), RawRefs(b));
    FirstSeenIds(seen, RawRefs(a));
    m := |FirstSeen(seen, RawRefs(a))|;
    assert cited[..m] == FirstSeen(seen, RawRefs(a));
    if n == |deltas| { assert a == deltas; }
    forall id ensures id in cited[..m] <==> id !in seen && exists d :: d in a && MadeFrom(d, id) {
      RawRefsAre(a, id);
      assert id in cited[..m] <==> id in Set(FirstSeen(seen, RawRefs(a)));
    }
  }

  lemma CitedInOrder(seen: set<string>, deltas: seq<Delta>)
    ensures InCitedOrder(seen, deltas, FirstSeen(seen, RawRefs(deltas)))
  {
    FirstSeenIds(seen, RawRefs(deltas));
    forall n | 0 <= n <= |deltas| ensures CitedFirst(seen, deltas, n, FirstSeen(seen, RawRefs(deltas))) {
      var m := CitedUpTo(seen, deltas, n);
    }
  }

  /** `asked` are the first of `ids`, all of them when there are no more than `cap`. */
  ghost predicate FirstOf(asked: seq<string>, ids: seq<string>, cap: nat) {
    asked <= ids && |asked| == if |ids| <= cap then |ids| else cap
  }

  /** The step down asks for the first 24 of the unseen ids that the listed provenances and sediments are made from, in
      the order in which they name them, and lists what comes back under `_provenance`. */
  lemma DownAsksFirst(b: Shown, fetch: Fetch) returns (cited: seq<string>, asked: seq<string>)
    ensures InCitedOrder(b.seen, AllDeltas(b.steps), cited) && FirstOf(asked, cited, 24)
    ensures DownFrom(b, fetch) == if asked == [] then b else Placed(b, "_provenance", fetch(asked))
  {
    cited := FirstSeen(b.seen, RawRefs(AllDeltas(b.steps)));
    CitedInOrder(b.seen, AllDeltas(b.steps));
    asked := if |cited| <= 24 then cited else cited[..24];
  }

  // ---- What the step up asks for ----

  /** No id asked for is farther from the seeds than one not asked for. */
  ghost predicate NearestAsked(g: Graph, seeds: set<string>, climbed: seq<string>, asked: seq<string>) {
    forall a, c, d: nat ::
      a in asked && c in climbed && c !in asked && c in Ball(g, seeds, d) ==> a in Ball(g, seeds, d)
  }

  lemma FirstAreNearest(g: Graph, seeds: set<string>, climbed: seq<string>, asked: seq<string>)
    requires Climbed(g, seeds, climbed, 3) && asked <= climbed
    ensures NearestAsked(g, seeds, climbed, asked)
  {
    forall a, c, d: nat | a in asked && c in climbed && c !in asked && c in Ball(g, seeds, d)
      ensures a in Ball(g, seeds, d)
    {
      var i :| 0 <= i < |asked| && asked[i] == a;
      var j :| 0 <= j < |climbed| && climbed[j] == c;
      assert climbed[i] == a && forall k :: 0 <= k < |asked| ==> asked[k] in asked && asked[k] == climbed[k];
    }
  }

  /** The step up asks for the first 60 of the ancestors climbed to, and lists what comes back under `_ascendance`; none
      it asks for is farther than one it leaves out. */
  lemma UpAsksNearest(b: Shown, index: ParentIndex, climbed: seq<string>, fetch: Fetch) returns (asked: seq<string>)
    requires Climbed(Upward(index), b.seen, climbed, 3)
    ensures FirstOf(asked, climbed, 60) && NearestAsked(Upward(index), b.seen, climbed, asked)
    ensures UpFrom(b, climbed, fetch) == if asked == [] then b else Placed(b, "_ascendance", fetch(asked))
  {
    asked := if |climbed| <= 60 then climbed else climbed[..60];
    FirstAreNearest(Upward(index), b.seen, climbed, asked);
  }

  // ---- What an expansion changes ----

  /** `sid` lists exactly these deltas after, and every other step what it listed before. */
  ghost predicate OnlyListsAnew(before: seq<Listing>, after: seq<Listing>, sid: string, deltas: seq<Delta>) {
    && |before| <= |after| <= |before| + 1
    && (exists k :: 0 <= k < |after| && after[k] == Listing(sid, deltas) && (k == |before| || |after| == |before|))
    && forall i :: 0 <= i < |before| ==>
         after[i] == before[i] || (before[i].sid == sid && after[i] == Listing(sid, deltas))
  }

  /** A failed fetch, or one that brings nothing new, changes nothing; otherwise the new deltas are listed under the
      expansion's id and their ids are seen, and no other step's list changes. */
  lemma PlacedLists(b: Shown, sid: string, fetched: Option<seq<Delta>>)
    ensures var after := Placed(b, sid, fetched);
      var additions := if fetched.None? then [] else Unseen(b.seen, fetched.value);
      if additions == [] then after == b
      else OnlyListsAnew(b.steps, after.steps, sid, additions) && after.seen == b.seen + Ids(fetched.value)
  {
    if fetched.Some? {
      UnseenIds(b.seen, fetched.value);
      var k := IndexOf(b.steps, sid);
      var after := Placed(b, sid, fetched);
      if Unseen(b.seen, fetched.value) != [] { assert after.steps[k].sid == sid; }
    }
  }

  /** The fetch returns the existing ones of the ids asked for. */
  ghost predicate Faithful(fetch: Fetch, lake: set<string>) {
    forall ids :: fetch(ids).Some? && Ids(fetch(ids).value) == Set(ids) * lake
  }

  /** The ids in `found` are now seen and, if there are any, listed under `sid`. */
  ghost predicate NowLists(b: Shown, after: Shown, sid: string, found: set<string>) {
    && after.seen == b.seen + found
    && (found == {} ==> after == b)
    && (found != {} ==> HasListing(after.steps, sid, found))
  }

  ghost predicate HasListing(steps: seq<Listing>, sid: string, ids: set<string>) {
    exists k :: 0 <= k < |steps| && steps[k].sid == sid && Ids(steps[k].deltas) == ids
  }

  lemma FoundListed(b: Shown, sid: string, rows: seq<Delta>)
    requires Ids(rows) !! b.seen
    ensures NowLists(b, Placed(b, sid, Some(rows)), sid, Ids(rows))
  {
    var additions, after := Unseen(b.seen, rows), Placed(b, sid, Some(rows));
    PlacedLists(b, sid, Some(rows));
    UnseenIds(b.seen, rows);
    DistinctCount(additions);
    if additions != [] {
      var k :| 0 <= k < |after.steps| && after.steps[k] == Listing(sid, additions);
      assert after.steps[k].sid == sid && Ids(after.steps[k].deltas) == Ids(rows);
    }
  }

  lemma AskedAreNew(g: Graph, seeds: set<string>, climbed: seq<string>, asked: seq<string>)
    requires Climbed(g, seeds, climbed, 3) && FirstOf(asked, climbed, 60)
    ensures Set(asked) !! seeds
    ensures |climbed| <= 60 ==> Set(asked) == Ball(g, seeds, 3) - seeds
  {
    forall x | x in Set(asked) ensures x !in seeds {
      var i :| 0 <= i < |asked| && asked[i] == x;
      assert climbed[i] == x && x in Set(climbed);
    }
    if |climbed| <= 60 { assert asked == climbed; }
  }

  /** With such a fetch the step up lists exactly the existing ones of the nearest 60 ancestors, all that exist within
      three citations when there are no more than 60 to ask for. */
  lemma AscendanceLists(b: Shown, index: ParentIndex, climbed: seq<string>, fetch: Fetch, lake: set<string>)
    returns (asked: seq<string>)
    requires Climbed(Upward(index), b.seen, climbed, 3) && Faithful(fetch, lake)
    ensures FirstOf(asked, climbed, 60) && NearestAsked(Upward(index), b.seen, climbed, asked)
    ensures |climbed| <= 60 ==> Set(asked) == Ball(Upward(index), b.seen, 3) - b.seen
    ensures NowLists(b, UpFrom(b, climbed, fetch), "_ascendance", Set(asked) * lake)
  {
    asked := UpAsksNearest(b, index, climbed, fetch);
    AskedAreNew(Upward(index), b.seen, climbed, asked);
    assert fetch(asked).Some? && Ids(fetch(asked).value) == Set(asked) * lake;
    if asked != [] { FoundListed(b, "_ascendance", fetch(asked).value); }
  }

  // ---- What the plan's steps surface ----

  /** An id is surfaced exactly when some step that is no timeline brings a delta with it that is no turn of the chat
      itself; `StepsLoseNothing` says that exactly those ids are listed. */
  lemma {:induction false} SurfacedIff(results: seq<StepResult>, x: string)
    ensures x in Surfaced(results) <==> exists i :: 0 <= i < |results| && Brings(results[i], x)
    decreases |results|
  {
    if results != [] {
      var init, last := results[..|results| - 1], results[|results| - 1];
      SurfacedIff(init, x);
      IdsMember(Visible(last.deltas), x);
      assert forall d :: d in Visible(last.deltas) <==> d in last.deltas && !OwnTurn(d);
      assert x in (if last.timeline then {} else Ids(Visible(last.deltas))) <==> Brings(last, x);
      assert forall i :: 0 <= i < |init| ==> init[i] == results[i];
    }
  }

  /** The step lists the id, unless an earlier one does. */
  ghost predicate Brings(step: StepResult, x: string) {
    !step.timeline && x != "" && exists d :: d in step.deltas && d.id == x && !OwnTurn(d)
  }
}
