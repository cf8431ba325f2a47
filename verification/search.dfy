/** The id bookkeeping of a deep search: step lists, their deduplication, and the two expansions. */
module Search {
  import opened Sequences
  import opened Walks
  import opened Ancestry
  import Text

  const SEDIMENT_LIMIT: nat := 24

  /** What the plan executor returns for one step. */
  datatype StepResult = StepResult(sid: string, timeline: bool, deltas: seq<Delta>)

  /** The deltas listed under one step. */
  datatype Listing = Listing(sid: string, deltas: seq<Delta>)

  /** A batch fetch: None when it raises. */
  type Fetch = seq<string> -> Option<seq<Delta>>

  /** Assistant turns of the chat itself are never listed. */
  predicate Hidden(d: Delta) {
    "assistant" in d.tags && ("fathom-chat" in d.tags || d.source == "fathom-chat")
  }

  /** The ids of the deltas that have one. */
  function Ids(deltas: seq<Delta>): set<string> {
    if deltas == [] then {}
    else
      var init, last := Ids(deltas[..|deltas| - 1]), deltas[|deltas| - 1];
      if last.id == "" then init else init + {last.id}
  }

  /** How many of the deltas have an id. */
  function CountIds(deltas: seq<Delta>): nat {
    if deltas == [] then 0
    else CountIds(deltas[..|deltas| - 1]) + if deltas[|deltas| - 1].id == "" then 0 else 1
  }

  /** No id twice; deltas without an id may repeat. */
  predicate Distinct(deltas: seq<Delta>) {
    deltas == [] || (Distinct(deltas[..|deltas| - 1])
                     && (deltas[|deltas| - 1].id == "" || deltas[|deltas| - 1].id !in Ids(deltas[..|deltas| - 1])))
  }

  /** The visible deltas not seen before, each id once. */
  function Deduped(seen: set<string>, deltas: seq<Delta>): seq<Delta> {
    if deltas == [] then []
    else
      var kept, last := Deduped(seen, deltas[..|deltas| - 1]), deltas[|deltas| - 1];
      if Hidden(last) || (last.id != "" && last.id in seen + Ids(kept)) then kept else kept + [last]
  }

  /** The fetched deltas with an id not seen before, each id once. */
  function Unseen(seen: set<string>, deltas: seq<Delta>): seq<Delta> {
    if deltas == [] then []
    else
      var kept, last := Unseen(seen, deltas[..|deltas| - 1]), deltas[|deltas| - 1];
      if last.id == "" || last.id in seen + Ids(kept) then kept else kept + [last]
  }

  function Visible(deltas: seq<Delta>): seq<Delta> { Filter((d: Delta) => !Hidden(d), deltas) }

  lemma IdsAppend(deltas: seq<Delta>, d: Delta)
    ensures Ids(deltas + [d]) == Ids(deltas) + if d.id == "" then {} else {d.id}
    ensures CountIds(deltas + [d]) == CountIds(deltas) + if d.id == "" then 0 else 1
    ensures Distinct(deltas + [d]) <==> Distinct(deltas) && (d.id == "" || d.id !in Ids(deltas))
  {
    assert (deltas + [d])[..|deltas|] == deltas;
  }

  lemma {:induction false} DedupedIds(seen: set<string>, deltas: seq<Delta>)
    ensures Ids(Deduped(seen, deltas)) == Ids(Visible(deltas)) - seen
    ensures Distinct(Deduped(seen, deltas))
    decreases |deltas|
  {
    if deltas != [] {
      var init, last := deltas[..|deltas| - 1], deltas[|deltas| - 1];
      DedupedIds(seen, init);
      IdsAppend(Deduped(seen, init), last);
      IdsAppend(Visible(init), last);
    }
  }

  lemma {:induction false} UnseenIds(seen: set<string>, deltas: seq<Delta>)
    ensures Ids(Unseen(seen, deltas)) == Ids(deltas) - seen
    ensures Distinct(Unseen(seen, deltas))
    ensures CountIds(Unseen(seen, deltas)) == |Unseen(seen, deltas)|
    decreases |deltas|
  {
    if deltas != [] {
      var init, last := deltas[..|deltas| - 1], deltas[|deltas| - 1];
      UnseenIds(seen, init);
      IdsAppend(Unseen(seen, init), last);
    }
  }

  lemma {:induction false} DistinctCount(deltas: seq<Delta>)
    requires Distinct(deltas)
    ensures CountIds(deltas) == |Ids(deltas)|
    decreases |deltas|
  {
    if deltas != [] { DistinctCount(deltas[..|deltas| - 1]); }
  }

  // ---- All listings together ----

  /** Every id listed under some step. */
  function AllIds(steps: seq<Listing>): set<string> {
    if steps == [] then {} else AllIds(steps[..|steps| - 1]) + Ids(steps[|steps| - 1].deltas)
  }

  function TotalIds(steps: seq<Listing>): nat {
    if steps == [] then 0 else TotalIds(steps[..|steps| - 1]) + CountIds(steps[|steps| - 1].deltas)
  }

  /** No id is listed twice, neither under one step nor under two. */
  ghost predicate Disjoint(steps: seq<Listing>) {
    && (forall i :: 0 <= i < |steps| ==> Distinct(steps[i].deltas))
    && forall i, j :: 0 <= i < j < |steps| ==> Ids(steps[i].deltas) !! Ids(steps[j].deltas)
  }

  /** Where the step is listed, or `|steps|`. */
  function IndexOf(steps: seq<Listing>, sid: string): (i: nat)
    ensures i <= |steps| && (i < |steps| ==> steps[i].sid == sid)
    ensures forall j :: 0 <= j < i ==> steps[j].sid != sid
  {
    if steps == [] || steps[0].sid == sid then 0 else 1 + IndexOf(steps[1..], sid)
  }

  /** `deltas_by_step[sid] = deltas`: a step id that is already there loses its earlier list. */
  function Put(steps: seq<Listing>, l: Listing): seq<Listing> {
    var i := IndexOf(steps, l.sid);
    if i < |steps| then steps[i := l] else steps + [l]
  }

  /** The ids that drop out of the listings when `sid` is assigned. */
  function Loses(steps: seq<Listing>, sid: string): set<string> {
    var i := IndexOf(steps, sid);
    if i < |steps| then Ids(steps[i].deltas) else {}
  }

  lemma {:induction false} AllIdsMember(steps: seq<Listing>, x: string)
    ensures x in AllIds(steps) <==> exists i :: 0 <= i < |steps| && x in Ids(steps[i].deltas)
    decreases |steps|
  {
    if steps != [] {
      AllIdsMember(steps[..|steps| - 1], x);
      if x in AllIds(steps) && x in AllIds(steps[..|steps| - 1]) {
        var i :| 0 <= i < |steps| - 1 && x in Ids(steps[..|steps| - 1][i].deltas);
        assert x in Ids(steps[i].deltas);
      }
      if i :| 0 <= i < |steps| && x in Ids(steps[i].deltas) {
        if i < |steps| - 1 { assert x in Ids(steps[..|steps| - 1][i].deltas); }
      }
    }
  }

  lemma DisjointFrom(steps: seq<Listing>, ids: set<string>)
    requires AllIds(steps) !! ids
    ensures forall i :: 0 <= i < |steps| ==> Ids(steps[i].deltas) !! ids
  {
    forall i, x | 0 <= i < |steps| && x in Ids(steps[i].deltas) ensures x !in ids { AllIdsMember(steps, x); }
  }

  lemma PutDisjoint(steps: seq<Listing>, l: Listing)
    requires Disjoint(steps) && Distinct(l.deltas)
    requires forall i :: 0 <= i < |steps| ==> Ids(steps[i].deltas) !! Ids(l.deltas)
    ensures Disjoint(Put(steps, l))
  {
    var k, put := IndexOf(steps, l.sid), Put(steps, l);
    forall i, j | 0 <= i < j < |put| ensures Ids(put[i].deltas) !! Ids(put[j].deltas) {
      assert i != k ==> put[i] == steps[i];
      assert j != k ==> put[j] == steps[j];
    }
  }

  /** Assigning a list of new ids keeps the listings disjoint; the ids of the list it replaces, if any, are no longer
      listed. */
  lemma PutNew(steps: seq<Listing>, l: Listing)
    requires Disjoint(steps) && Distinct(l.deltas) && AllIds(steps) !! Ids(l.deltas)
    ensures Disjoint(Put(steps, l))
    ensures AllIds(Put(steps, l)) == AllIds(steps) - Loses(steps, l.sid) + Ids(l.deltas)
  {
    DisjointFrom(steps, Ids(l.deltas));
    PutDisjoint(steps, l);
    forall x | x in AllIds(Put(steps, l)) ensures x in AllIds(steps) - Loses(steps, l.sid) + Ids(l.deltas) {
      PutGives(steps, l, x);
    }
    forall x | x in AllIds(steps) - Loses(steps, l.sid) + Ids(l.deltas) ensures x in AllIds(Put(steps, l)) {
      PutKeeps(steps, l, x);
    }
  }

  lemma PutGives(steps: seq<Listing>, l: Listing, x: string)
    requires Disjoint(steps) && AllIds(steps) !! Ids(l.deltas) && x in AllIds(Put(steps, l))
    ensures x in AllIds(steps) - Loses(steps, l.sid) + Ids(l.deltas)
  {
    AllIdsMember(steps, x);
    AllIdsMember(Put(steps, l), x);
    var i :| 0 <= i < |Put(steps, l)| && x in Ids(Put(steps, l)[i].deltas);
    if i != IndexOf(steps, l.sid) { assert Put(steps, l)[i] == steps[i]; }
  }

  lemma PutKeeps(steps: seq<Listing>, l: Listing, x: string)
    requires x in AllIds(steps) - Loses(steps, l.sid) + Ids(l.deltas)
    ensures x in AllIds(Put(steps, l))
  {
    AllIdsMember(steps, x);
    AllIdsMember(Put(steps, l), x);
    var k := IndexOf(steps, l.sid);
    if x in Ids(l.deltas) {
      assert Put(steps, l)[k] == l;
    } else {
      var i :| 0 <= i < |steps| && x in Ids(steps[i].deltas);
      assert i != k;
      assert Put(steps, l)[i] == steps[i];
    }
  }

  /** With disjoint listings the number of ids listed is the number of distinct ids. */
  lemma {:induction false} DisjointTotal(steps: seq<Listing>)
    requires Disjoint(steps)
    ensures TotalIds(steps) == |AllIds(steps)|
    decreases |steps|
  {
    if steps != [] {
      var init, last := steps[..|steps| - 1], steps[|steps| - 1];
      DisjointTotal(init);
      DistinctCount(last.deltas);
      forall x | x in AllIds(init) ensures x !in Ids(last.deltas) {
        AllIdsMember(init, x);
        var i :| 0 <= i < |init| && x in Ids(init[i].deltas);
        assert Ids(steps[i].deltas) !! Ids(steps[|steps| - 1].deltas);
      }
      assert |AllIds(init) + Ids(last.deltas)| == |AllIds(init)| + |Ids(last.deltas)|;
    }
  }

  // ---- The ids a sediment came from ----

  predicate CitesSources(d: Delta) { "kind:provenance" in d.tags || "kind:sediment" in d.tags }

  function RawRefs(deltas: seq<Delta>): seq<string> {
    if deltas == [] then []
    else
      var init, last := deltas[..|deltas| - 1], deltas[|deltas| - 1];
      RawRefs(init) + if CitesSources(last) then Refs(last.tags) else []
  }

  /** First occurrences of the ids outside `seen`. */
  function FirstSeen(seen: set<string>, ids: seq<string>): seq<string> {
    if ids == [] then []
    else
      var kept, last := FirstSeen(seen, ids[..|ids| - 1]), ids[|ids| - 1];
      if last in seen || last in kept then kept else kept + [last]
  }

  lemma FirstSeenAppend(seen: set<string>, a: seq<string>, x: string)
    ensures FirstSeen(seen, a + [x])
      == if x in seen || x in FirstSeen(seen, a) then FirstSeen(seen, a) else FirstSeen(seen, a) + [x]
  {
    assert (a + [x])[..|a|] == a;
  }

  /** Exactly the ids outside `seen`, each once. */
  lemma {:induction false} FirstSeenIds(seen: set<string>, ids: seq<string>)
    ensures NoDup(FirstSeen(seen, ids)) && Set(FirstSeen(seen, ids)) == Set(ids) - seen
    decreases |ids|
  {
    if ids != [] {
      var init, last := ids[..|ids| - 1], ids[|ids| - 1];
      FirstSeenIds(seen, init);
      assert ids == init + [last];
      assert Set(ids) == Set(init) + {last};
      var kept := FirstSeen(seen, init);
      assert last in kept <==> last in Set(kept);
      assert Set(kept + [last]) == Set(kept) + {last};
    }
  }

  method ProvenanceIds(deltas: seq<Delta>, alreadySeen: set<string>) returns (out: seq<string>)
    ensures out == FirstSeen(alreadySeen, RawRefs(deltas))
  {
    out := [];
    for i := 0 to |deltas|
      invariant out == FirstSeen(alreadySeen, RawRefs(deltas[..i]))
    {
      RawRefsStep(deltas[..i], deltas[i]);
      assert deltas[..i + 1] == deltas[..i] + [deltas[i]];
      if CitesSources(deltas[i]) {
        out := AddRefs(out, deltas[i].tags, alreadySeen, RawRefs(deltas[..i]));
      }
    }
    assert deltas[..|deltas|] == deltas;
  }

  lemma RawRefsStep(deltas: seq<Delta>, d: Delta)
    ensures RawRefs(deltas + [d]) == if CitesSources(d) then RawRefs(deltas) + Refs(d.tags) else RawRefs(deltas)
  {
    assert (deltas + [d])[..|deltas|] == deltas;
  }

  /** Adds the ids one delta cites; `raw` are the ids cited before it. */
  method AddRefs(before: seq<string>, tags: seq<string>, alreadySeen: set<string>, ghost raw: seq<string>)
    returns (out: seq<string>)
    requires before == FirstSeen(alreadySeen, raw)
    ensures out == FirstSeen(alreadySeen, raw + Refs(tags))
  {
    out := before;
    assert raw + Refs(tags[..0]) == raw;
    for j := 0 to |tags|
      invariant out == FirstSeen(alreadySeen, raw + Refs(tags[..j]))
    {
      assert tags[..j + 1] == tags[..j] + [tags[j]];
      RefsStep(tags[..j], tags[j]);
      if !Text.StartsWith(tags[j], "from:") {
        continue;
      }
      var ref := Text.Strip(tags[j][5..]);
      if ref == "" {
        continue;
      }
      FirstSeenAppend(alreadySeen, raw + Refs(tags[..j]), ref);
      assert raw + Refs(tags[..j + 1]) == raw + Refs(tags[..j]) + [ref];
      if ref in alreadySeen || ref in out {
        continue;
      }
      out := out + [ref];
    }
    assert tags[..|tags|] == tags;
  }

  function AllDeltas(steps: seq<Listing>): seq<Delta> {
    if steps == [] then [] else AllDeltas(steps[..|steps| - 1]) + steps[|steps| - 1].deltas
  }

  function Take(ids: seq<string>, n: nat): seq<string> { if |ids| > n then ids[..n] else ids }

  // ---- The result under construction ----

  /** Step listings, every id seen, and the ids whose list a later step of the same id replaced. */
  datatype Shown = Shown(steps: seq<Listing>, seen: set<string>, lost: set<string>)

  /** `deltas_by_step[sid] = deltas` for deltas whose ids are new. */
  function Assigned(b: Shown, sid: string, deltas: seq<Delta>): Shown {
    Shown(Put(b.steps, Listing(sid, deltas)), b.seen + Ids(deltas), b.lost + Loses(b.steps, sid))
  }

  /** One step of the plan. */
  function StepShown(b: Shown, step: StepResult): Shown {
    if step.timeline then b else Assigned(b, step.sid, Deduped(b.seen, step.deltas))
  }

  /** An expansion: a failed fetch changes nothing, and fetched deltas already seen are not listed again. */
  function Placed(b: Shown, sid: string, fetched: Option<seq<Delta>>): Shown {
    var additions := if fetched.None? then [] else Unseen(b.seen, fetched.value);
    if additions == [] then b else Assigned(b, sid, additions)
  }

  const DOWN := "_provenance"
  const UP := "_ascendance"

  /** Down: the deltas that listed sediments and provenances cite, at most 24 of them. */
  function DownFrom(b: Shown, fetch: Fetch): Shown {
    var refs := Take(FirstSeen(b.seen, RawRefs(AllDeltas(b.steps))), SEDIMENT_LIMIT);
    Placed(b, DOWN, if refs == [] then None else fetch(refs))
  }

  /** Up: the ancestors climbed to, nearest first, at most 60 of them. */
  function UpFrom(b: Shown, climbed: seq<string>, fetch: Fetch): Shown {
    var kept := Take(climbed, FETCH_CAP);
    Placed(b, UP, if kept == [] then None else fetch(kept))
  }

  class SearchResult {
    var seenIds: set<string>
    var steps: seq<Listing>
    ghost var lost: set<string>

    ghost predicate Valid()
      reads this
    {
      Disjoint(steps) && seenIds == AllIds(steps) + lost && AllIds(steps) !! lost
    }

    ghost function Value(): Shown
      reads this
    {
      Shown(steps, seenIds, lost)
    }

    constructor ()
      ensures Valid() && Value() == Shown([], {}, {})
    {
      seenIds, steps, lost := {}, [], {};
    }

    method AddStep(step: StepResult)
      requires Valid()
      modifies this
      ensures Valid() && Value() == StepShown(old(Value()), step)
      ensures !step.timeline ==> seenIds == old(seenIds) + Ids(Visible(step.deltas))
    {
      if step.timeline {
        return;
      }
      var cleaned := Clean(step.deltas);
      Assign(step.sid, cleaned);
    }

    /** The deduplication loop. */
    method Clean(deltas: seq<Delta>) returns (cleaned: seq<Delta>)
      modifies this`seenIds
      ensures cleaned == Deduped(old(seenIds), deltas)
      ensures Distinct(cleaned) && Ids(cleaned) == Ids(Visible(deltas)) - old(seenIds)
      ensures seenIds == old(seenIds) + Ids(cleaned)
    {
      cleaned := [];
      ghost var before := seenIds;
      for i := 0 to |deltas|
        invariant cleaned == Deduped(before, deltas[..i])
        invariant seenIds == before + Ids(cleaned)
      {
        assert deltas[..i + 1][..i] == deltas[..i];
        var d := deltas[i];
        if Hidden(d) {
          continue;
        }
        if d.id != "" {
          if d.id in seenIds {
            continue;
          }
          seenIds := seenIds + {d.id};
        }
        IdsAppend(cleaned, d);
        cleaned := cleaned + [d];
      }
      assert deltas[..|deltas|] == deltas;
      DedupedIds(before, deltas);
    }

    /** `deltas_by_step[sid] = deltas`, for deltas whose ids have just been marked seen. */
    method Assign(sid: string, deltas: seq<Delta>)
      requires Disjoint(steps) && AllIds(steps) !! lost && Distinct(deltas)
      requires Ids(deltas) !! AllIds(steps) + lost && seenIds == AllIds(steps) + lost + Ids(deltas)
      modifies this`steps, this`lost
      ensures Valid() && steps == Put(old(steps), Listing(sid, deltas)) && lost == old(lost) + Loses(old(steps), sid)
    {
      PutNew(steps, Listing(sid, deltas));
      LosesListed(steps, sid);
      lost := lost + Loses(steps, sid);
      steps := Put(steps, Listing(sid, deltas));
    }

    /** Lists the fetched deltas not listed before under a step of their own, if there are any. */
    method AddFetched(sid: string, fetched: seq<Delta>)
      requires Valid()
      modifies this
      ensures Valid() && Value() == Placed(old(Value()), sid, Some(fetched))
    {
      var additions := Additions(fetched);
      if additions == [] {
        return;
      }
      Assign(sid, additions);
    }

    /** The fetched deltas with ids not seen before, which are now seen. */
    method Additions(fetched: seq<Delta>) returns (additions: seq<Delta>)
      modifies this`seenIds
      ensures additions == Unseen(old(seenIds), fetched) && seenIds == old(seenIds) + Ids(additions)
      ensures Distinct(additions) && CountIds(additions) == |additions| && Ids(additions) !! old(seenIds)
    {
      additions := [];
      ghost var before := seenIds;
      for i := 0 to |fetched|
        invariant additions == Unseen(before, fetched[..i])
        invariant seenIds == before + Ids(additions)
      {
        assert fetched[..i + 1][..i] == fetched[..i];
        var d := fetched[i];
        if d.id == "" || d.id in seenIds {
          continue;
        }
        IdsAppend(additions, d);
        seenIds := seenIds + {d.id};
        additions := additions + [d];
      }
      assert fetched[..|fetched|] == fetched;
      UnseenIds(before, fetched);
    }

    method Gather() returns (all: seq<Delta>)
      ensures all == AllDeltas(steps)
    {
      all := [];
      for i := 0 to |steps|
        invariant all == AllDeltas(steps[..i])
      {
        assert steps[..i + 1][..i] == steps[..i];
        all := all + steps[i].deltas;
      }
      assert steps[..|steps|] == steps;
    }

    method ExpandSediment(fetch: Fetch)
      requires Valid()
      modifies this
      ensures Valid() && Value() == DownFrom(old(Value()), fetch)
    {
      var all := Gather();
      var refs := ProvenanceIds(all, seenIds);
      if refs == [] {
        return;
      }
      var fetched := fetch(Take(refs, SEDIMENT_LIMIT));
      if fetched.None? || fetched.value == [] {
        return;
      }
      AddFetched(DOWN, fetched.value);
    }

    method ExpandUpward(index: ParentIndex, order: seq<string>, fetch: Fetch) returns (ghost climbed: seq<string>)
      requires Valid() && Set(order) == seenIds
      modifies this
      ensures Valid() && Value() == UpFrom(old(Value()), climbed, fetch)
      ensures Climbed(Upward(index), old(seenIds), climbed, MAX_DEPTH)
    {
      climbed := [];
      if |index| == 0 {
        NoIndexNoClimb(index, seenIds);
        return;
      }
      var newIds := Climb(index, seenIds, order);
      climbed := newIds;
      if newIds == [] {
        return;
      }
      var fetched := fetch(Take(newIds, FETCH_CAP));
      if fetched.None? || fetched.value == [] {
        return;
      }
      AddFetched(UP, fetched.value);
    }
  }

  lemma {:induction false} NoArcs(index: ParentIndex, seeds: set<string>, k: nat)
    requires |index| == 0
    ensures Ball(Upward(index), seeds, k) == seeds
  {
    if k > 0 {
      NoArcs(index, seeds, k - 1);
      assert forall a :: Upward(index)(a) == [];
    }
  }

  /** With no index there is nothing to climb to. */
  lemma NoIndexNoClimb(index: ParentIndex, seeds: set<string>)
    requires |index| == 0
    ensures Climbed(Upward(index), seeds, [], MAX_DEPTH)
  {
    NoArcs(index, seeds, MAX_DEPTH);
  }

  lemma LosesListed(steps: seq<Listing>, sid: string)
    ensures Loses(steps, sid) <= AllIds(steps)
  {
    var i := IndexOf(steps, sid);
    if i < |steps| {
      forall x | x in Ids(steps[i].deltas) ensures x in AllIds(steps) { AllIdsMember(steps, x); }
    }
  }

  // ---- The whole result ----

  /** The plan's steps, one after the other. */
  function StepsShown(results: seq<StepResult>): Shown {
    if results == [] then Shown([], {}, {})
    else StepShown(StepsShown(results[..|results| - 1]), results[|results| - 1])
  }

  /** The whole result: the plan's steps, then the step down, then the step up over ancestors nearest first. Listings
      stay pairwise disjoint, and the total exceeds the number of listed ids by the number of lost ones. */
  method BuildResult(results: seq<StepResult>, index: ParentIndex, order: set<string> -> seq<string>, fetch: Fetch)
    returns (steps: seq<Listing>, total: nat, ghost climbed: seq<string>)
    requires forall s :: Set(order(s)) == s
    ensures var down := DownFrom(StepsShown(results), fetch);
      var shown := UpFrom(down, climbed, fetch);
      && Climbed(Upward(index), down.seen, climbed, MAX_DEPTH)
      && steps == shown.steps && total == |shown.seen| == TotalIds(steps) + |shown.lost|
    ensures Disjoint(steps)
  {
    var r := new SearchResult();
    for i := 0 to |results|
      invariant fresh(r) && r.Valid() && r.Value() == StepsShown(results[..i])
    {
      assert results[..i + 1][..i] == results[..i];
      r.AddStep(results[i]);
    }
    assert results[..|results|] == results;
    r.ExpandSediment(fetch);
    climbed := r.ExpandUpward(index, order(r.seenIds), fetch);
    DisjointTotal(r.steps);
    steps, total := r.steps, |r.seenIds|;
    assert |AllIds(steps) + r.lost| == |AllIds(steps)| + |r.lost|;
  }
}
