/** When the total of a recall is the number of ids it lists. */
module SearchTotal {
  import opened Sequences
  import opened Walks
  import opened Ancestry
  import opened Search

  /** The ids the plan's steps surface. */
  function Surfaced(results: seq<StepResult>): set<string> {
    if results == [] then {}
    else
      var last := results[|results| - 1];
      Surfaced(results[..|results| - 1]) + if last.timeline then {} else Ids(Visible(last.deltas))
  }

  /** No id is listed twice, and what was seen is either listed or lost. */
  ghost predicate Accounted(b: Shown) {
    Disjoint(b.steps) && b.seen == AllIds(b.steps) + b.lost && AllIds(b.steps) !! b.lost
  }

  lemma AssignedKeeps(b: Shown, sid: string, deltas: seq<Delta>)
    requires Accounted(b) && Distinct(deltas) && Ids(deltas) !! b.seen
    ensures Accounted(Assigned(b, sid, deltas))
  {
    PutNew(b.steps, Listing(sid, deltas));
    LosesListed(b.steps, sid);
  }

  lemma StepKeeps(b: Shown, step: StepResult)
    requires Accounted(b)
    ensures Accounted(StepShown(b, step))
    ensures StepShown(b, step).seen == b.seen + if step.timeline then {} else Ids(Visible(step.deltas))
  {
    if !step.timeline {
      DedupedIds(b.seen, step.deltas);
      AssignedKeeps(b, step.sid, Deduped(b.seen, step.deltas));
    }
  }

  /** Every surfaced id is either listed once or lost, and never both. */
  lemma {:induction false} SurfacedListedOrLost(results: seq<StepResult>)
    ensures Accounted(StepsShown(results)) && StepsShown(results).seen == Surfaced(results)
    decreases |results|
  {
    if results != [] {
      var init, last := results[..|results| - 1], results[|results| - 1];
      SurfacedListedOrLost(init);
      StepKeeps(StepsShown(init), last);
    }
  }

  /** The ids step `i` is the first to surface. */
  function NewIn(results: seq<StepResult>, i: nat): set<string>
    requires i < |results|
  {
    if results[i].timeline then {} else Ids(Visible(results[i].deltas)) - Surfaced(results[..i])
  }

  /** The ids listed under `sid`: those its last step was the first to surface. */
  function LastUnder(results: seq<StepResult>, sid: string): set<string> {
    if results == [] then {}
    else
      var n := |results| - 1;
      if !results[n].timeline && results[n].sid == sid then NewIn(results, n) else LastUnder(results[..n], sid)
  }

  lemma IndexOfIs(steps: seq<Listing>, sid: string, i: nat)
    requires i <= |steps| && (i < |steps| ==> steps[i].sid == sid)
    requires forall j :: 0 <= j < i ==> steps[j].sid != sid
    ensures IndexOf(steps, sid) == i
  {
  }

  lemma PutLoses(steps: seq<Listing>, l: Listing, sid: string)
    ensures Loses(Put(steps, l), sid) == if sid == l.sid then Ids(l.deltas) else Loses(steps, sid)
  {
    var k, put := IndexOf(steps, l.sid), Put(steps, l);
    if sid == l.sid {
      IndexOfIs(put, sid, k);
    } else {
      var i := IndexOf(steps, sid);
      if i < |steps| || k < |steps| {
        IndexOfIs(put, sid, i);
      } else {
        IndexOfIs(put, sid, |put|);
      }
    }
  }

  lemma {:induction false} ListedUnder(results: seq<StepResult>, sid: string)
    ensures Loses(StepsShown(results).steps, sid) == LastUnder(results, sid)
    decreases |results|
  {
    if results != [] {
      var init, last := results[..|results| - 1], results[|results| - 1];
      ListedUnder(init, sid);
      if !last.timeline {
        SurfacedListedOrLost(init);
        DedupedIds(Surfaced(init), last.deltas);
        PutLoses(StepsShown(init).steps, Listing(last.sid, Deduped(Surfaced(init), last.deltas)), sid);
      }
    }
  }

  // ---- Plans the executor admits ----

  /** Step ids are distinct: the executor rejects a plan that repeats one. */
  ghost predicate Admitted(results: seq<StepResult>) {
    forall i, j :: 0 <= i < j < |results| ==> results[i].sid != results[j].sid
  }

  ghost predicate Uses(results: seq<StepResult>, sid: string) {
    exists i :: 0 <= i < |results| && results[i].sid == sid
  }

  lemma {:induction false} NothingUnderUnused(results: seq<StepResult>, sid: string)
    requires !Uses(results, sid)
    ensures LastUnder(results, sid) == {}
    decreases |results|
  {
    if results != [] {
      UsesMore(results, |results| - 1, sid);
      NothingUnderUnused(results[..|results| - 1], sid);
    }
  }

  lemma UsesMore(results: seq<StepResult>, n: nat, sid: string)
    requires n <= |results|
    ensures Uses(results[..n], sid) ==> Uses(results, sid)
  {
    forall i | 0 <= i < n && results[..n][i].sid == sid ensures Uses(results, sid) {
      assert results[i].sid == sid;
    }
  }

  /** The steps of an admitted plan lose nothing: every id they surface is listed exactly once. */
  lemma {:induction false} StepsLoseNothing(results: seq<StepResult>)
    requires Admitted(results)
    ensures var b := StepsShown(results);
      b.lost == {} && AllIds(b.steps) == Surfaced(results) && TotalIds(b.steps) == |Surfaced(results)|
    decreases |results|
  {
    if results != [] {
      var init, last := results[..|results| - 1], results[|results| - 1];
      assert !Uses(init, last.sid);
      StepsLoseNothing(init);
      NothingUnderUnused(init, last.sid);
      ListedUnder(init, last.sid);
    }
    SurfacedListedOrLost(results);
    DisjointTotal(StepsShown(results).steps);
  }

  // ---- Both expansions ----

  /** An expansion either shows nothing new and changes nothing, or loses what was listed under its own id. */
  lemma PlacedLoses(b: Shown, sid: string, fetched: Option<seq<Delta>>)
    ensures var b' := Placed(b, sid, fetched);
      if b'.seen == b.seen then b' == b else b'.lost == b.lost + Loses(b.steps, sid)
    ensures forall s :: s != sid ==> Loses(Placed(b, sid, fetched).steps, s) == Loses(b.steps, s)
  {
    if fetched.Some? {
      var additions := Unseen(b.seen, fetched.value);
      UnseenIds(b.seen, fetched.value);
      if additions != [] {
        DistinctCount(additions);
        assert Ids(additions) != {} && Ids(additions) !! b.seen;
        forall s | s != sid ensures Loses(Put(b.steps, Listing(sid, additions)), s) == Loses(b.steps, s) {
          PutLoses(b.steps, Listing(sid, additions), s);
        }
      }
    }
  }

  /** For an admitted plan the recall's total is the number of listed ids exactly when neither expansion replaces a list
      that holds an id: one that a plan step named `_provenance` or `_ascendance` left there. */
  lemma TotalExactIff(results: seq<StepResult>, climbed: seq<string>, fetch: Fetch)
    requires Admitted(results)
    ensures var b := StepsShown(results);
      var down := DownFrom(b, fetch);
      var shown := UpFrom(down, climbed, fetch);
      |shown.seen| == TotalIds(shown.steps) <==>
        && (down.seen != b.seen ==> LastUnder(results, DOWN) == {})
        && (shown.seen != down.seen ==> LastUnder(results, UP) == {})
  {
    var b := StepsShown(results);
    var down := DownFrom(b, fetch);
    LostIff(results, climbed, fetch);
    SurfacedListedOrLost(results);
    DownKeeps(b, fetch);
    UpKeeps(down, climbed, fetch);
    TotalCounts(UpFrom(down, climbed, fetch));
  }

  lemma LostIff(results: seq<StepResult>, climbed: seq<string>, fetch: Fetch)
    requires Admitted(results)
    ensures var b := StepsShown(results);
      var down := DownFrom(b, fetch);
      var shown := UpFrom(down, climbed, fetch);
      shown.lost == {} <==>
        && (down.seen != b.seen ==> LastUnder(results, DOWN) == {})
        && (shown.seen != down.seen ==> LastUnder(results, UP) == {})
  {
    var b := StepsShown(results);
    var refs := Take(FirstSeen(b.seen, RawRefs(AllDeltas(b.steps))), SEDIMENT_LIMIT);
    var down := DownFrom(b, fetch);
    var kept := Take(climbed, FETCH_CAP);
    StepsLoseNothing(results);
    ListedUnder(results, DOWN);
    ListedUnder(results, UP);
    SyntheticIdsDiffer();
    PlacedLoses(b, DOWN, if refs == [] then None else fetch(refs));
    PlacedLoses(down, UP, if kept == [] then None else fetch(kept));
  }

  lemma SyntheticIdsDiffer()
    ensures DOWN != UP
  {
    assert DOWN[1] != UP[1];
  }

  lemma PlacedKeeps(b: Shown, sid: string, fetched: Option<seq<Delta>>)
    requires Accounted(b)
    ensures Accounted(Placed(b, sid, fetched))
  {
    if fetched.Some? {
      UnseenIds(b.seen, fetched.value);
      AssignedKeeps(b, sid, Unseen(b.seen, fetched.value));
    }
  }

  lemma DownKeeps(b: Shown, fetch: Fetch)
    requires Accounted(b)
    ensures Accounted(DownFrom(b, fetch))
  {
    var refs := Take(FirstSeen(b.seen, RawRefs(AllDeltas(b.steps))), SEDIMENT_LIMIT);
    PlacedKeeps(b, DOWN, if refs == [] then None else fetch(refs));
  }

  lemma UpKeeps(b: Shown, climbed: seq<string>, fetch: Fetch)
    requires Accounted(b)
    ensures Accounted(UpFrom(b, climbed, fetch))
  {
    var kept := Take(climbed, FETCH_CAP);
    PlacedKeeps(b, UP, if kept == [] then None else fetch(kept));
  }

  lemma TotalCounts(b: Shown)
    requires Accounted(b)
    ensures |b.seen| == TotalIds(b.steps) + |b.lost|
    ensures |b.seen| == TotalIds(b.steps) <==> b.lost == {}
  {
    DisjointTotal(b.steps);
    assert |AllIds(b.steps) + b.lost| == |AllIds(b.steps)| + |b.lost|;
  }

  /** When no plan step carries a synthetic id, the total is the number of listed ids and each is listed once. */
  lemma PlainPlanIsExact(results: seq<StepResult>, climbed: seq<string>, fetch: Fetch)
    requires Admitted(results) && !Uses(results, DOWN) && !Uses(results, UP)
    ensures var shown := UpFrom(DownFrom(StepsShown(results), fetch), climbed, fetch);
      |shown.seen| == TotalIds(shown.steps) == |AllIds(shown.steps)| && shown.seen == AllIds(shown.steps)
  {
    NothingUnderUnused(results, DOWN);
    NothingUnderUnused(results, UP);
    LostIff(results, climbed, fetch);
    SurfacedListedOrLost(results);
    DownKeeps(StepsShown(results), fetch);
    UpKeeps(DownFrom(StepsShown(results), fetch), climbed, fetch);
    DisjointTotal(UpFrom(DownFrom(StepsShown(results), fetch), climbed, fetch).steps);
  }

  // ---- A plan that miscounts ----

  lemma OneDelta(deltas: seq<Delta>, seen: set<string>, d: Delta)
    requires deltas == [d] && d.id != "" && !Hidden(d)
    ensures Ids(deltas) == {d.id} && Deduped(seen, deltas) == if d.id in seen then [] else deltas
  {
    assert deltas[..0] == [];
    IdsAppend([], d);
    assert [] + [d] == deltas;
  }

  lemma OneUnseen(deltas: seq<Delta>, seen: set<string>, d: Delta)
    requires deltas == [d] && d.id != "" && d.id !in seen
    ensures Ids(deltas) == {d.id} && Unseen(seen, deltas) == deltas
  {
    assert deltas[..0] == [];
    IdsAppend([], d);
    assert [] + [d] == deltas;
  }

  lemma {:induction false} OneStep(results: seq<StepResult>, sid: string, d: Delta)
    requires results == [StepResult(sid, false, [d])] && d.id != "" && !Hidden(d)
    ensures StepsShown(results) == Shown([Listing(sid, [d])], {d.id}, {})
  {
    assert results[..0] == [];
    OneDelta(results[0].deltas, {}, d);
    assert Put([], Listing(sid, [d])) == [Listing(sid, [d])];
  }

  /** One parent above one delta, and nothing above that. */
  lemma OneParent(index: ParentIndex, child: string, parent: string)
    requires index == map[child := [parent]] && child != parent
    ensures Climbed(Upward(index), {child}, [parent], MAX_DEPTH)
  {
    var g, roots := Upward(index), {child};
    assert Ball(g, roots, 1) == {child, parent} by {
      assert g(child) == [parent] && parent in g(child);
    }
    assert Succs(g, {child, parent}) == {parent} by {
      assert g(parent) == [] && parent in g(child);
    }
    assert Ball(g, roots, 2) == {child, parent};
    BallStops(g, roots, 1, MAX_DEPTH);
  }

  /** A plan of one step named `_ascendance` that brings the delta `d`, which `e` cites: the climb lists `e` in its
      place, so `d` is counted and listed nowhere. */
  lemma AscendanceStepMiscounts(results: seq<StepResult>, d: Delta, e: Delta, index: ParentIndex, fetch: Fetch)
    requires d.id != "" && !Hidden(d) && !CitesSources(d) && e.id != "" && e.id != d.id
    requires results == [StepResult(UP, false, [d])] && index == map[d.id := [e.id]] && fetch([e.id]) == Some([e])
    ensures Admitted(results) && Climbed(Upward(index), {d.id}, [e.id], MAX_DEPTH)
    ensures DownFrom(StepsShown(results), fetch).seen == {d.id}
    ensures UpFrom(DownFrom(StepsShown(results), fetch), [e.id], fetch)
      == Shown([Listing(UP, [e])], {d.id, e.id}, {d.id})
  {
    var b := StepsShown(results);
    OneStep(results, UP, d);
    OneParent(index, d.id, e.id);
    NothingCited(b.steps, d);
    assert DownFrom(b, fetch) == b;
    OneUnseen([e], b.seen, e);
    assert [e.id][..1] == [e.id];
    assert UpFrom(b, [e.id], fetch) == Assigned(b, UP, [e]);
    assert Put(b.steps, Listing(UP, [e])) == [Listing(UP, [e])];
    OneDelta([d], {}, d);
  }

  lemma {:induction false} NothingCited(steps: seq<Listing>, d: Delta)
    requires |steps| == 1 && steps[0].deltas == [d] && !CitesSources(d)
    ensures RawRefs(AllDeltas(steps)) == []
  {
    assert steps[..0] == [] && AllDeltas(steps) == [d] && [d][..0] == [];
  }
}
