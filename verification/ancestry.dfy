/** Walking up from recalled deltas to the provenances that enclose them. */
module Ancestry {
  import opened Sequences
  import opened Walks
  import Text

  const MAX_DEPTH: nat := 3
  const FETCH_CAP: nat := 60

  /** A lake row; a missing id reads as the empty string. */
  datatype Delta = Delta(id: string, tags: seq<string>, source: string)

  /** From each id to the ids of the provenances that cite it. */
  type ParentIndex = map<string, seq<string>>

  /** The ids a row cites, stripped, without blanks. */
  function Refs(tags: seq<string>): seq<string> {
    if tags == [] then []
    else
      var init, t := Refs(tags[..|tags| - 1]), tags[|tags| - 1];
      if Text.StartsWith(t, "from:") && Text.Strip(t[5..]) != "" then init + [Text.Strip(t[5..])] else init
  }

  /** Some `from:` tag of these names the id, apart from whitespace around it. */
  ghost predicate Names(tags: seq<string>, id: string) {
    id != "" && exists t :: t in tags && Text.StartsWith(t, "from:") && Text.Strip(t[5..]) == id
  }

  lemma {:induction false} RefIffNamed(tags: seq<string>, id: string)
    ensures id in Refs(tags) <==> Names(tags, id)
    decreases |tags|
  {
    if tags != [] {
      RefIffNamed(tags[..|tags| - 1], id);
      assert forall t :: t in tags <==> t in tags[..|tags| - 1] || t == tags[|tags| - 1];
    }
  }

  lemma RefsStep(tags: seq<string>, t: string)
    ensures Refs(tags + [t]) == Refs(tags)
      + if Text.StartsWith(t, "from:") && Text.Strip(t[5..]) != "" then [Text.Strip(t[5..])] else []
  {
    assert (tags + [t])[..|tags|] == tags;
  }

  function Parents(index: ParentIndex, cid: string): seq<string> { if cid in index then index[cid] else [] }

  function Upward(index: ParentIndex): Graph { (cid: string) => Parents(index, cid) }

  // ---- The parent index ----

  ghost predicate Cites(rows: seq<Delta>, pid: string, cid: string) {
    exists d :: d in rows && d.id == pid && pid != "" && cid in Refs(d.tags)
  }

  /** The index is the converse of citation. */
  ghost predicate IsConverse(index: ParentIndex, rows: seq<Delta>) {
    forall cid, pid :: pid in Parents(index, cid) <==> Cites(rows, pid, cid)
  }

  /** Adding one parent to one id. */
  lemma ParentAdded(index: ParentIndex, cid: string, pid: string)
    ensures var index' := index[cid := Parents(index, cid) + [pid]];
      forall c, p :: p in Parents(index', c) <==> p in Parents(index, c) || (p == pid && c == cid)
  {
  }

  method IndexRow(index: ParentIndex, d: Delta) returns (index': ParentIndex)
    requires d.id != ""
    ensures forall cid, pid :: pid in Parents(index', cid) <==>
      pid in Parents(index, cid) || (pid == d.id && cid in Refs(d.tags))
  {
    index' := index;
    for i := 0 to |d.tags|
      invariant forall cid, pid :: pid in Parents(index', cid) <==>
        pid in Parents(index, cid) || (pid == d.id && cid in Refs(d.tags[..i]))
    {
      var t := d.tags[i];
      RefsStep(d.tags[..i], t);
      assert d.tags[..i + 1] == d.tags[..i] + [t];
      if Text.StartsWith(t, "from:") {
        var cid := Text.Strip(t[5..]);
        if cid != "" {
          ParentAdded(index', cid, d.id);
          index' := index'[cid := Parents(index', cid) + [d.id]];
        }
      }
    }
    assert d.tags[..|d.tags|] == d.tags;
  }

  /** The rows of the two queries; one that fails contributes nothing. */
  function Answered(provenances: Option<seq<Delta>>, sediments: Option<seq<Delta>>): seq<Delta> {
    (if provenances.Some? then provenances.value else []) + (if sediments.Some? then sediments.value else [])
  }

  /** Indexes the rows of the two queries. */
  method BuildParentIndex(provenances: Option<seq<Delta>>, sediments: Option<seq<Delta>>) returns (index: ParentIndex)
    ensures IsConverse(index, Answered(provenances, sediments))
  {
    index := map[];
    ghost var done: seq<Delta> := [];
    if provenances.Some? {
      index := IndexRows(index, [], provenances.value);
      done := provenances.value;
      assert [] + provenances.value == done;
    }
    if sediments.Some? {
      index := IndexRows(index, done, sediments.value);
    }
    assert done + [] == done;
  }

  const CACHE_TTL := 60_000_000

  /** The index as last built, and when; times are microseconds. */
  class ParentCache {
    var cache: ParentIndex
    var stamp: int

    constructor ()
      ensures cache == map[]
    {
      cache, stamp := map[], 0;
    }

    /** A cached index that could be reused is the converse of what the queries answered when it was built. */
    ghost predicate Reflects(answers: int -> seq<Delta>)
      reads this
    {
      cache != map[] ==> IsConverse(cache, answers(stamp))
    }

    /** The index of the queries' answers at `at`: now, unless an index that is not empty and less than a minute old
        is at hand, which is then reused untouched. */
    method Load(now: int, provenances: Option<seq<Delta>>, sediments: Option<seq<Delta>>,
                ghost answers: int -> seq<Delta>)
      returns (index: ParentIndex, ghost at: int)
      requires Reflects(answers) && answers(now) == Answered(provenances, sediments)
      modifies this
      ensures Reflects(answers) && IsConverse(index, answers(at))
      ensures at == if old(cache) != map[] && now - old(stamp) < 60_000_000 then old(stamp) else now
      ensures at == now || (now - at < 60_000_000 && index == old(cache))
      ensures cache == index && stamp == at
    {
      if cache != map[] && now - stamp < CACHE_TTL {
        return cache, stamp;
      }
      index := BuildParentIndex(provenances, sediments);
      at := now;
      cache, stamp := index, now;
    }
  }

  method IndexRows(index: ParentIndex, ghost done: seq<Delta>, rows: seq<Delta>) returns (index': ParentIndex)
    requires IsConverse(index, done)
    ensures IsConverse(index', done + rows)
  {
    index' := index;
    assert done + rows[..0] == done;
    for i := 0 to |rows|
      invariant IsConverse(index', done + rows[..i])
    {
      var d := rows[i];
      ghost var before := index';
      if d.id != "" {
        index' := IndexRow(index', d);
      }
      CitesStep(before, index', done + rows[..i], d);
      assert done + rows[..i] + [d] == done + rows[..i + 1];
    }
    assert rows[..|rows|] == rows;
  }

  lemma CitesStep(before: ParentIndex, after: ParentIndex, rows: seq<Delta>, d: Delta)
    requires IsConverse(before, rows)
    requires forall cid, pid :: pid in Parents(after, cid) <==>
      (pid in Parents(before, cid) || (d.id != "" && pid == d.id && cid in Refs(d.tags)))
    ensures IsConverse(after, rows + [d])
  {
    forall cid, pid ensures pid in Parents(after, cid) <==> Cites(rows + [d], pid, cid) {
      CitesAppend(rows, d, pid, cid);
    }
  }

  lemma CitesAppend(rows: seq<Delta>, d: Delta, pid: string, cid: string)
    ensures Cites(rows + [d], pid, cid) <==> Cites(rows, pid, cid) || (d.id == pid && pid != "" && cid in Refs(d.tags))
  {
    if Cites(rows, pid, cid) {
      var e :| e in rows && e.id == pid && pid != "" && cid in Refs(e.tags);
      assert e in rows + [d];
    }
    if d.id == pid && pid != "" && cid in Refs(d.tags) {
      assert d in rows + [d];
    }
  }

  // ---- The climb ----

  /** Whoever comes first is no farther from the seeds. */
  ghost predicate NearestFirst(g: Graph, seeds: set<string>, ids: seq<string>) {
    forall i, j, d: nat :: 0 <= i < j < |ids| && ids[j] in Ball(g, seeds, d) ==> ids[i] in Ball(g, seeds, d)
  }

  /** `ids` are the ancestors within `k` arcs, each once, nearest first. */
  ghost predicate Climbed(g: Graph, seeds: set<string>, ids: seq<string>, k: nat) {
    NoDup(ids) && Set(ids) == Ball(g, seeds, k) - seeds && NearestFirst(g, seeds, ids)
  }

  /** Adds one node's parents that were not seen before. */
  method AddParents(parents: seq<string>, before: seq<string>, seenBefore: set<string>, ghost seen: set<string>)
    returns (nextLayer: seq<string>, seen': set<string>)
    requires NoDup(before) && seenBefore == seen + Set(before) && Set(before) !! seen
    ensures NoDup(nextLayer) && seen' == seen + Set(nextLayer) && Set(nextLayer) !! seen
    ensures Set(nextLayer) == Set(before) + (Set(parents) - seen)
  {
    nextLayer, seen' := before, seenBefore;
    for j := 0 to |parents|
      invariant NoDup(nextLayer) && seen' == seen + Set(nextLayer) && Set(nextLayer) !! seen
      invariant Set(nextLayer) == Set(before) + (Set(parents[..j]) - seen)
    {
      assert parents[..j + 1] == parents[..j] + [parents[j]];
      SetAppend(parents[..j], parents[j]);
      if parents[j] !in seen' {
        SetAppend(nextLayer, parents[j]);
        NoDupAppend(nextLayer, parents[j]);
        seen' := seen' + {parents[j]};
        nextLayer := nextLayer + [parents[j]];
      }
    }
    assert parents[..|parents|] == parents;
  }

  /** One round: the parents of the layer that were not seen before, each once. */
  method ClimbOnce(index: ParentIndex, layer: seq<string>, seen: set<string>)
    returns (nextLayer: seq<string>, seen': set<string>)
    ensures NoDup(nextLayer) && Set(nextLayer) == Succs(Upward(index), Set(layer)) - seen
    ensures seen' == seen + Set(nextLayer)
  {
    nextLayer, seen' := [], seen;
    for i := 0 to |layer|
      invariant NoDup(nextLayer) && seen' == seen + Set(nextLayer) && Set(nextLayer) !! seen
      invariant Set(nextLayer) == Succs(Upward(index), Set(layer[..i])) - seen
    {
      nextLayer, seen' := AddParents(Parents(index, layer[i]), nextLayer, seen', seen);
      SuccsStep(index, layer[..i], layer[i]);
      assert layer[..i + 1] == layer[..i] + [layer[i]];
    }
    assert layer[..|layer|] == layer;
  }

  lemma SuccsStep(index: ParentIndex, layer: seq<string>, v: string)
    ensures Succs(Upward(index), Set(layer + [v])) == Succs(Upward(index), Set(layer)) + Set(Parents(index, v))
  {
    forall b | b in Set(Parents(index, v)) ensures b in Succs(Upward(index), Set(layer + [v])) {
      assert v in Set(layer + [v]) && b in Upward(index)(v);
    }
    forall b | b in Succs(Upward(index), Set(layer)) ensures b in Succs(Upward(index), Set(layer + [v])) {
      var a :| a in Set(layer) && b in Upward(index)(a);
      assert a in Set(layer + [v]);
    }
  }

  /** The index leads from an id to exactly the rows that have an id and name it in a `from:` tag. */
  lemma ParentsAreNamers(index: ParentIndex, rows: seq<Delta>, cid: string, pid: string)
    requires IsConverse(index, rows)
    ensures pid in Upward(index)(cid) <==> pid != "" && exists d :: d in rows && d.id == pid && Names(d.tags, cid)
  {
    forall d | d in rows ensures cid in Refs(d.tags) <==> Names(d.tags, cid) { RefIffNamed(d.tags, cid); }
    assert pid in Parents(index, cid) <==> Cites(rows, pid, cid);
  }

  /** Appending a round of new ancestors keeps the order nearest first. */
  lemma RoundAppends(g: Graph, seeds: set<string>, ids: seq<string>, round: seq<string>, k: nat)
    requires Climbed(g, seeds, ids, k) && NoDup(round)
    requires Set(round) == Ball(g, seeds, k + 1) - Ball(g, seeds, k)
    ensures Climbed(g, seeds, ids + round, k + 1)
  {
    var all := ids + round;
    BallGrows(g, seeds, 0, k);
    forall i, j | 0 <= i < j < |all| ensures all[i] != all[j] {
      if i < |ids| <= j { assert all[i] in Set(ids) && all[j] in Set(round); }
    }
    assert Set(all) == Set(ids) + Set(round);
    forall i, j, d: nat | 0 <= i < j < |all| && all[j] in Ball(g, seeds, d) ensures all[i] in Ball(g, seeds, d) {
      if j >= |ids| {
        assert all[j] in Set(round);
        if d <= k { BallGrows(g, seeds, d, k); }
        BallGrows(g, seeds, k + 1, d);
        assert all[i] in Set(all) && all[i] in Ball(g, seeds, k + 1);
      }
    }
  }

  /** One round of the climb. */
  lemma RoundClimbs(g: Graph, seeds: set<string>, ids: seq<string>, round: seq<string>, k: nat)
    requires Climbed(g, seeds, ids, k) && NoDup(round)
    requires Set(round) == Succs(g, Layer(g, seeds, k)) - Ball(g, seeds, k)
    ensures Climbed(g, seeds, ids + round, k + 1)
    ensures Ball(g, seeds, k + 1) == Ball(g, seeds, k) + Set(round) && Set(round) == Layer(g, seeds, k + 1)
  {
    BallStep(g, seeds, k);
    RoundAppends(g, seeds, ids, round, k);
  }

  /** A round that finds no one ends the climb. */
  lemma ClimbEnds(g: Graph, seeds: set<string>, ids: seq<string>, k: nat, d: nat)
    requires Climbed(g, seeds, ids, k) && k <= d && Ball(g, seeds, k + 1) == Ball(g, seeds, k)
    ensures Climbed(g, seeds, ids, d)
  {
    BallStops(g, seeds, k, d);
  }

  /** The ids at shortest parent distance 1 to 3 from the seeds, each once, nearest layer first. */
  method Climb(index: ParentIndex, seeds: set<string>, order: seq<string>) returns (ids: seq<string>)
    requires Set(order) == seeds
    ensures Climbed(Upward(index), seeds, ids, MAX_DEPTH)
  {
    ghost var g := Upward(index);
    var seen, layer := seeds, order;
    ids := [];
    for k := 0 to MAX_DEPTH
      invariant seen == Ball(g, seeds, k) && Set(layer) == Layer(g, seeds, k)
      invariant Climbed(g, seeds, ids, k)
    {
      var nextLayer;
      nextLayer, seen := ClimbOnce(index, layer, seen);
      RoundClimbs(g, seeds, ids, nextLayer, k);
      if nextLayer == [] {
        ClimbEnds(g, seeds, ids, k, MAX_DEPTH);
        return;
      }
      ids := ids + nextLayer;
      layer := nextLayer;
    }
  }

  /** Cutting the ancestors to the fetch cap never keeps a farther one over a nearer one. */
  lemma CutKeepsNearest(g: Graph, seeds: set<string>, ids: seq<string>, k: nat, kept: string, cut: string, d: nat)
    requires Climbed(g, seeds, ids, k) && |ids| > FETCH_CAP
    requires kept in ids[..FETCH_CAP] && cut in ids[FETCH_CAP..]
    ensures cut in Ball(g, seeds, d) ==> kept in Ball(g, seeds, d)
    ensures kept != cut
  {
    var i :| 0 <= i < FETCH_CAP && ids[..FETCH_CAP][i] == kept;
    var j :| 0 <= j < |ids| - FETCH_CAP && ids[FETCH_CAP..][j] == cut;
    assert ids[i] == kept && ids[j + FETCH_CAP] == cut;
  }

  /** An ancestor is climbed to exactly when a chain of at most three citations leads up to it from a recalled delta. */
  lemma ClimbedIffCited(index: ParentIndex, seeds: set<string>, ids: seq<string>, v: string)
    requires Climbed(Upward(index), seeds, ids, MAX_DEPTH)
    ensures v in ids <==> v !in seeds && Reaches(Upward(index), seeds, 3, v)
  {
    BallIffReaches(Upward(index), seeds, MAX_DEPTH, v);
    assert v in ids <==> v in Set(ids);
  }
}
