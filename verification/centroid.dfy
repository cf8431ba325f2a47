/** The centroid of a provenance: a bounded walk down its `from:` tags to base moments, and their mean. */
module Centroid {
  import opened Sequences
  import opened Walks
  import Text

  const VECTOR_DIM: nat := 512
  const MAX_DEPTH: nat := 4
  const LEAF_CAP: nat := 300

  datatype Delta = Delta(tags: seq<string>, embedding: Option<seq<real>>)

  type Lake = map<string, Delta>

  /** How a batch fetch orders its rows. */
  type Batch = seq<string> -> seq<string>

  /** One row per distinct existing id asked for. */
  ghost predicate BatchOk(batch: Batch, lake: Lake) {
    forall ids :: NoDup(batch(ids)) && forall v :: v in batch(ids) <==> v in ids && v in lake
  }

  predicate IsProvenance(d: Delta) { "kind:provenance" in d.tags && "kind:qa-marker" !in d.tags }

  predicate HasVector(d: Delta) { d.embedding.Some? && |d.embedding.value| == VECTOR_DIM }

  function FromIds(tags: seq<string>): seq<string> {
    if tags == [] then []
    else (if Text.StartsWith(tags[0], "from:") then [tags[0][5..]] else []) + FromIds(tags[1..])
  }

  function NonEmpty(): string -> bool { (s: string) => s != "" }

  /** A provenance leads to the ids it was made from; anything else leads nowhere. */
  function Downward(lake: Lake): Graph {
    (v: string) => if v in lake && IsProvenance(lake[v]) then Filter(NonEmpty(), FromIds(lake[v].tags)) else []
  }

  lemma {:induction false} FromIdsIff(tags: seq<string>, w: string)
    ensures w in FromIds(tags) <==> "from:" + w in tags
    decreases |tags|
  {
    if tags != [] {
      FromIdsIff(tags[1..], w);
      assert ("from:" + w)[..5] == "from:" && ("from:" + w)[5..] == w;
      assert Text.StartsWith(tags[0], "from:") ==> tags[0] == tags[0][..5] + tags[0][5..];
      assert forall t :: t in tags <==> t == tags[0] || t in tags[1..];
    }
  }

  /** The walk goes from a provenance that is no qa-marker to every non-empty id its `from:` tags name, and from nowhere
      else. */
  lemma ArcIffNamed(lake: Lake, v: string, w: string)
    ensures w in Downward(lake)(v) <==>
      && v in lake && "kind:provenance" in lake[v].tags && "kind:qa-marker" !in lake[v].tags
      && w != "" && "from:" + w in lake[v].tags
  {
    if v in lake { FromIdsIff(lake[v].tags, w); }
  }

  // ---- What the centroid averages ----

  /** `v` is a base moment or qa-marker within reach, or a provenance at the last depth, and has a vector. */
  predicate IsLeaf(lake: Lake, roots: set<string>, v: string) {
    && v in lake && HasVector(lake[v])
    && (!IsProvenance(lake[v]) || v !in Ball(Downward(lake), roots, MAX_DEPTH - 1))
  }

  /** The leaves at distance less than `n`. */
  function Leaves(lake: Lake, roots: set<string>, n: nat): set<string> {
    if n == 0 then {} else set v | v in Ball(Downward(lake), roots, n - 1) && IsLeaf(lake, roots, v)
  }

  /** The first depth from `d` on whose fetch fails, or one past the last depth. */
  function Stop(fail: nat -> bool, d: nat): (n: nat)
    requires d <= MAX_DEPTH + 1
    ensures d <= n <= MAX_DEPTH + 1
    decreases MAX_DEPTH + 1 - d
  {
    if d > MAX_DEPTH || fail(d) then d else Stop(fail, d + 1)
  }

  // ---- The walk ----

  class Walk {
    const lake: Lake
    const roots: set<string>
    var seen: set<string>
    var embeddings: seq<seq<real>>
    /** Whose embeddings these are. */
    ghost var leafIds: seq<string>

    constructor (lake: Lake, roots: set<string>)
      ensures this.lake == lake && this.roots == roots && seen == {} && embeddings == [] && leafIds == []
    {
      this.lake, this.roots := lake, roots;
      seen, embeddings, leafIds := {}, [], [];
    }

    ghost predicate Valid()
      reads this`embeddings, this`leafIds
    {
      && |leafIds| == |embeddings| <= LEAF_CAP && NoDup(leafIds)
      && forall i :: 0 <= i < |leafIds| ==>
        leafIds[i] in lake && HasVector(lake[leafIds[i]]) && embeddings[i] == lake[leafIds[i]].embedding.value
    }

    /** The walk has collected every leaf at distance less than `n`, or as many as the cap allows. */
    ghost predicate Collected(n: nat)
      reads this`embeddings, this`leafIds
    {
      && Valid() && Set(leafIds) <= Leaves(lake, roots, n)
      && (|embeddings| < LEAF_CAP ==> Set(leafIds) == Leaves(lake, roots, n))
    }

    /** What a layer finds before it descends. */
    ghost predicate AtLayer(ids: seq<string>, depth: nat)
      reads this
    {
      && Collected(depth)
      && seen == (if depth == 0 then {} else Ball(Downward(lake), roots, depth - 1))
      && seen + (Set(ids) - {""}) == Ball(Downward(lake), roots, depth)
    }

    method Collect(ids: seq<string>, depth: nat, batch: Batch, fail: nat -> bool)
      requires depth <= MAX_DEPTH + 1 && BatchOk(batch, lake)
      requires AtLayer(ids, depth)
      modifies this
      ensures Collected(Stop(fail, depth))
      decreases MAX_DEPTH + 1 - depth, 2
    {
      if depth > MAX_DEPTH || |embeddings| >= LEAF_CAP {
        LeavesGrow(lake, roots, depth, Stop(fail, depth));
        return;
      }
      var before := seen;
      var unseen := Filter((i: string) => i != "" && i !in before, ids);
      if unseen == [] {
        NothingUnseen(lake, roots, ids, before, depth, Stop(fail, depth));
        return;
      }
      UnseenIsLayer(lake, roots, ids, unseen, before, depth);
      CollectUnseen(unseen, depth, batch, fail);
    }

    /** Fetches and handles the ids of one layer, then descends. */
    method CollectUnseen(unseen: seq<string>, depth: nat, batch: Batch, fail: nat -> bool)
      requires depth <= MAX_DEPTH && BatchOk(batch, lake) && |embeddings| < LEAF_CAP && Collected(depth)
      requires forall v :: v in unseen <==> v in Layer(Downward(lake), roots, depth)
      requires seen + Set(unseen) == Ball(Downward(lake), roots, depth)
      modifies this
      ensures Collected(Stop(fail, depth))
      decreases MAX_DEPTH + 1 - depth, 1
    {
      MarkSeen(unseen);
      if fail(depth) {
        return;
      }
      BatchOfLayer(lake, roots, batch, unseen, depth);
      Descend(batch(unseen), depth, batch, fail);
    }

    /** Handles the rows fetched for one layer and goes on to the next. */
    method Descend(rows: seq<string>, depth: nat, batch: Batch, fail: nat -> bool)
      requires depth <= MAX_DEPTH && BatchOk(batch, lake) && |embeddings| < LEAF_CAP && Collected(depth) && !fail(depth)
      requires seen == Ball(Downward(lake), roots, depth)
      requires NoDup(rows) && forall v :: v in rows <==> v in Layer(Downward(lake), roots, depth) && v in lake
      modifies this
      ensures Collected(Stop(fail, depth))
      decreases MAX_DEPTH + 1 - depth, 0
    {
      var nextLayer := Visit(rows, depth);
      if nextLayer.None? {
        LeavesGrow(lake, roots, depth + 1, Stop(fail, depth));
        return;
      }
      if nextLayer.value == [] {
        return;
      }
      Collect(nextLayer.value, depth + 1, batch, fail);
    }

    /** Handles the rows of one layer; None means that the cap was reached. */
    method Visit(rows: seq<string>, depth: nat) returns (nextLayer: Option<seq<string>>)
      requires depth <= MAX_DEPTH && Collected(depth) && |embeddings| < LEAF_CAP
      requires seen == Ball(Downward(lake), roots, depth)
      requires NoDup(rows) && forall v :: v in rows <==> v in Layer(Downward(lake), roots, depth) && v in lake
      modifies this`embeddings, this`leafIds
      ensures Collected(depth + 1)
      ensures nextLayer.None? ==> |embeddings| == LEAF_CAP
      ensures nextLayer.Some? && nextLayer.value == [] ==> AllMet(lake, roots, depth + 1)
      ensures nextLayer.Some? && nextLayer.value != [] ==> depth < MAX_DEPTH && AtLayer(nextLayer.value, depth + 1)
    {
      LayerIsNew(lake, roots, rows, leafIds, depth);
      ghost var n;
      nextLayer, n := ScanRows(rows, depth);
      LayerLeaves(lake, roots, rows, n, depth);
      if nextLayer == Some([]) {
        NothingNext(lake, roots, rows, depth);
      } else if nextLayer.Some? {
        NextBall(lake, roots, rows, nextLayer.value, depth);
      }
    }

    method MarkSeen(unseen: seq<string>)
      modifies this`seen
      ensures seen == old(seen) + Set(unseen)
    {
      for i := 0 to |unseen|
        invariant seen == old(seen) + Set(unseen[..i])
      {
        seen := seen + {unseen[i]};
        assert unseen[..i + 1] == unseen[..i] + [unseen[i]];
      }
      assert unseen[..|unseen|] == unseen;
    }

    /** Scans one layer's rows, of which it finishes `n`: leaves are collected, provenances above the last depth
        name the next layer. None means that the cap was reached. */
    method ScanRows(rows: seq<string>, depth: nat) returns (nextLayer: Option<seq<string>>, ghost n: nat)
      requires Valid() && |embeddings| < LEAF_CAP && NoDup(rows)
      requires forall v :: v in rows ==> v in lake && v !in leafIds
      modifies this`embeddings, this`leafIds
      ensures Valid() && n <= |rows| && Set(leafIds) == Set(old(leafIds)) + LeafRows(lake, rows[..n], depth)
      ensures nextLayer.None? <==> |embeddings| == LEAF_CAP
      ensures nextLayer.Some? ==> n == |rows| && nextLayer.value == ChildIds(lake, rows, depth)
    {
      var next: seq<string> := [];
      for i := 0 to |rows|
        invariant Valid() && |embeddings| < LEAF_CAP
        invariant Set(leafIds) == Set(old(leafIds)) + LeafRows(lake, rows[..i], depth)
        invariant next == ChildIds(lake, rows[..i], depth)
      {
        assert rows[..i + 1] == rows[..i] + [rows[i]] && rows[i] in rows;
        NoDupFirst(rows, i);
        assert rows[i] !in leafIds by { assert rows[i] !in Set(leafIds); }
        LeafRowsStep(lake, rows[..i], rows[i], depth);
        var more := ScanRow(rows[i], depth);
        next := next + more;
        if |embeddings| >= LEAF_CAP {
          return None, i + 1;
        }
      }
      assert rows[..|rows|] == rows;
      return Some(next), |rows|;
    }

    /** One row: descend into it, collect it, or pass it over. */
    method ScanRow(v: string, depth: nat) returns (children: seq<string>)
      requires Valid() && |embeddings| < LEAF_CAP && v in lake && v !in leafIds
      modifies this`embeddings, this`leafIds
      ensures Valid()
      ensures children == if IsProvenance(lake[v]) && depth < MAX_DEPTH then FromIds(lake[v].tags) else []
      ensures Set(leafIds) == Set(old(leafIds)) + if IsLeafRow(lake[v], depth) then {v} else {}
    {
      children := [];
      var d := lake[v];
      if IsProvenance(d) && depth < MAX_DEPTH {
        children := FromIds(d.tags);
      } else if HasVector(d) {
        embeddings := embeddings + [d.embedding.value];
        leafIds := leafIds + [v];
      }
    }
  }

  // ---- One layer ----

  /** A row that the scan at this depth collects. */
  predicate IsLeafRow(d: Delta, depth: nat) { HasVector(d) && !(IsProvenance(d) && depth < MAX_DEPTH) }

  function LeafRows(lake: Lake, rows: seq<string>, depth: nat): set<string> {
    set v | v in rows && v in lake && IsLeafRow(lake[v], depth)
  }

  lemma LeafRowsStep(lake: Lake, rows: seq<string>, v: string, depth: nat)
    requires v in lake
    ensures LeafRows(lake, rows + [v], depth)
      == LeafRows(lake, rows, depth) + if IsLeafRow(lake[v], depth) then {v} else {}
  {
  }

  lemma NothingUnseen(lake: Lake, roots: set<string>, ids: seq<string>, before: set<string>, depth: nat, stop: nat)
    requires before == (if depth == 0 then {} else Ball(Downward(lake), roots, depth - 1))
    requires before + (Set(ids) - {""}) == Ball(Downward(lake), roots, depth)
    requires forall i :: i in ids && i != "" ==> i in before
    requires depth <= stop
    ensures Leaves(lake, roots, stop) == Leaves(lake, roots, depth)
  {
    assert Ball(Downward(lake), roots, depth) == before;
    LeavesStop(lake, roots, depth, stop);
  }

  /** The leaves at distance less than `n` are all the leaves there are. */
  ghost predicate AllMet(lake: Lake, roots: set<string>, n: nat) {
    forall stop :: n <= stop <= MAX_DEPTH + 1 ==> Leaves(lake, roots, stop) == Leaves(lake, roots, n)
  }

  /** With nothing to descend to, all the leaves have been met. */
  lemma {:induction false} NothingNext(lake: Lake, roots: set<string>, rows: seq<string>, depth: nat)
    requires forall v :: v in rows <==> v in Layer(Downward(lake), roots, depth) && v in lake
    requires ChildIds(lake, rows, depth) == []
    ensures AllMet(lake, roots, depth + 1)
  {
    forall stop | depth + 1 <= stop <= MAX_DEPTH + 1
      ensures Leaves(lake, roots, stop) == Leaves(lake, roots, depth + 1)
    {
      if depth + 1 < stop { NoChildrenNoMore(lake, roots, rows, depth, stop); }
    }
  }

  lemma {:induction false} NoChildrenNoMore(lake: Lake, roots: set<string>, rows: seq<string>, depth: nat, stop: nat)
    requires forall v :: v in rows <==> v in Layer(Downward(lake), roots, depth) && v in lake
    requires ChildIds(lake, rows, depth) == [] && depth + 1 < stop <= MAX_DEPTH + 1
    ensures Leaves(lake, roots, stop) == Leaves(lake, roots, depth + 1)
  {
    NextBall(lake, roots, rows, [], depth);
    NothingUnseen(lake, roots, [], Ball(Downward(lake), roots, depth), depth + 1, stop);
  }

  lemma BatchOfLayer(lake: Lake, roots: set<string>, batch: Batch, unseen: seq<string>, depth: nat)
    requires BatchOk(batch, lake) && forall v :: v in unseen <==> v in Layer(Downward(lake), roots, depth)
    ensures NoDup(batch(unseen))
    ensures forall v :: v in batch(unseen) <==> v in Layer(Downward(lake), roots, depth) && v in lake
  {
  }

  lemma UnseenIsLayer(lake: Lake, roots: set<string>, ids: seq<string>, unseen: seq<string>, before: set<string>,
                      depth: nat)
    requires forall i :: i in unseen <==> i in ids && i != "" && i !in before
    requires before == (if depth == 0 then {} else Ball(Downward(lake), roots, depth - 1))
    requires before + (Set(ids) - {""}) == Ball(Downward(lake), roots, depth)
    ensures forall v :: v in unseen <==> v in Layer(Downward(lake), roots, depth)
    ensures before + Set(unseen) == Ball(Downward(lake), roots, depth)
  {
    assert Set(ids) - {""} - before == Set(unseen);
    forall v ensures v in unseen <==> v in Layer(Downward(lake), roots, depth) {
      assert v in Set(ids) <==> v in ids;
      assert v in Ball(Downward(lake), roots, depth) <==> v in before + (Set(ids) - {""});
    }
  }

  lemma RowIsLeafIff(lake: Lake, roots: set<string>, v: string, depth: nat)
    requires depth <= MAX_DEPTH && v in Layer(Downward(lake), roots, depth)
    ensures IsLeaf(lake, roots, v) <==> v in lake && IsLeafRow(lake[v], depth)
  {
    if depth < MAX_DEPTH { BallGrows(Downward(lake), roots, depth, MAX_DEPTH - 1); }
  }

  /** No row of this layer was collected in a nearer one. */
  lemma LayerIsNew(lake: Lake, roots: set<string>, rows: seq<string>, leafIds: seq<string>, depth: nat)
    requires Set(leafIds) <= Leaves(lake, roots, depth)
    requires forall v :: v in rows ==> v in Layer(Downward(lake), roots, depth)
    ensures forall v :: v in rows ==> v !in leafIds
  {
    forall v | v in leafIds ensures v !in Layer(Downward(lake), roots, depth) {
      assert v in Set(leafIds);
    }
  }

  /** The leaves of nearer layers and all of this layer's rows are the leaves up to here; a part of the rows gives a
      part. */
  lemma LayerLeaves(lake: Lake, roots: set<string>, rows: seq<string>, n: nat, depth: nat)
    requires n <= |rows| && depth <= MAX_DEPTH
    requires forall v :: v in rows <==> v in Layer(Downward(lake), roots, depth) && v in lake
    ensures Leaves(lake, roots, depth) + LeafRows(lake, rows[..n], depth) <= Leaves(lake, roots, depth + 1)
    ensures n == |rows| ==>
      Leaves(lake, roots, depth) + LeafRows(lake, rows[..n], depth) == Leaves(lake, roots, depth + 1)
  {
    LeavesStep(lake, roots, depth);
    var layer := set v | v in Layer(Downward(lake), roots, depth) && IsLeaf(lake, roots, v);
    forall v ensures v in layer <==> v in LeafRows(lake, rows, depth) {
      if v in Layer(Downward(lake), roots, depth) { RowIsLeafIff(lake, roots, v, depth); }
    }
    assert layer == LeafRows(lake, rows, depth);
    SomeLeafRows(lake, rows, n, depth);
  }

  lemma SomeLeafRows(lake: Lake, rows: seq<string>, n: nat, depth: nat)
    requires n <= |rows|
    ensures LeafRows(lake, rows[..n], depth) <= LeafRows(lake, rows, depth)
    ensures n == |rows| ==> LeafRows(lake, rows[..n], depth) == LeafRows(lake, rows, depth)
  {
    assert rows[..|rows|] == rows;
    assert forall v :: v in rows[..n] ==> v in rows;
  }

  lemma SuccsAre(lake: Lake, layer: set<string>, rows: seq<string>, next: seq<string>)
    requires forall v :: v in rows <==> v in layer && v in lake
    requires forall b :: b in next <==> exists a :: a in rows && IsProvenance(lake[a]) && b in FromIds(lake[a].tags)
    ensures Succs(Downward(lake), layer) == Set(next) - {""}
  {
    forall b ensures b in Succs(Downward(lake), layer) <==> b in Set(next) - {""} {
      NextIffSucc(lake, layer, rows, next, b);
    }
  }

  lemma NextBall(lake: Lake, roots: set<string>, rows: seq<string>, next: seq<string>, depth: nat)
    requires forall v :: v in rows <==> v in Layer(Downward(lake), roots, depth) && v in lake
    requires next == ChildIds(lake, rows, depth)
    ensures depth < MAX_DEPTH ==>
      Ball(Downward(lake), roots, depth) + (Set(next) - {""}) == Ball(Downward(lake), roots, depth + 1)
    ensures depth >= MAX_DEPTH ==> next == []
  {
    ChildIdsAre(lake, rows, depth);
    if depth >= MAX_DEPTH {
      HeadIsMember(next);
    } else {
      SuccsAre(lake, Layer(Downward(lake), roots, depth), rows, next);
      BallStep(Downward(lake), roots, depth);
    }
  }

  lemma NextIffSucc(lake: Lake, layer: set<string>, rows: seq<string>, next: seq<string>, b: string)
    requires forall v :: v in rows <==> v in layer && v in lake
    requires b in next <==> exists a :: a in rows && IsProvenance(lake[a]) && b in FromIds(lake[a].tags)
    ensures b in Succs(Downward(lake), layer) <==> b in next && b != ""
  {
    var g := Downward(lake);
    if b in Succs(g, layer) {
      var a :| a in layer && b in g(a);
      assert a in rows && b in FromIds(lake[a].tags);
    }
    if b in next && b != "" {
      var a :| a in rows && IsProvenance(lake[a]) && b in FromIds(lake[a].tags);
      assert b in g(a);
    }
  }

  /** The ids named by the provenances among the rows, unless this is the last depth. */
  function ChildIds(lake: Lake, rows: seq<string>, depth: nat): seq<string>
    requires forall v :: v in rows ==> v in lake
  {
    if rows == [] then []
    else
      var init, last := rows[..|rows| - 1], rows[|rows| - 1];
      assert last in rows && forall v :: v in init ==> v in rows;
      ChildIds(lake, init, depth)
      + if IsProvenance(lake[last]) && depth < MAX_DEPTH then FromIds(lake[last].tags) else []
  }

  lemma {:induction false} ChildIdsAre(lake: Lake, rows: seq<string>, depth: nat)
    requires forall v :: v in rows ==> v in lake
    ensures forall b :: b in ChildIds(lake, rows, depth) <==> (depth < MAX_DEPTH &&
      exists a :: a in rows && IsProvenance(lake[a]) && b in FromIds(lake[a].tags))
    decreases |rows|
  {
    if rows != [] {
      var init, last := rows[..|rows| - 1], rows[|rows| - 1];
      assert last in rows && forall v :: v in init ==> v in rows;
      ChildIdsAre(lake, init, depth);
      assert forall v :: v in rows <==> v in init || v == last;
    }
  }

  lemma LeavesGrow(lake: Lake, roots: set<string>, n: nat, m: nat)
    requires n <= m
    ensures Leaves(lake, roots, n) <= Leaves(lake, roots, m)
  {
    if 0 < n { BallGrows(Downward(lake), roots, n - 1, m - 1); }
  }

  lemma LeavesStep(lake: Lake, roots: set<string>, depth: nat)
    ensures Leaves(lake, roots, depth + 1)
      == Leaves(lake, roots, depth) + set v | v in Layer(Downward(lake), roots, depth) && IsLeaf(lake, roots, v)
  {
    if depth > 0 { BallGrows(Downward(lake), roots, depth - 1, depth); }
  }

  lemma LeavesStop(lake: Lake, roots: set<string>, n: nat, m: nat)
    requires n <= m
    requires if n == 0 then roots == {} else Ball(Downward(lake), roots, n) == Ball(Downward(lake), roots, n - 1)
    ensures Leaves(lake, roots, m) == Leaves(lake, roots, n)
  {
    if n == 0 {
      if m > 0 { NoRootsNoLeaves(lake, m); }
    } else {
      BallStops(Downward(lake), roots, n - 1, m - 1);
      SameBallSameLeaves(lake, roots, n - 1, m - 1);
    }
  }

  lemma SameBallSameLeaves(lake: Lake, roots: set<string>, d: nat, e: nat)
    requires Ball(Downward(lake), roots, d) == Ball(Downward(lake), roots, e)
    ensures Leaves(lake, roots, d + 1) == Leaves(lake, roots, e + 1)
  {
  }

  lemma NoRootsNoLeaves(lake: Lake, m: nat)
    requires m > 0
    ensures Leaves(lake, {}, m) == {}
  {
    NoRoots(Downward(lake), m - 1);
  }

  lemma {:induction false} NoRoots(g: Graph, d: nat)
    ensures Ball(g, {}, d) == {}
  {
    if d > 0 { NoRoots(g, d - 1); }
  }
}
