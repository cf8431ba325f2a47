/** The centroid of the collected leaves, and what is known about it. */
module CentroidMean {
  import opened Sequences
  import opened Walks
  import opened Centroid
  import Text

  ghost predicate Vectors(es: seq<seq<real>>) { forall k :: 0 <= k < |es| ==> |es[k]| == VECTOR_DIM }

  /** The sum of coordinate `i`. */
  function ColumnSum(es: seq<seq<real>>, i: nat): real
    requires Vectors(es) && i < VECTOR_DIM
  {
    if es == [] then 0.0 else ColumnSum(es[..|es| - 1], i) + es[|es| - 1][i]
  }

  /** Sums add over parts. */
  lemma {:induction false} ColumnSumAdds(a: seq<seq<real>>, b: seq<seq<real>>, i: nat)
    requires Vectors(a) && Vectors(b) && i < VECTOR_DIM
    ensures Vectors(a + b) && ColumnSum(a + b, i) == ColumnSum(a, i) + ColumnSum(b, i)
    decreases |b|
  {
    if b == [] {
      assert a + b == a;
    } else {
      ColumnSumAdds(a, b[..|b| - 1], i);
      assert (a + b)[..|a + b| - 1] == a + b[..|b| - 1];
    }
  }

  ghost predicate Between(es: seq<seq<real>>, i: nat, lo: real, hi: real)
    requires Vectors(es) && i < VECTOR_DIM
  {
    forall k :: 0 <= k < |es| ==> lo <= es[k][i] <= hi
  }

  lemma {:induction false} ColumnSumBetween(es: seq<seq<real>>, i: nat, lo: real, hi: real)
    requires Vectors(es) && i < VECTOR_DIM && Between(es, i, lo, hi)
    ensures |es| as real * lo <= ColumnSum(es, i) <= |es| as real * hi
  {
    if es != [] {
      var init := es[..|es| - 1];
      ColumnSumBetween(init, i, lo, hi);
      assert |es| as real * lo == |init| as real * lo + lo;
      assert |es| as real * hi == |init| as real * hi + hi;
    }
  }

  lemma ScaledBetween(n: real, sum: real, lo: real, hi: real)
    requires n > 0.0 && n * lo <= sum <= n * hi
    ensures lo <= sum * (1.0 / n) <= hi
  {
    var inv := 1.0 / n;
    assert n * inv == 1.0;
    assert (n * lo) * inv == lo * (n * inv) == lo;
    assert (n * hi) * inv == hi * (n * inv) == hi;
    assert (n * lo) * inv <= sum * inv <= (n * hi) * inv;
  }

  /** Every coordinate of a mean lies between the bounds of that coordinate. */
  lemma MeanBetween(es: seq<seq<real>>, i: nat, lo: real, hi: real)
    requires Vectors(es) && i < VECTOR_DIM && es != [] && Between(es, i, lo, hi)
    ensures lo <= ColumnSum(es, i) * (1.0 / |es| as real) <= hi
  {
    ColumnSumBetween(es, i, lo, hi);
    ScaledBetween(|es| as real, ColumnSum(es, i), lo, hi);
  }

  /** Every coordinate is the sum of that coordinate over the number of vectors. */
  ghost predicate IsMean(es: seq<seq<real>>, c: seq<real>)
    requires Vectors(es) && es != []
  {
    |c| == VECTOR_DIM && forall i :: 0 <= i < VECTOR_DIM ==> c[i] == ColumnSum(es, i) * (1.0 / |es| as real)
  }

  /** Adds one vector into the accumulator. */
  method AddInto(centroid: array<real>, emb: seq<real>)
    requires centroid.Length == VECTOR_DIM == |emb|
    modifies centroid
    ensures forall i :: 0 <= i < VECTOR_DIM ==> centroid[i] == old(centroid[i]) + emb[i]
  {
    for i := 0 to VECTOR_DIM
      invariant forall j :: 0 <= j < i ==> centroid[j] == old(centroid[j]) + emb[j]
      invariant forall j :: i <= j < VECTOR_DIM ==> centroid[j] == old(centroid[j])
    {
      centroid[i] := centroid[i] + emb[i];
    }
  }

  method Mean(es: seq<seq<real>>) returns (centroid: array<real>)
    requires Vectors(es) && es != []
    ensures fresh(centroid) && IsMean(es, centroid[..])
  {
    var n := |es|;
    centroid := new real[VECTOR_DIM](_ => 0.0);
    for k := 0 to n
      invariant fresh(centroid) && centroid.Length == VECTOR_DIM
      invariant forall i :: 0 <= i < VECTOR_DIM ==> centroid[i] == ColumnSum(es[..k], i)
    {
      assert es[..k + 1][..k] == es[..k];
      AddInto(centroid, es[k]);
    }
    assert es[..n] == es;
    var inv := 1.0 / n as real;
    for i := 0 to VECTOR_DIM
      invariant forall j :: 0 <= j < i ==> centroid[j] == ColumnSum(es, j) * inv
      invariant forall j :: i <= j < VECTOR_DIM ==> centroid[j] == ColumnSum(es, j)
    {
      centroid[i] := centroid[i] * inv;
    }
  }

  function NotBlank(): string -> bool { (s: string) => Text.Strip(s) != "" }

  function Roots(fromIds: seq<string>): set<string> { Set(Filter(NotBlank(), fromIds)) }

  /** The walk starts at exactly the given ids that are more than whitespace. */
  lemma RootsAre(fromIds: seq<string>, v: string)
    ensures v in Roots(fromIds) <==> v in fromIds && exists c :: c in v && !Text.IsSpace(c)
  {
    var before, after := Text.StripMeans(v);
    if Text.Strip(v) != "" { assert Text.Strip(v)[0] in v; }
  }

  /** The leaves a whole walk would average when the fetch at some depth may fail. */
  function Reachable(lake: Lake, fromIds: seq<string>, fail: nat -> bool): set<string> {
    Leaves(lake, Roots(fromIds), Stop(fail, 0))
  }

  /** `ids` are the leaves used: all of them, each once, when they fit under the cap, and as many as the cap
      otherwise. */
  ghost predicate Used(lake: Lake, leaves: set<string>, ids: seq<string>) {
    && NoDup(ids) && Set(ids) <= leaves
    && |ids| == (if |leaves| <= 300 then |leaves| else 300)
    && (|leaves| <= 300 ==> Set(ids) == leaves)
    && HaveVectors(lake, ids)
  }

  ghost predicate HaveVectors(lake: Lake, ids: seq<string>) {
    forall k :: 0 <= k < |ids| ==> ids[k] in lake && HasVector(lake[ids[k]])
  }

  lemma {:induction false} NoDupSize(ids: seq<string>)
    requires NoDup(ids)
    ensures |Set(ids)| == |ids|
  {
    if ids != [] {
      var init, last := ids[..|ids| - 1], ids[|ids| - 1];
      NoDupSize(init);
      assert Set(ids) == Set(init) + {last} by { assert ids == init + [last]; }
      assert last !in Set(init);
    }
  }

  lemma CollectedIsUsed(lake: Lake, leaves: set<string>, ids: seq<string>)
    requires NoDup(ids) && |ids| <= LEAF_CAP && Set(ids) <= leaves && (|ids| < LEAF_CAP ==> Set(ids) == leaves)
    requires HaveVectors(lake, ids)
    ensures Used(lake, leaves, ids)
  {
    NoDupSize(ids);
    SubsetSize(Set(ids), leaves);
  }

  /** The vectors of the leaves used, in the order they were found. */
  function VectorsOf(lake: Lake, ids: seq<string>): seq<seq<real>>
    requires HaveVectors(lake, ids)
  {
    seq(|ids|, k requires 0 <= k < |ids| => lake[ids[k]].embedding.value)
  }

  /** Nothing was used exactly when there was nothing to use. */
  lemma UsedNone(lake: Lake, leaves: set<string>, ids: seq<string>)
    requires Used(lake, leaves, ids)
    ensures ids == [] <==> leaves == {}
  {
  }

  method CollectLeaves(lake: Lake, fromIds: seq<string>, batch: Batch, fail: nat -> bool)
    returns (embeddings: seq<seq<real>>, ghost ids: seq<string>)
    requires BatchOk(batch, lake)
    ensures Used(lake, Reachable(lake, fromIds, fail), ids)
    ensures embeddings == VectorsOf(lake, ids)
  {
    var cleaned := Filter(NotBlank(), fromIds);
    var walk := new Walk(lake, Roots(fromIds));
    StartsAtRoots(lake, fromIds);
    walk.Collect(cleaned, 0, batch, fail);
    embeddings, ids := walk.embeddings, walk.leafIds;
    assert HaveVectors(lake, ids) && embeddings == VectorsOf(lake, ids);
    CollectedIsUsed(lake, Leaves(lake, walk.roots, Stop(fail, 0)), ids);
  }

  lemma StartsAtRoots(lake: Lake, fromIds: seq<string>)
    ensures {} + (Set(Filter(NotBlank(), fromIds)) - {""}) == Ball(Downward(lake), Roots(fromIds), 0)
  {
    assert Text.Strip("") == "";
    assert "" !in Filter(NotBlank(), fromIds);
  }

  /** The centroid is the coordinate-wise mean of exactly the leaves in reach, up to the cap; there is none without
      leaves. */
  method ComputeCentroid(lake: Lake, fromIds: seq<string>, batch: Batch, fail: nat -> bool)
    returns (centroid: Option<seq<real>>, ghost ids: seq<string>)
    requires BatchOk(batch, lake)
    ensures Used(lake, Reachable(lake, fromIds, fail), ids)
    ensures centroid.None? <==> Reachable(lake, fromIds, fail) == {}
    ensures centroid.Some? ==> ids != [] && IsMean(VectorsOf(lake, ids), centroid.value)
  {
    var cleaned := Filter(NotBlank(), fromIds);
    if cleaned == [] {
      NoLeaves(lake, fromIds, fail);
      return None, [];
    }
    var embeddings;
    embeddings, ids := CollectLeaves(lake, fromIds, batch, fail);
    UsedNone(lake, Reachable(lake, fromIds, fail), ids);
    if embeddings == [] {
      return None, ids;
    }
    var mean := Mean(embeddings);
    centroid := Some(mean[..]);
  }

  lemma NoLeaves(lake: Lake, fromIds: seq<string>, fail: nat -> bool)
    requires Filter(NotBlank(), fromIds) == []
    ensures Reachable(lake, fromIds, fail) == {} && Used(lake, Reachable(lake, fromIds, fail), [])
  {
    assert Roots(fromIds) == {};
    LeavesStop(lake, {}, 0, Stop(fail, 0));
  }

  /** With no failed fetch, the leaves are the vector-bearing deltas that a walk of at most four arcs reaches and
      that are no provenances, or provenances that no walk of three arcs reaches, however the graph loops. */
  lemma LeafIffReached(lake: Lake, fromIds: seq<string>, fail: nat -> bool, v: string)
    requires forall d: nat :: d <= MAX_DEPTH ==> !fail(d)
    ensures v in Reachable(lake, fromIds, fail) <==>
      && v in lake && lake[v].embedding.Some? && |lake[v].embedding.value| == 512
      && Reaches(Downward(lake), Roots(fromIds), 4, v)
      && ("kind:provenance" !in lake[v].tags || "kind:qa-marker" in lake[v].tags
          || !Reaches(Downward(lake), Roots(fromIds), 3, v))
  {
    NoFailure(fail, 0);
    BallIffReaches(Downward(lake), Roots(fromIds), MAX_DEPTH, v);
    BallIffReaches(Downward(lake), Roots(fromIds), MAX_DEPTH - 1, v);
  }

  lemma {:induction false} NoFailure(fail: nat -> bool, d: nat)
    requires d <= MAX_DEPTH + 1 && forall e: nat :: e <= MAX_DEPTH ==> !fail(e)
    ensures Stop(fail, d) == MAX_DEPTH + 1
    decreases MAX_DEPTH + 1 - d
  {
    if d <= MAX_DEPTH { NoFailure(fail, d + 1); }
  }

  /** Whatever lies between two bounds in some coordinate of every leaf used lies between them in the centroid. */
  lemma CentroidBetween(lake: Lake, ids: seq<string>, i: nat, lo: real, hi: real)
    requires HaveVectors(lake, ids) && i < VECTOR_DIM && ids != []
    requires forall k :: 0 <= k < |ids| ==> lo <= lake[ids[k]].embedding.value[i] <= hi
    ensures lo <= ColumnSum(VectorsOf(lake, ids), i) * (1.0 / |ids| as real) <= hi
  {
    var es := VectorsOf(lake, ids);
    assert Between(es, i, lo, hi);
    MeanBetween(es, i, lo, hi);
  }
}
