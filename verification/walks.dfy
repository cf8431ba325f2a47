/** Breadth-first balls in a directed graph whose arcs are given node by node. */
module Walks {

  type Graph = string -> seq<string>

  /** All heads of arcs that leave `s`. */
  function Succs(g: Graph, s: set<string>): set<string> {
    set a, b | a in s && b in g(a) :: b
  }

  /** The nodes within `d` arcs of the roots. */
  function Ball(g: Graph, roots: set<string>, d: nat): set<string> {
    if d == 0 then roots else Ball(g, roots, d - 1) + Succs(g, Ball(g, roots, d - 1))
  }

  /** The nodes at shortest distance exactly `d` from the roots. */
  function Layer(g: Graph, roots: set<string>, d: nat): set<string> {
    if d == 0 then roots else Ball(g, roots, d) - Ball(g, roots, d - 1)
  }

  // ---- Balls are what walks reach ----

  ghost predicate IsWalk(g: Graph, p: seq<string>) {
    p != [] && forall i :: 0 <= i < |p| - 1 ==> p[i + 1] in g(p[i])
  }

  /** A walk of at most `d` arcs leads from a root to `v`. */
  ghost predicate Reaches(g: Graph, roots: set<string>, d: nat, v: string) {
    exists p :: IsWalk(g, p) && p[0] in roots && p[|p| - 1] == v && |p| <= d + 1
  }

  lemma {:induction false} WalkStaysInBall(g: Graph, roots: set<string>, d: nat, p: seq<string>)
    requires IsWalk(g, p) && p[0] in roots && |p| <= d + 1
    ensures p[|p| - 1] in Ball(g, roots, d)
    decreases d
  {
    if |p| == 1 {
      BallGrows(g, roots, 0, d);
    } else {
      var q := p[..|p| - 1];
      assert IsWalk(g, q) by {
        forall i | 0 <= i < |q| - 1 ensures q[i + 1] in g(q[i]) { assert p[i + 1] in g(p[i]); }
      }
      WalkStaysInBall(g, roots, d - 1, q);
      assert p[|p| - 2 + 1] in g(p[|p| - 2]);
    }
  }

  lemma {:induction false} BallIsReached(g: Graph, roots: set<string>, d: nat, v: string) returns (p: seq<string>)
    requires v in Ball(g, roots, d)
    ensures IsWalk(g, p) && p[0] in roots && p[|p| - 1] == v && |p| <= d + 1
  {
    if d == 0 {
      p := [v];
    } else if v in Ball(g, roots, d - 1) {
      p := BallIsReached(g, roots, d - 1, v);
    } else {
      var a :| a in Ball(g, roots, d - 1) && v in g(a);
      p := BallIsReached(g, roots, d - 1, a);
      p := p + [v];
    }
  }

  /** A node is within distance `d` exactly when a walk of at most `d` arcs from a root leads to it. */
  lemma BallIffReaches(g: Graph, roots: set<string>, d: nat, v: string)
    ensures v in Ball(g, roots, d) <==> Reaches(g, roots, d, v)
  {
    if v in Ball(g, roots, d) {
      var p := BallIsReached(g, roots, d, v);
    }
    if Reaches(g, roots, d, v) {
      var p :| IsWalk(g, p) && p[0] in roots && p[|p| - 1] == v && |p| <= d + 1;
      WalkStaysInBall(g, roots, d, p);
    }
  }

  // ---- Layer by layer ----

  lemma {:induction false} BallGrows(g: Graph, roots: set<string>, d: nat, e: nat)
    requires d <= e
    ensures Ball(g, roots, d) <= Ball(g, roots, e)
    decreases e
  {
    if d < e { BallGrows(g, roots, d, e - 1); }
  }

  /** The next ball is this one and the heads of arcs leaving its outermost layer. */
  lemma BallStep(g: Graph, roots: set<string>, d: nat)
    ensures Ball(g, roots, d + 1) == Ball(g, roots, d) + Succs(g, Layer(g, roots, d))
  {
    if d > 0 {
      assert Succs(g, Ball(g, roots, d - 1)) <= Ball(g, roots, d);
      forall b | b in Succs(g, Ball(g, roots, d)) && b !in Ball(g, roots, d) ensures b in Succs(g, Layer(g, roots, d)) {
        var a :| a in Ball(g, roots, d) && b in g(a);
        assert a !in Ball(g, roots, d - 1);
      }
    }
  }

  /** Equal balls have equal successors. */
  lemma BallsAdvance(g: Graph, roots: set<string>, d: nat, e: nat)
    requires Ball(g, roots, d) == Ball(g, roots, e)
    ensures Ball(g, roots, d + 1) == Ball(g, roots, e + 1)
  {
  }

  /** A sequence that goes on the same from equal members stays where it once stopped. */
  lemma {:induction false} StopsForGood(ball: nat -> set<string>, d: nat, e: nat)
    requires forall m: nat, n: nat :: ball(m) == ball(n) ==> ball(m + 1) == ball(n + 1)
    requires d <= e && ball(d + 1) == ball(d)
    ensures ball(e) == ball(d)
    decreases e
  {
    if d < e {
      StopsForGood(ball, d, e - 1);
      assert ball(e - 1) == ball(d) ==> ball(e - 1 + 1) == ball(d + 1);
    }
  }

  function Balls(g: Graph, roots: set<string>): nat -> set<string> { (d: nat) => Ball(g, roots, d) }

  lemma BallsGoOn(g: Graph, roots: set<string>)
    ensures forall m: nat, n: nat :: Balls(g, roots)(m) == Balls(g, roots)(n) ==>
      Balls(g, roots)(m + 1) == Balls(g, roots)(n + 1)
  {
    forall m: nat, n: nat | Balls(g, roots)(m) == Balls(g, roots)(n)
      ensures Balls(g, roots)(m + 1) == Balls(g, roots)(n + 1)
    {
      BallsAdvance(g, roots, m, n);
    }
  }

  /** Once a ball stops growing it never grows again. */
  lemma BallStops(g: Graph, roots: set<string>, d: nat, e: nat)
    requires d <= e && Ball(g, roots, d + 1) == Ball(g, roots, d)
    ensures Ball(g, roots, e) == Ball(g, roots, d)
  {
    BallsGoOn(g, roots);
    StopsForGood(Balls(g, roots), d, e);
  }
}
