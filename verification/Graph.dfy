/** Directed graphs, and the distance of a vertex from a root. */
module Graph {

  /** The targets of each vertex's edges; every target is a vertex. */
  type Graph = g: map<nat, seq<nat>> | forall v, e :: v in g && 0 <= e < |g[v]| ==> g[v][e] in g
    witness map[]

  /** The vertices that an edge from `from` leads to. */
  function Targets(g: Graph, from: set<nat>): set<nat>
    requires from <= g.Keys
  {
    set v, e | v in from && 0 <= e < |g[v]| :: g[v][e]
  }

  /** The vertices that at most `k` edges lead to. */
  function Ball(g: Graph, root: nat, k: nat): (b: set<nat>)
    requires root in g
    ensures root in b && b <= g.Keys
  {
    if k == 0 then {root} else Ball(g, root, k - 1) + Targets(g, Ball(g, root, k - 1))
  }

  /** The vertices at distance exactly `k`. */
  function Layer(g: Graph, root: nat, k: nat): set<nat>
    requires root in g
  {
    if k == 0 then {root} else Ball(g, root, k) - Ball(g, root, k - 1)
  }

  // ---------------------------------------------------------------- walks

  predicate IsWalk(g: Graph, p: seq<nat>) {
    && p != [] && p[0] in g
    && forall i :: 0 <= i < |p| - 1 ==> p[i] in g && p[i + 1] in g[p[i]]
  }

  ghost predicate Reaches(g: Graph, root: nat, v: nat, k: nat) {
    exists p :: IsWalk(g, p) && p[0] == root && p[|p| - 1] == v && |p| - 1 <= k
  }

  /** A ball holds what walks of at most its radius reach: distance is the length of a shortest walk. */
  lemma {:induction false} BallIsReached(g: Graph, root: nat, v: nat, k: nat)
    requires root in g
    ensures v in Ball(g, root, k) <==> Reaches(g, root, v, k)
  {
    if v in Ball(g, root, k) {
      BallHasWalk(g, root, v, k);
    }
    if Reaches(g, root, v, k) {
      var p :| IsWalk(g, p) && p[0] == root && p[|p| - 1] == v && |p| - 1 <= k;
      WalkStays(g, root, p, k);
    }
  }

  lemma {:induction false} BallHasWalk(g: Graph, root: nat, v: nat, k: nat)
    requires root in g && v in Ball(g, root, k)
    ensures Reaches(g, root, v, k)
    decreases k
  {
    if v == root {
      assert IsWalk(g, [root]);
    } else if v in Ball(g, root, k - 1) {
      BallHasWalk(g, root, v, k - 1);
    } else {
      var u, e :| u in Ball(g, root, k - 1) && 0 <= e < |g[u]| && g[u][e] == v;
      BallHasWalk(g, root, u, k - 1);
      var p :| IsWalk(g, p) && p[0] == root && p[|p| - 1] == u && |p| - 1 <= k - 1;
      assert IsWalk(g, p + [v]);
    }
  }

  lemma {:induction false} WalkStays(g: Graph, root: nat, p: seq<nat>, k: nat)
    requires root in g && IsWalk(g, p) && p[0] == root && |p| - 1 <= k
    ensures p[|p| - 1] in Ball(g, root, k)
  {
    if |p| > 1 {
      var q := p[..|p| - 1];
      assert IsWalk(g, q);
      WalkStays(g, root, q, k - 1);
      var u := q[|q| - 1];
      assert u == p[|p| - 2];
      var e :| 0 <= e < |g[u]| && g[u][e] == p[|p| - 1];
      assert g[u][e] in Targets(g, Ball(g, root, k - 1));
    }
  }

  // ---------------------------------------------------------------- layers

  lemma {:induction false} BallGrows(g: Graph, root: nat, j: nat, k: nat)
    requires root in g && j <= k
    ensures Ball(g, root, j) <= Ball(g, root, k)
  {
    if j < k {
      BallGrows(g, root, j, k - 1);
    }
  }

  /** A vertex is at one distance only. */
  lemma LayersAreApart(g: Graph, root: nat, v: nat, j: nat, k: nat)
    requires root in g && v in Layer(g, root, j) && v in Layer(g, root, k)
    ensures j == k
  {
    hide Ball;
    if j < k {
      BallGrows(g, root, j, k - 1);
    } else if k < j {
      BallGrows(g, root, k, j - 1);
    }
  }

  lemma LayerInBall(g: Graph, root: nat, v: nat, k: nat)
    requires root in g && v in Layer(g, root, k)
    ensures v in Ball(g, root, k)
  {
  }

  /** An edge leads at most one layer further. */
  lemma EdgeFromLayer(g: Graph, root: nat, u: nat, e: nat, k: nat)
    requires root in g && u in Layer(g, root, k) && e < |g[u]|
    ensures g[u][e] in Ball(g, root, k + 1)
  {
    LayerInBall(g, root, u, k);
    assert g[u][e] in Targets(g, Ball(g, root, k));
  }

  /** A vertex of the next layer is the target of an edge from this one. */
  lemma LayerHasEdge(g: Graph, root: nat, v: nat, k: nat) returns (u: nat, e: nat)
    requires root in g && v in Layer(g, root, k + 1)
    ensures u in Layer(g, root, k) && e < |g[u]| && g[u][e] == v
  {
    u, e :| u in Ball(g, root, k) && e < |g[u]| && g[u][e] == v;
  }

  lemma EmptyLayerStands(g: Graph, root: nat, k: nat)
    requires root in g && Layer(g, root, k + 1) == {}
    ensures Ball(g, root, k + 1) == Ball(g, root, k)
  {
    BallGrows(g, root, k, k + 1);
    hide Ball;
    forall v | v in Ball(g, root, k + 1)
      ensures v in Ball(g, root, k)
    {
      assert v !in Layer(g, root, k + 1);
    }
  }

  lemma BallStep(g: Graph, root: nat, k: nat)
    requires root in g
    ensures Ball(g, root, k + 1) == Ball(g, root, k) + Targets(g, Ball(g, root, k))
  {
  }

  /** After an empty layer, nothing new is ever reached. */
  lemma {:induction false} EmptyLayerEnds(g: Graph, root: nat, k: nat, j: nat)
    requires root in g && Layer(g, root, k + 1) == {} && k <= j
    ensures Ball(g, root, j) == Ball(g, root, k)
  {
    hide Ball, Layer, Targets;
    if k < j {
      EmptyLayerEnds(g, root, k, j - 1);
      EmptyLayerStands(g, root, k);
      BallStep(g, root, k);
      BallStep(g, root, j - 1);
    }
  }

  // ---------------------------------------------------------------- what a search computes

  /** The level of an unreached vertex: levels are 16 bits wide, and this one stands for infinity. */
  const MY_INFINITY: nat := 0xfff0

  /** `l` is the distance of `v`, or infinity if no walk leads there. */
  ghost predicate IsLevel(g: Graph, root: nat, v: nat, l: nat)
    requires root in g
  {
    if l == MY_INFINITY then forall k: nat :: v !in Ball(g, root, k) else v in Layer(g, root, l)
  }

  /** Every vertex that can be reached is nearer than what stands for infinity. */
  ghost predicate Shallow(g: Graph, root: nat)
    requires root in g
  {
    forall k: nat :: MY_INFINITY <= k ==> Layer(g, root, k) == {}
  }

  lemma LevelIsUnique(g: Graph, root: nat, v: nat, l: nat, m: nat)
    requires root in g && IsLevel(g, root, v, l) && IsLevel(g, root, v, m)
    ensures l == m
  {
    if l != MY_INFINITY && m != MY_INFINITY {
      LayersAreApart(g, root, v, l, m);
    } else if l != MY_INFINITY {
      LayerInBall(g, root, v, l);
    } else if m != MY_INFINITY {
      LayerInBall(g, root, v, m);
    }
  }

  /** Every vertex has its level. */
  ghost predicate AreDistances(g: Graph, root: nat, level: map<nat, nat>)
    requires root in g
  {
    level.Keys == g.Keys && forall v :: v in g ==> IsLevel(g, root, v, level[v])
  }

  /** There is only one right answer. */
  lemma DistancesAreUnique(g: Graph, root: nat, a: map<nat, nat>, b: map<nat, nat>)
    requires root in g && AreDistances(g, root, a) && AreDistances(g, root, b)
    ensures a == b
  {
    forall v | v in g
      ensures a[v] == b[v]
    {
      LevelIsUnique(g, root, v, a[v], b[v]);
    }
  }

  lemma {:induction false} EarlierLayer(g: Graph, root: nat, j: nat, k: nat)
    requires root in g && j <= k && Layer(g, root, k) != {}
    ensures Layer(g, root, j) != {}
  {
    if j < k {
      var v :| v in Layer(g, root, k);
      var u, e := LayerHasEdge(g, root, v, k - 1);
      EarlierLayer(g, root, j, k - 1);
    }
  }

  /** Where some vertex is too far away, no assignment of levels is right. */
  lemma TooDeepForLevels(g: Graph, root: nat, level: map<nat, nat>)
    requires root in g && !Shallow(g, root)
    ensures !AreDistances(g, root, level)
  {
    var k: nat :| MY_INFINITY <= k && Layer(g, root, k) != {};
    EarlierLayer(g, root, MY_INFINITY, k);
    var v :| v in Layer(g, root, MY_INFINITY);
    LayerInBall(g, root, v, MY_INFINITY);
    if AreDistances(g, root, level) && level[v] != MY_INFINITY {
      LayersAreApart(g, root, v, MY_INFINITY, level[v]);
    }
  }

  // ---------------------------------------------------------------- which graphs are shallow

  lemma {:induction false} FarNeedsMany(g: Graph, root: nat, k: nat)
    requires root in g && Layer(g, root, k) != {}
    ensures k < |Ball(g, root, k)|
  {
    hide Layer, Ball;
    if k > 0 {
      EarlierLayer(g, root, k - 1, k);
      FarNeedsMany(g, root, k - 1);
      BallGrows(g, root, k - 1, k);
      var v :| v in Layer(g, root, k);
      LayerIsNew(g, root, v, k);
      Larger(Ball(g, root, k - 1), Ball(g, root, k), v);
    } else {
      assert root in Ball(g, root, 0);
    }
  }

  lemma LayerIsNew(g: Graph, root: nat, v: nat, k: nat)
    requires root in g && 0 < k && v in Layer(g, root, k)
    ensures v in Ball(g, root, k) && v !in Ball(g, root, k - 1)
  {
  }

  lemma Larger(a: set<nat>, b: set<nat>, v: nat)
    requires a <= b && v in b && v !in a
    ensures |a| < |b|
  {
    NoLarger(a, b - {v});
  }

  lemma {:induction false} NoLarger(a: set<nat>, b: set<nat>)
    requires a <= b
    ensures |a| <= |b|
  {
    if v :| v in a {
      NoLarger(a - {v}, b - {v});
    }
  }

  /** There is no layer beyond the number of vertices. */
  lemma LayersAreFew(g: Graph, root: nat, k: nat)
    requires root in g && Layer(g, root, k) != {}
    ensures k < |g|
  {
    FarNeedsMany(g, root, k);
    NoLarger(Ball(g, root, k), g.Keys);
    assert |g.Keys| == |g|;
  }

  /** What a caller can check before a search: a graph with no more vertices than infinity is shallow. */
  lemma SmallIsShallow(g: Graph, root: nat)
    requires root in g && |g| <= MY_INFINITY
    ensures Shallow(g, root)
  {
    forall k: nat | MY_INFINITY <= k
      ensures Layer(g, root, k) == {}
    {
      if Layer(g, root, k) != {} {
        LayersAreFew(g, root, k);
      }
    }
  }

  function UpTo(n: nat): (vs: set<nat>)
    ensures |vs| == n + 1 && forall v: nat :: v in vs <==> v <= n
  {
    if n == 0 then {0} else UpTo(n - 1) + {n}
  }

  /** The line from vertex 0 to vertex `n`. */
  function Line(n: nat): Graph {
    map v | v in UpTo(n) :: if v < n then [v + 1] else []
  }

  lemma LineTargets(n: nat, k: nat, from: set<nat>)
    requires k <= n && from <= Line(n).Keys && (forall v :: v in from <==> 0 <= v < k)
    ensures forall v :: v in Targets(Line(n), from) <==> 1 <= v <= k
  {
    var g := Line(n);
    forall v | 1 <= v <= k
      ensures v in Targets(g, from)
    {
      assert v - 1 in from && g[v - 1] == [v] && g[v - 1][0] == v;
    }
    forall v | v in Targets(g, from)
      ensures 1 <= v <= k
    {
      var u, e :| u in from && 0 <= e < |g[u]| && g[u][e] == v;
    }
  }

  lemma {:induction false} LineBalls(n: nat, k: nat)
    requires k <= n
    ensures forall v :: v in Ball(Line(n), 0, k) <==> 0 <= v <= k
  {
    hide Line, UpTo, Targets;
    LineStarts(n);
    if k > 0 {
      LineBalls(n, k - 1);
      LineTargets(n, k, Ball(Line(n), 0, k - 1));
    }
  }

  lemma LineStarts(n: nat)
    ensures 0 in Line(n)
  {
  }

  /** One vertex more is too many for a line: its end is at the distance that stands for infinity, so no search can
      give it the right level. */
  lemma LongLineIsDeep(n: nat, level: map<nat, nat>)
    requires MY_INFINITY <= n
    ensures |Line(n)| == n + 1 && 0 in Line(n) && !Shallow(Line(n), 0) && !AreDistances(Line(n), 0, level)
  {
    hide AreDistances, UpTo, Ball;
    var g := Line(n);
    LineBalls(n, MY_INFINITY);
    LineBalls(n, MY_INFINITY - 1);
    assert MY_INFINITY in Layer(g, 0, MY_INFINITY);
    hide Layer;
    assert !Shallow(g, 0);
    TooDeepForLevels(g, 0, level);
    assert g.Keys == UpTo(n);
  }
}
