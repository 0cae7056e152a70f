/** The sequential search: a queue, and a color for each vertex. */
module SequentialBfs {
  import opened Graph

  datatype Color = White | Grey | Black

  /** The search has handled the vertices nearer than `k`, and perhaps some at `k`: the grey ones are in the
      queue, nearest first, or `current`.  `dist` holds the distances of all that it has found. */
  ghost predicate Searched(g: Graph, root: nat, k: nat, color: map<nat, Color>, dist: map<nat, nat>,
                           queue: seq<nat>, current: set<nat>)
    requires root in g
  {
    && color.Keys == dist.Keys == g.Keys
    && Placed(g, root, k, color, dist) && Followed(g, k, color, dist)
    && (forall v :: v in g && color[v] == Grey ==> v in queue || v in current)
    && Nearest(g, k, color, dist, queue)
  }

  ghost predicate Placed(g: Graph, root: nat, k: nat, color: map<nat, Color>, dist: map<nat, nat>)
    requires root in g && color.Keys == dist.Keys == g.Keys
  {
    && (forall v :: v in g && color[v] != White ==> dist[v] <= k + 1 && v in Layer(g, root, dist[v]))
    && forall v :: v in Ball(g, root, k) ==> color[v] != White
  }

  ghost predicate Followed(g: Graph, k: nat, color: map<nat, Color>, dist: map<nat, nat>)
    requires color.Keys == dist.Keys == g.Keys
  {
    && (forall v :: v in g && color[v] == Black ==> dist[v] <= k)
    && forall v, e :: v in g && color[v] == Black && 0 <= e < |g[v]| ==> color[g[v][e]] != White
  }

  ghost predicate Nearest(g: Graph, k: nat, color: map<nat, Color>, dist: map<nat, nat>, queue: seq<nat>)
    requires color.Keys == dist.Keys == g.Keys
  {
    && (forall i :: 0 <= i < |queue| ==> queue[i] in g && color[queue[i]] == Grey && k <= dist[queue[i]])
    && forall i, j :: 0 <= i < j < |queue| ==> queue[i] != queue[j] && dist[queue[i]] <= dist[queue[j]]
  }

  /** The same for every vertex. */
  function All<T>(g: Graph, x: T): map<nat, T> { map v | v in g :: x }

  // ---------------------------------------------------------------- the steps

  lemma Started(g: Graph, root: nat)
    requires root in g
    ensures Searched(g, root, 0, All(g, White)[root := Grey], All(g, 0), [root], {})
  {
  }

  lemma Discovered(g: Graph, root: nat, k: nat, color: map<nat, Color>, dist: map<nat, nat>, queue: seq<nat>,
                   u: nat, v: nat)
    requires root in g && Searched(g, root, k, color, dist, queue, {u}) && v in Layer(g, root, k + 1)
    requires v in g && color[v] == White
    ensures Searched(g, root, k, color[v := Grey], dist[v := k + 1], queue + [v], {u})
  {
    hide Layer, Ball;
    assert v !in queue;
    forall i | 0 <= i < |queue|
      ensures dist[queue[i]] <= k + 1
    {
      assert color[queue[i]] != White;
    }
    assert Nearest(g, k, color[v := Grey], dist[v := k + 1], queue + [v]);
    assert forall w :: w in queue + [v] <==> w in queue || w == v;
    hide Nearest;
  }

  lemma Popped(g: Graph, root: nat, k: nat, color: map<nat, Color>, dist: map<nat, nat>, queue: seq<nat>)
    requires root in g && Searched(g, root, k, color, dist, queue, {}) && queue != []
    ensures Searched(g, root, k, color, dist, queue[1..], {queue[0]})
    ensures queue[0] in g && color[queue[0]] == Grey && queue[0] !in queue[1..]
  {
    hide Placed, Followed;
    NearestPopped(g, k, color, dist, queue);
    assert queue == [queue[0]] + queue[1..];
    hide Nearest;
  }

  lemma NearestPopped(g: Graph, k: nat, color: map<nat, Color>, dist: map<nat, nat>, queue: seq<nat>)
    requires color.Keys == dist.Keys == g.Keys && Nearest(g, k, color, dist, queue) && queue != []
    ensures Nearest(g, k, color, dist, queue[1..])
    ensures queue[0] in g && color[queue[0]] == Grey && queue[0] !in queue[1..]
  {
  }

  lemma NearestAdvances(g: Graph, k: nat, color: map<nat, Color>, dist: map<nat, nat>, queue: seq<nat>)
    requires color.Keys == dist.Keys == g.Keys && Nearest(g, k, color, dist, queue)
    requires queue != [] && dist[queue[0]] != k
    ensures Nearest(g, k + 1, color, dist, queue)
    ensures forall i :: 0 <= i < |queue| ==> dist[queue[i]] != k
  {
    forall i | 0 <= i < |queue|
      ensures dist[queue[i]] > k
    {
      assert k <= dist[queue[0]] <= dist[queue[i]];
    }
  }

  lemma PlacedAdvances(g: Graph, root: nat, k: nat, color: map<nat, Color>, dist: map<nat, nat>)
    requires root in g && color.Keys == dist.Keys == g.Keys && Placed(g, root, k, color, dist)
    requires forall v :: v in Ball(g, root, k + 1) ==> color[v] != White
    ensures Placed(g, root, k + 1, color, dist)
  {
    hide Layer, Ball;
  }

  lemma Advanced(g: Graph, root: nat, k: nat, color: map<nat, Color>, dist: map<nat, nat>, queue: seq<nat>)
    requires root in g && Searched(g, root, k, color, dist, queue, {}) && queue != [] && dist[queue[0]] != k
    ensures Searched(g, root, k + 1, color, dist, queue, {}) && dist[queue[0]] == k + 1
  {
    NearestAdvances(g, k, color, dist, queue);
    NextDistance(g, root, k, color, dist, queue);
    PlacedAdvances(g, root, k, color, dist);
    assert color[queue[0]] != White && k + 1 <= dist[queue[0]] <= k + 1;
    hide Placed, Nearest;
  }

  lemma Blackened(g: Graph, root: nat, k: nat, color: map<nat, Color>, dist: map<nat, nat>, queue: seq<nat>, u: nat)
    requires root in g && Searched(g, root, k, color, dist, queue, {u}) && u in g && color[u] == Grey && dist[u] == k
    requires u !in queue && forall e :: 0 <= e < |g[u]| ==> color[g[u][e]] != White
    ensures Searched(g, root, k, color[u := Black], dist, queue, {})
  {
    hide Layer, Ball, Placed, Nearest, Followed;
    PlacedBlackened(g, root, k, color, dist, u);
    NearestBlackened(g, k, color, dist, queue, u);
    FollowedBlackened(g, k, color, dist, u);
  }

  lemma PlacedBlackened(g: Graph, root: nat, k: nat, color: map<nat, Color>, dist: map<nat, nat>, u: nat)
    requires root in g && color.Keys == dist.Keys == g.Keys && Placed(g, root, k, color, dist)
    requires u in g && color[u] != White
    ensures Placed(g, root, k, color[u := Black], dist)
  {
    hide Layer, Ball;
  }

  lemma NearestBlackened(g: Graph, k: nat, color: map<nat, Color>, dist: map<nat, nat>, queue: seq<nat>, u: nat)
    requires color.Keys == dist.Keys == g.Keys && Nearest(g, k, color, dist, queue) && u in g && u !in queue
    ensures Nearest(g, k, color[u := Black], dist, queue)
  {
  }

  lemma FollowedBlackened(g: Graph, k: nat, color: map<nat, Color>, dist: map<nat, nat>, u: nat)
    requires color.Keys == dist.Keys == g.Keys && Followed(g, k, color, dist) && u in g && dist[u] == k
    requires forall e :: 0 <= e < |g[u]| ==> color[g[u][e]] != White
    ensures Followed(g, k, color[u := Black], dist)
  {
  }

  /** When no vertex at `k` is left, all those at `k + 1` have been found. */
  lemma NextDistance(g: Graph, root: nat, k: nat, color: map<nat, Color>, dist: map<nat, nat>, queue: seq<nat>)
    requires root in g && Searched(g, root, k, color, dist, queue, {})
    requires forall i :: 0 <= i < |queue| ==> dist[queue[i]] != k
    ensures forall v :: v in Ball(g, root, k + 1) ==> color[v] != White
  {
    forall v | v in Layer(g, root, k + 1)
      ensures color[v] != White
    {
      var u, e := LayerHasEdge(g, root, v, k);
      LayerInBall(g, root, u, k);
      LayersAreApart(g, root, u, k, dist[u]);
      assert color[u] == Black;
    }
  }

  lemma NothingFurther(g: Graph, root: nat, k: nat, color: map<nat, Color>, dist: map<nat, nat>)
    requires root in g && Searched(g, root, k, color, dist, [], {})
    ensures Layer(g, root, k + 1) == {}
  {
    NextDistance(g, root, k, color, dist, []);
    forall v | v in g
      ensures v !in Layer(g, root, k + 1)
    {
      if v in Layer(g, root, k + 1) {
        LayerInBall(g, root, v, k + 1);
        LayersAreApart(g, root, v, k + 1, dist[v]);
      }
    }
  }

  /** The search is over: it has found exactly what can be reached. */
  lemma Exhausted(g: Graph, root: nat, k: nat, color: map<nat, Color>, dist: map<nat, nat>, v: nat, j: nat)
    requires root in g && Searched(g, root, k, color, dist, [], {}) && v in g && color[v] == White
    ensures v !in Ball(g, root, j)
  {
    NothingFurther(g, root, k, color, dist);
    if j <= k {
      BallGrows(g, root, j, k);
    } else {
      EmptyLayerEnds(g, root, k, j);
    }
  }

  /** A white target of a vertex at distance `k` is at distance `k + 1`. */
  lemma FoundAt(g: Graph, root: nat, k: nat, color: map<nat, Color>, dist: map<nat, nat>, queue: seq<nat>,
                u: nat, e: nat)
    requires root in g && Searched(g, root, k, color, dist, queue, {u}) && u in g && e < |g[u]|
    requires u in Layer(g, root, k) && color[g[u][e]] == White
    ensures g[u][e] in Layer(g, root, k + 1)
  {
    EdgeFromLayer(g, root, u, e, k);
  }

  /** The levels are the distances, in 16 bits; a vertex not found has the level that stands for infinity. */
  ghost predicate Written(g: Graph, color: map<nat, Color>, dist: map<nat, nat>, level: map<nat, nat>)
    requires color.Keys == dist.Keys == level.Keys == g.Keys
  {
    forall v :: v in g ==> level[v] == if color[v] == White then MY_INFINITY else dist[v] % 0x1_0000
  }

  lemma WrittenMore(g: Graph, color: map<nat, Color>, dist: map<nat, nat>, level: map<nat, nat>, u: nat, v: nat)
    requires color.Keys == dist.Keys == level.Keys == g.Keys && Written(g, color, dist, level)
    requires u in g && v in g && color[u] != White
    ensures Written(g, color[v := Grey], dist[v := dist[u] + 1], level[v := (level[u] + 1) % 0x1_0000])
  {
    NextLevel(dist[u]);
  }

  lemma NextLevel(d: nat)
    ensures (d % 0x1_0000 + 1) % 0x1_0000 == (d + 1) % 0x1_0000
  {
  }

  lemma WrittenBlack(g: Graph, color: map<nat, Color>, dist: map<nat, nat>, level: map<nat, nat>, u: nat)
    requires color.Keys == dist.Keys == level.Keys == g.Keys && Written(g, color, dist, level)
    requires u in g && color[u] == Grey
    ensures Written(g, color[u := Black], dist, level)
  {
  }

  lemma AtDistance(g: Graph, root: nat, k: nat, color: map<nat, Color>, dist: map<nat, nat>, queue: seq<nat>, u: nat)
    requires root in g && Searched(g, root, k, color, dist, queue, {u}) && u in g && color[u] == Grey && dist[u] == k
    ensures u in Layer(g, root, k)
  {
  }

  /** The edges of `u` are followed. */
  method Visit(g: Graph, u: nat, color0: map<nat, Color>, level0: map<nat, nat>, queue0: seq<nat>,
               ghost root: nat, ghost k: nat, ghost dist0: map<nat, nat>)
      returns (color: map<nat, Color>, level: map<nat, nat>, queue: seq<nat>, ghost dist: map<nat, nat>)
    requires root in g && color0.Keys == dist0.Keys == level0.Keys == g.Keys
    requires Searched(g, root, k, color0, dist0, queue0, {u}) && Written(g, color0, dist0, level0)
    requires u in g && color0[u] == Grey && dist0[u] == k && u !in queue0
    ensures color.Keys == dist.Keys == level.Keys == g.Keys
    ensures Searched(g, root, k, color, dist, queue, {u}) && Written(g, color, dist, level)
    ensures color[u] == Grey && dist[u] == k && u !in queue
    ensures forall e :: 0 <= e < |g[u]| ==> color[g[u][e]] != White
    ensures forall v :: v in g ==> (color[v] == Black <==> color0[v] == Black)
  {
    hide Layer, Ball, Searched, Written;
    color, level, queue, dist := color0, level0, queue0, dist0;
    for e := 0 to |g[u]|
      invariant color.Keys == dist.Keys == level.Keys == g.Keys
      invariant Searched(g, root, k, color, dist, queue, {u}) && Written(g, color, dist, level)
      invariant color[u] == Grey && dist[u] == k && u !in queue
      invariant forall d :: 0 <= d < e ==> color[g[u][d]] != White
      invariant forall v :: v in g ==> (color[v] == Black <==> color0[v] == Black)
    {
      var v := g[u][e];
      if color[v] == White {
        AtDistance(g, root, k, color, dist, queue, u);
        FoundAt(g, root, k, color, dist, queue, u, e);
        Discovered(g, root, k, color, dist, queue, u, v);
        WrittenMore(g, color, dist, level, u, v);
        color := color[v := Grey];
        level := level[v := (level[u] + 1) % 0x1_0000];
        dist := dist[v := k + 1];
        queue := queue + [v];
      }
    }
  }

  /** The vertices that are not black yet. */
  ghost function Unfinished(g: Graph, color: map<nat, Color>): set<nat>
    requires color.Keys == g.Keys
  {
    set v | v in g && color[v] != Black
  }

  lemma OneLess(g: Graph, before: map<nat, Color>, after: map<nat, Color>, u: nat)
    requires before.Keys == after.Keys == g.Keys && u in g && after[u] != Black
    requires forall v :: v in g ==> (after[v] == Black <==> before[v] == Black)
    ensures |Unfinished(g, after[u := Black])| < |Unfinished(g, before)|
  {
    assert Unfinished(g, after[u := Black]) == Unfinished(g, before) - {u};
    assert u in Unfinished(g, before);
  }

  /** The levels are the distances exactly if all distances fit below infinity. */
  method Bfs(g: Graph, root: nat) returns (level: map<nat, nat>)
    ensures root !in g ==> level == All(g, MY_INFINITY)
    ensures root in g ==> (AreDistances(g, root, level) <==> Shallow(g, root))
  {
    hide Layer, Ball, Searched, Written, Shallow, AreDistances, Unfinished;
    var color := All(g, White);
    level := All(g, MY_INFINITY);
    if root !in g {
      return;
    }
    color, level := color[root := Grey], level[root := 0];
    var queue := [root];
    ghost var k: nat, dist: map<nat, nat> := 0, All(g, 0);
    Started(g, root);
    FirstWritten(g, root);
    while |queue| != 0
      invariant color.Keys == dist.Keys == level.Keys == g.Keys
      invariant Searched(g, root, k, color, dist, queue, {}) && Written(g, color, dist, level)
      decreases |Unfinished(g, color)|
    {
      var u := queue[0];
      Popped(g, root, k, color, dist, queue);
      if dist[u] != k {
        Advanced(g, root, k, color, dist, queue);
        k := k + 1;
      }
      Popped(g, root, k, color, dist, queue);
      queue := queue[1..];
      ghost var before := color;
      color, level, queue, dist := Visit(g, u, color, level, queue, root, k, dist);
      Blackened(g, root, k, color, dist, queue, u);
      WrittenBlack(g, color, dist, level, u);
      OneLess(g, before, color, u);
      color := color[u := Black];
    }
    if Shallow(g, root) {
      Right(g, root, k, color, dist, level);
    } else {
      TooDeepForLevels(g, root, level);
    }
  }

  lemma FirstWritten(g: Graph, root: nat)
    requires root in g
    ensures Written(g, All(g, White)[root := Grey], All(g, 0), All(g, MY_INFINITY)[root := 0])
  {
  }

  lemma Right(g: Graph, root: nat, k: nat, color: map<nat, Color>, dist: map<nat, nat>, level: map<nat, nat>)
    requires root in g && Shallow(g, root) && color.Keys == dist.Keys == level.Keys == g.Keys
    requires Searched(g, root, k, color, dist, [], {}) && Written(g, color, dist, level)
    ensures AreDistances(g, root, level)
  {
    hide Layer, Ball, Followed, Nearest;
    forall v | v in g
      ensures IsLevel(g, root, v, level[v])
    {
      if color[v] == White {
        forall j: nat
          ensures v !in Ball(g, root, j)
        {
          Exhausted(g, root, k, color, dist, v, j);
        }
      } else {
        assert Layer(g, root, dist[v]) != {};
      }
    }
  }
}
