/** The level-synchronous parallel search, as a machine whose threads take atomic steps in any order. */
module ParallelBfs {
  import opened Graph

  /** Where a thread is in its loop.  `Edge` and `Push` have read the level of task `i` and are at its edge `e`;
      `Push` has won that edge's target and has yet to put it on a list.  `Collect(j)` has gathered the lists
      that the threads before `j` left for it. */
  datatype Pc = Test | Barrier1 | Start | Load(i: nat) | Edge(i: nat, e: nat, cur: nat) | Push(i: nat, e: nat, cur: nat)
              | Barrier2 | Clear | Collect(j: nat) | Barrier3 | Done

  /** `input[t]` are the tasks of thread `t`, `output[t][o]` those that thread `t` has found for thread `o`. */
  datatype State =
    State(level: map<nat, nat>, input: seq<seq<nat>>, output: seq<seq<seq<nat>>>, pc: seq<Pc>, stop: bool)

  function Owner(v: nat, n: nat): nat
    requires 0 < n
  {
    v % n
  }

  function Init(g: Graph, root: nat, n: nat): State
    requires root in g && 0 < n
  {
    State(map v | v in g :: if v == root then 0 else MY_INFINITY,
          seq(n, t => if t == Owner(root, n) then [root] else []),
          seq(n, t => seq(n, o => [])), seq(n, t => Test), false)
  }

  predicate AllIn(g: Graph, vs: seq<nat>) { forall i :: 0 <= i < |vs| ==> vs[i] in g }

  /** A thread's place in its loop fits its tasks. */
  predicate Fits(g: Graph, tasks: seq<nat>, pc: Pc, n: nat) {
    && AllIn(g, tasks)
    && match pc
       case Load(i) => i <= |tasks|
       case Edge(i, e, _) => i < |tasks| && e <= |g[tasks[i]]|
       case Push(i, e, _) => i < |tasks| && e < |g[tasks[i]]|
       case Collect(j) => j <= n
       case _ => true
  }

  predicate Shaped(g: Graph, s: State, n: nat) {
    && 0 < n && s.level.Keys == g.Keys && |s.input| == n && |s.output| == n && |s.pc| == n
    && (forall t :: 0 <= t < n ==> Fits(g, s.input[t], s.pc[t], n))
    && (forall t :: 0 <= t < n ==> |s.output[t]| == n)
    && (forall t, o :: 0 <= t < n && 0 <= o < n ==> AllIn(g, s.output[t][o]))
  }

  /** The parts of the loop between two barriers, both barriers included. */
  predicate Deciding(pc: Pc) { pc in {Barrier3, Test, Barrier1, Done} }

  predicate Scanning(pc: Pc) { pc == Barrier1 || pc == Start || pc.Load? || pc.Edge? || pc.Push? || pc == Barrier2 }

  predicate Collecting(pc: Pc) { pc in {Barrier2, Clear, Barrier3} || pc.Collect? }

  /** A thread may leave a barrier when all the others are at it, or have left it. */
  predicate MayLeave(s: State, pc: Pc) {
    forall t :: 0 <= t < |s.pc| ==>
      if pc == Barrier1 then Scanning(s.pc[t]) else if pc == Barrier2 then Collecting(s.pc[t]) else Deciding(s.pc[t])
  }

  function At(s: State, t: nat, pc: Pc): State
    requires t < |s.pc|
  {
    s.(pc := s.pc[t := pc])
  }

  /** One atomic step of thread `t`; a thread that waits at a barrier, or is done, stays where it is. */
  function Step(g: Graph, s: State, n: nat, t: nat): State
    requires Shaped(g, s, n) && t < n
  {
    match s.pc[t]
    case Test => At(s, t, if s.stop then Done else Barrier1)
    case Barrier1 => if MayLeave(s, Barrier1) then At(s, t, Start) else s
    case Start => At(s.(stop := true), t, Load(0))
    case Load(i) =>
      if i == |s.input[t]| then At(s, t, Barrier2) else At(s, t, Edge(i, 0, s.level[s.input[t][i]]))
    case Edge(i, e, cur) =>
      var targets := g[s.input[t][i]];
      if e == |targets| then At(s, t, Load(i + 1))
      else if s.level[targets[e]] == MY_INFINITY then
        // the compare-and-swap; levels are 16 bits wide
        At(s.(level := s.level[targets[e] := (cur + 1) % 0x1_0000]), t, Push(i, e, cur))
      else At(s, t, Edge(i, e + 1, cur))
    case Push(i, e, cur) =>
      var v := g[s.input[t][i]][e];
      var o := Owner(v, n);
      At(s.(output := s.output[t := s.output[t][o := s.output[t][o] + [v]]]), t, Edge(i, e + 1, cur))
    case Barrier2 => if MayLeave(s, Barrier2) then At(s, t, Clear) else s
    case Clear => At(s.(input := s.input[t := []]), t, Collect(0))
    case Collect(j) =>
      if j == n then At(s, t, Barrier3)
      else if s.output[j][t] == [] then At(s, t, Collect(j + 1))
      else At(s.(stop := false, input := s.input[t := s.input[t] + s.output[j][t]],
                 output := s.output[j := s.output[j][t := []]]), t, Collect(j + 1))
    case Barrier3 => if MayLeave(s, Barrier3) then At(s, t, Test) else s
    case Done => s
  }

  /** A step of thread `t` changes only its own place and tasks; it keeps the sizes. */
  lemma StepFrame(g: Graph, s: State, n: nat, t: nat)
    requires Shaped(g, s, n) && t < n
    ensures var s' := Step(g, s, n, t);
            && s'.level.Keys == g.Keys && |s'.input| == n && |s'.output| == n && |s'.pc| == n
            && forall u :: 0 <= u < n && u != t ==> s'.pc[u] == s.pc[u] && s'.input[u] == s.input[u]
  {
    assert Fits(g, s.input[t], s.pc[t], n);
  }

  lemma StepFits(g: Graph, s: State, n: nat, t: nat)
    requires Shaped(g, s, n) && t < n
    ensures var s' := Step(g, s, n, t); |s'.pc| == n && |s'.input| == n && Fits(g, s'.input[t], s'.pc[t], n)
  {
    assert Fits(g, s.input[t], s.pc[t], n);
    if s.pc[t].Collect? && s.pc[t].j < n {
      assert AllIn(g, s.output[s.pc[t].j][t]);
    }
  }

  lemma StepOutputs(g: Graph, s: State, n: nat, t: nat)
    requires Shaped(g, s, n) && t < n
    ensures var s' := Step(g, s, n, t);
            && |s'.output| == n && (forall u :: 0 <= u < n ==> |s'.output[u]| == n)
            && forall u, o :: 0 <= u < n && 0 <= o < n ==> AllIn(g, s'.output[u][o])
  {
    assert Fits(g, s.input[t], s.pc[t], n);
    if s.pc[t].Push? {
      var v := g[s.input[t][s.pc[t].i]][s.pc[t].e];
      assert v in g && AllIn(g, s.output[t][Owner(v, n)] + [v]);
    }
    hide AllIn, Fits;
  }

  lemma StepShaped(g: Graph, s: State, n: nat, t: nat)
    requires Shaped(g, s, n) && t < n
    ensures Shaped(g, Step(g, s, n, t), n)
  {
    StepFrame(g, s, n, t);
    StepFits(g, s, n, t);
    StepOutputs(g, s, n, t);
    hide Step, Fits, AllIn;
  }

  // ---------------------------------------------------------------- what holds in every reachable state

  datatype Phase = Decide | Scan | Gather

  /** Where a vertex of the next layer is: won by thread `t` but on no list yet, on a list of thread `t`, or
      taken over by its owner. */
  datatype Where = Nowhere | Won(t: nat) | Listed(t: nat) | Taken

  /** The round, its phase, and the places of the vertices. */
  datatype Witness = Witness(k: nat, phase: Phase, place: map<nat, Where>)

  predicate NoDup(vs: seq<nat>) { forall i, j :: 0 <= i < j < |vs| ==> vs[i] != vs[j] }

  /** Exactly the vertices within `k` have a level, and it is their distance. */
  ghost predicate LevelsAre(g: Graph, root: nat, k: nat, level: map<nat, nat>)
    requires root in g && level.Keys == g.Keys
  {
    forall v :: v in g ==>
      if v in Ball(g, root, k) then level[v] <= k && v in Layer(g, root, level[v]) else level[v] == MY_INFINITY
  }

  /** Each vertex of layer `k` is a task of its owner, once, and there are no other tasks. */
  ghost predicate TasksAre(g: Graph, root: nat, n: nat, k: nat, input: seq<seq<nat>>)
    requires root in g && 0 < n
  {
    forall t :: 0 <= t < |input| ==>
      NoDup(input[t]) && forall v :: v in input[t] <==> v in Layer(g, root, k) && Owner(v, n) == t
  }

  /** The lists hold exactly the vertices that are listed, once each. */
  ghost predicate ListsAre(g: Graph, n: nat, output: seq<seq<seq<nat>>>, place: map<nat, Where>)
    requires 0 < n && |output| == n && (forall t :: 0 <= t < n ==> |output[t]| == n) && place.Keys == g.Keys
  {
    && (forall v :: v in g && place[v].Listed? ==> place[v].t < n)
    && forall t, o :: 0 <= t < n && 0 <= o < n ==>
         NoDup(output[t][o]) && forall v :: v in output[t][o] <==> v in g && Owner(v, n) == o && place[v] == Listed(t)
  }

  /** All the edges of the first `i` tasks lead to vertices that have a level. */
  predicate Covered(g: Graph, level: map<nat, nat>, tasks: seq<nat>, i: nat)
    requires level.Keys == g.Keys && AllIn(g, tasks) && i <= |tasks|
  {
    forall j, e :: 0 <= j < i && 0 <= e < |g[tasks[j]]| ==> level[g[tasks[j]][e]] != MY_INFINITY
  }

  /** What a thread has seen to so far in round `k`. */
  ghost predicate Scanned(g: Graph, level: map<nat, nat>, tasks: seq<nat>, pc: Pc, n: nat, k: nat)
    requires level.Keys == g.Keys && Fits(g, tasks, pc, n)
  {
    match pc
    case Load(i) => Covered(g, level, tasks, i)
    case Edge(i, e, cur) =>
      cur == k && Covered(g, level, tasks, i) && forall d :: 0 <= d < e ==> level[g[tasks[i]][d]] != MY_INFINITY
    case Push(i, e, cur) =>
      cur == k && Covered(g, level, tasks, i) && forall d :: 0 <= d <= e ==> level[g[tasks[i]][d]] != MY_INFINITY
    case Barrier2 => Covered(g, level, tasks, |tasks|)
    case _ => true
  }

  function Target(g: Graph, tasks: seq<nat>, pc: Pc, n: nat): nat
    requires Fits(g, tasks, pc, n) && pc.Push?
  {
    g[tasks[pc.i]][pc.e]
  }

  ghost predicate InDecide(g: Graph, root: nat, n: nat, s: State, w: Witness)
    requires root in g && Shaped(g, s, n)
  {
    && (forall t :: 0 <= t < n ==> Deciding(s.pc[t]))
    && LevelsAre(g, root, w.k, s.level) && TasksAre(g, root, n, w.k, s.input)
    && (forall t, o :: 0 <= t < n && 0 <= o < n ==> s.output[t][o] == [])
    && (s.stop <==> Layer(g, root, w.k) == {})
    && forall t :: 0 <= t < n ==> (s.pc[t] == Done ==> s.stop) && (s.pc[t] == Barrier1 ==> !s.stop)
  }

  /** In the scan, a vertex of the next layer has either no level yet, or its own and a place. */
  ghost predicate Found(g: Graph, root: nat, k: nat, level: map<nat, nat>, place: map<nat, Where>)
    requires root in g && level.Keys == g.Keys && place.Keys == g.Keys
  {
    forall v :: v in g ==>
      if v in Ball(g, root, k) then level[v] <= k && v in Layer(g, root, level[v]) && place[v] == Nowhere
      else if level[v] == MY_INFINITY then place[v] == Nowhere
      else level[v] == k + 1 && v in Layer(g, root, k + 1) && (place[v].Won? || place[v].Listed?)
  }

  /** The vertices that are won and not yet listed are those that the threads are about to list. */
  ghost predicate Winners(g: Graph, n: nat, input: seq<seq<nat>>, pc: seq<Pc>, place: map<nat, Where>)
    requires 0 < n && |input| == |pc| == n && place.Keys == g.Keys
    requires forall t :: 0 <= t < n ==> Fits(g, input[t], pc[t], n)
  {
    && (forall v :: v in g && place[v].Won? ==>
          place[v].t < n && pc[place[v].t].Push? && Target(g, input[place[v].t], pc[place[v].t], n) == v)
    && forall t :: 0 <= t < n && pc[t].Push? ==> place[Target(g, input[t], pc[t], n)] == Won(t)
  }

  lemma WinnersSame(g: Graph, n: nat, input: seq<seq<nat>>, pc: seq<Pc>, place: map<nat, Where>, t: nat, next: Pc)
    requires 0 < n && |input| == |pc| == n && place.Keys == g.Keys
    requires forall u :: 0 <= u < n ==> Fits(g, input[u], pc[u], n)
    requires Winners(g, n, input, pc, place) && t < n && !pc[t].Push? && !next.Push? && Fits(g, input[t], next, n)
    ensures Winners(g, n, input, pc[t := next], place)
  {
    hide Fits;
  }

  lemma WinnersMore(g: Graph, n: nat, input: seq<seq<nat>>, pc: seq<Pc>, place: map<nat, Where>, t: nat,
                    next: Pc, v: nat)
    requires 0 < n && |input| == |pc| == n && place.Keys == g.Keys
    requires forall u :: 0 <= u < n ==> Fits(g, input[u], pc[u], n)
    requires Winners(g, n, input, pc, place) && t < n && !pc[t].Push?
    requires next.Push? && Fits(g, input[t], next, n) && Target(g, input[t], next, n) == v && v in g && !place[v].Won?
    ensures Winners(g, n, input, pc[t := next], place[v := Won(t)])
  {
    hide Fits, Target;
  }

  lemma WinnersLess(g: Graph, n: nat, input: seq<seq<nat>>, pc: seq<Pc>, place: map<nat, Where>, t: nat, next: Pc)
    requires 0 < n && |input| == |pc| == n && place.Keys == g.Keys
    requires forall u :: 0 <= u < n ==> Fits(g, input[u], pc[u], n)
    requires Winners(g, n, input, pc, place) && t < n && pc[t].Push? && !next.Push? && Fits(g, input[t], next, n)
    ensures Target(g, input[t], pc[t], n) in g
    ensures Winners(g, n, input, pc[t := next], place[Target(g, input[t], pc[t], n) := Listed(t)])
  {
    assert Target(g, input[t], pc[t], n) in g;
    hide Fits, Target;
  }

  ghost predicate InScan(g: Graph, root: nat, n: nat, s: State, w: Witness)
    requires root in g && Shaped(g, s, n)
  {
    && (forall t :: 0 <= t < n ==> Scanning(s.pc[t]))
    && w.place.Keys == g.Keys
    && Found(g, root, w.k, s.level, w.place) && TasksAre(g, root, n, w.k, s.input) && ListsAre(g, n, s.output, w.place)
    && (forall t :: 0 <= t < n ==> Scanned(g, s.level, s.input[t], s.pc[t], n, w.k))
    && Winners(g, n, s.input, s.pc, w.place)
    && forall t :: 0 <= t < n && (s.pc[t].Load? || s.pc[t].Edge? || s.pc[t].Push? || s.pc[t] == Barrier2) ==> s.stop
  }

  predicate HasCleared(pc: Pc) { pc.Collect? || pc == Barrier3 }

  predicate HasCollected(pc: Pc, u: nat) { pc == Barrier3 || (pc.Collect? && u < pc.j) }

  /** The threads that have given up their old tasks have exactly the vertices that they have taken over. */
  ghost predicate TakenAre(g: Graph, n: nat, input: seq<seq<nat>>, pc: seq<Pc>, place: map<nat, Where>)
    requires 0 < n && |input| == |pc| == n && place.Keys == g.Keys
  {
    && (forall v :: v in g && place[v] == Taken ==> HasCleared(pc[Owner(v, n)]))
    && forall t :: 0 <= t < n && HasCleared(pc[t]) ==>
         NoDup(input[t]) && forall v :: v in input[t] <==> v in g && Owner(v, n) == t && place[v] == Taken
  }

  /** Every vertex of layer `k` has a place, and no other has. */
  ghost predicate PlacesAre(g: Graph, root: nat, k: nat, place: map<nat, Where>)
    requires root in g && place.Keys == g.Keys
  {
    forall v :: v in g ==>
      if v in Layer(g, root, k) then place[v].Listed? || place[v].Taken? else place[v] == Nowhere
  }

  ghost predicate InGather(g: Graph, root: nat, n: nat, s: State, w: Witness)
    requires root in g && Shaped(g, s, n)
  {
    && (forall t :: 0 <= t < n ==> Collecting(s.pc[t]))
    && w.place.Keys == g.Keys && LevelsAre(g, root, w.k + 1, s.level) && ListsAre(g, n, s.output, w.place)
    && PlacesAre(g, root, w.k + 1, w.place)
    && TakenAre(g, n, s.input, s.pc, w.place)
    && (forall t, u :: 0 <= t < n && 0 <= u < n && HasCollected(s.pc[t], u) ==> s.output[u][t] == [])
    && (s.stop <==> forall v :: v in g ==> w.place[v] != Taken)
  }

  ghost predicate Inv(g: Graph, root: nat, n: nat, s: State, w: Witness)
    requires root in g && Shaped(g, s, n)
  {
    match w.phase
    case Decide => InDecide(g, root, n, s, w)
    case Scan => InScan(g, root, n, s, w)
    case Gather => InGather(g, root, n, s, w)
  }

  /** A round is begun only with vertices to scan, and the next one when all of it has been gathered. */
  ghost predicate Follows(g: Graph, root: nat, w: Witness, w': Witness)
    requires root in g
  {
    if w'.phase == w.phase then w'.k == w.k
    else match w.phase
         case Decide => w'.phase == Scan && w'.k == w.k && Layer(g, root, w.k) != {}
         case Scan => w'.phase == Gather && w'.k == w.k
         case Gather => w'.phase == Decide && w'.k == w.k + 1
  }

  lemma InitInv(g: Graph, root: nat, n: nat)
    requires root in g && 0 < n && Shaped(g, Init(g, root, n), n)
    ensures Inv(g, root, n, Init(g, root, n), Witness(0, Decide, map[]))
  {
  }

  lemma ScanBegins(g: Graph, root: nat, n: nat, s: State, w: Witness, t: nat) returns (w': Witness)
    requires root in g && Shaped(g, s, n) && t < n && Shaped(g, Step(g, s, n, t), n) && InDecide(g, root, n, s, w)
    requires s.pc[t] == Barrier1 && MayLeave(s, Barrier1)
    ensures w'.phase == Scan && w'.k == w.k && Layer(g, root, w.k) != {} && InScan(g, root, n, Step(g, s, n, t), w')
  {
    hide Layer, Ball, Owner, NoDup;
    var place := map v | v in g :: Nowhere;
    w' := Witness(w.k, Scan, place);
    forall u | 0 <= u < n
      ensures s.pc[u] == Barrier1
    {
      assert Scanning(s.pc[u]) && Deciding(s.pc[u]);
    }
    assert Step(g, s, n, t) == At(s, t, Start);
    assert ListsAre(g, n, s.output, place) by {
      EmptyLists(g, n, s.output, place);
    }
  }

  lemma EmptyLists(g: Graph, n: nat, output: seq<seq<seq<nat>>>, place: map<nat, Where>)
    requires 0 < n && |output| == n && (forall t :: 0 <= t < n ==> |output[t]| == n) && place.Keys == g.Keys
    requires forall t, o :: 0 <= t < n && 0 <= o < n ==> output[t][o] == []
    requires forall v :: v in g ==> place[v] == Nowhere
    ensures ListsAre(g, n, output, place)
  {
  }

  lemma DecideStep(g: Graph, root: nat, n: nat, s: State, w: Witness, t: nat) returns (w': Witness)
    requires root in g && Shaped(g, s, n) && t < n && Shaped(g, Step(g, s, n, t), n)
    requires w.phase == Decide && InDecide(g, root, n, s, w)
    ensures Inv(g, root, n, Step(g, s, n, t), w') && Follows(g, root, w, w')
  {
    hide Layer, Ball, LevelsAre, TasksAre, InScan, InGather, AllIn, Fits;
    if s.pc[t] == Barrier1 && MayLeave(s, Barrier1) {
      w' := ScanBegins(g, root, n, s, w, t);
    } else {
      w' := w;
    }
  }

  // ---------------------------------------------------------------- scanning

  /** A thread goes on without touching anything shared but the flag. */
  lemma ScanMoves(g: Graph, root: nat, n: nat, s: State, w: Witness, t: nat, pc: Pc, stop: bool)
    requires root in g && Shaped(g, s, n) && t < n && InScan(g, root, n, s, w) && Fits(g, s.input[t], pc, n)
    requires Shaped(g, At(s.(stop := stop), t, pc), n)
    requires !s.pc[t].Push? && !pc.Push? && Scanning(pc) && Scanned(g, s.level, s.input[t], pc, n, w.k)
    requires stop == s.stop || stop
    requires pc.Load? || pc.Edge? || pc == Barrier2 ==> stop
    ensures InScan(g, root, n, At(s.(stop := stop), t, pc), w)
  {
    WinnersSame(g, n, s.input, s.pc, w.place, t, pc);
    hide Found, TasksAre, ListsAre, Scanned, Winners, Fits, AllIn;
  }

  /** The vertices that a thread has as tasks in round `k` have level `k`. */
  lemma TaskLevel(g: Graph, root: nat, n: nat, s: State, w: Witness, t: nat, i: nat)
    requires root in g && Shaped(g, s, n) && t < n && InScan(g, root, n, s, w) && i < |s.input[t]|
    ensures s.input[t][i] in Layer(g, root, w.k) && s.input[t][i] in g && s.level[s.input[t][i]] == w.k
  {
    var v := s.input[t][i];
    assert v in s.input[t];
    LayerInBall(g, root, v, w.k);
    LayersAreApart(g, root, v, w.k, s.level[v]);
    hide Layer, Ball, ListsAre, Scanned;
  }

  lemma CoveredNext(g: Graph, level: map<nat, nat>, tasks: seq<nat>, i: nat)
    requires level.Keys == g.Keys && AllIn(g, tasks) && i < |tasks| && Covered(g, level, tasks, i)
    requires forall e :: 0 <= e < |g[tasks[i]]| ==> level[g[tasks[i]][e]] != MY_INFINITY
    ensures Covered(g, level, tasks, i + 1)
  {
  }

  /** The step wins no vertex and lists none. */
  predicate IsPlain(g: Graph, s: State, n: nat, t: nat)
    requires Shaped(g, s, n) && t < n
  {
    assert Fits(g, s.input[t], s.pc[t], n);
    match s.pc[t]
    case Push(_, _, _) => false
    case Edge(i, e, _) => e == |g[s.input[t][i]]| || s.level[g[s.input[t][i]][e]] != MY_INFINITY
    case Barrier2 => !MayLeave(s, Barrier2)
    case _ => true
  }

  /** Where a plain step leads, for a thread with these tasks. */
  ghost predicate PlainNext(g: Graph, level: map<nat, nat>, tasks: seq<nat>, pc: Pc, next: Pc, n: nat)
    requires level.Keys == g.Keys && Fits(g, tasks, pc, n)
  {
    match pc
    case Barrier1 => next == Start
    case Start => next == Load(0)
    case Load(i) => next == if i == |tasks| then Barrier2 else Edge(i, 0, level[tasks[i]])
    case Edge(i, e, cur) => next == if e == |g[tasks[i]]| then Load(i + 1) else Edge(i, e + 1, cur)
    case _ => false
  }

  lemma PlainSees(g: Graph, level: map<nat, nat>, tasks: seq<nat>, pc: Pc, next: Pc, n: nat, k: nat)
    requires level.Keys == g.Keys && Fits(g, tasks, pc, n) && Fits(g, tasks, next, n)
    requires PlainNext(g, level, tasks, pc, next, n) && Scanned(g, level, tasks, pc, n, k)
    requires pc.Load? && pc.i < |tasks| ==> level[tasks[pc.i]] == k
    requires pc.Edge? && pc.e < |g[tasks[pc.i]]| ==> level[g[tasks[pc.i]][pc.e]] != MY_INFINITY
    ensures Scanned(g, level, tasks, next, n, k)
  {
    if pc.Edge? && pc.e == |g[tasks[pc.i]]| {
      CoveredNext(g, level, tasks, pc.i);
    }
    hide Covered;
  }

  lemma PlainStep(g: Graph, s: State, n: nat, t: nat)
    requires Shaped(g, s, n) && t < n && Scanning(s.pc[t]) && IsPlain(g, s, n, t)
    ensures var s' := Step(g, s, n, t);
            s' != s ==> && Fits(g, s.input[t], s.pc[t], n)
                        && PlainNext(g, s.level, s.input[t], s.pc[t], s'.pc[t], n)
                        && s' == At(s.(stop := s'.stop), t, s'.pc[t])
                        && Scanning(s'.pc[t]) && !s'.pc[t].Push?
  {
    assert Fits(g, s.input[t], s.pc[t], n);
    hide MayLeave, Shaped;
  }

  lemma ScanPlain(g: Graph, root: nat, n: nat, s: State, w: Witness, t: nat)
    requires root in g && Shaped(g, s, n) && t < n && Shaped(g, Step(g, s, n, t), n) && InScan(g, root, n, s, w)
    requires IsPlain(g, s, n, t)
    ensures InScan(g, root, n, Step(g, s, n, t), w)
  {
    var s' := Step(g, s, n, t);
    PlainStep(g, s, n, t);
    PlainFlag(g, root, n, s, w, t);
    if s' != s {
      var pc := s.pc[t];
      assert Scanned(g, s.level, s.input[t], pc, n, w.k);
      assert Fits(g, s.input[t], s'.pc[t], n);
      if pc.Load? && pc.i < |s.input[t]| {
        TaskLevel(g, root, n, s, w, t, pc.i);
      }
      hide InScan, Scanned, Step;
      PlainSees(g, s.level, s.input[t], pc, s'.pc[t], n, w.k);
      hide Shaped, Fits, PlainNext;
      ScanMoves(g, root, n, s, w, t, s'.pc[t], s'.stop);
    }
  }

  lemma PlainFlag(g: Graph, root: nat, n: nat, s: State, w: Witness, t: nat)
    requires root in g && Shaped(g, s, n) && t < n && InScan(g, root, n, s, w) && IsPlain(g, s, n, t)
    ensures var s' := Step(g, s, n, t);
            && (s'.stop == s.stop || s'.stop)
            && (s'.pc[t].Load? || s'.pc[t].Edge? || s'.pc[t] == Barrier2 ==> s'.stop)
  {
    hide Found, TasksAre, ListsAre, Scanned, Covered;
  }

  /** A vertex that a task's edge finds without a level is in the next layer. */
  lemma WonIsNext(g: Graph, root: nat, n: nat, s: State, w: Witness, t: nat, i: nat, e: nat)
    requires root in g && Shallow(g, root) && Shaped(g, s, n) && t < n && InScan(g, root, n, s, w)
    requires i < |s.input[t]| && s.input[t][i] in g && e < |g[s.input[t][i]]|
    requires s.level[g[s.input[t][i]][e]] == MY_INFINITY
    ensures var v := g[s.input[t][i]][e];
            v !in Ball(g, root, w.k) && v in Layer(g, root, w.k + 1) && w.k + 1 < MY_INFINITY && w.place[v] == Nowhere
  {
    var v := g[s.input[t][i]][e];
    TaskLevel(g, root, n, s, w, t, i);
    EdgeFromLayer(g, root, s.input[t][i], e, w.k);
    hide TasksAre, ListsAre, Scanned;
    assert Layer(g, root, MY_INFINITY) == {};
    assert v !in Ball(g, root, w.k);
    assert v in Layer(g, root, w.k + 1);
  }

  lemma ScannedLater(g: Graph, level: map<nat, nat>, v: nat, l: nat, tasks: seq<nat>, pc: Pc, n: nat, k: nat)
    requires level.Keys == g.Keys && v in g && l != MY_INFINITY && Fits(g, tasks, pc, n)
    requires Scanned(g, level, tasks, pc, n, k)
    ensures Scanned(g, level[v := l], tasks, pc, n, k)
  {
  }

  lemma FoundMore(g: Graph, root: nat, k: nat, level: map<nat, nat>, place: map<nat, Where>, v: nat, t: nat)
    requires root in g && level.Keys == g.Keys && place.Keys == g.Keys && Found(g, root, k, level, place)
    requires v in Layer(g, root, k + 1) && v !in Ball(g, root, k) && v in g && k + 1 != MY_INFINITY
    ensures Found(g, root, k, level[v := k + 1], place[v := Won(t)])
  {
    hide Layer, Ball;
  }

  lemma ListsUnchanged(g: Graph, n: nat, output: seq<seq<seq<nat>>>, place: map<nat, Where>, v: nat, t: nat)
    requires 0 < n && |output| == n && (forall u :: 0 <= u < n ==> |output[u]| == n) && place.Keys == g.Keys
    requires ListsAre(g, n, output, place) && v in g && !place[v].Listed?
    ensures ListsAre(g, n, output, place[v := Won(t)])
  {
  }

  lemma EdgeStep(g: Graph, s: State, n: nat, t: nat)
    requires Shaped(g, s, n) && t < n && s.pc[t].Edge? && !IsPlain(g, s, n, t)
    ensures var Edge(i, e, cur) := s.pc[t];
            && Fits(g, s.input[t], s.pc[t], n) && i < |s.input[t]| && s.input[t][i] in g && e < |g[s.input[t][i]]|
            && g[s.input[t][i]][e] in g && Fits(g, s.input[t], Push(i, e, cur), n)
            && Target(g, s.input[t], Push(i, e, cur), n) == g[s.input[t][i]][e]
            && s.level[g[s.input[t][i]][e]] == MY_INFINITY
            && Step(g, s, n, t) ==
               At(s.(level := s.level[g[s.input[t][i]][e] := (cur + 1) % 0x1_0000]), t, Push(i, e, cur))
  {
    assert Fits(g, s.input[t], s.pc[t], n);
    hide Shaped;
  }

  lemma PushStep(g: Graph, s: State, n: nat, t: nat)
    requires Shaped(g, s, n) && t < n && s.pc[t].Push?
    ensures var Push(i, e, cur) := s.pc[t];
            && Fits(g, s.input[t], s.pc[t], n)
            && var v := Target(g, s.input[t], s.pc[t], n);
               var o := Owner(v, n);
               && v in g && |s.output[t]| == n && Fits(g, s.input[t], Edge(i, e + 1, cur), n)
               && Step(g, s, n, t) ==
                  At(s.(output := s.output[t := s.output[t][o := s.output[t][o] + [v]]]), t, Edge(i, e + 1, cur))
  {
    assert Fits(g, s.input[t], s.pc[t], n);
  }

  lemma EdgeSees(g: Graph, level: map<nat, nat>, tasks: seq<nat>, pc: Pc, n: nat, k: nat, l: nat)
    requires level.Keys == g.Keys && Fits(g, tasks, pc, n) && pc.Edge? && pc.e < |g[tasks[pc.i]]|
    requires Scanned(g, level, tasks, pc, n, k) && l != MY_INFINITY
    ensures pc.cur == k
    ensures Scanned(g, level[g[tasks[pc.i]][pc.e] := l], tasks, Push(pc.i, pc.e, pc.cur), n, k)
  {
  }

  lemma AllScannedLater(g: Graph, root: nat, n: nat, s: State, w: Witness, v: nat, l: nat)
    requires root in g && Shaped(g, s, n) && InScan(g, root, n, s, w) && v in g && l != MY_INFINITY
    ensures forall u :: 0 <= u < n ==>
              Fits(g, s.input[u], s.pc[u], n) && Scanned(g, s.level[v := l], s.input[u], s.pc[u], n, w.k)
  {
    hide Found, TasksAre, ListsAre, Winners, Fits, AllIn, Scanned;
    forall u | 0 <= u < n
      ensures Scanned(g, s.level[v := l], s.input[u], s.pc[u], n, w.k)
    {
      assert Scanned(g, s.level, s.input[u], s.pc[u], n, w.k);
      ScannedLater(g, s.level, v, l, s.input[u], s.pc[u], n, w.k);
    }
  }

  /** The compare-and-swap wins a vertex. */
  lemma ScanWins(g: Graph, root: nat, n: nat, s: State, w: Witness, t: nat) returns (w': Witness)
    requires root in g && Shallow(g, root) && Shaped(g, s, n) && t < n && Shaped(g, Step(g, s, n, t), n)
    requires InScan(g, root, n, s, w) && s.pc[t].Edge? && !IsPlain(g, s, n, t)
    ensures w'.phase == w.phase && w'.k == w.k && InScan(g, root, n, Step(g, s, n, t), w')
  {
    hide Found, TasksAre, ListsAre, Scanned, Fits, AllIn, Covered, Step, Winners, Target, IsPlain;
    var Edge(i, e, cur) := s.pc[t];
    EdgeStep(g, s, n, t);
    var v := g[s.input[t][i]][e];
    var next := Push(i, e, cur);
    WonIsNext(g, root, n, s, w, t, i, e);
    EdgeSees(g, s.level, s.input[t], s.pc[t], n, w.k, w.k + 1);
    AllScannedLater(g, root, n, s, w, v, w.k + 1);
    FoundMore(g, root, w.k, s.level, w.place, v, t);
    ListsUnchanged(g, n, s.output, w.place, v, t);
    WinnersMore(g, n, s.input, s.pc, w.place, t, next, v);
    w' := w.(place := w.place[v := Won(t)]);
    assert Step(g, s, n, t) == At(s.(level := s.level[v := w.k + 1]), t, next);
  }

  /** The vertex that was won joins the list for its owner. */
  lemma ListsMore(g: Graph, n: nat, output: seq<seq<seq<nat>>>, place: map<nat, Where>, v: nat, t: nat)
    requires 0 < n && |output| == n && (forall u :: 0 <= u < n ==> |output[u]| == n) && place.Keys == g.Keys
    requires ListsAre(g, n, output, place) && v in g && !place[v].Listed? && t < n
    ensures var o := Owner(v, n);
            ListsAre(g, n, output[t := output[t][o := output[t][o] + [v]]], place[v := Listed(t)])
  {
    var o := Owner(v, n);
    assert v !in output[t][o];
  }

  lemma PushSees(g: Graph, level: map<nat, nat>, tasks: seq<nat>, pc: Pc, n: nat, k: nat)
    requires level.Keys == g.Keys && Fits(g, tasks, pc, n) && pc.Push? && Scanned(g, level, tasks, pc, n, k)
    requires Fits(g, tasks, Edge(pc.i, pc.e + 1, pc.cur), n)
    ensures Scanned(g, level, tasks, Edge(pc.i, pc.e + 1, pc.cur), n, k)
  {
  }

  lemma PushIsWon(g: Graph, n: nat, input: seq<seq<nat>>, pc: seq<Pc>, place: map<nat, Where>, t: nat)
    requires 0 < n && |input| == |pc| == n && place.Keys == g.Keys
    requires forall u :: 0 <= u < n ==> Fits(g, input[u], pc[u], n)
    requires Winners(g, n, input, pc, place) && t < n && pc[t].Push?
    ensures Target(g, input[t], pc[t], n) in g && place[Target(g, input[t], pc[t], n)] == Won(t)
  {
    assert Fits(g, input[t], pc[t], n);
  }

  /** The vertex that was won is listed for its owner. */
  lemma ScanLists(g: Graph, root: nat, n: nat, s: State, w: Witness, t: nat) returns (w': Witness)
    requires root in g && Shaped(g, s, n) && t < n && Shaped(g, Step(g, s, n, t), n)
    requires InScan(g, root, n, s, w) && s.pc[t].Push?
    ensures w'.phase == w.phase && w'.k == w.k && InScan(g, root, n, Step(g, s, n, t), w')
  {
    hide Found, TasksAre, ListsAre, Scanned, Fits, AllIn, Covered, Step, Winners, Target;
    var Push(i, e, cur) := s.pc[t];
    PushStep(g, s, n, t);
    PushIsWon(g, n, s.input, s.pc, w.place, t);
    var v := Target(g, s.input[t], s.pc[t], n);
    var next := Edge(i, e + 1, cur);
    PushSees(g, s.level, s.input[t], s.pc[t], n, w.k);
    ListsMore(g, n, s.output, w.place, v, t);
    FoundListed(g, root, w.k, s.level, w.place, v, t);
    WinnersLess(g, n, s.input, s.pc, w.place, t, next);
    w' := w.(place := w.place[v := Listed(t)]);
  }

  lemma FoundListed(g: Graph, root: nat, k: nat, level: map<nat, nat>, place: map<nat, Where>, v: nat, t: nat)
    requires root in g && level.Keys == g.Keys && place.Keys == g.Keys && Found(g, root, k, level, place)
    requires v in g && place[v].Won?
    ensures Found(g, root, k, level, place[v := Listed(t)])
  {
    hide Layer, Ball;
  }

  // ---------------------------------------------------------------- the end of a scan

  /** When every task of the round is covered, the whole next layer has its level. */
  lemma NextLayerFound(g: Graph, root: nat, n: nat, s: State, w: Witness, v: nat)
    requires root in g && Shaped(g, s, n) && InScan(g, root, n, s, w)
    requires forall t :: 0 <= t < n ==> s.pc[t] == Barrier2
    requires v in Layer(g, root, w.k + 1)
    ensures v in g && s.level[v] != MY_INFINITY
  {
    hide Layer, Ball, ListsAre, Found, Winners, AllIn;
    var u, e := LayerHasEdge(g, root, v, w.k);
    LayerInBall(g, root, u, w.k);
    var t := Owner(u, n);
    assert s.pc[t] == Barrier2;
    assert Fits(g, s.input[t], s.pc[t], n) && Scanned(g, s.level, s.input[t], s.pc[t], n, w.k);
    assert Covered(g, s.level, s.input[t], |s.input[t]|);
    hide Scanned, Fits;
    assert u in s.input[t];
    var i :| 0 <= i < |s.input[t]| && s.input[t][i] == u;
  }

  lemma LevelsNext(g: Graph, root: nat, k: nat, level: map<nat, nat>, place: map<nat, Where>)
    requires root in g && level.Keys == g.Keys && place.Keys == g.Keys && Found(g, root, k, level, place)
    requires forall v :: v in g && v in Layer(g, root, k + 1) ==> level[v] != MY_INFINITY
    requires forall v :: v in g ==> !place[v].Won?
    ensures LevelsAre(g, root, k + 1, level) && PlacesAre(g, root, k + 1, place)
  {
    forall v | v in g
      ensures v in Ball(g, root, k + 1) <==> v in Ball(g, root, k) || v in Layer(g, root, k + 1)
      ensures v in Ball(g, root, k) ==> v !in Layer(g, root, k + 1)
    {
    }
    hide Ball, Layer;
  }

  lemma ScanIsOver(g: Graph, root: nat, n: nat, s: State, w: Witness)
    requires root in g && Shaped(g, s, n) && InScan(g, root, n, s, w) && MayLeave(s, Barrier2)
    ensures forall u :: 0 <= u < n ==> s.pc[u] == Barrier2
    ensures s.stop && forall v :: v in g ==> !w.place[v].Won?
    ensures LevelsAre(g, root, w.k + 1, s.level) && PlacesAre(g, root, w.k + 1, w.place)
  {
    hide Found, TasksAre, ListsAre, Scanned, Fits, AllIn, Covered, Layer, Ball;
    forall u | 0 <= u < n
      ensures s.pc[u] == Barrier2
    {
      assert Collecting(s.pc[u]) && Scanning(s.pc[u]);
    }
    assert s.pc[0] == Barrier2;
    forall v | v in g && v in Layer(g, root, w.k + 1)
      ensures s.level[v] != MY_INFINITY
    {
      NextLayerFound(g, root, n, s, w, v);
    }
    LevelsNext(g, root, w.k, s.level, w.place);
  }

  lemma GatherBegins(g: Graph, root: nat, n: nat, s: State, w: Witness, t: nat) returns (w': Witness)
    requires root in g && Shaped(g, s, n) && t < n && Shaped(g, Step(g, s, n, t), n) && InScan(g, root, n, s, w)
    requires s.pc[t] == Barrier2 && MayLeave(s, Barrier2)
    ensures w'.phase == Gather && w'.k == w.k && InGather(g, root, n, Step(g, s, n, t), w')
  {
    hide Found, TasksAre, ListsAre, Scanned, Fits, AllIn, Winners, LevelsAre, PlacesAre, NoDup, MayLeave, Owner,
         TakenAre;
    ScanIsOver(g, root, n, s, w);
    NothingTakenYet(g, root, w.k, s.level, w.place);
    assert Step(g, s, n, t) == At(s, t, Clear);
    hide Step, Shaped;
    w' := w.(phase := Gather);
    NoneTaken(g, n, s.input, s.pc, w.place, t);
  }

  lemma NothingTakenYet(g: Graph, root: nat, k: nat, level: map<nat, nat>, place: map<nat, Where>)
    requires root in g && level.Keys == place.Keys == g.Keys && Found(g, root, k, level, place)
    ensures forall v :: v in g ==> place[v] != Taken
  {
    hide Ball, Layer;
  }

  lemma NoneTaken(g: Graph, n: nat, input: seq<seq<nat>>, pc: seq<Pc>, place: map<nat, Where>, t: nat)
    requires 0 < n && |input| == |pc| == n && place.Keys == g.Keys && t < n
    requires (forall u :: 0 <= u < n ==> pc[u] == Barrier2) && forall v :: v in g ==> place[v] != Taken
    ensures TakenAre(g, n, input, pc[t := Clear], place)
  {
  }

  // ---------------------------------------------------------------- gathering

  lemma TakenSame(g: Graph, n: nat, input: seq<seq<nat>>, pc: seq<Pc>, place: map<nat, Where>, t: nat, next: Pc)
    requires 0 < n && |input| == |pc| == n && place.Keys == g.Keys && TakenAre(g, n, input, pc, place)
    requires t < n && (HasCleared(pc[t]) <==> HasCleared(next))
    ensures TakenAre(g, n, input, pc[t := next], place)
  {
    hide NoDup;
  }

  /** A thread gives up its old tasks. */
  lemma TakenCleared(g: Graph, n: nat, input: seq<seq<nat>>, pc: seq<Pc>, place: map<nat, Where>, t: nat)
    requires 0 < n && |input| == |pc| == n && place.Keys == g.Keys && TakenAre(g, n, input, pc, place)
    requires t < n && pc[t] == Clear
    ensures TakenAre(g, n, input[t := []], pc[t := Collect(0)], place)
  {
  }

  /** The vertices on one list, taken over. */
  function Take(g: Graph, place: map<nat, Where>, list: seq<nat>): map<nat, Where>
    requires place.Keys == g.Keys
  {
    map v | v in g :: if v in list then Taken else place[v]
  }

  lemma TakenMore(g: Graph, n: nat, s: State, place: map<nat, Where>, t: nat, j: nat)
    requires Shaped(g, s, n) && place.Keys == g.Keys && t < n && j < n && s.pc[t] == Collect(j)
    requires ListsAre(g, n, s.output, place) && TakenAre(g, n, s.input, s.pc, place)
    ensures var list := s.output[j][t];
            TakenAre(g, n, s.input[t := s.input[t] + list], s.pc[t := Collect(j + 1)], Take(g, place, list))
  {
    var list, place' := s.output[j][t], Take(g, place, s.output[j][t]);
    var input, pc := s.input[t := s.input[t] + list], s.pc[t := Collect(j + 1)];
    assert HasCleared(s.pc[t]) && forall v :: v in s.input[t] ==> v !in list;
    Joined(s.input[t], list);
    hide NoDup;
    forall u | 0 <= u < n && HasCleared(pc[u])
      ensures NoDup(input[u]) && forall v :: v in input[u] <==> v in g && Owner(v, n) == u && place'[v] == Taken
    {
      assert HasCleared(s.pc[u]);
    }
    hide Owner;
  }

  lemma Joined(a: seq<nat>, b: seq<nat>)
    requires NoDup(a) && NoDup(b) && forall v :: v in a ==> v !in b
    ensures NoDup(a + b)
  {
    forall i, j | 0 <= i < j < |a + b|
      ensures (a + b)[i] != (a + b)[j]
    {
      if i < |a| <= j {
        assert a[i] in a && b[j - |a|] in b;
      }
    }
  }

  lemma ListsLess(g: Graph, n: nat, output: seq<seq<seq<nat>>>, place: map<nat, Where>, t: nat, j: nat)
    requires 0 < n && |output| == n && (forall u :: 0 <= u < n ==> |output[u]| == n) && place.Keys == g.Keys
    requires ListsAre(g, n, output, place) && t < n && j < n
    ensures ListsAre(g, n, output[j := output[j][t := []]], Take(g, place, output[j][t]))
  {
    var list, place' := output[j][t], Take(g, place, output[j][t]);
    var output' := output[j := output[j][t := []]];
    forall u, o | 0 <= u < n && 0 <= o < n
      ensures NoDup(output'[u][o])
      ensures forall v :: v in output'[u][o] <==> v in g && Owner(v, n) == o && place'[v] == Listed(u)
    {
      assert NoDup(output[u][o]);
    }
    hide Owner, NoDup;
  }

  lemma PlacesTaken(g: Graph, root: nat, k: nat, n: nat, output: seq<seq<seq<nat>>>,
                    place: map<nat, Where>, t: nat, j: nat)
    requires root in g && place.Keys == g.Keys && PlacesAre(g, root, k, place)
    requires 0 < n && |output| == n && (forall u :: 0 <= u < n ==> |output[u]| == n)
    requires ListsAre(g, n, output, place) && t < n && j < n
    ensures PlacesAre(g, root, k, Take(g, place, output[j][t]))
  {
    hide Layer, Owner, NoDup;
  }

  /** A thread takes over the list that thread `j` has left for it. */
  lemma GatherTakes(g: Graph, root: nat, n: nat, s: State, w: Witness, t: nat) returns (w': Witness)
    requires root in g && Shaped(g, s, n) && t < n && Shaped(g, Step(g, s, n, t), n) && InGather(g, root, n, s, w)
    requires s.pc[t].Collect? && s.pc[t].j < n && s.output[s.pc[t].j][t] != []
    ensures w'.phase == w.phase && w'.k == w.k && InGather(g, root, n, Step(g, s, n, t), w')
  {
    hide LevelsAre, ListsAre, TakenAre, PlacesAre, Fits, AllIn, NoDup, Owner;
    var j := s.pc[t].j;
    var list := s.output[j][t];
    TakenMore(g, n, s, w.place, t, j);
    ListsLess(g, n, s.output, w.place, t, j);
    PlacesTaken(g, root, w.k + 1, n, s.output, w.place, t, j);
    ListedIn(g, n, s.output, w.place, j, t);
    w' := w.(place := Take(g, w.place, list));
    assert w'.place[list[0]] == Taken;
  }

  lemma ListedIn(g: Graph, n: nat, output: seq<seq<seq<nat>>>, place: map<nat, Where>, t: nat, o: nat)
    requires 0 < n && |output| == n && (forall u :: 0 <= u < n ==> |output[u]| == n) && place.Keys == g.Keys
    requires ListsAre(g, n, output, place) && t < n && o < n && output[t][o] != []
    ensures output[t][o][0] in g
  {
    assert output[t][o][0] in output[t][o];
  }

  /** The other steps of gathering, up to the last barrier. */
  lemma GatherMoves(g: Graph, root: nat, n: nat, s: State, w: Witness, t: nat)
    requires root in g && Shaped(g, s, n) && t < n && Shaped(g, Step(g, s, n, t), n) && InGather(g, root, n, s, w)
    requires !(s.pc[t] == Barrier3 && MayLeave(s, Barrier3))
    requires !(s.pc[t].Collect? && s.pc[t].j < n && s.output[s.pc[t].j][t] != [])
    ensures InGather(g, root, n, Step(g, s, n, t), w)
  {
    hide LevelsAre, ListsAre, TakenAre, PlacesAre, AllIn, NoDup, Owner;
    assert Fits(g, s.input[t], s.pc[t], n);
    hide Fits;
    if s.pc[t] == Clear {
      TakenCleared(g, n, s.input, s.pc, w.place, t);
    } else {
      TakenSame(g, n, s.input, s.pc, w.place, t, Step(g, s, n, t).pc[t]);
    }
  }

  /** All the threads have collected: a new round begins. */
  lemma RoundEnds(g: Graph, root: nat, n: nat, s: State, w: Witness, t: nat) returns (w': Witness)
    requires root in g && Shaped(g, s, n) && t < n && Shaped(g, Step(g, s, n, t), n) && InGather(g, root, n, s, w)
    requires s.pc[t] == Barrier3 && MayLeave(s, Barrier3)
    ensures w'.phase == Decide && w'.k == w.k + 1 && InDecide(g, root, n, Step(g, s, n, t), w')
  {
    hide LevelsAre, TakenAre, PlacesAre, ListsAre, TasksAre, Fits, AllIn;
    w' := Witness(w.k + 1, Decide, w.place);
    GatherIsOver(g, root, n, s, w);
    AllTaken(g, root, w.k + 1, n, s.input, s.pc, w.place);
    hide InGather, MayLeave, HasCollected;
  }

  lemma GatherIsOver(g: Graph, root: nat, n: nat, s: State, w: Witness)
    requires root in g && Shaped(g, s, n) && InGather(g, root, n, s, w) && MayLeave(s, Barrier3)
    ensures forall u :: 0 <= u < n ==> s.pc[u] == Barrier3
    ensures forall u, o :: 0 <= u < n && 0 <= o < n ==> s.output[u][o] == []
    ensures forall v :: v in g ==> !w.place[v].Listed?
    ensures LevelsAre(g, root, w.k + 1, s.level) && TakenAre(g, n, s.input, s.pc, w.place)
    ensures PlacesAre(g, root, w.k + 1, w.place) && (s.stop <==> forall v :: v in g ==> w.place[v] != Taken)
  {
    hide LevelsAre, TakenAre, PlacesAre, ListsAre, Fits, AllIn;
    forall u | 0 <= u < n
      ensures s.pc[u] == Barrier3
    {
      assert Deciding(s.pc[u]) && Collecting(s.pc[u]);
    }
    forall u, o | 0 <= u < n && 0 <= o < n
      ensures s.output[u][o] == []
    {
      assert HasCollected(s.pc[o], u);
    }
    NoneListed(g, n, s.output, w.place);
  }

  lemma AllTaken(g: Graph, root: nat, k: nat, n: nat, input: seq<seq<nat>>, pc: seq<Pc>, place: map<nat, Where>)
    requires root in g && 0 < n && |input| == |pc| == n && place.Keys == g.Keys
    requires TakenAre(g, n, input, pc, place) && PlacesAre(g, root, k, place)
    requires (forall u :: 0 <= u < n ==> pc[u] == Barrier3) && forall v :: v in g ==> !place[v].Listed?
    ensures TasksAre(g, root, n, k, input)
    ensures (forall v :: v in g ==> place[v] != Taken) <==> Layer(g, root, k) == {}
  {
    LayerInGraph(g, root, k);
    hide Layer, Owner, NoDup;
  }

  lemma NoneListed(g: Graph, n: nat, output: seq<seq<seq<nat>>>, place: map<nat, Where>)
    requires 0 < n && |output| == n && (forall t :: 0 <= t < n ==> |output[t]| == n) && place.Keys == g.Keys
    requires ListsAre(g, n, output, place) && forall t, o :: 0 <= t < n && 0 <= o < n ==> output[t][o] == []
    ensures forall v :: v in g ==> !place[v].Listed?
  {
    forall v, t | v in g && 0 <= t < n
      ensures place[v] != Listed(t)
    {
      assert output[t][Owner(v, n)] == [];
    }
  }

  lemma LayerInGraph(g: Graph, root: nat, k: nat)
    requires root in g
    ensures Layer(g, root, k) <= g.Keys
  {
  }

  // ---------------------------------------------------------------- every schedule

  lemma OnlyEdgesWin(g: Graph, root: nat, n: nat, s: State, w: Witness, t: nat)
    requires root in g && Shaped(g, s, n) && t < n && InScan(g, root, n, s, w) && !IsPlain(g, s, n, t)
    requires !s.pc[t].Push? && !(s.pc[t] == Barrier2 && MayLeave(s, Barrier2))
    ensures s.pc[t].Edge?
  {
    hide Found, TasksAre, ListsAre, Scanned, Winners, MayLeave;
    assert Scanning(s.pc[t]);
  }

  lemma StepInv(g: Graph, root: nat, n: nat, s: State, w: Witness, t: nat) returns (w': Witness)
    requires root in g && Shallow(g, root) && Shaped(g, s, n) && t < n && Shaped(g, Step(g, s, n, t), n)
    requires Inv(g, root, n, s, w)
    ensures Inv(g, root, n, Step(g, s, n, t), w') && Follows(g, root, w, w')
  {
    hide InDecide, InScan, InGather, Step, Fits, MayLeave, AllIn, IsPlain, Layer;
    match w.phase
    case Decide => w' := DecideStep(g, root, n, s, w, t);
    case Scan =>
      if s.pc[t] == Barrier2 && MayLeave(s, Barrier2) {
        w' := GatherBegins(g, root, n, s, w, t);
      } else if s.pc[t].Push? {
        w' := ScanLists(g, root, n, s, w, t);
      } else if IsPlain(g, s, n, t) {
        ScanPlain(g, root, n, s, w, t);
        w' := w;
      } else {
        OnlyEdgesWin(g, root, n, s, w, t);
        w' := ScanWins(g, root, n, s, w, t);
      }
    case Gather =>
      if s.pc[t] == Barrier3 && MayLeave(s, Barrier3) {
        w' := RoundEnds(g, root, n, s, w, t);
      } else if s.pc[t].Collect? && s.pc[t].j < n && s.output[s.pc[t].j][t] != [] {
        w' := GatherTakes(g, root, n, s, w, t);
      } else {
        GatherMoves(g, root, n, s, w, t);
        w' := w;
      }
  }
}
