/** Whole runs of the parallel search: the threads take steps in any order. */
module BfsRuns {
  import opened Graph
  import opened ParallelBfs

  /** The states that the threads go through when they take steps in the order of the schedule. */
  ghost predicate IsRun(g: Graph, root: nat, n: nat, run: seq<State>, schedule: seq<nat>)
    requires root in g && 0 < n
  {
    && |run| == |schedule| + 1 && run[0] == Init(g, root, n)
    && (forall i :: 0 <= i < |run| ==> Shaped(g, run[i], n))
    && forall i :: 0 <= i < |schedule| ==> schedule[i] < n && run[i + 1] == Step(g, run[i], n, schedule[i])
  }

  function Last(run: seq<State>): State
    requires run != []
  {
    run[|run| - 1]
  }

  lemma RunStarts(g: Graph, root: nat, n: nat)
    requires root in g && 0 < n
    ensures IsRun(g, root, n, [Init(g, root, n)], [])
  {
  }

  /** After any run, any thread may take the next step. */
  lemma RunGoesOn(g: Graph, root: nat, n: nat, run: seq<State>, schedule: seq<nat>, t: nat)
    requires root in g && 0 < n && IsRun(g, root, n, run, schedule) && t < n
    ensures IsRun(g, root, n, run + [Step(g, Last(run), n, t)], schedule + [t])
  {
    StepShaped(g, Last(run), n, t);
    hide Step, Shaped, Init;
  }

  lemma RunBefore(g: Graph, root: nat, n: nat, run: seq<State>, schedule: seq<nat>)
    requires root in g && 0 < n && IsRun(g, root, n, run, schedule) && schedule != []
    ensures var m := |schedule| - 1;
            && IsRun(g, root, n, run[..m + 1], schedule[..m]) && Last(run[..m + 1]) == run[m]
            && schedule[m] < n && Shaped(g, run[m], n) && Last(run) == Step(g, run[m], n, schedule[m])
  {
    hide Step, Shaped, Init;
  }

  // ---------------------------------------------------------------- rounds

  /** The rounds that thread `t` has scanned to the end: how often it has given up its tasks. */
  function Rounds(run: seq<State>, schedule: seq<nat>, t: nat): nat
    requires |run| == |schedule| + 1
  {
    if schedule == [] then 0
    else
      var m := |schedule| - 1;
      Rounds(run[..m + 1], schedule[..m], t) +
      if schedule[m] == t && t < |run[m].pc| && run[m].pc[t] == Clear then 1 else 0
  }

  /** In the gathering phase, the threads that have given up their tasks are one round ahead. */
  function Ahead(phase: Phase, pc: Pc): nat { if phase == Gather && HasCleared(pc) then 1 else 0 }

  ghost predicate RoundsAre(run: seq<State>, schedule: seq<nat>, n: nat, w: Witness)
    requires |run| == |schedule| + 1 && |Last(run).pc| == n
  {
    forall t :: 0 <= t < n ==> Rounds(run, schedule, t) == w.k + Ahead(w.phase, Last(run).pc[t])
  }

  /** The rounds up to this one had vertices to scan. */
  ghost predicate RoundsAreReal(g: Graph, root: nat, w: Witness)
    requires root in g
  {
    if w.phase != Decide then Layer(g, root, w.k) != {} else w.k > 0 ==> Layer(g, root, w.k - 1) != {}
  }

  /** Where a step can lead. */
  predicate Leads(pc: Pc, next: Pc) {
    match pc
    case Test => next in {Done, Barrier1}
    case Barrier1 => next in {Barrier1, Start}
    case Start => next == Load(0)
    case Load(i) => next == Barrier2 || (next.Edge? && next.i == i && next.e == 0)
    case Edge(i, e, cur) => next in {Load(i + 1), Edge(i, e + 1, cur), Push(i, e, cur)}
    case Push(i, e, cur) => next == Edge(i, e + 1, cur)
    case Barrier2 => next in {Barrier2, Clear}
    case Clear => next == Collect(0)
    case Collect(j) => next in {Barrier3, Collect(j + 1)}
    case Barrier3 => next in {Barrier3, Test}
    case Done => next == Done
  }

  lemma StepLeads(g: Graph, s: State, n: nat, t: nat)
    requires Shaped(g, s, n) && t < n
    ensures |Step(g, s, n, t).pc| == n && Leads(s.pc[t], Step(g, s, n, t).pc[t])
  {
    assert Fits(g, s.input[t], s.pc[t], n);
    hide MayLeave;
  }

  /** A round more is counted exactly for a thread that gives up its tasks. */
  lemma RoundsStep(n: nat, pc: seq<Pc>, pc': seq<Pc>, t: nat, k: nat, phase: Phase, k': nat, phase': Phase)
    requires |pc| == |pc'| == n && t < n && Leads(pc[t], pc'[t])
    requires forall u :: 0 <= u < n && u != t ==> pc'[u] == pc[u]
    requires PlacesInCode(pc, phase) && PlacesInCode(pc', phase')
    requires if phase' == phase then k' == k
             else match phase
                  case Decide => phase' == Scan && k' == k
                  case Scan => phase' == Gather && k' == k
                  case Gather => phase' == Decide && k' == k + 1
    ensures forall u :: 0 <= u < n ==>
              k' + Ahead(phase', pc'[u]) == k + Ahead(phase, pc[u]) + if u == t && pc[t] == Clear then 1 else 0
  {
  }

  lemma {:induction false} RunInv(g: Graph, root: nat, n: nat, run: seq<State>, schedule: seq<nat>) returns (w: Witness)
    requires root in g && Shallow(g, root) && 0 < n && IsRun(g, root, n, run, schedule)
    ensures Shaped(g, Last(run), n) && Inv(g, root, n, Last(run), w)
    ensures RoundsAre(run, schedule, n, w) && RoundsAreReal(g, root, w)
    decreases |schedule|
  {
    hide Inv, Step, Shallow, Layer, Leads, PlacesInCode;
    if schedule == [] {
      w := Witness(0, Decide, map[]);
      InitInv(g, root, n);
    } else {
      var m, t := |schedule| - 1, schedule[|schedule| - 1];
      RunBefore(g, root, n, run, schedule);
      var before := RunInv(g, root, n, run[..m + 1], schedule[..m]);
      StepShaped(g, run[m], n, t);
      w := StepInv(g, root, n, run[m], before, t);
      InvSaysWhere(g, root, n, run[m], before);
      InvSaysWhere(g, root, n, Last(run), w);
      StepLeads(g, run[m], n, t);
      StepFrame(g, run[m], n, t);
      RoundsStep(n, run[m].pc, Last(run).pc, t, before.k, before.phase, w.k, w.phase);
    }
  }

  /** A level is a distance, all the vertices within `k` have theirs, and none beyond `k + 1`. */
  ghost predicate NeverWrong(g: Graph, root: nat, k: nat, level: map<nat, nat>)
    requires root in g && level.Keys == g.Keys
  {
    forall v :: v in g ==>
      && (level[v] != MY_INFINITY ==> v in Layer(g, root, level[v]) && level[v] <= k + 1)
      && (v in Ball(g, root, k) ==> level[v] != MY_INFINITY)
  }

  lemma LevelsSay(g: Graph, root: nat, k: nat, level: map<nat, nat>)
    requires root in g && level.Keys == g.Keys && Shallow(g, root)
    requires LevelsAre(g, root, k, level) || LevelsAre(g, root, k + 1, level)
    ensures NeverWrong(g, root, k, level)
  {
    BallGrows(g, root, k, k + 1);
    assert Layer(g, root, MY_INFINITY) == {};
    hide Layer, Ball;
  }

  lemma FoundSays(g: Graph, root: nat, k: nat, level: map<nat, nat>, place: map<nat, Where>)
    requires root in g && level.Keys == place.Keys == g.Keys && Shallow(g, root) && Found(g, root, k, level, place)
    ensures NeverWrong(g, root, k, level)
  {
    hide Layer, Ball;
    assert Layer(g, root, MY_INFINITY) == {};
    hide Shallow;
    forall v | v in g
      ensures level[v] != MY_INFINITY ==> v in Layer(g, root, level[v]) && level[v] <= k + 1
      ensures v in Ball(g, root, k) ==> level[v] != MY_INFINITY
    {
    }
  }

  /** At every moment, a vertex that has a level has its distance; when a thread has scanned `k` rounds to the end,
      all the vertices within `k` have their level, and none beyond `k + 1`. */
  lemma LevelsAreNeverWrong(g: Graph, root: nat, n: nat, run: seq<State>, schedule: seq<nat>, t: nat)
    requires root in g && Shallow(g, root) && 0 < n && IsRun(g, root, n, run, schedule) && t < n
    ensures NeverWrong(g, root, Rounds(run, schedule, t), Last(run).level)
  {
    hide LevelsAre, TasksAre, ListsAre, Found, Winners, Scanned, TakenAre, PlacesAre, NeverWrong, Shallow, Rounds;
    var w := RunInv(g, root, n, run, schedule);
    var k, level := Rounds(run, schedule, t), Last(run).level;
    assert k == w.k + Ahead(w.phase, Last(run).pc[t]);
    if w.phase == Scan {
      FoundSays(g, root, k, level, w.place);
    } else {
      LevelsSay(g, root, k, level);
    }
  }

  /** While a thread is at the top of the loop for the `k + 1`-st time, having scanned `k` rounds, exactly the
      vertices within `k` have a level, their distance, and each vertex at distance `k` is a task of its owner and of
      no other thread, once; all the threads have scanned as many rounds. */
  lemma RoundsAreExact(g: Graph, root: nat, n: nat, run: seq<State>, schedule: seq<nat>, t: nat)
    requires root in g && Shallow(g, root) && 0 < n && IsRun(g, root, n, run, schedule)
    requires t < n && Last(run).pc[t] == Test
    ensures var s, k := Last(run), Rounds(run, schedule, t);
            && LevelsAre(g, root, k, s.level) && TasksAre(g, root, n, k, s.input)
            && forall u :: 0 <= u < n ==> Rounds(run, schedule, u) == k
  {
    hide Rounds, Inv, LevelsAre, TasksAre, Shallow;
    var w := RunInv(g, root, n, run, schedule);
    TestIsDecided(g, root, n, Last(run), w, t);
  }

  lemma TestIsDecided(g: Graph, root: nat, n: nat, s: State, w: Witness, t: nat)
    requires root in g && Shaped(g, s, n) && Inv(g, root, n, s, w) && t < n && s.pc[t] == Test
    ensures w.phase == Decide && LevelsAre(g, root, w.k, s.level) && TasksAre(g, root, n, w.k, s.input)
  {
    hide LevelsAre, TasksAre, ListsAre, Found, Winners, Scanned, TakenAre, PlacesAre;
    assert !Scanning(s.pc[t]) && !Collecting(s.pc[t]);
  }

  /** When all the threads are done, every vertex has its distance, or infinity if it cannot be reached. */
  lemma FinalLevels(g: Graph, root: nat, n: nat, run: seq<State>, schedule: seq<nat>)
    requires root in g && Shallow(g, root) && 0 < n && IsRun(g, root, n, run, schedule)
    requires AllDone(Last(run))
    ensures AreDistances(g, root, Last(run).level)
  {
    var w := RunInv(g, root, n, run, schedule);
    var s := Last(run);
    assert s.pc[0] == Done;
    DoneIsDecided(g, root, n, s, w);
    LastRound(g, root, w.k, s.level);
  }

  /** The final levels are the distances exactly if all distances fit below infinity; then they are those of the
      sequential search, whose levels are the distances too. */
  lemma FinalLevelsExactly(g: Graph, root: nat, n: nat, run: seq<State>, schedule: seq<nat>, sequential: map<nat, nat>)
    requires root in g && 0 < n && IsRun(g, root, n, run, schedule)
    requires AllDone(Last(run))
    ensures AreDistances(g, root, Last(run).level) <==> Shallow(g, root)
    ensures AreDistances(g, root, sequential) ==> Last(run).level == sequential
  {
    hide AreDistances, Shallow;
    if Shallow(g, root) {
      FinalLevels(g, root, n, run, schedule);
      if AreDistances(g, root, sequential) {
        DistancesAreUnique(g, root, Last(run).level, sequential);
      }
    } else {
      TooDeepForLevels(g, root, Last(run).level);
      TooDeepForLevels(g, root, sequential);
    }
  }

  lemma DoneIsDecided(g: Graph, root: nat, n: nat, s: State, w: Witness)
    requires root in g && Shaped(g, s, n) && Inv(g, root, n, s, w) && s.pc[0] == Done
    ensures LevelsAre(g, root, w.k, s.level) && Layer(g, root, w.k) == {}
  {
    hide LevelsAre, TasksAre, ListsAre, Found, Winners, Scanned, TakenAre, PlacesAre;
    assert !Scanning(s.pc[0]) && !Collecting(s.pc[0]);
  }

  lemma NotTheFirst(g: Graph, root: nat, k: nat)
    requires root in g && Layer(g, root, k) == {}
    ensures k != 0
  {
    assert root in Layer(g, root, 0);
  }

  lemma NeverReached(g: Graph, root: nat, k: nat, v: nat, j: nat)
    requires root in g && Layer(g, root, k) == {} && v !in Ball(g, root, k)
    ensures v !in Ball(g, root, j)
  {
    hide Layer, Ball;
    NotTheFirst(g, root, k);
    if j < k {
      BallGrows(g, root, j, k);
    } else {
      BallGrows(g, root, k - 1, k);
      EmptyLayerEnds(g, root, k - 1, j);
    }
  }

  lemma LastRound(g: Graph, root: nat, k: nat, level: map<nat, nat>)
    requires root in g && level.Keys == g.Keys && LevelsAre(g, root, k, level) && Layer(g, root, k) == {}
    requires Shallow(g, root)
    ensures AreDistances(g, root, level)
  {
    assert Layer(g, root, MY_INFINITY) == {};
    forall v | v in g
      ensures IsLevel(g, root, v, level[v])
    {
      if v !in Ball(g, root, k) {
        forall j: nat
          ensures v !in Ball(g, root, j)
        {
          NeverReached(g, root, k, v, j);
        }
      }
    }
    hide Layer, Ball;
  }

  /** Where the threads can be in a phase. */
  ghost predicate PlacesInCode(pc: seq<Pc>, phase: Phase) {
    match phase
    case Decide =>
      && (forall t :: 0 <= t < |pc| ==> Deciding(pc[t]))
      && forall t, u :: 0 <= t < |pc| && 0 <= u < |pc| && pc[t] == Done ==> pc[u] != Barrier1
    case Scan => forall t :: 0 <= t < |pc| ==> Scanning(pc[t])
    case Gather => forall t :: 0 <= t < |pc| ==> Collecting(pc[t])
  }

  lemma InvSaysWhere(g: Graph, root: nat, n: nat, s: State, w: Witness)
    requires root in g && Shaped(g, s, n) && Inv(g, root, n, s, w)
    ensures PlacesInCode(s.pc, w.phase)
  {
    hide LevelsAre, TasksAre, ListsAre, Found, Winners, Scanned, TakenAre, PlacesAre, Fits, AllIn;
  }

  predicate AllDone(s: State) { forall t :: 0 <= t < |s.pc| ==> s.pc[t] == Done }

  predicate GoesOn(g: Graph, s: State, n: nat, t: nat)
    requires Shaped(g, s, n) && t < n
  {
    StepFrame(g, s, n, t);
    Step(g, s, n, t).pc[t] != s.pc[t]
  }

  /** Until all the threads are done, some thread can go on. */
  lemma NoDeadlock(g: Graph, root: nat, n: nat, run: seq<State>, schedule: seq<nat>) returns (t: nat)
    requires root in g && Shallow(g, root) && 0 < n && IsRun(g, root, n, run, schedule)
    requires !AllDone(Last(run))
    ensures t < n && GoesOn(g, Last(run), n, t)
  {
    hide Inv, Shallow, PlacesInCode, GoesOn;
    var w := RunInv(g, root, n, run, schedule);
    var s := Last(run);
    InvSaysWhere(g, root, n, s, w);
    t := SomeCanMove(s.pc, w.phase);
    CanMoveMoves(g, s, n, t);
  }

  /** The barrier at which a phase finds those that are late. */
  function LateAt(phase: Phase): Pc {
    match phase
    case Decide => Barrier3
    case Scan => Barrier1
    case Gather => Barrier2
  }

  predicate CanMove(pc: seq<Pc>, t: nat)
    requires t < |pc|
  {
    && pc[t] != Done
    && forall u :: 0 <= u < |pc| ==>
         && (pc[t] == Barrier1 ==> Scanning(pc[u]))
         && (pc[t] == Barrier2 ==> Collecting(pc[u]))
         && (pc[t] == Barrier3 ==> Deciding(pc[u]))
  }

  lemma SomeCanMove(pc: seq<Pc>, phase: Phase) returns (t: nat)
    requires PlacesInCode(pc, phase) && exists u :: 0 <= u < |pc| && pc[u] != Done
    ensures t < |pc| && CanMove(pc, t)
  {
    if moving :| 0 <= moving < |pc| && !(pc[moving] in {Barrier1, Barrier2, Barrier3, Done}) {
      t := moving;
    } else if late :| 0 <= late < |pc| && pc[late] == LateAt(phase) {
      t := late;
    } else {
      t :| t < |pc| && pc[t] != Done;
    }
  }

  lemma CanMoveMoves(g: Graph, s: State, n: nat, t: nat)
    requires Shaped(g, s, n) && t < n && CanMove(s.pc, t)
    ensures GoesOn(g, s, n, t)
  {
    assert Fits(g, s.input[t], s.pc[t], n);
    hide AllIn;
  }

  // ---------------------------------------------------------------- how long a search takes

  /** Every step moves its thread; none waits at a barrier. */
  ghost predicate Busy(run: seq<State>, schedule: seq<nat>) {
    && |run| == |schedule| + 1
    && forall i :: 0 <= i < |schedule| ==>
         schedule[i] < |run[i].pc| == |run[i + 1].pc| && run[i + 1].pc[schedule[i]] != run[i].pc[schedule[i]]
  }

  /** The steps of one thread. */
  function StepsOf(schedule: seq<nat>, t: nat): nat {
    if schedule == [] then 0
    else StepsOf(schedule[..|schedule| - 1], t) + if schedule[|schedule| - 1] == t then 1 else 0
  }

  /** No vertex has more than `d` edges. */
  ghost predicate Degree(g: Graph, d: nat) { forall v :: v in g ==> |g[v]| <= d }

  /** A thread is at one of its tasks, or about to see whether there is another. */
  predicate Working(pc: Pc) { pc.Load? || pc.Edge? || pc.Push? }

  /** The places for one task with at most `d` edges. */
  function Width(d: nat): nat { 2 * d + 3 }

  /** How far a thread has come since it gave up its tasks, if it has at most `v` tasks a round. */
  function Place(pc: Pc, n: nat, v: nat, d: nat): nat {
    match pc
    case Collect(j) => j
    case Barrier3 => n + 1
    case Test => n + 2
    case Barrier1 | Done => n + 3
    case Start => n + 4
    case Load(i) => n + 5 + i * Width(d)
    case Edge(i, e, _) => n + 6 + i * Width(d) + 2 * e
    case Push(i, e, _) => n + 7 + i * Width(d) + 2 * e
    case Barrier2 => n + 6 + v * Width(d)
    case Clear => n + 7 + v * Width(d)
  }

  /** The places of one round. */
  function Lap(n: nat, v: nat, d: nat): nat { n + 8 + v * Width(d) }

  lemma Wider(i: nat, v: nat, d: nat)
    requires i <= v
    ensures i * Width(d) <= v * Width(d) && (i + 1) * Width(d) == i * Width(d) + Width(d)
  {
    assert (v - i) * Width(d) >= 0;
    assert v * Width(d) == i * Width(d) + (v - i) * Width(d);
  }

  lemma PlaceIsInLap(pc: Pc, n: nat, v: nat, d: nat)
    requires (pc.Load? ==> pc.i <= v) && (pc.Edge? || pc.Push? ==> pc.i < v && pc.e <= d) && (pc.Collect? ==> pc.j <= n)
    ensures Place(pc, n, v, d) < Lap(n, v, d)
  {
    match pc
    case Load(i) => Wider(i, v, d);
    case Edge(i, _, _) =>
      Wider(i, v, d);
      Wider(i + 1, v, d);
    case Push(i, _, _) =>
      Wider(i, v, d);
      Wider(i + 1, v, d);
    case _ =>
  }

  lemma PlaceFits(g: Graph, tasks: seq<nat>, pc: Pc, n: nat, v: nat, d: nat)
    requires Fits(g, tasks, pc, n) && Degree(g, d) && (Working(pc) ==> |tasks| <= v)
    ensures Place(pc, n, v, d) < Lap(n, v, d)
  {
    hide Place, Lap;
    if pc.Edge? || pc.Push? {
      assert tasks[pc.i] in g;
    }
    PlaceIsInLap(pc, n, v, d);
  }

  lemma LeadsOn(pc: Pc, next: Pc, n: nat, v: nat, d: nat)
    requires Leads(pc, next) && next != pc
    requires (pc.Load? ==> pc.i <= v) && (pc.Edge? ==> pc.e <= d) && (pc.Collect? ==> pc.j <= n)
    ensures if pc == Clear then next == Collect(0) else Place(pc, n, v, d) < Place(next, n, v, d)
  {
    match pc
    case Load(i) => Wider(i, v, d);
    case Edge(i, _, _) => Wider(i, i, d);
    case _ =>
  }

  /** A step that moves a thread brings it on, and the last one of a round begins the next. */
  lemma StepBringsOn(g: Graph, s: State, n: nat, t: nat, v: nat, d: nat)
    requires Shaped(g, s, n) && t < n && Degree(g, d) && (Working(s.pc[t]) ==> |s.input[t]| <= v)
    requires |Step(g, s, n, t).pc| == n && Step(g, s, n, t).pc[t] != s.pc[t]
    ensures var next := Step(g, s, n, t).pc[t];
            if s.pc[t] == Clear then next == Collect(0) else Place(s.pc[t], n, v, d) < Place(next, n, v, d)
  {
    hide Step, Leads, Place;
    assert Fits(g, s.input[t], s.pc[t], n);
    if s.pc[t].Edge? {
      assert s.input[t][s.pc[t].i] in g;
    }
    StepLeads(g, s, n, t);
    LeadsOn(s.pc[t], Step(g, s, n, t).pc[t], n, v, d);
  }

  // ---------------------------------------------------------------- every busy schedule ends

  lemma NoDupBound(g: Graph, vs: seq<nat>)
    requires NoDup(vs) && AllIn(g, vs)
    ensures |vs| <= |g|
  {
    var members := set i | 0 <= i < |vs| :: vs[i];
    DistinctCount(vs, members);
    NoLarger(members, g.Keys);
    assert |g.Keys| == |g|;
  }

  lemma {:induction false} DistinctCount(vs: seq<nat>, members: set<nat>)
    requires NoDup(vs) && (forall v :: v in members <==> v in vs)
    ensures |members| == |vs|
  {
    if vs == [] {
      assert members == {};
    } else {
      var m := |vs| - 1;
      assert forall v :: v in members - {vs[m]} <==> v in vs[..m];
      DistinctCount(vs[..m], members - {vs[m]});
    }
  }

  /** A thread that works has no more tasks than there are vertices. */
  lemma TasksAreFew(g: Graph, root: nat, n: nat, s: State, w: Witness, t: nat)
    requires root in g && Shaped(g, s, n) && Inv(g, root, n, s, w) && t < n
    ensures Working(s.pc[t]) ==> |s.input[t]| <= |g|
  {
    hide LevelsAre, ListsAre, Found, Winners, Scanned, TakenAre, PlacesAre, Layer;
    if w.phase != Gather {
      assert NoDup(s.input[t]) && Fits(g, s.input[t], s.pc[t], n);
      NoDupBound(g, s.input[t]);
    } else {
      assert Collecting(s.pc[t]);
    }
  }

  /** The rounds scanned are no more than the vertices. */
  lemma RoundsAreFew(g: Graph, root: nat, n: nat, run: seq<State>, schedule: seq<nat>, w: Witness, t: nat)
    requires root in g && t < n && |run| == |schedule| + 1 && |Last(run).pc| == n
    requires RoundsAre(run, schedule, n, w) && RoundsAreReal(g, root, w)
    ensures Rounds(run, schedule, t) <= |g|
  {
    hide Layer, Rounds;
    if w.phase != Decide {
      LayersAreFew(g, root, w.k);
    } else if w.k > 0 {
      LayersAreFew(g, root, w.k - 1);
    }
  }

  /** A thread takes no more steps than the rounds it has scanned have places, and its own place in the next. */
  lemma {:induction false} StepsAreFew(g: Graph, root: nat, n: nat, run: seq<State>, schedule: seq<nat>, d: nat, t: nat)
    requires root in g && Shallow(g, root) && 0 < n && IsRun(g, root, n, run, schedule) && t < n
    requires Busy(run, schedule) && Degree(g, d)
    ensures |Last(run).pc| == n
    ensures StepsOf(schedule, t) <= Rounds(run, schedule, t) * Lap(n, |g|, d) + Place(Last(run).pc[t], n, |g|, d)
    decreases |schedule|
  {
    hide Step, Shallow, Inv, Place, Lap, Init, Shaped, Degree, Fits, RoundsAre, RoundsAreReal;
    if schedule != [] {
      var m, u := |schedule| - 1, schedule[|schedule| - 1];
      RunBefore(g, root, n, run, schedule);
      BusyBefore(run, schedule);
      StepsAreFew(g, root, n, run[..m + 1], schedule[..m], d, t);
      StepFrame(g, run[m], n, u);
      if u == t {
        var w := RunInv(g, root, n, run[..m + 1], schedule[..m]);
        TasksAreFew(g, root, n, run[m], w, t);
        StepBringsOn(g, run[m], n, t, |g|, d);
        if run[m].pc[t] == Clear {
          LapIsFull(n, |g|, d, Rounds(run[..m + 1], schedule[..m], t));
        }
      }
    } else {
      RunKeepsSizes(g, root, n, run, schedule);
    }
  }

  lemma RunKeepsSizes(g: Graph, root: nat, n: nat, run: seq<State>, schedule: seq<nat>)
    requires root in g && 0 < n && IsRun(g, root, n, run, schedule)
    ensures |Last(run).pc| == n
  {
    assert Shaped(g, Last(run), n);
  }

  lemma LapIsFull(n: nat, v: nat, d: nat, rounds: nat)
    ensures rounds * Lap(n, v, d) + Place(Clear, n, v, d) < (rounds + 1) * Lap(n, v, d) + Place(Collect(0), n, v, d)
  {
    assert (rounds + 1) * Lap(n, v, d) == rounds * Lap(n, v, d) + Lap(n, v, d);
  }

  lemma BusyBefore(run: seq<State>, schedule: seq<nat>)
    requires Busy(run, schedule) && schedule != []
    ensures Busy(run[..|schedule|], schedule[..|schedule| - 1])
  {
  }

  /** The steps of the threads before `n`, one thread after the other. */
  function AllSteps(schedule: seq<nat>, n: nat): nat {
    if n == 0 then 0 else AllSteps(schedule, n - 1) + StepsOf(schedule, n - 1)
  }

  lemma {:induction false} AllStepsSnoc(schedule: seq<nat>, t: nat, n: nat)
    ensures AllSteps(schedule + [t], n) == AllSteps(schedule, n) + if t < n then 1 else 0
  {
    if n > 0 {
      AllStepsSnoc(schedule, t, n - 1);
      assert (schedule + [t])[..|schedule|] == schedule;
    }
  }

  lemma {:induction false} NoSteps(n: nat)
    ensures AllSteps([], n) == 0
  {
    if n > 0 {
      NoSteps(n - 1);
    }
  }

  lemma {:induction false} StepsAreOfThreads(schedule: seq<nat>, n: nat)
    requires forall i :: 0 <= i < |schedule| ==> schedule[i] < n
    ensures AllSteps(schedule, n) == |schedule|
  {
    if schedule == [] {
      NoSteps(n);
    } else {
      var m := |schedule| - 1;
      StepsAreOfThreads(schedule[..m], n);
      AllStepsSnoc(schedule[..m], schedule[m], n);
      assert schedule == schedule[..m] + [schedule[m]];
    }
  }

  lemma {:induction false} AllStepsBound(schedule: seq<nat>, n: nat, most: nat)
    requires forall t :: 0 <= t < n ==> StepsOf(schedule, t) <= most
    ensures AllSteps(schedule, n) <= n * most
  {
    if n > 0 {
      AllStepsBound(schedule, n - 1, most);
      assert n * most == (n - 1) * most + most;
    }
  }

  /** More steps than any search takes. */
  function MostSteps(g: Graph, n: nat, d: nat): nat { n * ((|g| + 1) * Lap(n, |g|, d)) }

  /** Every schedule in which each step moves its thread ends: there are only so many such steps. */
  lemma BusySchedulesEnd(g: Graph, root: nat, n: nat, run: seq<State>, schedule: seq<nat>, d: nat)
    requires root in g && Shallow(g, root) && 0 < n && IsRun(g, root, n, run, schedule)
    requires Busy(run, schedule) && Degree(g, d)
    ensures |schedule| <= MostSteps(g, n, d)
  {
    hide Shallow, Busy, Degree, Lap, Place, Rounds, StepsOf;
    var most := (|g| + 1) * Lap(n, |g|, d);
    forall t | 0 <= t < n
      ensures StepsOf(schedule, t) <= most
    {
      OneThreadEnds(g, root, n, run, schedule, d, t);
    }
    AllStepsBound(schedule, n, most);
    StepsAreOfThreads(schedule, n);
  }

  lemma OneThreadEnds(g: Graph, root: nat, n: nat, run: seq<State>, schedule: seq<nat>, d: nat, t: nat)
    requires root in g && Shallow(g, root) && 0 < n && IsRun(g, root, n, run, schedule) && t < n
    requires Busy(run, schedule) && Degree(g, d)
    ensures StepsOf(schedule, t) <= (|g| + 1) * Lap(n, |g|, d)
  {
    hide Shallow, Busy, Degree, Lap, Place, Rounds, StepsOf, Inv, RoundsAre, RoundsAreReal, Fits, Init, Step;
    var w := RunInv(g, root, n, run, schedule);
    var s := Last(run);
    StepsAreFew(g, root, n, run, schedule, d, t);
    RoundsAreFew(g, root, n, run, schedule, w, t);
    TasksAreFew(g, root, n, s, w, t);
    assert Fits(g, s.input[t], s.pc[t], n);
    PlaceFits(g, s.input[t], s.pc[t], n, |g|, d);
    Product(Rounds(run, schedule, t), |g|, Lap(n, |g|, d));
  }

  lemma Product(a: nat, b: nat, lap: nat)
    requires a <= b
    ensures a * lap + lap <= (b + 1) * lap
  {
    assert (b + 1) * lap == b * lap + lap;
    assert b * lap == a * lap + (b - a) * lap;
  }

  lemma {:induction false} SomeDegree(g: Graph, vs: set<nat>) returns (d: nat)
    requires vs <= g.Keys
    ensures forall v :: v in vs ==> |g[v]| <= d
  {
    d := 0;
    if v :| v in vs {
      d := SomeDegree(g, vs - {v});
      d := if d < |g[v]| then |g[v]| else d;
    }
  }

  /** Any busy run goes on to its end by steps that move their threads. */
  lemma {:induction false} RunCanEnd(g: Graph, root: nat, n: nat, run: seq<State>, schedule: seq<nat>, d: nat)
      returns (whole: seq<State>, order: seq<nat>)
    requires root in g && Shallow(g, root) && 0 < n && IsRun(g, root, n, run, schedule)
    requires Busy(run, schedule) && Degree(g, d)
    ensures run <= whole && schedule <= order && IsRun(g, root, n, whole, order)
    ensures Busy(whole, order) && AllDone(Last(whole))
    decreases MostSteps(g, n, d) - |schedule|
  {
    hide Shallow, IsRun, Degree, MostSteps, Step, AllDone;
    BusySchedulesEnd(g, root, n, run, schedule, d);
    if AllDone(Last(run)) {
      whole, order := run, schedule;
    } else {
      var t := NoDeadlock(g, root, n, run, schedule);
      var more, later := OneStepMore(g, root, n, run, schedule, t);
      BusySchedulesEnd(g, root, n, more, later, d);
      whole, order := RunCanEnd(g, root, n, more, later, d);
    }
  }

  lemma OneStepMore(g: Graph, root: nat, n: nat, run: seq<State>, schedule: seq<nat>, t: nat)
      returns (more: seq<State>, later: seq<nat>)
    requires root in g && 0 < n && IsRun(g, root, n, run, schedule) && t < n && Busy(run, schedule)
    requires GoesOn(g, Last(run), n, t)
    ensures more == run + [Step(g, Last(run), n, t)] && later == schedule + [t]
    ensures IsRun(g, root, n, more, later) && Busy(more, later)
  {
    hide Step, Shaped, Init;
    more, later := run + [Step(g, Last(run), n, t)], schedule + [t];
    RunGoesOn(g, root, n, run, schedule, t);
    StepFrame(g, Last(run), n, t);
    RunKeepsSizes(g, root, n, run, schedule);
    forall i | 0 <= i < |later|
      ensures later[i] < |more[i].pc| == |more[i + 1].pc| && more[i + 1].pc[later[i]] != more[i].pc[later[i]]
    {
      if i < |schedule| {
        assert more[i] == run[i] && more[i + 1] == run[i + 1] && later[i] == schedule[i];
      } else {
        assert more[i] == Last(run) && more[i + 1] == Step(g, Last(run), n, t) && later[i] == t;
      }
    }
  }

  /** Every search can be completed, with the right levels. */
  lemma SearchEnds(g: Graph, root: nat, n: nat) returns (run: seq<State>, schedule: seq<nat>)
    requires root in g && Shallow(g, root) && 0 < n
    ensures IsRun(g, root, n, run, schedule) && Busy(run, schedule) && AllDone(Last(run))
    ensures AreDistances(g, root, Last(run).level)
  {
    hide Shallow, IsRun, AllDone, AreDistances, Init;
    var d := SomeDegree(g, g.Keys);
    RunStarts(g, root, n);
    assert Busy([Init(g, root, n)], []);
    run, schedule := RunCanEnd(g, root, n, [Init(g, root, n)], [], d);
    FinalLevels(g, root, n, run, schedule);
  }
}
