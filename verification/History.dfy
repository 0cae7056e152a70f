/** Timing constraints, stated twice: over the whole history of issued commands (`Allows`), and as the
    bounded state that each tree node keeps (`NodeAfter`: one `next` clock per command and a short
    window of past clocks).  `FastRefinesHistory` shows the two agree; module `Safety`
    says what that buys over whole runs. */
module History {
  import opened Device
  import opened Wrappers

  /** A command issued at `clk`. */
  datatype Event = Event(cmd: Command, addr: Address, clk: int)

  /** A node is named by the indices on the way down from the root, the root's own id included. */
  type Path = p: seq<int> | |p| > 0 witness [0]

  predicate AtNode(e: Event, p: Path) { |p| <= |e.addr| && e.addr[..|p|] == p }

  predicate AtSibling(e: Event, p: Path) {
    && |p| <= |e.addr|
    && e.addr[..|p| - 1] == p[..|p| - 1]
    && e.addr[|p| - 1] != p[|p| - 1]
  }

  ghost predicate Chronological(h: seq<Event>) {
    && (forall i :: 0 <= i < |h| ==> 0 <= h[i].clk)
    && forall i, j :: 0 <= i <= j < |h| ==> h[i].clk <= h[j].clk
  }

  lemma ChronologicalPrefix(h: seq<Event>, e: Event)
    requires Chronological(h + [e])
    ensures Chronological(h) && 0 <= e.clk
  {
    assert (h + [e])[|h|] == e;
    assert forall i :: 0 <= i < |h| ==> (h + [e])[i] == h[i];
  }

  // ---------------------------------------------------------------- the constraints, over all history

  /** The clocks of the `c` commands aimed at node `p` (through `p`, for its descendants), latest first. */
  function Times(h: seq<Event>, p: Path, c: Command): seq<int> {
    if h == [] then [] else
      var e := h[|h| - 1];
      var rest := Times(h[..|h| - 1], p, c);
      if e.cmd == c && AtNode(e, p) then [e.clk] + rest else rest
  }

  /** The clocks of the `c` commands aimed at a sibling of node `p`, latest first. */
  function SiblingTimes(h: seq<Event>, p: Path, c: Command): seq<int> {
    if h == [] then [] else
      var e := h[|h| - 1];
      var rest := SiblingTimes(h[..|h| - 1], p, c);
      if e.cmd == c && AtSibling(e, p) then [e.clk] + rest else rest
  }

  predicate Elapsed(past: seq<int>, t: Entry, clk: int) {
    1 <= t.dist <= |past| ==> past[t.dist - 1] + t.val <= clk
  }

  /** Every entry of node `p`'s tables that ends in `c` has elapsed at `clk`. */
  ghost predicate NodeAllows(dev: Spec, h: seq<Event>, p: Path, c: Command, clk: int) {
    forall a: Command, t: Entry :: t in dev.timing(|p| - 1, a) && t.cmd == c ==>
      Elapsed(Past(h, p, a, t), t, clk)
  }

  function Past(h: seq<Event>, p: Path, a: Command, t: Entry): seq<int> {
    if t.sibling then SiblingTimes(h, p, a) else Times(h, p, a)
  }

  /** The number of nodes that `c` visits below level `level`, given that it visits the node there:
      it stops at its scope, at a leaf, and where its address is -1. */
  function Depth(dev: Spec, c: Command, addr: Address, level: nat): (d: nat)
    requires level <= BANK
    ensures level + d <= BANK
    decreases BANK - level
  {
    if level == BANK || addr[level + 1] < 0 || level == Scope(dev, c) || dev.count[level + 1] == 0
    then 0
    else 1 + Depth(dev, c, addr, level + 1)
  }

  /** `c` is allowed at `clk` at every node from `level` down to its scope. */
  ghost predicate AllowsBelow(dev: Spec, h: seq<Event>, c: Command, addr: Address, clk: int, level: nat)
    requires level <= BANK
  {
    forall k: int :: level + 1 <= k <= level + 1 + Depth(dev, c, addr, level) ==> NodeAllows(dev, h, addr[..k], c, clk)
  }

  /** The check, one level at a time. */
  lemma AllowsStep(dev: Spec, h: seq<Event>, c: Command, addr: Address, clk: int, level: nat)
    requires level <= BANK
    ensures AllowsBelow(dev, h, c, addr, clk, level) <==>
            && NodeAllows(dev, h, addr[..level + 1], c, clk)
            && (Depth(dev, c, addr, level) != 0 ==> AllowsBelow(dev, h, c, addr, clk, level + 1))
  {
  }

  /** `c` may be issued at `clk`. */
  ghost predicate Allows(dev: Spec, h: seq<Event>, c: Command, addr: Address, clk: int) {
    AllowsBelow(dev, h, c, addr, clk, 0)
  }

  // ---------------------------------------------------------------- the state a node keeps

  datatype NodeTiming = NodeTiming(next: map<Command, int>, prev: map<Command, seq<int>>)

  ghost predicate Total<T>(m: map<Command, T>) { forall c: Command :: c in m }

  function MaxDist(es: seq<Entry>): (d: nat)
    ensures forall t :: t in es ==> t.dist <= d
  {
    if es == [] then 0 else Max(MaxDist(es[..|es| - 1]), es[|es| - 1].dist)
  }

  function Unset(n: nat): (s: seq<int>)
    ensures |s| == n && forall i :: 0 <= i < n ==> s[i] == -1
  {
    seq(n, _ => -1)
  }

  function Never(c: Command): int { -1 }

  function Fresh(dev: Spec, level: nat): (n: NodeTiming)
    ensures Total(n.next) && Total(n.prev)
    ensures forall c :: n.next[c] == -1 && n.prev[c] == Unset(MaxDist(dev.timing(level, c)))
  {
    NodeTiming(map c: Command :: Never(c), map c: Command :: Unset(MaxDist(dev.timing(level, c))))
  }

  /** The window of past clocks after one more command: the oldest clock falls out. */
  function Shift(past: seq<int>, clk: int): seq<int> {
    if past == [] then [] else [clk] + past[..|past| - 1]
  }

  /** The clocks after the first entries `es` have been applied to a node that the command targets. */
  function ApplyOwn(next: map<Command, int>, past: seq<int>, es: seq<Entry>): (n: map<Command, int>)
    requires Total(next)
    requires forall t :: t in es ==> 1 <= t.dist <= |past|
    ensures Total(n)
  {
    if es == [] then next else
      var n := ApplyOwn(next, past, es[..|es| - 1]);
      var t := es[|es| - 1];
      if t.sibling || past[t.dist - 1] < 0 then n
      else n[t.cmd := Max(n[t.cmd], past[t.dist - 1] + t.val)]
  }

  lemma ApplyOwnSnoc(next: map<Command, int>, past: seq<int>, es: seq<Entry>, k: nat)
    requires Total(next) && k < |es|
    requires forall t :: t in es ==> 1 <= t.dist <= |past|
    ensures ApplyOwn(next, past, es[..k + 1]) ==
            var n, t := ApplyOwn(next, past, es[..k]), es[k];
            if t.sibling || past[t.dist - 1] < 0 then n
            else n[t.cmd := Max(n[t.cmd], past[t.dist - 1] + t.val)]
  {
    assert es[..k + 1][..k] == es[..k];
  }

  /** The same for a node one of whose siblings the command targets. */
  function ApplySibling(next: map<Command, int>, clk: int, es: seq<Entry>): (n: map<Command, int>)
    requires Total(next)
    ensures Total(n)
  {
    if es == [] then next else
      var n := ApplySibling(next, clk, es[..|es| - 1]);
      var t := es[|es| - 1];
      if !t.sibling then n else n[t.cmd := Max(n[t.cmd], clk + t.val)]
  }

  ghost predicate NodeShape(dev: Spec, level: nat, n: NodeTiming) {
    && Total(n.next) && Total(n.prev)
    && forall c :: |n.prev[c]| == MaxDist(dev.timing(level, c))
  }

  ghost function StepNode(dev: Spec, p: Path, n: NodeTiming, e: Event): (n': NodeTiming)
    requires NodeShape(dev, |p| - 1, n)
    ensures NodeShape(dev, |p| - 1, n')
  {
    if AtSibling(e, p) then
      n.(next := ApplySibling(n.next, e.clk, dev.timing(|p| - 1, e.cmd)))
    else if AtNode(e, p) then
      var past := Shift(n.prev[e.cmd], e.clk);
      NodeTiming(ApplyOwn(n.next, past, dev.timing(|p| - 1, e.cmd)), n.prev[e.cmd := past])
    else n
  }

  ghost function NodeAfter(dev: Spec, h: seq<Event>, p: Path): (n: NodeTiming)
    ensures NodeShape(dev, |p| - 1, n)
  {
    if h == [] then Fresh(dev, |p| - 1)
    else StepNode(dev, p, NodeAfter(dev, h[..|h| - 1], p), h[|h| - 1])
  }

  // ---------------------------------------------------------------- the refinement

  lemma {:induction false} ApplyOwnThreshold(next: map<Command, int>, past: seq<int>, es: seq<Entry>,
                                             c: Command, clk: int)
    requires Total(next)
    requires forall t :: t in es ==> 1 <= t.dist <= |past|
    ensures ApplyOwn(next, past, es)[c] <= clk <==>
            && next[c] <= clk
            && forall t :: t in es && t.cmd == c && !t.sibling && 0 <= past[t.dist - 1] ==>
                 past[t.dist - 1] + t.val <= clk
  {
    if es != [] {
      assert es == es[..|es| - 1] + [es[|es| - 1]];
      ApplyOwnThreshold(next, past, es[..|es| - 1], c, clk);
    }
  }

  lemma {:induction false} ApplySiblingThreshold(next: map<Command, int>, at: int, es: seq<Entry>,
                                                 c: Command, clk: int)
    requires Total(next)
    ensures ApplySibling(next, at, es)[c] <= clk <==>
            && next[c] <= clk
            && forall t :: t in es && t.cmd == c && t.sibling ==> at + t.val <= clk
  {
    if es != [] {
      assert es == es[..|es| - 1] + [es[|es| - 1]];
      ApplySiblingThreshold(next, at, es[..|es| - 1], c, clk);
    }
  }

  lemma {:induction false} TimesDescend(h: seq<Event>, p: Path, c: Command)
    requires Chronological(h)
    ensures forall i :: 0 <= i < |Times(h, p, c)| ==> 0 <= Times(h, p, c)[i] <= h[|h| - 1].clk
    ensures forall i, j :: 0 <= i <= j < |Times(h, p, c)| ==> Times(h, p, c)[j] <= Times(h, p, c)[i]
    ensures forall i :: 0 <= i < |SiblingTimes(h, p, c)| ==> 0 <= SiblingTimes(h, p, c)[i] <= h[|h| - 1].clk
    ensures forall i, j :: 0 <= i <= j < |SiblingTimes(h, p, c)| ==>
              SiblingTimes(h, p, c)[j] <= SiblingTimes(h, p, c)[i]
  {
    if h != [] {
      TimesDescend(h[..|h| - 1], p, c);
    }
  }

  lemma NodeAfterSnoc(dev: Spec, h: seq<Event>, e: Event, p: Path)
    ensures NodeAfter(dev, h + [e], p) == StepNode(dev, p, NodeAfter(dev, h, p), e)
  {
    assert (h + [e])[..|h|] == h;
  }

  lemma TimesSnoc(h: seq<Event>, e: Event, p: Path, c: Command)
    ensures Times(h + [e], p, c) ==
            (if e.cmd == c && AtNode(e, p) then [e.clk] else []) + Times(h, p, c)
    ensures SiblingTimes(h + [e], p, c) ==
            (if e.cmd == c && AtSibling(e, p) then [e.clk] else []) + SiblingTimes(h, p, c)
  {
    assert (h + [e])[..|h|] == h;
  }

  /** The window a node keeps is the beginning of the list of all past clocks. */
  ghost predicate IsWindow(window: seq<int>, times: seq<int>) {
    forall i :: 0 <= i < |window| ==> window[i] == if i < |times| then times[i] else -1
  }

  lemma {:induction false} WindowIsRecentPast(dev: Spec, h: seq<Event>, p: Path, c: Command)
    ensures IsWindow(NodeAfter(dev, h, p).prev[c], Times(h, p, c))
  {
    hide NodeAfter, Times, IsWindow, StepNode;
    if h == [] {
      WindowStart(dev, p, c);
    } else {
      var h', e := h[..|h| - 1], h[|h| - 1];
      assert h == h' + [e];
      NodeAfterSnoc(dev, h', e, p);
      TimesSnoc(h', e, p, c);
      WindowIsRecentPast(dev, h', p, c);
      WindowStep(dev, p, NodeAfter(dev, h', p), e, Times(h', p, c), c);
    }
  }

  lemma WindowStart(dev: Spec, p: Path, c: Command)
    ensures IsWindow(NodeAfter(dev, [], p).prev[c], Times([], p, c))
  {
  }

  lemma WindowStep(dev: Spec, p: Path, n: NodeTiming, e: Event, times: seq<int>, c: Command)
    requires NodeShape(dev, |p| - 1, n) && IsWindow(n.prev[c], times)
    ensures IsWindow(StepNode(dev, p, n, e).prev[c], (if e.cmd == c && AtNode(e, p) then [e.clk] else []) + times)
  {
    hide ApplyOwn, ApplySibling;
  }

  /** After any chronological history, the single clock that a node keeps for `c` says exactly whether
      every constraint on `c` at that node, looked up in the whole history, has elapsed. */
  lemma {:induction false} FastRefinesHistory(dev: Spec, h: seq<Event>, p: Path, c: Command, clk: int)
    requires Chronological(h) && 0 <= clk
    ensures NodeAfter(dev, h, p).next[c] <= clk <==> NodeAllows(dev, h, p, c, clk)
  {
    if h != [] {
      var h', e := h[..|h| - 1], h[|h| - 1];
      assert h == h' + [e];
      FastRefinesHistory(dev, h', p, c, clk);
      NodeAfterSnoc(dev, h', e, p);
      StepThreshold(dev, h', e, p, c, clk);
      StepAllows(dev, h', e, p, c, clk);
      hide NodeAfter, NodeAllows, StepNode, NewEntriesElapsed;
    }
  }

  /** The entries of `e`'s own table that end in `c`, looked up after `e`. */
  ghost predicate NewEntriesElapsed(dev: Spec, h: seq<Event>, e: Event, p: Path, c: Command, clk: int) {
    forall t: Entry :: t in dev.timing(|p| - 1, e.cmd) && t.cmd == c ==>
      (if t.sibling then AtSibling(e, p) else AtNode(e, p)) ==> Elapsed(Past(h + [e], p, e.cmd, t), t, clk)
  }

  lemma StepThreshold(dev: Spec, h: seq<Event>, e: Event, p: Path, c: Command, clk: int)
    requires Chronological(h + [e])
    ensures StepNode(dev, p, NodeAfter(dev, h, p), e).next[c] <= clk <==>
            NodeAfter(dev, h, p).next[c] <= clk && NewEntriesElapsed(dev, h, e, p, c, clk)
  {
    if AtSibling(e, p) {
      SiblingThreshold(dev, h, e, p, c, clk);
    } else if AtNode(e, p) {
      OwnThreshold(dev, h, e, p, c, clk);
    }
  }

  lemma SiblingThreshold(dev: Spec, h: seq<Event>, e: Event, p: Path, c: Command, clk: int)
    requires Chronological(h + [e]) && AtSibling(e, p)
    ensures StepNode(dev, p, NodeAfter(dev, h, p), e).next[c] <= clk <==>
            NodeAfter(dev, h, p).next[c] <= clk && NewEntriesElapsed(dev, h, e, p, c, clk)
  {
    assert !AtNode(e, p);
    ApplySiblingThreshold(NodeAfter(dev, h, p).next, e.clk, dev.timing(|p| - 1, e.cmd), c, clk);
    forall t: Entry | t.sibling && t.dist == 1
      ensures Elapsed(Past(h + [e], p, e.cmd, t), t, clk) <==> e.clk + t.val <= clk
    {
      TimesSnoc(h, e, p, e.cmd);
    }
  }

  lemma OwnThreshold(dev: Spec, h: seq<Event>, e: Event, p: Path, c: Command, clk: int)
    requires Chronological(h + [e]) && AtNode(e, p)
    ensures StepNode(dev, p, NodeAfter(dev, h, p), e).next[c] <= clk <==>
            NodeAfter(dev, h, p).next[c] <= clk && NewEntriesElapsed(dev, h, e, p, c, clk)
  {
    TimesSnoc(h, e, p, e.cmd);
    WindowIsRecentPast(dev, h, p, e.cmd);
    ChronologicalPrefix(h, e);
    TimesDescend(h, p, e.cmd);
    hide NodeAfter, Times;
    WindowThreshold(dev, p, NodeAfter(dev, h, p), e, Times(h, p, e.cmd), c, clk);
  }

  /** One target step, with the window compared directly with a list of past clocks. */
  lemma WindowThreshold(dev: Spec, p: Path, n: NodeTiming, e: Event, times: seq<int>, c: Command, clk: int)
    requires NodeShape(dev, |p| - 1, n) && AtNode(e, p) && 0 <= e.clk
    requires forall i :: 0 <= i < |times| ==> 0 <= times[i]
    requires IsWindow(n.prev[e.cmd], times)
    ensures StepNode(dev, p, n, e).next[c] <= clk <==>
            && n.next[c] <= clk
            && forall t: Entry :: t in dev.timing(|p| - 1, e.cmd) && t.cmd == c && !t.sibling ==>
                 Elapsed([e.clk] + times, t, clk)
  {
    var past := Shift(n.prev[e.cmd], e.clk);
    assert IsWindow(past, [e.clk] + times);
    ApplyOwnThreshold(n.next, past, dev.timing(|p| - 1, e.cmd), c, clk);
  }

  /** One more command adds the constraints of its own table, and only strengthens the old ones. */
  lemma StepAllows(dev: Spec, h: seq<Event>, e: Event, p: Path, c: Command, clk: int)
    requires Chronological(h + [e])
    ensures NodeAllows(dev, h + [e], p, c, clk) <==>
            NodeAllows(dev, h, p, c, clk) && NewEntriesElapsed(dev, h, e, p, c, clk)
  {
    var h' := h + [e];
    assert h'[..|h'| - 1] == h;
    forall a: Command, t: Entry | t in dev.timing(|p| - 1, a) && t.cmd == c
      ensures Elapsed(Past(h', p, a, t), t, clk) ==> Elapsed(Past(h, p, a, t), t, clk)
      ensures !(a == e.cmd && if t.sibling then AtSibling(e, p) else AtNode(e, p)) ==>
                Past(h', p, a, t) == Past(h, p, a, t)
    {
      OlderIsSmaller(h, e, p, a, t);
    }
  }

  lemma OlderIsSmaller(h: seq<Event>, e: Event, p: Path, a: Command, t: Entry)
    requires Chronological(h + [e])
    ensures |Past(h, p, a, t)| <= |Past(h + [e], p, a, t)|
    ensures forall i :: 0 <= i < |Past(h, p, a, t)| ==> Past(h, p, a, t)[i] <= Past(h + [e], p, a, t)[i]
  {
    assert (h + [e])[..|h|] == h;
    TimesDescend(h + [e], p, a);
    TimesDescend(h, p, a);
  }
}
