/** The tree of DRAM nodes, updated in place.  Every operation is tied to the history of the commands
    issued to the tree: the nodes keep exactly what `History`, `BankState` and `Activity` compute. */
module DramTree {
  import opened Device
  import opened History
  import opened BankState
  import opened Activity
  import opened Wrappers

  function ChildCount(dev: Spec, level: nat): nat { if level < BANK then dev.count[level + 1] else 0 }

  class Node {
    const dev: Spec
    const level: nat
    const id: int
    const children: seq<Node>
    ghost const path: Path
    ghost const Repr: set<Node>

    // the open rows of a bank stand for the keys of the source's row map
    var state: State
    var rows: set<int>

    var next: map<Command, int>
    var prev: map<Command, seq<int>>

    var current: int
    var since: int
    var requestCycles: int
    var activeCycles: int

    var curClk: int

    /** A node and, recursively, all the nodes below it. */
    constructor (dev: Spec, level: nat, id: int, ghost path: Path)
      requires level <= BANK && |path| - 1 == level && path[level] == id
      requires forall l :: 1 <= l <= level ==> 0 <= path[l] < dev.count[l]
      ensures this.dev == dev && this.level == level && this.id == id && this.path == path
      ensures Shape() && fresh(Repr) && curClk == 0
      ensures TimingAgrees([]) && StatusAgrees([]) && ActivityAgrees([])
      decreases BANK + 1 - level, 1
    {
      hide Fresh, Start, Ready, Shape, TimingAgrees, StatusAgrees, ActivityAgrees, OwnTiming, OwnStatus, OwnActivity;
      this.dev, this.level, this.id, this.path := dev, level, id, path;
      state, rows := Start(dev, level), {};
      next, prev := Fresh(dev, level).next, Fresh(dev, level).prev;
      current, since, requestCycles, activeCycles := 0, -1, 0, 0;
      curClk := 0;
      var nodes, below := NewChildren(dev, level, path);
      children := nodes;
      Repr := {this} + below;
      new;
      assert AsNew();
      Assembled();
    }

    /** The fields of a node to which no command was issued. */
    ghost predicate AsNew()
      reads this
    {
      && next == Fresh(dev, level).next && prev == Fresh(dev, level).prev
      && state == Start(dev, level) && rows == {}
      && Counter(current, since, requestCycles, activeCycles) == Counter(0, -1, 0, 0)
    }

    lemma OwnFresh()
      requires level <= BANK && |path| - 1 == level && AsNew()
      ensures OwnTiming([]) && OwnStatus([]) && OwnActivity([])
    {
    }

    lemma Assembled()
      requires AsNew()
      requires level <= BANK && |path| - 1 == level && path[level] == id
      requires forall l :: 1 <= l <= level ==> 0 <= path[l] < dev.count[l]
      requires this in Repr && |children| == ChildCount(dev, level)
      requires forall j :: 0 <= j < |children| ==>
                 Ready(children[j], dev, level, path, j) && children[j].Repr <= Repr && this !in children[j].Repr
      requires forall n :: n in Repr && n != this ==> 0 <= Branch(n) < |children| && n in children[Branch(n)].Repr
      ensures Shape() && TimingAgrees([]) && StatusAgrees([]) && ActivityAgrees([])
    {
      OwnFresh();
      hide AsNew, OwnTiming, OwnStatus, OwnActivity;
      forall i, n | 0 <= i < |children| && n in children[i].Repr
        ensures Branch(n) == i && n.dev == dev && Extends(n.path, path)
        ensures n.OwnTiming([]) && n.OwnStatus([]) && n.OwnActivity([])
      {
        ReadyNode(children[i], dev, level, path, i, n);
      }
    }

    static method NewChildren(dev: Spec, level: nat, ghost path: Path)
      returns (nodes: seq<Node>, ghost below: set<Node>)
      requires level <= BANK && |path| - 1 == level
      requires forall l :: 1 <= l <= level ==> 0 <= path[l] < dev.count[l]
      ensures |nodes| == ChildCount(dev, level) && fresh(below)
      ensures forall j :: 0 <= j < |nodes| ==> Ready(nodes[j], dev, level, path, j) && nodes[j].Repr <= below
      ensures forall n :: n in below ==>
                level + 1 < |n.path| && 0 <= n.path[level + 1] < |nodes| && n in nodes[n.path[level + 1]].Repr
      decreases BANK + 1 - level, 0
    {
      hide Ready, Node.Shape, Node.TimingAgrees, Node.StatusAgrees, Node.ActivityAgrees;
      nodes, below := [], {};
      for i := 0 to ChildCount(dev, level)
        invariant |nodes| == i && fresh(below)
        invariant forall j :: 0 <= j < i ==> Ready(nodes[j], dev, level, path, j) && nodes[j].Repr <= below
        invariant forall n :: n in below ==>
                    level + 1 < |n.path| && 0 <= n.path[level + 1] < i && n in nodes[n.path[level + 1]].Repr
      {
        var node := new Node(dev, level + 1, i, path + [i]);
        NewIsReady(node, dev, level, path, i);
        nodes, below := nodes + [node], below + node.Repr;
      }
    }

    /** This node has its children, they are distinct, and `Repr` holds this node and all those below. */
    ghost predicate Shape()
      decreases BANK + 1 - level
    {
      && level <= BANK && |path| - 1 == level && path[level] == id
      && (forall l :: 1 <= l <= level ==> 0 <= path[l] < dev.count[l])
      && this in Repr && |children| == ChildCount(dev, level)
      && (forall i :: 0 <= i < |children| ==> IsChild(children[i], i) && children[i].Shape())
      && (forall i, n :: 0 <= i < |children| && n in children[i].Repr ==> Branch(n) == i)
      && (forall n :: n in Repr ==> n.dev == dev && Extends(n.path, path))
      && (forall n :: n in Repr && n != this ==> 0 <= Branch(n) < |children| && n in children[Branch(n)].Repr)
    }

    /** The child of this node whose subtree `n` belongs to. */
    ghost function Branch(n: Node): int { if level + 1 < |n.path| then n.path[level + 1] else -1 }

    ghost predicate IsChild(child: Node, i: int) {
      && child.dev == dev && child.level == level + 1 && child.path == path + [i]
      && this !in child.Repr && child.Repr <= Repr
    }

    ghost predicate OwnTiming(h: seq<Event>)
      reads this`next, this`prev
    {
      next == NodeAfter(dev, h, path).next && prev == NodeAfter(dev, h, path).prev
    }

    ghost predicate OwnStatus(h: seq<Event>)
      reads this`state, this`rows
    {
      Status(state, rows) == StatusAfter(dev, h, path)
    }

    ghost predicate OwnActivity(log: seq<Change>)
      reads this`current, this`since, this`requestCycles, this`activeCycles
    {
      Counter(current, since, requestCycles, activeCycles) == CounterAfter(log, path)
    }

    ghost predicate TimingAgrees(h: seq<Event>)
      reads Repr`next, Repr`prev
    {
      forall n :: n in Repr ==> n.OwnTiming(h)
    }

    ghost predicate StatusAgrees(h: seq<Event>)
      reads Repr`state, Repr`rows
    {
      forall n :: n in Repr ==> n.OwnStatus(h)
    }

    ghost predicate ActivityAgrees(log: seq<Change>)
      reads Repr`current, Repr`since, Repr`requestCycles, Repr`activeCycles
    {
      forall n :: n in Repr ==> n.OwnActivity(log)
    }

    // -------------------------------------------------------------- may a command be issued?

    predicate InRange(addr: Address) {
      forall l :: 1 <= l <= BANK && 0 < dev.count[l] ==> addr[l] < dev.count[l]
    }

    function Check(c: Command, addr: Address, clk: int, ghost h: seq<Event>): (ok: bool)
      requires Shape() && TimingAgrees(h)
      requires Chronological(h) && 0 <= clk && addr[..level + 1] == path && InRange(addr)
      reads Repr
      ensures ok == AllowsBelow(dev, h, c, addr, clk, level)
      decreases BANK + 1 - level
    {
      CheckStep(c, addr, clk, h);
      if next[c] != -1 && clk < next[c] then false
      else if level == BANK || addr[level + 1] < 0 || level == Scope(dev, c) || |children| == 0 then true
      else children[addr[level + 1]].Check(c, addr, clk, h)
    }

    lemma CheckStep(c: Command, addr: Address, clk: int, h: seq<Event>)
      requires Shape() && TimingAgrees(h) && Chronological(h) && 0 <= clk && addr[..level + 1] == path
      ensures c in next
      ensures AllowsBelow(dev, h, c, addr, clk, level) <==>
              next[c] <= clk && (Depth(dev, c, addr, level) != 0 ==> AllowsBelow(dev, h, c, addr, clk, level + 1))
      ensures 0 <= addr[level + 1] < |children| ==>
                var child := children[addr[level + 1]];
                && child.Shape() && child.TimingAgrees(h) && child.Repr <= Repr
                && child.dev == dev && child.level == level + 1 && child.path == addr[..level + 2]
    {
      hide OwnTiming, AllowsBelow, NodeAllows, Depth, Chronological;
      assert OwnTiming(h);
      NextSays(c, clk, h);
      AllowsStep(dev, h, c, addr, clk, level);
      if 0 <= addr[level + 1] < |children| {
        ChildOnPath(addr, h);
      }
    }

    lemma ChildOnPath(addr: Address, h: seq<Event>)
      requires Shape() && TimingAgrees(h) && addr[..level + 1] == path && 0 <= addr[level + 1] < |children|
      ensures var child := children[addr[level + 1]];
              && child.Shape() && child.TimingAgrees(h) && child.Repr <= Repr
              && child.dev == dev && child.level == level + 1 && child.path == addr[..level + 2]
    {
      hide OwnTiming;
      PathStep(addr, level + 1);
      assert IsChild(children[addr[level + 1]], addr[level + 1]);
    }

    lemma NextSays(c: Command, clk: int, h: seq<Event>)
      requires OwnTiming(h) && Chronological(h) && 0 <= clk
      ensures c in next && (next[c] <= clk <==> NodeAllows(dev, h, path, c, clk))
    {
      FastRefinesHistory(dev, h, path, c, clk);
    }

    // -------------------------------------------------------------- timing

    /** The constraints that a command aimed at a sibling puts on this node. */
    method UpdateAsSibling(c: Command, clk: int)
      requires Total(next)
      modifies this`next
      ensures next == ApplySibling(old(next), clk, dev.timing(level, c))
    {
      var es := dev.timing(level, c);
      for k := 0 to |es|
        invariant Total(next)
        invariant next == ApplySibling(old(next), clk, es[..k])
      {
        var t := es[k];
        assert es[..k + 1][..k] == es[..k];
        if t.sibling {
          var future := clk + t.val;
          next := next[t.cmd := Max(next[t.cmd], future)];
        }
      }
      assert es[..|es|] == es;
    }

    /** The constraints that a command aimed at this node puts on it. */
    method UpdateAsTarget(c: Command, clk: int)
      requires Total(next) && Total(prev)
      requires forall t :: t in dev.timing(level, c) ==> 1 <= t.dist <= |prev[c]|
      modifies this`next, this`prev
      ensures prev == old(prev)[c := Shift(old(prev)[c], clk)]
      ensures next == ApplyOwn(old(next), Shift(old(prev)[c], clk), dev.timing(level, c))
    {
      if |prev[c]| != 0 {
        prev := prev[c := [clk] + prev[c][..|prev[c]| - 1]];
      }
      var window, es := prev[c], dev.timing(level, c);
      assert window == Shift(old(prev)[c], clk) && prev == old(prev)[c := window];
      assert ApplyOwn(old(next), window, es[..0]) == next;
      hide ApplyOwn, Shift;
      for k := 0 to |es|
        invariant Total(next) && next == ApplyOwn(old(next), window, es[..k])
        invariant prev == old(prev)[c := window]
      {
        var t := es[k];
        ApplyOwnSnoc(old(next), window, es, k);
        if !t.sibling {
          var past := window[t.dist - 1];
          if 0 <= past {
            next := next[t.cmd := Max(next[t.cmd], past + t.val)];
          }
        }
      }
      assert es[..|es|] == es;
    }

    /** A command for neither this node nor anything above it says nothing to the nodes below. */
    lemma BelowUnconcerned(h: seq<Event>, e: Event, n: Node)
      requires Shape() && !AtNode(e, path) && n in Repr && n != this
      ensures NodeAfter(dev, h + [e], n.path) == NodeAfter(dev, h, n.path)
    {
      NodeAfterSnoc(dev, h, e, n.path);
      var i := Branch(n);
      assert IsChild(children[i], i) && children[i].Shape();
      NotBelow(e, path, n.path);
    }

    method UpdateTiming(c: Command, addr: Address, clk: int, ghost h: seq<Event>)
      requires Shape() && TimingAgrees(h) && addr[..level] == path[..level]
      modifies Repr`next, Repr`prev
      ensures TimingAgrees(h + [Event(c, addr, clk)])
      decreases BANK + 1 - level, 1
    {
      hide NodeAfter;
      ghost var e := Event(c, addr, clk);
      assert addr[..level + 1] == addr[..level] + [addr[level]];
      if id != addr[level] {
        forall n | n in Repr && n != this
          ensures n.OwnTiming(h + [e])
        {
          BelowUnconcerned(h, e, n);
          assert n.OwnTiming(h);
        }
        UpdateOwn(c, addr, clk, h);
      } else {
        UpdateOwn(c, addr, clk, h);
        UpdateChildren(c, addr, clk, h);
      }
    }

    method UpdateOwn(c: Command, addr: Address, clk: int, ghost h: seq<Event>)
      requires OwnTiming(h)
      requires |path| - 1 == level <= BANK && path[level] == id && addr[..level] == path[..level]
      modifies this`next, this`prev
      ensures OwnTiming(h + [Event(c, addr, clk)])
    {
      ghost var n := NodeAfter(dev, h, path);
      assert next == n.next && prev == n.prev && NodeShape(dev, level, n);
      StepAsTargetOrSibling(Event(c, addr, clk), n);
      NodeAfterSnoc(dev, h, Event(c, addr, clk), path);
      hide NodeAfter, StepNode, ApplyOwn, ApplySibling;
      if id != addr[level] {
        UpdateAsSibling(c, clk);
      } else {
        UpdateAsTarget(c, clk);
      }
    }

    lemma StepAsTargetOrSibling(e: Event, n: NodeTiming)
      requires NodeShape(dev, level, n)
      requires |path| - 1 == level <= BANK && path[level] == id && e.addr[..level] == path[..level]
      ensures forall t :: t in dev.timing(level, e.cmd) ==> 1 <= t.dist <= |n.prev[e.cmd]|
      ensures id != e.addr[level] ==>
                StepNode(dev, path, n, e) == n.(next := ApplySibling(n.next, e.clk, dev.timing(level, e.cmd)))
      ensures id == e.addr[level] ==>
                var past := Shift(n.prev[e.cmd], e.clk);
                StepNode(dev, path, n, e) ==
                  NodeTiming(ApplyOwn(n.next, past, dev.timing(level, e.cmd)), n.prev[e.cmd := past])
    {
      hide ApplyOwn, ApplySibling;
      assert e.addr[..level + 1] == e.addr[..level] + [e.addr[level]];
      assert path[..level] + [path[level]] == path;
    }

    method UpdateChildren(c: Command, addr: Address, clk: int, ghost h: seq<Event>)
      requires Shape() && addr[..level + 1] == path
      requires forall n :: n in Repr && n != this ==> n.OwnTiming(h)
      modifies (Repr - {this})`next, (Repr - {this})`prev
      ensures forall n :: n in Repr && n != this ==> n.OwnTiming(h + [Event(c, addr, clk)])
      decreases BANK + 1 - level, 0
    {
      hide NodeAfter;
      ghost var e := Event(c, addr, clk);
      for i := 0 to |children|
        invariant forall j, n :: 0 <= j < |children| && n in children[j].Repr ==>
                    n.OwnTiming(if j < i then h + [e] else h)
      {
        assert IsChild(children[i], i);
        children[i].UpdateTiming(c, addr, clk, h);
      }
    }

    // -------------------------------------------------------------- state

    lemma FindBank(q: Path)
      requires Shape() && IsBank(dev, q) && Extends(q, path)
      ensures exists n :: n in Repr && n.path == q && n.level == BANK
      decreases BANK + 1 - level
    {
      if level == BANK {
        assert q[..|path|] == q;
      } else {
        var i := q[level + 1];
        assert IsChild(children[i], i);
        assert q[..level + 2] == path + [i];
        children[i].FindBank(q);
      }
    }

    lemma NodesAreInRange(n: Node)
      requires Shape() && n in Repr
      ensures n.level <= BANK && |n.path| - 1 == n.level && n.path[n.level] == n.id
      ensures forall l :: 1 <= l <= n.level ==> 0 <= n.path[l] < dev.count[l]
      decreases BANK + 1 - level
    {
      if n != this {
        var i := Branch(n);
        assert IsChild(children[i], i);
        children[i].NodesAreInRange(n);
      }
    }

    ghost predicate SomeBankOpen()
      reads Repr`state
    {
      exists n :: n in Repr && n.level == BANK && n.state != Closed
    }

    lemma OpenBanks(h: seq<Event>)
      requires Shape() && StatusAgrees(h)
      ensures SomeBankOpen() <==> AnyOpen(dev, h, path)
    {
      if AnyOpen(dev, h, path) {
        var q: Path :| IsBank(dev, q) && Extends(q, path) && StatusAfter(dev, h, q).state != Closed;
        FindBank(q);
        var n :| n in Repr && n.path == q && n.level == BANK;
        assert n.OwnStatus(h);
      }
      if SomeBankOpen() {
        var n :| n in Repr && n.level == BANK && n.state != Closed;
        NodesAreInRange(n);
        assert n.OwnStatus(h) && IsBank(dev, n.path) && Extends(n.path, path);
      }
    }

    method AnyBankOpen() returns (open: bool)
      requires Shape()
      ensures open == SomeBankOpen()
      decreases BANK + 1 - level
    {
      if level == BANK {
        return state != Closed;
      }
      for i := 0 to |children|
        invariant forall j, n :: 0 <= j < i && n in children[j].Repr && n.level == BANK ==> n.state == Closed
      {
        assert IsChild(children[i], i);
        var inChild := children[i].AnyBankOpen();
        if inChild {
          return true;
        }
      }
      open := false;
    }

    method CloseBanks()
      requires Shape()
      modifies Repr`state, Repr`rows
      ensures forall n :: n in Repr ==>
                if n.level == BANK then n.state == Closed && n.rows == {}
                else n.state == old(n.state) && n.rows == old(n.rows)
      decreases BANK + 1 - level
    {
      if level == BANK {
        state, rows := Closed, {};
        return;
      }
      for i := 0 to |children|
        invariant state == old(state) && rows == old(rows)
        invariant forall j, n :: 0 <= j < |children| && n in children[j].Repr ==>
                    if n.level == BANK && j < i then n.state == Closed && n.rows == {}
                    else n.state == old(n.state) && n.rows == old(n.rows)
      {
        assert IsChild(children[i], i);
        children[i].CloseBanks();
      }
    }

    /** The state change that `c` makes when it passes this node. */
    method Transition(c: Command, addr: Address)
      requires Shape()
      modifies Repr`state, Repr`rows
      ensures Status(state, rows) == OwnChange(dev, level, old(Status(state, rows)), c, addr[ROW], old(SomeBankOpen()))
      ensures forall n :: n in Repr && n != this ==>
                Status(n.state, n.rows) ==
                if level == dev.rank && c == PREA && n.level == BANK then Status(Closed, {})
                else old(Status(n.state, n.rows))
    {
      if level == BANK {
        match c
        case ACT => state, rows := Opened, rows + {addr[ROW]};
        case PRE | RDA | WRA => state, rows := Closed, {};
        case _ =>
      } else if level == dev.rank {
        match c
        case PREA => CloseBanks();
        case PDE =>
          var open := AnyBankOpen();
          state := if open then ActPowerDown else PrePowerDown;
        case PDX | SRX => state := PowerUp;
        case SRE => state := SelfRefresh;
        case _ =>
      }
    }

    /** The address names a node at every level that `c` concerns. */
    predicate Complete(c: Command, addr: Address) {
      forall l :: 1 <= l <= BANK && l <= Scope(dev, c) && 0 < dev.count[l] ==> 0 <= addr[l] < dev.count[l]
    }

    /** `e` goes on from this node into the subtree that `n` belongs to. */
    ghost predicate Passes(e: Event, n: Node) {
      level != Scope(dev, e.cmd) && level < BANK && level + 1 < |n.path| && n.path[level + 1] == e.addr[level + 1]
    }

    lemma StatusBelow(h: seq<Event>, e: Event, n: Node)
      requires Shape() && n in Repr && n != this && AtNode(e, path) && level <= Scope(dev, e.cmd) && !Passes(e, n)
      ensures StatusAfter(dev, h + [e], n.path) ==
              if level == dev.rank && e.cmd == PREA && n.level == BANK then Status(Closed, {})
              else StatusAfter(dev, h, n.path)
    {
      StatusSnoc(dev, h, e, n.path);
      NodesAreInRange(n);
      assert n.path[..level + 1] == path;
      if level != Scope(dev, e.cmd) {
        ElsewhereBelow(dev, e, n.path, level + 1);
      } else {
        assert level < n.level;
      }
    }

    method UpdateState(c: Command, addr: Address, ghost clk: int, ghost h: seq<Event>)
      requires Shape() && StatusAgrees(h) && addr[..level + 1] == path
      requires level <= Scope(dev, c) && Complete(c, addr)
      modifies Repr`state, Repr`rows
      ensures StatusAgrees(h + [Event(c, addr, clk)])
      decreases BANK + 1 - level
    {
      hide StatusAfter, AtNode;
      UpdateOwnState(c, addr, clk, h);
      if level != Scope(dev, c) && |children| != 0 {
        var i := addr[level + 1];
        assert IsChild(children[i], i);
        PathStep(addr, level + 1);
        forall n | n in children[i].Repr
          ensures n.OwnStatus(h)
        {
          assert Branch(n) == i && Passes(Event(c, addr, clk), n);
        }
        children[i].UpdateState(c, addr, clk, h);
      }
    }

    method UpdateOwnState(c: Command, addr: Address, ghost clk: int, ghost h: seq<Event>)
      requires Shape() && StatusAgrees(h) && addr[..level + 1] == path && level <= Scope(dev, c)
      modifies Repr`state, Repr`rows
      ensures forall n :: n in Repr ==>
                n.OwnStatus(if n != this && Passes(Event(c, addr, clk), n) then h else h + [Event(c, addr, clk)])
    {
      ghost var e := Event(c, addr, clk);
      OpenBanks(h);
      StatusSnoc(dev, h, e, path);
      assert OwnStatus(h);
      forall n | n in Repr && n != this && !Passes(e, n)
        ensures StatusAfter(dev, h + [e], n.path) ==
                if level == dev.rank && c == PREA && n.level == BANK then Status(Closed, {})
                else Status(n.state, n.rows)
      {
        StatusBelow(h, e, n);
        assert n.OwnStatus(h);
      }
      Transition(c, addr);
    }

    // -------------------------------------------------------------- queries about state

    /** What the state of this node says `c` needs first. */
    method OwnPrereq(c: Command, child: int, ghost h: seq<Event>) returns (first: Option<Command>)
      requires Shape() && StatusAgrees(h)
      ensures first == Prereq(dev, h, path, c, child)
    {
      assert OwnStatus(h);
      OpenBanks(h);
      hide AnyOpen, StatusAfter, SomeBankOpen;
      if level == dev.rank {
        match c
        case RD | WR =>
          if state in {ActPowerDown, PrePowerDown} { return Some(PDX); }
          if state == SelfRefresh { return Some(SRX); }
          return None;
        case REF =>
          var open := AnyBankOpen();
          return Some(if open then PREA else REF);
        case PDE => return Some(if state == SelfRefresh then SRX else PDE);
        case SRE => return Some(if state in {ActPowerDown, PrePowerDown} then PDX else SRE);
        case _ => return None;
      } else if level == BANK && c in {RD, WR} {
        return Some(if state == Closed then ACT else if child in rows then c else PRE);
      }
      return None;
    }

    /** The first command that `c` needs. */
    method DecodeCommand(c: Command, addr: Address, ghost h: seq<Event>) returns (first: Command)
      requires Shape() && StatusAgrees(h) && addr[..level + 1] == path && InRange(addr)
      ensures first == DecodeBelow(dev, h, c, addr, level)
      decreases BANK + 1 - level
    {
      hide StatusAfter, Prereq;
      var own := OwnPrereq(c, addr[level + 1], h);
      if own.Some? {
        return own.value;
      }
      if level == BANK || addr[level + 1] < 0 || |children| == 0 {
        return c;
      }
      assert IsChild(children[addr[level + 1]], addr[level + 1]);
      PathStep(addr, level + 1);
      first := children[addr[level + 1]].DecodeCommand(c, addr, h);
    }

    predicate CheckRowHit(c: Command, addr: Address)
      requires Shape() && InRange(addr)
      reads Repr
      decreases BANK + 1 - level
    {
      if level == BANK && c in {RD, WR} then state != Closed && addr[ROW] in rows
      else if addr[level + 1] < 0 || |children| == 0 then false
      else
        assert IsChild(children[addr[level + 1]], addr[level + 1]);
        children[addr[level + 1]].CheckRowHit(c, addr)
    }

    predicate CheckRowOpen(c: Command, addr: Address)
      requires Shape() && InRange(addr)
      reads Repr
      decreases BANK + 1 - level
    {
      if level == BANK && c in {RD, WR} then state != Closed
      else if addr[level + 1] < 0 || |children| == 0 then false
      else
        assert IsChild(children[addr[level + 1]], addr[level + 1]);
        children[addr[level + 1]].CheckRowOpen(c, addr)
    }

    lemma RowQueries(c: Command, addr: Address, h: seq<Event>)
      requires Shape() && StatusAgrees(h) && addr[..level + 1] == path && InRange(addr)
      ensures ReachesBank(dev, addr, level) ==> BANK < |addr[..BANK + 1]|
      ensures CheckRowHit(c, addr) <==>
              && c in {RD, WR} && ReachesBank(dev, addr, level)
              && StatusAfter(dev, h, addr[..BANK + 1]).state != Closed
              && addr[ROW] in StatusAfter(dev, h, addr[..BANK + 1]).rows
      ensures CheckRowOpen(c, addr) <==>
              && c in {RD, WR} && ReachesBank(dev, addr, level)
              && StatusAfter(dev, h, addr[..BANK + 1]).state != Closed
      decreases BANK + 1 - level
    {
      assert OwnStatus(h);
      if level < BANK && 0 <= addr[level + 1] && |children| != 0 {
        assert IsChild(children[addr[level + 1]], addr[level + 1]);
        PathStep(addr, level + 1);
        children[addr[level + 1]].RowQueries(c, addr, h);
      }
    }

    // -------------------------------------------------------------- activity

    /** Nothing below `addr` has more requests finished than started, and `delta` keeps it so. */
    ghost predicate Balanced(log: seq<Change>, addr: Address, delta: int) {
      forall k :: 1 <= k <= BANK + 1 ==> 0 <= Served(log, addr[..k]) && 0 <= Served(log, addr[..k]) + delta
    }

    method UpdateServing(addr: Address, delta: int, clk: int, ghost log: seq<Change>)
      requires Shape() && ActivityAgrees(log) && addr[..level + 1] == path && InRange(addr)
      requires delta in {1, -1} && Balanced(log, addr, delta)
      modifies Repr`current, Repr`since, Repr`requestCycles, Repr`activeCycles
      ensures ActivityAgrees(log + [Change(addr, delta, clk)])
      decreases BANK + 1 - level
    {
      hide CounterAfter, Served;
      ghost var e := Change(addr, delta, clk);
      UpdateCounters(addr, delta, clk, log);
      forall n | n in Repr && n != this && !(level + 1 < |n.path| && n.path[level + 1] == addr[level + 1])
        ensures n.OwnActivity(log + [e])
      {
        CounterSnoc(log, e, n.path);
        assert old(n.OwnActivity(log));
      }
      if 0 <= addr[level + 1] && |children| != 0 {
        assert IsChild(children[addr[level + 1]], addr[level + 1]);
        PathStep(addr, level + 1);
        children[addr[level + 1]].UpdateServing(addr, delta, clk, log);
      }
    }

    /** The counters of this node alone. */
    method UpdateCounters(addr: Address, delta: int, clk: int, ghost log: seq<Change>)
      requires OwnActivity(log) && level <= BANK && addr[..level + 1] == path
      requires delta in {1, -1} && Balanced(log, addr, delta)
      modifies this`current, this`since, this`requestCycles, this`activeCycles
      ensures OwnActivity(log + [Change(addr, delta, clk)])
    {
      hide CounterAfter, Served;
      CurrentIsServed(log, path);
      CounterSnoc(log, Change(addr, delta, clk), path);
      if since != -1 && current > 0 {
        requestCycles := requestCycles + (clk - since) * current;
        activeCycles := activeCycles + (clk - since);
      }
      since, current := clk, current + delta;
      assert current >= 0;
      if current == 0 {
        assert delta == -1;
        activeCycles := activeCycles + (clk - since);
      }
    }

    // -------------------------------------------------------------- the root

    lemma ChildTiming(i: int, h: seq<Event>)
      requires Shape() && TimingAgrees(h) && 0 <= i < |children|
      ensures IsChild(children[i], i) && children[i].Shape() && children[i].OwnTiming(h) && children[i].TimingAgrees(h)
    {
      assert children[i] in children[i].Repr;
    }

    lemma NextBounds(c: Command, addr: Address, h: seq<Event>)
      requires OwnTiming(h) && Chronological(h) && level <= BANK && addr[..level + 1] == path
      ensures c in next && Bounds(dev, h, c, addr, next[c], level)
    {
      assert addr[..level + 1] == path;
      forall clk | 0 <= clk
        ensures AllowsBelow(dev, h, c, addr, clk, level) <==>
                next[c] <= clk && AllowsDeeper(dev, h, c, addr, clk, level)
      {
        NextSays(c, clk, h);
        AllowsStep(dev, h, c, addr, clk, level);
      }
    }

    /** `node` is the node at level `l` on the way of `addr`, and `nextClk` the earliest clock so far. */
    ghost predicate Descended(node: Node, l: nat, nextClk: int, c: Command, addr: Address, h: seq<Event>)
      reads this`curClk, node.Repr`next, node.Repr`prev
    {
      && node.Shape() && node.TimingAgrees(h) && node.dev == dev && node.level == l && node.path == addr[..l + 1]
      && l <= Scope(dev, c) && curClk <= nextClk && EarliestUpTo(dev, h, c, addr, curClk, nextClk, l)
    }

    lemma DescendTo(node: Node, l: nat, nextClk: int, c: Command, addr: Address, h: seq<Event>)
      requires Chronological(h) && InRange(addr) && Descended(node, l, nextClk, c, addr, h)
      requires l < Scope(dev, c) && |node.children| != 0 && 0 <= addr[l + 1]
      ensures l < BANK && addr[l + 1] < |node.children|
      ensures var child := node.children[addr[l + 1]];
              c in child.next && Descended(child, l + 1, Max(nextClk, child.next[c]), c, addr, h)
    {
      node.ChildTiming(addr[l + 1], h);
      PathStep(addr, l + 1);
      var child := node.children[addr[l + 1]];
      child.NextBounds(c, addr, h);
      EarliestStep(dev, h, c, addr, curClk, nextClk, child.next[c], l + 1);
    }

    lemma DescendFromRoot(c: Command, addr: Address, h: seq<Event>)
      requires Shape() && TimingAgrees(h) && level == 0
      requires Chronological(h) && addr[..1] == path
      ensures c in next && Descended(this, 0, Max(curClk, next[c]), c, addr, h)
    {
      assert this in Repr && OwnTiming(h);
      NextBounds(c, addr, h);
    }

    lemma DescendDone(node: Node, l: nat, nextClk: int, c: Command, addr: Address, h: seq<Event>)
      requires Descended(node, l, nextClk, c, addr, h)
      requires !(l < Scope(dev, c) && |node.children| != 0 && 0 <= addr[l + 1])
      ensures forall clk :: 0 <= clk && curClk <= clk ==> (nextClk <= clk <==> Allows(dev, h, c, addr, clk))
    {
    }

    /** The earliest clock, from now on, at which `c` may be issued. */
    method GetNext(c: Command, addr: Address, ghost h: seq<Event>) returns (nextClk: int)
      requires Shape() && TimingAgrees(h) && level == 0
      requires Chronological(h) && addr[..1] == path && InRange(addr)
      ensures curClk <= nextClk
      ensures forall clk :: 0 <= clk && curClk <= clk ==> (nextClk <= clk <==> Allows(dev, h, c, addr, clk))
    {
      DescendFromRoot(c, addr, h);
      nextClk := Max(curClk, next[c]);
      var node, l := this, 0;
      while l < Scope(dev, c) && |node.children| != 0 && 0 <= addr[l + 1]
        invariant l <= BANK && Descended(node, l, nextClk, c, addr, h)
        decreases BANK - l
      {
        DescendTo(node, l, nextClk, c, addr, h);
        node, l := node.children[addr[l + 1]], l + 1;
        nextClk := Max(nextClk, node.next[c]);
      }
      DescendDone(node, l, nextClk, c, addr, h);
    }

    /** A command is issued: the root of the tree records it. */
    method Update(c: Command, addr: Address, clk: int, ghost h: seq<Event>)
      requires Shape() && TimingAgrees(h) && StatusAgrees(h) && level == 0
      requires addr[..1] == path && Complete(c, addr)
      modifies this`curClk, Repr`state, Repr`rows, Repr`next, Repr`prev
      ensures curClk == clk
      ensures TimingAgrees(h + [Event(c, addr, clk)]) && StatusAgrees(h + [Event(c, addr, clk)])
    {
      hide NodeAfter, StatusAfter;
      curClk := clk;
      UpdateState(c, addr, clk, h);
      assert TimingAgrees(h);
      UpdateTiming(c, addr, clk, h);
    }
  }

  ghost predicate AllowsDeeper(dev: Spec, h: seq<Event>, c: Command, addr: Address, clk: int, level: nat)
    requires level <= BANK
  {
    Depth(dev, c, addr, level) != 0 ==> AllowsBelow(dev, h, c, addr, clk, level + 1)
  }

  /** `next` is the earliest clock as far as the node at `level` is concerned. */
  ghost predicate Bounds(dev: Spec, h: seq<Event>, c: Command, addr: Address, next: int, level: nat)
    requires level <= BANK
  {
    forall clk :: 0 <= clk ==>
      (AllowsBelow(dev, h, c, addr, clk, level) <==> next <= clk && AllowsDeeper(dev, h, c, addr, clk, level))
  }

  /** The same for all the nodes from the root down to `level`, for clocks from `now` on. */
  ghost predicate EarliestUpTo(dev: Spec, h: seq<Event>, c: Command, addr: Address, now: int, next: int, level: nat)
    requires level <= BANK
  {
    forall clk :: 0 <= clk && now <= clk ==>
      (Allows(dev, h, c, addr, clk) <==> next <= clk && AllowsDeeper(dev, h, c, addr, clk, level))
  }

  lemma EarliestStep(dev: Spec, h: seq<Event>, c: Command, addr: Address, now: int, next: int, own: int, level: nat)
    requires 1 <= level <= BANK && Depth(dev, c, addr, level - 1) != 0
    requires EarliestUpTo(dev, h, c, addr, now, next, level - 1) && Bounds(dev, h, c, addr, own, level)
    ensures EarliestUpTo(dev, h, c, addr, now, Max(next, own), level)
  {
  }

  lemma PathStep(addr: seq<int>, n: nat)
    requires n < |addr|
    ensures addr[..n + 1] == addr[..n] + [addr[n]]
  {
  }

  lemma ReadyNode(child: Node, dev: Spec, level: nat, path: Path, i: int, n: Node)
    requires Ready(child, dev, level, path, i) && n in child.Repr && |path| - 1 == level
    ensures n.dev == dev && Extends(n.path, path) && level + 1 < |n.path| && n.path[level + 1] == i
    ensures n.OwnTiming([]) && n.OwnStatus([]) && n.OwnActivity([])
  {
    assert n.path[..|path|] == n.path[..|path| + 1][..|path|];
    assert n.path[..|path| + 1][level + 1] == i;
  }

  lemma NewIsReady(node: Node, dev: Spec, level: nat, path: Path, i: int)
    requires |path| - 1 == level && node.dev == dev && node.level == level + 1 && node.path == path + [i]
    requires node.Shape() && node.TimingAgrees([]) && node.StatusAgrees([]) && node.ActivityAgrees([])
    ensures Ready(node, dev, level, path, i)
    ensures forall n :: n in node.Repr ==> level + 1 < |n.path| && n.path[level + 1] == i
  {
    forall n | n in node.Repr
      ensures level + 1 < |n.path| && n.path[level + 1] == i
    {
      ReadyNode(node, dev, level, path, i, n);
    }
  }

  ghost predicate Ready(node: Node, dev: Spec, level: nat, path: Path, i: int)
    reads node, node.Repr
  {
    && node.dev == dev && node.level == level + 1 && node.path == path + [i]
    && node.Shape() && node.TimingAgrees([]) && node.StatusAgrees([]) && node.ActivityAgrees([])
  }

  lemma ElsewhereBelow(dev: Spec, e: Event, p: Path, level: nat)
    requires level < |p| && level < |e.addr| && p[level] != e.addr[level]
    ensures !AtNode(e, p)
    ensures |p| - 1 == BANK && level <= dev.rank ==> !AtNode(e, p[..dev.rank + 1])
  {
  }

  lemma NotBelow(e: Event, p: Path, q: Path)
    requires !AtNode(e, p) && Extends(q, p) && |p| < |q|
    ensures !AtNode(e, q) && !AtSibling(e, q)
  {
  }
}
