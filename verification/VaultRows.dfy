/** The row table of a vault agrees with the banks of its device, and every command that the controller
    issues is legal. */
module VaultRows {
  import opened Device
  import opened History
  import opened BankState
  import opened RowTable
  import opened Safety
  import opened Vault
  import opened Wrappers
  import opened Tally

  // ---------------------------------------------------------------- the queues

  predicate WholeVault(cfg: Config, vec: Address) { vec == [cfg.id, -1, -1, -1, -1] }

  predicate Aimed(cfg: Config, k: Kind, vec: Address) {
    if k == Refresh then WholeVault(cfg, vec) else InVault(cfg, vec)
  }

  predicate Item(cfg: Config, k: Kind, r: Request) {
    r.kind == k && Aimed(cfg, k, r.vec) && if k == Refresh then r.burst == 0 else 1 <= r.burst
  }

  ghost predicate Queued(cfg: Config, k: Kind, q: seq<Request>) {
    forall i :: 0 <= i < |q| ==> Item(cfg, k, q[i])
  }

  ghost predicate AllQueued(cfg: Config, qs: Queues) {
    Queued(cfg, Read, qs.read) && Queued(cfg, Write, qs.write) && Queued(cfg, Refresh, qs.other)
  }

  lemma QueueOf(cfg: Config, qs: Queues, k: Kind)
    ensures AllQueued(cfg, qs) ==> Queued(cfg, k, Queue(qs, k))
  {
  }

  lemma AllQueuedWith(cfg: Config, qs: Queues, k: Kind, q: seq<Request>)
    requires AllQueued(cfg, qs) && Queued(cfg, k, q)
    ensures AllQueued(cfg, WithQueue(qs, k, q))
  {
  }

  lemma AllQueuedEnqueue(cfg: Config, v: Vault, r: Request)
    requires AllQueued(cfg, v.queues) && Item(cfg, r.kind, r)
    ensures AllQueued(cfg, Enqueue(v, r).queues)
  {
    var r' := r.(arrive := v.clk);
    QueueOf(cfg, v.queues, r.kind);
    AllQueuedWith(cfg, v.queues, r.kind, Queue(v.queues, r.kind) + [r']);
    hide Queue, WithQueue;
  }

  lemma AllQueuedBegin(cfg: Config, v: Vault, i: nat)
    requires AllQueued(cfg, v.queues) && i < |ServedQueue(v)|
    ensures AllQueued(cfg, Begin(v, i).queues)
  {
    QueueOf(cfg, v.queues, Serving(v));
    BeginFrame(v, i);
    AllQueuedWith(cfg, v.queues, Serving(v), ServedQueue(Begin(v, i)));
    hide Begin, Queue, WithQueue, AllQueued;
  }

  lemma AllQueuedFinish(cfg: Config, v: Vault, i: nat)
    requires AllQueued(cfg, v.queues) && i < |ServedQueue(v)|
    ensures AllQueued(cfg, Finish(cfg, v, i).queues)
  {
    var k, q := Serving(v), ServedQueue(v);
    QueueOf(cfg, v.queues, k);
    assert Item(cfg, k, q[i]);
    var r := OneLess(q[i]);
    var q' := if r.burst != 0 then q[i := r] else Without(q, i);
    assert Queued(cfg, k, q');
    AllQueuedWith(cfg, v.queues, k, q');
    hide Queue, WithQueue, Item, Queued, Serving, Respond;
  }

  lemma AllQueuedServe(cfg: Config, v: Vault)
    requires AllQueued(cfg, v.queues)
    ensures AllQueued(cfg, Serve(cfg, v).queues)
  {
    var i := Chosen(cfg, v);
    if i != -1 {
      var r := ServedQueue(v)[i];
      AllQueuedBegin(cfg, v, i);
      BeginFrame(v, i);
      var v' := Issue(cfg, Begin(v, i), First(cfg, v.issued.history, r), r.vec);
      assert v'.queues == Begin(v, i).queues;
      AllQueuedFinish(cfg, v', i);
    }
    hide Chosen, Begin, Finish, First, AllQueued, Queue;
  }

  lemma AllQueuedBefore(cfg: Config, v: Vault)
    requires AllQueued(cfg, v.queues)
    ensures AllQueued(cfg, BeforeServe(cfg, v).queues)
  {
    var u := Complete(cfg, v.(clk := v.clk + 1));
    CompleteFrame(cfg, v.(clk := v.clk + 1));
    AllQueuedEnqueue(cfg, u, RefreshRequest(cfg));
    hide Complete, Enqueue, AllQueued;
    assert BeforeServe(cfg, v) == DrainMode(TickRefresh(cfg, u));
  }

  lemma AllQueuedStep(cfg: Config, v: Vault, a: Action)
    requires AllQueued(cfg, v.queues) && Valid(cfg, v, a) && 1 <= cfg.burst
    ensures AllQueued(cfg, Step(cfg, v, a).queues)
  {
    match a
    case Arrive(p) => AllQueuedEnqueue(cfg, v, Stamped(cfg, p).req);
    case Cycle =>
      AllQueuedBefore(cfg, v);
      AllQueuedServe(cfg, BeforeServe(cfg, v));
    case Leave =>
    hide Enqueue, Serve, BeforeServe, AllQueued;
  }

  // ---------------------------------------------------------------- the banks

  /** What the controller sends: bank commands into this vault, and commands to the vault as a whole. */
  predicate Sent(cfg: Config, e: Event) {
    if e.cmd in {ACT, PRE, RD, WR} then InVault(cfg, e.addr)
    else e.cmd in {PREA, REF} && WholeVault(cfg, e.addr)
  }

  ghost predicate Tame(cfg: Config, h: seq<Event>) {
    forall i :: 0 <= i < |h| ==> Sent(cfg, h[i])
  }

  ghost predicate OurBank(cfg: Config, g: seq<int>) {
    |g| == ROW && g[VAULT] == cfg.id && IsBank(Dev(cfg), g)
  }

  /** A vault is never powered down, and a bank is either closed, with no row, or open. */
  lemma {:induction false} Powered(cfg: Config, h: seq<Event>)
    requires Tame(cfg, h)
    ensures StatusAfter(Dev(cfg), h, [cfg.id]).state == PowerUp
  {
    if h != [] {
      Powered(cfg, h[..|h| - 1]);
      assert Sent(cfg, h[|h| - 1]);
    }
  }

  lemma {:induction false} OpenOrClosed(cfg: Config, h: seq<Event>, g: seq<int>)
    requires Tame(cfg, h) && OurBank(cfg, g)
    ensures StatusAfter(Dev(cfg), h, g).state == Opened || StatusAfter(Dev(cfg), h, g) == Status(Closed, {})
  {
    if h != [] {
      OpenOrClosed(cfg, h[..|h| - 1], g);
    }
  }

  lemma FirstForBank(cfg: Config, h: seq<Event>, r: Request)
    requires Tame(cfg, h) && r.kind != Refresh && InVault(cfg, r.vec)
    ensures OurBank(cfg, Group(r.vec))
    ensures First(cfg, h, r) ==
            var s := StatusAfter(Dev(cfg), h, Group(r.vec));
            if s.state == Closed then ACT else if r.vec[ROW] in s.rows then Column(r.kind) else PRE
  {
    var dev, c := Dev(cfg), Column(r.kind);
    Powered(cfg, h);
    assert r.vec[..1] == [cfg.id];
    assert Prereq(dev, h, r.vec[..1], c, r.vec[1]) == None;
    assert Prereq(dev, h, r.vec[..2], c, r.vec[2]) == None;
    assert DecodeBelow(dev, h, c, r.vec, 0) == DecodeBelow(dev, h, c, r.vec, 1);
    assert DecodeBelow(dev, h, c, r.vec, 1) == DecodeBelow(dev, h, c, r.vec, 2);
  }

  lemma FirstForVault(cfg: Config, h: seq<Event>, r: Request)
    requires r.kind == Refresh && WholeVault(cfg, r.vec)
    ensures First(cfg, h, r) == if AnyOpen(Dev(cfg), h, [cfg.id]) then PREA else REF
  {
    assert r.vec[..1] == [cfg.id];
  }

  lemma FirstIsSent(cfg: Config, h: seq<Event>, r: Request, clk: int)
    requires Tame(cfg, h) && Aimed(cfg, r.kind, r.vec)
    ensures Tame(cfg, h + [Event(First(cfg, h, r), r.vec, clk)])
  {
    if r.kind == Refresh {
      FirstForVault(cfg, h, r);
    } else {
      FirstForBank(cfg, h, r);
    }
  }

  // ---------------------------------------------------------------- the row table

  /** The column commands that a bank has received since it was last opened. */
  function Hits(h: seq<Event>, g: Path): nat {
    if h == [] then 0 else
      var e := h[|h| - 1];
      if !AtNode(e, g) then Hits(h[..|h| - 1], g)
      else if IsOpening(e.cmd) then 0
      else Hits(h[..|h| - 1], g) + if IsAccessing(e.cmd) then 1 else 0
  }

  ghost predicate Records(cfg: Config, h: seq<Event>, g: seq<int>, r: Row) {
    OurBank(cfg, g) && StatusAfter(Dev(cfg), h, g) == Status(Opened, {r.row}) && Hits(h, g) == r.hits
  }

  /** The table lists exactly the open banks, with the one row that each has open and its accesses. */
  ghost predicate RowsAgree(cfg: Config, h: seq<Event>, t: Table) {
    && (forall g :: g in t ==> Records(cfg, h, g, t[g]))
    && forall g: Path :: OurBank(cfg, g) && StatusAfter(Dev(cfg), h, g).state != Closed ==> g in t
  }

  lemma HitsSnoc(h: seq<Event>, e: Event, g: Path)
    ensures Hits(h + [e], g) ==
            if !AtNode(e, g) then Hits(h, g) else if IsOpening(e.cmd) then 0
            else Hits(h, g) + if IsAccessing(e.cmd) then 1 else 0
  {
    assert (h + [e])[..|h|] == h;
  }

  /** The command that a request needs next fits the table: a column command finds its own row on
      record, and a closing command closes something on record. */
  lemma FirstFits(cfg: Config, h: seq<Event>, t: Table, r: Request)
    requires Tame(cfg, h) && Aimed(cfg, r.kind, r.vec) && RowsAgree(cfg, h, t)
    ensures Fits(Dev(cfg), t, First(cfg, h, r), r.vec)
  {
    var dev, c := Dev(cfg), First(cfg, h, r);
    if r.kind == Refresh {
      FirstForVault(cfg, h, r);
      if c == PREA {
        var q: Path :| IsBank(dev, q) && Extends(q, [cfg.id]) && StatusAfter(dev, h, q).state != Closed;
        assert q[..1][0] == cfg.id;
        assert OurBank(cfg, q) && q in t;
        assert q[..1] == r.vec[..1];
        assert Closes(dev, c, r.vec, q);
      }
    } else {
      FirstForBank(cfg, h, r);
      var g := Group(r.vec);
      if c == PRE {
        assert g in t && Closes(dev, c, r.vec, g);
      } else if c != ACT {
        assert g in t && Records(cfg, h, g, t[g]);
      }
    }
  }

  /** Bank `g` is on record after `e` exactly if it is open then. */
  ghost predicate BankAgrees(cfg: Config, h: seq<Event>, t: Table, g: Path) {
    (g in t ==> Records(cfg, h, g, t[g])) && (StatusAfter(Dev(cfg), h, g).state != Closed ==> g in t)
  }

  lemma BankRefreshed(cfg: Config, h: seq<Event>, t: Table, r: Request, clk: int, g: Path)
    requires Tame(cfg, h) && r.kind == Refresh && WholeVault(cfg, r.vec) && OurBank(cfg, g) && BankAgrees(cfg, h, t, g)
    ensures var c := First(cfg, h, r);
            BankAgrees(cfg, h + [Event(c, r.vec, clk)], TableAfter(Dev(cfg), t, c, r.vec, clk), g)
  {
    var dev, c := Dev(cfg), First(cfg, h, r);
    var e := Event(c, r.vec, clk);
    StatusSnoc(dev, h, e, g);
    HitsSnoc(h, e, g);
    FirstForVault(cfg, h, r);
    RecordAfter(dev, t, c, r.vec, clk, g);
    assert r.vec[..1] == [cfg.id] && g[..1] == [cfg.id];
    assert g[1] != r.vec[1];
    hide TableAfter, StatusAfter, Hits, First, Tame;
  }

  lemma BankServed(cfg: Config, h: seq<Event>, t: Table, r: Request, clk: int, g: Path)
    requires Tame(cfg, h) && r.kind != Refresh && InVault(cfg, r.vec) && OurBank(cfg, g) && BankAgrees(cfg, h, t, g)
    ensures var c := First(cfg, h, r);
            BankAgrees(cfg, h + [Event(c, r.vec, clk)], TableAfter(Dev(cfg), t, c, r.vec, clk), g)
  {
    hide TableAfter, StatusAfter, Hits, First, Tame, AnyOpen;
    var dev, c := Dev(cfg), First(cfg, h, r);
    var e := Event(c, r.vec, clk);
    StatusSnoc(dev, h, e, g);
    HitsSnoc(h, e, g);
    OpenOrClosed(cfg, h, g);
    FirstForBank(cfg, h, r);
    RecordAfter(dev, t, c, r.vec, clk, g);
    assert AtNode(e, g) <==> g == Group(r.vec);
    assert Closes(dev, c, r.vec, g) <==> c == PRE && g == Group(r.vec);
  }

  lemma RowsStep(cfg: Config, h: seq<Event>, t: Table, r: Request, clk: int)
    requires Tame(cfg, h) && Aimed(cfg, r.kind, r.vec) && RowsAgree(cfg, h, t)
    ensures var c := First(cfg, h, r);
            RowsAgree(cfg, h + [Event(c, r.vec, clk)], TableAfter(Dev(cfg), t, c, r.vec, clk))
  {
    var c := First(cfg, h, r);
    var t' := TableAfter(Dev(cfg), t, c, r.vec, clk);
    if c == ACT {
      assert r.kind != Refresh by {
        if r.kind == Refresh {
          FirstForVault(cfg, h, r);
        }
      }
      FirstForBank(cfg, h, r);
    }
    forall g | g in t'
      ensures OurBank(cfg, g)
    {
      assert g in t || g == Group(r.vec);
      if g in t {
        assert Records(cfg, h, g, t[g]);
      } else {
        assert c == ACT;
      }
    }
    hide StatusAfter, Hits, First, Decode, TableAfter;
    forall g: Path | OurBank(cfg, g)
      ensures BankAgrees(cfg, h + [Event(c, r.vec, clk)], t', g)
    {
      assert BankAgrees(cfg, h, t, g);
      if r.kind == Refresh {
        BankRefreshed(cfg, h, t, r, clk, g);
      } else {
        BankServed(cfg, h, t, r, clk, g);
      }
    }
  }

  // ---------------------------------------------------------------- cycles

  /** The device side of a vault: only legal commands were issued, and the table agrees. */
  ghost predicate Lawful(cfg: Config, v: Vault) {
    && 0 <= v.clk && Legal(Dev(cfg), v.issued.history)
    && (forall i :: 0 <= i < |v.issued.history| ==> v.issued.history[i].clk <= v.clk)
    && Tame(cfg, v.issued.history) && RowsAgree(cfg, v.issued.history, v.issued.table)
  }

  /** One cycle issues at most one command: the first one that the chosen request needs. */
  lemma ServeFrame(cfg: Config, v: Vault)
    ensures Serve(cfg, v).clk == v.clk
    ensures var i := Chosen(cfg, v);
            if i == -1 then Serve(cfg, v) == v
            else
              var r := ServedQueue(v)[i];
              var c := First(cfg, v.issued.history, r);
              && Serve(cfg, v).issued.history == v.issued.history + [Event(c, r.vec, v.clk)]
              && Serve(cfg, v).issued.table == TableAfter(Dev(cfg), v.issued.table, c, r.vec, v.clk)
              && Allows(Dev(cfg), v.issued.history, c, r.vec, v.clk)
  {
    hide Scheduler.IsHead, Allows, Decode, TableAfter, Respond;
    var i := Chosen(cfg, v);
    if i != -1 {
      var r := ServedQueue(v)[i];
      var c := First(cfg, v.issued.history, r);
      assert Views(cfg, v)[i] == ViewOf(cfg, v.issued.history, v.clk, r);
      BeginFrame(v, i);
      FinishFrame(cfg, Issue(cfg, Begin(v, i), c, r.vec), i);
      hide Begin, Finish, Chosen, First, Views;
    }
  }

  lemma LegalSnoc(dev: Spec, h: seq<Event>, e: Event)
    requires Legal(dev, h) && 0 <= e.clk && (forall i :: 0 <= i < |h| ==> h[i].clk <= e.clk)
    requires Allows(dev, h, e.cmd, e.addr, e.clk)
    ensures Legal(dev, h + [e])
  {
    forall j | 0 <= j < |h + [e]|
      ensures LegalAt(dev, h + [e], j)
    {
      assert (h + [e])[..j] == h[..j];
      assert h[..|h|] == h;
      assert j < |h| ==> LegalAt(dev, h, j);
    }
  }

  lemma LawfulServe(cfg: Config, v: Vault)
    requires AllQueued(cfg, v.queues) && Lawful(cfg, v)
    ensures Lawful(cfg, Serve(cfg, v))
    ensures Chosen(cfg, v) != -1 ==>
              var r := ServedQueue(v)[Chosen(cfg, v)];
              Fits(Dev(cfg), v.issued.table, First(cfg, v.issued.history, r), r.vec)
  {
    ServeFrame(cfg, v);
    var i := Chosen(cfg, v);
    if i != -1 {
      var r := ServedQueue(v)[i];
      QueueOf(cfg, v.queues, Serving(v));
      assert Item(cfg, Serving(v), r);
      FirstIsSent(cfg, v.issued.history, r, v.clk);
      FirstFits(cfg, v.issued.history, v.issued.table, r);
      RowsStep(cfg, v.issued.history, v.issued.table, r, v.clk);
      LegalSnoc(Dev(cfg), v.issued.history, Event(First(cfg, v.issued.history, r), r.vec, v.clk));
    }
    hide Serve, First, Chosen, Legal, RowsAgree, TableAfter, Allows, Fits, AllQueued;
  }

  lemma LawfulLater(cfg: Config, v: Vault, w: Vault)
    requires Lawful(cfg, v) && w.issued == v.issued && v.clk <= w.clk
    ensures Lawful(cfg, w)
  {
  }

  lemma LawfulStep(cfg: Config, v: Vault, a: Action)
    requires AllQueued(cfg, v.queues) && Lawful(cfg, v)
    ensures Lawful(cfg, Step(cfg, v, a))
  {
    var w := Step(cfg, v, a);
    match a
    case Arrive(p) =>
      ReceiveFrame(cfg, v, p);
      hide Receive, Lawful;
      LawfulLater(cfg, v, w);
    case Cycle =>
      BeforeServeFrame(cfg, v);
      AllQueuedBefore(cfg, v);
      hide BeforeServe, Serve, Lawful, AllQueued;
      LawfulLater(cfg, v, BeforeServe(cfg, v));
      LawfulServe(cfg, BeforeServe(cfg, v));
      assert w == Serve(cfg, BeforeServe(cfg, v));
    case Leave =>
      LawfulLater(cfg, v, w);
  }

  /** A bank is never closed while a request in the queue being served hits its open row. */
  lemma CloseSparesHits(cfg: Config, v: Vault, j: nat)
    requires AllQueued(cfg, v.queues) && Lawful(cfg, v) && Chosen(cfg, v) != -1 && j < |ServedQueue(v)|
    requires First(cfg, v.issued.history, ServedQueue(v)[Chosen(cfg, v)]) == PRE
    ensures var q := ServedQueue(v);
            !(RowHit(Dev(cfg), v.issued.history, Column(q[j].kind), q[j].vec) &&
              Group(q[j].vec) == Group(q[Chosen(cfg, v)].vec))
  {
    var q, i := ServedQueue(v), Chosen(cfg, v);
    var vs := Views(cfg, v);
    QueueOf(cfg, v.queues, Serving(v));
    assert Item(cfg, Serving(v), q[i]) && Item(cfg, Serving(v), q[j]);
    assert Scheduler.IsHead(vs, i);
    assert vs[i] == ViewOf(cfg, v.issued.history, v.clk, q[i]) && vs[j] == ViewOf(cfg, v.issued.history, v.clk, q[j]);
    if q[i].kind == Refresh {
      FirstForVault(cfg, v.issued.history, q[i]);
    } else {
      FirstForBank(cfg, v.issued.history, q[i]);
      assert !vs[i].hit && vs[i].open;
      assert !Scheduler.ClosesHitRow(vs, i);
    }
  }

  /** A cycle is never wasted: if any request of the queue being served could have its next command issued
      without closing a row that another one hits, some command is issued. */
  lemma CycleIsUsed(cfg: Config, v: Vault, j: nat)
    requires j < |ServedQueue(v)|
    requires var q := ServedQueue(v)[j];
             Allows(Dev(cfg), v.issued.history, First(cfg, v.issued.history, q), q.vec, v.clk)
    requires !Scheduler.ClosesHitRow(Views(cfg, v), j)
    ensures |Serve(cfg, v).issued.history| == |v.issued.history| + 1
  {
    hide Allows, First, Serve, Scheduler.IsHead, Scheduler.ClosesHitRow;
    var i := Scheduler.Head(Views(cfg, v));
    Scheduler.HeadIsReady(Views(cfg, v), i, j);
    ServeFrame(cfg, v);
  }
}
