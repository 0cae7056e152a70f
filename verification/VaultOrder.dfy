/** The queues of a vault are in the order in which their requests arrived. */
module VaultOrder {
  import opened Tally
  import opened Vault

  ghost predicate Ordered(q: seq<Request>, clk: int) {
    && (forall i :: 0 <= i < |q| ==> q[i].arrive <= clk)
    && forall i, j :: 0 <= i <= j < |q| ==> q[i].arrive <= q[j].arrive
  }

  ghost predicate QueuesOrdered(v: Vault) {
    Ordered(v.queues.read, v.clk) && Ordered(v.queues.write, v.clk) && Ordered(v.queues.other, v.clk)
  }

  lemma OrderedOf(v: Vault, k: Kind)
    requires QueuesOrdered(v)
    ensures Ordered(Queue(v.queues, k), v.clk)
  {
  }

  lemma OrderedWith(v: Vault, w: Vault, k: Kind, q: seq<Request>)
    requires QueuesOrdered(v) && Ordered(q, w.clk) && v.clk <= w.clk && w.queues == WithQueue(v.queues, k, q)
    ensures QueuesOrdered(w)
  {
  }

  lemma OrderedLater(v: Vault, w: Vault)
    requires QueuesOrdered(v) && w.queues == v.queues && v.clk <= w.clk
    ensures QueuesOrdered(w)
  {
  }

  lemma OrderedTouch(q: seq<Request>, i: nat, r: Request, clk: int)
    requires Ordered(q, clk) && i < |q| && r.arrive == q[i].arrive
    ensures Ordered(q[i := r], clk) && Ordered(Without(q, i), clk)
  {
    var rest := Without(q, i);
    assert forall j :: 0 <= j < |rest| ==> rest[j] == q[if j < i then j else j + 1];
  }

  /** What is enqueued has arrived last. */
  lemma OrderedEnqueue(v: Vault, r: Request)
    requires QueuesOrdered(v)
    ensures QueuesOrdered(Enqueue(v, r))
  {
    hide Accepts, Forwards;
    OrderedOf(v, r.kind);
    OrderedWith(v, v.(queues := WithQueue(v.queues, r.kind, Queue(v.queues, r.kind) + [r.(arrive := v.clk)])), r.kind,
                Queue(v.queues, r.kind) + [r.(arrive := v.clk)]);
  }

  lemma OrderedBefore(cfg: Config, v: Vault)
    requires QueuesOrdered(v)
    ensures QueuesOrdered(BeforeServe(cfg, v))
  {
    hide Complete, DrainMode, Enqueue, Accepts;
    var u := v.(clk := v.clk + 1);
    var c := Complete(cfg, u);
    CompleteFrame(cfg, u);
    OrderedLater(v, c);
    OrderedEnqueue(c, RefreshRequest(cfg));
    var t := TickRefresh(cfg, c);
    TickRefreshFrame(cfg, c);
    EnqueueKeepsClock(c, RefreshRequest(cfg));
    DrainFrame(t);
  }

  lemma EnqueueKeepsClock(v: Vault, r: Request)
    ensures Enqueue(v, r).clk == v.clk
  {
    hide Accepts, Forwards;
  }

  lemma OrderedServe(cfg: Config, v: Vault)
    requires QueuesOrdered(v)
    ensures QueuesOrdered(Serve(cfg, v))
  {
    hide Chosen, First, Serve, Begin, Finish, QueuesOrdered, Ordered;
    ServeIsStages(cfg, v);
    var i := Chosen(cfg, v);
    if i != -1 {
      var r := ServedQueue(v)[i];
      var u := Begin(v, i);
      OrderedOf(v, Serving(v));
      BeginFrame(v, i);
      OrderedTouch(ServedQueue(v), i, r.(first := false), v.clk);
      OrderedWith(v, u, Serving(v), ServedQueue(u));
      var w := Issue(cfg, u, First(cfg, v.issued.history, r), r.vec);
      OrderedLater(u, w);
      OrderedFinish(cfg, w, i);
    }
  }

  lemma OrderedFinish(cfg: Config, v: Vault, i: nat)
    requires QueuesOrdered(v) && i < |ServedQueue(v)|
    ensures QueuesOrdered(Finish(cfg, v, i))
  {
    hide Finish, QueuesOrdered, Ordered, Without;
    var q, w := ServedQueue(v), Finish(cfg, v, i);
    OrderedOf(v, Serving(v));
    FinishFrame(cfg, v, i);
    OrderedTouch(q, i, OneLess(q[i]), v.clk);
    OrderedWith(v, w, Serving(v), if OneLess(q[i]).burst != 0 then q[i := OneLess(q[i])] else Without(q, i));
  }

  lemma OrderedStep(cfg: Config, v: Vault, a: Action)
    requires QueuesOrdered(v)
    ensures QueuesOrdered(Step(cfg, v, a))
  {
    hide QueuesOrdered, Enqueue, Serve, BeforeServe, Accepts;
    match a
    case Arrive(p) =>
      OrderedEnqueue(v, Stamped(cfg, p).req);
      OrderedLater(Enqueue(v, Stamped(cfg, p).req), Receive(cfg, v, p));
    case Cycle =>
      OrderedBefore(cfg, v);
      OrderedServe(cfg, BeforeServe(cfg, v));
    case Leave => OrderedLater(v, Step(cfg, v, a));
  }
}
