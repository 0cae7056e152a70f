/** What the controller reports to the device about requests being served adds up: below every node, the
    requests that were started and not yet finished. */
module VaultActivity {
  import opened Device
  import opened History
  import opened Activity
  import opened Tally
  import opened Vault
  import opened VaultRows

  predicate Below(vec: Address, p: Path) { |p| <= |vec| && vec[..|p|] == p }

  function Busy(p: Path): Request -> int { (r: Request) => if !r.first && Below(r.vec, p) then 1 else 0 }

  function Reading(p: Path): Request -> int { (r: Request) => if WasServed(r) && Below(r.vec, p) then 1 else 0 }

  function BusyQueues(qs: Queues, p: Path): int { Sum(qs.read, Busy(p)) + Sum(qs.write, Busy(p)) }

  /** The reads and writes below `p` that were started and not finished; forwarded reads are not among them. */
  function InService(v: Vault, p: Path): int { BusyQueues(v.queues, p) + Sum(v.pending, Reading(p)) }

  ghost predicate Accounted(v: Vault, p: Path) {
    Served(v.activity, p) == InService(v, p) && NeverNegative(v.activity, p)
  }

  ghost predicate LogInOrder(v: Vault) {
    0 <= v.clk && InOrder(v.activity) && forall i :: 0 <= i < |v.activity| ==> v.activity[i].clk <= v.clk
  }

  ghost predicate Arrived(v: Vault) {
    && (forall r :: r in v.queues.read ==> r.arrive <= v.clk)
    && forall r :: r in v.queues.write ==> r.arrive <= v.clk
  }

  // ---------------------------------------------------------------- sums

  lemma BusyWith(qs: Queues, k: Kind, q: seq<Request>, p: Path)
    ensures BusyQueues(WithQueue(qs, k, q), p) ==
            BusyQueues(qs, p) + if k == Refresh then 0 else Sum(q, Busy(p)) - Sum(Queue(qs, k), Busy(p))
  {
    hide Sum;
  }

  lemma InServiceNonNegative(v: Vault, p: Path)
    ensures 0 <= InService(v, p)
  {
    NonNegative(v.queues.read, Busy(p));
    NonNegative(v.queues.write, Busy(p));
    NonNegative(v.pending, Reading(p));
  }

  lemma NeverNegativeSnoc(log: seq<Change>, e: Change, p: Path)
    requires NeverNegative(log, p) && 0 <= Served(log + [e], p)
    ensures NeverNegative(log + [e], p)
  {
    forall n | 0 <= n <= |log + [e]|
      ensures 0 <= Served((log + [e])[..n], p)
    {
      if n <= |log| {
        assert (log + [e])[..n] == log[..n];
      } else {
        assert (log + [e])[..n] == log + [e];
      }
    }
  }

  /** If a stage of the cycle logs at most one change, and changes the requests in service by just that
      much, then the account stays right. */
  lemma AccountedAgain(v: Vault, w: Vault, p: Path, log: seq<Change>)
    requires Accounted(v, p) && w.activity == v.activity + log && |log| <= 1
    requires InService(w, p) == InService(v, p) + if log != [] && Below(log[0].addr, p) then log[0].delta else 0
    ensures Accounted(w, p)
  {
    hide NeverNegative, InService;
    InServiceNonNegative(w, p);
    if log == [] {
      assert w.activity == v.activity;
    } else {
      assert log == [log[0]];
      CounterSnoc(v.activity, log[0], p);
      NeverNegativeSnoc(v.activity, log[0], p);
    }
  }

  lemma LogInOrderAgain(v: Vault, w: Vault, log: seq<Change>)
    requires LogInOrder(v) && v.clk <= w.clk && w.activity == v.activity + log && |log| <= 1
    requires log != [] ==> log[0].clk == v.clk
    ensures LogInOrder(w)
  {
    forall i, j | 0 <= i <= j < |w.activity|
      ensures w.activity[i].clk <= w.activity[j].clk
    {
      assert i < |v.activity| ==> w.activity[i] == v.activity[i];
      assert j < |v.activity| ==> w.activity[j] == v.activity[j];
    }
  }

  // ---------------------------------------------------------------- the stages

  lemma AccountedReceive(cfg: Config, v: Vault, packet: Packet, p: Path)
    requires Accounted(v, p) && packet.req.kind != Refresh && packet.req.first
    ensures Accounted(Receive(cfg, v, packet), p)
  {
    hide Accepts, Forwards, Sum, BusyQueues, NeverNegative, Served, Queue, WithQueue;
    var r := Stamped(cfg, packet).req;
    var r' := r.(arrive := v.clk);
    Append(v.pending, r'.(depart := v.clk + 1), Reading(p));
    Append(Queue(v.queues, r.kind), r', Busy(p));
    BusyWith(v.queues, r.kind, Queue(v.queues, r.kind) + [r'], p);
  }

  lemma AccountedComplete(cfg: Config, v: Vault, p: Path)
    requires Accounted(v, p)
    ensures Accounted(Complete(cfg, v), p)
  {
    hide Respond, CallBack, Accounted, BusyQueues, Sum;
    if v.pending != [] && v.pending[0].depart <= v.clk {
      var r := v.pending[0];
      RemoveFirst(v.pending, Reading(p));
      AccountedAgain(v, Complete(cfg, v), p, if WasServed(r) then [Change(r.vec, -1, v.clk)] else []);
    }
  }

  lemma AccountedBegin(cfg: Config, v: Vault, i: nat, p: Path)
    requires Accounted(v, p) && AllQueued(cfg, v.queues) && i < |ServedQueue(v)|
    ensures Accounted(Begin(v, i), p)
  {
    hide Accounted, BusyQueues, Sum, AllQueued, WithQueue;
    BeginFrame(v, i);
    var r := ServedQueue(v)[i];
    QueueOf(cfg, v.queues, Serving(v));
    assert Item(cfg, Serving(v), r);
    BusyWith(v.queues, Serving(v), ServedQueue(Begin(v, i)), p);
    Update(ServedQueue(v), i, r.(first := false), Busy(p));
    AccountedAgain(v, Begin(v, i), p, if !r.first || r.kind == Refresh then [] else [Change(r.vec, 1, v.clk)]);
  }

  lemma AccountedFinish(cfg: Config, v: Vault, i: nat, p: Path)
    requires Accounted(v, p) && AllQueued(cfg, v.queues) && Arrived(v) && 1 < ReadLatency(cfg)
    requires i < |ServedQueue(v)| && !ServedQueue(v)[i].first
    ensures Accounted(Finish(cfg, v, i), p)
  {
    hide Accounted, BusyQueues, Sum, AllQueued, WithQueue, Finish, Respond, Without;
    FinishFrame(cfg, v, i);
    var q, w := ServedQueue(v), Finish(cfg, v, i);
    var r := OneLess(q[i]);
    QueueOf(cfg, v.queues, Serving(v));
    assert Item(cfg, Serving(v), q[i]);
    if r.burst != 0 {
      BusyWith(v.queues, Serving(v), q[i := r], p);
      Update(q, i, r, Busy(p));
      AccountedAgain(v, w, p, []);
    } else {
      BusyWith(v.queues, Serving(v), Without(q, i), p);
      Remove(q, i, Busy(p));
      assert q[i] in q;
      Append(v.pending, r.(depart := v.clk + ReadLatency(cfg)), Reading(p));
      AccountedAgain(v, w, p, if r.kind == Write then [Change(r.vec, -1, v.clk)] else []);
    }
  }

  lemma AccountedSame(v: Vault, w: Vault, p: Path)
    requires Accounted(v, p) && w.activity == v.activity && w.pending == v.pending
    requires w.queues.read == v.queues.read && w.queues.write == v.queues.write
    ensures Accounted(w, p)
  {
    hide Sum;
  }

  // ---------------------------------------------------------------- the cycle

  lemma BeginMarks(v: Vault, i: nat)
    requires i < |ServedQueue(v)|
    ensures !ServedQueue(Begin(v, i))[i].first
    ensures Arrived(v) ==> Arrived(Begin(v, i))
  {
    BeginFrame(v, i);
    var q := ServedQueue(v);
    forall r | r in ServedQueue(Begin(v, i))
      ensures exists s :: s in q && s.arrive == r.arrive
    {
      var j :| 0 <= j < |q| && q[i := q[i].(first := false)][j] == r;
      assert q[j] in q && q[j].arrive == r.arrive;
    }
    hide Begin;
  }

  lemma AccountedServe(cfg: Config, v: Vault, p: Path)
    requires Accounted(v, p) && AllQueued(cfg, v.queues) && Arrived(v) && 1 < ReadLatency(cfg)
    ensures Accounted(Serve(cfg, v), p)
  {
    hide Accounted, AllQueued, Arrived, Chosen, Begin, Finish, First, Serve;
    ServeIsStages(cfg, v);
    var i := Chosen(cfg, v);
    if i != -1 {
      var r := ServedQueue(v)[i];
      BeginFrame(v, i);
      BeginMarks(v, i);
      AccountedBegin(cfg, v, i, p);
      AllQueuedBegin(cfg, v, i);
      var v' := Issue(cfg, Begin(v, i), First(cfg, v.issued.history, r), r.vec);
      AccountedSame(Begin(v, i), v', p);
      ArrivedSame(Begin(v, i), v');
      AccountedFinish(cfg, v', i, p);
    }
  }

  lemma ArrivedSame(v: Vault, w: Vault)
    requires Arrived(v) && v.clk <= w.clk && w.queues.read == v.queues.read && w.queues.write == v.queues.write
    ensures Arrived(w)
  {
  }

  lemma AccountedBefore(cfg: Config, v: Vault, p: Path)
    requires Accounted(v, p)
    ensures Accounted(BeforeServe(cfg, v), p)
  {
    hide Accounted, Complete, TickRefresh, DrainMode;
    var u := v.(clk := v.clk + 1);
    var c := Complete(cfg, u);
    AccountedSame(v, u, p);
    AccountedComplete(cfg, u, p);
    TickRefreshFrame(cfg, c);
    AccountedSame(c, TickRefresh(cfg, c), p);
    DrainFrame(TickRefresh(cfg, c));
    AccountedSame(TickRefresh(cfg, c), BeforeServe(cfg, v), p);
  }

  lemma AccountedTick(cfg: Config, v: Vault, p: Path)
    requires Accounted(v, p) && AllQueued(cfg, v.queues) && Arrived(v) && 1 < ReadLatency(cfg)
    ensures Accounted(Tick(cfg, v), p)
  {
    hide Accounted, AllQueued, Arrived, BeforeServe, Serve;
    AccountedBefore(cfg, v, p);
    BeforeServeFrame(cfg, v);
    ArrivedSame(v, BeforeServe(cfg, v));
    AllQueuedBefore(cfg, v);
    AccountedServe(cfg, BeforeServe(cfg, v), p);
  }

  lemma AccountedStep(cfg: Config, v: Vault, a: Action, p: Path)
    requires Accounted(v, p) && AllQueued(cfg, v.queues) && Arrived(v) && Usable(cfg) && Valid(cfg, v, a)
    ensures Accounted(Step(cfg, v, a), p)
  {
    hide Accounted, AllQueued, Arrived, Tick, Receive;
    match a
    case Arrive(packet) => AccountedReceive(cfg, v, packet, p);
    case Cycle => AccountedTick(cfg, v, p);
    case Leave => AccountedSame(v, Step(cfg, v, a), p);
  }

  // ---------------------------------------------------------------- clocks

  lemma ArrivedReceive(cfg: Config, v: Vault, packet: Packet)
    requires Arrived(v) && packet.req.kind != Refresh
    ensures Arrived(Receive(cfg, v, packet))
  {
    hide Accepts, Forwards;
  }

  lemma ArrivedFinish(cfg: Config, v: Vault, i: nat)
    requires Arrived(v) && i < |ServedQueue(v)|
    ensures Arrived(Finish(cfg, v, i))
  {
    hide Finish, Respond;
    FinishFrame(cfg, v, i);
    var q := ServedQueue(v);
    WithoutIsWithin(q, i);
    forall r | r in q[i := OneLess(q[i])]
      ensures exists s :: s in q && s.arrive == r.arrive
    {
      var j :| 0 <= j < |q| && q[i := OneLess(q[i])][j] == r;
      assert q[j] in q && q[j].arrive == r.arrive;
    }
    hide Without;
  }

  lemma ArrivedServe(cfg: Config, v: Vault)
    requires Arrived(v)
    ensures Arrived(Serve(cfg, v))
  {
    hide Arrived, Chosen, Begin, Finish, First, Serve;
    ServeIsStages(cfg, v);
    var i := Chosen(cfg, v);
    if i != -1 {
      var r := ServedQueue(v)[i];
      BeginFrame(v, i);
      BeginMarks(v, i);
      var v' := Issue(cfg, Begin(v, i), First(cfg, v.issued.history, r), r.vec);
      ArrivedSame(Begin(v, i), v');
      ArrivedFinish(cfg, v', i);
    }
  }

  lemma ArrivedStep(cfg: Config, v: Vault, a: Action)
    requires Arrived(v) && Valid(cfg, v, a)
    ensures Arrived(Step(cfg, v, a))
  {
    hide Arrived, Receive, BeforeServe, Serve;
    match a
    case Arrive(packet) => ArrivedReceive(cfg, v, packet);
    case Cycle =>
      BeforeServeFrame(cfg, v);
      ArrivedSame(v, BeforeServe(cfg, v));
      ArrivedServe(cfg, BeforeServe(cfg, v));
    case Leave => ArrivedSame(v, Step(cfg, v, a));
  }

  lemma LogInOrderServe(cfg: Config, v: Vault)
    requires LogInOrder(v)
    ensures LogInOrder(Serve(cfg, v))
  {
    hide LogInOrder, Chosen, Begin, Finish, First, Serve, WithQueue, Respond;
    ServeIsStages(cfg, v);
    var i := Chosen(cfg, v);
    if i != -1 {
      var r := ServedQueue(v)[i];
      BeginFrame(v, i);
      BeginLogs(v, i);
      var v' := Issue(cfg, Begin(v, i), First(cfg, v.issued.history, r), r.vec);
      assert v'.activity == Begin(v, i).activity + [];
      LogInOrderAgain(Begin(v, i), v', []);
      FinishFrame(cfg, v', i);
      var done := OneLess(ServedQueue(v')[i]);
      var log := if done.burst == 0 && done.kind == Write then [Change(done.vec, -1, v.clk)] else [];
      assert Finish(cfg, v', i).activity == v'.activity + log;
      LogInOrderAgain(v', Finish(cfg, v', i), log);
    }
  }

  lemma BeginLogs(v: Vault, i: nat)
    requires LogInOrder(v) && i < |ServedQueue(v)|
    ensures LogInOrder(Begin(v, i))
  {
    hide LogInOrder, WithQueue;
    var r := ServedQueue(v)[i];
    var log := if !r.first || r.kind == Refresh then [] else [Change(r.vec, 1, v.clk)];
    assert Begin(v, i).activity == v.activity + log;
    LogInOrderAgain(v, Begin(v, i), log);
  }

  lemma LogInOrderStep(cfg: Config, v: Vault, a: Action)
    requires LogInOrder(v)
    ensures LogInOrder(Step(cfg, v, a))
  {
    hide LogInOrder, Receive, Complete, TickRefresh, DrainMode, Serve;
    assert v.activity == v.activity + [];
    match a
    case Arrive(packet) =>
      ReceiveFrame(cfg, v, packet);
      LogInOrderAgain(v, Step(cfg, v, a), []);
    case Cycle =>
      var u := v.(clk := v.clk + 1);
      LogInOrderAgain(v, u, []);
      CompleteLogs(cfg, u);
      var c := Complete(cfg, u);
      CompleteFrame(cfg, u);
      TickRefreshFrame(cfg, c);
      DrainFrame(TickRefresh(cfg, c));
      assert c.activity == c.activity + [];
      LogInOrderAgain(c, BeforeServe(cfg, v), []);
      LogInOrderServe(cfg, BeforeServe(cfg, v));
    case Leave =>
      LogInOrderAgain(v, Step(cfg, v, a), []);
  }

  lemma CompleteLogs(cfg: Config, v: Vault)
    requires LogInOrder(v)
    ensures LogInOrder(Complete(cfg, v))
  {
    hide LogInOrder, Respond, CallBack;
    if v.pending != [] && v.pending[0].depart <= v.clk {
      var r := v.pending[0];
      LogInOrderAgain(v, Complete(cfg, v), if WasServed(r) then [Change(r.vec, -1, v.clk)] else []);
    }
  }
}
