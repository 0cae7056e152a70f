/** Where the data of a read comes from: from a write to its address that was accepted before it, or from the
    device, once it has had its last column command and the time that its data takes has passed. */
module VaultReads {
  import opened Device
  import opened History
  import opened Vault
  import opened VaultRows
  import opened VaultRequests
  import opened VaultActivity
  import opened VaultColumns
  import opened VaultRuns

  // ---------------------------------------------------------------- arrivals

  /** A read waits in its queue unless a queued write has its address: then it waits for its data at once. */
  lemma ArrivalIsPlaced(cfg: Config, v: Vault, p: Packet)
    requires p.req.kind != Refresh
    ensures var w := Step(cfg, v, Arrive(p));
            var r := p.req.(burst := cfg.burst, arrive := v.clk);
            var room := r.nmp || |if r.kind == Read then v.queues.read else v.queues.write| != 32;
            var written := exists x :: x in v.queues.write && x.addr == r.addr;
            && w.queues.read == v.queues.read + (if room && r.kind == Read && !written then [r] else [])
            && w.queues.write == v.queues.write + (if room && r.kind == Write then [r] else [])
            && w.queues.other == v.queues.other
            && w.pending == v.pending + (if room && r.kind == Read && written then [r.(depart := v.clk + 1)] else [])
            && w.accepted == v.accepted + (if room then [p.(req := p.req.(burst := cfg.burst))] else [])
  {
  }

  // ---------------------------------------------------------------- where data comes from

  /** Before the read's packet, one with a write to its address was accepted. */
  ghost predicate WrittenBefore(accepted: seq<Packet>, r: Request) {
    exists i, j :: 0 <= i < j < |accepted| && accepted[i].req.kind == Write && accepted[i].req.addr == r.addr
      && SameRequest(r, accepted[j].req)
  }

  /** The read of its address, row and column was issued for it in time for the data to have come by `depart`. */
  ghost predicate ReadBefore(cfg: Config, h: seq<Event>, r: Request) {
    Event(RD, r.vec, r.depart - cfg.speed.nCL - cfg.speed.nBL) in h
    && r.arrive <= r.depart - cfg.speed.nCL - cfg.speed.nBL
  }

  /** A read with all of its burst left got its data from a write, any other one from the device. */
  ghost predicate Sourced(cfg: Config, v: Vault, r: Request) {
    if r.burst == cfg.burst then WrittenBefore(v.accepted, r) && r.depart == r.arrive + 1
    else r.burst == 0 && ReadBefore(cfg, v.issued.history, r)
  }

  /** A read is answered by a response, or by its callback if it comes from a near-memory core. */
  ghost predicate Supplied(cfg: Config, v: Vault, a: Response) {
    a.req.kind == Read ==> Sourced(cfg, v, a.req) && a.req.depart <= v.clk && !a.req.nmp
  }

  ghost predicate AllSourced(cfg: Config, v: Vault) {
    && (forall r :: r in v.pending ==> Sourced(cfg, v, r))
    && (forall r :: r in v.replies.called ==> Sourced(cfg, v, r) && r.depart <= v.clk && r.nmp)
    && (forall a :: a in v.replies.responses || a in v.replies.sent ==> Supplied(cfg, v, a))
  }

  lemma WrittenLonger(accepted: seq<Packet>, longer: seq<Packet>, r: Request)
    requires WrittenBefore(accepted, r) && accepted <= longer
    ensures WrittenBefore(longer, r)
  {
    var i, j :| 0 <= i < j < |accepted| && accepted[i].req.kind == Write && accepted[i].req.addr == r.addr
                && SameRequest(r, accepted[j].req);
    assert longer[i] == accepted[i] && longer[j] == accepted[j];
  }

  lemma SourcedLater(cfg: Config, v: Vault, w: Vault, r: Request)
    requires Sourced(cfg, v, r) && v.accepted <= w.accepted && v.issued.history <= w.issued.history
    ensures Sourced(cfg, w, r)
  {
    if r.burst == cfg.burst {
      WrittenLonger(v.accepted, w.accepted, r);
    } else {
      hide WrittenBefore;
    }
  }

  /** Nothing is pending or answered that was not before. */
  lemma AllSourcedLater(cfg: Config, v: Vault, w: Vault)
    requires AllSourced(cfg, v) && v.accepted <= w.accepted && v.issued.history <= w.issued.history && v.clk <= w.clk
    requires forall r :: r in w.pending ==> r in v.pending
    requires forall r :: r in w.replies.called ==> r in v.replies.called
    requires forall a :: a in w.replies.responses || a in w.replies.sent ==>
               a in v.replies.responses || a in v.replies.sent
    ensures AllSourced(cfg, w)
  {
    hide Sourced;
    forall r: Request | Sourced(cfg, v, r)
      ensures Sourced(cfg, w, r)
    {
      SourcedLater(cfg, v, w, r);
    }
    forall a | a in w.replies.responses || a in w.replies.sent
      ensures Supplied(cfg, w, a)
    {
      assert Supplied(cfg, v, a);
    }
  }

  /** The packet of a queued write was accepted. */
  lemma WriteWasAccepted(cfg: Config, v: Vault, x: Request) returns (i: nat)
    requires Backed(v) && AllQueued(cfg, v.queues) && x in v.queues.write
    ensures i < |v.accepted| && v.accepted[i].req.kind == Write && v.accepted[i].req.addr == x.addr
  {
    assert Unanswered(v, x) && Backs(v.replies.incoming, v.accepted, x);
    var k :| 0 <= k < |v.queues.write| && v.queues.write[k] == x;
    assert Item(cfg, Write, v.queues.write[k]);
    i :| 0 <= i < |v.accepted| && v.accepted[i] == v.replies.incoming[x.id];
  }

  lemma ReceiveAnswersNone(cfg: Config, v: Vault, p: Packet)
    ensures var w := Step(cfg, v, Arrive(p));
            && w.clk == v.clk && w.issued == v.issued && w.replies == v.replies.(incoming := w.replies.incoming)
  {
    hide Accepts, Forwards;
  }

  lemma SourcedReceive(cfg: Config, v: Vault, p: Packet)
    requires AllSourced(cfg, v) && Backed(v) && AllQueued(cfg, v.queues) && Valid(cfg, v, Arrive(p))
    ensures AllSourced(cfg, Step(cfg, v, Arrive(p)))
  {
    hide Sourced, Supplied, Step, Backs, AllQueued, Backed;
    var w := Step(cfg, v, Arrive(p));
    ArrivalIsPlaced(cfg, v, p);
    ReceiveAnswersNone(cfg, v, p);
    assert v.accepted <= w.accepted;
    forall r | r in w.pending
      ensures Sourced(cfg, w, r)
    {
      if r in v.pending {
        SourcedLater(cfg, v, w, r);
      } else {
        var x :| x in v.queues.write && x.addr == p.req.addr;
        var i := WriteWasAccepted(cfg, v, x);
        var j := |v.accepted|;
        assert w.accepted[i] == v.accepted[i] && SameRequest(r, w.accepted[j].req);
        WrittenIsSourced(cfg, w, r, i, j);
      }
    }
    AllSourcedLater(cfg, v, w.(pending := []));
    forall a | a in w.replies.responses || a in w.replies.sent
      ensures Supplied(cfg, w, a)
    {
      SuppliedSame(cfg, w.(pending := []), w, a);
    }
    forall r | r in w.replies.called
      ensures Sourced(cfg, w, r)
    {
      SourcedLater(cfg, v, w, r);
    }
  }

  lemma WrittenIsSourced(cfg: Config, w: Vault, r: Request, i: nat, j: nat)
    requires i < j < |w.accepted| && w.accepted[i].req.kind == Write && w.accepted[i].req.addr == r.addr
    requires SameRequest(r, w.accepted[j].req) && r.burst == cfg.burst && r.depart == r.arrive + 1
    ensures Sourced(cfg, w, r)
  {
  }

  lemma SuppliedSame(cfg: Config, v: Vault, w: Vault, a: Response)
    requires Supplied(cfg, v, a) && v.accepted == w.accepted && v.issued == w.issued && v.clk == w.clk
    ensures Supplied(cfg, w, a)
  {
  }

  // ---------------------------------------------------------------- the cycle

  lemma SourcedComplete(cfg: Config, v: Vault)
    requires AllSourced(cfg, v)
    ensures AllSourced(cfg, Complete(cfg, v))
  {
    hide Sourced, WrittenBefore, ReadBefore;
    var w := Complete(cfg, v);
    CompleteFrame(cfg, v);
    forall r: Request | Sourced(cfg, v, r)
      ensures Sourced(cfg, w, r)
    {
      SourcedLater(cfg, v, w, r);
    }
    if v.pending != [] && v.pending[0].depart <= v.clk {
      var r := v.pending[0];
      assert r in v.pending;
      forall a | a in w.replies.responses || a in w.replies.sent
        ensures Supplied(cfg, w, a)
      {
        assert a in v.replies.responses || a in v.replies.sent ==> Supplied(cfg, v, a);
      }
    }
  }

  /** A finished read starts to wait for its data, a finished write is answered. */
  lemma SourcedServe(cfg: Config, v: Vault)
    requires AllSourced(cfg, v) && AllQueued(cfg, v.queues) && Arrived(v) && Usable(cfg)
    ensures AllSourced(cfg, Serve(cfg, v))
  {
    hide AllSourced, AllQueued, Arrived, Chosen, First, Serve, Begin, Finish, Respond;
    ServeIsStages(cfg, v);
    ServeFrame(cfg, v);
    var i := Chosen(cfg, v);
    if i != -1 {
      var r := ServedQueue(v)[i];
      var c := First(cfg, v.issued.history, r);
      BeginFrame(v, i);
      var u := Issue(cfg, Begin(v, i), c, r.vec);
      AllSourcedLater(cfg, v, u);
      if c == Column(r.kind) {
        AllQueuedBegin(cfg, v, i);
        ArrivedBegin(v, i);
        ArrivedSame(Begin(v, i), u);
        SourcedFinish(cfg, u, i);
      }
    }
  }

  lemma SourcedFinish(cfg: Config, v: Vault, i: nat)
    requires AllSourced(cfg, v) && AllQueued(cfg, v.queues) && Arrived(v) && Usable(cfg)
    requires i < |ServedQueue(v)|
    requires Event(Column(ServedQueue(v)[i].kind), ServedQueue(v)[i].vec, v.clk) in v.issued.history
    ensures AllSourced(cfg, Finish(cfg, v, i))
  {
    hide Finish, Sourced, AllQueued, Arrived;
    var q, w := ServedQueue(v), Finish(cfg, v, i);
    var r := OneLess(q[i]);
    FinishFrame(cfg, v, i);
    QueueOf(cfg, v.queues, Serving(v));
    assert Item(cfg, Serving(v), q[i]);
    assert q[i] in q;
    forall x: Request | Sourced(cfg, v, x)
      ensures Sourced(cfg, w, x)
    {
      SourcedLater(cfg, v, w, x);
    }
    if r.burst == 0 && r.kind == Read {
      HasArrived(v, q[i]);
      ServedIsSourced(cfg, w, r.(depart := v.clk + ReadLatency(cfg)));
    }
    forall a | a in w.replies.responses || a in w.replies.sent
      ensures Supplied(cfg, w, a)
    {
      assert a in v.replies.responses || a in v.replies.sent ==> Supplied(cfg, v, a);
    }
  }

  lemma HasArrived(v: Vault, r: Request)
    requires Arrived(v) && r in v.queues.read
    ensures r.arrive <= v.clk
  {
  }

  lemma ServedIsSourced(cfg: Config, w: Vault, r: Request)
    requires Usable(cfg) && r.burst == 0 && ReadBefore(cfg, w.issued.history, r)
    ensures Sourced(cfg, w, r)
  {
  }

  lemma SourcedStep(cfg: Config, v: Vault, a: Action)
    requires AllSourced(cfg, v) && Core(cfg, v) && Usable(cfg) && Valid(cfg, v, a)
    ensures AllSourced(cfg, Step(cfg, v, a))
  {
    hide AllSourced, AllQueued, Lawful, Conserved, Arrived, LogInOrder, Accounted, Backed, AllAnswers, ReadsAreOlder,
         Receive, Complete, TickRefresh, DrainMode, Serve;
    match a
    case Arrive(p) => SourcedReceive(cfg, v, p);
    case Cycle =>
      var u := v.(clk := v.clk + 1);
      var c := Complete(cfg, u);
      AllSourcedLater(cfg, v, u);
      SourcedComplete(cfg, u);
      TickRefreshFrame(cfg, c);
      DrainFrame(TickRefresh(cfg, c));
      assert BeforeServe(cfg, v) == DrainMode(TickRefresh(cfg, c));
      AllSourcedLater(cfg, c, BeforeServe(cfg, v));
      AllQueuedBefore(cfg, v);
      BeforeServeFrame(cfg, v);
      ArrivedSame(v, BeforeServe(cfg, v));
      SourcedServe(cfg, BeforeServe(cfg, v));
    case Leave =>
      if v.replies.responses != [] {
        assert v.replies.responses[0] in v.replies.responses;
      }
      AllSourcedLater(cfg, v, Step(cfg, v, Leave));
  }

  // ---------------------------------------------------------------- packets are released

  /** The packet of an answered request is not kept any longer. */
  ghost predicate Released(rs: Replies) {
    && (forall a :: a in rs.responses || a in rs.sent ==> a.req.id !in rs.incoming)
    && forall r :: r in rs.called ==> r.id !in rs.incoming
  }

  lemma AnswersAreAccepted(cfg: Config, v: Vault)
    requires AllAnswers(cfg, v)
    ensures forall a :: a in v.replies.responses || a in v.replies.sent ==>
              exists p :: p in v.accepted && p.req.id == a.req.id
    ensures forall r :: r in v.replies.called ==> exists p :: p in v.accepted && p.req.id == r.id
  {
    forall a | a in v.replies.responses || a in v.replies.sent
      ensures exists p :: p in v.accepted && p.req.id == a.req.id
    {
      assert AnswersSome(cfg, v.accepted, a);
    }
  }

  lemma ReleasedServe(cfg: Config, v: Vault)
    requires Released(v.replies)
    ensures Released(Serve(cfg, v).replies)
  {
    hide Chosen, First, Serve, Begin, Finish;
    ServeIsStages(cfg, v);
    var i := Chosen(cfg, v);
    if i != -1 {
      var r := ServedQueue(v)[i];
      BeginFrame(v, i);
      FinishFrame(cfg, Issue(cfg, Begin(v, i), First(cfg, v.issued.history, r), r.vec), i);
    }
  }

  lemma ReleasedStep(cfg: Config, v: Vault, a: Action)
    requires Released(v.replies) && Core(cfg, v) && Valid(cfg, v, a)
    ensures Released(Step(cfg, v, a).replies)
  {
    hide AllQueued, Lawful, Conserved, Arrived, LogInOrder, Accounted, Backed, AllAnswers, ReadsAreOlder,
         Receive, TickRefresh, DrainMode, Serve;
    match a
    case Arrive(p) =>
      ReceiveAnswersNone(cfg, v, p);
      ReceiveKeeps(cfg, v, p);
      AnswersAreAccepted(cfg, v);
    case Cycle =>
      var u := v.(clk := v.clk + 1);
      TickRefreshFrame(cfg, Complete(cfg, u));
      DrainFrame(TickRefresh(cfg, Complete(cfg, u)));
      assert BeforeServe(cfg, v) == DrainMode(TickRefresh(cfg, Complete(cfg, u)));
      ReleasedServe(cfg, BeforeServe(cfg, v));
    case Leave =>
      if v.replies.responses != [] {
        assert v.replies.responses[0] in v.replies.responses;
      }
  }

  lemma ReceiveKeeps(cfg: Config, v: Vault, p: Packet)
    ensures var w := Step(cfg, v, Arrive(p)); w.replies.incoming.Keys == v.replies.incoming.Keys + {p.req.id}
  {
    hide Enqueue, Accepts;
  }

  // ---------------------------------------------------------------- runs

  /** In every run the packet of a request is kept until its answer, and no longer. */
  lemma {:induction false} AnsweredAreReleased(cfg: Config, run: seq<Vault>, actions: seq<Action>)
    requires Usable(cfg) && IsRun(cfg, run, actions)
    ensures Released(Last(run).replies)
    ensures forall r :: Unanswered(Last(run), r) ==> r.id in Last(run).replies.incoming
    decreases |actions|
  {
    hide Core, Step, Usable, Valid, Released;
    RunCore(cfg, run, actions);
    PacketsAreKept(cfg, Last(run));
    if actions == [] {
      NoneReleasedYet();
    } else {
      var n := |actions| - 1;
      RunBefore(cfg, run, actions);
      RunCore(cfg, run[..n + 1], actions[..n]);
      AnsweredAreReleased(cfg, run[..n + 1], actions[..n]);
      ReleasedStep(cfg, run[n], actions[n]);
    }
  }

  lemma NoneReleasedYet()
    ensures Released(Init().replies)
  {
  }

  lemma PacketsAreKept(cfg: Config, v: Vault)
    requires Core(cfg, v)
    ensures forall r :: Unanswered(v, r) ==> r.id in v.replies.incoming
  {
    hide AllQueued, Lawful, Conserved, AllAnswers, ReadsAreOlder, Arrived, LogInOrder, Accounted, Unanswered;
    forall r | Unanswered(v, r)
      ensures r.id in v.replies.incoming
    {
      assert Backs(v.replies.incoming, v.accepted, r);
    }
  }

  /** In every run: a read that waits for its data, or is answered, has all of its burst left exactly if it got its
      data from an earlier write to its address; otherwise the last of its column commands was issued `nCL + nBL`
      cycles before it departed.  None is answered before it departs, and a near-memory core gets no response. */
  lemma {:induction false} ReadsAreSourced(cfg: Config, run: seq<Vault>, actions: seq<Action>)
    requires Usable(cfg) && IsRun(cfg, run, actions)
    ensures AllSourced(cfg, Last(run))
    decreases |actions|
  {
    hide Core, Step, Usable, Valid, Sourced, Supplied;
    if actions != [] {
      var n := |actions| - 1;
      RunBefore(cfg, run, actions);
      RunCore(cfg, run[..n + 1], actions[..n]);
      ReadsAreSourced(cfg, run[..n + 1], actions[..n]);
      SourcedStep(cfg, run[n], actions[n]);
    }
  }
}
