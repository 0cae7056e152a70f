/** What becomes of requests: each accepted one is in exactly one place until it is answered exactly once,
    its packet is there when the answer is formed, and a queued write to the same address never comes
    from before a queued read. */
module VaultRequests {
  import opened Tally
  import opened Vault
  import opened VaultRows

  // ---------------------------------------------------------------- where requests are

  function IdIs(id: int): Request -> int { (r: Request) => if r.id == id then 1 else 0 }

  function ResponseIdIs(id: int): Response -> int { (r: Response) => if r.req.id == id then 1 else 0 }

  function PacketIdIs(id: int): Packet -> int { (p: Packet) => if p.req.id == id then 1 else 0 }

  function Queueing(qs: Queues, id: int): int { Sum(qs.read, IdIs(id)) + Sum(qs.write, IdIs(id)) }

  function Replied(rs: Replies, id: int): int {
    Sum(rs.responses, ResponseIdIs(id)) + Sum(rs.sent, ResponseIdIs(id)) + Sum(rs.called, IdIs(id))
  }

  /** How often a request is found in the queues, among the pending reads, and among the answered ones. */
  function Held(v: Vault, id: int): int {
    Queueing(v.queues, id) + Sum(v.pending, IdIs(id)) + Replied(v.replies, id)
  }

  function Accepted(v: Vault, id: int): int { Sum(v.accepted, PacketIdIs(id)) }

  /** Every accepted request is in exactly one place, and no other request is anywhere. */
  ghost predicate Conserved(v: Vault) {
    forall id :: Held(v, id) == Accepted(v, id) <= 1
  }

  lemma WaitingWith(qs: Queues, k: Kind, q: seq<Request>, id: int)
    ensures Queueing(WithQueue(qs, k, q), id) ==
            Queueing(qs, id) + if k == Refresh then 0 else Sum(q, IdIs(id)) - Sum(Queue(qs, k), IdIs(id))
  {
    hide Sum;
  }

  lemma AnsweredOnce(cfg: Config, rs: Replies, r: Request, id: int)
    ensures Replied(Respond(cfg, rs, r), id) == Replied(rs, id) + IdIs(id)(r)
    ensures Replied(CallBack(rs, r), id) == Replied(rs, id) + IdIs(id)(r)
  {
    Append(rs.responses, Respond(cfg, rs, r).responses[|rs.responses|], ResponseIdIs(id));
    Append(rs.called, r, IdIs(id));
    hide Sum;
  }

  lemma HeldSame(v: Vault, w: Vault, id: int)
    requires v.queues == w.queues && v.pending == w.pending && v.replies == w.replies
    ensures Held(v, id) == Held(w, id)
  {
  }

  lemma HeldReceive(cfg: Config, v: Vault, p: Packet, id: int)
    requires p.req.kind != Refresh
    ensures Held(Receive(cfg, v, p), id) ==
            Held(v, id) + if Accepts(v, Stamped(cfg, p).req) && p.req.id == id then 1 else 0
  {
    var r := Stamped(cfg, p).req;
    var r' := r.(arrive := v.clk);
    Append(v.pending, r'.(depart := v.clk + 1), IdIs(id));
    Append(Queue(v.queues, r.kind), r', IdIs(id));
    WaitingWith(v.queues, r.kind, Queue(v.queues, r.kind) + [r'], id);
    hide Accepts, Forwards, Sum, Queueing, Queue, WithQueue;
  }

  lemma HeldComplete(cfg: Config, v: Vault, id: int)
    ensures Held(Complete(cfg, v), id) == Held(v, id)
  {
    if v.pending != [] {
      RemoveFirst(v.pending, IdIs(id));
      AnsweredOnce(cfg, v.replies, v.pending[0], id);
    }
    hide Sum, Replied, Respond, CallBack;
  }

  lemma HeldTickRefresh(cfg: Config, v: Vault, id: int)
    ensures Held(TickRefresh(cfg, v), id) == Held(v, id)
  {
    TickRefreshFrame(cfg, v);
    hide TickRefresh;
  }

  lemma HeldBegin(v: Vault, i: nat, id: int)
    requires i < |ServedQueue(v)|
    ensures Held(Begin(v, i), id) == Held(v, id)
  {
    BeginFrame(v, i);
    WaitingWith(v.queues, Serving(v), ServedQueue(Begin(v, i)), id);
    Update(ServedQueue(v), i, ServedQueue(v)[i].(first := false), IdIs(id));
    hide Begin, Sum, Queueing, WithQueue;
  }

  lemma HeldFinish(cfg: Config, v: Vault, i: nat, id: int)
    requires AllQueued(cfg, v.queues) && i < |ServedQueue(v)|
    ensures Held(Finish(cfg, v, i), id) == Held(v, id)
  {
    hide Sum, Replied, Queueing, Queue, WithQueue, Respond, Serving, AllQueued, Without, Finish;
    var k, q := Serving(v), ServedQueue(v);
    QueueOf(cfg, v.queues, k);
    assert Item(cfg, k, q[i]);
    var r := OneLess(q[i]);
    FinishFrame(cfg, v, i);
    if r.burst != 0 {
      WaitingWith(v.queues, k, q[i := r], id);
      Update(q, i, r, IdIs(id));
    } else {
      WaitingWith(v.queues, k, Without(q, i), id);
      Remove(q, i, IdIs(id));
      Append(v.pending, r.(depart := v.clk + ReadLatency(cfg)), IdIs(id));
      AnsweredOnce(cfg, v.replies, r, id);
    }
  }

  lemma HeldServe(cfg: Config, v: Vault, id: int)
    requires AllQueued(cfg, v.queues)
    ensures Held(Serve(cfg, v), id) == Held(v, id)
  {
    var i := Chosen(cfg, v);
    if i != -1 {
      var r := ServedQueue(v)[i];
      BeginFrame(v, i);
      HeldBegin(v, i, id);
      AllQueuedBegin(cfg, v, i);
      var v' := Issue(cfg, Begin(v, i), First(cfg, v.issued.history, r), r.vec);
      assert Held(v', id) == Held(Begin(v, i), id);
      HeldFinish(cfg, v', i, id);
    }
    hide Chosen, Begin, Finish, First, AllQueued, Held;
  }

  lemma HeldTick(cfg: Config, v: Vault, id: int)
    requires AllQueued(cfg, v.queues)
    ensures Held(Tick(cfg, v), id) == Held(v, id)
  {
    hide Complete, TickRefresh, AllQueued, Serve, Held, DrainMode;
    var u := v.(clk := v.clk + 1);
    HeldComplete(cfg, u, id);
    HeldTickRefresh(cfg, Complete(cfg, u), id);
    AllQueuedBefore(cfg, v);
    HeldServe(cfg, BeforeServe(cfg, v), id);
    var t := TickRefresh(cfg, Complete(cfg, u));
    HeldSame(v, u, id);
    DrainFrame(t);
    HeldSame(t, DrainMode(t), id);
    assert BeforeServe(cfg, v) == DrainMode(t);
  }

  lemma HeldLeave(v: Vault, id: int)
    ensures Held(v.(replies := TakeResponse(v.replies)), id) == Held(v, id)
  {
    if v.replies.responses != [] {
      RemoveFirst(v.replies.responses, ResponseIdIs(id));
      Append(v.replies.sent, v.replies.responses[0], ResponseIdIs(id));
    }
    hide Sum;
  }

  lemma ServeAcceptsNone(cfg: Config, v: Vault)
    ensures Serve(cfg, v).accepted == v.accepted
  {
    var i := Chosen(cfg, v);
    if i != -1 {
      var r := ServedQueue(v)[i];
      BeginFrame(v, i);
      FinishFrame(cfg, Issue(cfg, Begin(v, i), First(cfg, v.issued.history, r), r.vec), i);
    }
    hide Chosen, Begin, Finish, First;
  }

  lemma TickAcceptsNone(cfg: Config, v: Vault)
    ensures Tick(cfg, v).accepted == v.accepted
  {
    BeforeServeFrame(cfg, v);
    ServeAcceptsNone(cfg, BeforeServe(cfg, v));
    hide BeforeServe, Serve;
  }

  lemma ReceiveAccepts(cfg: Config, v: Vault, p: Packet, id: int)
    requires Valid(cfg, v, Arrive(p))
    ensures Accepted(Receive(cfg, v, p), id) ==
            Accepted(v, id) + if Accepts(v, Stamped(cfg, p).req) && p.req.id == id then 1 else 0
    ensures p.req.id == id ==> Accepted(v, id) == 0
  {
    Append(v.accepted, Stamped(cfg, p), PacketIdIs(id));
    assert v.accepted + [] == v.accepted;
    if p.req.id == id {
      Zero(v.accepted, PacketIdIs(id));
    }
    hide Accepts, Forwards, Enqueue, Sum;
  }

  lemma ConservedStep(cfg: Config, v: Vault, a: Action)
    requires AllQueued(cfg, v.queues) && Valid(cfg, v, a) && Conserved(v)
    ensures Conserved(Step(cfg, v, a))
  {
    forall id
      ensures Held(Step(cfg, v, a), id) == Accepted(Step(cfg, v, a), id) <= 1
    {
      match a
      case Arrive(p) =>
        HeldReceive(cfg, v, p, id);
        ReceiveAccepts(cfg, v, p, id);
        assert Held(v, id) == Accepted(v, id) <= 1;
        hide Receive, Held, Accepted, Accepts, Conserved;
      case Cycle =>
        HeldTick(cfg, v, id);
        TickAcceptsNone(cfg, v);
        assert Held(v, id) == Accepted(v, id) <= 1;
        hide Tick, Held, Conserved, Sum;
      case Leave =>
        HeldLeave(v, id);
        assert Held(v, id) == Accepted(v, id) <= 1;
        hide Held, Conserved, Sum;
    }
  }

  // ---------------------------------------------------------------- what requests are owed

  /** The request is the packet's own, whatever service it has had so far. */
  predicate SameRequest(r: Request, s: Request) {
    r.id == s.id && r.kind == s.kind && r.addr == s.addr && r.vec == s.vec && r.nmp == s.nmp
  }

  ghost predicate Backs(incoming: map<int, Packet>, accepted: seq<Packet>, r: Request) {
    r.id in incoming && incoming[r.id] in accepted && SameRequest(r, incoming[r.id].req)
  }

  ghost predicate Unanswered(v: Vault, r: Request) {
    r in v.queues.read || r in v.queues.write || r in v.pending
  }

  /** Every queued or pending request has its own packet, the accepted one. */
  ghost predicate Backed(v: Vault) {
    forall r :: Unanswered(v, r) ==> Backs(v.replies.incoming, v.accepted, r)
  }

  /** The response carries the header of the accepted packet that it answers. */
  ghost predicate AnswersSome(cfg: Config, accepted: seq<Packet>, a: Response) {
    exists p :: p in accepted && SameRequest(a.req, p.req)
      && a.cub == p.cub && a.tag == p.tag && a.slid == p.slid && a.cmd == p.cmd
      && a.lng == if p.req.kind == Write then 1 else 1 + cfg.payload
  }

  ghost predicate CalledFor(accepted: seq<Packet>, r: Request) {
    exists p :: p in accepted && SameRequest(r, p.req) && p.req.nmp && p.req.kind == Read
  }

  ghost predicate AllAnswers(cfg: Config, v: Vault) {
    && (forall a :: a in v.replies.responses ==> AnswersSome(cfg, v.accepted, a))
    && (forall a :: a in v.replies.sent ==> AnswersSome(cfg, v.accepted, a))
    && (forall r :: r in v.replies.called ==> CalledFor(v.accepted, r))
    && forall r :: r in v.pending ==> r.kind == Read && InVault(cfg, r.vec)
  }

  /** The packet with id `x` was accepted before the one with id `y`. */
  ghost predicate Precedes(accepted: seq<Packet>, x: int, y: int) {
    exists i, j :: 0 <= i < j < |accepted| && accepted[i].req.id == x && accepted[j].req.id == y
  }

  /** A queued write to the address of a queued read came after the read. */
  ghost predicate ReadsAreOlder(v: Vault) {
    forall r, w :: r in v.queues.read && w in v.queues.write && r.addr == w.addr ==> Precedes(v.accepted, r.id, w.id)
  }

  ghost predicate Owed(cfg: Config, v: Vault) { Backed(v) && AllAnswers(cfg, v) && ReadsAreOlder(v) }

  // ---------------------------------------------------------------- each stage keeps it

  lemma PrecedesLonger(accepted: seq<Packet>, more: seq<Packet>, x: int, y: int)
    requires Precedes(accepted, x, y)
    ensures Precedes(accepted + more, x, y)
  {
    var i, j :| 0 <= i < j < |accepted| && accepted[i].req.id == x && accepted[j].req.id == y;
    assert (accepted + more)[i] == accepted[i] && (accepted + more)[j] == accepted[j];
  }

  lemma PrecedesLast(accepted: seq<Packet>, p: Packet, x: Packet)
    requires x in accepted
    ensures Precedes(accepted + [p], x.req.id, p.req.id)
  {
    var i :| 0 <= i < |accepted| && accepted[i] == x;
    assert (accepted + [p])[i] == x && (accepted + [p])[|accepted|] == p;
  }

  lemma ReceiveLists(cfg: Config, v: Vault, p: Packet)
    requires p.req.kind != Refresh
    ensures var w := Receive(cfg, v, p);
            forall r :: Unanswered(w, r) && !Unanswered(v, r) ==>
              Accepts(v, Stamped(cfg, p).req) && SameRequest(r, p.req)
    ensures var w := Receive(cfg, v, p);
            && w.replies == v.replies.(incoming := v.replies.incoming[p.req.id := Stamped(cfg, p)])
            && w.accepted == v.accepted + if Accepts(v, Stamped(cfg, p).req) then [Stamped(cfg, p)] else []
    ensures var w := Receive(cfg, v, p);
            && (forall r :: r in w.queues.read && r !in v.queues.read ==> !Forwards(v, r) && r.kind == Read)
            && (forall r :: r in w.queues.write && r !in v.queues.write ==> r.kind == Write)
            && (forall r :: r in w.pending && r !in v.pending ==> r.kind == Read)
  {
    hide Accepts;
  }

  lemma BackedReceive(cfg: Config, v: Vault, p: Packet)
    requires Backed(v) && Valid(cfg, v, Arrive(p))
    ensures Backed(Receive(cfg, v, p))
  {
    ReceiveLists(cfg, v, p);
    hide Receive, Accepts;
    var w := Receive(cfg, v, p);
    forall r | Unanswered(w, r)
      ensures Backs(w.replies.incoming, w.accepted, r)
    {
      if Unanswered(v, r) {
        assert Backs(v.replies.incoming, v.accepted, r);
      }
    }
  }

  lemma AnswersReceive(cfg: Config, v: Vault, p: Packet)
    requires AllAnswers(cfg, v) && Valid(cfg, v, Arrive(p))
    ensures AllAnswers(cfg, Receive(cfg, v, p))
  {
    ReceiveLists(cfg, v, p);
    hide Receive, Accepts;
    var w := Receive(cfg, v, p);
    assert forall x :: x in v.accepted ==> x in w.accepted;
    forall a | a in v.replies.responses || a in v.replies.sent
      ensures AnswersSome(cfg, w.accepted, a)
    {
      assert AnswersSome(cfg, v.accepted, a);
    }
    forall r | r in v.replies.called
      ensures CalledFor(w.accepted, r)
    {
      assert CalledFor(v.accepted, r);
    }
  }

  lemma OlderReceive(cfg: Config, v: Vault, p: Packet)
    requires ReadsAreOlder(v) && Backed(v) && Valid(cfg, v, Arrive(p))
    ensures ReadsAreOlder(Receive(cfg, v, p))
  {
    ReceiveLists(cfg, v, p);
    hide Receive, Accepts;
    var w, p' := Receive(cfg, v, p), Stamped(cfg, p);
    forall r, x | r in w.queues.read && x in w.queues.write && r.addr == x.addr
      ensures Precedes(w.accepted, r.id, x.id)
    {
      if r in v.queues.read && x in v.queues.write {
        PrecedesLonger(v.accepted, w.accepted[|v.accepted|..], r.id, x.id);
        assert w.accepted == v.accepted + w.accepted[|v.accepted|..];
      } else if r in v.queues.read {
        assert Unanswered(w, x) && Unanswered(v, r);
        assert Backs(v.replies.incoming, v.accepted, r);
        PrecedesLast(v.accepted, p', v.replies.incoming[r.id]);
      }
    }
  }

  lemma PendingApart(v: Vault, r: Request)
    requires Conserved(v) && v.pending != []
    requires r in v.queues.read || r in v.queues.write || r in v.pending[1..]
    ensures r.id != v.pending[0].id
  {
    var id := r.id;
    assert Held(v, id) == Accepted(v, id) <= 1;
    RemoveFirst(v.pending, IdIs(id));
    AllCountsNonNegative(v, id);
    NonNegative(v.pending[1..], IdIs(id));
    hide Sum, Conserved, Accepted;
    if r in v.queues.read {
      Present(v.queues.read, r);
    } else if r in v.queues.write {
      Present(v.queues.write, r);
    } else {
      Present(v.pending[1..], r);
    }
  }

  lemma Present(q: seq<Request>, r: Request)
    requires r in q
    ensures 1 <= Sum(q, IdIs(r.id))
  {
    var i :| 0 <= i < |q| && q[i] == r;
    Has(q, i, IdIs(r.id));
  }

  lemma AllCountsNonNegative(v: Vault, id: int)
    ensures 0 <= Sum(v.queues.read, IdIs(id)) && 0 <= Sum(v.queues.write, IdIs(id)) && 0 <= Sum(v.pending, IdIs(id))
    ensures 0 <= Replied(v.replies, id)
  {
    NonNegative(v.queues.read, IdIs(id));
    NonNegative(v.queues.write, IdIs(id));
    NonNegative(v.pending, IdIs(id));
    NonNegative(v.replies.responses, ResponseIdIs(id));
    NonNegative(v.replies.sent, ResponseIdIs(id));
    NonNegative(v.replies.called, IdIs(id));
  }

  lemma QueueApart(v: Vault, k: Kind, i: nat, r: Request)
    requires Conserved(v) && k != Refresh && i < |Queue(v.queues, k)|
    requires r in Queue(v.queues, if k == Read then Write else Read) || r in Without(Queue(v.queues, k), i) ||
             r in v.pending
    ensures r.id != Queue(v.queues, k)[i].id
  {
    var id := r.id;
    var q := Queue(v.queues, k);
    assert Held(v, id) == Accepted(v, id) <= 1;
    Remove(q, i, IdIs(id));
    AllCountsNonNegative(v, id);
    NonNegative(Without(q, i), IdIs(id));
    hide Sum, Conserved, Accepted, Without;
    if r in v.pending {
      Present(v.pending, r);
    } else if r in Without(q, i) {
      Present(Without(q, i), r);
    } else {
      Present(Queue(v.queues, if k == Read then Write else Read), r);
    }
  }

  // ---------------------------------------------------------------- the cycle

  lemma RespondAnswers(cfg: Config, rs: Replies, accepted: seq<Packet>, r: Request)
    requires Backs(rs.incoming, accepted, r)
    ensures var a := Respond(cfg, rs, r).responses[|rs.responses|]; AnswersSome(cfg, accepted, a)
    ensures Respond(cfg, rs, r).responses == rs.responses + [Respond(cfg, rs, r).responses[|rs.responses|]]
    ensures Respond(cfg, rs, r) == rs.(responses := Respond(cfg, rs, r).responses, incoming := rs.incoming - {r.id})
  {
  }

  lemma OwedComplete(cfg: Config, v: Vault)
    requires Owed(cfg, v) && Conserved(v)
    ensures Owed(cfg, Complete(cfg, v))
    ensures v.ok ==> Complete(cfg, v).ok
  {
    if v.pending != [] && v.pending[0].depart <= v.clk {
      var r, w := v.pending[0], Complete(cfg, v);
      assert Unanswered(v, r);
      RespondAnswers(cfg, v.replies, v.accepted, r);
      forall s | Unanswered(w, s)
        ensures Backs(w.replies.incoming, w.accepted, s)
      {
        PendingApart(v, s);
        assert Unanswered(v, s);
      }
      hide Respond, AnswersSome, Conserved, Precedes;
    }
  }

  lemma OwedSame(cfg: Config, v: Vault, w: Vault)
    requires Owed(cfg, v) && v.queues.read == w.queues.read && v.queues.write == w.queues.write
    requires v.pending == w.pending && v.replies == w.replies && v.accepted == w.accepted
    ensures Owed(cfg, w)
  {
    hide Precedes, AnswersSome, CalledFor, Backs;
  }

  lemma OwedTickRefresh(cfg: Config, v: Vault)
    requires Owed(cfg, v)
    ensures Owed(cfg, TickRefresh(cfg, v))
  {
    TickRefreshFrame(cfg, v);
    hide TickRefresh, Owed;
    OwedSame(cfg, v, TickRefresh(cfg, v));
  }

  /** A queue changes in one place, by a request that is still the same request. */
  lemma OwedTouch(cfg: Config, v: Vault, w: Vault, k: Kind, i: nat, r: Request)
    requires Owed(cfg, v) && i < |Queue(v.queues, k)| && SameRequest(r, Queue(v.queues, k)[i])
    requires w.queues == WithQueue(v.queues, k, Queue(v.queues, k)[i := r])
    requires v.pending == w.pending && v.replies == w.replies && v.accepted == w.accepted
    ensures Owed(cfg, w)
  {
    var q := Queue(v.queues, k);
    forall s | s in q[i := r]
      ensures s in q || (s == r && q[i] in q)
    {
      var j :| 0 <= j < |q| && q[i := r][j] == s;
      assert j != i ==> q[j] == s;
    }
    forall s | Unanswered(w, s)
      ensures Backs(w.replies.incoming, w.accepted, s)
    {
      assert Unanswered(v, s) || (Unanswered(v, q[i]) && s == r);
    }
    hide Precedes, AnswersSome, CalledFor;
  }

  lemma OwedBegin(cfg: Config, v: Vault, i: nat)
    requires Owed(cfg, v) && i < |ServedQueue(v)|
    ensures Owed(cfg, Begin(v, i))
  {
    BeginFrame(v, i);
    hide Begin, Owed, WithQueue;
    OwedTouch(cfg, v, Begin(v, i), Serving(v), i, ServedQueue(v)[i].(first := false));
  }

  /** A read that got its last column command waits for its data. */
  lemma OwedReadDone(cfg: Config, v: Vault, w: Vault, i: nat, r: Request)
    requires Owed(cfg, v) && i < |v.queues.read| && SameRequest(r, v.queues.read[i])
    requires r.kind == Read && InVault(cfg, r.vec)
    requires w.queues.read == Without(v.queues.read, i) && w.queues.write == v.queues.write
    requires w.pending == v.pending + [r] && w.replies == v.replies && w.accepted == v.accepted
    ensures Owed(cfg, w)
  {
    WithoutIsWithin(v.queues.read, i);
    var was := v.queues.read[i];
    assert Unanswered(v, was);
    forall s | Unanswered(w, s)
      ensures Backs(w.replies.incoming, w.accepted, s)
    {
      assert Unanswered(v, s) || s == r;
    }
    hide Precedes, AnswersSome, CalledFor, Without;
  }

  /** A write that got its last column command is answered. */
  lemma OwedWriteDone(cfg: Config, v: Vault, w: Vault, i: nat, r: Request)
    requires Owed(cfg, v) && Conserved(v) && i < |v.queues.write| && SameRequest(r, v.queues.write[i])
    requires w.queues.read == v.queues.read && w.queues.write == Without(v.queues.write, i)
    requires w.pending == v.pending && w.replies == Respond(cfg, v.replies, r) && w.accepted == v.accepted
    ensures Owed(cfg, w) && r.id in v.replies.incoming
  {
    WithoutIsWithin(v.queues.write, i);
    var was := v.queues.write[i];
    assert Unanswered(v, was) && Backs(v.replies.incoming, v.accepted, r);
    RespondAnswers(cfg, v.replies, v.accepted, r);
    forall s | Unanswered(w, s)
      ensures Backs(w.replies.incoming, w.accepted, s)
    {
      QueueApart(v, Write, i, s);
      assert Unanswered(v, s);
    }
    hide Precedes, AnswersSome, CalledFor, Without, Respond, Conserved;
  }

  lemma OwedFinish(cfg: Config, v: Vault, i: nat)
    requires Owed(cfg, v) && Conserved(v) && AllQueued(cfg, v.queues) && i < |ServedQueue(v)|
    ensures Owed(cfg, Finish(cfg, v, i))
    ensures v.ok ==> Finish(cfg, v, i).ok
  {
    hide Owed, Conserved, Finish, Respond, Without;
    var w, k := Finish(cfg, v, i), Serving(v);
    var q := Queue(v.queues, k);
    var r := OneLess(q[i]);
    FinishFrame(cfg, v, i);
    QueueOf(cfg, v.queues, k);
    assert Item(cfg, k, q[i]);
    if r.burst != 0 {
      OwedTouch(cfg, v, w, k, i, r);
    } else {
      match k
      case Read =>
        OwedReadDone(cfg, v, w, i, r.(depart := v.clk + ReadLatency(cfg)));
      case Write =>
        OwedWriteDone(cfg, v, w, i, r);
      case Refresh =>
        OwedSame(cfg, v, w);
    }
  }

  lemma OwedServe(cfg: Config, v: Vault)
    requires Owed(cfg, v) && Conserved(v) && AllQueued(cfg, v.queues)
    ensures Owed(cfg, Serve(cfg, v))
  {
    hide Owed, Conserved, AllQueued, Chosen, Begin, Finish, First, Serve;
    ServeIsStages(cfg, v);
    var i := Chosen(cfg, v);
    if i != -1 {
      var r := ServedQueue(v)[i];
      BeginFrame(v, i);
      OwedBegin(cfg, v, i);
      AllQueuedBegin(cfg, v, i);
      ConservedBegin(v, i);
      var v' := Issue(cfg, Begin(v, i), First(cfg, v.issued.history, r), r.vec);
      OwedSame(cfg, Begin(v, i), v');
      ConservedSame(Begin(v, i), v');
      OwedFinish(cfg, v', i);
    }
  }

  lemma ConservedSame(v: Vault, w: Vault)
    requires Conserved(v) && v.queues == w.queues && v.pending == w.pending && v.replies == w.replies
    requires v.accepted == w.accepted
    ensures Conserved(w)
  {
    hide Held;
    forall id
      ensures Held(w, id) == Accepted(w, id) <= 1
    {
      HeldSame(v, w, id);
      assert Held(v, id) == Accepted(v, id) <= 1;
    }
  }

  lemma ConservedBegin(v: Vault, i: nat)
    requires Conserved(v) && i < |ServedQueue(v)|
    ensures Conserved(Begin(v, i))
  {
    BeginFrame(v, i);
    hide Held, Begin;
    forall id
      ensures Held(Begin(v, i), id) == Accepted(Begin(v, i), id) <= 1
    {
      HeldBegin(v, i, id);
      assert Held(v, id) == Accepted(v, id) <= 1;
    }
  }
}
