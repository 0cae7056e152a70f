/** Column commands are conserved: each one that reaches the device is used up by exactly one request, and a
    request that is answered from the device has used up exactly its burst. */
module VaultColumns {
  import opened Device
  import opened History
  import opened Tally
  import opened Vault
  import opened VaultRows
  import opened VaultActivity

  /** The column commands that a request below node `p` has used up. */
  function Used(cfg: Config, p: Path): Request -> int {
    (r: Request) => if r.kind != Refresh && |p| <= |r.vec| && r.vec[..|p|] == p then cfg.burst - r.burst else 0
  }

  function UsedFor(cfg: Config, p: Path): Response -> int { (a: Response) => Used(cfg, p)(a.req) }

  function UsedInQueues(cfg: Config, qs: Queues, p: Path): int {
    Sum(qs.read, Used(cfg, p)) + Sum(qs.write, Used(cfg, p))
  }

  function UsedForReplies(cfg: Config, rs: Replies, p: Path): int {
    Sum(rs.responses, UsedFor(cfg, p)) + Sum(rs.sent, UsedFor(cfg, p)) + Sum(rs.called, Used(cfg, p))
  }

  /** By all requests, waiting, pending and answered. */
  function UsedBelow(cfg: Config, v: Vault, p: Path): int {
    UsedInQueues(cfg, v.queues, p) + Sum(v.pending, Used(cfg, p)) + UsedForReplies(cfg, v.replies, p)
  }

  /** The column commands that were issued to banks below node `p`. */
  function Columns(h: seq<Event>, p: Path): nat { |Times(h, p, RD)| + |Times(h, p, WR)| }

  ghost predicate Matched(cfg: Config, v: Vault, p: Path) { Columns(v.issued.history, p) == UsedBelow(cfg, v, p) }

  lemma ColumnsSnoc(h: seq<Event>, e: Event, p: Path)
    ensures Columns(h + [e], p) == Columns(h, p) + if e.cmd in {RD, WR} && AtNode(e, p) then 1 else 0
  {
    TimesSnoc(h, e, p, RD);
    TimesSnoc(h, e, p, WR);
  }

  lemma UsedWith(cfg: Config, qs: Queues, k: Kind, q: seq<Request>, p: Path)
    ensures UsedInQueues(cfg, WithQueue(qs, k, q), p) ==
            UsedInQueues(cfg, qs, p) +
            if k == Refresh then 0 else Sum(q, Used(cfg, p)) - Sum(Queue(qs, k), Used(cfg, p))
  {
    hide Sum;
  }

  lemma UsedReplied(cfg: Config, rs: Replies, r: Request, p: Path)
    ensures UsedForReplies(cfg, Respond(cfg, rs, r), p) == UsedForReplies(cfg, rs, p) + Used(cfg, p)(r)
    ensures UsedForReplies(cfg, CallBack(rs, r), p) == UsedForReplies(cfg, rs, p) + Used(cfg, p)(r)
  {
    Append(rs.responses, Respond(cfg, rs, r).responses[|rs.responses|], UsedFor(cfg, p));
    Append(rs.called, r, Used(cfg, p));
    hide Sum;
  }

  lemma UsedReceive(cfg: Config, v: Vault, packet: Packet, p: Path)
    requires packet.req.kind != Refresh
    ensures UsedBelow(cfg, Receive(cfg, v, packet), p) == UsedBelow(cfg, v, p)
  {
    var r := Stamped(cfg, packet).req;
    var r' := r.(arrive := v.clk);
    Append(v.pending, r'.(depart := v.clk + 1), Used(cfg, p));
    Append(Queue(v.queues, r.kind), r', Used(cfg, p));
    UsedWith(cfg, v.queues, r.kind, Queue(v.queues, r.kind) + [r'], p);
    hide Accepts, Forwards, Sum, UsedInQueues, Queue, WithQueue;
  }

  lemma UsedComplete(cfg: Config, v: Vault, p: Path)
    ensures UsedBelow(cfg, Complete(cfg, v), p) == UsedBelow(cfg, v, p)
  {
    if v.pending != [] {
      RemoveFirst(v.pending, Used(cfg, p));
      UsedReplied(cfg, v.replies, v.pending[0], p);
    }
    hide Sum, UsedForReplies, Respond, CallBack;
  }

  lemma UsedSame(cfg: Config, v: Vault, w: Vault, p: Path)
    requires v.queues.read == w.queues.read && v.queues.write == w.queues.write
    requires v.pending == w.pending && v.replies == w.replies
    ensures UsedBelow(cfg, v, p) == UsedBelow(cfg, w, p)
  {
  }

  lemma UsedLeave(cfg: Config, v: Vault, p: Path)
    ensures UsedBelow(cfg, v.(replies := TakeResponse(v.replies)), p) == UsedBelow(cfg, v, p)
  {
    if v.replies.responses != [] {
      RemoveFirst(v.replies.responses, UsedFor(cfg, p));
      Append(v.replies.sent, v.replies.responses[0], UsedFor(cfg, p));
    }
    hide Sum;
  }

  lemma UsedBegin(cfg: Config, v: Vault, i: nat, p: Path)
    requires i < |ServedQueue(v)|
    ensures UsedBelow(cfg, Begin(v, i), p) == UsedBelow(cfg, v, p)
  {
    BeginFrame(v, i);
    UsedWith(cfg, v.queues, Serving(v), ServedQueue(Begin(v, i)), p);
    Update(ServedQueue(v), i, ServedQueue(v)[i].(first := false), Used(cfg, p));
    hide Begin, Sum, UsedInQueues, WithQueue;
  }

  /** A request's own column command is one more that it has used up. */
  lemma UsedFinish(cfg: Config, v: Vault, i: nat, p: Path)
    requires AllQueued(cfg, v.queues) && i < |ServedQueue(v)|
    ensures var r := ServedQueue(v)[i];
            UsedBelow(cfg, Finish(cfg, v, i), p) ==
            UsedBelow(cfg, v, p) + if r.kind != Refresh && |p| <= |r.vec| && r.vec[..|p|] == p then 1 else 0
  {
    hide Sum, UsedForReplies, UsedInQueues, Queue, WithQueue, Respond, Serving, AllQueued, Without, Finish;
    var k, q := Serving(v), ServedQueue(v);
    QueueOf(cfg, v.queues, k);
    assert Item(cfg, k, q[i]);
    var r := OneLess(q[i]);
    FinishFrame(cfg, v, i);
    if r.burst != 0 {
      UsedWith(cfg, v.queues, k, q[i := r], p);
      Update(q, i, r, Used(cfg, p));
    } else {
      UsedWith(cfg, v.queues, k, Without(q, i), p);
      Remove(q, i, Used(cfg, p));
      Append(v.pending, r.(depart := v.clk + ReadLatency(cfg)), Used(cfg, p));
      UsedReplied(cfg, v.replies, r, p);
    }
  }

  /** The command that is issued is a column command exactly if it is the own command of a read or write. */
  lemma ColumnsAreOwn(cfg: Config, h: seq<Event>, r: Request)
    requires Tame(cfg, h) && Aimed(cfg, r.kind, r.vec)
    ensures First(cfg, h, r) in {RD, WR} <==> First(cfg, h, r) == Column(r.kind) && r.kind != Refresh
  {
    if r.kind == Refresh {
      FirstForVault(cfg, h, r);
    } else {
      FirstForBank(cfg, h, r);
    }
  }

  lemma MatchedServe(cfg: Config, v: Vault, p: Path)
    requires AllQueued(cfg, v.queues) && Lawful(cfg, v) && Matched(cfg, v, p)
    ensures Matched(cfg, Serve(cfg, v), p)
  {
    hide Chosen, First, Serve, Begin, Finish, UsedBelow, Columns, AllQueued, RowsAgree, Tame;
    ServeIsStages(cfg, v);
    var i := Chosen(cfg, v);
    if i != -1 {
      var r := ServedQueue(v)[i];
      var c := First(cfg, v.issued.history, r);
      QueueOf(cfg, v.queues, Serving(v));
      assert Item(cfg, Serving(v), r);
      ColumnsAreOwn(cfg, v.issued.history, r);
      ColumnsSnoc(v.issued.history, Event(c, r.vec, v.clk), p);
      BeginFrame(v, i);
      UsedBegin(cfg, v, i, p);
      AllQueuedBegin(cfg, v, i);
      var v' := Issue(cfg, Begin(v, i), c, r.vec);
      UsedSame(cfg, Begin(v, i), v', p);
      if c == Column(r.kind) {
        UsedFinish(cfg, v', i, p);
        FinishFrame(cfg, v', i);
      }
    }
  }

  lemma MatchedStep(cfg: Config, v: Vault, a: Action, p: Path)
    requires AllQueued(cfg, v.queues) && Lawful(cfg, v) && Valid(cfg, v, a) && Matched(cfg, v, p)
    ensures Matched(cfg, Step(cfg, v, a), p)
  {
    hide AllQueued, Lawful, Receive, Complete, TickRefresh, DrainMode, Serve, UsedBelow, Columns;
    match a
    case Arrive(packet) =>
      UsedReceive(cfg, v, packet, p);
      ReceiveFrame(cfg, v, packet);
    case Cycle =>
      var u := v.(clk := v.clk + 1);
      var c := Complete(cfg, u);
      var t := TickRefresh(cfg, c);
      UsedSame(cfg, v, u, p);
      UsedComplete(cfg, u, p);
      TickRefreshFrame(cfg, c);
      UsedSame(cfg, c, t, p);
      DrainFrame(t);
      UsedSame(cfg, t, DrainMode(t), p);
      assert BeforeServe(cfg, v) == DrainMode(t);
      BeforeServeFrame(cfg, v);
      AllQueuedBefore(cfg, v);
      LawfulLater(cfg, v, BeforeServe(cfg, v));
      MatchedServe(cfg, BeforeServe(cfg, v), p);
    case Leave =>
      UsedLeave(cfg, v, p);
  }

  // ---------------------------------------------------------------- answered requests

  /** A request is answered with none of its burst left, or all of it if it is a read that was forwarded. */
  predicate Finished(cfg: Config, r: Request) {
    r.burst == if r.kind == Read && !WasServed(r) then cfg.burst else 0
  }

  predicate Unfinished(cfg: Config, r: Request) { 1 <= r.burst <= cfg.burst }

  ghost predicate AnsweredFinished(cfg: Config, rs: Replies) {
    && (forall a :: a in rs.responses ==> Finished(cfg, a.req))
    && (forall a :: a in rs.sent ==> Finished(cfg, a.req))
    && forall r :: r in rs.called ==> Finished(cfg, r)
  }

  ghost predicate Bursts(cfg: Config, v: Vault) {
    && (forall r :: r in v.queues.read || r in v.queues.write ==> Unfinished(cfg, r))
    && (forall r :: r in v.pending ==> Finished(cfg, r))
    && AnsweredFinished(cfg, v.replies)
  }

  lemma RespondFinished(cfg: Config, rs: Replies, r: Request)
    requires AnsweredFinished(cfg, rs) && Finished(cfg, r)
    ensures AnsweredFinished(cfg, Respond(cfg, rs, r)) && AnsweredFinished(cfg, CallBack(rs, r))
  {
    var responses := Respond(cfg, rs, r).responses;
    forall a | a in responses
      ensures Finished(cfg, a.req)
    {
      assert a in rs.responses || a == responses[|rs.responses|];
    }
    hide Finished;
  }

  lemma BurstsReceive(cfg: Config, v: Vault, packet: Packet)
    requires Bursts(cfg, v) && Usable(cfg) && packet.req.kind != Refresh
    ensures Bursts(cfg, Receive(cfg, v, packet))
  {
    hide Accepts, Forwards, AnsweredFinished;
    var r := Stamped(cfg, packet).req.(arrive := v.clk);
    var w := Receive(cfg, v, packet);
    assert w.replies == v.replies.(incoming := w.replies.incoming);
    assert AnsweredFinished(cfg, w.replies) == AnsweredFinished(cfg, v.replies) by {
      SameAnswers(cfg, v.replies, w.replies);
    }
    OnlyReadsAreForwarded(v, Stamped(cfg, packet).req);
    forall x | x in w.pending
      ensures Finished(cfg, x)
    {
      assert x in v.pending || x == r.(depart := v.clk + 1);
    }
    forall x | x in w.queues.read || x in w.queues.write
      ensures Unfinished(cfg, x)
    {
      assert x in v.queues.read || x in v.queues.write || x == r;
    }
  }

  lemma OnlyReadsAreForwarded(v: Vault, r: Request)
    ensures Forwards(v, r) ==> r.kind == Read
  {
  }

  lemma SameAnswers(cfg: Config, a: Replies, b: Replies)
    requires a.responses == b.responses && a.sent == b.sent && a.called == b.called
    ensures AnsweredFinished(cfg, a) == AnsweredFinished(cfg, b)
  {
  }

  lemma BurstsComplete(cfg: Config, v: Vault)
    requires Bursts(cfg, v)
    ensures Bursts(cfg, Complete(cfg, v))
  {
    hide AnsweredFinished, Finished, Unfinished, Respond, CallBack;
    if v.pending != [] {
      assert v.pending[0] in v.pending;
      RespondFinished(cfg, v.replies, v.pending[0]);
    }
  }

  lemma BurstsFinish(cfg: Config, v: Vault, i: nat)
    requires Bursts(cfg, v) && AllQueued(cfg, v.queues) && Arrived(v) && Usable(cfg) && i < |ServedQueue(v)|
    ensures Bursts(cfg, Finish(cfg, v, i))
  {
    hide AnsweredFinished, Respond, Finish, AllQueued;
    var k, q := Serving(v), ServedQueue(v);
    var r, w := OneLess(q[i]), Finish(cfg, v, i);
    QueueOf(cfg, v.queues, k);
    assert Item(cfg, k, q[i]) && q[i] in q;
    FinishFrame(cfg, v, i);
    WithoutIsWithin(q, i);
    if r.burst == 0 && r.kind == Write {
      RespondFinished(cfg, v.replies, r);
    }
    if r.burst == 0 && r.kind == Read {
      assert WasServed(r.(depart := v.clk + ReadLatency(cfg)));
    }
    assert forall x :: x in q[i := r] ==> x in q || x == r;
  }

  lemma BurstsServe(cfg: Config, v: Vault)
    requires Bursts(cfg, v) && AllQueued(cfg, v.queues) && Arrived(v) && Usable(cfg)
    ensures Bursts(cfg, Serve(cfg, v))
  {
    hide Chosen, First, Serve, Begin, Finish, AllQueued, AnsweredFinished, Finished;
    ServeIsStages(cfg, v);
    var i := Chosen(cfg, v);
    if i != -1 {
      var r := ServedQueue(v)[i];
      BeginFrame(v, i);
      AllQueuedBegin(cfg, v, i);
      var u := Begin(v, i);
      BurstsBegin(cfg, v, i);
      ArrivedBegin(v, i);
      var v' := Issue(cfg, u, First(cfg, v.issued.history, r), r.vec);
      ArrivedSame(u, v');
      BurstsFinish(cfg, v', i);
    }
  }

  lemma BurstsBegin(cfg: Config, v: Vault, i: nat)
    requires Bursts(cfg, v) && i < |ServedQueue(v)|
    ensures Bursts(cfg, Begin(v, i))
  {
    hide AnsweredFinished, Finished, Begin;
    var q := ServedQueue(v);
    BeginFrame(v, i);
    assert q[i] in q;
    assert forall x :: x in q[i := q[i].(first := false)] ==> x in q || x == q[i].(first := false);
  }

  lemma ArrivedBegin(v: Vault, i: nat)
    requires Arrived(v) && i < |ServedQueue(v)|
    ensures Arrived(Begin(v, i))
  {
    hide Begin;
    var q := ServedQueue(v);
    BeginFrame(v, i);
    assert q[i] in q;
    assert forall x :: x in q[i := q[i].(first := false)] ==> x in q || x == q[i].(first := false);
  }

  lemma BurstsStep(cfg: Config, v: Vault, a: Action)
    requires Bursts(cfg, v) && AllQueued(cfg, v.queues) && Arrived(v) && Usable(cfg) && Valid(cfg, v, a)
    ensures Bursts(cfg, Step(cfg, v, a))
  {
    hide AllQueued, Arrived, Receive, Complete, TickRefresh, DrainMode, Serve, Finished, Unfinished;
    match a
    case Arrive(packet) => BurstsReceive(cfg, v, packet);
    case Cycle =>
      var u := v.(clk := v.clk + 1);
      var t := TickRefresh(cfg, Complete(cfg, u));
      BurstsComplete(cfg, u);
      TickRefreshFrame(cfg, Complete(cfg, u));
      DrainFrame(t);
      assert BeforeServe(cfg, v) == DrainMode(t);
      BeforeServeFrame(cfg, v);
      AllQueuedBefore(cfg, v);
      ArrivedSame(v, BeforeServe(cfg, v));
      BurstsServe(cfg, BeforeServe(cfg, v));
    case Leave =>
      if v.replies.responses != [] {
        assert v.replies.responses[0] in v.replies.responses;
      }
  }
}
