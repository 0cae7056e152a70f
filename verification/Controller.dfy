/** The vault controller itself, updated in place: its queues, the tree of nodes, and the row table.  Each of
    its methods does to them exactly what the corresponding function of `Vault` says, and the assertions
    that the source makes on the way hold. */
module Controller {
  import opened Device
  import opened History
  import opened Activity
  import opened RowTable
  import opened Tally
  import opened DramTree
  import opened Vault
  import opened VaultRows
  import opened VaultRequests
  import opened VaultRefresh
  import opened VaultActivity
  import VaultRuns
  import opened Safety
  import S = Scheduler
  import V = Vault

  lemma Addressed(cfg: Config, k: Kind, vec: Address)
    requires Aimed(cfg, k, vec)
    ensures vec[..1] == [cfg.id]
    ensures forall l :: 1 <= l <= BANK && 0 < Dev(cfg).count[l] ==> vec[l] < Dev(cfg).count[l]
  {
  }

  class Controller {
    const cfg: Config
    const channel: Node
    const rowTable: RowTable

    var clk: int
    var writeMode: bool
    var queues: Queues
    var pending: seq<Request>
    var incoming: map<int, Packet>
    var responses: seq<Response>
    var timer: Timer

    /** What the fields stand for, with the history that led to them. */
    ghost var state: Vault

    ghost predicate Matches()
      reads this, rowTable, channel.Repr
    {
      DeviceMatches(state.issued, state.activity) && FieldsMatch()
    }

    ghost predicate DeviceMatches(issued: Issued, activity: seq<Change>)
      reads rowTable, channel.Repr
    {
      && channel.Shape() && channel.level == 0 && channel.path == [cfg.id] && channel.dev == Dev(cfg)
      && channel.TimingAgrees(issued.history) && channel.StatusAgrees(issued.history)
      && channel.ActivityAgrees(activity) && rowTable.table == issued.table
    }

    ghost predicate FieldsMatch()
      reads this
    {
      && clk == state.clk && writeMode == state.writeMode && queues == state.queues && pending == state.pending
      && incoming == state.replies.incoming && responses == state.replies.responses && timer == state.timer
    }

    ghost predicate Valid()
      reads this, rowTable, channel.Repr
    {
      Matches() && Usable(cfg) && VaultRuns.Core(cfg, state) && state.ok
    }

    constructor (cfg: Config)
      requires Usable(cfg)
      ensures Valid() && state == Init() && this.cfg == cfg
      ensures fresh(channel.Repr) && fresh(rowTable)
    {
      this.cfg := cfg;
      channel := new Node(Dev(cfg), VAULT, cfg.id, [cfg.id]);
      rowTable := new RowTable();
      clk, writeMode, queues, pending := 0, false, Queues([], [], []), [];
      incoming, responses, timer := map[], [], Timer(0, 0);
      state := Init();
      new;
      VaultRuns.InitInv(cfg);
    }

    // -------------------------------------------------------------- taking requests in

    method HasWrite(addr: int) returns (found: bool)
      ensures found == exists w :: w in queues.write && w.addr == addr
    {
      for k := 0 to |queues.write|
        invariant forall j :: 0 <= j < k ==> queues.write[j].addr != addr
      {
        if queues.write[k].addr == addr {
          return true;
        }
      }
      return false;
    }

    method Enqueue(r: Request) returns (ok: bool)
      requires Matches()
      modifies this
      ensures Matches() && state == V.Enqueue(old(state), r) && ok == Accepts(old(state), r)
      ensures timer == old(timer) && incoming == old(incoming)
      ensures var written := r.kind == Read && exists w :: w in old(queues.write) && w.addr == r.addr;
              && ok == (r.nmp || |Queue(old(queues), r.kind)| != QUEUE_MAX)
              && pending == old(pending) +
                            (if ok && written then [r.(arrive := old(clk), depart := old(clk) + 1)] else [])
              && queues == if !ok || written then old(queues)
                           else WithQueue(old(queues), r.kind, Queue(old(queues), r.kind) + [r.(arrive := old(clk))])
    {
      hide DeviceMatches;
      var queue := Queue(queues, r.kind);
      if !r.nmp && QUEUE_MAX == |queue| {
        return false;
      }
      ok := true;
      var req := r.(arrive := clk);
      queues := WithQueue(queues, r.kind, queue + [req]);
      if r.kind == Read {
        var forward := HasWrite(r.addr);
        if forward {
          pending := pending + [req.(depart := clk + 1)];
          queues := WithQueue(queues, Read, queues.read[..|queues.read| - 1]);
          assert queues == state.queues;
        }
      }
      state := V.Enqueue(state, r);
    }

    method Receive(packet: Packet) returns (ok: bool)
      requires Valid() && V.Valid(cfg, state, Arrive(packet))
      modifies this
      ensures Valid() && state == V.Receive(cfg, old(state), packet)
      ensures ok == Accepts(old(state), Stamped(cfg, packet).req)
    {
      hide VaultRuns.Core, V.Enqueue, V.Receive, Accepts, DeviceMatches, Usable;
      VaultRuns.StepCore(cfg, state, Arrive(packet));
      ReceiveFrame(cfg, state, packet);
      var stamped := packet.(req := packet.req.(burst := cfg.burst));
      incoming := incoming[packet.req.id := stamped];
      state := state.(replies := state.replies.(incoming := incoming));
      ok := Enqueue(stamped.req);
      state := state.(accepted := state.accepted + if ok then [stamped] else []);
      KeepThenEnqueue(cfg, old(state), packet);
    }

    // -------------------------------------------------------------- one clock cycle

    method FormResponse(r: Request)
      requires Matches() && r.id in incoming
      modifies this
      ensures Matches() && state == old(state).(replies := V.Respond(cfg, old(state).replies, r))
    {
      hide DeviceMatches;
      var packet := incoming[r.id];
      var lng := if r.kind == Write then 1 else 1 + cfg.payload;
      responses := responses + [Response(packet.cub, packet.tag, packet.slid, packet.cmd, lng, r)];
      incoming := incoming - {r.id};
      state := state.(replies := V.Respond(cfg, state.replies, r));
    }

    /** A request starts or finishes being served, and every node on its way is told. */
    method Report(vec: Address, delta: int)
      requires Matches() && InVault(cfg, vec) && delta in {1, -1}
      requires channel.Balanced(state.activity, vec, delta)
      modifies this`state, channel.Repr`current, channel.Repr`since, channel.Repr`requestCycles,
               channel.Repr`activeCycles
      ensures Matches() && state == old(state).(activity := old(state).activity + [Change(vec, delta, clk)])
    {
      hide Node.Balanced, Node.Shape, Node.TimingAgrees, Node.StatusAgrees, Node.ActivityAgrees, InVault;
      Addressed(cfg, Read, vec);
      channel.UpdateServing(vec, delta, clk, state.activity);
      state := state.(activity := state.activity + [Change(vec, delta, clk)]);
    }

    /** Reporting keeps the counts of the nodes from going below zero. */
    lemma MayReport(w: Vault, e: Change)
      requires forall p: Path :: Accounted(state, p) && Accounted(w, p)
      requires w.activity == state.activity + [e] && InVault(cfg, e.addr)
      ensures channel.Balanced(state.activity, e.addr, e.delta)
    {
      hide NeverNegative, InService, CounterAfter, Served;
      forall k | 1 <= k <= BANK + 1
        ensures 0 <= Served(state.activity, e.addr[..k]) && 0 <= Served(state.activity, e.addr[..k]) + e.delta
      {
        var p := e.addr[..k];
        assert Accounted(state, p) && Accounted(w, p);
        InServiceNonNegative(state, p);
        InServiceNonNegative(w, p);
        CounterSnoc(state.activity, e, p);
        assert Concerns(e, p);
      }
    }

    method CompleteRead()
      requires Matches() && Owed(cfg, state) && forall p: Path :: Accounted(state, p)
      modifies this, channel.Repr`current, channel.Repr`since, channel.Repr`requestCycles,
               channel.Repr`activeCycles
      ensures Matches() && state == V.Complete(cfg, old(state))
    {
      hide DeviceMatches, Accounted, Node.Balanced, InVault, AnswersSome;
      if |pending| != 0 {
        var r := pending[0];
        if r.depart <= clk {
          PendingIsBacked(cfg, state, r);
          ghost var after := V.Complete(cfg, state);
          if r.depart - r.arrive > 1 {
            forall p: Path
              ensures Accounted(after, p)
            {
              AccountedComplete(cfg, state, p);
            }
            MayReport(after, Change(r.vec, -1, clk));
            Report(r.vec, -1);
          }
          assert state.activity == after.activity && state.issued == after.issued;
          assert r.id in incoming;
          if r.nmp {
            // the request is answered by its callback, which is not part of this model
            incoming := incoming - {r.id};
          } else {
            FormResponse(r);
          }
          pending := pending[1..];
          state := after;
        }
      }
    }

    method TickRefresh()
      requires Matches() && (timer.clk + 1 - timer.refreshed >= cfg.speed.nREFI ==> |queues.other| != QUEUE_MAX)
      modifies this
      ensures Matches() && state == V.TickRefresh(cfg, old(state))
    {
      hide DeviceMatches, V.Enqueue;
      timer := timer.(clk := timer.clk + 1);
      state := state.(timer := timer);
      if timer.clk - timer.refreshed >= cfg.speed.nREFI {
        EnqueueAnytime(old(state), timer, RefreshRequest(cfg));
        var ok := Enqueue(RefreshRequest(cfg));
        assert ok;
        timer := timer.(refreshed := timer.clk);
        state := V.TickRefresh(cfg, old(state));
      }
    }

    method DrainMode()
      requires Matches()
      modifies this
      ensures Matches() && state == V.DrainMode(old(state))
    {
      hide DeviceMatches;
      if !writeMode {
        if |queues.write| >= HIGH_MARK || |queues.read| == 0 {
          writeMode := true;
        }
      } else {
        if |queues.write| <= LOW_MARK && |queues.read| != 0 {
          writeMode := false;
        }
      }
      state := V.DrainMode(state);
    }

    // -------------------------------------------------------------- serving a request

    function ServingQueue(): Kind
      reads this
    {
      if queues.other != [] then Refresh else if writeMode then Write else Read
    }

    method ViewOf(r: Request) returns (view: S.View)
      requires Matches() && Lawful(cfg, state) && Aimed(cfg, r.kind, r.vec)
      ensures view == V.ViewOf(cfg, state.issued.history, state.clk, r)
    {
      hide Node.Shape, Node.TimingAgrees, Node.StatusAgrees, Node.ActivityAgrees, Legal, RowsAgree, Tame, AllowsBelow;
      ghost var h := state.issued.history;
      Addressed(cfg, r.kind, r.vec);
      LawfulIsChronological(cfg, state);
      var cmd := channel.DecodeCommand(Column(r.kind), r.vec, h);
      channel.RowQueries(Column(r.kind), r.vec, h);
      view := S.View(channel.Check(cmd, r.vec, clk, h), channel.CheckRowHit(Column(r.kind), r.vec),
                     channel.CheckRowOpen(Column(r.kind), r.vec), Group(r.vec), r.arrive);
    }

    method ViewsOf(q: seq<Request>) returns (views: seq<S.View>)
      requires Matches() && Lawful(cfg, state) && forall i :: 0 <= i < |q| ==> Aimed(cfg, q[i].kind, q[i].vec)
      ensures |views| == |q|
      ensures forall i :: 0 <= i < |q| ==> views[i] == V.ViewOf(cfg, state.issued.history, state.clk, q[i])
    {
      hide Matches, Lawful, V.ViewOf, Aimed;
      views := [];
      for k := 0 to |q|
        invariant |views| == k
        invariant forall i :: 0 <= i < k ==> views[i] == V.ViewOf(cfg, state.issued.history, state.clk, q[i])
      {
        var view := ViewOf(q[k]);
        views := views + [view];
      }
    }

    /** The position of the request to work on, or -1. */
    method Choose() returns (i: int)
      requires Matches() && Lawful(cfg, state) && AllQueued(cfg, state.queues)
      ensures i == Chosen(cfg, state)
    {
      hide DeviceMatches, Lawful, V.ViewOf, S.IsHead, Aimed;
      var q := Queue(queues, ServingQueue());
      QueueOf(cfg, state.queues, Serving(state));
      assert forall j :: 0 <= j < |q| ==> Item(cfg, Serving(state), q[j]);
      var views := ViewsOf(q);
      assert views == Views(cfg, state);
      var head := S.GetHead(views);
      if head.None? {
        return -1;
      }
      S.HeadIsUnique(views, head.value, S.Head(views));
      i := if views[head.value].ready then head.value else -1;
    }

    method BeginService(i: nat)
      requires Matches() && i < |ServedQueue(state)| && AllQueued(cfg, state.queues)
      requires forall p: Path :: Accounted(state, p)
      modifies this, channel.Repr`current, channel.Repr`since, channel.Repr`requestCycles,
               channel.Repr`activeCycles
      ensures Matches() && state == V.Begin(old(state), i)
    {
      hide DeviceMatches, Accounted, Node.Balanced, AllQueued;
      var k := ServingQueue();
      var q := Queue(queues, k);
      var r := q[i];
      if r.first {
        QueueOf(cfg, state.queues, k);
        assert Item(cfg, k, r);
        ghost var after := V.Begin(state, i);
        if r.kind == Read || r.kind == Write {
          forall p: Path
            ensures Accounted(after, p)
          {
            AccountedBegin(cfg, state, i, p);
          }
          MayReport(after, Change(r.vec, 1, clk));
          Report(r.vec, 1);
        }
        assert state.activity == after.activity;
        queues := WithQueue(queues, k, q[i := r.(first := false)]);
        state := after;
      }
    }

    method IssueCommand(c: Command, vec: Address)
      requires Matches() && Lawful(cfg, state) && Fits(Dev(cfg), state.issued.table, c, vec)
      requires Allows(Dev(cfg), state.issued.history, c, vec, clk)
      requires Sent(cfg, Event(c, vec, clk))
      modifies this`state, rowTable, channel`curClk, channel.Repr`state, channel.Repr`rows, channel.Repr`next,
               channel.Repr`prev
      ensures Matches() && state == Issue(cfg, old(state), c, vec)
    {
      hide Node.Shape, Node.TimingAgrees, Node.StatusAgrees, Node.ActivityAgrees, Legal, Tame, AllowsBelow,
           TableAfter, Fits, RowsAgree;
      ghost var h := state.issued.history;
      Addressed(cfg, if c in {PREA, REF} then Refresh else Read, vec);
      LawfulIsChronological(cfg, state);
      assert channel.Check(c, vec, clk, h);
      channel.Update(c, vec, clk, h);
      RecordsAreBanks(cfg, state);
      rowTable.Update(Dev(cfg), c, vec, clk);
      state := Issue(cfg, state, c, vec);
    }

    method FinishRequest(i: nat)
      requires Matches() && i < |ServedQueue(state)| && AllQueued(cfg, state.queues) && Owed(cfg, state)
      requires !ServedQueue(state)[i].first && Arrived(state) && Usable(cfg)
      requires forall p: Path :: Accounted(state, p)
      modifies this, channel.Repr`current, channel.Repr`since, channel.Repr`requestCycles,
               channel.Repr`activeCycles
      ensures Matches() && state == V.Finish(cfg, old(state), i)
    {
      hide DeviceMatches, Accounted, Node.Balanced, AllQueued, Owed, Arrived, Respond;
      var k := ServingQueue();
      var q := Queue(queues, k);
      QueueOf(cfg, state.queues, k);
      assert Item(cfg, k, q[i]);
      ghost var after := V.Finish(cfg, state, i);
      FinishFrame(cfg, state, i);
      var r := OneLess(q[i]);
      if r.kind == Read && r.burst == 0 {
        r := r.(depart := clk + ReadLatency(cfg));
        pending := pending + [r];
      } else if r.kind == Write && r.burst == 0 {
        forall p: Path
          ensures Accounted(after, p)
        {
          AccountedFinish(cfg, state, i, p);
        }
        QueuedIsBacked(cfg, state, q[i]);
        MayReport(after, Change(r.vec, -1, clk));
        FormResponse(r);
        Report(r.vec, -1);
      }
      queues := WithQueue(queues, k, if r.burst == 0 then Without(q, i) else q[i := r]);
      state := after;
    }

    method Serve()
      requires Matches() && Prepared(cfg, state)
      modifies this, rowTable, channel.Repr
      ensures Matches() && state == V.Serve(cfg, old(state))
    {
      hide Matches, Prepared, Chosen, First, V.Begin, V.Finish, V.Serve, Accounted, Allows, Fits, TableAfter;
      ghost var v := state;
      MatchesQueues();
      ServeIsStages(cfg, v);
      PreparedSays(cfg, v);
      var i := Choose();
      if i == -1 {
        return;
      }
      var r := Queue(queues, ServingQueue())[i];
      ghost var c := First(cfg, v.issued.history, r);
      PreparedToServe(cfg, v, i);
      BeginService(i);
      ghost var begun := state;
      MatchesQueues();
      var cmd := FirstCommand(r);
      IssueCommand(cmd, r.vec);
      if cmd == Column(r.kind) {
        PreparedToFinish(cfg, v, i, state);
        FinishRequest(i);
      }
    }

    /** One clock cycle; a refresh that is due needs room in its queue. */
    method Tick()
      requires Valid() && !VaultRuns.RefusesRefresh(cfg, state)
      modifies this, rowTable, channel.Repr
      ensures Valid() && state == V.Tick(cfg, old(state))
    {
      hide DeviceMatches, VaultRuns.Core, Usable, Prepared, Accounted, V.Complete, V.TickRefresh, V.Serve, Owed;
      ghost var v := state;
      VaultRuns.StepCore(cfg, v, Cycle);
      VaultRuns.StepOk(cfg, v, Cycle);
      CycleStarts(cfg, v);
      clk := clk + 1;
      state := state.(clk := clk);
      CompleteRead();
      TickRefresh();
      DrainMode();
      assert state == BeforeServe(cfg, v);
      Serve();
    }

    /** The oldest response is taken away. */
    method TakeResponse()
      requires Valid()
      modifies this
      ensures Valid() && state == Step(cfg, old(state), Leave)
    {
      hide DeviceMatches, VaultRuns.Core, Usable;
      VaultRuns.StepCore(cfg, state, Leave);
      state := Step(cfg, state, Leave);
      if |responses| != 0 {
        responses := responses[1..];
      }
    }

    lemma MatchesQueues()
      requires Matches()
      ensures queues == state.queues && writeMode == state.writeMode && clk == state.clk && channel in channel.Repr
    {
    }

    method FirstCommand(r: Request) returns (cmd: Command)
      requires Matches() && Aimed(cfg, r.kind, r.vec)
      ensures cmd == First(cfg, state.issued.history, r)
    {
      hide Node.Shape, Node.TimingAgrees, Node.StatusAgrees, Node.ActivityAgrees;
      Addressed(cfg, r.kind, r.vec);
      cmd := channel.DecodeCommand(Column(r.kind), r.vec, state.issued.history);
    }
  }

  /** What the choice and the service of a request rely on. */
  ghost predicate Prepared(cfg: Config, v: Vault) {
    && AllQueued(cfg, v.queues) && Lawful(cfg, v) && Conserved(v) && Owed(cfg, v) && Arrived(v) && Usable(cfg)
    && forall p: Path :: Accounted(v, p)
  }

  lemma PreparedSays(cfg: Config, v: Vault)
    requires Prepared(cfg, v)
    ensures AllQueued(cfg, v.queues) && Lawful(cfg, v) && Usable(cfg) && forall p: Path :: Accounted(v, p)
  {
  }

  /** What the stages of a cycle need, from the invariant of runs. */
  lemma CycleStarts(cfg: Config, v: Vault)
    requires VaultRuns.Core(cfg, v) && !VaultRuns.RefusesRefresh(cfg, v) && Usable(cfg)
    ensures var u := v.(clk := v.clk + 1);
            && Owed(cfg, u) && (forall p: Path :: Accounted(u, p))
            && var c := V.Complete(cfg, u);
               (c.timer.clk + 1 - c.timer.refreshed >= cfg.speed.nREFI ==> |c.queues.other| != QUEUE_MAX)
    ensures Prepared(cfg, BeforeServe(cfg, v))
  {
    hide AllQueued, Lawful, Conserved, Owed, Prompt, Arrived, LogInOrder, Accounted, V.Complete, BeforeServe;
    var u, w := v.(clk := v.clk + 1), BeforeServe(cfg, v);
    OwedSame(cfg, v, u);
    CompleteFrame(cfg, u);
    VaultRuns.Prepared(cfg, v);
    BeforeServeFrame(cfg, v);
    ArrivedSame(v, w);
    forall p: Path
      ensures Accounted(u, p) && Accounted(w, p)
    {
      AccountedSame(v, u, p);
      AccountedBefore(cfg, v, p);
    }
  }

  /** Once it is chosen, a request can begin, and its first command be issued. */
  lemma PreparedToServe(cfg: Config, v: Vault, i: nat)
    requires Prepared(cfg, v) && i == Chosen(cfg, v)
    ensures var r, w := ServedQueue(v)[i], V.Begin(v, i);
            var c := First(cfg, v.issued.history, r);
            && Aimed(cfg, r.kind, r.vec) && w.issued == v.issued && w.clk == v.clk && Lawful(cfg, w)
            && Fits(Dev(cfg), v.issued.table, c, r.vec) && Allows(Dev(cfg), v.issued.history, c, r.vec, v.clk)
            && Sent(cfg, Event(c, r.vec, v.clk))
  {
    hide Lawful, Chosen, First, V.Begin, V.Serve, Accounted, Conserved, Owed, Arrived, Allows, Fits, TableAfter;
    var r := ServedQueue(v)[i];
    QueueOf(cfg, v.queues, Serving(v));
    assert Item(cfg, Serving(v), r);
    BeginFrame(v, i);
    LawfulLater(cfg, v, V.Begin(v, i));
    LawfulServe(cfg, v);
    ServeFrame(cfg, v);
    LawfulIsTame(cfg, v);
    FirstIsSent(cfg, v.issued.history, r, v.clk);
    var h' := v.issued.history + [Event(First(cfg, v.issued.history, r), r.vec, v.clk)];
    assert Sent(cfg, h'[|v.issued.history|]);
  }

  lemma LawfulIsTame(cfg: Config, v: Vault)
    requires Lawful(cfg, v)
    ensures Tame(cfg, v.issued.history)
  {
  }

  /** After its command was issued, a request can finish. */
  lemma PreparedToFinish(cfg: Config, v: Vault, i: nat, w: Vault)
    requires Prepared(cfg, v) && i < |ServedQueue(v)|
    requires w == V.Begin(v, i).(issued := w.issued, ok := w.ok)
    ensures AllQueued(cfg, w.queues) && Owed(cfg, w) && Arrived(w)
    ensures Serving(w) == Serving(v) && |ServedQueue(w)| == |ServedQueue(v)| && !ServedQueue(w)[i].first
    ensures forall p: Path :: Accounted(w, p)
  {
    hide Lawful, AllQueued, Accounted, Conserved, Owed, Arrived, V.Begin;
    var u := V.Begin(v, i);
    BeginFrame(v, i);
    BeginMarks(v, i);
    AllQueuedBegin(cfg, v, i);
    OwedBegin(cfg, v, i);
    OwedSame(cfg, u, w);
    ArrivedSame(u, w);
    forall p: Path
      ensures Accounted(w, p)
    {
      AccountedBegin(cfg, v, i, p);
      AccountedSame(u, w, p);
    }
  }

  lemma LawfulIsChronological(cfg: Config, v: Vault)
    requires Lawful(cfg, v)
    ensures Chronological(v.issued.history)
  {
  }

  lemma RecordsAreBanks(cfg: Config, v: Vault)
    requires Lawful(cfg, v)
    ensures forall g :: g in v.issued.table ==> |g| == ROW
  {
    forall g | g in v.issued.table
      ensures |g| == ROW
    {
      assert Records(cfg, v.issued.history, g, v.issued.table[g]);
    }
  }

  lemma QueuedIsBacked(cfg: Config, v: Vault, r: Request)
    requires Owed(cfg, v) && (r in v.queues.read || r in v.queues.write)
    ensures r.id in v.replies.incoming
  {
    assert Unanswered(v, r);
  }

  lemma PendingIsBacked(cfg: Config, v: Vault, r: Request)
    requires Owed(cfg, v) && r in v.pending
    ensures r.id in v.replies.incoming && InVault(cfg, r.vec)
  {
    assert Unanswered(v, r);
  }

  lemma EnqueueAnytime(v: Vault, timer: Timer, r: Request)
    ensures V.Enqueue(v.(timer := timer), r) == V.Enqueue(v, r).(timer := timer)
    ensures Accepts(v.(timer := timer), r) == Accepts(v, r)
  {
  }

  /** Enqueueing a request has nothing to do with the packets kept. */
  lemma KeepThenEnqueue(cfg: Config, v: Vault, p: Packet)
    ensures var p' := Stamped(cfg, p);
            var w := v.(replies := v.replies.(incoming := v.replies.incoming[p.req.id := p']));
            && Accepts(w, p'.req) == Accepts(v, p'.req)
            && V.Receive(cfg, v, p) ==
               V.Enqueue(w, p'.req).(accepted := v.accepted + if Accepts(v, p'.req) then [p'] else [])
            && V.Enqueue(w, p'.req).accepted == v.accepted
  {
  }
}