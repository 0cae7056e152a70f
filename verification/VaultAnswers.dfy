/** When requests are answered: a pending read departs in time, and once no more packets arrive every accepted request
    is answered within a bounded number of cycles. */
module VaultAnswers {
  import opened Device
  import opened History
  import opened RowTable
  import opened Tally
  import opened Vault
  import opened VaultRows
  import opened VaultRequests
  import opened VaultRefresh
  import opened VaultRuns
  import opened VaultProgress

  /** The request was answered, by a response or by its callback. */
  ghost predicate Answered(v: Vault, r: Request) {
    || r in v.replies.called
    || exists a :: (a in v.replies.responses || a in v.replies.sent) && a.req == r
  }

  /** What was answered stays answered. */
  ghost predicate Keeps(rs: Replies, rs': Replies) {
    && (forall r :: r in rs.called ==> r in rs'.called)
    && forall a :: a in rs.responses || a in rs.sent ==> a in rs'.responses || a in rs'.sent
  }

  lemma KeepsResponding(cfg: Config, rs: Replies, r: Request)
    ensures Keeps(rs, rs) && Keeps(rs, Respond(cfg, rs, r)) && Keeps(rs, CallBack(rs, r)) && Keeps(rs, TakeResponse(rs))
  {
    assert rs.responses != [] ==> rs.responses == [rs.responses[0]] + rs.responses[1..];
  }

  lemma NowAnswered(cfg: Config, v: Vault, r: Request)
    ensures Answered(v.(replies := Respond(cfg, v.replies, r)), r)
    ensures Answered(v.(replies := CallBack(v.replies, r)), r)
  {
    var rs := Respond(cfg, v.replies, r);
    assert rs.responses[|v.replies.responses|].req == r;
    var cs := CallBack(v.replies, r);
    assert cs.called[|v.replies.called|] == r;
  }

  // ---------------------------------------------------------------- what a step does to pending reads

  predicate Departs(v: Vault) { v.pending != [] && v.pending[0].depart <= v.clk + 1 }

  /** A cycle lets the first pending read depart, if its time has come, and adds the read that it finishes. */
  ghost predicate PendingAfter(cfg: Config, v: Vault, w: Vault, more: seq<Request>) {
    && w.clk == v.clk + 1
    && w.pending == (if Departs(v) then v.pending[1..] else v.pending) + more
    && |w.queues.read| + |more| == |v.queues.read| && |more| <= 1
    && (forall r :: r in more ==> r.depart == w.clk + ReadLatency(cfg))
    && Keeps(v.replies, w.replies) && (Departs(v) ==> Answered(w, v.pending[0]))
  }

  /** What serving adds to the pending reads. */
  ghost predicate ServedTo(cfg: Config, v: Vault, w: Vault, more: seq<Request>) {
    && w.clk == v.clk && w.pending == v.pending + more
    && |w.queues.read| + |more| == |v.queues.read| && |more| <= 1
    && (forall r :: r in more ==> r.depart == w.clk + ReadLatency(cfg))
    && Keeps(v.replies, w.replies)
  }

  lemma FinishPending(cfg: Config, v: Vault, i: nat) returns (more: seq<Request>)
    requires AllQueued(cfg, v.queues) && i < |ServedQueue(v)|
    ensures ServedTo(cfg, v, Finish(cfg, v, i), more)
  {
    hide AllQueued, Finish, Respond, Keeps;
    var q, k := ServedQueue(v), Serving(v);
    var r := OneLess(q[i]);
    FinishFrame(cfg, v, i);
    ServedIs(cfg, v, i);
    KeepsResponding(cfg, v.replies, r);
    more := if r.burst == 0 && r.kind == Read then [r.(depart := v.clk + ReadLatency(cfg))] else [];
  }

  lemma BeginPending(cfg: Config, v: Vault, i: nat, u: Vault)
    requires i < |ServedQueue(v)| && u == Begin(v, i).(issued := u.issued, ok := u.ok)
    ensures u.clk == v.clk && u.pending == v.pending && |u.queues.read| == |v.queues.read| && u.replies == v.replies
  {
    hide Begin;
    BeginFrame(v, i);
  }

  lemma ServePending(cfg: Config, v: Vault) returns (more: seq<Request>)
    requires AllQueued(cfg, v.queues)
    ensures ServedTo(cfg, v, Serve(cfg, v), more)
  {
    hide AllQueued, Chosen, Begin, Finish, First, Serve, TableAfter, Fits, Respond, Keeps, Allows;
    ServeIsStages(cfg, v);
    var i := Chosen(cfg, v);
    more := [];
    KeepsResponding(cfg, v.replies, RefreshRequest(cfg));
    if i != -1 {
      var r := ServedQueue(v)[i];
      var v' := Issue(cfg, Begin(v, i), First(cfg, v.issued.history, r), r.vec);
      BeginPending(cfg, v, i, v');
      AllQueuedBegin(cfg, v, i);
      if First(cfg, v.issued.history, r) == Column(r.kind) {
        more := FinishPending(cfg, v', i);
      }
    }
  }

  lemma CompletePending(cfg: Config, v: Vault)
    ensures var u := Complete(cfg, v.(clk := v.clk + 1));
            && u.pending == (if Departs(v) then v.pending[1..] else v.pending)
            && Keeps(v.replies, u.replies) && (Departs(v) ==> Answered(u, v.pending[0]))
  {
    hide Respond, CallBack, Keeps, Answered;
    if v.pending != [] {
      KeepsResponding(cfg, v.replies, v.pending[0]);
      NowAnswered(cfg, Complete(cfg, v.(clk := v.clk + 1)), v.pending[0]);
      NowAnswered(cfg, v, v.pending[0]);
    }
    KeepsResponding(cfg, v.replies, RefreshRequest(cfg));
    if Departs(v) {
      var r, u := v.pending[0], Complete(cfg, v.(clk := v.clk + 1));
      SameReplies(v.(replies := if r.nmp then CallBack(v.replies, r) else Respond(cfg, v.replies, r)), u, r);
    }
  }

  lemma SameReplies(v: Vault, w: Vault, r: Request)
    requires v.replies == w.replies && Answered(v, r)
    ensures Answered(w, r)
  {
  }

  lemma KeepsAnswered(v: Vault, w: Vault, r: Request)
    requires Keeps(v.replies, w.replies) && Answered(v, r)
    ensures Answered(w, r)
  {
  }

  lemma CyclePending(cfg: Config, v: Vault) returns (more: seq<Request>)
    requires AllQueued(cfg, v.queues)
    ensures PendingAfter(cfg, v, Step(cfg, v, Cycle), more)
  {
    hide AllQueued, Complete, TickRefresh, Serve, Keeps, Answered;
    var u := v.(clk := v.clk + 1);
    var c := Complete(cfg, u);
    var b, w := BeforeServe(cfg, v), Step(cfg, v, Cycle);
    CompleteFrame(cfg, u);
    CompletePending(cfg, v);
    TickRefreshFrame(cfg, c);
    DrainFrame(TickRefresh(cfg, c));
    AllQueuedBefore(cfg, v);
    more := ServePending(cfg, b);
    KeepsTwice(v.replies, c.replies, w.replies);
    if Departs(v) {
      KeepsAnswered(c, w, v.pending[0]);
    }
  }

  lemma KeepsTwice(a: Replies, b: Replies, c: Replies)
    requires Keeps(a, b) && Keeps(b, c)
    ensures Keeps(a, c)
  {
  }

  // ---------------------------------------------------------------- one pending read

  ghost predicate AtPlace(v: Vault, r: Request, at: nat, latest: int) {
    at < |v.pending| && v.pending[at] == r && forall k :: 0 <= k <= at ==> v.pending[k].depart <= latest
  }

  /** The read that was at position `p` is answered, or has come closer to the front in each cycle since `latest`. */
  ghost predicate Tracked(v: Vault, r: Request, p: nat, latest: int) {
    Answered(v, r) || exists at: nat :: at <= p && AtPlace(v, r, at, latest) && v.clk < latest + p - at
  }

  lemma ReceivePending(cfg: Config, v: Vault, p: Packet)
    ensures var w := Receive(cfg, v, p); v.pending <= w.pending && Keeps(v.replies, w.replies) && w.clk == v.clk
  {
    hide Accepts, Forwards;
  }

  lemma TrackedStep(cfg: Config, v: Vault, a: Action, r: Request, p: nat, latest: int)
    requires AllQueued(cfg, v.queues) && Tracked(v, r, p, latest)
    ensures Tracked(Step(cfg, v, a), r, p, latest)
  {
    hide AllQueued, Receive, Tick, Keeps, Answered;
    var w := Step(cfg, v, a);
    match a {
      case Arrive(packet) => ReceivePending(cfg, v, packet);
      case Cycle =>
        var more := CyclePending(cfg, v);
      case Leave => KeepsResponding(cfg, v.replies, RefreshRequest(cfg));
    }
    if Answered(v, r) {
      KeepsAnswered(v, w, r);
    } else {
      var at: nat :| at <= p && AtPlace(v, r, at, latest) && v.clk < latest + p - at;
      if !a.Cycle? || !Departs(v) {
        assert AtPlace(w, r, at, latest);
      } else if at > 0 {
        assert AtPlace(w, r, at - 1, latest);
      }
    }
  }

  lemma CoreAt(cfg: Config, run: seq<Vault>, actions: seq<Action>, k: nat)
    requires Usable(cfg) && IsRun(cfg, run, actions) && k < |run|
    ensures Core(cfg, run[k]) && AllQueued(cfg, run[k].queues)
    ensures k < |actions| ==> run[k + 1] == Step(cfg, run[k], actions[k])
  {
    hide Step, Valid, Usable, Core, AllQueued;
    assert Last(run[..k + 1]) == run[k];
    RunCore(cfg, run[..k + 1], actions[..k]);
    CoreSays(cfg, run[k]);
  }

  lemma CoreSays(cfg: Config, v: Vault)
    requires Core(cfg, v)
    ensures AllQueued(cfg, v.queues) && Conserved(v)
  {
  }

  lemma {:induction false} TrackedRun(cfg: Config, run: seq<Vault>, actions: seq<Action>, i: nat, p: nat, latest: int,
                                      j: nat)
    requires Usable(cfg) && IsRun(cfg, run, actions) && i <= j < |run| && p < |run[i].pending|
    requires run[i].clk < latest && forall k :: 0 <= k <= p ==> run[i].pending[k].depart <= latest
    ensures Tracked(run[j], run[i].pending[p], p, latest)
    decreases j
  {
    hide Step, Valid, Usable, Core, AllQueued, Answered;
    if i == j {
      assert AtPlace(run[i], run[i].pending[p], p, latest);
    } else {
      TrackedRun(cfg, run, actions, i, p, latest, j - 1);
      CoreAt(cfg, run, actions, j - 1);
      TrackedStep(cfg, run[j - 1], actions[j - 1], run[i].pending[p], p, latest);
    }
  }

  /** A pending read is answered, exactly once, within one cycle for each read up to it, from when all of these might
      depart; until then other packets may arrive. */
  lemma PendingIsAnswered(cfg: Config, run: seq<Vault>, actions: seq<Action>, i: nat, p: nat, latest: int, j: nat)
    requires Usable(cfg) && IsRun(cfg, run, actions) && i <= j < |run| && p < |run[i].pending|
    requires run[i].clk < latest && forall k :: 0 <= k <= p ==> run[i].pending[k].depart <= latest
    requires latest + p <= run[j].clk
    ensures var r, v := run[i].pending[p], run[j];
            && Answered(v, r) && Replied(v.replies, r.id) == 1
            && forall q :: q in v.pending || q in v.queues.read || q in v.queues.write ==> q.id != r.id
  {
    hide Step, Valid, Usable, Core, AllQueued, Answered, IsRun, Replied;
    TrackedRun(cfg, run, actions, i, p, latest, j);
    CoreAt(cfg, run, actions, j);
    AnsweredIsGone(cfg, run[j], run[i].pending[p]);
  }

  lemma AnsweredIsGone(cfg: Config, v: Vault, r: Request)
    requires Core(cfg, v) && Answered(v, r)
    ensures Replied(v.replies, r.id) == 1
    ensures forall q :: q in v.pending || q in v.queues.read || q in v.queues.write ==> q.id != r.id
  {
    hide Core, AllQueued, Sum, Held, Accepted, Replied, Answered;
    var f := IdIs(r.id);
    CoreSays(cfg, v);
    AnsweredCounts(v, r);
    HeldParts(v, r.id);
    assert Held(v, r.id) == Accepted(v, r.id) <= 1;
    forall q | q in v.pending || q in v.queues.read || q in v.queues.write
      ensures q.id != r.id
    {
      if i :| 0 <= i < |v.pending| && v.pending[i] == q {
        Has(v.pending, i, f);
      } else if i :| 0 <= i < |v.queues.read| && v.queues.read[i] == q {
        Has(v.queues.read, i, f);
      } else {
        var i :| 0 <= i < |v.queues.write| && v.queues.write[i] == q;
        Has(v.queues.write, i, f);
      }
    }
  }

  lemma HeldParts(v: Vault, id: int)
    ensures var f := IdIs(id);
            && Held(v, id) ==
                 Sum(v.queues.read, f) + Sum(v.queues.write, f) + Sum(v.pending, f) + Replied(v.replies, id)
            && 0 <= Sum(v.queues.read, f) && 0 <= Sum(v.queues.write, f) && 0 <= Sum(v.pending, f)
  {
    hide Sum;
    NonNegative(v.queues.read, IdIs(id));
    NonNegative(v.queues.write, IdIs(id));
    NonNegative(v.pending, IdIs(id));
  }

  lemma AnsweredCounts(v: Vault, r: Request)
    requires Answered(v, r)
    ensures 1 <= Replied(v.replies, r.id)
  {
    hide Sum;
    var rs, f, g := v.replies, IdIs(r.id), ResponseIdIs(r.id);
    NonNegative(rs.responses, g);
    NonNegative(rs.sent, g);
    NonNegative(rs.called, f);
    if i :| 0 <= i < |rs.called| && rs.called[i] == r {
      Has(rs.called, i, f);
    } else if i :| 0 <= i < |rs.responses| && rs.responses[i].req == r {
      Has(rs.responses, i, g);
    } else {
      var i :| 0 <= i < |rs.sent| && rs.sent[i].req == r;
      Has(rs.sent, i, g);
    }
  }

  // ---------------------------------------------------------------- all of them

  /** No pending read departs later than this, and there are no more pending reads than that. */
  ghost predicate Pending(v: Vault, latest: int, size: nat) {
    |v.pending| <= size && forall k :: 0 <= k < |v.pending| ==> v.pending[k].depart <= latest
  }

  /** Reads only move from the queue to the pending ones, and from there to the answered ones. */
  lemma PendingStep(cfg: Config, v: Vault, a: Action)
    requires AllQueued(cfg, v.queues) && !a.Arrive? && Usable(cfg)
    requires Pending(v, v.clk + ReadLatency(cfg), |v.pending|)
    ensures var w := Step(cfg, v, a);
            && Pending(w, w.clk + ReadLatency(cfg), |w.pending|)
            && |w.queues.read| + |w.pending| <= |v.queues.read| + |v.pending|
  {
    hide AllQueued, Tick, Keeps, Answered, Usable;
    if a.Cycle? {
      var more := CyclePending(cfg, v);
    }
  }

  lemma DepartsSoon(cfg: Config, v: Vault, a: Action)
    requires AllQueued(cfg, v.queues) && Usable(cfg) && Pending(v, v.clk + ReadLatency(cfg), |v.pending|)
    ensures var w := Step(cfg, v, a); Pending(w, w.clk + ReadLatency(cfg), |w.pending|)
  {
    hide AllQueued, Tick, Keeps, Answered;
    match a
    case Arrive(p) => ReceivedSoon(cfg, v, p);
    case Cycle =>
      var more := CyclePending(cfg, v);
    case Leave =>
  }

  lemma ReceivedSoon(cfg: Config, v: Vault, p: Packet)
    requires Usable(cfg) && Pending(v, v.clk + ReadLatency(cfg), |v.pending|)
    ensures var w := Receive(cfg, v, p); Pending(w, w.clk + ReadLatency(cfg), |w.pending|)
  {
    hide Accepts, Forwards;
  }

  /** Every pending read departs within the read latency. */
  lemma {:induction false} AllDepartSoon(cfg: Config, run: seq<Vault>, actions: seq<Action>, k: nat)
    requires Usable(cfg) && IsRun(cfg, run, actions) && k < |run|
    ensures Pending(run[k], run[k].clk + ReadLatency(cfg), |run[k].pending|)
    decreases k
  {
    hide Step, Valid, Usable, Core, AllQueued;
    if k > 0 {
      AllDepartSoon(cfg, run, actions, k - 1);
      CoreAt(cfg, run, actions, k - 1);
      DepartsSoon(cfg, run[k - 1], actions[k - 1]);
    }
  }

  lemma {:induction false} ReadsFall(cfg: Config, run: seq<Vault>, actions: seq<Action>, i: nat, j: nat)
    requires Usable(cfg) && IsRun(cfg, run, actions) && i <= j < |run| && NoArrivals(actions, i, j)
    ensures |run[j].queues.read| + |run[j].pending| <= |run[i].queues.read| + |run[i].pending|
    decreases j
  {
    hide Step, Valid, Usable, Core, AllQueued, Pending;
    if i < j {
      ReadsFall(cfg, run, actions, i, j - 1);
      AllDepartSoon(cfg, run, actions, j - 1);
      CoreAt(cfg, run, actions, j - 1);
      PendingStep(cfg, run[j - 1], actions[j - 1]);
    }
  }

  /** Nothing is queued, and the pending reads depart one in each cycle, once they may. */
  ghost predicate Emptying(v: Vault, latest: int, size: nat) {
    && v.queues.read == [] && v.queues.write == [] && Pending(v, latest, size)
    && (v.pending != [] ==> v.clk + |v.pending| <= latest + size)
  }

  lemma EmptyingStep(cfg: Config, v: Vault, a: Action, latest: int, size: nat)
    requires AllQueued(cfg, v.queues) && !a.Arrive? && Emptying(v, latest, size)
    requires Step(cfg, v, a).queues.read == [] && Step(cfg, v, a).queues.write == []
    ensures Emptying(Step(cfg, v, a), latest, size)
  {
    hide AllQueued, Tick, Keeps, Answered;
    if a.Cycle? {
      var more := CyclePending(cfg, v);
    }
  }

  lemma {:induction false} EmptyingRun(cfg: Config, run: seq<Vault>, actions: seq<Action>, i: nat, j: nat,
                                       latest: int, size: nat)
    requires Usable(cfg) && Timely(cfg) && IsRun(cfg, run, actions) && i <= j < |run| && NoArrivals(actions, i, j)
    requires Emptying(run[i], latest, size)
    ensures Emptying(run[j], latest, size)
    decreases j
  {
    hide Step, Valid, Usable, Timely, Core, Inv, AllQueued, Lawful, Prompt, Left, Pending;
    if i < j {
      EmptyingRun(cfg, run, actions, i, j - 1, latest, size);
      CoreAt(cfg, run, actions, j - 1);
      CoreAt(cfg, run, actions, j);
      LeftFalls(cfg, run, actions, j - 1, j);
      NothingLeft(cfg, run[j - 1]);
      NothingLeft(cfg, run[j]);
      EmptyingStep(cfg, run[j - 1], actions[j - 1], latest, size);
    }
  }

  /** When everything is answered, once nothing arrives any more. */
  function AnswerTime(cfg: Config, v: Vault, w: nat): int {
    ServiceTime(cfg, w) * Left(v) + ReadLatency(cfg) + |v.queues.read| + |v.pending|
  }

  /** Once nothing arrives any more, every accepted read and write is answered exactly once, in time. */
  lemma AllIsAnswered(cfg: Config, run: seq<Vault>, actions: seq<Action>, i: nat, j: nat, w: nat, id: int)
    requires Usable(cfg) && IsRun(cfg, run, actions) && i <= j < |run| && NoArrivals(actions, i, j)
    requires LongestWait(cfg.speed, w) && Roomy(cfg, w)
    requires run[i].clk + AnswerTime(cfg, run[i], w) < run[j].clk
    ensures var v := run[j];
            && v.queues.read == [] && v.queues.write == [] && v.pending == []
            && Replied(v.replies, id) == if WasAccepted(v, id) then 1 else 0
  {
    hide Step, Valid, Usable, Timely, Core, AllQueued, Left, ServiceTime, LongestWait, Roomy, ReadLatency, WasAccepted,
         Replied;
    RoomyIsTimely(cfg, w);
    var k := DrainedAt(cfg, run, actions, i, j, w);
    AllDepartSoon(cfg, run, actions, k);
    ReadsFall(cfg, run, actions, i, k);
    LatencyIs(cfg);
    var latest, size := run[k].clk + ReadLatency(cfg), |run[i].queues.read| + |run[i].pending|;
    assert Emptying(run[k], latest, size);
    EmptyingRun(cfg, run, actions, k, j, latest, size);
    assert Last(run[..j + 1]) == run[j];
    EachRequestIsInOnePlace(cfg, run[..j + 1], actions[..j], id);
  }

  lemma DrainedAt(cfg: Config, run: seq<Vault>, actions: seq<Action>, i: nat, j: nat, w: nat) returns (k: nat)
    requires Usable(cfg) && IsRun(cfg, run, actions) && i <= j < |run| && NoArrivals(actions, i, j)
    requires LongestWait(cfg.speed, w) && Roomy(cfg, w)
    requires run[i].clk + AnswerTime(cfg, run[i], w) < run[j].clk
    ensures i <= k <= j && run[k].queues.read == [] && run[k].queues.write == []
    ensures run[k].clk == run[i].clk + ServiceTime(cfg, w) * Left(run[i])
  {
    hide Step, Valid, Usable, Timely, Core, AllQueued, Left, ServiceTime, LongestWait, Roomy;
    var clk := run[i].clk + ServiceTime(cfg, w) * Left(run[i]);
    CoreAt(cfg, run, actions, i);
    NothingLeft(cfg, run[i]);
    SomeService(cfg, w);
    Monotone(0, Left(run[i]), ServiceTime(cfg, w));
    assert 1 < ReadLatency(cfg) by {
      LatencyIs(cfg);
    }
    k := i;
    if run[i].clk < clk {
      var m := CycleAt(cfg, run, actions, i, j, clk);
      k := m + 1;
    }
    QueuesDrain(cfg, run, actions, i, k, w);
  }

  lemma LatencyIs(cfg: Config)
    requires Usable(cfg)
    ensures 1 < ReadLatency(cfg)
  {
  }

  // ---------------------------------------------------------------- the device's own numbers

  /** All that the tables of a device are made of. */
  predicate Within(s: HmcSpeed, w: int) {
    && s.nBL <= w && s.nCCDS <= w && s.nCCDL <= w && s.nCL + s.nCCDS + 2 - s.nCWL <= w && s.nRTP + s.nRP <= w
    && s.nRTP <= w && s.nCL + s.nBL + 1 <= w && s.nCWL + s.nBL + s.nWTRS <= w && s.nCWL + s.nBL + s.nWTRL <= w
    && s.nCWL + s.nBL + s.nWR + 1 <= w && s.nCWL + s.nBL + s.nWR + s.nRP <= w && s.nXP <= w && s.nRRDS <= w
    && s.nRRDL <= w && s.nFAW <= w && s.nRAS <= w && s.nRC <= w && s.nRCD <= w && s.nRP <= w && s.nRFC <= w
    && s.nXS <= w && s.nPD <= w && s.nCKESR <= w && 1 <= w
  }

  lemma RuleWithin(s: HmcSpeed, w: int, level: nat, a: Command, t: Entry)
    requires Within(s, w) && t in HmcTiming(s, level, a)
    ensures t.val <= w
  {
    if level == VAULT {
      assert t in HmcVault(s, a);
    } else if level == BANK_GROUP {
      assert t in HmcBankGroup(s, a);
    } else {
      assert t in HmcBank(s, a);
    }
  }

  /** Every cube has room between its refreshes, unless its vaults have thousands of banks. */
  lemma CubesAreRoomy(cfg: Config)
    requires IsCube(cfg) && Banks(cfg) < 8950
    ensures LongestWait(cfg.speed, 200) && Roomy(cfg, 200)
  {
    hide Banks, HmcTiming;
    assert Within(cfg.speed, 200);
    hide Within;
    forall level: nat, a: Command, t: Entry | t in HmcTiming(cfg.speed, level, a)
      ensures t.val <= 200
    {
      RuleWithin(cfg.speed, 200, level, a, t);
    }
  }

  lemma CubesAnswer(cfg: Config, run: seq<Vault>, actions: seq<Action>, i: nat, j: nat, id: int)
    requires IsCube(cfg) && 2 <= cfg.payload && Banks(cfg) < 8950
    requires IsRun(cfg, run, actions) && i <= j < |run| && NoArrivals(actions, i, j)
    requires run[i].clk + AnswerTime(cfg, run[i], 200) < run[j].clk
    ensures Replied(run[j].replies, id) == if WasAccepted(run[j], id) then 1 else 0
  {
    CubesAreUsable(cfg);
    CubesAreRoomy(cfg);
    hide IsCube, Usable, Timely, LongestWait, Roomy, Replied, WasAccepted, AnswerTime, IsRun;
    AllIsAnswered(cfg, run, actions, i, j, 200, id);
  }
}
