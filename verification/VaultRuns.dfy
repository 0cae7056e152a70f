/** Whole runs of a vault controller: any packets arriving at any times, any number of cycles, responses
    taken away at any times.  What holds in every state that a run reaches. */
module VaultRuns {
  import opened Device
  import opened History
  import opened BankState
  import A = Activity
  import opened RowTable
  import opened Safety
  import opened Tally
  import opened Vault
  import opened VaultRows
  import opened VaultRequests
  import opened VaultRefresh
  import opened VaultActivity
  import opened VaultColumns
  import opened VaultOrder

  /** What holds whatever the time between refreshes. */
  ghost predicate Core(cfg: Config, v: Vault) {
    && AllQueued(cfg, v.queues) && Lawful(cfg, v) && Conserved(v) && Owed(cfg, v)
    && Arrived(v) && LogInOrder(v) && forall p: Path :: Accounted(v, p)
  }

  /** What also holds if a refresh is over before the next one is due. */
  ghost predicate Inv(cfg: Config, v: Vault) { Core(cfg, v) && Prompt(cfg, v) && v.ok }

  lemma InitInv(cfg: Config)
    requires Usable(cfg)
    ensures Core(cfg, Init()) && (Timely(cfg) ==> Inv(cfg, Init()))
  {
    var v := Init();
    forall g: Path | OurBank(cfg, g)
      ensures StatusAfter(Dev(cfg), [], g).state == Closed
    {
    }
    assert Lawful(cfg, v);
    forall p: Path
      ensures Accounted(v, p)
    {
      assert A.Served(v.activity[..0], p) == 0;
    }
  }

  // ---------------------------------------------------------------- no assertion fails

  lemma OkServe(cfg: Config, v: Vault)
    requires AllQueued(cfg, v.queues) && Lawful(cfg, v) && Conserved(v) && Owed(cfg, v) && v.ok
    ensures Serve(cfg, v).ok
  {
    hide AllQueued, Lawful, Conserved, Owed, Chosen, Begin, Finish, First, Serve, Allows, Fits, TableAfter;
    ServeIsStages(cfg, v);
    ServeFrame(cfg, v);
    LawfulServe(cfg, v);
    var i := Chosen(cfg, v);
    if i != -1 {
      var r := ServedQueue(v)[i];
      BeginFrame(v, i);
      OwedBegin(cfg, v, i);
      AllQueuedBegin(cfg, v, i);
      ConservedBegin(v, i);
      var v' := Issue(cfg, Begin(v, i), First(cfg, v.issued.history, r), r.vec);
      OwedSame(cfg, Begin(v, i), v');
      ConservedSame(Begin(v, i), v');
      OwedFinish(cfg, v', i);
    }
  }

  /** The state in which a cycle chooses its command is as good as any. */
  lemma Prepared(cfg: Config, v: Vault)
    requires Core(cfg, v)
    ensures var w := BeforeServe(cfg, v); AllQueued(cfg, w.queues) && Lawful(cfg, w) && Conserved(w) && Owed(cfg, w)
  {
    hide AllQueued, Lawful, Conserved, Owed, Complete, TickRefresh, DrainMode, Prompt, Arrived, LogInOrder, Accounted;
    var u := v.(clk := v.clk + 1);
    var c := Complete(cfg, u);
    var t := TickRefresh(cfg, c);
    AllQueuedBefore(cfg, v);
    BeforeServeFrame(cfg, v);
    LawfulLater(cfg, v, BeforeServe(cfg, v));
    ConservedSame(v, u);
    OwedSame(cfg, v, u);
    OwedComplete(cfg, u);
    ConservedComplete(cfg, u);
    OwedTickRefresh(cfg, c);
    ConservedTickRefresh(cfg, c);
    DrainFrame(t);
    assert BeforeServe(cfg, v) == DrainMode(t);
    OwedSame(cfg, t, DrainMode(t));
    ConservedSame(t, DrainMode(t));
  }

  lemma ConservedComplete(cfg: Config, v: Vault)
    requires Conserved(v)
    ensures Conserved(Complete(cfg, v))
  {
    hide Held, Complete;
    CompleteFrame(cfg, v);
    forall id
      ensures Held(Complete(cfg, v), id) == Accepted(Complete(cfg, v), id) <= 1
    {
      HeldComplete(cfg, v, id);
      assert Held(v, id) == Accepted(v, id) <= 1;
    }
  }

  lemma ConservedTickRefresh(cfg: Config, v: Vault)
    requires Conserved(v)
    ensures Conserved(TickRefresh(cfg, v))
  {
    hide Held, TickRefresh;
    TickRefreshFrame(cfg, v);
    forall id
      ensures Held(TickRefresh(cfg, v), id) == Accepted(TickRefresh(cfg, v), id) <= 1
    {
      HeldTickRefresh(cfg, v, id);
      assert Held(v, id) == Accepted(v, id) <= 1;
    }
  }

  // ---------------------------------------------------------------- every reachable state

  lemma OwedStep(cfg: Config, v: Vault, a: Action)
    requires Core(cfg, v) && Valid(cfg, v, a)
    ensures Owed(cfg, Step(cfg, v, a))
  {
    hide AllQueued, Lawful, Conserved, Arrived, LogInOrder, Accounted, Receive, Serve, BeforeServe;
    match a
    case Arrive(p) =>
      BackedReceive(cfg, v, p);
      AnswersReceive(cfg, v, p);
      OlderReceive(cfg, v, p);
    case Cycle =>
      Prepared(cfg, v);
      OwedServe(cfg, BeforeServe(cfg, v));
    case Leave =>
      OwedLeave(cfg, v);
  }

  lemma OwedLeave(cfg: Config, v: Vault)
    requires Owed(cfg, v)
    ensures Owed(cfg, Step(cfg, v, Leave))
  {
    hide Backs, AnswersSome, CalledFor, Precedes;
    var w := Step(cfg, v, Leave);
    if v.replies.responses != [] {
      assert v.replies.responses[0] in v.replies.responses;
      assert forall a :: a in v.replies.responses[1..] ==> a in v.replies.responses;
    }
    forall r | Unanswered(w, r)
      ensures Backs(w.replies.incoming, w.accepted, r)
    {
      assert Unanswered(v, r);
    }
  }

  lemma StepCore(cfg: Config, v: Vault, a: Action)
    requires Core(cfg, v) && Valid(cfg, v, a) && Usable(cfg)
    ensures Core(cfg, Step(cfg, v, a))
  {
    hide AllQueued, Lawful, Conserved, Owed, Arrived, LogInOrder, Accounted, Step;
    AllQueuedStep(cfg, v, a);
    LawfulStep(cfg, v, a);
    ConservedStep(cfg, v, a);
    OwedStep(cfg, v, a);
    ArrivedStep(cfg, v, a);
    LogInOrderStep(cfg, v, a);
    forall p: Path
      ensures Accounted(Step(cfg, v, a), p)
    {
      AccountedStep(cfg, v, a, p);
    }
  }

  lemma StepInv(cfg: Config, v: Vault, a: Action)
    requires Inv(cfg, v) && Valid(cfg, v, a) && Usable(cfg) && Timely(cfg)
    ensures Inv(cfg, Step(cfg, v, a))
  {
    hide AllQueued, Lawful, Prompt, Conserved, Owed, Arrived, LogInOrder, Accounted, Step;
    StepCore(cfg, v, a);
    PromptStep(cfg, v, a);
    StepOk(cfg, v, a);
    NeverRefuses(cfg, v);
  }

  lemma {:induction false} RunCore(cfg: Config, run: seq<Vault>, actions: seq<Action>)
    requires Usable(cfg) && IsRun(cfg, run, actions)
    ensures Core(cfg, Last(run))
    decreases |actions|
  {
    hide Core, Step, Usable, Valid;
    if actions == [] {
      InitInv(cfg);
    } else {
      var n := |actions| - 1;
      RunBefore(cfg, run, actions);
      RunCore(cfg, run[..n + 1], actions[..n]);
      StepCore(cfg, run[n], actions[n]);
    }
  }

  lemma {:induction false} RunInv(cfg: Config, run: seq<Vault>, actions: seq<Action>)
    requires Usable(cfg) && Timely(cfg) && IsRun(cfg, run, actions)
    ensures Inv(cfg, Last(run))
    decreases |actions|
  {
    hide Inv, Core, Step, Usable, Timely, Valid;
    if actions == [] {
      InitInv(cfg);
    } else {
      var n := |actions| - 1;
      RunBefore(cfg, run, actions);
      RunInv(cfg, run[..n + 1], actions[..n]);
      StepInv(cfg, run[n], actions[n]);
    }
  }

  // ---------------------------------------------------------------- when an assertion can fail

  /** The cycle has a refresh to queue and no room for it. */
  predicate RefusesRefresh(cfg: Config, v: Vault) {
    v.timer.clk + 1 - v.timer.refreshed >= cfg.speed.nREFI && |v.queues.other| == QUEUE_MAX
  }

  lemma RefreshOk(cfg: Config, v: Vault)
    requires Owed(cfg, v)
    ensures BeforeServe(cfg, v).ok <==> v.ok && !RefusesRefresh(cfg, v)
  {
    hide Owed, Forwards, Complete;
    var u := v.(clk := v.clk + 1);
    OwedSame(cfg, v, u);
    CompleteOkExactly(cfg, u);
    CompleteFrame(cfg, u);
    DrainFrame(TickRefresh(cfg, Complete(cfg, u)));
    assert BeforeServe(cfg, v) == DrainMode(TickRefresh(cfg, Complete(cfg, u)));
  }

  lemma CompleteOkExactly(cfg: Config, v: Vault)
    requires Owed(cfg, v)
    ensures Complete(cfg, v).ok == v.ok
  {
    if v.pending != [] {
      assert Unanswered(v, v.pending[0]);
    }
  }

  /** If refreshes are further apart than one takes, there is always room for one. */
  lemma NeverRefuses(cfg: Config, v: Vault)
    requires Inv(cfg, v) && Timely(cfg)
    ensures !RefusesRefresh(cfg, v)
  {
    hide AllQueued, Conserved, Owed, Arrived, LogInOrder, Accounted, Lawful, Prompt;
    TimerTicks(cfg, v);
  }

  lemma FailedStays(cfg: Config, v: Vault)
    requires !v.ok
    ensures !Serve(cfg, v).ok
  {
    hide Chosen, First, Serve, Allows, Fits, TableAfter, Begin, Finish;
    ServeIsStages(cfg, v);
    var i := Chosen(cfg, v);
    if i != -1 {
      var r := ServedQueue(v)[i];
      BeginFrame(v, i);
      FinishFrame(cfg, Issue(cfg, Begin(v, i), First(cfg, v.issued.history, r), r.vec), i);
    }
  }

  lemma StepOk(cfg: Config, v: Vault, a: Action)
    requires Core(cfg, v)
    ensures Step(cfg, v, a).ok <==> v.ok && !(a.Cycle? && RefusesRefresh(cfg, v))
  {
    hide AllQueued, Lawful, Conserved, Owed, Arrived, LogInOrder, Accounted, Receive, Serve, BeforeServe;
    match a
    case Arrive(p) => ReceiveFrame(cfg, v, p);
    case Cycle =>
      Prepared(cfg, v);
      RefreshOk(cfg, v);
      if BeforeServe(cfg, v).ok {
        OkServe(cfg, BeforeServe(cfg, v));
      } else {
        FailedStays(cfg, BeforeServe(cfg, v));
      }
    case Leave =>
  }

  /** An assertion of the controller fails in a run exactly if some cycle has a refresh to queue and no room. */
  lemma {:induction false} OnlyRefreshesFail(cfg: Config, run: seq<Vault>, actions: seq<Action>)
    requires Usable(cfg) && IsRun(cfg, run, actions)
    ensures Last(run).ok <==>
            forall n :: 0 <= n < |actions| && actions[n].Cycle? ==> !RefusesRefresh(cfg, run[n])
    decreases |actions|
  {
    hide Core, Step, Usable, Valid, RefusesRefresh;
    if actions != [] {
      var m := |actions| - 1;
      RunBefore(cfg, run, actions);
      OnlyRefreshesFail(cfg, run[..m + 1], actions[..m]);
      RunCore(cfg, run[..m + 1], actions[..m]);
      StepOk(cfg, run[m], actions[m]);
      assert forall n :: 0 <= n < m ==> run[..m + 1][n] == run[n] && actions[..m][n] == actions[n];
    }
  }

  // ---------------------------------------------------------------- what runs guarantee

  /** None of the controller's assertions fails: answers find their packets, refreshes are taken in, issued
      commands are ready, and the row table has what it needs. */
  lemma NoAssertionFails(cfg: Config, run: seq<Vault>, actions: seq<Action>)
    requires Usable(cfg) && Timely(cfg) && IsRun(cfg, run, actions)
    ensures Last(run).ok
  {
    RunInv(cfg, run, actions);
  }

  /** The device is configured as a cube of one of its speed grades with a payload. */
  predicate IsCube(cfg: Config) {
    && cfg.speed in {HMC_2500, HMC_2500_UNLIMITED} && 0 < cfg.groups && 0 < cfg.banks
    && 0 <= cfg.payload && cfg.burst == BurstCount(cfg.payload)
  }

  /** Every cube refreshes in time, and is usable exactly if its payload has at least the two flits of one column
      command: a smaller one takes no column command at all. */
  lemma CubesAreUsable(cfg: Config)
    requires IsCube(cfg)
    ensures Timely(cfg) && (Usable(cfg) <==> 2 <= cfg.payload)
  {
  }

  lemma CubesNeverFail(cfg: Config, run: seq<Vault>, actions: seq<Action>)
    requires IsCube(cfg) && 2 <= cfg.payload && IsRun(cfg, run, actions)
    ensures Last(run).ok && RefreshesOnTime(cfg, Last(run))
  {
    CubesAreUsable(cfg);
    hide Usable, Timely, RefreshesOnTime, IsCube;
    NoAssertionFails(cfg, run, actions);
    RefreshesAreOnTime(cfg, run, actions);
  }

  /** Two commands that an entry of a node's table relates keep the entry's distance: `t.dist` commands of
      the first kind counted from position `i`, then the command at `j`. */
  lemma CommandsKeepTheirDistance(cfg: Config, run: seq<Vault>, actions: seq<Action>, p: Path, i: nat, j: nat, t: Entry)
    requires Usable(cfg) && IsRun(cfg, run, actions)
    requires var h := Last(run).issued.history;
             && i < j < |h| && AtNode(h[i], p) && Visits(Dev(cfg), h[j], p)
             && t in HmcTiming(cfg.speed, |p| - 1, h[i].cmd) && t.cmd == h[j].cmd
             && t.dist <= Occurrences(h, p, h[i].cmd, i, j)
    ensures var h := Last(run).issued.history; t.val <= h[j].clk - h[i].clk
  {
    RunCore(cfg, run, actions);
    CoreIsLegal(cfg, Last(run));
    hide IsRun, Core, Legal;
    HmcHasNoSiblingRules(cfg.speed, |p| - 1, Last(run).issued.history[i].cmd);
    RunsAreSafe(Dev(cfg), Last(run).issued.history, p, i, j, t);
  }

  /** The same in the device's own terms, for any two commands to the vault, a bank group or a bank. */
  lemma CommandsAreSpaced(cfg: Config, run: seq<Vault>, actions: seq<Action>, p: Path, i: nat, j: nat)
    requires Usable(cfg) && IsRun(cfg, run, actions)
    requires var h := Last(run).issued.history; i < j < |h| && AtNode(h[i], p) && Visits(Dev(cfg), h[j], p)
    ensures var h := Last(run).issued.history;
            && (|p| == 1 ==> VaultSpacing(cfg.speed, h[i].cmd, h[j].cmd, Gap(h, i, j)))
            && (|p| == 2 ==> GroupSpacing(cfg.speed, h[i].cmd, h[j].cmd, Gap(h, i, j)))
            && (|p| == 3 ==> BankCycle(cfg.speed, h[i].cmd, h[j].cmd, Gap(h, i, j)))
  {
    RunCore(cfg, run, actions);
    CoreIsLegal(cfg, Last(run));
    hide IsRun, Core, Legal, VaultSpacing, GroupSpacing, BankCycle;
    VaultRunsAreSpaced(cfg.speed, cfg.vaults, cfg.groups, cfg.banks, Last(run).issued.history, p, i, j);
  }

  lemma HmcHasNoSiblingRules(s: HmcSpeed, level: nat, c: Command)
    ensures forall t :: t in HmcTiming(s, level, c) ==> !t.sibling
  {
  }

  lemma FourActivates(cfg: Config, run: seq<Vault>, actions: seq<Action>, from: int)
    requires Usable(cfg) && IsRun(cfg, run, actions)
    ensures CountWithin(Times(Last(run).issued.history, [cfg.id], ACT), from, from + cfg.speed.nFAW) <= 4
  {
    RunCore(cfg, run, actions);
    hide IsRun, Legal, Core;
    CoreIsLegal(cfg, Last(run));
    AtMostFour(cfg, Last(run).issued.history, from);
  }

  lemma AtMostFour(cfg: Config, h: seq<Event>, from: int)
    requires Legal(Dev(cfg), h)
    ensures CountWithin(Times(h, [cfg.id], ACT), from, from + cfg.speed.nFAW) <= 4
  {
    hide Legal, HmcTiming, Times, CountWithin;
    FourActivatesPerVault(cfg.speed, cfg.vaults, cfg.groups, cfg.banks, h, cfg.id, from);
  }

  lemma CoreIsLegal(cfg: Config, v: Vault)
    requires Core(cfg, v)
    ensures Legal(Dev(cfg), v.issued.history)
  {
  }

  /** One refresh is due every `nREFI` cycles.  All that were due have been issued, each in its time, but for
      the last, which may still be queued, for less than `RefreshWait` cycles. */
  ghost predicate RefreshesOnTime(cfg: Config, v: Vault) {
    var due := |Refreshes(cfg, v.issued.history)| + |v.queues.other|;
    && cfg.speed.nREFI * due <= v.clk < cfg.speed.nREFI * (due + 1)
    && Punctual(cfg, v.issued.history) && |v.queues.other| <= 1
    && (cfg.speed.nREFI * due + RefreshWait(cfg) - 1 <= v.clk ==> v.queues.other == [])
  }

  lemma RefreshesAreOnTime(cfg: Config, run: seq<Vault>, actions: seq<Action>)
    requires Usable(cfg) && Timely(cfg) && IsRun(cfg, run, actions)
    ensures RefreshesOnTime(cfg, Last(run))
  {
    RunInv(cfg, run, actions);
    hide IsRun, RefreshesOnTime, Prompt;
    InvIsPrompt(cfg, Last(run));
    PromptSays(cfg, Last(run));
  }

  lemma InvIsPrompt(cfg: Config, v: Vault)
    requires Inv(cfg, v)
    ensures Prompt(cfg, v)
  {
  }

  lemma PromptSays(cfg: Config, v: Vault)
    requires Prompt(cfg, v)
    ensures RefreshesOnTime(cfg, v)
  {
    hide Refreshes, Punctual, QuietSince, AnyOpen;
    var due := |Refreshes(cfg, v.issued.history)| + |v.queues.other|;
    assert cfg.speed.nREFI * (due + 1) == cfg.speed.nREFI * due + cfg.speed.nREFI;
  }

  ghost predicate WasAccepted(v: Vault, id: int) { exists p :: p in v.accepted && p.req.id == id }

  /** An accepted request is in exactly one place, and any other is in none: waiting, pending, or answered
      once.  So when nothing waits, every accepted request was answered exactly once. */
  lemma EachRequestIsInOnePlace(cfg: Config, run: seq<Vault>, actions: seq<Action>, id: int)
    requires Usable(cfg) && IsRun(cfg, run, actions)
    ensures var v := Last(run);
            && Held(v, id) == (if WasAccepted(v, id) then 1 else 0)
            && (v.queues.read == [] && v.queues.write == [] && v.pending == [] ==>
                  Replied(v.replies, id) == if WasAccepted(v, id) then 1 else 0)
  {
    RunCore(cfg, run, actions);
    hide IsRun, Held, WasAccepted, Replied;
    var v := Last(run);
    AcceptedCounts(v, id);
    if v.queues.read == [] && v.queues.write == [] && v.pending == [] {
      IdleHolds(v, id);
    }
  }

  lemma AcceptedCounts(v: Vault, id: int)
    requires Conserved(v)
    ensures Held(v, id) == if WasAccepted(v, id) then 1 else 0
  {
    hide Held;
    assert Held(v, id) == Accepted(v, id) <= 1;
    if p :| p in v.accepted && p.req.id == id {
      var i :| 0 <= i < |v.accepted| && v.accepted[i] == p;
      Has(v.accepted, i, PacketIdIs(id));
    } else {
      Zero(v.accepted, PacketIdIs(id));
    }
  }

  lemma IdleHolds(v: Vault, id: int)
    requires v.queues.read == [] && v.queues.write == [] && v.pending == []
    ensures Held(v, id) == Replied(v.replies, id)
  {
  }

  /** Every answer is the answer to an accepted packet, and carries its header. */
  lemma AnswersMatch(cfg: Config, run: seq<Vault>, actions: seq<Action>, a: Response)
    requires Usable(cfg) && IsRun(cfg, run, actions)
    requires var v := Last(run); a in v.replies.responses || a in v.replies.sent
    ensures AnswersSome(cfg, Last(run).accepted, a)
  {
    RunCore(cfg, run, actions);
    hide IsRun, AnswersSome;
  }

  /** A bank is in the row table exactly if it is open, with the row that it has open and the number of
      column commands since it was opened. */
  lemma RowTableAgrees(cfg: Config, run: seq<Vault>, actions: seq<Action>, g: Path)
    requires Usable(cfg) && IsRun(cfg, run, actions) && OurBank(cfg, g)
    ensures var issued := Last(run).issued;
            var s := StatusAfter(Dev(cfg), issued.history, g);
            && (g in issued.table <==> s.state == Opened) && (s.state != Opened ==> s == Status(Closed, {}))
            && (g in issued.table ==>
                  s.rows == {issued.table[g].row} && issued.table[g].hits == Hits(issued.history, g))
  {
    RunCore(cfg, run, actions);
    hide IsRun, StatusAfter, Hits;
    var issued := Last(run).issued;
    OpenOrClosed(cfg, issued.history, g);
    if g in issued.table {
      assert Records(cfg, issued.history, g, issued.table[g]);
    }
  }

  /** When a cycle closes a bank for a request, no request of the queue being served hits its open row. */
  lemma HitsAreProtected(cfg: Config, run: seq<Vault>, actions: seq<Action>, j: nat)
    requires Usable(cfg) && IsRun(cfg, run, actions)
    requires var w := BeforeServe(cfg, Last(run));
             && Chosen(cfg, w) != -1 && First(cfg, w.issued.history, ServedQueue(w)[Chosen(cfg, w)]) == PRE
             && j < |ServedQueue(w)|
    ensures var w := BeforeServe(cfg, Last(run));
            var q := ServedQueue(w);
            Group(q[j].vec) == Group(q[Chosen(cfg, w)].vec) ==>
              !RowHit(Dev(cfg), w.issued.history, Column(q[j].kind), q[j].vec)
  {
    RunCore(cfg, run, actions);
    hide IsRun, BeforeServe, Core, Lawful, AllQueued, Chosen, First;
    Prepared(cfg, Last(run));
    CloseSparesHits(cfg, BeforeServe(cfg, Last(run)), j);
  }

  lemma {:induction false} QueuesAreOrdered(cfg: Config, run: seq<Vault>, actions: seq<Action>)
    requires IsRun(cfg, run, actions)
    ensures QueuesOrdered(Last(run))
    decreases |actions|
  {
    hide Step, Valid;
    if actions != [] {
      var n := |actions| - 1;
      RunBefore(cfg, run, actions);
      QueuesAreOrdered(cfg, run[..n + 1], actions[..n]);
      OrderedStep(cfg, run[n], actions[n]);
    }
  }

  /** The queues are in the order of arrival, so the request that a cycle works on is the first ready row hit of the
      served queue, if it has one. */
  lemma FirstHitIsServed(cfg: Config, run: seq<Vault>, actions: seq<Action>, i: nat)
    requires IsRun(cfg, run, actions)
    requires var w := BeforeServe(cfg, Last(run));
             var views := Views(cfg, w);
             && i < |views| && views[i].ready && views[i].hit
             && forall j :: 0 <= j < i ==> !(views[j].ready && views[j].hit)
    ensures Chosen(cfg, BeforeServe(cfg, Last(run))) == i
  {
    QueuesAreOrdered(cfg, run, actions);
    OrderedBefore(cfg, Last(run));
    var w := BeforeServe(cfg, Last(run));
    var views := Views(cfg, w);
    hide BeforeServe, QueuesOrdered, Scheduler.IsHead;
    OrderedOf(w, Serving(w));
    Scheduler.FirstHitIsHead(views, i);
    Scheduler.HeadIsUnique(views, i, Scheduler.Head(views));
  }

  /** The next command of a queued request may be issued now. */
  ghost predicate IsReady(cfg: Config, w: Vault, j: nat)
    requires j < |ServedQueue(w)|
  {
    var r, h := ServedQueue(w)[j], w.issued.history;
    Allows(Dev(cfg), h, Decode(Dev(cfg), h, Column(r.kind), r.vec), r.vec, w.clk)
  }

  ghost predicate IsHit(cfg: Config, w: Vault, j: nat)
    requires j < |ServedQueue(w)|
  {
    RowHit(Dev(cfg), w.issued.history, Column(ServedQueue(w)[j].kind), ServedQueue(w)[j].vec)
  }

  /** Another row of its bank is open, and some queued request hits that one. */
  ghost predicate SpoilsHit(cfg: Config, w: Vault, j: nat)
    requires j < |ServedQueue(w)|
  {
    var q := ServedQueue(w);
    && !IsHit(cfg, w, j) && RowOpen(Dev(cfg), w.issued.history, Column(q[j].kind), q[j].vec)
    && exists k :: 0 <= k < |q| && IsHit(cfg, w, k) && q[k].vec[..ROW] == q[j].vec[..ROW]
  }

  lemma SpoilingCloses(cfg: Config, w: Vault, j: nat)
    requires j < |ServedQueue(w)|
    ensures Scheduler.ClosesHitRow(Views(cfg, w), j) <==> SpoilsHit(cfg, w, j)
    ensures Views(cfg, w)[j].ready <==> IsReady(cfg, w, j)
    ensures Views(cfg, w)[j].hit <==> IsHit(cfg, w, j)
  {
    hide RowHit, RowOpen, Allows, Decode;
    var q, views := ServedQueue(w), Views(cfg, w);
    forall k | 0 <= k < |q|
      ensures views[k].hit <==> IsHit(cfg, w, k)
      ensures views[k].group == q[k].vec[..ROW]
    {
      assert views[k] == ViewOf(cfg, w.issued.history, w.clk, q[k]);
    }
    assert views[j] == ViewOf(cfg, w.issued.history, w.clk, q[j]);
  }

  /** If no request is a ready row hit, the first ready one that spoils no hit is served, if there is one; otherwise
      nothing is. */
  lemma FirstReadyIsServed(cfg: Config, run: seq<Vault>, actions: seq<Action>, i: nat)
    requires IsRun(cfg, run, actions)
    requires var w := BeforeServe(cfg, Last(run));
             && i <= |ServedQueue(w)|
             && (forall j: nat :: j < |ServedQueue(w)| && IsHit(cfg, w, j) ==> !IsReady(cfg, w, j))
             && (forall j: nat :: j < i && IsReady(cfg, w, j) ==> SpoilsHit(cfg, w, j))
             && (i < |ServedQueue(w)| ==> IsReady(cfg, w, i) && !SpoilsHit(cfg, w, i))
    ensures var w := BeforeServe(cfg, Last(run));
            Chosen(cfg, w) == if i < |ServedQueue(w)| then i else -1
  {
    QueuesAreOrdered(cfg, run, actions);
    OrderedBefore(cfg, Last(run));
    var w := BeforeServe(cfg, Last(run));
    var views := Views(cfg, w);
    hide BeforeServe, QueuesOrdered, Scheduler.IsHead, Scheduler.ClosesHitRow, SpoilsHit, IsReady, IsHit;
    OrderedOf(w, Serving(w));
    forall j: nat | j < |views|
      ensures Scheduler.ClosesHitRow(views, j) <==> SpoilsHit(cfg, w, j)
      ensures views[j].ready <==> IsReady(cfg, w, j)
      ensures views[j].hit <==> IsHit(cfg, w, j)
    {
      SpoilingCloses(cfg, w, j);
    }
    if i < |views| {
      Scheduler.FirstReadyIsHead(views, i);
      Scheduler.HeadIsUnique(views, i, Scheduler.Head(views));
    } else if Chosen(cfg, w) != -1 {
      Scheduler.HeadSpares(views, Chosen(cfg, w));
    }
  }

  /** The drain mode never leaves a cycle with an empty queue to serve while some request is queued. */
  lemma SomethingIsServed(cfg: Config, v: Vault)
    requires ServedQueue(BeforeServe(cfg, v)) == []
    ensures var qs := BeforeServe(cfg, v).queues; qs.read == [] && qs.write == [] && qs.other == []
  {
    hide Complete, TickRefresh;
    var t := TickRefresh(cfg, Complete(cfg, v.(clk := v.clk + 1)));
    assert BeforeServe(cfg, v) == DrainMode(t);
  }

  /** A queued read never has an older write to its address beside it: of the two packets, the read's was
      accepted first. */
  lemma QueuedWritesAreNewer(cfg: Config, run: seq<Vault>, actions: seq<Action>, r: Request, w: Request, i: nat, j: nat)
    requires Usable(cfg) && IsRun(cfg, run, actions)
    requires var v := Last(run);
             && r in v.queues.read && w in v.queues.write && r.addr == w.addr
             && i < |v.accepted| && j < |v.accepted| && v.accepted[i].req.id == r.id && v.accepted[j].req.id == w.id
    ensures i < j
  {
    RunCore(cfg, run, actions);
    hide IsRun;
    var v := Last(run);
    assert Precedes(v.accepted, r.id, w.id);
    var a, b :| 0 <= a < b < |v.accepted| && v.accepted[a].req.id == r.id && v.accepted[b].req.id == w.id;
    AcceptedOnce(v, a, i);
    AcceptedOnce(v, b, j);
  }

  lemma AcceptedOnce(v: Vault, i: nat, j: nat)
    requires Conserved(v) && i < |v.accepted| && j < |v.accepted| && v.accepted[i].req.id == v.accepted[j].req.id
    ensures i == j
  {
    hide Held, Sum;
    var id := v.accepted[i].req.id;
    assert Held(v, id) == Accepted(v, id) <= 1;
    if i != j {
      HasTwo(v.accepted, i, j, PacketIdIs(id));
    }
  }

  /** At every node the counters are exact: the requests in service now, and the sums over past cycles of
      their number and of the cycles that had any. */
  lemma CountersAreExact(cfg: Config, run: seq<Vault>, actions: seq<Action>, p: Path)
    requires Usable(cfg) && IsRun(cfg, run, actions)
    ensures var v := Last(run);
            var c := A.CounterAfter(v.activity, p);
            && c.current == InService(v, p) && 0 <= c.current
            && c.requestCycles == A.RequestCycles(v.activity, p, c.since)
            && c.activeCycles == A.ActiveCycles(v.activity, p, c.since)
  {
    RunCore(cfg, run, actions);
    hide IsRun;
    var v := Last(run);
    assert Accounted(v, p);
    InServiceNonNegative(v, p);
    A.CountersAreCycleSums(v.activity, p);
  }

  // ---------------------------------------------------------------- column commands

  lemma NoColumnsYet(cfg: Config, p: Path)
    requires Usable(cfg)
    ensures Matched(cfg, Init(), p) && Bursts(cfg, Init())
  {
  }

  /** Each column command issued below a node was used up by exactly one request: the requests that wait have used
      part of their burst, an answered one all of it, unless it is a read that was forwarded, which used none. */
  lemma {:induction false} ColumnCommandsAreUsedUp(cfg: Config, run: seq<Vault>, actions: seq<Action>, p: Path)
    requires Usable(cfg) && IsRun(cfg, run, actions)
    ensures Columns(Last(run).issued.history, p) == UsedBelow(cfg, Last(run), p)
    ensures Bursts(cfg, Last(run))
    decreases |actions|
  {
    hide Core, Step, Usable, Valid, UsedBelow, Columns, Bursts, Matched;
    if actions == [] {
      NoColumnsYet(cfg, p);
    } else {
      var n := |actions| - 1;
      var before, after := run[n], Last(run);
      RunBefore(cfg, run, actions);
      RunCore(cfg, run[..n + 1], actions[..n]);
      ColumnCommandsAreUsedUp(cfg, run[..n + 1], actions[..n], p);
      ColumnsStep(cfg, before, actions[n], p);
      assert after == Step(cfg, before, actions[n]);
    }
    MatchedMeans(cfg, Last(run), p);
  }

  lemma MatchedMeans(cfg: Config, v: Vault, p: Path)
    ensures Matched(cfg, v, p) <==> Columns(v.issued.history, p) == UsedBelow(cfg, v, p)
  {
  }

  lemma ColumnsStep(cfg: Config, v: Vault, a: Action, p: Path)
    requires Core(cfg, v) && Usable(cfg) && Valid(cfg, v, a) && Bursts(cfg, v)
    requires Columns(v.issued.history, p) == UsedBelow(cfg, v, p)
    ensures Matched(cfg, Step(cfg, v, a), p) && Bursts(cfg, Step(cfg, v, a))
  {
    hide AllQueued, Lawful, Conserved, Owed, Arrived, LogInOrder, Accounted, Step, UsedBelow, Columns, Bursts;
    MatchedStep(cfg, v, a, p);
    BurstsStep(cfg, v, a);
  }

  // ---------------------------------------------------------------- draining writes

  lemma StepKeepsMode(cfg: Config, v: Vault, a: Action)
    ensures var w := Step(cfg, v, a);
            w.writeMode == if !a.Cycle? then v.writeMode
                           else if v.writeMode then |v.queues.write| > LOW_MARK || v.queues.read == []
                           else |v.queues.write| >= HIGH_MARK || v.queues.read == []
  {
    hide Receive, Complete, TickRefresh, Serve;
    match a
    case Arrive(p) => ReceiveFrame(cfg, v, p);
    case Cycle =>
      var u := v.(clk := v.clk + 1);
      CompleteFrame(cfg, u);
      TickRefreshFrame(cfg, Complete(cfg, u));
      TickRefreshKeepsMode(cfg, u);
      ServeKeepsMode(cfg, BeforeServe(cfg, v));
    case Leave =>
  }

  lemma TickRefreshKeepsMode(cfg: Config, v: Vault)
    ensures TickRefresh(cfg, Complete(cfg, v)).writeMode == v.writeMode
  {
    hide Accepts, Forwards, Respond, CallBack;
  }

  lemma ServeKeepsMode(cfg: Config, v: Vault)
    ensures Serve(cfg, v).writeMode == v.writeMode
  {
    hide Chosen, First, Serve, Begin, Finish;
    ServeIsStages(cfg, v);
    var i := Chosen(cfg, v);
    if i != -1 {
      BeginFrame(v, i);
      var q := ServedQueue(v)[i];
      FinishFrame(cfg, Issue(cfg, Begin(v, i), First(cfg, v.issued.history, q), q.vec), i);
    }
  }

  /** Once writes drain, they go on draining while more than the low mark are queued; once reads are served, they go
      on being served while there are some, and fewer writes than the high mark. */
  lemma {:induction false} DrainingGoesOn(cfg: Config, run: seq<Vault>, actions: seq<Action>, i: nat, j: nat)
    requires IsRun(cfg, run, actions) && i <= j < |run|
    ensures run[i].writeMode && (forall k :: i <= k < j ==> |run[k].queues.write| > LOW_MARK) ==> run[j].writeMode
    ensures !run[i].writeMode &&
            (forall k :: i <= k < j ==> run[k].queues.read != [] && |run[k].queues.write| < HIGH_MARK) ==>
              !run[j].writeMode
    decreases j
  {
    hide Step, Valid;
    if i < j {
      DrainingGoesOn(cfg, run, actions, i, j - 1);
      StepKeepsMode(cfg, run[j - 1], actions[j - 1]);
      assert run[j - 1 + 1] == Step(cfg, run[j - 1], actions[j - 1]);
    }
  }
}
