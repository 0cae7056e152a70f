/** Every refresh is issued soon after it is due.  A queued refresh keeps reads and writes from the device,
    so the banks can be closed, and then refreshed, after a bounded wait. */
module VaultRefresh {
  import opened Device
  import opened History
  import opened BankState
  import opened Safety
  import opened RowTable
  import opened Vault
  import opened VaultRows
  import opened Wrappers

  /** The longest wait between the last command before a refresh is due and closing all banks. */
  function CloseWait(cfg: Config): int {
    var s := cfg.speed;
    Max(Max(Max(s.nRAS, s.nRTP), s.nCWL + s.nBL + s.nWR), 1)
  }

  /** A refresh that is due at a clock is issued less than this many cycles later. */
  function RefreshWait(cfg: Config): int {
    Max(CloseWait(cfg) + Max(cfg.speed.nRP, 1), cfg.speed.nRFC)
  }

  /** Refreshes are further apart than one can take. */
  predicate Timely(cfg: Config) { RefreshWait(cfg) <= cfg.speed.nREFI }

  ghost predicate NoneAfter(h: seq<Event>, c: Command, clk: int) {
    forall i :: 0 <= i < |h| && h[i].cmd == c ==> h[i].clk <= clk
  }

  /** No command that keeps the banks from being closed was issued after `clk`. */
  ghost predicate QuietSince(h: seq<Event>, clk: int) {
    NoneAfter(h, ACT, clk) && NoneAfter(h, RD, clk) && NoneAfter(h, WR, clk) && NoneAfter(h, PRE, clk)
  }

  function Refreshes(cfg: Config, h: seq<Event>): seq<int> { Times(h, [cfg.id], REF) }

  /** The `k`-th refresh was issued in the cycles that follow the `k`-th multiple of `nREFI`. */
  ghost predicate Punctual(cfg: Config, h: seq<Event>) {
    var ts := Refreshes(cfg, h);
    forall i :: 0 <= i < |ts| ==>
      cfg.speed.nREFI * (|ts| - i) <= ts[i] < cfg.speed.nREFI * (|ts| - i) + RefreshWait(cfg)
  }

  /** The refresh that was due at `due` is still queued at `clk`, in good time. */
  ghost predicate Waiting(cfg: Config, h: seq<Event>, due: int, clk: int, slack: int) {
    && clk - due < RefreshWait(cfg) - slack
    && QuietSince(h, due - 1)
    && if AnyOpen(Dev(cfg), h, [cfg.id])
       then clk - due < CloseWait(cfg) - slack && NoneAfter(h, PREA, due - 1)
       else NoneAfter(h, PREA, due - 1 + CloseWait(cfg))
  }

  /** The refresh timer, and at most one queued refresh; `slack` is how much of its time is used up.  */
  ghost predicate OnTime(cfg: Config, v: Vault, slack: int) {
    var n, due := |v.queues.other|, v.timer.refreshed;
    && v.timer.clk == v.clk && 0 <= v.clk - due < cfg.speed.nREFI && n <= 1
    && due == cfg.speed.nREFI * (|Refreshes(cfg, v.issued.history)| + n)
    && Punctual(cfg, v.issued.history)
    && (n == 1 ==> Waiting(cfg, v.issued.history, due, v.clk, slack))
  }

  /** At the end of a cycle. */
  ghost predicate Prompt(cfg: Config, v: Vault) { OnTime(cfg, v, 1) }

  // ---------------------------------------------------------------- when a refresh may go on

  lemma CloseRules(s: HmcSpeed, a: Command, t: Entry)
    requires t in HmcVault(s, a) && t.cmd == PREA
    ensures t.dist == 1 && !t.sibling
    ensures || (a == RD && t.val == s.nRTP) || (a == WR && t.val == s.nCWL + s.nBL + s.nWR)
            || (a == ACT && t.val == s.nRAS) || a == PDX
  {
  }

  lemma RefreshRules(s: HmcSpeed, a: Command, t: Entry)
    requires t in HmcVault(s, a) && t.cmd == REF
    ensures t.dist == 1 && !t.sibling
    ensures (a in {PREA, PRE} && t.val == s.nRP) || (a == REF && t.val == s.nRFC) || a in {PDX, SRX}
  {
  }

  lemma {:induction false} TimesBounded(h: seq<Event>, p: Path, c: Command, clk: int)
    requires NoneAfter(h, c, clk)
    ensures forall i :: 0 <= i < |Times(h, p, c)| ==> Times(h, p, c)[i] <= clk
  {
    if h != [] {
      TimesBounded(h[..|h| - 1], p, c, clk);
    }
  }

  lemma {:induction false} NotSent(cfg: Config, h: seq<Event>, p: Path, c: Command)
    requires Tame(cfg, h) && c in {PDX, SRX, RDA, WRA}
    ensures Times(h, p, c) == []
  {
    if h != [] {
      NotSent(cfg, h[..|h| - 1], p, c);
      assert Sent(cfg, h[|h| - 1]);
    }
  }

  lemma WholeVaultAllows(cfg: Config, h: seq<Event>, c: Command, vec: Address, clk: int)
    requires WholeVault(cfg, vec)
    ensures Allows(Dev(cfg), h, c, vec, clk) <==> NodeAllows(Dev(cfg), h, [cfg.id], c, clk)
  {
    hide NodeAllows, AllowsBelow, HmcTiming;
    assert vec[..1] == [cfg.id];
    assert Depth(Dev(cfg), c, vec, 0) == 0;
    AllowsStep(Dev(cfg), h, c, vec, clk, 0);
  }

  lemma MayClose(cfg: Config, h: seq<Event>, vec: Address, due: int, clk: int)
    requires Tame(cfg, h) && WholeVault(cfg, vec) && QuietSince(h, due - 1) && due - 1 + CloseWait(cfg) <= clk
    ensures Allows(Dev(cfg), h, PREA, vec, clk)
  {
    WholeVaultAllows(cfg, h, PREA, vec, clk);
    forall a: Command, t: Entry | t in HmcVault(cfg.speed, a) && t.cmd == PREA
      ensures Elapsed(Past(h, [cfg.id], a, t), t, clk)
    {
      CloseRules(cfg.speed, a, t);
      if a == PDX {
        NotSent(cfg, h, [cfg.id], a);
      } else {
        TimesBounded(h, [cfg.id], a, due - 1);
      }
    }
  }

  lemma MayRefresh(cfg: Config, h: seq<Event>, vec: Address, due: int, clk: int)
    requires Tame(cfg, h) && WholeVault(cfg, vec) && Timely(cfg)
    requires NoneAfter(h, PRE, due - 1) && NoneAfter(h, PREA, due - 1 + CloseWait(cfg))
    requires Punctual(cfg, h) && due == cfg.speed.nREFI * (|Refreshes(cfg, h)| + 1)
    requires due + RefreshWait(cfg) - 1 <= clk
    ensures Allows(Dev(cfg), h, REF, vec, clk)
  {
    WholeVaultAllows(cfg, h, REF, vec, clk);
    var n := |Refreshes(cfg, h)|;
    forall a: Command, t: Entry | t in HmcVault(cfg.speed, a) && t.cmd == REF
      ensures Elapsed(Past(h, [cfg.id], a, t), t, clk)
    {
      RefreshRules(cfg.speed, a, t);
      if a in {PDX, SRX} {
        NotSent(cfg, h, [cfg.id], a);
      } else if a == REF {
        assert cfg.speed.nREFI * (n + 1) == cfg.speed.nREFI * n + cfg.speed.nREFI;
      } else {
        TimesBounded(h, [cfg.id], a, if a == PRE then due - 1 else due - 1 + CloseWait(cfg));
      }
    }
  }

  lemma NothingOpen(cfg: Config, h: seq<Event>, vec: Address, clk: int)
    requires WholeVault(cfg, vec)
    ensures !AnyOpen(Dev(cfg), h + [Event(PREA, vec, clk)], [cfg.id])
  {
    var dev, e := Dev(cfg), Event(PREA, vec, clk);
    forall q: Path | IsBank(dev, q) && Extends(q, [cfg.id])
      ensures StatusAfter(dev, h + [e], q).state == Closed
    {
      StatusSnoc(dev, h, e, q);
      assert q[..1] == vec[..1];
    }
  }

  // ---------------------------------------------------------------- one cycle

  lemma NoneAfterSnoc(h: seq<Event>, e: Event, c: Command, clk: int)
    ensures NoneAfter(h + [e], c, clk) <==> NoneAfter(h, c, clk) && (e.cmd == c ==> e.clk <= clk)
  {
    assert (h + [e])[|h|] == e;
    assert forall i :: 0 <= i < |h| ==> (h + [e])[i] == h[i];
  }

  lemma RefreshesSnoc(cfg: Config, h: seq<Event>, e: Event)
    requires Sent(cfg, e)
    ensures Refreshes(cfg, h + [e]) == (if e.cmd == REF then [e.clk] else []) + Refreshes(cfg, h)
    ensures Punctual(cfg, h) && e.cmd != REF ==> Punctual(cfg, h + [e])
  {
    TimesSnoc(h, e, [cfg.id], REF);
    assert e.addr[..1] == [cfg.id];
  }

  lemma PunctualAgain(cfg: Config, h: seq<Event>, e: Event)
    requires Punctual(cfg, h) && Sent(cfg, e) && e.cmd == REF
    requires var due := cfg.speed.nREFI * (|Refreshes(cfg, h)| + 1); due <= e.clk < due + RefreshWait(cfg)
    ensures Punctual(cfg, h + [e])
  {
    RefreshesSnoc(cfg, h, e);
    var ts, ts' := Refreshes(cfg, h), Refreshes(cfg, h + [e]);
    forall i | 0 <= i < |ts'|
      ensures cfg.speed.nREFI * (|ts'| - i) <= ts'[i] < cfg.speed.nREFI * (|ts'| - i) + RefreshWait(cfg)
    {
      if i > 0 {
        assert ts'[i] == ts[i - 1] && |ts'| - i == |ts| - (i - 1);
      }
    }
    hide RefreshWait, Refreshes;
  }

  /** The refresh timer runs; when it is due, the previous refresh has long been issued. */
  lemma TimerTicks(cfg: Config, v: Vault)
    requires Prompt(cfg, v) && Timely(cfg) && Lawful(cfg, v)
    ensures OnTime(cfg, BeforeServe(cfg, v), 0)
    ensures v.timer.clk + 1 - v.timer.refreshed >= cfg.speed.nREFI ==> v.queues.other == []
  {
    hide Complete, AnyOpen, Refreshes, Legal, Tame, RowsAgree;
    var u := v.(clk := v.clk + 1);
    var c := Complete(cfg, u);
    CompleteFrame(cfg, u);
    TickRefreshFrame(cfg, c);
    DrainFrame(TickRefresh(cfg, c));
    assert BeforeServe(cfg, v) == DrainMode(TickRefresh(cfg, c));
    var n, h := |Refreshes(cfg, v.issued.history)|, v.issued.history;
    if v.clk + 1 - v.timer.refreshed >= cfg.speed.nREFI {
      assert v.queues.other == [];
      assert cfg.speed.nREFI * (n + 1) == cfg.speed.nREFI * n + cfg.speed.nREFI;
    }
    hide Punctual;
  }

  /** While a refresh is queued, it is the only request that is served. */
  lemma RefreshAlone(cfg: Config, v: Vault)
    requires AllQueued(cfg, v.queues) && |v.queues.other| == 1
    ensures var r := v.queues.other[0];
            var c := First(cfg, v.issued.history, r);
            && Serving(v) == Refresh && WholeVault(cfg, r.vec)
            && c == (if AnyOpen(Dev(cfg), v.issued.history, [cfg.id]) then PREA else REF)
            && if !Allows(Dev(cfg), v.issued.history, c, r.vec, v.clk) then Serve(cfg, v) == v
               else
                 && Serve(cfg, v).issued.history == v.issued.history + [Event(c, r.vec, v.clk)]
                 && |Serve(cfg, v).queues.other| == if c == REF then 0 else 1
  {
    hide Allows, AnyOpen, First, Serve, Begin, Finish, TableAfter, Fits;
    var q := v.queues.other;
    assert Item(cfg, Refresh, q[0]);
    FirstForVault(cfg, v.issued.history, q[0]);
    assert Views(cfg, v)[0] == ViewOf(cfg, v.issued.history, v.clk, q[0]);
    ServeIsStages(cfg, v);
    if Chosen(cfg, v) != -1 {
      var c := First(cfg, v.issued.history, q[0]);
      BeginFrame(v, 0);
      FinishFrame(cfg, Issue(cfg, Begin(v, 0), c, q[0].vec), 0);
    }
  }

  /** A command that is not a refresh changes nothing about refreshes. */
  lemma OtherCommand(cfg: Config, h: seq<Event>, r: Request, clk: int)
    requires Tame(cfg, h) && r.kind != Refresh && InVault(cfg, r.vec)
    ensures var h' := h + [Event(First(cfg, h, r), r.vec, clk)];
            Refreshes(cfg, h') == Refreshes(cfg, h) && (Punctual(cfg, h) ==> Punctual(cfg, h'))
  {
    hide First, Punctual, Refreshes;
    FirstForBank(cfg, h, r);
    var e := Event(First(cfg, h, r), r.vec, clk);
    RefreshesSnoc(cfg, h, e);
  }

  lemma PromptWithout(cfg: Config, v: Vault)
    requires AllQueued(cfg, v.queues) && Tame(cfg, v.issued.history)
    requires OnTime(cfg, v, 0) && v.queues.other == []
    ensures Prompt(cfg, Serve(cfg, v))
  {
    hide Chosen, Begin, Finish, First, Serve, AnyOpen, Refreshes, Punctual, TableAfter, Fits, Tame, Waiting, AllQueued;
    ServeIsStages(cfg, v);
    ServeClock(cfg, v);
    var i := Chosen(cfg, v);
    if i != -1 {
      var r := ServedQueue(v)[i];
      QueueOf(cfg, v.queues, Serving(v));
      assert Item(cfg, Serving(v), r);
      OtherCommand(cfg, v.issued.history, r, v.clk);
      BeginFrame(v, i);
      FinishFrame(cfg, Issue(cfg, Begin(v, i), First(cfg, v.issued.history, r), r.vec), i);
    }
  }

  /** Banks are open: they are closed now, or there is still time. */
  lemma WaitingClosed(cfg: Config, h: seq<Event>, due: int, clk: int, vec: Address)
    requires Tame(cfg, h) && Timely(cfg) && WholeVault(cfg, vec)
    requires Waiting(cfg, h, due, clk, 0) && AnyOpen(Dev(cfg), h, [cfg.id])
    ensures if Allows(Dev(cfg), h, PREA, vec, clk) then Waiting(cfg, h + [Event(PREA, vec, clk)], due, clk, 1)
            else Waiting(cfg, h, due, clk, 1)
  {
    hide Tame, AnyOpen, NoneAfter, QuietSince, Allows;
    var e := Event(PREA, vec, clk);
    if due - 1 + CloseWait(cfg) <= clk {
      MayClose(cfg, h, vec, due, clk);
    }
    NothingOpen(cfg, h, vec, clk);
    QuietSnoc(h, e, due - 1);
    CloseSnoc(h, e, due - 1, due - 1 + CloseWait(cfg));
  }

  /** All banks are closed: the refresh is issued now, or there is still time. */
  lemma WaitingRefreshed(cfg: Config, h: seq<Event>, due: int, clk: int, vec: Address)
    requires Tame(cfg, h) && Timely(cfg) && WholeVault(cfg, vec) && Punctual(cfg, h) && due <= clk
    requires due == cfg.speed.nREFI * (|Refreshes(cfg, h)| + 1)
    requires Waiting(cfg, h, due, clk, 0) && !AnyOpen(Dev(cfg), h, [cfg.id])
    ensures if Allows(Dev(cfg), h, REF, vec, clk) then Punctual(cfg, h + [Event(REF, vec, clk)])
            else Waiting(cfg, h, due, clk, 1)
  {
    hide Tame, AnyOpen, NoneAfter, Punctual, Refreshes, Allows;
    if due + RefreshWait(cfg) - 1 <= clk {
      MayRefresh(cfg, h, vec, due, clk);
    }
    PunctualAgain(cfg, h, Event(REF, vec, clk));
  }

  lemma PromptWith(cfg: Config, v: Vault)
    requires AllQueued(cfg, v.queues) && Tame(cfg, v.issued.history) && Timely(cfg)
    requires OnTime(cfg, v, 0) && v.queues.other != []
    ensures Prompt(cfg, Serve(cfg, v))
  {
    hide Serve, First, Refreshes, Punctual, AllQueued, Tame, AnyOpen, Waiting, Allows;
    var h, due, r := v.issued.history, v.timer.refreshed, v.queues.other[0];
    RefreshAlone(cfg, v);
    ServeClock(cfg, v);
    if AnyOpen(Dev(cfg), h, [cfg.id]) {
      WaitingClosed(cfg, h, due, v.clk, r.vec);
      RefreshesSnoc(cfg, h, Event(PREA, r.vec, v.clk));
    } else {
      WaitingRefreshed(cfg, h, due, v.clk, r.vec);
      RefreshesSnoc(cfg, h, Event(REF, r.vec, v.clk));
    }
  }

  lemma PromptStep(cfg: Config, v: Vault, a: Action)
    requires AllQueued(cfg, v.queues) && Lawful(cfg, v) && Valid(cfg, v, a) && Timely(cfg) && Prompt(cfg, v)
    ensures Prompt(cfg, Step(cfg, v, a))
  {
    hide Receive, BeforeServe, Serve, AllQueued, AnyOpen, Refreshes, Punctual, QuietSince, NoneAfter;
    match a
    case Arrive(p) =>
      ReceiveFrame(cfg, v, p);
      assert Receive(cfg, v, p).queues.other == v.queues.other by {
        ReceiveOther(cfg, v, p);
      }
    case Cycle =>
      TimerTicks(cfg, v);
      AllQueuedBefore(cfg, v);
      BeforeServeFrame(cfg, v);
      var w := BeforeServe(cfg, v);
      if w.queues.other == [] {
        PromptWithout(cfg, w);
      } else {
        PromptWith(cfg, w);
      }
    case Leave =>
  }

  lemma ReceiveOther(cfg: Config, v: Vault, p: Packet)
    requires p.req.kind != Refresh
    ensures Receive(cfg, v, p).queues.other == v.queues.other
  {
    hide Accepts, Forwards;
  }

  lemma QuietSnoc(h: seq<Event>, e: Event, clk: int)
    requires QuietSince(h, clk) && e.cmd in {PREA, REF}
    ensures QuietSince(h + [e], clk)
  {
    hide NoneAfter;
    NoneAfterSnoc(h, e, ACT, clk);
    NoneAfterSnoc(h, e, RD, clk);
    NoneAfterSnoc(h, e, WR, clk);
    NoneAfterSnoc(h, e, PRE, clk);
  }

  lemma CloseSnoc(h: seq<Event>, e: Event, before: int, clk: int)
    requires NoneAfter(h, PREA, before) && before <= clk && e.clk <= clk
    ensures NoneAfter(h + [e], PREA, clk)
  {
    NoneAfterSnoc(h, e, PREA, clk);
  }

  lemma ServeClock(cfg: Config, v: Vault)
    ensures Serve(cfg, v).clk == v.clk && Serve(cfg, v).timer == v.timer
  {
    hide Chosen, Begin, Finish, First, Serve, TableAfter, Fits, Allows;
    ServeIsStages(cfg, v);
    var i := Chosen(cfg, v);
    if i != -1 {
      var r := ServedQueue(v)[i];
      BeginFrame(v, i);
      FinishFrame(cfg, Issue(cfg, Begin(v, i), First(cfg, v.issued.history, r), r.vec), i);
    }
  }
}
