/** Progress of a vault controller: a command is issued whenever the device has been left alone long enough, and once no
    more packets arrive all queued reads and writes are served within a bounded number of cycles, whatever refreshes and
    changes of the drain mode come in between. */
module VaultProgress {
  import opened Device
  import opened History
  import opened BankState
  import opened RowTable
  import opened Tally
  import opened Vault
  import opened VaultRows
  import opened VaultRefresh
  import opened VaultRuns

  /** No rule of the timing tables asks for more than `w` cycles. */
  ghost predicate LongestWait(s: HmcSpeed, w: nat) {
    1 <= w && forall level: nat, c: Command, t: Entry :: t in HmcTiming(s, level, c) ==> t.val <= w
  }

  ghost predicate AllBefore(h: seq<Event>, clk: int) { forall i :: 0 <= i < |h| ==> h[i].clk <= clk }

  // ---------------------------------------------------------------- no long idling

  /** When no command was issued for the longest wait, any command may be issued. */
  lemma AnyMayGo(cfg: Config, h: seq<Event>, c: Command, vec: Address, clk: int, w: nat)
    requires LongestWait(cfg.speed, w) && AllBefore(h, clk - w)
    ensures Allows(Dev(cfg), h, c, vec, clk)
  {
    hide LongestWait, HmcTiming, Depth;
    forall k | 1 <= k <= 1 + Depth(Dev(cfg), c, vec, 0)
      ensures NodeAllows(Dev(cfg), h, vec[..k], c, clk)
    {
      NodeMayGo(cfg, h, vec[..k], c, clk, w);
    }
  }

  lemma NodeMayGo(cfg: Config, h: seq<Event>, p: Path, c: Command, clk: int, w: nat)
    requires LongestWait(cfg.speed, w) && AllBefore(h, clk - w)
    ensures NodeAllows(Dev(cfg), h, p, c, clk)
  {
    hide HmcTiming, Times, SiblingTimes;
    forall a: Command, t: Entry | t in HmcTiming(cfg.speed, |p| - 1, a) && t.cmd == c
      ensures Elapsed(Past(h, p, a, t), t, clk)
    {
      HmcHasNoSiblingRules(cfg.speed, |p| - 1, a);
      TimesBounded(h, p, a, clk - w);
    }
  }

  lemma SomethingIsReady(cfg: Config, v: Vault, w: nat)
    requires LongestWait(cfg.speed, w) && AllBefore(v.issued.history, v.clk - w) && ServedQueue(v) != []
    ensures Chosen(cfg, v) != -1
  {
    hide LongestWait, AllBefore, Allows, First, Scheduler.IsHead;
    var i := Scheduler.Head(Views(cfg, v));
    assert i < |Views(cfg, v)| by {
      HeadIsWithin(Views(cfg, v), i);
    }
    var r := ServedQueue(v)[i];
    AnyMayGo(cfg, v.issued.history, First(cfg, v.issued.history, r), r.vec, v.clk, w);
  }

  lemma HeadIsWithin(q: seq<Scheduler.View>, i: nat)
    requires Scheduler.IsHead(q, i)
    ensures i < |q|
  {
  }

  /** A vault with something to serve is never idle for longer than the longest wait: if no command was issued in the
      cycles that this takes, the next one issues a command. */
  lemma NoLongIdle(cfg: Config, v: Vault, w: nat)
    requires LongestWait(cfg.speed, w) && AllBefore(v.issued.history, v.clk + 1 - w)
    requires ServedQueue(BeforeServe(cfg, v)) != []
    ensures |Step(cfg, v, Cycle).issued.history| == |v.issued.history| + 1
  {
    hide LongestWait, AllBefore, BeforeServe, Chosen, Serve, Allows, First, TableAfter;
    BeforeServeFrame(cfg, v);
    SomethingIsReady(cfg, BeforeServe(cfg, v), w);
    ServeFrame(cfg, BeforeServe(cfg, v));
  }

  // ---------------------------------------------------------------- what is left to do

  function BurstOf(): Request -> int { (r: Request) => r.burst }

  /** The column commands that the queued reads and writes still take. */
  function Left(v: Vault): int { Sum(v.queues.read, BurstOf()) + Sum(v.queues.write, BurstOf()) }

  lemma {:induction false} QueueLeft(cfg: Config, k: Kind, q: seq<Request>)
    requires Queued(cfg, k, q) && k != Refresh
    ensures |q| <= Sum(q, BurstOf())
  {
    if q != [] {
      QueueLeft(cfg, k, q[..|q| - 1]);
      assert Item(cfg, k, q[|q| - 1]);
    }
  }

  lemma NothingLeft(cfg: Config, v: Vault)
    requires AllQueued(cfg, v.queues)
    ensures |v.queues.read| + |v.queues.write| <= Left(v)
    ensures Left(v) == 0 <==> v.queues.read == [] && v.queues.write == []
  {
    hide Queued;
    QueueLeft(cfg, Read, v.queues.read);
    QueueLeft(cfg, Write, v.queues.write);
  }

  /** The same requests, but for what was done for them. */
  ghost predicate Same(q: seq<Request>, r: seq<Request>) {
    |q| == |r| && forall i :: 0 <= i < |q| ==> q[i].kind == r[i].kind && q[i].vec == r[i].vec
  }

  ghost predicate SameQueues(v: Vault, w: Vault) {
    && Same(v.queues.read, w.queues.read) && Same(v.queues.write, w.queues.write)
    && (v.queues.other == [] ==> w.queues.other == [])
  }

  /** The command that the cycle issues is a request's own column command. */
  ghost predicate IssuesColumn(cfg: Config, v: Vault) {
    && Chosen(cfg, v) != -1 && Serving(v) != Refresh
    && var r := ServedQueue(v)[Chosen(cfg, v)]; First(cfg, v.issued.history, r) == Column(r.kind)
  }

  lemma LeftWith(v: Vault, w: Vault, k: Kind, q: seq<Request>)
    requires w.queues == WithQueue(v.queues, k, q)
    ensures Left(w) == Left(v) + if k == Refresh then 0 else Sum(q, BurstOf()) - Sum(Queue(v.queues, k), BurstOf())
  {
    hide Sum;
  }

  lemma LeftBegin(v: Vault, i: nat)
    requires i < |ServedQueue(v)|
    ensures Left(Begin(v, i)) == Left(v) && SameQueues(v, Begin(v, i))
  {
    hide Sum, Left, Begin;
    BeginFrame(v, i);
    var q := ServedQueue(v);
    LeftWith(v, Begin(v, i), Serving(v), q[i := q[i].(first := false)]);
    Update(q, i, q[i].(first := false), BurstOf());
  }

  lemma LeftFinish(cfg: Config, v: Vault, i: nat)
    requires AllQueued(cfg, v.queues) && i < |ServedQueue(v)|
    ensures Left(Finish(cfg, v, i)) == Left(v) - if Serving(v) == Refresh then 0 else 1
    ensures Serving(v) == Refresh ==> SameQueues(v, Finish(cfg, v, i))
  {
    hide Sum, Left, Finish, Without, AllQueued, Respond;
    var q, w := ServedQueue(v), Finish(cfg, v, i);
    var r := OneLess(q[i]);
    FinishFrame(cfg, v, i);
    QueueOf(cfg, v.queues, Serving(v));
    assert Item(cfg, Serving(v), q[i]);
    LeftWith(v, w, Serving(v), if r.burst != 0 then q[i := r] else Without(q, i));
    Update(q, i, r, BurstOf());
    Remove(q, i, BurstOf());
  }

  /** A column command is one less to do; any other cycle leaves the queues as they were. */
  lemma LeftServe(cfg: Config, v: Vault)
    requires AllQueued(cfg, v.queues)
    ensures Left(Serve(cfg, v)) == Left(v) - if IssuesColumn(cfg, v) then 1 else 0
    ensures !IssuesColumn(cfg, v) ==> SameQueues(v, Serve(cfg, v))
  {
    hide Left, AllQueued, Chosen, Begin, Finish, First, Serve, TableAfter, Fits, Allows, Same;
    ServeIsStages(cfg, v);
    var i := Chosen(cfg, v);
    if i != -1 {
      var r := ServedQueue(v)[i];
      QueueOf(cfg, v.queues, Serving(v));
      ServedIs(cfg, v, i);
      BeginFrame(v, i);
      LeftBegin(v, i);
      AllQueuedBegin(cfg, v, i);
      var v' := Issue(cfg, Begin(v, i), First(cfg, v.issued.history, r), r.vec);
      LeftSame(Begin(v, i), v');
      LeftFinish(cfg, v', i);
    } else {
      SameSelf(v);
    }
  }

  lemma ServedIs(cfg: Config, v: Vault, i: nat)
    requires AllQueued(cfg, v.queues) && i < |ServedQueue(v)|
    ensures Item(cfg, Serving(v), ServedQueue(v)[i])
  {
  }

  lemma LeftSame(v: Vault, w: Vault)
    requires v.queues == w.queues
    ensures Left(v) == Left(w)
  {
  }

  lemma SameSelf(v: Vault)
    ensures SameQueues(v, v)
  {
  }

  /** Without arrivals the work only gets less, by one for each column command. */
  lemma LeftStep(cfg: Config, v: Vault, a: Action)
    requires AllQueued(cfg, v.queues) && !a.Arrive?
    ensures Left(Step(cfg, v, a)) ==
            Left(v) - if a.Cycle? && IssuesColumn(cfg, BeforeServe(cfg, v)) then 1 else 0
  {
    hide Left, AllQueued, BeforeServe, Serve, IssuesColumn;
    match a
    case Cycle =>
      BeforeServeFrame(cfg, v);
      AllQueuedBefore(cfg, v);
      SameLeft(v, BeforeServe(cfg, v));
      LeftServe(cfg, BeforeServe(cfg, v));
    case Leave =>
      LeftSame(v, Step(cfg, v, a));
  }

  lemma SameLeft(v: Vault, w: Vault)
    requires v.queues.read == w.queues.read && v.queues.write == w.queues.write
    ensures Left(v) == Left(w)
  {
  }

  // ---------------------------------------------------------------- the row table

  /** The banks of a vault. */
  function Banks(cfg: Config): nat { cfg.groups * cfg.banks }

  lemma {:induction false} FewInGroup(keys: set<Path>, id: int, a: int, banks: nat)
    requires forall g :: g in keys ==> |g| == ROW && g[0] == id && g[1] == a && 0 <= g[2] < banks
    ensures |keys| <= banks
  {
    if banks > 0 {
      var last := [id, a, banks - 1];
      forall g | g in keys - {last}
        ensures g[2] < banks - 1
      {
        assert g == [g[0], g[1], g[2]];
      }
      FewInGroup(keys - {last}, id, a, banks - 1);
    } else {
      assert keys == {};
    }
  }

  lemma {:induction false} FewKeys(keys: set<Path>, id: int, groups: nat, banks: nat)
    requires forall g :: g in keys ==> |g| == ROW && g[0] == id && 0 <= g[1] < groups && 0 <= g[2] < banks
    ensures |keys| <= groups * banks
  {
    if groups > 0 {
      var last := set g | g in keys && g[1] == groups - 1;
      FewInGroup(last, id, groups - 1, banks);
      FewKeys(keys - last, id, groups - 1, banks);
      assert groups * banks == (groups - 1) * banks + banks;
      assert keys == (keys - last) + last;
    } else {
      assert keys == {};
    }
  }

  lemma TableIsSmall(cfg: Config, h: seq<Event>, t: Table)
    requires RowsAgree(cfg, h, t)
    ensures |t| <= Banks(cfg)
  {
    hide StatusAfter, Hits;
    forall g | g in t.Keys
      ensures |g| == ROW && g[0] == cfg.id && 0 <= g[1] < cfg.groups && 0 <= g[2] < cfg.banks
    {
      assert Records(cfg, h, g, t[g]);
    }
    FewKeys(t.Keys, cfg.id, cfg.groups, cfg.banks);
  }

  /** Closing a bank takes its record out of the table. */
  lemma TableShrinks(cfg: Config, h: seq<Event>, t: Table, r: Request, clk: int)
    requires Tame(cfg, h) && RowsAgree(cfg, h, t) && r.kind != Refresh && InVault(cfg, r.vec)
    requires First(cfg, h, r) == PRE
    ensures |TableAfter(Dev(cfg), t, PRE, r.vec, clk)| == |t| - 1
  {
    hide StatusAfter, Hits, First, Tame, TableAfter;
    var dev, t' := Dev(cfg), TableAfter(Dev(cfg), t, PRE, r.vec, clk);
    FirstForBank(cfg, h, r);
    var g := Group(r.vec);
    assert g in t;
    forall k | k in t
      ensures Closes(dev, PRE, r.vec, k) <==> k == g
    {
      assert Records(cfg, h, k, t[k]);
    }
    forall k
      ensures k in t' <==> k in t && k != g
    {
      RecordAfter(dev, t, PRE, r.vec, clk, k);
    }
    assert t'.Keys == t.Keys - {g};
  }

  // ---------------------------------------------------------------- a stretch without refresh

  /** The cycles within which a column command is issued, if no refresh intervenes: every bank may have to be closed,
      one in each cycle, and then a row is opened and read or written. */
  function Stretch(cfg: Config, w: nat): nat { Banks(cfg) + 3 * w }

  predicate Settled(v: Vault) { DrainMode(v).writeMode == v.writeMode }

  /** Since `from` no refresh was queued, none will be for a while, and no column command was issued. */
  ghost predicate Undisturbed(cfg: Config, v: Vault, w: nat, from: int) {
    && v.queues.other == [] && v.timer.clk == v.clk && Settled(v)
    && from <= v.clk && from + Stretch(cfg, w) < v.timer.refreshed + cfg.speed.nREFI
    && NoneAfter(v.issued.history, RD, from) && NoneAfter(v.issued.history, WR, from)
  }

  ghost predicate Hits(cfg: Config, h: seq<Event>, r: Request) { RowHit(Dev(cfg), h, Column(r.kind), r.vec) }

  ghost predicate NoneHits(cfg: Config, h: seq<Event>, q: seq<Request>) {
    forall j :: 0 <= j < |q| ==> !Hits(cfg, h, q[j])
  }

  /** A request must have its bank closed first. */
  ghost predicate ToClose(cfg: Config, h: seq<Event>, q: seq<Request>) {
    exists j :: 0 <= j < |q| && First(cfg, h, q[j]) == PRE
  }

  /** So far, banks were only closed, and once that was possible, one in each cycle. */
  ghost predicate Closing(cfg: Config, v: Vault, w: nat, from: int) {
    var last, h := from + w + Banks(cfg) - |v.issued.table|, v.issued.history;
    && |v.issued.table| <= Banks(cfg) && AllBefore(h, last) && NoneAfter(h, ACT, from)
    && NoneHits(cfg, h, ServedQueue(v)) && v.clk < last + if ToClose(cfg, h, ServedQueue(v)) then 1 else w
  }

  ghost predicate OpenSince(h: seq<Event>, g: Path, clk: int) {
    forall i :: 0 <= i < |h| && h[i].cmd == ACT && AtNode(h[i], g) ==> h[i].clk <= clk
  }

  /** A request to be served hits a row that was opened not long ago. */
  ghost predicate Hitting(cfg: Config, v: Vault, w: nat, from: int, j: nat, since: int) {
    && j < |ServedQueue(v)| && from <= since <= from + Banks(cfg) + 2 * w && v.clk < since + w
    && Hits(cfg, v.issued.history, ServedQueue(v)[j])
    && OpenSince(v.issued.history, Group(ServedQueue(v)[j].vec), since)
  }

  ghost predicate Engaged(cfg: Config, v: Vault, w: nat, from: int) {
    Closing(cfg, v, w, from) || exists j: nat, since :: Hitting(cfg, v, w, from, j, since)
  }

  lemma Monotone(a: int, b: int, w: nat)
    requires a <= b
    ensures a * w <= b * w
  {
  }

  /** The stretch cannot be over yet. */
  lemma EngagedIsEarly(cfg: Config, v: Vault, w: nat, from: int)
    requires Engaged(cfg, v, w, from) && 1 <= w
    ensures v.clk < from + Stretch(cfg, w)
  {
    hide Hits, OpenSince, AllBefore, NoneAfter, ToClose, Banks;
  }

  /** Nothing happens before the command is chosen, but for the clock. */
  lemma UndisturbedBefore(cfg: Config, v: Vault, w: nat, from: int)
    requires Undisturbed(cfg, v, w, from) && v.clk < from + Stretch(cfg, w)
    ensures var b := BeforeServe(cfg, v);
            && b.clk == v.clk + 1 && b.queues == v.queues && b.writeMode == v.writeMode && b.issued == v.issued
            && b.timer.clk == b.clk && b.timer.refreshed == v.timer.refreshed && ServedQueue(b) == ServedQueue(v)
  {
    hide Complete, NoneAfter;
    var u := v.(clk := v.clk + 1);
    var c := Complete(cfg, u);
    CompleteFrame(cfg, u);
    CompleteKeepsMode(cfg, u);
    assert BeforeServe(cfg, v) == DrainMode(TickRefresh(cfg, c));
  }

  lemma CompleteKeepsMode(cfg: Config, v: Vault)
    ensures Complete(cfg, v).writeMode == v.writeMode
  {
    hide Respond, CallBack;
  }

  // ---------------------------------------------------------------- one cycle of it

  /** What a cycle finds: the state before its choice, still within the stretch. */
  ghost predicate Ready(cfg: Config, b: Vault, w: nat) {
    && LongestWait(cfg.speed, w) && AllQueued(cfg, b.queues) && Lawful(cfg, b) && b.queues.other == []
    && ServedQueue(b) != [] && !IssuesColumn(cfg, b)
  }

  /** What was issued, if anything: it opened or closed a bank. */
  lemma NotAColumn(cfg: Config, b: Vault, w: nat) returns (i: int, c: Command)
    requires Ready(cfg, b, w)
    ensures i == Chosen(cfg, b)
    ensures i == -1 ==> Serve(cfg, b) == b
    ensures i != -1 ==>
              var r, h := ServedQueue(b)[i], b.issued.history;
              && r.kind == Serving(b) && r.kind != Refresh && InVault(cfg, r.vec)
              && c == First(cfg, h, r) && c in {ACT, PRE} && OurBank(cfg, Group(r.vec))
              && (c == ACT <==> StatusAfter(Dev(cfg), h, Group(r.vec)).state == Closed)
              && Serve(cfg, b).issued.history == h + [Event(c, r.vec, b.clk)]
              && Serve(cfg, b).issued.table == TableAfter(Dev(cfg), b.issued.table, c, r.vec, b.clk)
  {
    hide LongestWait, AllQueued, Chosen, First, Serve, TableAfter, StatusAfter, Allows;
    ServeFrame(cfg, b);
    i, c := Chosen(cfg, b), ACT;
    if i != -1 {
      var r := ServedQueue(b)[i];
      c := First(cfg, b.issued.history, r);
      ServedIs(cfg, b, i);
      LawfulIsTame(cfg, b);
      FirstForBank(cfg, b.issued.history, r);
    }
  }

  lemma LawfulIsTame(cfg: Config, v: Vault)
    requires Lawful(cfg, v)
    ensures Tame(cfg, v.issued.history) && RowsAgree(cfg, v.issued.history, v.issued.table)
    ensures AllBefore(v.issued.history, v.clk)
  {
  }

  /** Opening a bank for a request makes it hit its row. */
  lemma OpensForHit(cfg: Config, h: seq<Event>, r: Request, clk: int)
    requires r.kind != Refresh && InVault(cfg, r.vec)
    ensures RowHit(Dev(cfg), h + [Event(ACT, r.vec, clk)], Column(r.kind), r.vec)
  {
    var dev, e := Dev(cfg), Event(ACT, r.vec, clk);
    StatusSnoc(dev, h, e, Group(r.vec));
    assert ReachesBank(dev, r.vec, BANK);
    assert ReachesBank(dev, r.vec, BANK_GROUP);
    hide StatusAfter, AnyOpen;
  }

  lemma BeforeSnoc(h: seq<Event>, e: Event, clk: int)
    requires AllBefore(h, clk) && e.clk <= clk
    ensures AllBefore(h + [e], clk)
  {
  }

  lemma BeforeLater(h: seq<Event>, clk: int, later: int)
    requires AllBefore(h, clk) && clk <= later
    ensures AllBefore(h, later)
  {
  }

  lemma CloseRuleFor(s: HmcSpeed, level: nat, a: Command, t: Entry)
    requires t in HmcTiming(s, level, a) && t.cmd == PRE
    ensures a in {ACT, RD, WR, PDX}
  {
  }

  /** A bank may be closed, when it has been open and the data bus free for long enough. */
  lemma CloseMayGo(cfg: Config, h: seq<Event>, vec: Address, clk: int, w: nat)
    requires Tame(cfg, h) && LongestWait(cfg.speed, w)
    requires NoneAfter(h, ACT, clk - w) && NoneAfter(h, RD, clk - w) && NoneAfter(h, WR, clk - w)
    ensures Allows(Dev(cfg), h, PRE, vec, clk)
  {
    hide Tame, LongestWait, HmcTiming, Depth, NoneAfter, Times, SiblingTimes;
    forall k | 1 <= k <= 1 + Depth(Dev(cfg), PRE, vec, 0)
      ensures NodeAllows(Dev(cfg), h, vec[..k], PRE, clk)
    {
      forall a: Command, t: Entry | t in HmcTiming(cfg.speed, k - 1, a) && t.cmd == PRE
        ensures Elapsed(Past(h, vec[..k], a, t), t, clk)
      {
        HmcHasNoSiblingRules(cfg.speed, k - 1, a);
        CloseRuleFor(cfg.speed, k - 1, a, t);
        WaitIs(cfg.speed, w, k - 1, a, t);
        if a == PDX {
          NotSent(cfg, h, vec[..k], a);
        } else {
          TimesBounded(h, vec[..k], a, clk - w);
        }
      }
    }
  }

  /** A bank that must be closed, and may be, is closed, or another command is issued. */
  lemma CloseIsServed(cfg: Config, b: Vault, w: nat, from: int)
    requires LongestWait(cfg.speed, w) && Lawful(cfg, b) && from + w <= b.clk
    requires var h := b.issued.history;
             && ToClose(cfg, h, ServedQueue(b)) && NoneHits(cfg, h, ServedQueue(b))
             && NoneAfter(h, ACT, from) && NoneAfter(h, RD, from) && NoneAfter(h, WR, from)
    ensures Chosen(cfg, b) != -1
  {
    hide LongestWait, Lawful, Allows, First, RowHit, RowOpen, NoneAfter;
    var h, views := b.issued.history, Views(cfg, b);
    LawfulIsTame(cfg, b);
    var j :| 0 <= j < |ServedQueue(b)| && First(cfg, h, ServedQueue(b)[j]) == PRE;
    NoneLater(h, ACT, from, b.clk - w);
    NoneLater(h, RD, from, b.clk - w);
    NoneLater(h, WR, from, b.clk - w);
    CloseMayGo(cfg, h, ServedQueue(b)[j].vec, b.clk, w);
    assert forall k :: 0 <= k < |views| ==> !views[k].hit by {
      forall k | 0 <= k < |views|
        ensures !views[k].hit
      {
        assert !Hits(cfg, h, ServedQueue(b)[k]);
      }
    }
    Scheduler.HeadIsReady(views, Scheduler.Head(views), j);
  }

  /** A cycle of the first part: nothing yet, one bank less, or a row is opened. */
  lemma ClosingCycle(cfg: Config, b: Vault, w: nat, from: int)
    requires Ready(cfg, b, w) && Closing(cfg, b.(clk := b.clk - 1), w, from) && from < b.clk
    requires NoneAfter(b.issued.history, RD, from) && NoneAfter(b.issued.history, WR, from)
    ensures Engaged(cfg, Serve(cfg, b), w, from)
  {
    hide Ready, LongestWait, AllBefore, NoneAfter, Hitting, Chosen, First, Serve, TableAfter, StatusAfter, Banks,
         ToClose, NoneHits, Lawful;
    var n, m, h, u := Banks(cfg), |b.issued.table|, b.issued.history, b.(clk := b.clk - 1);
    var i, c := NotAColumn(cfg, b, w);
    ReadySays(cfg, b, w);
    if i == -1 {
      if ToClose(cfg, h, ServedQueue(u)) {
        if from + w + n - m < b.clk {
          CloseIsServed(cfg, b, w, from);
        }
      } else if from + w + n - m + w <= b.clk {
        BeforeLater(h, from + w + n - m, b.clk - w);
        SomethingIsReady(cfg, b, w);
      }
    } else if c == PRE {
      BankClosed(cfg, b, w, from);
    } else {
      BankOpened(cfg, b, w, from);
    }
  }

  lemma BankClosed(cfg: Config, b: Vault, w: nat, from: int)
    requires Ready(cfg, b, w) && Closing(cfg, b.(clk := b.clk - 1), w, from)
    requires Chosen(cfg, b) != -1 && First(cfg, b.issued.history, ServedQueue(b)[Chosen(cfg, b)]) == PRE
    ensures Closing(cfg, Serve(cfg, b), w, from)
  {
    hide Ready, LongestWait, AllBefore, NoneAfter, Chosen, First, Serve, TableAfter, StatusAfter, Banks, Lawful, Tame,
         RowsAgree, NoneHits, Same;
    var n, m, h, u := Banks(cfg), |b.issued.table|, b.issued.history, b.(clk := b.clk - 1);
    var i, c := NotAColumn(cfg, b, w);
    var r := ServedQueue(b)[i];
    var e := Event(c, r.vec, b.clk);
    assert ToClose(cfg, h, ServedQueue(u));
    ReadySays(cfg, b, w);
    LawfulIsTame(cfg, b);
    ServeClock(cfg, b);
    TableShrinks(cfg, h, b.issued.table, r, b.clk);
    BeforeLater(h, from + w + n - m, from + w + n - m + 1);
    BeforeSnoc(h, e, from + w + n - m + 1);
    NoneAfterSnoc(h, e, ACT, from);
    NowHitting(cfg, b, i, e);
    StillNoneHits(cfg, h, ServedQueue(b), ServedQueue(Serve(cfg, b)), e);
  }

  lemma StillNoneHits(cfg: Config, h: seq<Event>, q: seq<Request>, r: seq<Request>, e: Event)
    requires NoneHits(cfg, h, q) && Same(q, r) && e.cmd == PRE
    ensures NoneHits(cfg, h + [e], r)
  {
    hide StatusAfter, AnyOpen, ReachesBank;
    forall j | 0 <= j < |r|
      ensures !Hits(cfg, h + [e], r[j])
    {
      assert !Hits(cfg, h, q[j]);
      StatusSnoc(Dev(cfg), h, e, Group(r[j].vec));
    }
  }

  lemma BankOpened(cfg: Config, b: Vault, w: nat, from: int)
    requires Ready(cfg, b, w) && Closing(cfg, b.(clk := b.clk - 1), w, from) && from < b.clk
    requires Chosen(cfg, b) != -1 && First(cfg, b.issued.history, ServedQueue(b)[Chosen(cfg, b)]) == ACT
    ensures Hitting(cfg, Serve(cfg, b), w, from, Chosen(cfg, b), b.clk)
  {
    hide Ready, LongestWait, AllBefore, NoneAfter, Chosen, First, Serve, TableAfter, StatusAfter, Banks, Lawful, Tame,
         RowsAgree, OpenSince, RowHit, ToClose;
    var i, c := NotAColumn(cfg, b, w);
    var r := ServedQueue(b)[i];
    ReadySays(cfg, b, w);
    ServeClock(cfg, b);
    OpensForHit(cfg, b.issued.history, r, b.clk);
    NowHitting(cfg, b, i, Event(c, r.vec, b.clk));
  }

  lemma ReadySays(cfg: Config, b: Vault, w: nat)
    requires Ready(cfg, b, w)
    ensures 1 <= w && LongestWait(cfg.speed, w) && Lawful(cfg, b) && AllQueued(cfg, b.queues) && ServedQueue(b) != []
    ensures b.queues.other == [] && !IssuesColumn(cfg, b)
  {
  }

  /** The served queue keeps its requests, and none of its banks was opened after now. */
  lemma NowHitting(cfg: Config, b: Vault, i: nat, e: Event)
    requires AllQueued(cfg, b.queues) && Lawful(cfg, b) && b.queues.other == [] && !IssuesColumn(cfg, b)
    requires Serve(cfg, b).issued.history == b.issued.history + [e] && e.clk == b.clk && i < |ServedQueue(b)|
    ensures Same(ServedQueue(b), ServedQueue(Serve(cfg, b))) && i < |ServedQueue(Serve(cfg, b))|
    ensures forall g :: OpenSince(b.issued.history + [e], g, b.clk)
  {
    hide AllQueued, IssuesColumn, Serve, Left;
    LeftServe(cfg, b);
    ServeKeepsMode(cfg, b);
  }

  // ---------------------------------------------------------------- rows that are hit

  lemma ColumnRules(s: HmcSpeed, level: nat, a: Command, t: Entry)
    requires t in HmcTiming(s, level, a) && t.cmd in {RD, WR}
    ensures a in {RD, WR, RDA, WRA, PDX} || (a == ACT && level == BANK)
  {
  }

  lemma {:induction false} TimesOpen(h: seq<Event>, g: Path, clk: int)
    requires OpenSince(h, g, clk)
    ensures forall i :: 0 <= i < |Times(h, g, ACT)| ==> Times(h, g, ACT)[i] <= clk
  {
    if h != [] {
      var before := h[..|h| - 1];
      assert OpenSince(before, g, clk) by {
        assert forall i :: 0 <= i < |before| ==> before[i] == h[i];
      }
      TimesOpen(before, g, clk);
    }
  }

  /** A request that hits its row may have its column command, when its bank has been open and the data bus free for
      long enough. */
  lemma ColumnMayGo(cfg: Config, h: seq<Event>, c: Command, vec: Address, clk: int, w: nat)
    requires Tame(cfg, h) && LongestWait(cfg.speed, w) && c in {RD, WR} && InVault(cfg, vec)
    requires NoneAfter(h, RD, clk - w) && NoneAfter(h, WR, clk - w) && OpenSince(h, Group(vec), clk - w)
    ensures Allows(Dev(cfg), h, c, vec, clk)
  {
    hide Tame, LongestWait, HmcTiming, Depth, NoneAfter, OpenSince, Times, SiblingTimes;
    forall k | 1 <= k <= 1 + Depth(Dev(cfg), c, vec, 0)
      ensures NodeAllows(Dev(cfg), h, vec[..k], c, clk)
    {
      forall a: Command, t: Entry | t in HmcTiming(cfg.speed, k - 1, a) && t.cmd == c
        ensures Elapsed(Past(h, vec[..k], a, t), t, clk)
      {
        HmcHasNoSiblingRules(cfg.speed, k - 1, a);
        ColumnRules(cfg.speed, k - 1, a, t);
        WaitIs(cfg.speed, w, k - 1, a, t);
        if a in {RD, WR} {
          TimesBounded(h, vec[..k], a, clk - w);
        } else if a == ACT {
          TimesOpen(h, vec[..k], clk - w);
        } else {
          NotSent(cfg, h, vec[..k], a);
        }
      }
    }
  }

  lemma WaitIs(s: HmcSpeed, w: nat, level: nat, a: Command, t: Entry)
    requires LongestWait(s, w) && t in HmcTiming(s, level, a)
    ensures t.val <= w
  {
  }

  /** A row that is hit stays open, and its bank is not opened again, while other banks are opened and closed. */
  lemma StaysHit(cfg: Config, h: seq<Event>, r: Request, e: Event, since: int)
    requires r.kind != Refresh && e.cmd in {ACT, PRE} && InVault(cfg, e.addr) && Group(e.addr) != Group(r.vec)
    requires RowHit(Dev(cfg), h, Column(r.kind), r.vec) && OpenSince(h, Group(r.vec), since)
    ensures RowHit(Dev(cfg), h + [e], Column(r.kind), r.vec) && OpenSince(h + [e], Group(r.vec), since)
  {
    hide StatusAfter, AnyOpen, ReachesBank;
    StatusSnoc(Dev(cfg), h, e, Group(r.vec));
    assert !AtNode(e, Group(r.vec));
  }

  lemma HitIsOpen(cfg: Config, h: seq<Event>, r: Request)
    requires Tame(cfg, h) && r.kind != Refresh && InVault(cfg, r.vec)
    requires RowHit(Dev(cfg), h, Column(r.kind), r.vec)
    ensures First(cfg, h, r) == Column(r.kind) && StatusAfter(Dev(cfg), h, Group(r.vec)).state != Closed
  {
    FirstForBank(cfg, h, r);
    hide StatusAfter, First, Tame, ReachesBank;
  }

  /** A request that may have its column command gets it, or another does. */
  lemma HitIsServed(cfg: Config, b: Vault, j: nat)
    requires AllQueued(cfg, b.queues) && Lawful(cfg, b) && b.queues.other == [] && j < |ServedQueue(b)|
    requires var r, h := ServedQueue(b)[j], b.issued.history;
             && RowHit(Dev(cfg), h, Column(r.kind), r.vec)
             && Allows(Dev(cfg), h, Column(r.kind), r.vec, b.clk)
    ensures IssuesColumn(cfg, b)
  {
    hide AllQueued, Lawful, Allows, First, RowHit;
    var h, views := b.issued.history, Views(cfg, b);
    LawfulIsTame(cfg, b);
    ServedIs(cfg, b, j);
    HitIsOpen(cfg, h, ServedQueue(b)[j]);
    assert views[j].ready && views[j].hit;
    var i := Scheduler.Head(views);
    assert Scheduler.AnyReadyHit(views);
    assert views[i].ready && views[i].hit;
    ServedIs(cfg, b, i);
    HitIsOpen(cfg, h, ServedQueue(b)[i]);
  }

  /** A cycle of the second part: the row stays open, and it is not late yet. */
  lemma HittingCycle(cfg: Config, b: Vault, w: nat, from: int, j: nat, since: int)
    requires Ready(cfg, b, w) && Hitting(cfg, b.(clk := b.clk - 1), w, from, j, since)
    requires NoneAfter(b.issued.history, RD, from) && NoneAfter(b.issued.history, WR, from)
    ensures Hitting(cfg, Serve(cfg, b), w, from, j, since)
  {
    hide Ready, LongestWait, Lawful, Tame, RowsAgree, AllQueued, OpenSince, RowHit, Chosen, First, Serve, TableAfter,
         StatusAfter, Allows, NoneAfter, IssuesColumn;
    var h, r := b.issued.history, ServedQueue(b)[j];
    ReadySays(cfg, b, w);
    LawfulIsTame(cfg, b);
    ServedIs(cfg, b, j);
    if since + w <= b.clk {
      NoneLater(h, RD, from, b.clk - w);
      NoneLater(h, WR, from, b.clk - w);
      OpenLater(h, Group(r.vec), since, b.clk - w);
      ColumnMayGo(cfg, h, Column(r.kind), r.vec, b.clk, w);
      HitIsServed(cfg, b, j);
    }
    var i, c := NotAColumn(cfg, b, w);
    ServeClock(cfg, b);
    if i != -1 {
      var e := Event(c, ServedQueue(b)[i].vec, b.clk);
      HitIsOpen(cfg, h, r);
      if c == PRE {
        CloseSparesHits(cfg, b, j);
      }
      StaysHit(cfg, h, r, e, since);
      NowHitting(cfg, b, j, e);
    }
  }

  lemma NoneLater(h: seq<Event>, c: Command, clk: int, later: int)
    requires NoneAfter(h, c, clk) && clk <= later
    ensures NoneAfter(h, c, later)
  {
  }

  lemma OpenLater(h: seq<Event>, g: Path, clk: int, later: int)
    requires OpenSince(h, g, clk) && clk <= later
    ensures OpenSince(h, g, later)
  {
  }

  // ---------------------------------------------------------------- runs

  lemma SettledSays(cfg: Config, v: Vault)
    requires AllQueued(cfg, v.queues) && Settled(v) && 0 < Left(v) && v.queues.other == []
    ensures ServedQueue(v) != []
  {
    hide AllQueued, Left;
    NothingLeft(cfg, v);
  }

  /** A change of the drain mode is followed by another only when the queues change. */
  lemma SettledAfter(cfg: Config, v: Vault)
    requires AllQueued(cfg, v.queues) && !IssuesColumn(cfg, BeforeServe(cfg, v))
    ensures Settled(Step(cfg, v, Cycle))
  {
    hide AllQueued, IssuesColumn, Serve, Complete, TickRefresh, Left;
    var u := v.(clk := v.clk + 1);
    var t := TickRefresh(cfg, Complete(cfg, u));
    var b := BeforeServe(cfg, v);
    assert b == DrainMode(t);
    AllQueuedBefore(cfg, v);
    LeftServe(cfg, b);
    ServeKeepsMode(cfg, b);
  }

  lemma UndisturbedAfter(cfg: Config, b: Vault, w: nat, from: int)
    requires Ready(cfg, b, w) && Undisturbed(cfg, b, w, from) && from < b.clk
    ensures Undisturbed(cfg, Serve(cfg, b), w, from)
  {
    hide Ready, AllQueued, Lawful, LongestWait, IssuesColumn, Chosen, First, Serve, TableAfter, StatusAfter, NoneAfter,
         Left, Stretch;
    ReadySays(cfg, b, w);
    LeftServe(cfg, b);
    ServeKeepsMode(cfg, b);
    ServeClock(cfg, b);
    var i, c := NotAColumn(cfg, b, w);
    if i != -1 {
      var e := Event(c, ServedQueue(b)[i].vec, b.clk);
      NoneAfterSnoc(b.issued.history, e, RD, from);
      NoneAfterSnoc(b.issued.history, e, WR, from);
    }
  }

  /** Within the stretch a cycle without a column command goes on with it. */
  lemma EngagedCycle(cfg: Config, v: Vault, w: nat, from: int)
    requires LongestWait(cfg.speed, w) && AllQueued(cfg, v.queues) && Lawful(cfg, v) && 0 < Left(v)
    requires Undisturbed(cfg, v, w, from) && Engaged(cfg, v, w, from)
    requires !IssuesColumn(cfg, BeforeServe(cfg, v))
    ensures Undisturbed(cfg, Step(cfg, v, Cycle), w, from) && Engaged(cfg, Step(cfg, v, Cycle), w, from)
  {
    hide AllQueued, Lawful, LongestWait, IssuesColumn, BeforeServe, Serve, Left, Closing, Hitting, NoneAfter, Stretch,
         ServedQueue;
    var b := BeforeServe(cfg, v);
    assert 1 <= w by {
      AtLeastOne(cfg.speed, w);
    }
    EngagedIsEarly(cfg, v, w, from);
    UndisturbedBefore(cfg, v, w, from);
    BeforeServeFrame(cfg, v);
    LawfulLater(cfg, v, b);
    SettledSays(cfg, v);
    assert Ready(cfg, b, w);
    UndisturbedAfter(cfg, b, w, from);
    if Closing(cfg, v, w, from) {
      ClosingSame(cfg, v, b.(clk := b.clk - 1), w, from);
      ClosingCycle(cfg, b, w, from);
    } else {
      var j: nat, since :| Hitting(cfg, v, w, from, j, since);
      HittingSame(cfg, v, b.(clk := b.clk - 1), w, from, j, since);
      HittingCycle(cfg, b, w, from, j, since);
    }
  }

  lemma AtLeastOne(s: HmcSpeed, w: nat)
    requires LongestWait(s, w)
    ensures 1 <= w
  {
  }

  lemma ClosingSame(cfg: Config, v: Vault, u: Vault, w: nat, from: int)
    requires Closing(cfg, v, w, from) && u.clk == v.clk && u.issued == v.issued
    requires u.queues == v.queues && u.writeMode == v.writeMode
    ensures Closing(cfg, u, w, from)
  {
    hide ToClose, AllBefore, NoneAfter, NoneHits;
  }

  lemma HittingSame(cfg: Config, v: Vault, u: Vault, w: nat, from: int, j: nat, since: int)
    requires Hitting(cfg, v, w, from, j, since) && u.clk == v.clk && u.issued == v.issued
    requires u.queues == v.queues && u.writeMode == v.writeMode
    ensures Hitting(cfg, u, w, from, j, since)
  {
    hide RowHit, OpenSince;
  }

  /** The state at position `k` of a run is as good as the last one. */
  lemma InvAt(cfg: Config, run: seq<Vault>, actions: seq<Action>, k: nat)
    requires Usable(cfg) && Timely(cfg) && IsRun(cfg, run, actions) && k < |run|
    ensures Inv(cfg, run[k]) && (k < |actions| ==> run[k + 1] == Step(cfg, run[k], actions[k]))
  {
    hide Inv, Step, Valid, Usable, Timely;
    assert Last(run[..k + 1]) == run[k];
    RunInv(cfg, run[..k + 1], actions[..k]);
  }

  lemma InvSays(cfg: Config, v: Vault)
    requires Inv(cfg, v)
    ensures AllQueued(cfg, v.queues) && Lawful(cfg, v) && Prompt(cfg, v)
  {
  }

  /** From position `i` to position `j` nothing arrives. */
  ghost predicate NoArrivals(actions: seq<Action>, i: nat, j: nat)
    requires j <= |actions|
  {
    forall k :: i <= k < j ==> !actions[k].Arrive?
  }

  lemma StepClock(cfg: Config, v: Vault, a: Action)
    ensures Step(cfg, v, a).clk == v.clk + if a.Cycle? then 1 else 0
  {
    hide Receive, BeforeServe, Serve;
    match a
    case Arrive(p) => ReceiveFrame(cfg, v, p);
    case Cycle =>
      BeforeServeFrame(cfg, v);
      ServeClock(cfg, BeforeServe(cfg, v));
    case Leave =>
  }

  /** The cycle of a run that ends at a given clock. */
  lemma {:induction false} CycleAt(cfg: Config, run: seq<Vault>, actions: seq<Action>, i: nat, j: nat, clk: int)
      returns (m: nat)
    requires IsRun(cfg, run, actions) && i <= j < |run| && run[i].clk < clk <= run[j].clk
    ensures i <= m < j && actions[m].Cycle? && run[m + 1].clk == clk && run[m].clk == clk - 1
    decreases j
  {
    hide Step, Valid;
    StepClock(cfg, run[j - 1], actions[j - 1]);
    assert run[j - 1 + 1] == Step(cfg, run[j - 1], actions[j - 1]);
    if run[j - 1].clk < clk {
      m := j - 1;
    } else {
      m := CycleAt(cfg, run, actions, i, j - 1, clk);
    }
  }

  /** Without arrivals the work left only gets less. */
  lemma {:induction false} LeftFalls(cfg: Config, run: seq<Vault>, actions: seq<Action>, i: nat, j: nat)
    requires Usable(cfg) && Timely(cfg) && IsRun(cfg, run, actions) && i <= j < |run| && NoArrivals(actions, i, j)
    ensures Left(run[j]) <= Left(run[i])
    decreases j
  {
    hide Left, Step, Valid, Inv, Usable, Timely, AllQueued, Lawful, Prompt;
    if i < j {
      LeftFalls(cfg, run, actions, i, j - 1);
      InvAt(cfg, run, actions, j - 1);
      InvSays(cfg, run[j - 1]);
      LeftStep(cfg, run[j - 1], actions[j - 1]);
    }
  }

  // ---------------------------------------------------------------- a column command in time

  /** At this clock no refresh is queued, and none will be for a whole stretch. */
  predicate Quiet(cfg: Config, w: nat, clk: int)
    requires 0 < cfg.speed.nREFI
  {
    RefreshWait(cfg) <= clk % cfg.speed.nREFI < cfg.speed.nREFI - Stretch(cfg, w)
  }

  lemma Remainder(x: int, q: int, n: int)
    requires q * n <= x < (q + 1) * n && 0 < n
    ensures x % n == x - q * n
  {
    var r := x - q * n;
    assert x / n == q by {
      assert (x / n) * n <= x < (x / n + 1) * n;
      if x / n < q {
        Monotone(x / n + 1, q, n);
      } else if q < x / n {
        Monotone(q + 1, x / n, n);
      }
    }
  }

  /** Refreshes are far enough apart for a whole stretch in between. */
  predicate Roomy(cfg: Config, w: nat) { RefreshWait(cfg) + Stretch(cfg, w) < cfg.speed.nREFI }

  lemma RoomyIsTimely(cfg: Config, w: nat)
    requires Roomy(cfg, w)
    ensures Timely(cfg)
  {
  }

  /** A column command is issued within this many cycles: the next refresh may come just before the end of a stretch,
      and another stretch follows it. */
  function ServiceTime(cfg: Config, w: nat): nat { RefreshWait(cfg) + 2 * Stretch(cfg, w) + 1 }

  lemma QuietClock(cfg: Config, w: nat, clk: int) returns (c: int)
    requires Roomy(cfg, w) && 0 <= clk
    ensures clk < c && c + Stretch(cfg, w) <= clk + ServiceTime(cfg, w)
    ensures 0 < cfg.speed.nREFI && Quiet(cfg, w, c)
  {
    hide Stretch, RefreshWait;
    SomeWait(cfg);
    var n, wait := cfg.speed.nREFI, RefreshWait(cfg);
    var q, x := (clk + 1) / n, (clk + 1) % n;
    assert clk + 1 == q * n + x && (q + 1) * n == q * n + n && (q + 2) * n == (q + 1) * n + n;
    if x < wait {
      c := q * n + wait;
      Remainder(c, q, n);
    } else if x < n - Stretch(cfg, w) {
      c := clk + 1;
    } else {
      c := (q + 1) * n + wait;
      Remainder(c, q + 1, n);
    }
  }

  lemma SomeWait(cfg: Config)
    ensures 0 < RefreshWait(cfg)
  {
  }

  lemma QuietSays(cfg: Config, v: Vault, w: nat)
    requires Prompt(cfg, v) && Roomy(cfg, w) && 0 < cfg.speed.nREFI && Quiet(cfg, w, v.clk)
    ensures v.queues.other == [] && v.timer.clk == v.clk
    ensures v.clk + Stretch(cfg, w) < v.timer.refreshed + cfg.speed.nREFI
  {
    hide Stretch, RefreshWait, Refreshes, Punctual, QuietSince, NoneAfter, AnyOpen;
    var n := cfg.speed.nREFI;
    var k := |Refreshes(cfg, v.issued.history)| + |v.queues.other|;
    assert (k + 1) * n == k * n + n && k * n == n * k;
    Remainder(v.clk, k, n);
  }

  lemma StretchStarts(cfg: Config, v: Vault, w: nat)
    requires LongestWait(cfg.speed, w) && Roomy(cfg, w) && Inv(cfg, v) && Inv(cfg, Step(cfg, v, Cycle))
    requires !IssuesColumn(cfg, BeforeServe(cfg, v)) && 0 < cfg.speed.nREFI && Quiet(cfg, w, Step(cfg, v, Cycle).clk)
    ensures var u := Step(cfg, v, Cycle); Undisturbed(cfg, u, w, u.clk) && Engaged(cfg, u, w, u.clk)
  {
    hide LongestWait, Inv, Step, IssuesColumn, BeforeServe, AllQueued, Lawful, Prompt, Stretch, Banks, Roomy, Quiet,
         Settled, Tame, RowsAgree;
    var u := Step(cfg, v, Cycle);
    InvSays(cfg, v);
    InvSays(cfg, u);
    SettledAfter(cfg, v);
    QuietSays(cfg, u, w);
    LawfulIsTame(cfg, u);
    AtLeastOne(cfg.speed, w);
    JustStarted(cfg, u, w);
  }

  lemma JustStarted(cfg: Config, u: Vault, w: nat)
    requires RowsAgree(cfg, u.issued.history, u.issued.table) && AllBefore(u.issued.history, u.clk) && 1 <= w
    ensures Engaged(cfg, u, w, u.clk)
  {
    hide RowsAgree, Hits, ToClose, Banks;
    TableIsSmall(cfg, u.issued.history, u.issued.table);
    if j :| 0 <= j < |ServedQueue(u)| && Hits(cfg, u.issued.history, ServedQueue(u)[j]) {
      assert Hitting(cfg, u, w, u.clk, j, u.clk);
    } else {
      assert Closing(cfg, u, w, u.clk);
    }
  }

  lemma EngagedStep(cfg: Config, v: Vault, a: Action, w: nat, from: int)
    requires LongestWait(cfg.speed, w) && Inv(cfg, v) && 0 < Left(v) && !a.Arrive?
    requires Undisturbed(cfg, v, w, from) && Engaged(cfg, v, w, from) && Left(v) <= Left(Step(cfg, v, a))
    ensures Undisturbed(cfg, Step(cfg, v, a), w, from) && Engaged(cfg, Step(cfg, v, a), w, from)
  {
    hide LongestWait, Inv, IssuesColumn, BeforeServe, Serve, AllQueued, Lawful, Prompt, Left, Closing, Hitting, Stretch,
         NoneAfter;
    InvSays(cfg, v);
    LeftStep(cfg, v, a);
    var u := Step(cfg, v, a);
    if a.Cycle? {
      EngagedCycle(cfg, v, w, from);
    } else if Closing(cfg, v, w, from) {
      ClosingSame(cfg, v, u, w, from);
    } else {
      var j: nat, since :| Hitting(cfg, v, w, from, j, since);
      HittingSame(cfg, v, u, w, from, j, since);
    }
  }

  /** As long as the work does not get less, the stretch goes on. */
  lemma {:induction false} EngagedRun(cfg: Config, run: seq<Vault>, actions: seq<Action>, i: nat, k: nat, j: nat,
                                      w: nat, from: int)
    requires Usable(cfg) && Timely(cfg) && IsRun(cfg, run, actions) && i <= k <= j < |run| && NoArrivals(actions, i, j)
    requires LongestWait(cfg.speed, w) && 0 < Left(run[i]) <= Left(run[j])
    requires Undisturbed(cfg, run[i], w, from) && Engaged(cfg, run[i], w, from)
    ensures Undisturbed(cfg, run[k], w, from) && Engaged(cfg, run[k], w, from)
    decreases k
  {
    hide Usable, Timely, LongestWait, Left, Undisturbed, Engaged, Inv, Step, Valid;
    if i < k {
      EngagedRun(cfg, run, actions, i, k - 1, j, w, from);
      LeftFalls(cfg, run, actions, i, k - 1);
      LeftFalls(cfg, run, actions, k - 1, j);
      LeftFalls(cfg, run, actions, k, j);
      InvAt(cfg, run, actions, k - 1);
      EngagedStep(cfg, run[k - 1], actions[k - 1], w, from);
    }
  }

  /** While there is work and nothing arrives, a column command is issued in time. */
  lemma ColumnInTime(cfg: Config, run: seq<Vault>, actions: seq<Action>, i: nat, j: nat, w: nat)
    requires Usable(cfg) && IsRun(cfg, run, actions) && i <= j < |run| && NoArrivals(actions, i, j)
    requires LongestWait(cfg.speed, w) && Roomy(cfg, w) && 0 < Left(run[i])
    requires run[i].clk + ServiceTime(cfg, w) <= run[j].clk
    ensures Left(run[j]) < Left(run[i])
  {
    hide Usable, Timely, LongestWait, Left, Undisturbed, Engaged, Inv, Step, Valid, Roomy, Stretch, ServiceTime, Quiet,
         AllQueued, Lawful, Prompt, IssuesColumn, BeforeServe;
    RoomyIsTimely(cfg, w);
    InvAt(cfg, run, actions, i);
    InvSays(cfg, run[i]);
    ClockIsNatural(cfg, run[i]);
    var c := QuietClock(cfg, w, run[i].clk);
    var m := CycleAt(cfg, run, actions, i, j, c);
    InvAt(cfg, run, actions, m);
    InvAt(cfg, run, actions, m + 1);
    LeftFalls(cfg, run, actions, i, m);
    LeftFalls(cfg, run, actions, m + 1, j);
    InvSays(cfg, run[m]);
    LeftStep(cfg, run[m], actions[m]);
    if Left(run[i]) <= Left(run[j]) {
      StretchStarts(cfg, run[m], w);
      EngagedRun(cfg, run, actions, m + 1, j, j, w, c);
      AtLeastOne(cfg.speed, w);
      EngagedIsEarly(cfg, run[j], w, c);
    }
  }

  lemma ClockIsNatural(cfg: Config, v: Vault)
    requires Lawful(cfg, v)
    ensures 0 <= v.clk
  {
  }

  /** Once nothing arrives any more, all queued reads and writes are served in time. */
  lemma {:induction false} QueuesDrain(cfg: Config, run: seq<Vault>, actions: seq<Action>, i: nat, j: nat, w: nat)
    requires Usable(cfg) && IsRun(cfg, run, actions) && i <= j < |run| && NoArrivals(actions, i, j)
    requires LongestWait(cfg.speed, w) && Roomy(cfg, w)
    requires run[i].clk + ServiceTime(cfg, w) * Left(run[i]) <= run[j].clk
    ensures run[j].queues.read == [] && run[j].queues.write == []
    decreases Left(run[i])
  {
    hide Usable, Timely, LongestWait, Left, Inv, Step, Valid, Roomy, ServiceTime, IsRun, AllQueued, Lawful, Prompt;
    RoomyIsTimely(cfg, w);
    InvAt(cfg, run, actions, i);
    InvSays(cfg, run[i]);
    NothingLeft(cfg, run[i]);
    var n, left := ServiceTime(cfg, w), Left(run[i]);
    if left == 0 {
      LeftFalls(cfg, run, actions, i, j);
      InvAt(cfg, run, actions, j);
      InvSays(cfg, run[j]);
      NothingLeft(cfg, run[j]);
    } else {
      assert n * left == n + n * (left - 1) && 0 <= n * (left - 1) && 0 < n by {
        SomeService(cfg, w);
        Monotone(0, left - 1, n);
      }
      var m := CycleAt(cfg, run, actions, i, j, run[i].clk + n);
      ColumnInTime(cfg, run, actions, i, m + 1, w);
      Monotone(Left(run[m + 1]), left - 1, n);
      QueuesDrain(cfg, run, actions, m + 1, j, w);
    }
  }

  lemma SomeService(cfg: Config, w: nat)
    ensures 0 < ServiceTime(cfg, w)
  {
    SomeWait(cfg);
  }
}
