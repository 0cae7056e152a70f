/** Per-bank refresh with credit: refreshes are delayed while reads wait, pulled in while banks are idle or
    writes drain, and a bank is never more than eight refreshes ahead or behind. */
module Dsarp {
  import Bits

  datatype Loc = Loc(rank: nat, bank: nat)

  /** A queued refresh; bank and subarray are -1 when it is for the whole rank. */
  datatype Refresh = Refresh(rank: nat, bank: int, subarray: int)

  /** `perBank`: refreshes go to single banks.  `darp`: they may be delayed and pulled in. */
  datatype Config = Config(ranks: nat, banks: nat, subarrays: nat, perBank: bool, darp: bool, interval: int)

  const BACKLOG_MAX := 8
  const BACKLOG_MIN := -8
  const EARLY_PULL_THRESHOLD := -6
  const QUEUE_MAX := 32

  /** How many refreshes of a bank are in a log. */
  function Count(log: seq<Refresh>, rank: nat, bank: nat): nat {
    if log == [] then 0
    else Count(log[..|log| - 1], rank, bank) +
         if log[|log| - 1].rank == rank && log[|log| - 1].bank == bank then 1 else 0
  }

  /** How many of the first `slots` refresh slots of a rank are for this bank; they go round the banks. */
  function Due(slots: nat, banks: nat, bank: nat): nat
    requires 0 < banks
  {
    if slots == 0 then 0 else Due(slots - 1, banks, bank) + if (slots - 1) % banks == bank then 1 else 0
  }

  /** In `q` rounds and `rest` more slots, every bank is due `q` times, and once more if it was among the rest. */
  lemma {:induction false} DueInRounds(slots: nat, banks: nat, bank: nat, q: nat, rest: nat)
    requires bank < banks && rest < banks && slots == banks * q + rest
    ensures Due(slots, banks, bank) == q + if bank < rest then 1 else 0
    decreases slots
  {
    if slots == 0 {
      assert q == 0 by {
        if q > 0 {
          Bits.MulStep(banks, 0, q);
        }
      }
    } else if rest > 0 {
      Bits.QuotientAndRest(slots - 1, banks, q, rest - 1);
      DueInRounds(slots - 1, banks, bank, q, rest - 1);
    } else {
      assert banks * q == banks * (q - 1) + banks;
      Bits.QuotientAndRest(slots - 1, banks, q - 1, banks - 1);
      DueInRounds(slots - 1, banks, bank, q - 1, banks - 1);
    }
  }

  /** The refreshes of each bank go round its subarrays. */
  ghost predicate RoundRobin(log: seq<Refresh>, subarrays: nat)
    requires 0 < subarrays
  {
    forall i :: 0 <= i < |log| && 0 <= log[i].bank ==>
      log[i].subarray == Count(log[..i], log[i].rank, log[i].bank) % subarrays
  }

  lemma CountSnoc(log: seq<Refresh>, e: Refresh, rank: nat, bank: nat)
    ensures Count(log + [e], rank, bank) == Count(log, rank, bank) + if e.rank == rank && e.bank == bank then 1 else 0
  {
    assert (log + [e])[..|log|] == log;
  }

  lemma RoundRobinSnoc(log: seq<Refresh>, e: Refresh, subarrays: nat)
    requires 0 < subarrays && RoundRobin(log, subarrays)
    requires 0 <= e.bank ==> e.subarray == Count(log, e.rank, e.bank) % subarrays
    ensures RoundRobin(log + [e], subarrays)
  {
    forall i | 0 <= i < |log + [e]| && 0 <= (log + [e])[i].bank
      ensures (log + [e])[i].subarray == Count((log + [e])[..i], (log + [e])[i].rank, (log + [e])[i].bank) % subarrays
    {
      assert (log + [e])[..i] == if i < |log| then log[..i] else log;
    }
  }

  lemma NextInTurn(c: nat, n: nat)
    requires 0 < n
    ensures (c % n + 1) % n == (c + 1) % n
  {
    Bits.DivNonNegative(c, n);
    if c % n + 1 == n {
      assert n * (c / n + 1) == n * (c / n) + n;
      Bits.QuotientAndRest(c + 1, n, c / n + 1, 0);
      Bits.QuotientAndRest(n, n, 1, 0);
    } else {
      Bits.QuotientAndRest(c + 1, n, c / n, c % n + 1);
      Bits.QuotientAndRest(c % n + 1, n, 0, c % n + 1);
    }
  }

  function Turn(start: nat, c: nat, banks: nat): (bank: nat)
    requires 0 < banks
    ensures bank < banks
  {
    (start + c) % banks
  }

  /** From any bank on, in turn, every bank comes up. */
  lemma InTurn(start: nat, banks: nat, bank: nat)
    requires start < banks && bank < banks
    ensures exists c :: 0 <= c < banks && Turn(start, c, banks) == bank
  {
    var c := if start <= bank then bank - start else bank + banks - start;
    Bits.QuotientAndRest(start + c, banks, if start <= bank then 0 else 1, bank);
    assert Turn(start, c, banks) == bank;
  }

  lemma ZeroIsFirst(n: nat)
    requires 0 < n
    ensures 0 % n == 0
  {
  }

  function Fill<T>(n: nat, x: T): (s: seq<T>)
    ensures |s| == n && forall i :: 0 <= i < n ==> s[i] == x
  {
    seq(n, _ => x)
  }

  // ---------------------------------------------------------------- demand

  function Demand(q: seq<Loc>, loc: Loc): nat {
    if q == [] then 0 else Demand(q[..|q| - 1], loc) + if q[|q| - 1] == loc then 1 else 0
  }

  /** The requests of each bank of a rank. */
  method CountDemand(q: seq<Loc>, rank: nat, banks: nat) returns (demand: seq<nat>, total: nat)
    requires forall i :: 0 <= i < |q| ==> q[i].bank < banks
    ensures |demand| == banks && forall b :: 0 <= b < banks ==> demand[b] == Demand(q, Loc(rank, b))
    ensures total == 0 <==> forall i :: 0 <= i < |q| ==> q[i].rank != rank
  {
    demand, total := Fill(banks, 0), 0;
    for i := 0 to |q|
      invariant |demand| == banks && forall b :: 0 <= b < banks ==> demand[b] == Demand(q[..i], Loc(rank, b))
      invariant total == 0 <==> forall j :: 0 <= j < i ==> q[j].rank != rank
    {
      assert q[..i + 1][..i] == q[..i];
      if q[i].rank == rank {
        var more: nat := demand[q[i].bank] + 1;
        demand := demand[q[i].bank := more];
        total := total + 1;
      }
    }
    assert q[..|q|] == q;
  }

  /** Banks in the order of their demand, none twice. */
  ghost predicate InOrder(demand: seq<nat>, order: seq<nat>) {
    && (forall i :: 0 <= i < |order| ==> order[i] < |demand|)
    && forall i, j :: 0 <= i < j < |order| ==> order[i] != order[j] && demand[order[i]] <= demand[order[j]]
  }

  lemma InsertInOrder(demand: seq<nat>, order: seq<nat>, k: nat, at: nat)
    requires InOrder(demand, order) && k < |demand| && at <= |order| && k !in order
    requires forall i :: at <= i < |order| ==> demand[k] < demand[order[i]]
    requires at > 0 ==> demand[order[at - 1]] <= demand[k]
    ensures InOrder(demand, order[..at] + [k] + order[at..])
    ensures forall b :: b in order[..at] + [k] + order[at..] <==> b in order || b == k
  {
    SlicesInOrder(demand, order, k, at);
    GlueInOrder(demand, order[..at], k, order[at..]);
    InsertMembers(order[..at], k, order[at..]);
    assert order == order[..at] + order[at..];
    hide InOrder;
  }

  lemma SlicesInOrder(demand: seq<nat>, order: seq<nat>, k: nat, at: nat)
    requires InOrder(demand, order) && k < |demand| && at <= |order| && k !in order
    requires forall i :: at <= i < |order| ==> demand[k] < demand[order[i]]
    requires at > 0 ==> demand[order[at - 1]] <= demand[k]
    ensures InOrder(demand, order[..at]) && InOrder(demand, order[at..])
    ensures forall i :: 0 <= i < at ==> order[..at][i] != k && demand[order[..at][i]] <= demand[k]
    ensures forall i :: 0 <= i < |order| - at ==> order[at..][i] != k && demand[k] < demand[order[at..][i]]
  {
    forall i | 0 <= i < at
      ensures order[i] != k && demand[order[i]] <= demand[k]
    {
      assert order[i] in order && (i == at - 1 || demand[order[i]] <= demand[order[at - 1]]);
    }
    forall i | 0 <= i < |order| - at
      ensures order[at..][i] != k && demand[k] < demand[order[at..][i]]
    {
      assert order[at + i] in order;
    }
  }

  lemma GlueInOrder(demand: seq<nat>, low: seq<nat>, k: nat, high: seq<nat>)
    requires InOrder(demand, low) && InOrder(demand, high) && k < |demand|
    requires forall i :: 0 <= i < |low| ==> low[i] != k && demand[low[i]] <= demand[k]
    requires forall i :: 0 <= i < |high| ==> high[i] != k && demand[k] < demand[high[i]]
    ensures InOrder(demand, low + [k] + high)
  {
    AppendInOrder(demand, low, [k]);
    var more := low + [k];
    forall i | 0 <= i < |more|
      ensures demand[more[i]] <= demand[k]
    {
      assert more[i] == if i < |low| then low[i] else k;
    }
    AppendInOrder(demand, more, high);
  }

  lemma AppendInOrder(demand: seq<nat>, low: seq<nat>, high: seq<nat>)
    requires InOrder(demand, low) && InOrder(demand, high)
    requires forall i, j :: 0 <= i < |low| && 0 <= j < |high| ==> low[i] != high[j] && demand[low[i]] <= demand[high[j]]
    ensures InOrder(demand, low + high)
  {
    var all := low + high;
    forall i, j | 0 <= i < j < |all|
      ensures all[i] != all[j] && demand[all[i]] <= demand[all[j]]
    {
      if |low| <= i {
        assert all[i] == high[i - |low|] && all[j] == high[j - |low|];
      } else if |low| <= j {
        assert all[i] == low[i] && all[j] == high[j - |low|];
      } else {
        assert all[i] == low[i] && all[j] == low[j];
      }
    }
  }

  lemma InsertMembers(low: seq<nat>, k: nat, high: seq<nat>)
    ensures forall b :: b in low + [k] + high <==> b in low + high || b == k
  {
    forall b
      ensures b in low + [k] + high <==> b in low || b == k || b in high
      ensures b in low + high <==> b in low || b in high
    {
    }
  }

  /** The banks, those with the least demand first. */
  method SortByDemand(demand: seq<nat>) returns (order: seq<nat>)
    ensures |order| == |demand| && InOrder(demand, order) && forall b :: b in order <==> 0 <= b < |demand|
  {
    order := [];
    for k := 0 to |demand|
      invariant |order| == k && InOrder(demand, order) && forall b :: b in order <==> 0 <= b < k
    {
      var at := k;
      while at > 0 && demand[k] < demand[order[at - 1]]
        invariant at <= k && forall i :: at <= i < k ==> demand[k] < demand[order[i]]
      {
        at := at - 1;
      }
      InsertInOrder(demand, order, k, at);
      order := order[..at] + [k] + order[at..];
    }
  }

  // ---------------------------------------------------------------- pulling refreshes in

  /** A refresh of a bank cannot be pulled in: a read waits for the bank, it has a refresh queued, it has credit
      enough, or there is no room. */
  ghost predicate Blocked(readq: seq<Loc>, otherq: seq<Refresh>, credit: int, loc: Loc) {
    || loc in readq
    || (exists i :: 0 <= i < |otherq| && otherq[i].rank == loc.rank && otherq[i].bank == loc.bank)
    || EARLY_PULL_THRESHOLD <= credit
    || QUEUE_MAX <= |otherq|
  }

  ghost predicate AllBlocked(readq: seq<Loc>, otherq: seq<Refresh>, credit: seq<int>, rank: nat) {
    forall b :: 0 <= b < |credit| ==> Blocked(readq, otherq, credit[b], Loc(rank, b))
  }

  lemma StillBlocked(readq: seq<Loc>, otherq: seq<Refresh>, more: seq<Refresh>, credit: seq<int>, rank: nat)
    requires otherq <= more && AllBlocked(readq, otherq, credit, rank)
    ensures AllBlocked(readq, more, credit, rank)
  {
  }

  /** The refreshes `news` were pulled in, at most one of each rank before `ranks`, for banks that were not blocked. */
  ghost predicate PulledIn(readq: seq<Loc>, otherq: seq<Refresh>, credit: seq<seq<int>>, news: seq<Refresh>,
                           ranks: nat) {
    && (forall i, j :: 0 <= i < j < |news| ==> news[i].rank < news[j].rank)
    && forall i :: 0 <= i < |news| ==>
         && news[i].rank < ranks <= |credit| && 0 <= news[i].bank < |credit[news[i].rank]|
         && !Blocked(readq, otherq, credit[news[i].rank][news[i].bank], Loc(news[i].rank, news[i].bank))
  }

  lemma PulledMore(readq: seq<Loc>, otherq: seq<Refresh>, credit: seq<seq<int>>, news: seq<Refresh>, e: Refresh)
    requires e.rank < |credit| && PulledIn(readq, otherq, credit, news, e.rank) && 0 <= e.bank < |credit[e.rank]|
    requires !Blocked(readq, otherq + news, credit[e.rank][e.bank], Loc(e.rank, e.bank))
    ensures PulledIn(readq, otherq, credit, news + [e], e.rank + 1)
  {
    assert forall i :: 0 <= i < |otherq| ==> (otherq + news)[i] == otherq[i];
  }

  lemma PulledNone(readq: seq<Loc>, otherq: seq<Refresh>, credit: seq<seq<int>>, news: seq<Refresh>, ranks: nat)
    requires ranks < |credit| && PulledIn(readq, otherq, credit, news, ranks)
    ensures PulledIn(readq, otherq, credit, news, ranks + 1)
  {
  }

  // ---------------------------------------------------------------- refreshing when due

  /** The banks that get the refreshes due now: the next one of each rank before `n`, if refreshes may not be
      delayed, or the bank is as far behind as it may be, or nothing else is going on. */
  ghost function Granted(darp: bool, idle: bool, credit: seq<seq<int>>, next: seq<nat>, n: nat): seq<Loc>
    requires n <= |credit| && n <= |next| && forall r :: 0 <= r < n ==> next[r] < |credit[r]|
  {
    if n == 0 then [] else
      var before := Granted(darp, idle, credit, next, n - 1);
      if !darp || credit[n - 1][next[n - 1]] - 1 <= BACKLOG_MIN || (idle && before == [])
      then before + [Loc(n - 1, next[n - 1])] else before
  }

  lemma {:induction false} GrantedSize(darp: bool, idle: bool, credit: seq<seq<int>>, next: seq<nat>, n: nat)
    requires n <= |credit| && n <= |next| && forall r :: 0 <= r < n ==> next[r] < |credit[r]|
    ensures |Granted(darp, idle, credit, next, n)| <= n
    ensures !darp ==> |Granted(darp, idle, credit, next, n)| == n
  {
    if n > 0 {
      GrantedSize(darp, idle, credit, next, n - 1);
    }
  }

  ghost predicate AreFor(news: seq<Refresh>, locs: seq<Loc>) {
    && |news| == |locs|
    && forall i :: 0 <= i < |news| ==> news[i].rank == locs[i].rank && news[i].bank == locs[i].bank
  }

  lemma SameSize(news: seq<Refresh>, locs: seq<Loc>)
    requires AreFor(news, locs)
    ensures |news| == |locs|
  {
  }

  lemma GrantedNext(darp: bool, idle: bool, credit: seq<seq<int>>, next: seq<nat>, n: nat, news: seq<Refresh>,
                    e: Refresh)
    requires n < |credit| && n < |next| && forall r :: 0 <= r <= n ==> next[r] < |credit[r]|
    requires AreFor(news, Granted(darp, idle, credit, next, n)) && e.rank == n && e.bank == next[n]
    ensures var now := !darp || credit[n][next[n]] - 1 <= BACKLOG_MIN || (idle && news == []);
            AreFor(if now then news + [e] else news, Granted(darp, idle, credit, next, n + 1))
  {
  }

  lemma SameFor(news: seq<Refresh>, a: Refresh, b: Refresh)
    requires a.rank == b.rank && a.bank == b.bank
    ensures forall locs :: AreFor(news + [a], locs) <==> AreFor(news + [b], locs)
  {
  }

  lemma NoneGranted(darp: bool, idle: bool, credit: seq<seq<int>>, next: seq<nat>)
    ensures AreFor([], Granted(darp, idle, credit, next, 0))
  {
  }

  // ---------------------------------------------------------------- refreshing while writes drain

  function TotalDemand(readq: seq<Loc>, writeq: seq<Loc>, loc: Loc): nat { Demand(writeq, loc) + Demand(readq, loc) }

  /** No bank of its rank has less demand. */
  ghost predicate Least(readq: seq<Loc>, writeq: seq<Loc>, rank: nat, bank: int, banks: nat) {
    && 0 <= bank < banks
    && forall b :: 0 <= b < banks ==>
         TotalDemand(readq, writeq, Loc(rank, bank)) <= TotalDemand(readq, writeq, Loc(rank, b))
  }

  ghost predicate Writes(writeq: seq<Loc>, rank: nat) { exists j :: 0 <= j < |writeq| && writeq[j].rank == rank }

  /** The refreshes `news` are parallel to writes: at most one of each rank before `ranks`, which has a write and had
      no refresh queued, for a bank with the least demand. */
  ghost predicate WriteParallel(readq: seq<Loc>, writeq: seq<Loc>, otherq: seq<Refresh>, news: seq<Refresh>, ranks: nat,
                                banks: nat) {
    && (forall i, j :: 0 <= i < j < |news| ==> news[i].rank < news[j].rank)
    && forall i :: 0 <= i < |news| ==>
         && news[i].rank < ranks && !AnyFor(otherq, news[i].rank)
         && Writes(writeq, news[i].rank) && Least(readq, writeq, news[i].rank, news[i].bank, banks)
  }

  /** A rank has no more to do for write parallelism: it has a refresh queued, or no write, or there is no room, or a
        bank with the least demand has all the credit it may have. */
  ghost predicate NoMoreForWrites(readq: seq<Loc>, writeq: seq<Loc>, otherq: seq<Refresh>, credit: seq<int>,
                                  rank: nat) {
    || AnyFor(otherq, rank) || !Writes(writeq, rank) || QUEUE_MAX <= |otherq|
    || exists b :: Least(readq, writeq, rank, b, |credit|) && BACKLOG_MAX <= credit[b]
  }

  lemma ParallelMore(readq: seq<Loc>, writeq: seq<Loc>, otherq: seq<Refresh>, news: seq<Refresh>, e: Refresh,
                     banks: nat)
    requires WriteParallel(readq, writeq, otherq, news, e.rank, banks) && !AnyFor(otherq + news, e.rank)
    requires Writes(writeq, e.rank) && Least(readq, writeq, e.rank, e.bank, banks)
    ensures WriteParallel(readq, writeq, otherq, news + [e], e.rank + 1, banks)
  {
    hide Writes, Least;
    assert forall i :: 0 <= i < |otherq| ==> (otherq + news)[i] == otherq[i];
  }

  lemma ParallelNone(readq: seq<Loc>, writeq: seq<Loc>, otherq: seq<Refresh>, news: seq<Refresh>, ranks: nat,
                     banks: nat)
    requires WriteParallel(readq, writeq, otherq, news, ranks, banks)
    ensures WriteParallel(readq, writeq, otherq, news, ranks + 1, banks)
  {
  }

  lemma StillNoMore(readq: seq<Loc>, writeq: seq<Loc>, otherq: seq<Refresh>, e: Refresh, credit: seq<int>, rank: nat)
    requires NoMoreForWrites(readq, writeq, otherq, credit, rank)
    ensures NoMoreForWrites(readq, writeq, otherq + [e], credit, rank)
  {
    AnyMore(otherq, e);
  }

  /** One of the refreshes is for this rank. */
  ghost predicate AnyFor(news: seq<Refresh>, rank: nat) { exists i :: 0 <= i < |news| && news[i].rank == rank }

  lemma AnyMore(news: seq<Refresh>, e: Refresh)
    ensures forall r :: AnyFor(news + [e], r) <==> AnyFor(news, r) || e.rank == r
  {
    assert (news + [e])[|news|] == e;
    assert forall i :: 0 <= i < |news| ==> (news + [e])[i] == news[i];
  }

  // ---------------------------------------------------------------- the controller's queue

  /** The controller's queue when `news` were offered one after the other: a full queue refuses. */
  ghost function Accepted(was: seq<Refresh>, news: seq<Refresh>): seq<Refresh> {
    if |was| <= QUEUE_MAX < |was| + |news| then (was + news)[..QUEUE_MAX] else was + news
  }

  lemma AcceptedSnoc(was: seq<Refresh>, news: seq<Refresh>, e: Refresh)
    ensures Accepted(was, news + [e]) ==
              Accepted(was, news) + if |Accepted(was, news)| != QUEUE_MAX then [e] else []
  {
    assert was + (news + [e]) == (was + news) + [e];
    assert |was| + |news| == QUEUE_MAX ==> (was + news + [e])[..QUEUE_MAX] == was + news;
    assert |was| <= QUEUE_MAX < |was| + |news| ==> (was + news + [e])[..QUEUE_MAX] == (was + news)[..QUEUE_MAX];
  }

  /** None is refused exactly when they fit; a queue that is beyond its bound never refuses. */
  lemma AllAccepted(was: seq<Refresh>, news: seq<Refresh>)
    ensures Accepted(was, news) == was + news <==> |was| + |news| <= QUEUE_MAX || QUEUE_MAX < |was|
  {
  }

  /** The refresh that a rank of one bank must have, being seven behind when its slot comes, is refused by a full
      queue: `refresh_target` fails its assertion. */
  lemma DueIsRefused(darp: bool)
    ensures var full := seq(QUEUE_MAX, i => Refresh(0, 0, 0));
            var due := Granted(darp, false, [[BACKLOG_MIN + 1]], [0], 1);
            && due == [Loc(0, 0)]
            && forall e :: AreFor([e], due) ==> Accepted(full, [e]) == full && full != full + [e]
  {
    var full := seq(QUEUE_MAX, i => Refresh(0, 0, 0));
    assert Granted(darp, false, [[BACKLOG_MIN + 1]], [0], 0) == [];
    assert forall e :: (full + [e])[..QUEUE_MAX] == full;
    assert forall e :: |full + [e]| == QUEUE_MAX + 1;
  }

  // ---------------------------------------------------------------- the scheduler

  /** What the scheduler sees of the controller: its queues, and whether it drains writes. */
  class Controller {
    var readq: seq<Loc>
    var writeq: seq<Loc>
    var otherq: seq<Refresh>
    var writeMode: bool

    constructor ()
      ensures readq == [] && writeq == [] && otherq == [] && !writeMode
    {
      readq, writeq, otherq, writeMode := [], [], [], false;
    }
  }

  class Scheduler {
    const cfg: Config
    const ctrl: Controller
    var clk: int
    var refreshed: int
    var ctrlWriteMode: bool

    /** By rank: the bank whose slot comes next, and, by bank, the credit and the next subarray. */
    var bankCounter: seq<nat>
    var backlog: seq<seq<int>>
    var subarrayCounter: seq<seq<nat>>

    /** All refreshes ever asked for, and how many slots each rank has had. */
    ghost var log: seq<Refresh>
    ghost var slots: seq<nat>

    constructor (cfg: Config, ctrl: Controller)
      requires 0 < cfg.banks <= cfg.subarrays
      ensures Valid() && this.cfg == cfg && this.ctrl == ctrl && log == [] && clk == refreshed == 0
      ensures slots == Fill(cfg.ranks, 0)
    {
      this.cfg, this.ctrl := cfg, ctrl;
      clk, refreshed, ctrlWriteMode := 0, 0, false;
      bankCounter, backlog := Fill(cfg.ranks, 0), Fill(cfg.ranks, Fill(cfg.banks, 0));
      subarrayCounter := Fill(cfg.ranks, Fill(cfg.subarrays, 0));
      log, slots := [], Fill(cfg.ranks, 0);
      new;
      ZeroIsFirst(cfg.banks);
      ZeroIsFirst(cfg.subarrays);
      hide Fill;
    }

    /** The vectors have the sizes that they are indexed with; a rank's subarray counters are indexed by bank. */
    ghost predicate Sized()
      reads `bankCounter, `backlog, `subarrayCounter, `slots
    {
      && 0 < cfg.banks <= cfg.subarrays
      && |bankCounter| == |backlog| == |subarrayCounter| == |slots| == cfg.ranks
      && (forall r :: 0 <= r < cfg.ranks ==> |backlog[r]| == cfg.banks)
      && (forall r :: 0 <= r < cfg.ranks ==> |subarrayCounter[r]| == cfg.subarrays)
    }

    /** The credit of a bank is what it got more than was due; its next subarray is the next in turn. */
    ghost predicate BankAgrees(r: nat, b: nat)
      requires Sized() && r < cfg.ranks && b < cfg.banks
      reads `bankCounter, `backlog, `subarrayCounter, `slots, `log
    {
      && backlog[r][b] == Count(log, r, b) - Due(slots[r], cfg.banks, b)
      && subarrayCounter[r][b] == Count(log, r, b) % cfg.subarrays
    }

    ghost predicate Agrees()
      reads `bankCounter, `backlog, `subarrayCounter, `slots, `log
    {
      && Sized() && RoundRobin(log, cfg.subarrays)
      && (forall r :: 0 <= r < cfg.ranks ==> bankCounter[r] == slots[r] % cfg.banks)
      && forall r, b :: 0 <= r < cfg.ranks && 0 <= b < cfg.banks ==> BankAgrees(r, b)
    }

    /** No bank is more than `low` behind, or more than eight ahead. */
    ghost predicate Bounded(low: int)
      requires Sized()
      reads `bankCounter, `backlog, `subarrayCounter, `slots
    {
      forall r, b :: 0 <= r < cfg.ranks && 0 <= b < cfg.banks ==> low <= backlog[r][b] <= BACKLOG_MAX
    }

    ghost predicate Valid()
      reads `bankCounter, `backlog, `subarrayCounter, `slots, `log
    {
      Agrees() && Bounded(BACKLOG_MIN + 1)
    }

    /** After `q` rounds of slots, every bank has had at least `q - 7` refreshes and at most `q + 9`. */
    lemma KeepsPace(rank: nat, bank: nat, q: nat, rest: nat)
      requires Valid() && rank < cfg.ranks && bank < cfg.banks
      requires rest < cfg.banks && slots[rank] == cfg.banks * q + rest
      ensures q - 7 <= Count(log, rank, bank) <= q + 9
    {
      assert BankAgrees(rank, bank);
      DueInRounds(slots[rank], cfg.banks, bank, q, rest);
    }

    /** What was queued since: what was asked for, as far as it was accepted. */
    ghost predicate Queued(was: seq<Refresh>, asked: seq<Refresh>)
      reads `log, ctrl`otherq
    {
      |asked| <= |log| && log[..|asked|] == asked && ctrl.otherq == Accepted(was, log[|asked|..])
    }

    // -------------------------------------------------------------- one refresh

    /** The controller is asked to queue a refresh; it refuses if its queue is full. */
    method RefreshTarget(rank: nat, bank: int, subarray: int)
      requires Sized() && RoundRobin(log, cfg.subarrays)
      requires 0 <= bank ==> subarray == Count(log, rank, bank) % cfg.subarrays
      modifies this`log, ctrl`otherq
      ensures log == old(log) + [Refresh(rank, bank, subarray)] && RoundRobin(log, cfg.subarrays)
      ensures ctrl.otherq == old(ctrl.otherq) +
                if |old(ctrl.otherq)| != QUEUE_MAX then [Refresh(rank, bank, subarray)] else []
      ensures forall was, asked :: old(Queued(was, asked)) ==> Queued(was, asked)
    {
      var req := Refresh(rank, bank, subarray);
      if QUEUE_MAX != |ctrl.otherq| {
        ctrl.otherq := ctrl.otherq + [req];
      }
      RoundRobinSnoc(log, req, cfg.subarrays);
      log := log + [req];
      forall was, asked | old(Queued(was, asked))
        ensures Queued(was, asked)
      {
        assert log[|asked|..] == old(log)[|asked|..] + [req];
        AcceptedSnoc(was, old(log)[|asked|..], req);
      }
    }

    /** A bank gets a refresh, for its next subarray, and a credit. */
    method Grant(rank: nat, bank: nat)
      requires Agrees() && rank < cfg.ranks && bank < cfg.banks
      modifies this`log, this`backlog, this`subarrayCounter, ctrl`otherq
      ensures Agrees()
      ensures backlog == old(backlog)[rank := old(backlog)[rank][bank := old(backlog)[rank][bank] + 1]]
      ensures |log| == |old(log)| + 1 && log[..|old(log)|] == old(log)
      ensures log[|old(log)|].rank == rank && log[|old(log)|].bank == bank
      ensures ctrl.otherq == old(ctrl.otherq) + if |old(ctrl.otherq)| != QUEUE_MAX then [log[|old(log)|]] else []
      ensures forall was, asked :: old(Queued(was, asked)) ==> Queued(was, asked)
    {
      hide Count, Due, RoundRobin, Queued;
      assert BankAgrees(rank, bank);
      RefreshTarget(rank, bank, subarrayCounter[rank][bank]);
      backlog := backlog[rank := backlog[rank][bank := backlog[rank][bank] + 1]];
      var next: nat := (subarrayCounter[rank][bank] + 1) % cfg.subarrays;
      var row: seq<nat> := subarrayCounter[rank];
      row := row[bank := next];
      subarrayCounter := subarrayCounter[rank := row];
      NextInTurn(Count(old(log), rank, bank), cfg.subarrays);
      forall r, b | 0 <= r < cfg.ranks && 0 <= b < cfg.banks
        ensures BankAgrees(r, b)
      {
        assert old(BankAgrees(r, b));
        CountSnoc(old(log), log[|old(log)|], r, b);
      }
    }

    /** The slot of a rank's next bank has come: it is one more refresh behind. */
    method TakeSlot(rank: nat) returns (bank: nat)
      requires Agrees() && Bounded(BACKLOG_MIN + 1) && rank < cfg.ranks
      modifies this`slots, this`backlog, this`bankCounter
      ensures Agrees() && Bounded(BACKLOG_MIN) && bank == old(bankCounter)[rank] < cfg.banks
      ensures bankCounter == old(bankCounter)[rank := (bank + 1) % cfg.banks]
      ensures slots == old(slots)[rank := old(slots)[rank] + 1]
      ensures backlog == old(backlog)[rank := old(backlog)[rank][bank := old(backlog)[rank][bank] - 1]]
    {
      bank := bankCounter[rank];
      backlog := backlog[rank := backlog[rank][bank := backlog[rank][bank] - 1]];
      NextInTurn(slots[rank], cfg.banks);
      bankCounter := bankCounter[rank := (bankCounter[rank] + 1) % cfg.banks];
      slots := slots[rank := slots[rank] + 1];
      forall r, b | 0 <= r < cfg.ranks && 0 <= b < cfg.banks
        ensures BankAgrees(r, b)
      {
        assert old(BankAgrees(r, b));
      }
    }

    // -------------------------------------------------------------- whom to refresh

    method PendingFor(rank: nat, bank: int) returns (pending: bool)
      ensures pending <==>
                exists i :: 0 <= i < |ctrl.otherq| && ctrl.otherq[i].rank == rank && ctrl.otherq[i].bank == bank
    {
      pending := false;
      for i := 0 to |ctrl.otherq|
        invariant pending == exists j :: 0 <= j < i && ctrl.otherq[j].rank == rank && ctrl.otherq[j].bank == bank
      {
        if ctrl.otherq[i].rank == rank && ctrl.otherq[i].bank == bank {
          pending := true;
        }
      }
    }

    method IsRead(loc: Loc) returns (read: bool)
      ensures read == (loc in ctrl.readq)
    {
      read := false;
      for i := 0 to |ctrl.readq|
        invariant read == exists j :: 0 <= j < i && ctrl.readq[j] == loc
      {
        if ctrl.readq[i] == loc {
          read := true;
        }
      }
    }

    /** While reads are served, each rank pulls in a refresh of one bank that no read waits for, that has none
        queued, and that has almost run out of credit, if it has such a bank and there is room. */
    method EarlyInject()
      requires Valid()
      modifies this`log, this`backlog, this`subarrayCounter, ctrl`otherq
      ensures Valid() && |old(log)| <= |log| <= |old(log)| + cfg.ranks && log[..|old(log)|] == old(log)
      ensures forall was, asked :: old(Queued(was, asked)) ==> Queued(was, asked)
      ensures var news := log[|old(log)|..];
              && ctrl.otherq == old(ctrl.otherq) + news
              && PulledIn(ctrl.readq, old(ctrl.otherq), old(backlog), news, cfg.ranks)
              && if ctrl.writeMode then news == [] && backlog == old(backlog)
                 else forall r :: 0 <= r < cfg.ranks ==>
                        AnyFor(news, r) || AllBlocked(ctrl.readq, ctrl.otherq, backlog[r], r)
    {
      hide BankAgrees, Bounded, Count, Due, RoundRobin, Queued, AllBlocked, AnyFor, PulledIn, Blocked;
      ghost var news := [];
      NonePulled(cfg.ranks);
      if ctrl.writeMode {
        return;
      }
      for r := 0 to cfg.ranks
        invariant Valid() && |news| <= r && log == old(log) + news
        invariant ctrl.otherq == old(ctrl.otherq) + news
        invariant forall was, asked :: old(Queued(was, asked)) ==> Queued(was, asked)
        invariant PulledIn(ctrl.readq, old(ctrl.otherq), old(backlog), news, r)
        invariant forall q :: r <= q < cfg.ranks ==> backlog[q] == old(backlog)[q]
        invariant forall q :: 0 <= q < r ==> AnyFor(news, q) || AllBlocked(ctrl.readq, ctrl.otherq, backlog[q], q)
      {
        ghost var before, queued := log, ctrl.otherq;
        EarlyRank(r);
        if log == before {
          PulledNone(ctrl.readq, old(ctrl.otherq), old(backlog), news, r);
        } else {
          ghost var e := log[|before|];
          PulledMore(ctrl.readq, old(ctrl.otherq), old(backlog), news, e);
          AnyMore(news, e);
          forall q | 0 <= q < r && !AnyFor(news, q)
            ensures AllBlocked(ctrl.readq, ctrl.otherq, backlog[q], q)
          {
            StillBlocked(ctrl.readq, queued, ctrl.otherq, backlog[q], q);
          }
          news := news + [e];
        }
      }
    }

    lemma NonePulled(ranks: nat)
      ensures forall readq, otherq, credit, r: nat :: PulledIn(readq, otherq, credit, [], r)
    {
    }

    /** The banks of a rank are examined in turn, from any one on. */
    method EarlyRank(rank: nat)
      requires Valid() && rank < cfg.ranks
      modifies this`log, this`backlog, this`subarrayCounter, ctrl`otherq
      ensures Valid() && forall r :: 0 <= r < cfg.ranks && r != rank ==> backlog[r] == old(backlog)[r]
      ensures log == old(log) || (|log| == |old(log)| + 1 && log == old(log) + [log[|old(log)|]])
      ensures ctrl.otherq == old(ctrl.otherq) + log[|old(log)|..]
      ensures log == old(log) ==> backlog == old(backlog) && AllBlocked(ctrl.readq, ctrl.otherq, backlog[rank], rank)
      ensures log != old(log) ==>
                var e := log[|old(log)|];
                e.rank == rank && 0 <= e.bank < cfg.banks &&
                !Blocked(ctrl.readq, old(ctrl.otherq), old(backlog)[rank][e.bank], Loc(rank, e.bank))
      ensures forall was, asked :: old(Queued(was, asked)) ==> Queued(was, asked)
    {
      hide BankAgrees, Bounded, Count, Due, RoundRobin, Queued;
      var start: nat :| start < cfg.banks;
      var b := 0;
      while b < cfg.banks
        invariant b <= cfg.banks && Valid() && log == old(log) && ctrl.otherq == old(ctrl.otherq)
        invariant backlog == old(backlog)
        invariant forall c :: 0 <= c < b ==>
                    var x := Turn(start, c, cfg.banks); Blocked(ctrl.readq, ctrl.otherq, backlog[rank][x], Loc(rank, x))
      {
        var bank: nat := Turn(start, b, cfg.banks);
        var occupied := IsRead(Loc(rank, bank));
        var pending := PendingFor(rank, bank);
        if !occupied && !pending && backlog[rank][bank] < EARLY_PULL_THRESHOLD && |ctrl.otherq| < QUEUE_MAX {
          PullIn(rank, bank);
          return;
        }
        b := b + 1;
      }
      forall x | 0 <= x < cfg.banks
        ensures Blocked(ctrl.readq, ctrl.otherq, backlog[rank][x], Loc(rank, x))
      {
        InTurn(start, cfg.banks, x);
      }
    }

    /** A grant that keeps the credit in its bounds. */
    method PullIn(rank: nat, bank: nat)
      requires Valid() && rank < cfg.ranks && bank < cfg.banks && backlog[rank][bank] < BACKLOG_MAX
      requires |ctrl.otherq| < QUEUE_MAX
      modifies this`log, this`backlog, this`subarrayCounter, ctrl`otherq
      ensures Valid() && |log| == |old(log)| + 1 && log[..|old(log)|] == old(log)
      ensures log[|old(log)|].rank == rank && log[|old(log)|].bank == bank
      ensures ctrl.otherq == old(ctrl.otherq) + [log[|old(log)|]]
      ensures forall r :: 0 <= r < cfg.ranks && r != rank ==> backlog[r] == old(backlog)[r]
      ensures forall was, asked :: old(Queued(was, asked)) ==> Queued(was, asked)
    {
      hide Count, Due, RoundRobin, Queued;
      Grant(rank, bank);
    }

    /** The time of a refresh has come.  With single-bank refresh, every rank's next bank is now one more behind;
        a delayed one is not queued unless nothing else is going on, or the bank would fall too far behind. */
    method InjectRefresh()
      requires Valid()
      modifies this`log, this`backlog, this`subarrayCounter, this`bankCounter, this`slots, this`refreshed, ctrl`otherq
      ensures Valid() && refreshed == clk
      ensures |old(log)| <= |log| <= |old(log)| + cfg.ranks && log[..|old(log)|] == old(log)
      ensures forall r :: 0 <= r < cfg.ranks ==> slots[r] == old(slots)[r] + if cfg.perBank then 1 else 0
      ensures forall was, asked :: old(Queued(was, asked)) ==> Queued(was, asked)
      ensures var news := log[|old(log)|..];
              if cfg.perBank then
                var idle := old(ctrl.readq == [] && ctrl.otherq == []);
                AreFor(news, Granted(cfg.darp, idle, old(backlog), old(bankCounter), cfg.ranks))
              else news == seq(cfg.ranks, r requires 0 <= r => Refresh(r, -1, -1))
    {
      if cfg.perBank {
        PerBank();
      } else {
        WholeRanks();
      }
      refreshed := clk;
    }

    method PerBank()
      requires Valid() && cfg.perBank
      modifies this`log, this`backlog, this`subarrayCounter, this`bankCounter, this`slots, ctrl`otherq
      ensures Valid() && |old(log)| <= |log| <= |old(log)| + cfg.ranks && log[..|old(log)|] == old(log)
      ensures forall r :: 0 <= r < cfg.ranks ==> slots[r] == old(slots)[r] + 1
      ensures forall was, asked :: old(Queued(was, asked)) ==> Queued(was, asked)
      ensures var idle := old(ctrl.readq == [] && ctrl.otherq == []);
              AreFor(log[|old(log)|..], Granted(cfg.darp, idle, old(backlog), old(bankCounter), cfg.ranks))
    {
      hide BankAgrees, Count, Due, RoundRobin, Queued, Bounded, Granted, AreFor;
      ghost var news := [];
      ghost var idle := ctrl.readq == [] && ctrl.otherq == [];
      NoneGranted(cfg.darp, idle, backlog, bankCounter);
      for r := 0 to cfg.ranks
        invariant Valid() && |news| <= r && log == old(log) + news
        invariant forall q :: 0 <= q < cfg.ranks ==> slots[q] == old(slots)[q] + if q < r then 1 else 0
        invariant forall was, asked :: old(Queued(was, asked)) ==> Queued(was, asked)
        invariant forall q :: r <= q < cfg.ranks ==>
                    backlog[q] == old(backlog)[q] && bankCounter[q] == old(bankCounter)[q]
        invariant ctrl.otherq == [] <==> old(ctrl.otherq) == [] && news == []
        invariant AreFor(news, Granted(cfg.darp, idle, old(backlog), old(bankCounter), r))
      {
        ghost var before := log;
        GrantedNext(cfg.darp, idle, old(backlog), old(bankCounter), r, news, Refresh(r, bankCounter[r], 0));
        var pending := |ctrl.otherq| != 0;
        InjectBank(r, !pending && |ctrl.readq| == 0);
        if log != before {
          SameFor(news, Refresh(r, old(bankCounter)[r], 0), log[|before|]);
          news := news + [log[|before|]];
        }
      }
    }

    method WholeRanks()
      requires Valid()
      modifies this`log, ctrl`otherq
      ensures Valid() && log == old(log) + seq(cfg.ranks, r requires 0 <= r => Refresh(r, -1, -1))
      ensures forall was, asked :: old(Queued(was, asked)) ==> Queued(was, asked)
    {
      hide BankAgrees, Count, Due, RoundRobin, Queued;
      for r := 0 to cfg.ranks
        invariant Valid() && log == old(log) + seq(r, q requires 0 <= q => Refresh(q, -1, -1))
        invariant forall was, asked :: old(Queued(was, asked)) ==> Queued(was, asked)
      {
        WholeRank(r);
      }
    }

    method WholeRank(rank: nat)
      requires Valid() && rank < cfg.ranks
      modifies this`log, ctrl`otherq
      ensures Valid() && log == old(log) + [Refresh(rank, -1, -1)]
      ensures forall was, asked :: old(Queued(was, asked)) ==> Queued(was, asked)
    {
      hide Count, Due, RoundRobin, Queued;
      RefreshTarget(rank, -1, -1);
      forall r, b | 0 <= r < cfg.ranks && 0 <= b < cfg.banks
        ensures BankAgrees(r, b)
      {
        assert old(BankAgrees(r, b));
        CountSnoc(old(log), Refresh(rank, -1, -1), r, b);
      }
    }

    method InjectBank(rank: nat, idle: bool)
      requires Valid() && rank < cfg.ranks
      modifies this`log, this`backlog, this`subarrayCounter, this`bankCounter, this`slots, ctrl`otherq
      ensures Valid() && slots == old(slots)[rank := old(slots)[rank] + 1]
      ensures forall r :: 0 <= r < cfg.ranks && r != rank ==>
                backlog[r] == old(backlog)[r] && bankCounter[r] == old(bankCounter)[r]
      ensures var bank := old(bankCounter)[rank];
              if !cfg.darp || idle || old(backlog)[rank][bank] - 1 <= BACKLOG_MIN then
                && |log| == |old(log)| + 1 && log == old(log) + [log[|old(log)|]] && ctrl.otherq != []
                && log[|old(log)|].rank == rank && log[|old(log)|].bank == bank
              else log == old(log) && ctrl.otherq == old(ctrl.otherq)
      ensures forall was, asked :: old(Queued(was, asked)) ==> Queued(was, asked)
    {
      hide BankAgrees, Count, Due, RoundRobin, Queued;
      var bank := TakeSlot(rank);
      if cfg.darp {
        var refNow := idle;
        if backlog[rank][bank] <= BACKLOG_MIN {
          refNow := true;
        }
        if !refNow {
          return;
        }
      }
      Grant(rank, bank);
    }

    method PendingInRank(rank: nat) returns (pending: bool)
      ensures pending == AnyFor(ctrl.otherq, rank)
    {
      for i := 0 to |ctrl.otherq|
        invariant forall j :: 0 <= j < i ==> ctrl.otherq[j].rank != rank
      {
        if ctrl.otherq[i].rank == rank {
          return true;
        }
      }
      return false;
    }

    /** All the requests in the controller's queues are for banks that exist. */
    predicate KnownBanks()
      reads ctrl`readq, ctrl`writeq
    {
      && (forall i :: 0 <= i < |ctrl.readq| ==> ctrl.readq[i].bank < cfg.banks)
      && forall i :: 0 <= i < |ctrl.writeq| ==> ctrl.writeq[i].bank < cfg.banks
    }

    /** The bank that gets a refresh while writes drain.  The bound on the choice is the position of the first
        bank other than number 0, so the choice is always the bank that is first in order. */
    method PickBank(order: seq<nat>) returns (bank: nat)
      requires order != [] && forall i, j :: 0 <= i < j < |order| ==> order[i] != order[j]
      ensures bank == order[0]
    {
      assert |order| > 1 ==> order[0] != order[1];
      var top := 0;
      for i := 0 to |order|
        invariant top == 0 && forall j :: 0 <= j < i ==> order[j] == 0
      {
        if order[i] != 0 {
          top := i;
          break;
        }
      }
      var at := 0;
      if top != 0 {
        var any: nat :| any < top;
        at := any;
      }
      bank := order[at];
    }

    /** When writes begin to drain, each rank that has writes gets a refresh for a bank with the least demand. */
    method Wrp()
      requires Valid() && KnownBanks()
      modifies this`log, this`backlog, this`subarrayCounter, ctrl`otherq
      ensures Valid() && |old(log)| <= |log| <= |old(log)| + cfg.ranks && log[..|old(log)|] == old(log)
      ensures forall was, asked :: old(Queued(was, asked)) ==> Queued(was, asked)
      ensures var news := log[|old(log)|..];
              && ctrl.otherq == old(ctrl.otherq) + news
              && WriteParallel(ctrl.readq, ctrl.writeq, old(ctrl.otherq), news, cfg.ranks, cfg.banks)
              && forall r :: 0 <= r < cfg.ranks ==> NoMoreForWrites(ctrl.readq, ctrl.writeq, ctrl.otherq, backlog[r], r)
    {
      hide BankAgrees, Bounded, Count, Due, RoundRobin, Queued, Writes, Least, NoMoreForWrites, WriteParallel, AnyFor;
      ghost var news := [];
      NoneParallel();
      for r := 0 to cfg.ranks
        invariant Valid() && |news| <= r && log == old(log) + news
        invariant ctrl.otherq == old(ctrl.otherq) + news
        invariant forall was, asked :: old(Queued(was, asked)) ==> Queued(was, asked)
        invariant WriteParallel(ctrl.readq, ctrl.writeq, old(ctrl.otherq), news, r, cfg.banks)
        invariant forall q :: 0 <= q < r ==> NoMoreForWrites(ctrl.readq, ctrl.writeq, ctrl.otherq, backlog[q], q)
      {
        ghost var before, queued := log, ctrl.otherq;
        WrpRank(r);
        if log == before {
          ParallelNone(ctrl.readq, ctrl.writeq, old(ctrl.otherq), news, r, cfg.banks);
        } else {
          ghost var e := log[|before|];
          ParallelMore(ctrl.readq, ctrl.writeq, old(ctrl.otherq), news, e, cfg.banks);
          forall q | 0 <= q < r
            ensures NoMoreForWrites(ctrl.readq, ctrl.writeq, ctrl.otherq, backlog[q], q)
          {
            StillNoMore(ctrl.readq, ctrl.writeq, queued, e, backlog[q], q);
          }
          news := news + [e];
        }
      }
    }

    lemma NoneParallel()
      ensures forall readq, writeq, otherq, r: nat, n: nat :: WriteParallel(readq, writeq, otherq, [], r, n)
    {
    }

    method WrpRank(rank: nat)
      requires Valid() && KnownBanks() && rank < cfg.ranks
      modifies this`log, this`backlog, this`subarrayCounter, ctrl`otherq
      ensures Valid() && forall r :: 0 <= r < cfg.ranks && r != rank ==> backlog[r] == old(backlog)[r]
      ensures log == old(log) || (|log| == |old(log)| + 1 && log == old(log) + [log[|old(log)|]])
      ensures ctrl.otherq == old(ctrl.otherq) + log[|old(log)|..]
      ensures log == old(log) ==> backlog == old(backlog)
      ensures log != old(log) ==>
                && log[|old(log)|].rank == rank && !AnyFor(old(ctrl.otherq), rank) && Writes(ctrl.writeq, rank)
                && Least(ctrl.readq, ctrl.writeq, rank, log[|old(log)|].bank, cfg.banks)
      ensures NoMoreForWrites(ctrl.readq, ctrl.writeq, ctrl.otherq, backlog[rank], rank)
      ensures forall was, asked :: old(Queued(was, asked)) ==> Queued(was, asked)
    {
      hide BankAgrees, Bounded, Queued, Demand, Least, InOrder;
      var pending := PendingInRank(rank);
      if pending {
        return;
      }
      var byWrites, total := CountDemand(ctrl.writeq, rank, cfg.banks);
      if total == 0 {
        return;
      }
      assert Writes(ctrl.writeq, rank);
      var byReads, totalReads := CountDemand(ctrl.readq, rank, cfg.banks);
      var demand := seq(cfg.banks, b requires 0 <= b < cfg.banks => byWrites[b] + byReads[b]);
      var order := SortByDemand(demand);
      NoneTwice(demand, order);
      var bank := PickBank(order);
      LeastIsFirst(demand, order, rank);
      hide Writes, TotalDemand;
      if backlog[rank][bank] < BACKLOG_MAX && |ctrl.otherq| < QUEUE_MAX {
        ghost var queued := ctrl.otherq;
        PullIn(rank, bank);
        AnyMore(queued, ctrl.otherq[|queued|]);
      }
    }

    lemma NoneTwice(demand: seq<nat>, order: seq<nat>)
      requires InOrder(demand, order)
      ensures forall i, j :: 0 <= i < j < |order| ==> order[i] != order[j]
    {
    }

    lemma LeastIsFirst(demand: seq<nat>, order: seq<nat>, rank: nat)
      requires |demand| == |order| == cfg.banks && 0 < cfg.banks
      requires forall b :: 0 <= b < cfg.banks ==> demand[b] == TotalDemand(ctrl.readq, ctrl.writeq, Loc(rank, b))
      requires InOrder(demand, order) && forall b :: b in order <==> 0 <= b < |demand|
      ensures Least(ctrl.readq, ctrl.writeq, rank, order[0], cfg.banks)
    {
      hide TotalDemand;
      forall b | 0 <= b < cfg.banks
        ensures demand[order[0]] <= demand[b]
      {
        assert b in order;
        var i :| 0 <= i < |order| && order[i] == b;
        assert i == 0 || demand[order[0]] <= demand[order[i]];
      }
    }

    /** What a cycle asks for ahead of time: refreshes parallel to writes, when writes begin to drain, and early
        ones, while reads are served.  `mid` is the credit in between. */
    ghost predicate AskedAhead(wasDraining: bool, otherq: seq<Refresh>, credit: seq<seq<int>>, wrp: seq<Refresh>,
                               early: seq<Refresh>, mid: seq<seq<int>>, late: seq<seq<int>>)
      requires |mid| == cfg.ranks && |late| == cfg.ranks
      reads ctrl`readq, ctrl`writeq, ctrl`writeMode
    {
      var readq, writeq := ctrl.readq, ctrl.writeq;
      && (if !wasDraining && ctrl.writeMode then
            && WriteParallel(readq, writeq, otherq, wrp, cfg.ranks, cfg.banks)
            && forall r :: 0 <= r < cfg.ranks ==> NoMoreForWrites(readq, writeq, otherq + wrp, mid[r], r)
          else wrp == [] && mid == credit)
      && (if !ctrl.writeMode then
            && PulledIn(readq, otherq + wrp, mid, early, cfg.ranks)
            && forall r :: 0 <= r < cfg.ranks ==>
                 AnyFor(early, r) || AllBlocked(readq, otherq + wrp + early, late[r], r)
          else early == [] && late == mid)
    }

    method AskAhead() returns (ghost wrp: seq<Refresh>, ghost early: seq<Refresh>, ghost mid: seq<seq<int>>)
      requires Valid() && KnownBanks()
      modifies this`ctrlWriteMode, this`log, this`backlog, this`subarrayCounter, ctrl`otherq
      ensures Valid() && ctrlWriteMode == ctrl.writeMode && |mid| == cfg.ranks
      ensures log == old(log) + (wrp + early) && ctrl.otherq == old(ctrl.otherq) + (wrp + early)
      ensures |wrp| + |early| <= cfg.ranks
      ensures AskedAhead(old(ctrlWriteMode), old(ctrl.otherq), old(backlog), wrp, early, mid, backlog)
      ensures forall was, asked :: old(Queued(was, asked)) ==> Queued(was, asked)
    {
      hide BankAgrees, Bounded, Count, Due, RoundRobin, WriteParallel, NoMoreForWrites, PulledIn, AnyFor, AllBlocked,
           Queued;
      wrp := [];
      ghost var before := log;
      if !ctrlWriteMode && ctrl.writeMode {
        Wrp();
        wrp := log[|before|..];
      }
      assert ctrl.otherq == old(ctrl.otherq) + wrp;
      mid := backlog;
      ctrlWriteMode := ctrl.writeMode;
      before := log;
      EarlyInject();
      early := log[|before|..];
      assert ctrl.otherq == old(ctrl.otherq) + wrp + early;
    }

    /** The refreshes that are due in this cycle, when `otherq` was queued. */
    ghost predicate AskedWhenDue(last: int, otherq: seq<Refresh>, next: seq<nat>, due: seq<Refresh>,
                                  late: seq<seq<int>>)
      requires |late| == |next| == cfg.ranks && forall r :: 0 <= r < cfg.ranks ==> next[r] < cfg.banks == |late[r]|
      reads `clk, ctrl`readq
    {
      if clk - last < cfg.interval then due == []
      else if !cfg.perBank then due == seq(cfg.ranks, r requires 0 <= r => Refresh(r, -1, -1))
      else AreFor(due, Granted(cfg.darp, ctrl.readq == [] && otherq == [], late, next, cfg.ranks))
    }

    method AskWhenDue() returns (ghost due: seq<Refresh>)
      requires Valid()
      modifies this`refreshed, this`log, this`backlog, this`subarrayCounter, this`bankCounter, this`slots, ctrl`otherq
      ensures Valid() && log == old(log) + due
      ensures forall r :: 0 <= r < cfg.ranks ==>
                slots[r] == old(slots)[r] + if cfg.perBank && clk - old(refreshed) >= cfg.interval then 1 else 0
      ensures refreshed == if clk - old(refreshed) >= cfg.interval then clk else old(refreshed)
      ensures old(forall r :: 0 <= r < cfg.ranks ==> bankCounter[r] < cfg.banks && |backlog[r]| == cfg.banks)
      ensures AskedWhenDue(old(refreshed), old(ctrl.otherq), old(bankCounter), due, old(backlog))
      ensures clk - old(refreshed) < cfg.interval ==> due == []
      ensures clk - old(refreshed) >= cfg.interval ==> if cfg.darp then |due| <= cfg.ranks else |due| == cfg.ranks
      ensures forall was, asked :: old(Queued(was, asked)) ==> Queued(was, asked)
    {
      hide BankAgrees, Bounded, Count, Due, RoundRobin, AreFor, Granted, Queued;
      NextIsBank();
      due := [];
      ghost var before := log;
      if clk - refreshed >= cfg.interval {
        ghost var idle, credit, next := ctrl.readq == [] && ctrl.otherq == [], backlog, bankCounter;
        GrantedSize(cfg.darp, idle, credit, next, cfg.ranks);
        InjectRefresh();
        due := log[|before|..];
        if cfg.perBank {
          SameSize(due, Granted(cfg.darp, idle, credit, next, cfg.ranks));
        }
      }
    }

    /** When a refresh may be refused: one is due, and the queue of `queued` requests has no room for all that a
        cycle may ask for.  Without pulling in and delaying that is one refresh for each rank; with it, one ahead of
        time and one that is due. */
    predicate MayRefuse(queued: nat, elapsed: int) {
      cfg.interval <= elapsed && queued <= QUEUE_MAX < queued + if cfg.darp then 2 * cfg.ranks else cfg.ranks
    }

    /** One clock cycle.  Whatever the controller has done in the meantime, no bank ends more than seven refreshes
        behind or more than eight ahead, and what was asked for is queued as far as there is room.  `wrp`, `early`
        and `due` are what was asked for, `late` is the credit before the last of these. */
    method TickRef() returns (ghost wrp: seq<Refresh>, ghost early: seq<Refresh>, ghost due: seq<Refresh>,
                              ghost mid: seq<seq<int>>, ghost late: seq<seq<int>>)
      requires Valid() && KnownBanks()
      modifies this`clk, this`refreshed, this`ctrlWriteMode, this`log, this`backlog, this`subarrayCounter,
               this`bankCounter, this`slots, ctrl`otherq
      ensures Valid() && clk == old(clk) + 1 && ctrlWriteMode == if cfg.darp then ctrl.writeMode else old(ctrlWriteMode)
      ensures forall r :: 0 <= r < cfg.ranks ==>
                slots[r] == old(slots)[r] + if cfg.perBank && clk - old(refreshed) >= cfg.interval then 1 else 0
      ensures refreshed == if clk - old(refreshed) >= cfg.interval then clk else old(refreshed)
      ensures |mid| == cfg.ranks && |late| == cfg.ranks && (forall r :: 0 <= r < cfg.ranks ==> |late[r]| == cfg.banks)
      ensures if cfg.darp then AskedAhead(old(ctrlWriteMode), old(ctrl.otherq), old(backlog), wrp, early, mid, late)
              else wrp == [] && early == [] && late == old(backlog)
      ensures log == old(log) + (wrp + early) + due
      ensures old(forall r :: 0 <= r < cfg.ranks ==> bankCounter[r] < cfg.banks)
      ensures AskedWhenDue(old(refreshed), old(ctrl.otherq) + (wrp + early), old(bankCounter), due, late)
      ensures ctrl.otherq == Accepted(old(ctrl.otherq), (wrp + early) + due)
      ensures var was, news := |old(ctrl.otherq)|, |wrp| + |early| + |due|;
              ctrl.otherq == old(ctrl.otherq) + ((wrp + early) + due) <==> was + news <= QUEUE_MAX || QUEUE_MAX < was
      ensures MayRefuse(|old(ctrl.otherq)|, clk - old(refreshed)) ||
              ctrl.otherq == old(ctrl.otherq) + ((wrp + early) + due)
      ensures !cfg.darp ==>
                (MayRefuse(|old(ctrl.otherq)|, clk - old(refreshed)) <==>
                 ctrl.otherq != old(ctrl.otherq) + ((wrp + early) + due))
    {
      hide BankAgrees, Bounded, Count, Due, RoundRobin, AskedAhead, AskedWhenDue, Queued, Accepted;
      ghost var was, asked := ctrl.otherq, log;
      NoneQueued();
      wrp, early := [], [];
      clk := clk + 1;
      mid := backlog;
      if cfg.darp {
        wrp, early, mid := AskAhead();
      }
      late := backlog;
      QueuedIs(was, asked, wrp + early);
      AllAccepted(was, wrp + early);
      due := AskWhenDue();
      QueuedIs(was, asked, (wrp + early) + due);
      AllAccepted(was, (wrp + early) + due);
    }

    lemma NoneQueued()
      ensures Queued(ctrl.otherq, log)
    {
    }

    lemma QueuedIs(was: seq<Refresh>, asked: seq<Refresh>, news: seq<Refresh>)
      requires Queued(was, asked) && log == asked + news
      ensures ctrl.otherq == Accepted(was, news)
    {
      assert log[|asked|..] == news;
    }

    lemma NextIsBank()
      requires Valid()
      ensures forall r :: 0 <= r < cfg.ranks ==> bankCounter[r] < cfg.banks && |backlog[r]| == cfg.banks
    {
    }
  }
}
