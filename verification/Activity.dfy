/** How many requests each node is serving: the counters that a node updates at every change, and the
    per-cycle sums that they stand for. */
module Activity {
  import opened Device
  import opened History

  /** A request below `addr` starts (`delta == 1`) or finishes (`delta == -1`) being served. */
  datatype Change = Change(addr: Address, delta: int, clk: int)

  /** `current` requests are being served since clock `since` (-1 before the first change);
      `requestCycles` and `activeCycles` add up earlier cycles. */
  datatype Counter = Counter(current: int, since: int, requestCycles: int, activeCycles: int)

  predicate Concerns(e: Change, p: Path) { |p| <= |e.addr| && e.addr[..|p|] == p }

  function Record(c: Counter, delta: int, clk: int): Counter {
    var busy := c.since != -1 && c.current > 0;
    Counter(c.current + delta, clk,
            c.requestCycles + (if busy then (clk - c.since) * c.current else 0),
            c.activeCycles + (if busy then clk - c.since else 0))
  }

  function CounterAfter(log: seq<Change>, p: Path): Counter {
    if log == [] then Counter(0, -1, 0, 0) else
      var c := CounterAfter(log[..|log| - 1], p);
      var e := log[|log| - 1];
      if Concerns(e, p) then Record(c, e.delta, e.clk) else c
  }

  ghost predicate InOrder(log: seq<Change>) {
    && (forall i :: 0 <= i < |log| ==> 0 <= log[i].clk)
    && forall i, j :: 0 <= i <= j < |log| ==> log[i].clk <= log[j].clk
  }

  /** The requests being served below `p` at the end of cycle `at`. */
  function ServedAt(log: seq<Change>, p: Path, at: int): int {
    if log == [] then 0 else
      var e := log[|log| - 1];
      ServedAt(log[..|log| - 1], p, at) + if Concerns(e, p) && e.clk <= at then e.delta else 0
  }

  function Served(log: seq<Change>, p: Path): int {
    if log == [] then 0 else
      var e := log[|log| - 1];
      Served(log[..|log| - 1], p) + if Concerns(e, p) then e.delta else 0
  }

  function RequestCycles(log: seq<Change>, p: Path, upTo: int): int
    decreases upTo
  {
    if upTo <= 0 then 0 else RequestCycles(log, p, upTo - 1) + ServedAt(log, p, upTo - 1)
  }

  function ActiveCycles(log: seq<Change>, p: Path, upTo: int): int
    decreases upTo
  {
    if upTo <= 0 then 0 else ActiveCycles(log, p, upTo - 1) + if ServedAt(log, p, upTo - 1) > 0 then 1 else 0
  }

  /** The counters are the per-cycle sums, up to the last change, of the number of requests being served and of
      the cycles in which any was. */
  ghost predicate CyclesAre(log: seq<Change>, p: Path, c: Counter) {
    && c.current == Served(log, p)
    && c.requestCycles == RequestCycles(log, p, c.since)
    && c.activeCycles == ActiveCycles(log, p, c.since)
  }

  lemma CounterSnoc(log: seq<Change>, e: Change, p: Path)
    ensures CounterAfter(log + [e], p) ==
            if Concerns(e, p) then Record(CounterAfter(log, p), e.delta, e.clk) else CounterAfter(log, p)
    ensures Served(log + [e], p) == Served(log, p) + if Concerns(e, p) then e.delta else 0
  {
    assert (log + [e])[..|log|] == log;
  }

  lemma {:induction false} CurrentIsServed(log: seq<Change>, p: Path)
    ensures CounterAfter(log, p).current == Served(log, p)
  {
    if log != [] {
      CurrentIsServed(log[..|log| - 1], p);
    }
  }

  /** More requests never finish than have started. */
  ghost predicate NeverNegative(log: seq<Change>, p: Path) {
    forall n :: 0 <= n <= |log| ==> 0 <= Served(log[..n], p)
  }

  lemma {:induction false} ServedAtSettles(log: seq<Change>, p: Path, at: int)
    requires forall i :: 0 <= i < |log| && Concerns(log[i], p) ==> log[i].clk <= at
    ensures ServedAt(log, p, at) == Served(log, p)
  {
    if log != [] {
      ServedAtSettles(log[..|log| - 1], p, at);
    }
  }

  lemma {:induction false} SinceIsLatest(log: seq<Change>, p: Path)
    requires InOrder(log)
    ensures forall i :: 0 <= i < |log| && Concerns(log[i], p) ==> log[i].clk <= CounterAfter(log, p).since
    ensures -1 <= CounterAfter(log, p).since
    ensures CounterAfter(log, p).since <= if log == [] then -1 else log[|log| - 1].clk
    ensures CounterAfter(log, p).since == -1 ==> Served(log, p) == 0
  {
    if log != [] {
      SinceIsLatest(log[..|log| - 1], p);
    }
  }

  /** A later change does not alter the cycles before it. */
  lemma {:induction false} EarlierCyclesStand(log: seq<Change>, e: Change, p: Path, upTo: int)
    requires upTo <= e.clk || !Concerns(e, p)
    ensures RequestCycles(log + [e], p, upTo) == RequestCycles(log, p, upTo)
    ensures ActiveCycles(log + [e], p, upTo) == ActiveCycles(log, p, upTo)
    decreases upTo
  {
    if upTo > 0 {
      EarlierCyclesStand(log, e, p, upTo - 1);
      assert (log + [e])[..|log|] == log;
    }
  }

  lemma {:induction false} SettledCycles(log: seq<Change>, p: Path, from: nat, upTo: nat)
    requires InOrder(log) && from <= upTo
    requires forall i :: 0 <= i < |log| && Concerns(log[i], p) ==> log[i].clk <= from
    requires 0 <= Served(log, p)
    ensures RequestCycles(log, p, upTo) == RequestCycles(log, p, from) + (upTo - from) * Served(log, p)
    ensures ActiveCycles(log, p, upTo) == ActiveCycles(log, p, from) + if Served(log, p) > 0 then upTo - from else 0
    decreases upTo
  {
    if from < upTo {
      SettledCycles(log, p, from, upTo - 1);
      ServedAtSettles(log, p, upTo - 1);
      var k, n := upTo - 1 - from, Served(log, p);
      assert k * n + n == (k + 1) * n;
    }
  }

  /** What a node counts, from one change to the next, are the per-cycle sums. */
  lemma {:induction false} CountersAreCycleSums(log: seq<Change>, p: Path)
    requires InOrder(log) && NeverNegative(log, p)
    ensures CyclesAre(log, p, CounterAfter(log, p))
  {
    if log != [] {
      var log', e := log[..|log| - 1], log[|log| - 1];
      assert NeverNegative(log', p) by {
        forall n | 0 <= n <= |log'|
          ensures 0 <= Served(log'[..n], p)
        {
          assert log'[..n] == log[..n];
        }
      }
      assert 0 <= Served(log', p) by {
        assert log'[..|log'|] == log';
      }
      CountersAreCycleSums(log', p);
      assert log == log' + [e];
      CycleSumsSnoc(log', e, p);
    }
  }

  lemma CycleSumsSnoc(log: seq<Change>, e: Change, p: Path)
    requires InOrder(log + [e]) && InOrder(log) && 0 <= Served(log, p)
    requires CyclesAre(log, p, CounterAfter(log, p))
    ensures CyclesAre(log + [e], p, CounterAfter(log + [e], p))
  {
    hide RequestCycles, ActiveCycles, Served, CounterAfter;
    var c := CounterAfter(log, p);
    CounterSnoc(log, e, p);
    SinceIsLatest(log, p);
    EarlierCyclesStand(log, e, p, if Concerns(e, p) then e.clk else c.since);
    if Concerns(e, p) {
      assert (log + [e])[|log|] == e && forall i :: 0 <= i < |log| ==> (log + [e])[i] == log[i];
      if c.since == -1 {
        NothingServed(log, p);
        NoCycles(log, p);
        SettledCycles(log, p, 0, e.clk);
      } else {
        SettledCycles(log, p, c.since, e.clk);
      }
    }
  }

  lemma NoCycles(log: seq<Change>, p: Path)
    ensures RequestCycles(log, p, -1) == RequestCycles(log, p, 0) == 0
    ensures ActiveCycles(log, p, -1) == ActiveCycles(log, p, 0) == 0
  {
  }

  lemma {:induction false} NothingServed(log: seq<Change>, p: Path)
    requires InOrder(log) && CounterAfter(log, p).since == -1
    ensures forall i :: 0 <= i < |log| ==> !Concerns(log[i], p)
    ensures Served(log, p) == 0
  {
    if log != [] {
      var log', e := log[..|log| - 1], log[|log| - 1];
      SinceIsLatest(log', p);
      NothingServed(log', p);
    }
  }
}
