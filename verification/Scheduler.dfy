/** The choice of the request to serve next: first-ready, first-come-first-served, with ready row hits
    first, and never closing a row that another queued request hits. */
module Scheduler {
  import opened Wrappers

  /** What the scheduler asks about a queued request: whether its next command may be issued now,
      whether its row is open, whether some row of its bank is open, its bank, and when it arrived. */
  datatype View = View(ready: bool, hit: bool, open: bool, group: seq<int>, arrive: int)

  datatype Order = HitFirst | ReadyFirst

  predicate Preferred(v: View, o: Order) { v.ready && (o == HitFirst ==> v.hit) }

  /** The comparison of two requests: a preferred one wins, then the earlier one, then the first. */
  function Compare(q: seq<View>, i: nat, j: nat, o: Order): nat
    requires i < |q| && j < |q|
  {
    if Preferred(q[i], o) != Preferred(q[j], o) then (if Preferred(q[i], o) then i else j)
    else if q[i].arrive <= q[j].arrive then i else j
  }

  // ---------------------------------------------------------------- what the choice should be

  ghost predicate Older(q: seq<View>, i: nat, j: nat)
    requires i < |q| && j < |q|
  {
    q[i].arrive < q[j].arrive || (q[i].arrive == q[j].arrive && i <= j)
  }

  /** `i` is served before `j`, or is `j`. */
  ghost predicate Before(q: seq<View>, i: nat, j: nat, o: Order)
    requires i < |q| && j < |q|
  {
    (Preferred(q[i], o) && !Preferred(q[j], o)) || (Preferred(q[i], o) == Preferred(q[j], o) && Older(q, i, j))
  }

  /** Serving request `i` now would close a row that another queued request hits. */
  ghost predicate ClosesHitRow(q: seq<View>, i: nat)
    requires i < |q|
  {
    !q[i].hit && q[i].open && exists j :: 0 <= j < |q| && q[j].hit && q[j].group == q[i].group
  }

  ghost predicate AnyReadyHit(q: seq<View>) {
    exists i :: 0 <= i < |q| && q[i].ready && q[i].hit
  }

  /** The oldest ready row hit if there is one; otherwise, among the requests that close no row that is
      hit, the oldest ready one, and if none of them is ready the oldest. */
  ghost predicate IsHead(q: seq<View>, i: nat) {
    && i < |q|
    && if AnyReadyHit(q) then
         q[i].ready && q[i].hit && forall j :: 0 <= j < |q| && q[j].ready && q[j].hit ==> Older(q, i, j)
       else
         !ClosesHitRow(q, i) && forall j :: 0 <= j < |q| && !ClosesHitRow(q, j) ==> Before(q, i, j, ReadyFirst)
  }

  lemma HeadIsUnique(q: seq<View>, i: nat, j: nat)
    requires IsHead(q, i) && IsHead(q, j)
    ensures i == j
  {
  }

  /** If any request could go on without closing a row that is hit, the one to serve next can go on. */
  lemma HeadIsReady(q: seq<View>, i: nat, j: nat)
    requires IsHead(q, i) && j < |q| && q[j].ready && !ClosesHitRow(q, j)
    ensures q[i].ready
  {
    if !AnyReadyHit(q) {
      assert Before(q, i, j, ReadyFirst);
    }
  }

  lemma HeadSpares(q: seq<View>, i: nat)
    requires IsHead(q, i)
    ensures !ClosesHitRow(q, i)
  {
  }

  /** Some request is first among any that are allowed. */
  lemma FirstAmong(q: seq<View>, allowed: set<nat>, o: Order) returns (i: nat)
    requires allowed != {} && forall k :: k in allowed ==> k < |q|
    ensures i in allowed && forall j :: j in allowed ==> Before(q, i, j, o)
    decreases |allowed|
  {
    i :| i in allowed;
    var rest := allowed - {i};
    assert forall j :: j in allowed ==> j == i || j in rest;
    if rest != {} {
      var k := FirstAmong(q, rest, o);
      forall j | j in allowed
        ensures Before(q, if Before(q, i, k, o) then i else k, j, o)
      {
        assert j == i || Before(q, k, j, o);
      }
      i := if Before(q, i, k, o) then i else k;
    }
  }

  /** A non-empty queue always has a request to serve next: if closing a hit row rules some out, then
      the request that hits that row is not ruled out. */
  lemma HeadExists(q: seq<View>)
    requires q != []
    ensures exists i: nat :: IsHead(q, i)
  {
    if AnyReadyHit(q) {
      var hits := set i: nat | i < |q| && q[i].ready && q[i].hit;
      var k :| 0 <= k < |q| && q[k].ready && q[k].hit;
      assert k in hits;
      var i := FirstAmong(q, hits, HitFirst);
      forall j | 0 <= j < |q| && q[j].ready && q[j].hit
        ensures Older(q, i, j)
      {
        assert j in hits;
      }
      assert IsHead(q, i);
    } else {
      var allowed := set i: nat | i < |q| && !ClosesHitRow(q, i);
      if ClosesHitRow(q, 0) {
        var j :| 0 <= j < |q| && q[j].hit && q[j].group == q[0].group;
        assert j in allowed;
      } else {
        assert 0 in allowed;
      }
      var i := FirstAmong(q, allowed, ReadyFirst);
      assert IsHead(q, i);
    }
  }

  ghost function Head(q: seq<View>): (i: nat)
    requires q != []
    ensures IsHead(q, i)
  {
    HeadExists(q);
    var i: nat :| IsHead(q, i);
    i
  }

  // ---------------------------------------------------------------- how it is made

  /** One pass over the queue with the given comparison. */
  method Scan(q: seq<View>, o: Order) returns (head: nat)
    requires q != []
    ensures head < |q| && forall j :: 0 <= j < |q| ==> Before(q, head, j, o)
  {
    head := 0;
    for k := 1 to |q|
      invariant head < k
      invariant forall j :: 0 <= j < k ==> Before(q, head, j, o)
    {
      forall j | 0 <= j <= k
        ensures Before(q, Compare(q, head, k, o), j, o)
      {
        assert j < k ==> Before(q, head, j, o);
      }
      head := Compare(q, head, k, o);
    }
  }

  method HitGroups(q: seq<View>) returns (groups: seq<seq<int>>)
    ensures forall g :: g in groups <==> exists j :: 0 <= j < |q| && q[j].hit && q[j].group == g
  {
    groups := [];
    for k := 0 to |q|
      invariant forall g :: g in groups <==> exists j :: 0 <= j < k && q[j].hit && q[j].group == g
    {
      if q[k].hit {
        groups := groups + [q[k].group];
      }
    }
  }

  /** The request to serve next; there is none exactly when the queue is empty. */
  method GetHead(q: seq<View>) returns (head: Option<nat>)
    ensures head.None? <==> q == []
    ensures head.Some? ==> IsHead(q, head.value)
  {
    if |q| == 0 {
      return None;
    }
    var best := Scan(q, HitFirst);
    if q[best].ready && q[best].hit {
      assert AnyReadyHit(q);
      forall j | 0 <= j < |q| && q[j].ready && q[j].hit
        ensures Older(q, best, j)
      {
        assert Before(q, best, j, HitFirst);
      }
      return Some(best);
    }
    assert !AnyReadyHit(q) by {
      forall j | 0 <= j < |q|
        ensures !(q[j].ready && q[j].hit)
      {
        assert Before(q, best, j, HitFirst);
      }
    }
    var groups := HitGroups(q);
    head := None;
    for k := 0 to |q|
      invariant head.None? ==> forall j :: 0 <= j < k ==> ClosesHitRow(q, j)
      invariant head.Some? ==> head.value < k && !ClosesHitRow(q, head.value)
      invariant head.Some? ==> forall j :: 0 <= j < k && !ClosesHitRow(q, j) ==> Before(q, head.value, j, ReadyFirst)
    {
      var violates := !q[k].hit && q[k].open && q[k].group in groups;
      assert violates == ClosesHitRow(q, k);
      if !violates {
        if head.None? {
          head := Some(k);
        } else {
          head := Some(Compare(q, head.value, k, ReadyFirst));
        }
      }
    }
    if head.None? {
      HeadExists(q);
    }
  }

  /** When requests are queued in the order they arrived, the oldest ready hit is the first one. */
  lemma FirstHitIsHead(q: seq<View>, i: nat)
    requires forall j, k :: 0 <= j <= k < |q| ==> q[j].arrive <= q[k].arrive
    requires i < |q| && q[i].ready && q[i].hit && forall j :: 0 <= j < i ==> !(q[j].ready && q[j].hit)
    ensures IsHead(q, i)
  {
    assert AnyReadyHit(q);
  }

  /** When none is, the first ready request that closes no hit row is served; if there is none, nothing is. */
  lemma FirstReadyIsHead(q: seq<View>, i: nat)
    requires forall j, k :: 0 <= j <= k < |q| ==> q[j].arrive <= q[k].arrive
    requires !AnyReadyHit(q)
    requires i < |q| && q[i].ready && !ClosesHitRow(q, i)
    requires forall j :: 0 <= j < i ==> !q[j].ready || ClosesHitRow(q, j)
    ensures IsHead(q, i)
  {
    hide ClosesHitRow;
  }
}
