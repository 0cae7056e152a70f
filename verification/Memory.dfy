/** What all the caches share: the clock, the requests that wait to be sent to memory, and the hits that wait to
    be reported. */
module Memory {
  import opened CacheLines

  /** What is left of the jobs after those that are due, up to the first that is not, were offered to the
      memory, which took or refused each of them as `taken` says. */
  function Kept(jobs: seq<Job>, clk: int, taken: seq<bool>): seq<Job>
    requires |jobs| <= |taken|
  {
    if jobs == [] || clk < jobs[0].due then jobs
    else (if taken[0] then [] else [jobs[0]]) + Kept(jobs[1..], clk, taken[1..])
  }

  /** The job at position `k` is offered, as those before it are due, and memory takes it. */
  predicate Goes(jobs: seq<Job>, clk: int, taken: seq<bool>, k: nat)
    requires |jobs| <= |taken| && k < |jobs|
  {
    taken[k] && forall j :: 0 <= j <= k ==> jobs[j].due <= clk
  }

  /** A job disappears only by being taken when its turn has come. */
  lemma {:induction false} KeptUnlessTaken(jobs: seq<Job>, clk: int, taken: seq<bool>, k: nat)
    requires |jobs| <= |taken| && k < |jobs|
    ensures jobs[k] in Kept(jobs, clk, taken) || Goes(jobs, clk, taken, k)
  {
    if jobs != [] && jobs[0].due <= clk && k > 0 {
      KeptUnlessTaken(jobs[1..], clk, taken[1..], k - 1);
      if Goes(jobs[1..], clk, taken[1..], k - 1) {
        assert forall j :: 1 <= j <= k ==> jobs[j] == jobs[1..][j - 1];
      }
    }
  }

  /** `part` is what is left of `whole` at some of its positions, in order. */
  ghost predicate IsPart(part: seq<Job>, whole: seq<Job>, at: seq<nat>) {
    && |at| == |part|
    && (forall i :: 0 <= i < |at| ==> at[i] < |whole| && part[i] == whole[at[i]])
    && forall i, j :: 0 <= i < j < |at| ==> at[i] < at[j]
  }

  lemma WholeIsPart(whole: seq<Job>) returns (at: seq<nat>)
    ensures IsPart(whole, whole, at)
  {
    at := seq(|whole|, i => i);
  }

  lemma PartOfLonger(first: Job, part: seq<Job>, whole: seq<Job>, at: seq<nat>) returns (more: seq<nat>)
    requires IsPart(part, whole, at)
    ensures IsPart(part, [first] + whole, more) && forall i :: 0 <= i < |more| ==> 0 < more[i]
  {
    more := seq(|at|, i requires 0 <= i < |at| => at[i] + 1);
  }

  lemma LongerPart(first: Job, part: seq<Job>, whole: seq<Job>, at: seq<nat>)
    requires IsPart(part, [first] + whole, at) && forall i :: 0 <= i < |at| ==> 0 < at[i]
    ensures IsPart([first] + part, [first] + whole, [0] + at)
  {
  }

  /** The rest keep their order. */
  lemma {:induction false} KeptInOrder(jobs: seq<Job>, clk: int, taken: seq<bool>) returns (at: seq<nat>)
    requires |jobs| <= |taken|
    ensures IsPart(Kept(jobs, clk, taken), jobs, at)
  {
    hide IsPart;
    if jobs == [] || clk < jobs[0].due {
      at := WholeIsPart(jobs);
    } else {
      var kept := Kept(jobs[1..], clk, taken[1..]);
      at := KeptInOrder(jobs[1..], clk, taken[1..]);
      at := PartOfLonger(jobs[0], kept, jobs[1..], at);
      assert [jobs[0]] + jobs[1..] == jobs && [] + kept == kept;
      if !taken[0] {
        LongerPart(jobs[0], kept, jobs[1..], at);
        at := [0] + at;
      }
    }
  }

  lemma KeptFrom(jobs: seq<Job>, clk: int, taken: seq<bool>, i: nat)
    requires |jobs| <= |taken| && i < |jobs| && jobs[i].due <= clk
    ensures Kept(jobs[i..], clk, taken[i..]) ==
            (if taken[i] then [] else [jobs[i]]) + Kept(jobs[i + 1..], clk, taken[i + 1..])
  {
    assert jobs[i..][1..] == jobs[i + 1..] && taken[i..][1..] == taken[i + 1..];
  }

  lemma KeptEnds(jobs: seq<Job>, clk: int, taken: seq<bool>)
    requires |jobs| <= |taken| && (jobs == [] || clk < jobs[0].due)
    ensures Kept(jobs, clk, taken) == jobs
  {
  }

  /** The jobs that are due, in their order, and those that are not. */
  function Due(jobs: seq<Job>, clk: int): seq<Job> {
    if jobs == [] then []
    else Due(jobs[..|jobs| - 1], clk) + if jobs[|jobs| - 1].due <= clk then [jobs[|jobs| - 1]] else []
  }

  function NotDue(jobs: seq<Job>, clk: int): seq<Job> {
    if jobs == [] then []
    else NotDue(jobs[..|jobs| - 1], clk) + if jobs[|jobs| - 1].due <= clk then [] else [jobs[|jobs| - 1]]
  }

  /** Every job is in one of the two, once for each time that it was queued. */
  lemma {:induction false} DueOrNot(jobs: seq<Job>, clk: int)
    ensures multiset(Due(jobs, clk)) + multiset(NotDue(jobs, clk)) == multiset(jobs)
  {
    if jobs != [] {
      var before, last := jobs[..|jobs| - 1], jobs[|jobs| - 1];
      var due, other := Due(before, clk), NotDue(before, clk);
      DueOrNot(before, clk);
      assert jobs == before + [last];
      hide Due, NotDue;
      assert multiset(due + [last]) == multiset(due) + multiset{last};
      assert multiset(other + [last]) == multiset(other) + multiset{last};
    }
  }

  lemma {:induction false} DueSays(jobs: seq<Job>, clk: int)
    ensures forall k :: 0 <= k < |Due(jobs, clk)| ==> Due(jobs, clk)[k].due <= clk
    ensures forall k :: 0 <= k < |NotDue(jobs, clk)| ==> clk < NotDue(jobs, clk)[k].due
  {
    if jobs != [] {
      DueSays(jobs[..|jobs| - 1], clk);
    }
  }

  class CacheSystem {
    var clk: int
    var waitList: seq<Job>
    var hitList: seq<Job>

    constructor ()
      ensures clk == 0 && waitList == [] && hitList == []
    {
      clk, waitList, hitList := 0, [], [];
    }

    /** `taken` are the memory's answers to the jobs offered, in order; `done` are the hits reported. */
    method Tick(taken: seq<bool>) returns (done: seq<Job>)
      requires |waitList| <= |taken|
      modifies this
      ensures clk == old(clk) + 1
      ensures waitList == Kept(old(waitList), clk, taken)
      ensures hitList == NotDue(old(hitList), clk) && done == Due(old(hitList), clk)
    {
      clk := clk + 1;
      SendReady(taken);
      done := ReportHits();
    }

    /** The requests that are due are offered to the memory, up to the first that is not due. */
    method SendReady(taken: seq<bool>)
      requires |waitList| <= |taken|
      modifies this`waitList
      ensures waitList == Kept(old(waitList), clk, taken)
    {
      hide Kept;
      var kept, i := [], 0;
      while i < |waitList| && clk >= waitList[i].due
        invariant i <= |waitList| && waitList == old(waitList)
        invariant Kept(waitList, clk, taken) == kept + Kept(waitList[i..], clk, taken[i..])
      {
        KeptFrom(waitList, clk, taken, i);
        if !taken[i] {
          kept := kept + [waitList[i]];
        }
        i := i + 1;
      }
      KeptEnds(waitList[i..], clk, taken[i..]);
      waitList := kept + waitList[i..];
    }

    method ReportHits() returns (done: seq<Job>)
      modifies this`hitList
      ensures hitList == NotDue(old(hitList), clk) && done == Due(old(hitList), clk)
    {
      done := [];
      var left := [];
      for k := 0 to |hitList|
        invariant left == NotDue(hitList[..k], clk) && done == Due(hitList[..k], clk)
      {
        assert hitList[..k + 1][..k] == hitList[..k];
        if clk >= hitList[k].due {
          done := done + [hitList[k]];
        } else {
          left := left + [hitList[k]];
        }
      }
      assert hitList[..|hitList|] == hitList;
      hitList := left;
    }
  }
}
