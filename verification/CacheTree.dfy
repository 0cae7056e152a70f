/** A tree of write-back caches, the last level at its root, and the eviction of a block: its copies above are
    invalidated, and their newest data goes to the next level down, or to memory. */
module CacheTree {
  import opened CacheLines
  import opened Memory
  import opened Wrappers

  const LATENCY := [4, 4 + 12, 4 + 12 + 31]
  const LATENCY_EACH := [4, 12, 31]

  /** The caches above and below differ in the number of sets, but not in the size of a block. */
  lemma SameBlock(g: Geometry, sets: Sets, a: nat, b: nat)
    requires Block(g, a) == Block(g, b)
    ensures Has(g, sets, a) == Has(g, sets, b)
    ensures Has(g, sets, a) ==> Copy(g, sets, a) == Copy(g, sets, b)
  {
    IndexAndTag(g, a, b);
  }

  class Cache {
    const g: Geometry
    const level: nat
    const higher: seq<Cache>
    const system: CacheSystem
    ghost const Repr: set<Cache>

    var sets: Sets

    constructor (g: Geometry, level: nat, higher: seq<Cache>, system: CacheSystem)
      requires level < 3
      requires forall i :: 0 <= i < |higher| ==>
                 higher[i].Shape() && higher[i].level < level && higher[i].g.blockSize == g.blockSize
      requires forall i, j, n :: 0 <= i < |higher| && 0 <= j < |higher| && i != j && n in higher[i].Repr ==>
                 n !in higher[j].Repr
      ensures this.g == g && this.level == level && this.higher == higher && this.system == system
      ensures Shape() && sets == map[]
      ensures Repr == {this} + set i, n | 0 <= i < |higher| && n in higher[i].Repr :: n
    {
      this.g, this.level, this.higher, this.system := g, level, higher, system;
      sets := map[];
      Repr := {this} + set i, n | 0 <= i < |higher| && n in higher[i].Repr :: n;
    }

    ghost predicate Shape()
      decreases level
    {
      && this in Repr && level < 3
      && (forall i :: 0 <= i < |higher| ==>
            && higher[i].level < level && higher[i].g.blockSize == g.blockSize
            && higher[i].Repr <= Repr && this !in higher[i].Repr && higher[i].Shape())
      && (forall i, j, n :: 0 <= i < |higher| && 0 <= j < |higher| && i != j && n in higher[i].Repr ==>
            n !in higher[j].Repr)
      && (forall n :: n in Repr && n != this ==> exists i :: 0 <= i < |higher| && n in higher[i].Repr)
    }

    ghost predicate Tidy()
      reads Repr`sets
    {
      forall n :: n in Repr ==> WellPlaced(n.g, n.sets)
    }

    /** A block that some cache holds is also held by the cache below it. */
    ghost predicate Inclusive()
      reads Repr`sets
    {
      forall n, i, a ::
        n in Repr && 0 <= i < |n.higher| && n.higher[i] in Repr && Has(n.higher[i].g, n.higher[i].sets, a) ==>
        Has(n.g, n.sets, a)
    }

    /** No copy of the block, here or above, is waiting for its data. */
    ghost predicate Unlocked(addr: nat)
      reads Repr`sets
    {
      forall n :: n in Repr ==> !Locked(n.g, n.sets, addr)
    }

    lemma Closed(n: Cache)
      requires Shape() && n in Repr
      ensures n.Shape() && n.Repr <= Repr && n.g.blockSize == g.blockSize
      ensures forall i :: 0 <= i < |n.higher| ==> n.higher[i] in Repr
      decreases level
    {
      if n != this {
        var i :| 0 <= i < |higher| && n in higher[i].Repr;
        higher[i].Closed(n);
      }
    }

    /** What a cache does not hold, no cache above it holds. */
    lemma NotAbove(addr: nat)
      requires Shape() && Inclusive() && !Has(g, sets, addr)
      ensures forall n :: n in Repr ==> !Has(n.g, n.sets, addr)
      decreases level
    {
      forall n | n in Repr && n != this
        ensures !Has(n.g, n.sets, addr)
      {
        var i :| 0 <= i < |higher| && n in higher[i].Repr;
        Above(i);
        higher[i].NotAbove(addr);
      }
    }

    lemma Above(i: nat)
      requires Shape() && i < |higher|
      ensures higher[i] in Repr && higher[i].Shape()
      ensures Inclusive() ==> higher[i].Inclusive()
      ensures Tidy() ==> higher[i].Tidy()
      ensures Inclusive() ==> forall a :: Has(higher[i].g, higher[i].sets, a) ==> Has(g, sets, a)
    {
    }

    /** Whether no copy of the block is locked, here or above. */
    method CheckUnlock(addr: nat) returns (ok: bool)
      requires Shape() && Tidy() && Inclusive()
      ensures ok == Unlocked(addr)
      decreases level
    {
      if !Has(g, sets, addr) {
        NotAbove(addr);
        return true;
      }
      var line := Copy(g, sets, addr);
      assert Block(g, line.addr) == Block(g, addr) by {
        CopyIsPlaced(addr);
      }
      ok := !line.lock;
      for i := 0 to |higher|
        invariant ok <==> !line.lock && forall j :: 0 <= j < i ==> higher[j].Unlocked(addr)
      {
        if !ok {
          return false;
        }
        Above(i);
        var above := higher[i].CheckUnlock(line.addr);
        higher[i].UnlockedBlock(line.addr, addr);
        ok := ok && above;
      }
      assert ok <==> Unlocked(addr);
    }

    lemma CopyIsPlaced(addr: nat)
      requires WellPlaced(g, sets) && Has(g, sets, addr)
      ensures Block(g, Copy(g, sets, addr).addr) == Block(g, addr)
    {
      IndexAndTag(g, Copy(g, sets, addr).addr, addr);
      var k := Find(SetFor(g, sets, addr), Tag(g, addr));
      assert Placed(g, Index(g, addr), At(sets, Index(g, addr))[k]);
    }

    lemma UnlockedBlock(a: nat, b: nat)
      requires Shape() && Block(g, a) == Block(g, b)
      ensures Unlocked(a) == Unlocked(b)
    {
      forall n | n in Repr
        ensures Locked(n.g, n.sets, a) == Locked(n.g, n.sets, b)
      {
        Closed(n);
        SameBlock(n.g, n.sets, a, b);
      }
    }

    // -------------------------------------------------------------- invalidation

    /** Some copy of the block, here or above, is dirty. */
    ghost predicate AnyDirty(addr: nat)
      reads Repr`sets
    {
      exists n :: n in Repr && Dirty(n.g, n.sets, addr)
    }

    /** How long it takes to take the block out of this cache and those above; a dirty copy above takes twice. */
    ghost function Time(addr: nat): int
      requires Shape()
      reads Repr`sets
      decreases level, 1
    {
      if SetFor(g, sets, addr) == [] then 0
      else if !Has(g, sets, addr) then LATENCY_EACH[level]
      else TimeAbove(addr, |higher|)
    }

    ghost function TimeAbove(addr: nat, n: nat): int
      requires Shape() && n <= |higher|
      reads (Repr - {this})`sets
      decreases level, 0, n
    {
      if n == 0 then LATENCY_EACH[level]
      else
        var above := higher[n - 1].Time(addr);
        Max(TimeAbove(addr, n - 1), LATENCY_EACH[level] + if higher[n - 1].AnyDirty(addr) then above * 2 else above)
    }

    /** When the last of the caches above has answered an eviction; a dirty copy takes a transfer more. */
    ghost function EvictTime(addr: nat, n: nat): int
      requires Shape() && n <= |higher|
      reads (Repr - {this})`sets
    {
      if n == 0 then 0
      else Max(EvictTime(addr, n - 1),
               higher[n - 1].Time(addr) + if higher[n - 1].AnyDirty(addr) then LATENCY_EACH[level] else 0)
    }

    /** A chain of caches from this one upwards: each but the last holds the block, and the last has lines in the set of
        the block. */
    ghost predicate IsChain(chain: seq<Cache>, addr: nat)
      requires Shape()
      reads Repr`sets
      decreases |chain|
    {
      && chain != [] && chain[0] == this && SetFor(g, sets, addr) != []
      && (|chain| > 1 ==>
            && Has(g, sets, addr)
            && exists i :: 0 <= i < |higher| && higher[i] == chain[1] && higher[i].IsChain(chain[1..], addr))
    }

    /** The latencies along a chain; what comes from above a dirty copy counts twice. */
    ghost function ChainTime(chain: seq<Cache>, addr: nat): int
      requires Shape() && IsChain(chain, addr)
      reads Repr`sets
      decreases |chain|
    {
      if |chain| == 1 then LATENCY_EACH[level]
      else LATENCY_EACH[level] + (if chain[1].AnyDirty(addr) then 2 else 1) * chain[1].ChainTime(chain[1..], addr)
    }

    lemma TimeAboveCovers(addr: nat, n: nat)
      requires Shape() && n <= |higher|
      ensures LATENCY_EACH[level] <= TimeAbove(addr, n)
      ensures forall i :: 0 <= i < n ==>
                LATENCY_EACH[level] + (if higher[i].AnyDirty(addr) then 2 else 1) * higher[i].Time(addr)
                  <= TimeAbove(addr, n)
      ensures TimeAbove(addr, n) == LATENCY_EACH[level] || exists i ::
                0 <= i < n && TimeAbove(addr, n) ==
                  LATENCY_EACH[level] + (if higher[i].AnyDirty(addr) then 2 else 1) * higher[i].Time(addr)
    {
      hide Time, AnyDirty;
      if n > 0 {
        TimeAboveCovers(addr, n - 1);
      }
    }

    /** No chain takes longer. */
    lemma {:induction false} TimeCoversChains(chain: seq<Cache>, addr: nat)
      requires Shape() && IsChain(chain, addr)
      ensures ChainTime(chain, addr) <= Time(addr)
      decreases |chain|
    {
      hide AnyDirty, TimeAbove, Has, SetFor;
      TimeAboveCovers(addr, |higher|);
      if |chain| > 1 {
        var i :| 0 <= i < |higher| && higher[i] == chain[1] && higher[i].IsChain(chain[1..], addr);
        higher[i].TimeCoversChains(chain[1..], addr);
      }
    }

    /** Some chain takes as long. */
    lemma {:induction false} TimeIsOfAChain(addr: nat) returns (chain: seq<Cache>)
      requires Shape() && SetFor(g, sets, addr) != []
      ensures IsChain(chain, addr) && ChainTime(chain, addr) == Time(addr)
      decreases level
    {
      hide AnyDirty, TimeAbove, Has, SetFor;
      chain := [this];
      TimeAboveCovers(addr, |higher|);
      if Has(g, sets, addr) && Time(addr) != LATENCY_EACH[level] {
        var i :| 0 <= i < |higher| && Time(addr) ==
                 LATENCY_EACH[level] + (if higher[i].AnyDirty(addr) then 2 else 1) * higher[i].Time(addr);
        if SetFor(higher[i].g, higher[i].sets, addr) != [] {
          var above := higher[i].TimeIsOfAChain(addr);
          chain := [this] + above;
          assert chain[1..] == above;
        }
      }
    }

    /** An eviction waits for each cache above, a transfer more for a dirty block, and for no more than one of them. */
    lemma {:induction false} EvictTimeCovers(addr: nat, n: nat)
      requires Shape() && n <= |higher|
      ensures forall i :: 0 <= i < n ==>
                higher[i].Time(addr) + (if higher[i].AnyDirty(addr) then LATENCY_EACH[level] else 0)
                  <= EvictTime(addr, n)
      ensures 0 <= EvictTime(addr, n)
      ensures EvictTime(addr, n) == 0 || exists i ::
                0 <= i < n && EvictTime(addr, n) ==
                  higher[i].Time(addr) + if higher[i].AnyDirty(addr) then LATENCY_EACH[level] else 0
    {
      hide Time, AnyDirty;
      if n > 0 {
        EvictTimeCovers(addr, n - 1);
      }
    }

    /** In cycles: at most so many with dirty copies, and no more than the latency of a lookup without. */
    lemma {:induction false} TimeIsBounded(addr: nat)
      requires Shape()
      ensures 0 <= Time(addr) <= if level == 0 then 4 else if level == 1 then 12 + 2 * 4 else 31 + 2 * (12 + 2 * 4)
      ensures !AnyDirty(addr) ==> Time(addr) <= LATENCY[level]
      decreases level
    {
      hide TimeAbove, Has, SetFor;
      TimeAboveCovers(addr, |higher|);
      forall i | 0 <= i < |higher|
        ensures 0 <= higher[i].Time(addr) <= if level == 1 then 4 else 12 + 2 * 4
        ensures !AnyDirty(addr) ==> higher[i].Time(addr) <= LATENCY[level - 1] && !higher[i].AnyDirty(addr)
      {
        higher[i].TimeIsBounded(addr);
      }
    }

    /** The block is taken out of this cache and all those above it.  `dirty` says whether any of the copies
        was dirty, `delay` how long it takes. */
    method Invalidate(addr: nat) returns (delay: int, dirty: bool)
      requires Shape() && Tidy() && Inclusive() && Unlocked(addr)
      modifies Repr`sets
      ensures forall n :: n in Repr ==> Dropped(n.g, old(n.sets), n.sets, addr)
      ensures dirty == old(AnyDirty(addr))
      ensures delay == old(Time(addr))
      decreases level, 1
    {
      hide Dropped, Has, Dirty, Locked, WellPlaced, Tidy, Inclusive;
      if !Has(g, sets, addr) {
        AbsentAbove(addr);
      }
      EachAbove(addr);
      delay, dirty := LATENCY_EACH[level], false;
      var present, empty, lineDirty := Remove(addr);
      if empty {
        return 0, false;
      }
      if !present {
        return;
      }
      if |higher| == 0 {
        dirty := lineDirty;
        return;
      }
      delay, dirty := InvalidateHigher(addr, delay, lineDirty);
    }

    /** The block is taken out of this cache alone. */
    method Remove(addr: nat) returns (present: bool, empty: bool, dirty: bool)
      requires !Locked(g, sets, addr)
      modifies this`sets
      ensures Dropped(g, old(sets), sets, addr)
      ensures present == old(Has(g, sets, addr)) && dirty == old(Dirty(g, sets, addr))
      ensures empty == (old(SetFor(g, sets, addr)) == []) && (empty ==> !present)
    {
      var index, tag := Index(g, addr), Tag(g, addr);
      if index !in sets {
        sets := sets[index := []];
      }
      var lines := sets[index];
      var k := Find(lines, tag);
      if k == |lines| {
        return false, |lines| == 0, false;
      }
      assert !lines[k].lock;
      sets := sets[index := lines[..k] + lines[k + 1..]];
      return true, false, lines[k].dirty;
    }

    lemma TimesStart(addr: nat)
      requires Shape()
      ensures TimeAbove(addr, 0) == LATENCY_EACH[level] && EvictTime(addr, 0) == 0
    {
    }

    lemma TimesAbove(addr: nat)
      requires Shape()
      ensures forall i :: 0 <= i < |higher| ==>
                var above := higher[i].Time(addr);
                TimeAbove(addr, i + 1) ==
                  Max(TimeAbove(addr, i), LATENCY_EACH[level] + if higher[i].AnyDirty(addr) then above * 2 else above)
    {
      hide Time, TimeAbove, AnyDirty;
      forall i | 0 <= i < |higher| {
        TimeOneMore(addr, i);
      }
    }

    lemma TimeOneMore(addr: nat, i: nat)
      requires Shape() && i < |higher|
      ensures var above := higher[i].Time(addr);
              TimeAbove(addr, i + 1) ==
                Max(TimeAbove(addr, i), LATENCY_EACH[level] + if higher[i].AnyDirty(addr) then above * 2 else above)
    {
      hide Time, AnyDirty;
    }

    lemma EvictTimes(addr: nat)
      requires Shape()
      ensures forall i :: 0 <= i < |higher| ==>
                EvictTime(addr, i + 1) ==
                  Max(EvictTime(addr, i),
                      higher[i].Time(addr) + if higher[i].AnyDirty(addr) then LATENCY_EACH[level] else 0)
    {
      hide Time, TimeAbove, EvictTime, AnyDirty;
      forall i | 0 <= i < |higher| {
        EvictOneMore(addr, i);
      }
    }

    lemma EvictOneMore(addr: nat, i: nat)
      requires Shape() && i < |higher|
      ensures EvictTime(addr, i + 1) ==
                Max(EvictTime(addr, i),
                    higher[i].Time(addr) + if higher[i].AnyDirty(addr) then LATENCY_EACH[level] else 0)
    {
      hide Time, AnyDirty, TimeAbove;
    }

    method InvalidateHigher(addr: nat, delay: int, lineDirty: bool) returns (maxDelay: int, dirty: bool)
      requires Shape() && higher != [] && delay == LATENCY_EACH[level]
      requires forall i :: 0 <= i < |higher| ==> higher[i].Tidy() && higher[i].Inclusive() && higher[i].Unlocked(addr)
      modifies (Repr - {this})`sets
      ensures forall i, n :: 0 <= i < |higher| && n in higher[i].Repr ==> Dropped(n.g, old(n.sets), n.sets, addr)
      ensures dirty == (lineDirty || exists i :: 0 <= i < |higher| && old(higher[i].AnyDirty(addr)))
      ensures maxDelay == old(TimeAbove(addr, |higher|))
      decreases level, 0
    {
      hide Dropped, Has, Dirty, Locked, WellPlaced, Tidy, Inclusive, Unlocked, AnyDirty, Time, TimeAbove, EvictTime;
      TimesStart(addr);
      TimesAbove(addr);
      maxDelay, dirty := delay, false;
      for i := 0 to |higher|
        invariant maxDelay == old(TimeAbove(addr, i))
        invariant forall j, n :: 0 <= j < |higher| && n in higher[j].Repr ==>
                    if j < i then Dropped(n.g, old(n.sets), n.sets, addr) else n.sets == old(n.sets)
        invariant dirty == ((0 < i && lineDirty) || exists j :: 0 <= j < i && old(higher[j].AnyDirty(addr)))
      {
        assert old(higher[i].Tidy()) && old(higher[i].Inclusive()) && old(higher[i].Unlocked(addr));
        assert higher[i].Tidy() && higher[i].Inclusive() && higher[i].Unlocked(addr);
        assert higher[i].AnyDirty(addr) == old(higher[i].AnyDirty(addr));
        assert higher[i].Time(addr) == old(higher[i].Time(addr));
        var above, aboveDirty := higher[i].Invalidate(addr);
        maxDelay := Max(maxDelay, delay + if aboveDirty then above * 2 else above);
        dirty := dirty || lineDirty || aboveDirty;
      }
    }

    lemma EachAbove(addr: nat)
      requires Shape() && Tidy() && Inclusive() && Unlocked(addr)
      ensures forall i :: 0 <= i < |higher| ==>
                higher[i].Tidy() && higher[i].Inclusive() && higher[i].Unlocked(addr)
      ensures AnyDirty(addr) <==> Dirty(g, sets, addr) || exists i :: 0 <= i < |higher| && higher[i].AnyDirty(addr)
    {
    }

    lemma AbsentAbove(addr: nat)
      requires Shape() && Inclusive() && !Has(g, sets, addr)
      ensures !AnyDirty(addr) && forall n :: n in Repr ==> Dropped(n.g, n.sets, n.sets, addr)
    {
      NotAbove(addr);
      forall n | n in Repr
        ensures Dropped(n.g, n.sets, n.sets, addr)
      {
        DropAbsent(n.g, n.sets, addr);
      }
    }

    // -------------------------------------------------------------- eviction

    /** A block from the cache above comes back with its newest data. */
    method EvictLine(addr: nat, dirty: bool)
      requires WellPlaced(g, sets) && Has(g, sets, addr)
      modifies this`sets
      ensures var was := old(Copy(g, sets, addr));
              Renewed(g, old(sets), sets, addr, Line(addr, Tag(g, addr), false, dirty || was.dirty, was.core))
    {
      var index, tag := Index(g, addr), Tag(g, addr);
      assert index in sets;
      var lines := sets[index];
      var k := Find(lines, tag);
      assert k != |lines|;
      var line := Line(addr, tag, false, dirty || lines[k].dirty, lines[k].core);
      sets := sets[index := lines[..k] + lines[k + 1..] + [line]];
    }

    /** All the caches above lose the block; `time` is when the last of them has answered. */
    method InvalidateForEviction(addr: nat, lineDirty: bool) returns (time: int, dirty: bool)
      requires Shape()
      requires forall i :: 0 <= i < |higher| ==> higher[i].Tidy() && higher[i].Inclusive() && higher[i].Unlocked(addr)
      modifies (Repr - {this})`sets
      ensures forall i, n :: 0 <= i < |higher| && n in higher[i].Repr ==> Dropped(n.g, old(n.sets), n.sets, addr)
      ensures dirty == (lineDirty || exists i :: 0 <= i < |higher| && old(higher[i].AnyDirty(addr)))
      ensures time == old(EvictTime(addr, |higher|))
    {
      hide Dropped, Has, Dirty, Locked, WellPlaced, Tidy, Inclusive, Unlocked, AnyDirty, Time, TimeAbove, EvictTime;
      TimesStart(addr);
      EvictTimes(addr);
      time, dirty := 0, lineDirty;
      for i := 0 to |higher|
        invariant time == old(EvictTime(addr, i))
        invariant forall j, n :: 0 <= j < |higher| && n in higher[j].Repr ==>
                    if j < i then Dropped(n.g, old(n.sets), n.sets, addr) else n.sets == old(n.sets)
        invariant dirty == (lineDirty || exists j :: 0 <= j < i && old(higher[j].AnyDirty(addr)))
      {
        assert old(higher[i].Tidy()) && old(higher[i].Inclusive()) && old(higher[i].Unlocked(addr));
        assert higher[i].Tidy() && higher[i].Inclusive() && higher[i].Unlocked(addr);
        assert higher[i].AnyDirty(addr) == old(higher[i].AnyDirty(addr));
        assert higher[i].Time(addr) == old(higher[i].Time(addr));
        var above, aboveDirty := higher[i].Invalidate(addr);
        time := Max(time, above + if aboveDirty then LATENCY_EACH[level] else 0);
        dirty := dirty || aboveDirty || lineDirty;
      }
    }

    /** This cache is in the tree below `root`, and `lower` is the next one down, if any. */
    ghost predicate Sits(root: Cache, lower: Cache?) {
      && root.Shape() && this in root.Repr
      && if lower == null then this == root else lower in root.Repr && this in lower.higher
    }

    lemma VictimIs(root: Cache, lower: Cache?, index: int, k: nat)
      requires Sits(root, lower) && root.Tidy() && root.Inclusive()
      requires k < |At(sets, index)| && Unlocked(At(sets, index)[k].addr)
      ensures Shape() && Repr <= root.Repr && Tidy() && Inclusive()
      ensures var line := At(sets, index)[k];
              && Index(g, line.addr) == index && Find(At(sets, index), Tag(g, line.addr)) == k
              && Has(g, sets, line.addr) && Copy(g, sets, line.addr) == line && !line.lock
              && (lower != null ==> WellPlaced(lower.g, lower.sets) && Has(lower.g, lower.sets, line.addr))
      ensures lower != null ==> lower !in Repr && lower in root.Repr && lower != this
    {
      root.Closed(this);
      var line := At(sets, index)[k];
      assert WellPlaced(g, sets);
      assert Placed(g, index, line) && Distinct(At(sets, index));
      FindIs(At(sets, index), line.tag, k);
      assert !Locked(g, sets, line.addr);
      if lower != null {
        root.Closed(lower);
        var i :| 0 <= i < |lower.higher| && lower.higher[i] == this;
        assert lower.higher[i] in root.Repr && Has(lower.higher[i].g, lower.higher[i].sets, line.addr);
      }
    }

    method Erase(index: int, k: nat)
      requires k < |At(sets, index)| && Index(g, At(sets, index)[k].addr) == index
      requires Find(At(sets, index), Tag(g, At(sets, index)[k].addr)) == k
      modifies this`sets
      ensures Dropped(g, old(sets), sets, old(At(sets, index)[k].addr))
    {
      var lines := sets[index];
      sets := sets[index := lines[..k] + lines[k + 1..]];
    }

    /** What an eviction leaves behind is inclusive again. */
    lemma StillInclusive(root: Cache, was: map<Cache, Sets>, lower: Cache?, addr: nat, line: Line)
      requires Sits(root, lower) && was.Keys == root.Repr && (lower != null ==> lower !in Repr)
      requires forall n :: n in root.Repr ==> WellPlaced(n.g, was[n])
      requires forall n, i, a :: n in root.Repr && 0 <= i < |n.higher| && n.higher[i] in root.Repr ==>
                 Has(n.higher[i].g, was[n.higher[i]], a) ==> Has(n.g, was[n], a)
      requires Repr <= root.Repr && forall n :: n in Repr ==> Dropped(n.g, was[n], n.sets, addr)
      requires forall n :: n in root.Repr && n !in Repr && n != lower ==> n.sets == was[n]
      requires lower != null ==>
                 && Has(lower.g, was[lower], addr) && Renewed(lower.g, was[lower], lower.sets, addr, line)
                 && line.tag == Tag(lower.g, addr) && Placed(lower.g, Index(lower.g, addr), line)
      ensures root.Tidy() && root.Inclusive()
    {
      hide Dropped, WellPlaced, Renewed, Has, Placed, Copy, Tag, Index;
      root.Closed(this);
      forall n | n in root.Repr
        ensures WellPlaced(n.g, n.sets)
        ensures forall a :: Has(n.g, n.sets, a) <==>
                  Has(n.g, was[n], a) && (n in Repr ==> Block(n.g, a) != Block(n.g, addr))
      {
        if n in Repr {
          DroppedPlaced(n.g, was[n], n.sets, addr);
          forall a
            ensures Has(n.g, n.sets, a) <==> Has(n.g, was[n], a) && Block(n.g, a) != Block(n.g, addr)
          {
            DroppedHas(n.g, was[n], n.sets, addr, a);
          }
        } else if n == lower {
          RenewedPlaced(n.g, was[n], n.sets, addr, line);
          forall a
            ensures Has(n.g, n.sets, a) <==> Has(n.g, was[n], a)
          {
            RenewedHas(n.g, was[n], n.sets, addr, line, a);
            if Block(n.g, a) == Block(n.g, addr) {
              SameBlock(n.g, was[n], a, addr);
            }
          }
        }
      }
      forall n, i, a | n in root.Repr && 0 <= i < |n.higher| && n.higher[i] in root.Repr &&
                       Has(n.higher[i].g, n.higher[i].sets, a)
        ensures Has(n.g, n.sets, a)
      {
        root.Closed(n);
        root.Closed(n.higher[i]);
        if n in Repr {
          Closed(n);
        }
      }
    }

    /** The block that the cache `lower` held is its most recently used one now, dirty if either copy was. */
    ghost predicate PassedDown(lower: Cache, was: Sets, addr: nat, dirty: bool)
      reads lower`sets
    {
      && Has(lower.g, was, addr)
      && var copy := Copy(lower.g, was, addr);
         Renewed(lower.g, was, lower.sets, addr, Line(addr, Tag(lower.g, addr), false, dirty || copy.dirty, copy.core))
    }

    /** A dirty block is on its way to memory once all the caches above have answered, a clean one is not. */
    ghost predicate SentToMemory(was: seq<Job>, addr: nat, core: int, dirty: bool, time: int)
      reads system
    {
      if dirty then level < 3 && system.waitList == was + [Job(system.clk + time + LATENCY[level], Write, addr, core)]
      else system.waitList == was
    }

    /** The steps of an eviction: invalidate above, pass the data down, erase the line. */
    method MoveOut(lower: Cache?, index: int, k: nat, ghost addr: nat)
      requires Shape() && Tidy() && Inclusive() && Unlocked(addr)
      requires k < |At(sets, index)| && At(sets, index)[k].addr == addr && Index(g, addr) == index
      requires Find(At(sets, index), Tag(g, addr)) == k
      requires lower != null ==> lower !in Repr && WellPlaced(lower.g, lower.sets) && Has(lower.g, lower.sets, addr)
      modifies Repr`sets, (if lower == null then {} else {lower})`sets, system`waitList
      ensures forall n :: n in Repr ==> Dropped(n.g, old(n.sets), n.sets, addr)
      ensures lower != null ==>
                PassedDown(lower, old(lower.sets), addr, old(AnyDirty(addr))) && system.waitList == old(system.waitList)
      ensures lower == null ==>
                SentToMemory(old(system.waitList), addr, old(At(sets, index)[k].core), old(AnyDirty(addr)),
                  old(EvictTime(addr, |higher|)))
    {
      hide Dropped, WellPlaced, Unlocked, Tidy, Inclusive, Renewed, AnyDirty, EvictTime, Time, TimeAbove;
      var line := At(sets, index)[k];
      EachAbove(addr);
      var time, dirty := InvalidateForEviction(line.addr, line.dirty);
      assert dirty == old(AnyDirty(addr));
      if lower != null {
        lower.EvictLine(line.addr, dirty);
      } else if dirty {
        system.waitList := system.waitList + [Job(system.clk + time + LATENCY[level], Write, line.addr, line.core)];
      }
      Erase(index, k);
    }

    /** The line at position `k` of a set is evicted: no copy of its block is left here or above, and their
        newest data is in the cache below, or on its way to memory. */
    method Evict(lower: Cache?, index: int, k: nat, ghost addr: nat, ghost root: Cache)
      requires Sits(root, lower) && root.Tidy() && root.Inclusive()
      requires k < |At(sets, index)| && At(sets, index)[k].addr == addr && Unlocked(addr)
      modifies root.Repr`sets, system`waitList
      ensures root.Tidy() && root.Inclusive()
      ensures forall n :: n in Repr ==> Dropped(n.g, old(n.sets), n.sets, addr)
      ensures forall n :: n in root.Repr && n !in Repr && n != lower ==> n.sets == old(n.sets)
      ensures lower != null ==>
                PassedDown(lower, old(lower.sets), addr, old(AnyDirty(addr))) && system.waitList == old(system.waitList)
      ensures lower == null ==>
                SentToMemory(old(system.waitList), addr, old(At(sets, index)[k].core), old(AnyDirty(addr)),
                  old(EvictTime(addr, |higher|)))
    {
      hide Dropped, WellPlaced, Unlocked, Tidy, Inclusive, Renewed, AnyDirty, SentToMemory, Has, EvictTime, Time;
      ghost var was: map<Cache, Sets> := map n | n in root.Repr :: n.sets;
      ghost var dirty := AnyDirty(addr);
      VictimIs(root, lower, index, k);
      WasInclusive(root, was);
      MoveOut(lower, index, k, addr);
      if lower != null {
        ghost var copy := Copy(lower.g, was[lower], addr);
        StillInclusive(root, was, lower, addr, Line(addr, Tag(lower.g, addr), false, dirty || copy.dirty, copy.core));
      } else {
        StillInclusive(root, was, lower, addr, Line(addr, 0, false, false, 0));
      }
    }

    lemma WasInclusive(root: Cache, was: map<Cache, Sets>)
      requires root.Tidy() && root.Inclusive() && was == map n | n in root.Repr :: n.sets
      ensures forall n :: n in root.Repr ==> WellPlaced(n.g, was[n])
      ensures forall n, i, a :: n in root.Repr && 0 <= i < |n.higher| && n.higher[i] in root.Repr ==>
                Has(n.higher[i].g, was[n.higher[i]], a) ==> Has(n.g, was[n], a)
    {
    }

    // -------------------------------------------------------------- a new line

    /** The position of the first line that is unlocked here and above, if there is one. */
    method FindVictim(lines: seq<Line>) returns (k: nat)
      requires Shape() && Tidy() && Inclusive()
      requires forall j :: 0 <= j < |lines| ==> Has(g, sets, lines[j].addr) && Copy(g, sets, lines[j].addr) == lines[j]
      ensures k <= |lines| && (k < |lines| ==> Unlocked(lines[k].addr))
      ensures forall j :: 0 <= j < k ==> !Unlocked(lines[j].addr)
    {
      hide Has, Copy, Tidy, Inclusive;
      k := 0;
      while k < |lines|
        invariant k <= |lines| && forall j :: 0 <= j < k ==> !Unlocked(lines[j].addr)
      {
        var check := !lines[k].lock;
        for i := 0 to |higher|
          invariant check <==> !lines[k].lock && forall j :: 0 <= j < i ==> higher[j].Unlocked(lines[k].addr)
        {
          if check {
            Above(i);
            check := higher[i].CheckUnlock(lines[k].addr);
          }
        }
        assert check <==> Unlocked(lines[k].addr);
        if check {
          return;
        }
        k := k + 1;
      }
    }

    lemma EveryLineIsACopy(index: int)
      requires WellPlaced(g, sets)
      ensures var lines := At(sets, index);
              forall j :: 0 <= j < |lines| ==> Has(g, sets, lines[j].addr) && Copy(g, sets, lines[j].addr) == lines[j]
    {
      var lines := At(sets, index);
      forall j | 0 <= j < |lines|
        ensures Has(g, sets, lines[j].addr) && Copy(g, sets, lines[j].addr) == lines[j]
      {
        assert Placed(g, index, lines[j]);
        FindIs(lines, lines[j].tag, j);
      }
    }

    /** Inclusive but for the block of `addr`, which this cache may have before the ones below it. */
    ghost predicate InclusiveBut(root: Cache, addr: nat)
      reads root.Repr`sets
    {
      forall n, i, a ::
        n in root.Repr && 0 <= i < |n.higher| && n.higher[i] in root.Repr && Has(n.higher[i].g, n.higher[i].sets, a)
        ==>
          Has(n.g, n.sets, a) || (n.higher[i] == this && Block(g, a) == Block(g, addr))
    }

    /** What evicting `victim` does to all the caches but this one, and to the requests to memory. */
    twostate predicate MovedOut(root: Cache, lower: Cache?, victim: Line)
      reads root.Repr`sets, Repr`sets, (if lower == null then {} else {lower})`sets, system
    {
      && Shape()
      && (forall n :: n in Repr && n != this ==> Dropped(n.g, old(n.sets), n.sets, victim.addr))
      && (forall n :: n in root.Repr && n !in Repr && n != lower ==> n.sets == old(n.sets))
      && if lower != null then
           PassedDown(lower, old(lower.sets), victim.addr, old(AnyDirty(victim.addr)))
           && system.waitList == old(system.waitList)
         else SentToMemory(old(system.waitList), victim.addr, victim.core, old(AnyDirty(victim.addr)),
                          old(EvictTime(victim.addr, |higher|)))
    }

    /** The position of the first line that is unlocked here and above. */
    ghost predicate FirstEvictable(lines: seq<Line>, k: nat)
      reads Repr`sets
    {
      k < |lines| && Unlocked(lines[k].addr) && forall j :: 0 <= j < k ==> !Unlocked(lines[j].addr)
    }

    /** A line for a block that has none, locked until its data comes.  A full set first evicts its first line
        that is unlocked everywhere above; if every line is locked somewhere, there is no new line. */
    method AllocateLine(lower: Cache?, addr: nat, core: int, ghost root: Cache) returns (ok: bool, ghost k: nat)
      requires Sits(root, lower) && root.Tidy() && root.Inclusive()
      requires !Has(g, sets, addr) && |SetFor(g, sets, addr)| <= g.assoc
      modifies root.Repr`sets, system`waitList
      ensures root.Tidy() && InclusiveBut(root, addr) && |SetFor(g, sets, addr)| <= g.assoc
      ensures ok == (|old(SetFor(g, sets, addr))| < g.assoc || old(AnyEvictable(SetFor(g, sets, addr))))
      ensures ok ==> Has(g, sets, addr) && Copy(g, sets, addr) == Line(addr, Tag(g, addr), true, false, core)
      ensures !ok || |old(SetFor(g, sets, addr))| < g.assoc ==>
                && system.waitList == old(system.waitList)
                && forall n :: n in root.Repr && n != this ==> n.sets == old(n.sets)
      ensures !ok ==> sets == old(sets)
      ensures ok && |old(SetFor(g, sets, addr))| < g.assoc ==> Pushed(old(sets), addr, core)
      ensures ok && |old(SetFor(g, sets, addr))| == g.assoc ==>
                && old(FirstEvictable(SetFor(g, sets, addr), k)) && Compete(g, old(SetFor(g, sets, addr)[k].addr), addr)
                && MovedOut(root, lower, old(SetFor(g, sets, addr)[k]))
                && exists mid ::
                     Dropped(g, old(sets), mid, old(SetFor(g, sets, addr)[k].addr)) && Pushed(mid, addr, core)
    {
      hide Inclusive, Tidy, Unlocked, InclusiveBut, Has, Copy, AnyEvictable, FirstEvictable, Dropped, Pushed,
           PassedDown, SentToMemory, Shape, Sits, WellPlaced, EvictTime, Time, TimeAbove, AnyDirty;
      AlreadyInclusive(root, addr);
      ok := true;
      k := 0;
      if |SetFor(g, sets, addr)| >= g.assoc {
        ok, k := MakeRoom(lower, addr, root);
      }
      LowerIsOther(root, lower);
      if ok {
        PushLine(addr, core, root);
      }
    }

    lemma LowerIsOther(root: Cache, lower: Cache?)
      requires Sits(root, lower)
      ensures root.Shape() && this in root.Repr && lower != this
    {
      if lower != null {
        root.Closed(lower);
      }
    }

    /** The new line is the last of its set. */
    ghost predicate Pushed(was: Sets, addr: nat, core: int)
      reads this`sets
    {
      forall i :: At(sets, i) ==
        if i == Index(g, addr) then At(was, i) + [Line(addr, Tag(g, addr), true, false, core)] else At(was, i)
    }

    method MakeRoom(lower: Cache?, addr: nat, ghost root: Cache) returns (ok: bool, ghost k: nat)
      requires Sits(root, lower) && root.Tidy() && root.Inclusive() && !Has(g, sets, addr)
      modifies root.Repr`sets, system`waitList
      ensures root.Tidy() && root.Inclusive() && ok == old(AnyEvictable(SetFor(g, sets, addr)))
      ensures ok ==> !Has(g, sets, addr) && |SetFor(g, sets, addr)| == |old(SetFor(g, sets, addr))| - 1
      ensures ok ==>
                old(FirstEvictable(SetFor(g, sets, addr), k)) && MovedOut(root, lower, old(SetFor(g, sets, addr)[k]))
      ensures ok ==> Dropped(g, old(sets), sets, old(SetFor(g, sets, addr)[k].addr))
      ensures ok ==> Compete(g, old(SetFor(g, sets, addr)[k].addr), addr)
      ensures !ok ==> system.waitList == old(system.waitList) && forall n :: n in root.Repr ==> n.sets == old(n.sets)
    {
      hide Inclusive, Tidy, Unlocked, Dropped, Renewed, PassedDown, SentToMemory, WellPlaced, EvictTime, Time;
      SubtreeOf(root);
      var index := Index(g, addr);
      var lines := At(sets, index);
      EveryLineIsACopy(index);
      var at := FindVictim(lines);
      k := at;
      if at == |lines| {
        return false, 0;
      }
      ghost var full := sets;
      LinesCompete(g, sets, addr, at);
      Evict(lower, index, at, lines[at].addr, root);
      AfterEviction(full, index, at, addr);
      ok := true;
    }

    method PushLine(addr: nat, core: int, ghost root: Cache)
      requires root.Shape() && this in root.Repr && root.Tidy() && root.Inclusive() && !Has(g, sets, addr)
      modifies this`sets
      ensures root.Tidy() && InclusiveBut(root, addr)
      ensures |SetFor(g, sets, addr)| == |old(SetFor(g, sets, addr))| + 1 && Pushed(old(sets), addr, core)
      ensures Has(g, sets, addr) && Copy(g, sets, addr) == Line(addr, Tag(g, addr), true, false, core)
    {
      hide Inclusive, Tidy, WellPlaced, InclusiveBut, Has, Copy;
      ghost var was: map<Cache, Sets> := map n | n in root.Repr :: n.sets;
      WasInclusive(root, was);
      var index := Index(g, addr);
      var line := Line(addr, Tag(g, addr), true, false, core);
      sets := sets[index := At(sets, index) + [line]];
      Extended(root, was, addr, line);
    }

    lemma SubtreeOf(root: Cache)
      requires root.Shape() && this in root.Repr && root.Tidy() && root.Inclusive()
      ensures Shape() && Repr <= root.Repr && this in Repr && Tidy() && Inclusive() && WellPlaced(g, sets)
    {
      root.Closed(this);
    }

    lemma AlreadyInclusive(root: Cache, addr: nat)
      requires root.Inclusive()
      ensures InclusiveBut(root, addr)
    {
    }

    /** Room was made in the set of `addr`, by taking out its line at position `k`. */
    lemma AfterEviction(was: Sets, index: int, k: nat, addr: nat)
      requires WellPlaced(g, was) && !Has(g, was, addr) && index == Index(g, addr) && k < |At(was, index)|
      requires Dropped(g, was, sets, At(was, index)[k].addr)
      ensures !Has(g, sets, addr) && |At(sets, index)| == |At(was, index)| - 1
    {
      var line := At(was, index)[k];
      DroppedHas(g, was, sets, line.addr, addr);
      assert Placed(g, index, line);
      FindIs(At(was, index), line.tag, k);
    }

    lemma Extended(root: Cache, was: map<Cache, Sets>, addr: nat, line: Line)
      requires root.Shape() && this in root.Repr && was.Keys == root.Repr
      requires forall n :: n in root.Repr ==> WellPlaced(n.g, was[n]) && (n != this ==> n.sets == was[n])
      requires forall n, i, a :: n in root.Repr && 0 <= i < |n.higher| && n.higher[i] in root.Repr ==>
                 Has(n.higher[i].g, was[n.higher[i]], a) ==> Has(n.g, was[n], a)
      requires !Has(g, was[this], addr) && line.addr == addr && line.tag == Tag(g, addr)
      requires var i := Index(g, addr); sets == was[this][i := At(was[this], i) + [line]]
      ensures root.Tidy() && InclusiveBut(root, addr)
      ensures Has(g, sets, addr) && Copy(g, sets, addr) == line
    {
      hide WellPlaced, Has, Copy, At, Index, Tag;
      PushedHas(g, was[this], addr, line);
    }

    ghost predicate AnyEvictable(lines: seq<Line>)
      reads Repr`sets
    {
      exists j :: 0 <= j < |lines| && Unlocked(lines[j].addr)
    }
  }
}
