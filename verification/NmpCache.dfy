/** The one-level cache of a near-memory core: hits, misses that wait in miss-status entries (MSHR), and the
    replacement of the least recently used line. */
module NmpCache {
  import opened CacheLines
  import opened Memory
  import opened CacheTree

  // ---------------------------------------------------------------- order of use

  /** When the block of `addr` was last touched; -1 if never. */
  function LastTouch(g: Geometry, touches: seq<nat>, addr: nat): int {
    if touches == [] then -1
    else if Block(g, touches[|touches| - 1]) == Block(g, addr) then |touches| - 1
    else LastTouch(g, touches[..|touches| - 1], addr)
  }

  ghost predicate InOrderOfUse(g: Geometry, lines: seq<Line>, touches: seq<nat>) {
    forall j, k :: 0 <= j < k < |lines| ==> LastTouch(g, touches, lines[j].addr) < LastTouch(g, touches, lines[k].addr)
  }

  /** The lines of every set are in the order in which they were last touched. */
  ghost predicate ByUse(g: Geometry, sets: Sets, touches: seq<nat>) {
    forall i :: InOrderOfUse(g, At(sets, i), touches)
  }

  lemma {:induction false} LastTouchBound(g: Geometry, touches: seq<nat>, addr: nat)
    ensures -1 <= LastTouch(g, touches, addr) < |touches|
  {
    if touches != [] {
      LastTouchBound(g, touches[..|touches| - 1], addr);
    }
  }

  lemma TouchAgain(g: Geometry, touches: seq<nat>, t: nat, addr: nat)
    ensures LastTouch(g, touches + [t], addr) ==
            if Block(g, t) == Block(g, addr) then |touches| else LastTouch(g, touches, addr)
  {
    assert (touches + [t])[..|touches|] == touches;
  }

  lemma DropInOrder(g: Geometry, lines: seq<Line>, tag: nat, touches: seq<nat>)
    requires InOrderOfUse(g, lines, touches)
    ensures InOrderOfUse(g, Drop(lines, tag), touches)
  {
    hide LastTouch;
    var d, rest := Find(lines, tag), Drop(lines, tag);
    if d < |lines| {
      assert forall j :: 0 <= j < |rest| ==> rest[j] == lines[if j < d then j else j + 1];
    }
  }

  lemma ByUseDropped(g: Geometry, was: Sets, sets: Sets, addr: nat, touches: seq<nat>)
    requires ByUse(g, was, touches) && Dropped(g, was, sets, addr)
    ensures ByUse(g, sets, touches)
  {
    hide LastTouch, InOrderOfUse, Drop, At;
    forall i
      ensures InOrderOfUse(g, At(sets, i), touches)
    {
      assert InOrderOfUse(g, At(was, i), touches);
      DropInOrder(g, At(was, i), Tag(g, addr), touches);
    }
  }

  /** A block that is touched becomes the last of its set. */
  lemma ByUseRenewed(g: Geometry, was: Sets, sets: Sets, addr: nat, line: Line, touches: seq<nat>)
    requires WellPlaced(g, was) && ByUse(g, was, touches) && Renewed(g, was, sets, addr, line)
    requires line.addr == addr && line.tag == Tag(g, addr)
    ensures ByUse(g, sets, touches + [addr])
  {
    hide LastTouch, Drop, InOrderOfUse;
    var dropped := was[Index(g, addr) := Drop(At(was, Index(g, addr)), Tag(g, addr))];
    DroppedPlaced(g, was, dropped, addr);
    ByUseDropped(g, was, dropped, addr, touches);
    forall i
      ensures InOrderOfUse(g, At(sets, i), touches + [addr])
    {
      forall j | 0 <= j < |At(dropped, i)|
        ensures Block(g, At(dropped, i)[j].addr) != Block(g, addr)
      {
        OtherBlock(g, was, dropped, addr, i, j);
      }
      assert InOrderOfUse(g, At(dropped, i), touches);
      StillInOrder(g, At(dropped, i), touches, addr);
      TouchedLast(g, At(dropped, i), touches, line);
    }
  }

  /** Touching another block does not change the order. */
  lemma StillInOrder(g: Geometry, lines: seq<Line>, touches: seq<nat>, t: nat)
    requires InOrderOfUse(g, lines, touches) && forall j :: 0 <= j < |lines| ==> Block(g, lines[j].addr) != Block(g, t)
    ensures InOrderOfUse(g, lines, touches + [t])
  {
    hide LastTouch;
    forall j | 0 <= j < |lines|
      ensures LastTouch(g, touches + [t], lines[j].addr) == LastTouch(g, touches, lines[j].addr)
    {
      TouchAgain(g, touches, t, lines[j].addr);
    }
  }

  lemma TouchedLast(g: Geometry, lines: seq<Line>, touches: seq<nat>, line: Line)
    requires InOrderOfUse(g, lines, touches)
    requires forall j :: 0 <= j < |lines| ==> Block(g, lines[j].addr) != Block(g, line.addr)
    ensures InOrderOfUse(g, lines + [line], touches + [line.addr])
  {
    hide LastTouch;
    StillInOrder(g, lines, touches, line.addr);
    TouchAgain(g, touches, line.addr, line.addr);
    forall j | 0 <= j < |lines|
      ensures LastTouch(g, touches + [line.addr], lines[j].addr) < |touches|
    {
      TouchAgain(g, touches, line.addr, lines[j].addr);
      LastTouchBound(g, touches, lines[j].addr);
    }
  }

  lemma OtherBlock(g: Geometry, was: Sets, dropped: Sets, addr: nat, i: int, j: nat)
    requires WellPlaced(g, was) && Dropped(g, was, dropped, addr) && j < |At(dropped, i)|
    ensures Block(g, At(dropped, i)[j].addr) != Block(g, addr)
  {
    var line := At(dropped, i)[j];
    DroppedPlaced(g, was, dropped, addr);
    assert Placed(g, i, line) && Distinct(At(dropped, i)) && Distinct(At(was, i));
    DropDistinct(At(was, i), Tag(g, addr));
    IndexAndTag(g, line.addr, addr);
    assert line in At(dropped, i);
  }

  // ---------------------------------------------------------------- changing a line where it is

  ghost predicate Changed(g: Geometry, was: Sets, sets: Sets, addr: nat, line: Line) {
    && Has(g, was, addr) && line.addr == Copy(g, was, addr).addr && line.tag == Copy(g, was, addr).tag
    && forall i :: At(sets, i) ==
         if i == Index(g, addr) then At(was, i)[Find(At(was, i), Tag(g, addr)) := line] else At(was, i)
  }

  lemma ChangedHas(g: Geometry, was: Sets, sets: Sets, addr: nat, line: Line)
    requires WellPlaced(g, was) && Changed(g, was, sets, addr, line)
    ensures WellPlaced(g, sets)
    ensures forall a :: Has(g, sets, a) <==> Has(g, was, a)
    ensures forall a :: Has(g, sets, a) ==>
              Copy(g, sets, a) == if Block(g, a) == Block(g, addr) then line else Copy(g, was, a)
  {
    forall i
      ensures Distinct(At(sets, i)) && forall j :: 0 <= j < |At(sets, i)| ==> Placed(g, i, At(sets, i)[j])
    {
      assert Distinct(At(was, i));
      forall j | 0 <= j < |At(sets, i)|
        ensures Placed(g, i, At(sets, i)[j])
      {
        assert Placed(g, i, At(was, i)[j]);
      }
    }
    forall a
      ensures Has(g, sets, a) <==> Has(g, was, a)
      ensures Has(g, sets, a) ==>
                Copy(g, sets, a) == if Block(g, a) == Block(g, addr) then line else Copy(g, was, a)
    {
      IndexAndTag(g, a, addr);
      assert Distinct(SetFor(g, sets, a)) && Distinct(SetFor(g, was, a));
      var k := Find(SetFor(g, was, a), Tag(g, a));
      if k < |SetFor(g, was, a)| {
        FindIs(SetFor(g, sets, a), Tag(g, a), k);
      }
    }
  }

  lemma ByUseChanged(g: Geometry, was: Sets, sets: Sets, addr: nat, line: Line, touches: seq<nat>)
    requires ByUse(g, was, touches) && Changed(g, was, sets, addr, line)
    ensures ByUse(g, sets, touches)
  {
    hide LastTouch;
  }

  // ---------------------------------------------------------------- what the cache keeps

  ghost predicate Waiting(g: Geometry, mshr: seq<nat>, addr: nat) {
    exists k :: 0 <= k < |mshr| && Block(g, mshr[k]) == Block(g, addr)
  }

  /** A line is locked exactly if an entry waits for it, and no two entries wait for one block. */
  ghost predicate EntriesMatch(g: Geometry, sets: Sets, mshr: seq<nat>) {
    && (forall a: nat :: Locked(g, sets, a) <==> Waiting(g, mshr, a))
    && OnePerBlock(g, mshr)
  }

  /** A block that was written since it was last written back is here, and dirty. */
  ghost predicate WritesAreHere(g: Geometry, sets: Sets, unsaved: set<nat>) {
    forall a: nat :: Block(g, a) in unsaved ==> Dirty(g, sets, a)
  }

  ghost predicate Fits(g: Geometry, sets: Sets) {
    forall i :: |At(sets, i)| <= g.assoc
  }

  ghost predicate Sound(g: Geometry, sets: Sets, mshr: seq<nat>, touches: seq<nat>, unsaved: set<nat>) {
    && WellPlaced(g, sets) && Fits(g, sets) && ByUse(g, sets, touches)
    && EntriesMatch(g, sets, mshr) && WritesAreHere(g, sets, unsaved)
  }

  function WithBlock(unsaved: set<nat>, b: nat, write: bool): set<nat> { if write then unsaved + {b} else unsaved }

  lemma AfterHit(g: Geometry, was: Sets, sets: Sets, mshr: seq<nat>, touches: seq<nat>, unsaved: set<nat>,
                 addr: nat, write: bool, line: Line)
    requires Sound(g, was, mshr, touches, unsaved) && Has(g, was, addr) && !Locked(g, was, addr)
    requires line.addr == addr && line.tag == Tag(g, addr) && !line.lock
    requires line.dirty == (Copy(g, was, addr).dirty || write) && Renewed(g, was, sets, addr, line)
    ensures Sound(g, sets, mshr, touches + [addr], WithBlock(unsaved, Block(g, addr), write))
  {
    hide ByUse, LastTouch, Block, Index, Tag, WellPlaced, Has, Copy, Renewed, Fits;
    ByUseRenewed(g, was, sets, addr, line, touches);
    RenewedAll(g, was, sets, addr, line);
    RenewedFits(g, was, sets, addr, line);
    forall a: nat
      ensures Locked(g, sets, a) == Locked(g, was, a)
      ensures Block(g, a) in WithBlock(unsaved, Block(g, addr), write) ==> Dirty(g, sets, a)
    {
      if Block(g, a) == Block(g, addr) {
        SameBlock(g, was, a, addr);
      }
    }
  }

  lemma RenewedFits(g: Geometry, was: Sets, sets: Sets, addr: nat, line: Line)
    requires Fits(g, was) && Has(g, was, addr) && Renewed(g, was, sets, addr, line)
    ensures Fits(g, sets)
  {
  }

  /** A write joins the miss that its block is waiting for. */
  lemma AfterMark(g: Geometry, was: Sets, sets: Sets, mshr: seq<nat>, touches: seq<nat>, unsaved: set<nat>,
                  addr: nat, write: bool, line: Line)
    requires Sound(g, was, mshr, touches, unsaved) && Locked(g, was, addr)
    requires line == Copy(g, was, addr).(dirty := write || Copy(g, was, addr).dirty)
    requires Changed(g, was, sets, addr, line)
    ensures Sound(g, sets, mshr, touches, WithBlock(unsaved, Block(g, addr), write))
  {
    hide ByUse, LastTouch, Block, Index, Tag, WellPlaced, Changed, Has, Copy, Fits;
    ByUseChanged(g, was, sets, addr, line, touches);
    ChangedHas(g, was, sets, addr, line);
    ChangedFits(g, was, sets, addr, line);
    forall a: nat
      ensures Locked(g, sets, a) == Locked(g, was, a)
      ensures Block(g, a) in WithBlock(unsaved, Block(g, addr), write) ==> Dirty(g, sets, a)
    {
      if Block(g, a) == Block(g, addr) {
        SameBlock(g, was, a, addr);
      }
    }
  }

  lemma ChangedFits(g: Geometry, was: Sets, sets: Sets, addr: nat, line: Line)
    requires Fits(g, was) && Changed(g, was, sets, addr, line)
    ensures Fits(g, sets)
  {
  }

  lemma AfterEviction(g: Geometry, was: Sets, sets: Sets, mshr: seq<nat>, touches: seq<nat>, unsaved: set<nat>,
                      addr: nat)
    requires Sound(g, was, mshr, touches, unsaved) && !Locked(g, was, addr) && Dropped(g, was, sets, addr)
    ensures Sound(g, sets, mshr, touches, unsaved - {Block(g, addr)})
  {
    hide LastTouch;
    ByUseDropped(g, was, sets, addr, touches);
    DroppedPlaced(g, was, sets, addr);
    hide ByUse, Block, Index, Tag;
    forall a: nat
      ensures Locked(g, sets, a) == Locked(g, was, a)
      ensures Block(g, a) in unsaved - {Block(g, addr)} ==> Dirty(g, sets, a)
    {
      DroppedHas(g, was, sets, addr, a);
      if Block(g, a) == Block(g, addr) {
        SameBlock(g, was, a, addr);
      }
    }
  }

  /** A missing block gets a locked line, and an entry that waits for it. */
  lemma AfterMiss(g: Geometry, was: Sets, sets: Sets, mshr: seq<nat>, touches: seq<nat>, unsaved: set<nat>,
                  addr: nat, write: bool, line: Line)
    requires Sound(g, was, mshr, touches, unsaved) && !Has(g, was, addr) && |SetFor(g, was, addr)| < g.assoc
    requires line.addr == addr && line.tag == Tag(g, addr) && line.lock && line.dirty == write
    requires Renewed(g, was, sets, addr, line)
    ensures Sound(g, sets, mshr + [addr], touches + [addr], WithBlock(unsaved, Block(g, addr), write))
  {
    hide ByUse, LastTouch, Block, Index, Tag, WellPlaced, Has, Copy, Renewed, Waiting, Fits;
    ByUseRenewed(g, was, sets, addr, line, touches);
    RenewedAll(g, was, sets, addr, line);
    MissFits(g, was, sets, addr, line);
    forall a: nat
      ensures Locked(g, sets, a) <==> Waiting(g, mshr + [addr], a)
      ensures Block(g, a) in WithBlock(unsaved, Block(g, addr), write) ==> Dirty(g, sets, a)
    {
      WaitingMore(g, mshr, addr, a);
      if Block(g, a) == Block(g, addr) {
        SameBlock(g, was, a, addr);
        assert Block(g, addr) in unsaved ==> Dirty(g, was, addr);
      }
    }
    NewBlock(g, mshr, addr, Locked(g, was, addr));
  }

  lemma NewBlock(g: Geometry, mshr: seq<nat>, addr: nat, locked: bool)
    requires OnePerBlock(g, mshr) && (Waiting(g, mshr, addr) ==> locked) && !locked
    ensures OnePerBlock(g, mshr + [addr])
  {
  }

  lemma WaitingMore(g: Geometry, mshr: seq<nat>, t: nat, a: nat)
    ensures Waiting(g, mshr + [t], a) <==> Waiting(g, mshr, a) || Block(g, t) == Block(g, a)
  {
    if Waiting(g, mshr, a) {
      var k :| 0 <= k < |mshr| && Block(g, mshr[k]) == Block(g, a);
      assert (mshr + [t])[k] == mshr[k];
    }
    if Block(g, t) == Block(g, a) {
      assert (mshr + [t])[|mshr|] == t;
    }
  }

  lemma MissFits(g: Geometry, was: Sets, sets: Sets, addr: nat, line: Line)
    requires Fits(g, was) && |SetFor(g, was, addr)| < g.assoc && Renewed(g, was, sets, addr, line)
    ensures Fits(g, sets)
  {
  }

  /** The data has come: the line is unlocked, and its entry goes. */
  lemma AfterArrival(g: Geometry, was: Sets, sets: Sets, mshr: seq<nat>, touches: seq<nat>, unsaved: set<nat>,
                     k: nat, line: Line)
    requires Sound(g, was, mshr, touches, unsaved) && k < |mshr| && Has(g, was, mshr[k])
    requires line == Copy(g, was, mshr[k]).(lock := false) && Changed(g, was, sets, mshr[k], line)
    ensures Sound(g, sets, mshr[..k] + mshr[k + 1..], touches, unsaved)
  {
    hide ByUse, LastTouch, Block, Index, Tag, WellPlaced, Changed, Has, Copy, Fits, OnePerBlock;
    var addr, rest := mshr[k], mshr[..k] + mshr[k + 1..];
    ByUseChanged(g, was, sets, addr, line, touches);
    ChangedHas(g, was, sets, addr, line);
    ChangedFits(g, was, sets, addr, line);
    forall a: nat
      ensures Locked(g, sets, a) <==> Waiting(g, rest, a)
      ensures Block(g, a) in unsaved ==> Dirty(g, sets, a)
    {
      WaitingLess(g, mshr, k, a);
      if Block(g, a) == Block(g, addr) {
        SameBlock(g, was, a, addr);
      }
    }
    StillOnePerBlock(g, mshr, k);
  }

  ghost predicate OnePerBlock(g: Geometry, mshr: seq<nat>) {
    forall j, k :: 0 <= j < k < |mshr| ==> Block(g, mshr[j]) != Block(g, mshr[k])
  }

  lemma StillOnePerBlock(g: Geometry, mshr: seq<nat>, k: nat)
    requires k < |mshr| && OnePerBlock(g, mshr)
    ensures OnePerBlock(g, mshr[..k] + mshr[k + 1..])
  {
    var rest := mshr[..k] + mshr[k + 1..];
    assert forall j :: 0 <= j < |rest| ==> rest[j] == mshr[if j < k then j else j + 1];
  }

  lemma WaitingLess(g: Geometry, mshr: seq<nat>, k: nat, a: nat)
    requires k < |mshr| && OnePerBlock(g, mshr)
    ensures Waiting(g, mshr[..k] + mshr[k + 1..], a) <==> Waiting(g, mshr, a) && Block(g, mshr[k]) != Block(g, a)
  {
    var rest := mshr[..k] + mshr[k + 1..];
    if Waiting(g, rest, a) {
      var i :| 0 <= i < |rest| && Block(g, rest[i]) == Block(g, a);
      assert rest[i] == mshr[if i < k then i else i + 1];
    }
    if Waiting(g, mshr, a) && Block(g, mshr[k]) != Block(g, a) {
      var i :| 0 <= i < |mshr| && Block(g, mshr[i]) == Block(g, a);
      assert rest[if i < k then i else i - 1] == mshr[i];
    }
  }

  // ---------------------------------------------------------------- the choice of the victim

  function FirstUnlocked(lines: seq<Line>): (k: nat)
    ensures k <= |lines| && (forall j :: 0 <= j < k ==> lines[j].lock) && (k < |lines| ==> !lines[k].lock)
  {
    if lines == [] then 0 else if !lines[0].lock then 0 else 1 + FirstUnlocked(lines[1..])
  }

  /** The victim is, of all the unlocked lines of its set, the one that was touched longest ago. */
  lemma VictimIsLeastRecent(g: Geometry, sets: Sets, touches: seq<nat>, i: int, j: nat)
    requires ByUse(g, sets, touches) && j < |At(sets, i)| && !At(sets, i)[j].lock
    ensures var k := FirstUnlocked(At(sets, i));
            && k <= j
            && (k != j ==> LastTouch(g, touches, At(sets, i)[k].addr) < LastTouch(g, touches, At(sets, i)[j].addr))
  {
    assert InOrderOfUse(g, At(sets, i), touches);
  }

  /** A write of block `b` to memory is waiting. */
  ghost predicate WriteWaits(g: Geometry, jobs: seq<Job>, b: nat) {
    exists k :: 0 <= k < |jobs| && jobs[k].kind == Write && Block(g, jobs[k].addr) == b
  }

  /** The newest waiting write of block `b` is at position `k`. */
  predicate IsNewestWrite(g: Geometry, jobs: seq<Job>, b: nat, k: nat)
    requires k < |jobs|
  {
    && jobs[k].kind == Write && Block(g, jobs[k].addr) == b
    && forall j :: k < j < |jobs| ==> !(jobs[j].kind == Write && Block(g, jobs[j].addr) == b)
  }

  /** Memory takes the newest waiting write of block `b`. */
  ghost predicate NewestIsTaken(g: Geometry, jobs: seq<Job>, clk: int, taken: seq<bool>, b: nat)
    requires |jobs| <= |taken|
  {
    exists k: nat :: k < |jobs| && IsNewestWrite(g, jobs, b, k) && Goes(jobs, clk, taken, k)
  }

  lemma {:induction false} SomeIsNewest(g: Geometry, jobs: seq<Job>, b: nat) returns (k: nat)
    requires WriteWaits(g, jobs, b)
    ensures k < |jobs| && IsNewestWrite(g, jobs, b, k)
  {
    var m := |jobs| - 1;
    if jobs[m].kind == Write && Block(g, jobs[m].addr) == b {
      k := m;
    } else {
      k := SomeIsNewest(g, jobs[..m], b);
      assert jobs == jobs[..m] + [jobs[m]];
    }
  }

  /** If memory does not take the newest write of a block, one still waits. */
  lemma StillWaits(g: Geometry, jobs: seq<Job>, clk: int, taken: seq<bool>, b: nat)
    requires |jobs| <= |taken| && WriteWaits(g, jobs, b) && !NewestIsTaken(g, jobs, clk, taken, b)
    ensures WriteWaits(g, Kept(jobs, clk, taken), b)
  {
    var k := SomeIsNewest(g, jobs, b);
    KeptUnlessTaken(jobs, clk, taken, k);
    assert jobs[k] in Kept(jobs, clk, taken);
    hide Kept;
  }

  /** Every block that was written and whose newest data memory has not taken is here, or on its way. */
  ghost predicate NoneIsLost(g: Geometry, untaken: set<nat>, unsaved: set<nat>, jobs: seq<Job>) {
    forall b :: b in untaken ==> b in unsaved || WriteWaits(g, jobs, b)
  }

  lemma NoneIsLostLater(g: Geometry, untaken: set<nat>, was: set<nat>, now: set<nat>, jobs: seq<Job>, more: seq<Job>,
                        b: nat, write: bool)
    requires NoneIsLost(g, untaken, was, jobs) && StillSaved(g, was, now, more) && jobs <= more && (write ==> b in now)
    ensures NoneIsLost(g, WithBlock(untaken, b, write), now, more)
  {
    forall c | c in WithBlock(untaken, b, write)
      ensures c in now || WriteWaits(g, more, c)
    {
      if c in untaken && c !in was {
        var k :| 0 <= k < |jobs| && jobs[k].kind == Write && Block(g, jobs[k].addr) == c;
        assert more[k] == jobs[k];
      }
    }
  }

  /** A block that no longer counts as written and not written back is on its way to memory. */
  ghost predicate StillSaved(g: Geometry, was: set<nat>, now: set<nat>, jobs: seq<Job>) {
    forall b :: b in was && b !in now ==>
      exists k :: 0 <= k < |jobs| && jobs[k].kind == Write && Block(g, jobs[k].addr) == b
  }

  lemma NothingLost(g: Geometry, unsaved: set<nat>, jobs: seq<Job>)
    ensures StillSaved(g, unsaved, unsaved, jobs)
  {
  }

  lemma SavedLonger(g: Geometry, was: set<nat>, mid: set<nat>, now: set<nat>, jobs: seq<Job>, more: seq<Job>)
    requires StillSaved(g, was, mid, jobs) && mid <= now && jobs <= more
    ensures StillSaved(g, was, now, more)
  {
    forall b | b in was && b !in now
      ensures exists k :: 0 <= k < |more| && more[k].kind == Write && Block(g, more[k].addr) == b
    {
      var k :| 0 <= k < |jobs| && jobs[k].kind == Write && Block(g, jobs[k].addr) == b;
      assert more[k] == jobs[k];
    }
  }

  /** The request that takes an evicted line to memory, if it is dirty. */
  function WriteBack(victim: Line, clk: int): seq<Job> {
    if victim.dirty then [Job(clk + LATENCY[0], Write, victim.addr, victim.core)] else []
  }

  /** The blocks that are gone competed with that of `addr` for its set. */
  ghost predicate OnlyRivalsGone(g: Geometry, was: Sets, sets: Sets, addr: nat) {
    forall a: nat :: Has(g, was, a) && !Has(g, sets, a) ==> Compete(g, a, addr) && Block(g, a) != Block(g, addr)
  }

  lemma RenewingKeepsAll(g: Geometry, was: Sets, sets: Sets, addr: nat, line: Line)
    requires WellPlaced(g, was) && Renewed(g, was, sets, addr, line) && line.addr == addr && line.tag == Tag(g, addr)
    ensures OnlyRivalsGone(g, was, sets, addr) && WellPlaced(g, sets)
  {
    hide Has, WellPlaced, Renewed, Compete, Block;
    RenewedAll(g, was, sets, addr, line);
  }

  lemma NoneGone(g: Geometry, sets: Sets, addr: nat)
    ensures OnlyRivalsGone(g, sets, sets, addr)
  {
  }

  lemma ReplacingTakesRival(g: Geometry, was: Sets, sets: Sets, addr: nat, k: nat, line: Line)
    requires WellPlaced(g, was) && k < |SetFor(g, was, addr)| && !Has(g, was, addr)
    requires line.addr == addr && line.tag == Tag(g, addr)
    requires Replaced(g, was, sets, SetFor(g, was, addr)[k].addr, line)
    ensures OnlyRivalsGone(g, was, sets, addr)
  {
    hide Has, WellPlaced, Renewed, Dropped, Compete, Block, Copy;
    var out := SetFor(g, was, addr)[k].addr;
    var mid :| Dropped(g, was, mid, out) && Renewed(g, mid, sets, line.addr, line);
    DroppedPlaced(g, was, mid, out);
    RenewedAll(g, mid, sets, addr, line);
    LinesCompete(g, was, addr, k);
    forall a: nat | Has(g, was, a) && !Has(g, sets, a)
      ensures Compete(g, a, addr) && Block(g, a) != Block(g, addr)
    {
      DroppedHas(g, was, mid, out, a);
      SameCompete(g, a, out, addr);
    }
  }

  lemma SameCompete(g: Geometry, a: nat, b: nat, c: nat)
    requires Block(g, a) == Block(g, b) && Compete(g, b, c)
    ensures Compete(g, a, c)
  {
  }

  /** The block of `out` is gone, and then `line` came to be the most recently used of its set. */
  ghost predicate Replaced(g: Geometry, was: Sets, sets: Sets, out: nat, line: Line) {
    exists mid :: Dropped(g, was, mid, out) && Renewed(g, mid, sets, line.addr, line)
  }

  lemma MarkingKeepsAll(g: Geometry, was: Sets, sets: Sets, addr: nat, line: Line)
    requires WellPlaced(g, was) && Changed(g, was, sets, addr, line)
    ensures OnlyRivalsGone(g, was, sets, addr)
  {
    hide Has, WellPlaced, Changed, Compete, Block, Copy;
    ChangedHas(g, was, sets, addr, line);
  }

  // ---------------------------------------------------------------- the cache

  class NmpCache {
    const cache: Cache
    const mshrMax: nat

    /** The addresses of the misses that wait for their data. */
    var mshr: seq<nat>

    ghost var touches: seq<nat>
    ghost var unsaved: set<nat>

    /** The blocks that were written and whose newest data memory has not taken. */
    ghost var untaken: set<nat>

    ghost predicate Valid()
      reads this, cache`sets
    {
      && cache.Shape() && cache.higher == [] && cache.level == 0 && |mshr| <= mshrMax
      && Sound(cache.g, cache.sets, mshr, touches, unsaved)
    }

    constructor (g: Geometry, mshrMax: nat, system: CacheSystem)
      ensures Valid() && mshr == [] && cache.sets == map[] && unsaved == {} && untaken == {} && cache.system == system
      ensures cache.g == g && this.mshrMax == mshrMax && fresh(cache)
    {
      cache := new Cache(g, 0, [], system);
      this.mshrMax := mshrMax;
      mshr, touches, unsaved, untaken := [], [], {}, {};
    }

    /** Every block that was written and whose newest data memory has not taken is here and dirty, or a write of it
        waits. */
    ghost predicate NothingIsLost()
      reads this`untaken, this`unsaved, cache.system`waitList
    {
      NoneIsLost(cache.g, untaken, unsaved, cache.system.waitList)
    }

    lemma Alone()
      requires Valid()
      ensures cache.Repr == {cache} && cache.Tidy() && cache.Inclusive() && cache.Sits(cache, null)
      ensures forall a: nat :: cache.Unlocked(a) == !Locked(cache.g, cache.sets, a)
      ensures forall a: nat :: cache.AnyDirty(a) == Dirty(cache.g, cache.sets, a)
    {
      forall n | n in cache.Repr
        ensures n == cache
      {
      }
      assert cache in cache.Repr;
    }

    predicate IsHit(addr: nat)
      reads this, cache`sets
    {
      Has(cache.g, cache.sets, addr) && !Copy(cache.g, cache.sets, addr).lock
    }

    /** A hit: the line is the most recently used of its set, and the hit will be reported. */
    twostate predicate HitTaken(addr: nat, write: bool, core: int)
      requires old(Has(cache.g, cache.sets, addr))
      reads this`mshr, this`touches, this`unsaved, cache`sets, cache.system
    {
      var g, system, was := cache.g, cache.system, old(Copy(cache.g, cache.sets, addr));
      && mshr == old(mshr) && touches == old(touches) + [addr]
      && unsaved == WithBlock(old(unsaved), Block(g, addr), write)
      && Renewed(g, old(cache.sets), cache.sets, addr, Line(addr, Tag(g, addr), false, was.dirty || write, core))
      && system.hitList == old(system.hitList) +
           [Job(system.clk + LATENCY[0], if write then Write else Read, addr, core)]
      && system.waitList == old(system.waitList)
    }

    method Hit(addr: nat, write: bool, core: int)
      requires Valid() && IsHit(addr)
      modifies this`touches, this`unsaved, cache`sets, cache.system`hitList
      ensures Valid() && HitTaken(addr, write, core) && Has(cache.g, cache.sets, addr)
    {
      hide Sound, WithBlock, Block, Tag, Index, Cache.Shape;
      var g, index, tag := cache.g, Index(cache.g, addr), Tag(cache.g, addr);
      var lines := cache.sets[index];
      var k := Find(lines, tag);
      var line := Line(addr, tag, false, lines[k].dirty || write, core);
      SoundIsPlaced();
      ghost var was := cache.sets;
      cache.sets := cache.sets[index := lines[..k] + lines[k + 1..] + [line]];
      assert Renewed(g, was, cache.sets, addr, line);
      AfterHit(g, was, cache.sets, mshr, touches, unsaved, addr, write, line);
      RenewedPlaced(g, was, cache.sets, addr, line);
      touches, unsaved := touches + [addr], WithBlock(unsaved, Block(g, addr), write);
      var system := cache.system;
      system.hitList := system.hitList + [Job(system.clk + LATENCY[0], if write then Write else Read, addr, core)];
    }

    /** The entry that waits for the block of `addr`, or their number. */
    method HitMshr(addr: nat) returns (k: nat)
      ensures k <= |mshr| && (k < |mshr| ==> Block(cache.g, mshr[k]) == Block(cache.g, addr))
      ensures k < |mshr| <==> Waiting(cache.g, mshr, addr)
    {
      k := 0;
      while k < |mshr|
        invariant k <= |mshr| && forall j :: 0 <= j < k ==> Block(cache.g, mshr[j]) != Block(cache.g, addr)
      {
        if Block(cache.g, mshr[k]) == Block(cache.g, addr) {
          return;
        }
        k := k + 1;
      }
    }

    /** The line that entry `k` points to is still where it was. */
    lemma EntryHasLine(k: nat)
      requires Valid() && k < |mshr|
      ensures Locked(cache.g, cache.sets, mshr[k])
    {
      assert Waiting(cache.g, mshr, mshr[k]);
    }

    /** A request for a block that is on its way: a write makes its line dirty, and nothing else changes. */
    twostate predicate Joined(addr: nat, write: bool)
      reads this`mshr, this`touches, this`unsaved, cache`sets, cache.system
    {
      && mshr == old(mshr) && touches == old(touches)
      && unsaved == WithBlock(old(unsaved), Block(cache.g, addr), write)
      && cache.system.hitList == old(cache.system.hitList) && cache.system.waitList == old(cache.system.waitList)
      && old(Has(cache.g, cache.sets, addr))
      && var was := old(Copy(cache.g, cache.sets, addr));
         Changed(cache.g, old(cache.sets), cache.sets, addr, was.(dirty := write || was.dirty))
    }

    method JoinMiss(k: nat, addr: nat, write: bool)
      requires Valid() && k < |mshr| && Block(cache.g, mshr[k]) == Block(cache.g, addr)
      modifies this`unsaved, cache`sets
      ensures Valid() && Joined(addr, write) && Has(cache.g, cache.sets, addr)
    {
      hide Sound, Waiting, WithBlock, Block, Tag, Index, Cache.Shape;
      var g, index := cache.g, Index(cache.g, addr);
      EntryHasLine(k);
      SameBlock(g, cache.sets, mshr[k], addr);
      var lines := cache.sets[index];
      var at := Find(lines, Tag(g, addr));
      var line := lines[at].(dirty := write || lines[at].dirty);
      SoundIsPlaced();
      ghost var was := cache.sets;
      cache.sets := cache.sets[index := lines[at := line]];
      assert Changed(g, was, cache.sets, addr, line);
      ChangedHas(g, was, cache.sets, addr, line);
      AfterMark(g, was, cache.sets, mshr, touches, unsaved, addr, write, line);
      unsaved := WithBlock(unsaved, Block(g, addr), write);
    }

    /** Whether the set has neither room nor a line that could be evicted. */
    method AllLocked(lines: seq<Line>) returns (locked: bool)
      ensures locked == (cache.g.assoc <= |lines| && FirstUnlocked(lines) == |lines|)
    {
      if |lines| < cache.g.assoc {
        return false;
      }
      for k := 0 to |lines|
        invariant forall j :: 0 <= j < k ==> lines[j].lock
      {
        if !lines[k].lock {
          return false;
        }
      }
      locked := true;
    }

    /** The least recently used unlocked line goes; if it is dirty, a write to memory takes its place. */
    method EvictVictim(index: int)
      requires Valid() && FirstUnlocked(At(cache.sets, index)) < |At(cache.sets, index)|
      modifies this`unsaved, cache.Repr`sets, cache.system`waitList
      ensures Valid()
      ensures var victim := old(At(cache.sets, index)[FirstUnlocked(At(cache.sets, index))]);
              && Dropped(cache.g, old(cache.sets), cache.sets, victim.addr)
              && |At(cache.sets, index)| == |old(At(cache.sets, index))| - 1
              && unsaved == old(unsaved) - {Block(cache.g, victim.addr)}
              && cache.system.waitList == old(cache.system.waitList) + WriteBack(victim, cache.system.clk)
      ensures StillSaved(cache.g, old(unsaved), unsaved, cache.system.waitList)
    {
      hide Sound, Dropped, Cache.Tidy, Cache.Inclusive, Cache.Unlocked, Cache.AnyDirty, Cache.Sits, Cache.Shape,
           Cache.SentToMemory;
      var g := cache.g;
      Alone();
      SoundIsPlaced();
      ghost var was := cache.sets;
      var lines := At(cache.sets, index);
      cache.EveryLineIsACopy(index);
      var k := cache.FindVictim(lines);
      assert k == FirstUnlocked(lines);
      VictimIsPlaced(index, k);
      if Block(g, lines[k].addr) in unsaved {
        WrittenIsHere(lines[k].addr);
      }
      cache.Evict(null, index, k, lines[k].addr, cache);
      assert Dropped(g, was, cache.sets, lines[k].addr);
      DropShortens(g, was, cache.sets, index, k);
      AfterEviction(g, was, cache.sets, mshr, touches, unsaved, lines[k].addr);
      SentIsSaved(old(cache.system.waitList), lines[k], unsaved);
      unsaved := unsaved - {Block(g, lines[k].addr)};
    }

    lemma SentIsSaved(jobs: seq<Job>, victim: Line, was: set<nat>)
      requires cache.SentToMemory(jobs, victim.addr, victim.core, victim.dirty, 0)
      requires Block(cache.g, victim.addr) in was ==> victim.dirty
      requires cache.higher == [] && cache.level == 0
      ensures cache.system.waitList == jobs + WriteBack(victim, cache.system.clk)
      ensures StillSaved(cache.g, was, was - {Block(cache.g, victim.addr)}, cache.system.waitList)
    {
      if victim.dirty {
        assert cache.system.waitList[|jobs|].addr == victim.addr;
      }
    }

    lemma SoundIsPlaced()
      requires Valid()
      ensures WellPlaced(cache.g, cache.sets)
    {
    }

    lemma VictimIsPlaced(index: int, k: nat)
      requires WellPlaced(cache.g, cache.sets) && k < |At(cache.sets, index)|
      ensures var line := At(cache.sets, index)[k];
              && Index(cache.g, line.addr) == index && Find(At(cache.sets, index), Tag(cache.g, line.addr)) == k
              && (Dirty(cache.g, cache.sets, line.addr) <==> line.dirty)
    {
      var line := At(cache.sets, index)[k];
      assert Placed(cache.g, index, line);
      FindIs(At(cache.sets, index), line.tag, k);
    }

    /** A miss that nothing waits for: the block gets a line, a request to memory, and an entry. */
    method NewMiss(addr: nat, write: bool, core: int)
      requires Valid() && !Has(cache.g, cache.sets, addr) && |mshr| < mshrMax
      requires |SetFor(cache.g, cache.sets, addr)| < cache.g.assoc
      modifies this`mshr, this`touches, this`unsaved, cache`sets, cache.system`waitList
      ensures Valid() && Has(cache.g, cache.sets, addr)
      ensures mshr == old(mshr) + [addr] && touches == old(touches) + [addr]
      ensures unsaved == WithBlock(old(unsaved), Block(cache.g, addr), write)
      ensures Renewed(cache.g, old(cache.sets), cache.sets, addr, Line(addr, Tag(cache.g, addr), true, write, core))
      ensures cache.system.waitList ==
                old(cache.system.waitList) + [Job(cache.system.clk + LATENCY[0], Read, addr, core)]
    {
      hide Sound;
      var g, index := cache.g, Index(cache.g, addr);
      var line := Line(addr, Tag(g, addr), true, write, core);
      SoundIsPlaced();
      ghost var was := cache.sets;
      cache.sets := cache.sets[index := At(cache.sets, index) + [line]];
      assert Renewed(g, was, cache.sets, addr, line);
      RenewedPlaced(g, was, cache.sets, addr, line);
      AfterMiss(g, was, cache.sets, mshr, touches, unsaved, addr, write, line);
      mshr, touches, unsaved := mshr + [addr], touches + [addr], WithBlock(unsaved, Block(g, addr), write);
      var system := cache.system;
      system.waitList := system.waitList + [Job(system.clk + LATENCY[0], Read, addr, core)];
    }

    /** A new miss: the block has a locked line, an entry, and a request to memory.  If the set was full, its
        least recently used unlocked line made room, and if that was dirty it is on its way to memory. */
    twostate predicate Missed(addr: nat, write: bool, core: int)
      reads this`mshr, this`touches, this`unsaved, cache`sets, cache.system
    {
      var g, system, lines := cache.g, cache.system, old(SetFor(cache.g, cache.sets, addr));
      var line := Line(addr, Tag(g, addr), true, write, core);
      var read := [Job(system.clk + LATENCY[0], Read, addr, core)];
      && mshr == old(mshr) + [addr] && touches == old(touches) + [addr] && system.hitList == old(system.hitList)
      && if |lines| < g.assoc then
           && Renewed(g, old(cache.sets), cache.sets, addr, line) && system.waitList == old(system.waitList) + read
           && unsaved == WithBlock(old(unsaved), Block(g, addr), write)
         else
           && FirstUnlocked(lines) < |lines|
           && var victim := lines[FirstUnlocked(lines)];
              && Replaced(g, old(cache.sets), cache.sets, victim.addr, line)
              && system.waitList == old(system.waitList) + WriteBack(victim, system.clk) + read
              && unsaved == WithBlock(old(unsaved) - {Block(g, victim.addr)}, Block(g, addr), write)
    }

    twostate predicate Unchanged()
      reads this`mshr, this`touches, this`unsaved, cache`sets, cache.system
    {
      && cache.sets == old(cache.sets) && mshr == old(mshr) && touches == old(touches) && unsaved == old(unsaved)
      && cache.system.waitList == old(cache.system.waitList) && cache.system.hitList == old(cache.system.hitList)
    }

    /** A request hits, or joins a miss that waits for its block, or is refused for want of an entry or a line,
        or is a new miss. */
    twostate predicate Answered(ok: bool, addr: nat, write: bool, core: int)
      reads this`mshr, this`touches, this`unsaved, cache`sets, cache.system
    {
      if old(IsHit(addr)) then ok && HitTaken(addr, write, core)
      else if old(Waiting(cache.g, mshr, addr)) then ok && Joined(addr, write)
      else if old(|mshr| == mshrMax || IsFull(SetFor(cache.g, cache.sets, addr))) then !ok && Unchanged()
      else ok && Missed(addr, write, core)
    }

    /** There are never more lines than the sets have room for. */
    lemma LinesFit()
      requires Valid()
      ensures Lines(cache.sets, cache.g.setCount) <= cache.g.assoc * cache.g.setCount
      ensures forall i :: At(cache.sets, i) != [] ==> 0 <= i < cache.g.setCount
    {
      AllLinesFit(cache.g, cache.sets, cache.g.setCount);
    }

    /** What was written and is no longer here is on its way to memory. */
    method Send(addr: nat, write: bool, core: int) returns (ok: bool)
      requires Valid()
      modifies this, cache.Repr`sets, cache.system`waitList, cache.system`hitList
      ensures Valid()
      ensures Answered(ok, addr, write, core)
      ensures ok ==> Has(cache.g, cache.sets, addr) && (write ==> Block(cache.g, addr) in unsaved)
      ensures StillSaved(cache.g, old(unsaved), unsaved, cache.system.waitList)
      ensures old(cache.system.waitList) <= cache.system.waitList
      ensures untaken == WithBlock(old(untaken), Block(cache.g, addr), ok && write)
      ensures old(NothingIsLost()) ==> NothingIsLost()
      ensures OnlyRivalsGone(cache.g, old(cache.sets), cache.sets, addr)
      ensures Lines(cache.sets, cache.g.setCount) <= cache.g.assoc * cache.g.setCount
    {
      hide Sound, Answered, StillSaved, NoneIsLost, Has, Block, OnlyRivalsGone;
      ok := Answer(addr, write, core);
      LinesFit();
      ghost var was := untaken;
      untaken := WithBlock(untaken, Block(cache.g, addr), ok && write);
      if old(NothingIsLost()) {
        NoneIsLostLater(cache.g, was, old(unsaved), unsaved, old(cache.system.waitList), cache.system.waitList,
                        Block(cache.g, addr), ok && write);
      }
    }

    method Answer(addr: nat, write: bool, core: int) returns (ok: bool)
      requires Valid()
      modifies this, cache.Repr`sets, cache.system`waitList, cache.system`hitList
      ensures Valid() && untaken == old(untaken)
      ensures Answered(ok, addr, write, core)
      ensures ok ==> Has(cache.g, cache.sets, addr) && (write ==> Block(cache.g, addr) in unsaved)
      ensures StillSaved(cache.g, old(unsaved), unsaved, cache.system.waitList)
      ensures old(cache.system.waitList) <= cache.system.waitList
      ensures OnlyRivalsGone(cache.g, old(cache.sets), cache.sets, addr)
    {
      hide Sound, ByUse, Dropped, Renewed, Changed, Has, Copy, Waiting, Replaced, OnlyRivalsGone;
      Alone();
      SoundIsPlaced();
      ghost var was := cache.sets;
      NoneGone(cache.g, was, addr);
      if IsHit(addr) {
        ghost var line := Line(addr, Tag(cache.g, addr), false, Copy(cache.g, was, addr).dirty || write, core);
        Hit(addr, write, core);
        RenewingKeepsAll(cache.g, was, cache.sets, addr, line);
        return true;
      }
      var k := HitMshr(addr);
      if k < |mshr| {
        JoinMiss(k, addr, write);
        MarkingKeepsAll(cache.g, was, cache.sets, addr,
                        Copy(cache.g, was, addr).(dirty := write || Copy(cache.g, was, addr).dirty));
        return true;
      }
      MissIsAbsent(addr);
      if |mshr| == mshrMax {
        return false;
      }
      var locked := AllLocked(At(cache.sets, Index(cache.g, addr)));
      if locked {
        return false;
      }
      Miss(addr, write, core);
      ghost var lines := SetFor(cache.g, was, addr);
      ghost var line := Line(addr, Tag(cache.g, addr), true, write, core);
      if |lines| < cache.g.assoc {
        RenewingKeepsAll(cache.g, was, cache.sets, addr, line);
      } else {
        ReplacingTakesRival(cache.g, was, cache.sets, addr, FirstUnlocked(lines), line);
      }
      ok := true;
    }

    method Miss(addr: nat, write: bool, core: int)
      requires Valid() && !Has(cache.g, cache.sets, addr)
      requires |mshr| < mshrMax && !IsFull(SetFor(cache.g, cache.sets, addr))
      modifies this`mshr, this`touches, this`unsaved, cache.Repr`sets, cache.system`waitList
      ensures Valid() && Missed(addr, write, core) && Has(cache.g, cache.sets, addr)
      ensures StillSaved(cache.g, old(unsaved), unsaved, cache.system.waitList)
    {
      hide Sound, ByUse, Dropped, Renewed, Has, Copy, Waiting, StillSaved, Cache.SentToMemory;
      Alone();
      SoundIsPlaced();
      var index := Index(cache.g, addr);
      assert StillSaved(cache.g, unsaved, unsaved, cache.system.waitList) by {
        NothingLost(cache.g, unsaved, cache.system.waitList);
      }
      if cache.g.assoc <= |At(cache.sets, index)| {
        ghost var full := cache.sets;
        FullIsFull(index);
        EvictVictim(index);
        DroppedHas(cache.g, full, cache.sets, At(full, index)[FirstUnlocked(At(full, index))].addr, addr);
      }
      ghost var mid, jobs, unevicted := unsaved, cache.system.waitList, cache.sets;
      NewMiss(addr, write, core);
      SavedLonger(cache.g, old(unsaved), mid, unsaved, jobs, cache.system.waitList);
      assert Renewed(cache.g, unevicted, cache.sets, addr, Line(addr, Tag(cache.g, addr), true, write, core));
    }

    lemma FullIsFull(index: int)
      requires Valid()
      ensures |At(cache.sets, index)| <= cache.g.assoc
    {
    }

    /** A written block that was not written back is here and dirty. */
    lemma WrittenIsHere(addr: nat)
      requires Valid() && Block(cache.g, addr) in unsaved
      ensures Dirty(cache.g, cache.sets, addr)
    {
    }

    /** A block that misses, and that no entry waits for, is not here: so it is never allocated twice. */
    lemma MissIsAbsent(addr: nat)
      requires Valid() && !IsHit(addr) && !Waiting(cache.g, mshr, addr)
      ensures !Has(cache.g, cache.sets, addr) && |SetFor(cache.g, cache.sets, addr)| <= cache.g.assoc
      ensures WellPlaced(cache.g, cache.sets)
    {
    }

    /** The data of a block has come: its line is unlocked and its entry goes. */
    method Callback(addr: nat)
      requires Valid()
      modifies this`mshr, cache`sets
      ensures Valid() && !Waiting(cache.g, mshr, addr)
      ensures old(NothingIsLost()) ==> NothingIsLost()
      ensures if !old(Waiting(cache.g, mshr, addr)) then cache.sets == old(cache.sets) && mshr == old(mshr)
              else old(Has(cache.g, cache.sets, addr))
                   && Changed(cache.g, old(cache.sets), cache.sets, addr,
                              old(Copy(cache.g, cache.sets, addr)).(lock := false))
    {
      hide Sound, Waiting, Has, Copy;
      var k := HitMshr(addr);
      if k < |mshr| {
        var g, index := cache.g, Index(cache.g, mshr[k]);
        EntryHasLine(k);
        SameBlock(g, cache.sets, mshr[k], addr);
        IndexAndTag(g, mshr[k], addr);
        EntryGoes(mshr, k);
        ghost var was := cache.sets;
        ghost var line := Copy(g, was, mshr[k]).(lock := false);
        ghost var entries := mshr;
        Unlock(index, Tag(g, mshr[k]), mshr[k]);
        AfterArrival(g, was, cache.sets, mshr, touches, unsaved, k, line);
        mshr := mshr[..k] + mshr[k + 1..];
        WaitingLess(g, entries, k, addr);
      }
    }

    /** One cycle of the system: memory takes some of the requests that are due.  A block's newest data has reached
        memory when the newest write of it was taken, unless it was written again in the meantime. */
    method SystemTick(taken: seq<bool>) returns (done: seq<Job>)
      requires Valid() && |cache.system.waitList| <= |taken|
      modifies this`untaken, cache.system
      ensures Valid() && cache.system.clk == old(cache.system.clk) + 1
      ensures cache.system.waitList == Kept(old(cache.system.waitList), cache.system.clk, taken)
      ensures cache.system.hitList == NotDue(old(cache.system.hitList), cache.system.clk)
      ensures done == Due(old(cache.system.hitList), cache.system.clk)
      ensures forall b :: b in untaken <==>
                && b in old(untaken)
                && (b in unsaved || !NewestIsTaken(cache.g, old(cache.system.waitList), cache.system.clk, taken, b))
      ensures old(NothingIsLost()) ==> NothingIsLost()
    {
      hide Sound, NewestIsTaken, Kept, WriteWaits;
      ghost var jobs := cache.system.waitList;
      done := cache.system.Tick(taken);
      ghost var clk := cache.system.clk;
      untaken := set b | b in untaken && (b in unsaved || !NewestIsTaken(cache.g, jobs, clk, taken, b));
      if old(NothingIsLost()) {
        forall b | b in untaken
          ensures b in unsaved || WriteWaits(cache.g, cache.system.waitList, b)
        {
          if b !in unsaved {
            StillWaits(cache.g, jobs, clk, taken, b);
          }
        }
      }
    }

    /** So the newest data of a block that was written and not yet taken by memory is in a dirty line, or in a write
        that waits. */
    lemma NewestDataIsSafe(addr: nat)
      requires Valid() && NothingIsLost() && Block(cache.g, addr) in untaken
      ensures Dirty(cache.g, cache.sets, addr) || WriteWaits(cache.g, cache.system.waitList, Block(cache.g, addr))
    {
      if Block(cache.g, addr) in unsaved {
        WrittenIsHere(addr);
      }
    }

    lemma EntryGoes(entries: seq<nat>, k: nat)
      requires Valid() && entries == mshr && k < |mshr|
      ensures OnePerBlock(cache.g, mshr)
    {
    }

    method Unlock(index: int, tag: nat, ghost addr: nat)
      requires Has(cache.g, cache.sets, addr) && index == Index(cache.g, addr) && tag == Tag(cache.g, addr)
      modifies cache`sets
      ensures Changed(cache.g, old(cache.sets), cache.sets, addr, old(Copy(cache.g, cache.sets, addr)).(lock := false))
    {
      var lines := cache.sets[index];
      var at := Find(lines, tag);
      cache.sets := cache.sets[index := lines[at := lines[at].(lock := false)]];
    }

    predicate IsFull(lines: seq<Line>) { cache.g.assoc <= |lines| && FirstUnlocked(lines) == |lines| }
  }

  lemma DropShortens(g: Geometry, was: Sets, sets: Sets, index: int, k: nat)
    requires k < |At(was, index)| && Dropped(g, was, sets, At(was, index)[k].addr)
    requires Index(g, At(was, index)[k].addr) == index && Find(At(was, index), Tag(g, At(was, index)[k].addr)) == k
    ensures |At(sets, index)| == |At(was, index)| - 1
  {
  }
}
