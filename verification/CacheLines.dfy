/** Cache lines and the sets that hold them. */
module CacheLines {
  import Bits

  /** While `lock` is on, the data has not arrived. */
  datatype Line = Line(addr: nat, tag: nat, lock: bool, dirty: bool, core: int)

  datatype Shape = Shape(blockSize: nat, setCount: nat, assoc: nat)

  type Geometry = g: Shape | 0 < g.blockSize && 0 < g.setCount && 0 < g.assoc witness Shape(1, 1, 1)

  datatype Kind = Read | Write

  /** A request on its way to memory, from clock `due` on. */
  datatype Job = Job(due: int, kind: Kind, addr: nat, core: int)

  /** The sets by index; a set that was never touched is absent, and counts as empty. */
  type Sets = map<int, seq<Line>>

  function Block(g: Geometry, addr: nat): nat { addr / g.blockSize }

  function Index(g: Geometry, addr: nat): nat { Block(g, addr) % g.setCount }

  function Tag(g: Geometry, addr: nat): nat { Block(g, addr) / g.setCount }

  /** The index and the tag together say which block it is. */
  lemma IndexAndTag(g: Geometry, a: nat, b: nat)
    ensures Block(g, a) == Block(g, b) <==> Index(g, a) == Index(g, b) && Tag(g, a) == Tag(g, b)
  {
  }

  /** A block is a stretch of `blockSize` addresses. */
  lemma BlockIsStretch(g: Geometry, addr: nat)
    ensures g.blockSize * Block(g, addr) <= addr < g.blockSize * (Block(g, addr) + 1)
  {
    Bits.DivNonNegative(addr, g.blockSize);
    assert g.blockSize * (addr / g.blockSize + 1) == g.blockSize * (addr / g.blockSize) + g.blockSize;
  }

  /** Two blocks compete for a set: their numbers differ by a multiple of the number of sets. */
  predicate Compete(g: Geometry, a: nat, b: nat) { (Block(g, a) - Block(g, b)) % g.setCount == 0 }

  /** There are `setCount` sets, and consecutive blocks go round them. */
  lemma SetsGoRound(g: Geometry, a: nat, b: nat)
    ensures Index(g, a) < g.setCount
    ensures Index(g, a) == Index(g, b) <==> Compete(g, a, b)
    ensures Block(g, b) == Block(g, a) + 1 ==>
              Index(g, b) == if Index(g, a) + 1 == g.setCount then 0 else Index(g, a) + 1
  {
    SameRest(g.setCount, Block(g, a), Block(g, b));
    NextRest(g.setCount, Block(g, a));
    hide Block;
  }

  lemma SameRest(n: int, x: int, y: int)
    requires 0 < n
    ensures x % n == y % n <==> (x - y) % n == 0
  {
    var k, d := x / n - y / n, x % n - y % n;
    assert x - y == n * k + d;
    Multiple(n, k, d);
  }

  lemma NextRest(n: int, x: int)
    requires 0 < n
    ensures (x + 1) % n == if x % n + 1 == n then 0 else x % n + 1
  {
    var k, d := x / n, x % n;
    assert x == n * k + d;
    if d + 1 == n {
      OneRound(n, k);
      RestIs(n, k + 1, 0);
    } else {
      RestIs(n, k, d + 1);
    }
  }

  lemma OneRound(n: int, k: int)
    ensures n * (k + 1) == n * k + n
  {
  }

  lemma Multiple(n: int, k: int, d: int)
    requires 0 < n && -n < d < n
    ensures (n * k + d) % n == 0 <==> d == 0
  {
    if d >= 0 {
      RestIs(n, k, d);
    } else {
      RestIs(n, k - 1, n + d);
      assert n * (k - 1) + (n + d) == n * k + d;
    }
  }

  lemma RestIs(n: int, k: int, d: int)
    requires 0 <= d < n
    ensures (n * k + d) % n == d
  {
    var q, r := (n * k + d) / n, (n * k + d) % n;
    assert n * (k - q) == r - d;
    if k != q {
      TooFar(n, k - q);
    }
  }

  lemma TooFar(n: int, k: int)
    requires 0 < n && k != 0
    ensures n * k <= -n || n <= n * k
  {
  }

  /** Blocks that are fewer than `setCount` apart do not share a set. */
  lemma NeighboursAreApart(g: Geometry, a: nat, b: nat)
    requires Block(g, a) < Block(g, b) < Block(g, a) + g.setCount
    ensures Index(g, a) != Index(g, b)
  {
    SetsGoRound(g, a, b);
    var d := Block(g, b) - Block(g, a);
    Multiple(g.setCount, -1, g.setCount - d);
    assert g.setCount * -1 + (g.setCount - d) == -d;
  }

  /** For sizes that are powers of two, shifting and masking, as the code does, gives the same. */
  lemma SliceIsIndexAndTag(g: Geometry, addr: nat)
    requires Bits.IsPower(g.blockSize) && Bits.IsPower(g.setCount)
    ensures var offset := Bits.Log2(g.blockSize);
            && Bits.And(Bits.Shr(addr, offset), g.setCount - 1) == Index(g, addr)
            && Bits.Shr(addr, Bits.Log2(g.setCount) + offset) == Tag(g, addr)
  {
    hide Bits.Log2, Bits.Pow2;
    var offset, bits := Bits.Log2(g.blockSize), Bits.Log2(g.setCount);
    Bits.ShrIsDivision(addr, offset);
    Bits.MaskIsRemainder(Bits.Shr(addr, offset), bits);
    Bits.ShrTwice(addr, offset, bits);
    Bits.ShrIsDivision(Bits.Shr(addr, offset), bits);
  }

  function At(sets: Sets, i: int): seq<Line> { if i in sets then sets[i] else [] }

  /** The set that an address belongs to. */
  function SetFor(g: Geometry, sets: Sets, addr: nat): seq<Line> { At(sets, Index(g, addr)) }

  /** The position of the line with this tag, or the length of the set. */
  function Find(lines: seq<Line>, tag: nat): (k: nat)
    ensures k <= |lines| && (forall j :: 0 <= j < k ==> lines[j].tag != tag) && (k < |lines| ==> lines[k].tag == tag)
  {
    if lines == [] then 0 else if lines[0].tag == tag then 0 else 1 + Find(lines[1..], tag)
  }

  function Drop(lines: seq<Line>, tag: nat): seq<Line> {
    var k := Find(lines, tag);
    if k == |lines| then lines else lines[..k] + lines[k + 1..]
  }

  predicate Distinct(lines: seq<Line>) {
    forall j, k :: 0 <= j < k < |lines| ==> lines[j].tag != lines[k].tag
  }

  predicate Placed(g: Geometry, i: int, line: Line) { Index(g, line.addr) == i && line.tag == Tag(g, line.addr) }

  /** Every line is in the set of its address, and no set holds a block twice. */
  ghost predicate WellPlaced(g: Geometry, sets: Sets) {
    forall i :: Distinct(At(sets, i)) && forall j :: 0 <= j < |At(sets, i)| ==> Placed(g, i, At(sets, i)[j])
  }

  predicate Has(g: Geometry, sets: Sets, addr: nat) {
    Find(SetFor(g, sets, addr), Tag(g, addr)) < |SetFor(g, sets, addr)|
  }

  function Copy(g: Geometry, sets: Sets, addr: nat): Line
    requires Has(g, sets, addr)
  {
    SetFor(g, sets, addr)[Find(SetFor(g, sets, addr), Tag(g, addr))]
  }

  predicate Locked(g: Geometry, sets: Sets, addr: nat) { Has(g, sets, addr) && Copy(g, sets, addr).lock }

  predicate Dirty(g: Geometry, sets: Sets, addr: nat) { Has(g, sets, addr) && Copy(g, sets, addr).dirty }

  /** The lines of the first `n` sets. */
  function Lines(sets: Sets, n: nat): nat { if n == 0 then 0 else Lines(sets, n - 1) + |At(sets, n - 1)| }

  /** All the lines are in the sets 0 to `setCount`, so a cache whose sets keep to their size holds no more lines than
      `assoc` times that. */
  lemma AllLinesFit(g: Geometry, sets: Sets, n: nat)
    requires WellPlaced(g, sets) && forall i :: |At(sets, i)| <= g.assoc
    ensures Lines(sets, n) <= g.assoc * n
    ensures forall i :: At(sets, i) != [] ==> 0 <= i < g.setCount
  {
    forall i | At(sets, i) != []
      ensures 0 <= i < g.setCount
    {
      assert Placed(g, i, At(sets, i)[0]);
      SetsGoRound(g, At(sets, i)[0].addr, 0);
    }
    if n > 0 {
      AllLinesFit(g, sets, n - 1);
      assert g.assoc * n == g.assoc * (n - 1) + g.assoc;
    }
  }

  /** The lines of the set of an address are those of blocks that compete with it. */
  lemma LinesCompete(g: Geometry, sets: Sets, addr: nat, k: nat)
    requires WellPlaced(g, sets) && k < |SetFor(g, sets, addr)|
    ensures Compete(g, SetFor(g, sets, addr)[k].addr, addr)
  {
    assert Placed(g, Index(g, addr), SetFor(g, sets, addr)[k]);
    SetsGoRound(g, SetFor(g, sets, addr)[k].addr, addr);
  }

  /** The block of `addr` is gone, and nothing else has changed. */
  ghost predicate Dropped(g: Geometry, was: Sets, sets: Sets, addr: nat) {
    forall i :: At(sets, i) == if i == Index(g, addr) then Drop(At(was, i), Tag(g, addr)) else At(was, i)
  }

  /** The block of `addr` is now the most recently used of its set, as `line`; nothing else has changed. */
  ghost predicate Renewed(g: Geometry, was: Sets, sets: Sets, addr: nat, line: Line) {
    forall i :: At(sets, i) == if i == Index(g, addr) then Drop(At(was, i), Tag(g, addr)) + [line] else At(was, i)
  }

  lemma FindIs(lines: seq<Line>, tag: nat, k: nat)
    requires k < |lines| && Distinct(lines) && lines[k].tag == tag
    ensures Find(lines, tag) == k
  {
  }

  lemma DropDistinct(lines: seq<Line>, tag: nat)
    requires Distinct(lines)
    ensures Distinct(Drop(lines, tag))
    ensures forall line :: line in Drop(lines, tag) <==> line in lines && line.tag != tag
  {
    var k, rest := Find(lines, tag), Drop(lines, tag);
    if k < |lines| {
      assert forall j :: 0 <= j < |rest| ==> rest[j] == lines[if j < k then j else j + 1];
      forall line | line in lines && line.tag != tag
        ensures line in rest
      {
        var j :| 0 <= j < |lines| && lines[j] == line;
        assert rest[if j < k then j else j - 1] == line;
      }
    }
  }

  /** Which blocks are left after one was dropped, and that their copies are as before. */
  lemma DroppedHas(g: Geometry, was: Sets, sets: Sets, addr: nat, a: nat)
    requires WellPlaced(g, was) && Dropped(g, was, sets, addr)
    ensures Has(g, sets, a) <==> Has(g, was, a) && Block(g, a) != Block(g, addr)
    ensures Has(g, sets, a) ==> Copy(g, sets, a) == Copy(g, was, a)
  {
    IndexAndTag(g, a, addr);
    var lines, tag := SetFor(g, was, a), Tag(g, a);
    if Index(g, a) == Index(g, addr) {
      DropDistinct(lines, Tag(g, addr));
      if Has(g, was, a) && tag != Tag(g, addr) {
        var line := Copy(g, was, a);
        assert line in Drop(lines, Tag(g, addr));
        var k :| 0 <= k < |Drop(lines, Tag(g, addr))| && Drop(lines, Tag(g, addr))[k] == line;
        FindIs(Drop(lines, Tag(g, addr)), tag, k);
      }
    }
  }

  lemma DroppedPlaced(g: Geometry, was: Sets, sets: Sets, addr: nat)
    requires WellPlaced(g, was) && Dropped(g, was, sets, addr)
    ensures WellPlaced(g, sets)
  {
    forall i
      ensures Distinct(At(sets, i)) && forall j :: 0 <= j < |At(sets, i)| ==> Placed(g, i, At(sets, i)[j])
    {
      assert Distinct(At(was, i));
      DropDistinct(At(was, i), Tag(g, addr));
      forall j | 0 <= j < |At(sets, i)|
        ensures Placed(g, i, At(sets, i)[j])
      {
        assert At(sets, i)[j] in At(was, i);
      }
    }
  }

  lemma DropAbsent(g: Geometry, sets: Sets, addr: nat)
    requires !Has(g, sets, addr)
    ensures Dropped(g, sets, sets, addr)
  {
  }

  lemma RenewedPlaced(g: Geometry, was: Sets, sets: Sets, addr: nat, line: Line)
    requires WellPlaced(g, was) && Renewed(g, was, sets, addr, line) && Placed(g, Index(g, addr), line)
    requires line.tag == Tag(g, addr)
    ensures WellPlaced(g, sets) && Has(g, sets, addr) && Copy(g, sets, addr) == line
  {
    hide Drop, Index, Tag;
    var i := Index(g, addr);
    var rest := Drop(At(was, i), Tag(g, addr));
    assert Distinct(At(was, i));
    DropDistinct(At(was, i), Tag(g, addr));
    LastIsDistinct(rest, line);
    forall j | 0 <= j < |rest|
      ensures Placed(g, i, rest[j])
    {
      assert rest[j] in rest;
      var k :| 0 <= k < |At(was, i)| && At(was, i)[k] == rest[j];
      assert Placed(g, i, At(was, i)[k]);
    }
    FindIs(At(sets, i), line.tag, |rest|);
    hide Placed;
  }

  lemma LastIsDistinct(rest: seq<Line>, line: Line)
    requires Distinct(rest) && forall other :: other in rest ==> other.tag != line.tag
    ensures Distinct(rest + [line])
  {
    assert forall j :: 0 <= j < |rest| ==> rest[j] in rest;
  }

  /** Renewing a block leaves the copies of the others alone. */
  lemma RenewedHas(g: Geometry, was: Sets, sets: Sets, addr: nat, line: Line, a: nat)
    requires WellPlaced(g, was) && Renewed(g, was, sets, addr, line) && Placed(g, Index(g, addr), line)
    requires line.tag == Tag(g, addr)
    ensures Has(g, sets, a) <==> Has(g, was, a) || Block(g, a) == Block(g, addr)
    ensures Has(g, sets, a) ==>
              Copy(g, sets, a) == if Block(g, a) == Block(g, addr) then line else Copy(g, was, a)
  {
    RenewedPlaced(g, was, sets, addr, line);
    IndexAndTag(g, a, addr);
    var i := Index(g, addr);
    var dropped := was[i := Drop(At(was, i), Tag(g, addr))];
    DroppedHas(g, was, dropped, addr, a);
    DroppedPlaced(g, was, dropped, addr);
    if Index(g, a) == i && Tag(g, a) != Tag(g, addr) {
      var k := Find(At(dropped, i), Tag(g, a));
      if k < |At(dropped, i)| {
        FindIs(At(sets, i), Tag(g, a), k);
      }
    }
  }

  lemma RenewedAll(g: Geometry, was: Sets, sets: Sets, addr: nat, line: Line)
    requires WellPlaced(g, was) && Renewed(g, was, sets, addr, line) && line.addr == addr && line.tag == Tag(g, addr)
    ensures WellPlaced(g, sets) && Has(g, sets, addr) && Copy(g, sets, addr) == line
    ensures forall a :: Has(g, sets, a) <==> Has(g, was, a) || Block(g, a) == Block(g, addr)
    ensures forall a :: Has(g, sets, a) ==>
              Copy(g, sets, a) == if Block(g, a) == Block(g, addr) then line else Copy(g, was, a)
  {
    hide WellPlaced, Has, Copy, Index, Tag, Renewed;
    assert Placed(g, Index(g, addr), line);
    RenewedPlaced(g, was, sets, addr, line);
    forall a
      ensures Has(g, sets, a) <==> Has(g, was, a) || Block(g, a) == Block(g, addr)
      ensures Has(g, sets, a) ==>
                Copy(g, sets, a) == if Block(g, a) == Block(g, addr) then line else Copy(g, was, a)
    {
      RenewedHas(g, was, sets, addr, line, a);
    }
  }

  /** A block that was absent joins its set as the most recently used. */
  lemma PushedHas(g: Geometry, was: Sets, addr: nat, line: Line)
    requires WellPlaced(g, was) && !Has(g, was, addr) && line.addr == addr && line.tag == Tag(g, addr)
    ensures var sets := was[Index(g, addr) := SetFor(g, was, addr) + [line]];
            && WellPlaced(g, sets) && Has(g, sets, addr) && Copy(g, sets, addr) == line
            && forall a :: Has(g, sets, a) <==> Has(g, was, a) || Block(g, a) == Block(g, addr)
  {
    var sets := was[Index(g, addr) := SetFor(g, was, addr) + [line]];
    RenewedAll(g, was, sets, addr, line);
  }
}
