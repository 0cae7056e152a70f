/** How a physical address is sliced into the coordinates of a vault: three orders of the fields, all of them
    one-to-one. */
module AddressMap {
  import opened Bits

  datatype Kind = RoCoBaVa | RoBaCoVa | RoCoBaBgVa

  /** The widths of the fields, in bits.  `tx` is the size of one transaction; the column has `block` low bits
      that come before the vault in every order. */
  datatype Geometry = Geometry(tx: nat, vault: nat, bankGroup: nat, bank: nat, row: nat, column: nat, block: nat)

  datatype Vec = Vec(vault: nat, bankGroup: nat, bank: nat, row: nat, column: nat)

  /** The bytes of one stack. */
  function Capacity(g: Geometry): nat { Pow2(g.tx + Width(g)) }

  predicate InRange(g: Geometry, v: Vec) {
    && v.vault < Pow2(g.vault) && v.bankGroup < Pow2(g.bankGroup) && v.bank < Pow2(g.bank)
    && v.row < Pow2(g.row) && v.column < Pow2(g.column)
  }

  // ---------------------------------------------------------------- slices

  /** The low `bits` of an address, and what is left of it. */
  method SliceLowerBits(addr: nat, bits: nat) returns (low: nat, rest: nat)
    ensures low < Pow2(bits) && addr == low + Pow2(bits) * rest
    ensures low == Low(addr, bits) && rest == Shr(addr, bits)
  {
    low := And(addr, Shl(1, bits) - 1);
    rest := Shr(addr, bits);
    LowAndRest(addr, bits);
  }

  /** An address cut into fields of the given widths, lowest first. */
  function Cut(addr: nat, widths: seq<nat>): (parts: seq<nat>)
    ensures |parts| == |widths|
    decreases |widths|
  {
    if widths == [] then [] else [Low(addr, widths[0])] + Cut(Shr(addr, widths[0]), widths[1..])
  }

  /** The fields put together again. */
  function Glue(parts: seq<nat>, widths: seq<nat>): nat
    requires |parts| == |widths|
  {
    if widths == [] then 0 else parts[0] + Pow2(widths[0]) * Glue(parts[1..], widths[1..])
  }

  function Total(widths: seq<nat>): nat { if widths == [] then 0 else widths[0] + Total(widths[1..]) }

  predicate Fit(parts: seq<nat>, widths: seq<nat>)
    requires |parts| == |widths|
  {
    forall i :: 0 <= i < |parts| ==> parts[i] < Pow2(widths[i])
  }

  lemma {:induction false} CutFits(addr: nat, widths: seq<nat>)
    ensures Fit(Cut(addr, widths), widths)
  {
    hide Low, Shr;
    if widths != [] {
      LowAndRest(addr, widths[0]);
      CutFits(Shr(addr, widths[0]), widths[1..]);
    }
  }

  lemma LessThanProduct(low: nat, p: nat, rest: nat, q: nat)
    requires low + p * rest < p * q
    ensures rest < q
  {
    if q < rest {
      MulStep(p, q, rest);
    }
  }

  lemma {:induction false} GlueCut(addr: nat, widths: seq<nat>)
    requires addr < Pow2(Total(widths))
    ensures Glue(Cut(addr, widths), widths) == addr
  {
    hide Low, Shr, Pow2;
    if widths == [] {
      PowZero();
    } else {
      var w, rest := widths[0], Shr(addr, widths[0]);
      PowSum(w, Total(widths[1..]));
      LowAndRest(addr, w);
      LessThanProduct(Low(addr, w), Pow2(w), rest, Pow2(Total(widths[1..])));
      GlueCut(rest, widths[1..]);
      assert Cut(addr, widths)[1..] == Cut(rest, widths[1..]);
    }
  }

  lemma PowZero()
    ensures Pow2(0) == 1
  {
  }

  lemma {:induction false} CutGlue(parts: seq<nat>, widths: seq<nat>)
    requires |parts| == |widths| && Fit(parts, widths)
    ensures Cut(Glue(parts, widths), widths) == parts && Glue(parts, widths) < Pow2(Total(widths))
  {
    hide Low, Shr, Pow2;
    if widths == [] {
      PowZero();
    } else {
      var p, rest := Pow2(widths[0]), Glue(parts[1..], widths[1..]);
      CutGlue(parts[1..], widths[1..]);
      LowAndRestAre(Glue(parts, widths), widths[0], parts[0], rest);
      PowSum(widths[0], Total(widths[1..]));
      MulStep(p, rest, Pow2(Total(widths[1..])));
      assert parts == [parts[0]] + parts[1..];
    }
  }

  // ---------------------------------------------------------------- the three orders

  /** The widths of the fields above the transaction bits, lowest first.  The column is in two parts. */
  function Widths(g: Geometry, k: Kind): seq<nat>
    requires g.block <= g.column
  {
    match k
    case RoCoBaVa => [g.block, g.vault, g.bank, g.bankGroup, g.column - g.block, g.row]
    case RoBaCoVa => [g.block, g.vault, g.column - g.block, g.bank, g.bankGroup, g.row]
    case RoCoBaBgVa => [g.block, g.vault, g.bankGroup, g.bank, g.column - g.block, g.row]
  }

  function FromParts(g: Geometry, k: Kind, parts: seq<nat>): Vec
    requires |parts| == 6
  {
    match k
    case RoCoBaVa => Vec(parts[1], parts[3], parts[2], parts[5], parts[0] + Shl(parts[4], g.block))
    case RoBaCoVa => Vec(parts[1], parts[4], parts[3], parts[5], parts[0] + Shl(parts[2], g.block))
    case RoCoBaBgVa => Vec(parts[1], parts[2], parts[3], parts[5], parts[0] + Shl(parts[4], g.block))
  }

  function ToParts(g: Geometry, k: Kind, v: Vec): seq<nat> {
    var low, high := Low(v.column, g.block), Shr(v.column, g.block);
    match k
    case RoCoBaVa => [low, v.vault, v.bank, v.bankGroup, high, v.row]
    case RoBaCoVa => [low, v.vault, high, v.bank, v.bankGroup, v.row]
    case RoCoBaBgVa => [low, v.vault, v.bankGroup, v.bank, high, v.row]
  }

  /** The bits of all the coordinates. */
  function Width(g: Geometry): nat { g.vault + g.bankGroup + g.bank + g.row + g.column }

  /** Where an address is; only its lower bits, within one stack, matter. */
  function Locate(g: Geometry, k: Kind, addr: nat): Vec
    requires g.block <= g.column
  {
    FromParts(g, k, Cut(Shr(Low(addr, g.tx + Width(g)), g.tx), Widths(g, k)))
  }

  /** The transaction-aligned address at a place. */
  function AddressOf(g: Geometry, k: Kind, v: Vec): nat
    requires g.block <= g.column
  {
    Shl(Glue(ToParts(g, k, v), Widths(g, k)), g.tx)
  }

  // ---------------------------------------------------------------- one to one

  lemma TotalIsBits(g: Geometry, k: Kind)
    requires g.block <= g.column
    ensures Total(Widths(g, k)) == Width(g)
  {
    var w := Widths(g, k);
    assert Total(w[5..]) == w[5] && Total(w[4..]) == w[4] + Total(w[5..]) && Total(w[3..]) == w[3] + Total(w[4..]);
    assert Total(w[2..]) == w[2] + Total(w[3..]) && Total(w[1..]) == w[1] + Total(w[2..]);
  }

  /** The two parts of a column make a column, and come out of it again. */
  lemma ColumnParts(g: Geometry, low: nat, high: nat)
    requires g.block <= g.column && low < Pow2(g.block) && high < Pow2(g.column - g.block)
    ensures low + Shl(high, g.block) < Pow2(g.column)
    ensures Low(low + Shl(high, g.block), g.block) == low && Shr(low + Shl(high, g.block), g.block) == high
  {
    hide Low, Shr, Pow2;
    LowAndRestAre(low + Shl(high, g.block), g.block, low, high);
    PowSum(g.block, g.column - g.block);
    MulStep(Pow2(g.block), high, Pow2(g.column - g.block));
  }

  lemma PartsOfColumn(g: Geometry, column: nat)
    requires g.block <= g.column && column < Pow2(g.column)
    ensures Low(column, g.block) < Pow2(g.block) && Shr(column, g.block) < Pow2(g.column - g.block)
    ensures Low(column, g.block) + Shl(Shr(column, g.block), g.block) == column
  {
    hide Low, Shr, Pow2;
    LowAndRest(column, g.block);
    PowSum(g.block, g.column - g.block);
    LessThanProduct(Low(column, g.block), Pow2(g.block), Shr(column, g.block), Pow2(g.column - g.block));
  }

  lemma PartsFit(g: Geometry, k: Kind, v: Vec)
    requires g.block <= g.column && InRange(g, v)
    ensures Fit(ToParts(g, k, v), Widths(g, k)) && FromParts(g, k, ToParts(g, k, v)) == v
  {
    hide Low, Shr, Pow2, Shl;
    PartsOfColumn(g, v.column);
  }

  lemma VecOfParts(g: Geometry, k: Kind, parts: seq<nat>)
    requires g.block <= g.column && |parts| == 6 && Fit(parts, Widths(g, k))
    ensures InRange(g, FromParts(g, k, parts)) && ToParts(g, k, FromParts(g, k, parts)) == parts
  {
    hide Low, Shr, Pow2, Shl;
    var w := Widths(g, k);
    assert forall i :: 0 <= i < 6 ==> parts[i] < Pow2(w[i]);
    var high := match k case RoCoBaVa => parts[4] case RoBaCoVa => parts[2] case RoCoBaBgVa => parts[4];
    ColumnParts(g, parts[0], high);
  }

  lemma InnerFits(addr: nat, tx: nat, bits: nat)
    requires addr < Pow2(tx + bits)
    ensures Low(addr, tx + bits) == addr && Shr(addr, tx) < Pow2(bits)
    ensures Low(addr, tx) == 0 ==> Shl(Shr(addr, tx), tx) == addr
  {
    hide Low, Shr, Pow2;
    LowAndRestAre(addr, tx + bits, addr, 0);
    LowAndRest(addr, tx);
    PowSum(tx, bits);
    LessThanProduct(Low(addr, tx), Pow2(tx), Shr(addr, tx), Pow2(bits));
  }

  /** Every address has a place in range; if it is aligned to a transaction and within the stack, the place
      gives the address back. */
  lemma PlaceOfAddress(g: Geometry, k: Kind, addr: nat)
    requires g.block <= g.column
    ensures InRange(g, Locate(g, k, addr))
    ensures addr < Capacity(g) && Low(addr, g.tx) == 0 ==> AddressOf(g, k, Locate(g, k, addr)) == addr
  {
    hide Low, Shr, Pow2, Shl, InRange, ToParts, FromParts;
    var w, inner := Widths(g, k), Shr(Low(addr, g.tx + Width(g)), g.tx);
    CutFits(inner, w);
    VecOfParts(g, k, Cut(inner, w));
    TotalIsBits(g, k);
    if addr < Capacity(g) && Low(addr, g.tx) == 0 {
      InnerFits(addr, g.tx, Width(g));
      GlueCut(inner, w);
    }
    hide Widths;
  }

  /** Every place in range has an aligned address within the stack, and is the place of that address. */
  lemma AddressOfPlace(g: Geometry, k: Kind, v: Vec)
    requires g.block <= g.column && InRange(g, v)
    ensures var addr := AddressOf(g, k, v);
            addr < Capacity(g) && Low(addr, g.tx) == 0 && Locate(g, k, addr) == v
  {
    hide Low, Shr, Pow2, FromParts;
    var w, parts := Widths(g, k), ToParts(g, k, v);
    assert |parts| == |w| == 6;
    hide ToParts;
    var inner := Glue(parts, w);
    PartsFit(g, k, v);
    CutGlue(parts, w);
    TotalIsBits(g, k);
    LowAndRestAre(Shl(inner, g.tx), g.tx, 0, inner);
    PowSum(g.tx, Width(g));
    MulStep(Pow2(g.tx), inner, Pow2(Width(g)));
    InnerFits(Shl(inner, g.tx), g.tx, Width(g));
    hide Widths;
  }

  // ---------------------------------------------------------------- which bits are which

  /** A number with this lowest digit, to this base. */
  function Digit(low: nat, base: nat, rest: nat): nat { low + base * rest }

  /** The aligned address, as a number whose digits are the coordinates, the lowest first; the base of a digit is the
      number of values that it has. */
  predicate Digits(g: Geometry, k: Kind, aligned: int, v: Vec) {
    var low, high := v.column % Pow2(g.block), v.column / Pow2(g.block);
    var highs := Pow2(if g.block <= g.column then g.column - g.block else 0);
    var rowAndHigh := Digit(high, highs, v.row);
    var inner :=
      match k
      case RoCoBaVa => Digit(v.bank, Pow2(g.bank), Digit(v.bankGroup, Pow2(g.bankGroup), rowAndHigh))
      case RoBaCoVa => Digit(high, highs, Digit(v.bank, Pow2(g.bank), Digit(v.bankGroup, Pow2(g.bankGroup), v.row)))
      case RoCoBaBgVa => Digit(v.bankGroup, Pow2(g.bankGroup), Digit(v.bank, Pow2(g.bank), rowAndHigh));
    aligned == Pow2(g.tx) * Digit(low, Pow2(g.block), Digit(v.vault, Pow2(g.vault), inner))
  }

  lemma GlueSix(parts: seq<nat>, w: seq<nat>)
    requires |parts| == |w| == 6
    ensures Glue(parts, w) ==
            Digit(parts[0], Pow2(w[0]), Digit(parts[1], Pow2(w[1]), Digit(parts[2], Pow2(w[2]),
            Digit(parts[3], Pow2(w[3]), Digit(parts[4], Pow2(w[4]), parts[5])))))
  {
    hide Pow2, Digit, Glue;
    GlueOne(parts, w);
    GlueOne(parts[1..], w[1..]);
    GlueOne(parts[2..], w[2..]);
    GlueOne(parts[3..], w[3..]);
    GlueOne(parts[4..], w[4..]);
    GlueLast(parts[5..], w[5..]);
    assert parts[1..][1..] == parts[2..] && parts[2..][1..] == parts[3..] && parts[3..][1..] == parts[4..];
    assert w[1..][1..] == w[2..] && w[2..][1..] == w[3..] && w[3..][1..] == w[4..];
    assert parts[4..][1..] == parts[5..] && w[4..][1..] == w[5..];
  }

  lemma GlueOne(parts: seq<nat>, w: seq<nat>)
    requires |parts| == |w| > 0
    ensures Glue(parts, w) == Digit(parts[0], Pow2(w[0]), Glue(parts[1..], w[1..]))
  {
  }

  lemma GlueLast(parts: seq<nat>, w: seq<nat>)
    requires |parts| == |w| == 1
    ensures Glue(parts, w) == parts[0]
  {
    hide Pow2;
  }

  lemma ColumnDigits(g: Geometry, low: nat, high: nat)
    requires g.block <= g.column && low < Pow2(g.block) && high < Pow2(g.column - g.block)
    ensures var column := low + Shl(high, g.block);
            column % Pow2(g.block) == low && column / Pow2(g.block) == high
  {
    var column := low + Shl(high, g.block);
    ColumnParts(g, low, high);
    MaskIsRemainder(column, g.block);
    ShrIsDivision(column, g.block);
    hide Pow2, Shr, And;
  }

  /** The digits of the address of a place. */
  lemma PartsAreDigits(g: Geometry, k: Kind, parts: seq<nat>)
    requires g.block <= g.column && |parts| == 6 && Fit(parts, Widths(g, k))
    ensures Digits(g, k, Pow2(g.tx) * Glue(parts, Widths(g, k)), FromParts(g, k, parts))
  {
    hide Pow2, Glue, Shl, Digit;
    var w := Widths(g, k);
    assert forall i :: 0 <= i < 6 ==> parts[i] < Pow2(w[i]);
    GlueSix(parts, w);
    ColumnDigits(g, parts[0], match k case RoCoBaVa => parts[4] case RoBaCoVa => parts[2] case RoCoBaBgVa => parts[4]);
  }

  /** What is within a stack, and aligned, of an address. */
  function Aligned(g: Geometry, address: int): int {
    var within: int := address % Pow2(g.tx + g.vault + g.bankGroup + g.bank + g.row + g.column);
    within - within % Pow2(g.tx)
  }

  lemma AlignedIs(g: Geometry, address: nat)
    ensures Aligned(g, address) == Pow2(g.tx) * Shr(Low(address, g.tx + Width(g)), g.tx)
    ensures Shr(Low(address, g.tx + Width(g)), g.tx) < Pow2(Width(g))
  {
    var within := Low(address, g.tx + Width(g));
    MaskIsRemainder(address, g.tx + Width(g));
    MaskIsRemainder(within, g.tx);
    LowAndRest(within, g.tx);
    LowAndRest(address, g.tx + Width(g));
    InnerFits(within, g.tx, Width(g));
    hide Pow2, Shr, And;
  }

  /** The place of an address has the address's digits. */
  lemma PlaceHasDigits(g: Geometry, k: Kind, address: nat)
    requires g.block <= g.column
    ensures Digits(g, k, Aligned(g, address), Locate(g, k, address))
  {
    hide Low, Shr, Pow2, Digits, FromParts, Glue, Aligned;
    var w, inner := Widths(g, k), Shr(Low(address, g.tx + Width(g)), g.tx);
    AlignedIs(g, address);
    TotalIsBits(g, k);
    CutFits(inner, w);
    GlueCut(inner, w);
    PartsAreDigits(g, k, Cut(inner, w));
    hide Widths;
  }

  // ---------------------------------------------------------------- the code

  /** The slicing of a request's address. */
  method Send(g: Geometry, k: Kind, address: nat) returns (v: Vec)
    requires g.block <= g.column
    ensures v == Locate(g, k, address) && InRange(g, v)
    ensures Digits(g, k, Aligned(g, address), v)
  {
    hide Shr, Pow2, InRange, Or, Shl, Digits, Aligned;
    PlaceHasDigits(g, k, address);
    PlaceOfAddress(g, k, address);
    var addr := And(address, Capacity(g) - 1);
    assert addr == Low(address, g.tx + Width(g));
    hide Low, And;
    addr := Shr(addr, g.tx);
    var vault, bankGroup, bank, row, column, msb;
    column, addr := SliceLowerBits(addr, g.block);
    ghost var lowColumn := column;
    vault, addr := SliceLowerBits(addr, g.vault);
    match k {
      case RoCoBaVa =>
        bank, addr := SliceLowerBits(addr, g.bank);
        bankGroup, addr := SliceLowerBits(addr, g.bankGroup);
        msb, addr := SliceLowerBits(addr, g.column - g.block);
      case RoBaCoVa =>
        msb, addr := SliceLowerBits(addr, g.column - g.block);
        bank, addr := SliceLowerBits(addr, g.bank);
        bankGroup, addr := SliceLowerBits(addr, g.bankGroup);
      case RoCoBaBgVa =>
        bankGroup, addr := SliceLowerBits(addr, g.bankGroup);
        bank, addr := SliceLowerBits(addr, g.bank);
        msb, addr := SliceLowerBits(addr, g.column - g.block);
    }
    row, addr := SliceLowerBits(addr, g.row);
    JoinIsSum(column, msb, g.block);
    column := Or(column, Shl(msb, g.block));
    v := Vec(vault, bankGroup, bank, row, column);
    CutSix(Shr(Low(address, g.tx + Width(g)), g.tx), Widths(g, k));
  }

  lemma CutSix(a: nat, w: seq<nat>)
    requires |w| == 6
    ensures var a1 := Shr(a, w[0]);
            var a2 := Shr(a1, w[1]);
            var a3 := Shr(a2, w[2]);
            var a4 := Shr(a3, w[3]);
            var a5 := Shr(a4, w[4]);
            Cut(a, w) == [Low(a, w[0]), Low(a1, w[1]), Low(a2, w[2]), Low(a3, w[3]), Low(a4, w[4]), Low(a5, w[5])]
  {
    hide Low, Shr;
    var a1 := Shr(a, w[0]);
    var a2 := Shr(a1, w[1]);
    var a3 := Shr(a2, w[2]);
    var a4 := Shr(a3, w[3]);
    assert Cut(a4, w[4..]) == [Low(a4, w[4])] + Cut(Shr(a4, w[4]), w[5..]);
    assert Cut(a3, w[3..]) == [Low(a3, w[3])] + Cut(a4, w[4..]);
    assert Cut(a2, w[2..]) == [Low(a2, w[2])] + Cut(a3, w[3..]);
    assert Cut(a1, w[1..]) == [Low(a1, w[1])] + Cut(a2, w[2..]);
  }

  /** The vault bits come right above those of a block, in every order. */
  lemma VaultBits(g: Geometry, address: nat)
    requires g.block <= g.column
    ensures Low(Shr(Shr(Low(address, g.tx + Width(g)), g.tx), g.block), g.vault) ==
            address / Pow2(g.tx + g.block) % Pow2(g.vault)
  {
    var n, rest := g.tx + g.block, Width(g) - g.block - g.vault;
    var within := Low(address, g.tx + Width(g));
    ShrTwice(within, g.tx, g.block);
    MaskIsRemainder(address, g.tx + Width(g));
    ShrIsDivision(within, n);
    MaskIsRemainder(Shr(within, n), g.vault);
    PowSum(n, g.vault + rest);
    PowSum(g.vault, rest);
    MiddleDigits(address, Pow2(n), Pow2(g.vault), Pow2(rest));
    hide Pow2, Shr, And;
  }

  /** Cutting off what is above does not change the digits below. */
  lemma MiddleDigits(a: nat, p: nat, q: nat, r: nat)
    requires 0 < p && 0 < q && 0 < r
    ensures 0 < q * r && 0 < p * (q * r) && a % (p * (q * r)) / p % q == a / p % q
  {
    ProductPositive(q, r);
    ProductPositive(p, q * r);
    DropHigh(a, p, q * r);
    DivNonNegative(a, p);
    DropFactor(a / p, q, r);
  }

  lemma ProductPositive(p: nat, q: nat)
    requires 0 < p && 0 < q
    ensures 0 < p * q
  {
  }

  lemma DropHigh(a: nat, p: nat, m: nat)
    requires 0 < p && 0 < m && 0 < p * m
    ensures a % (p * m) / p == a / p % m
  {
    DivNonNegative(a, p);
    var q, y := a / p, a % p;
    DivNonNegative(q, m);
    var k, x := q / m, q % m;
    Distributes(p, m, k, x);
    MulStep(p, x, m);
    QuotientAndRest(a, p * m, k, p * x + y);
    QuotientAndRest(p * x + y, p, x, y);
  }

  lemma DropFactor(b: nat, q: nat, r: nat)
    requires 0 < q && 0 < q * r
    ensures b % (q * r) % q == b % q
  {
    DivNonNegative(b, q * r);
    var k, x := b / (q * r), b % (q * r);
    DivNonNegative(x, q);
    Distributes(q, r, k, x / q);
    QuotientAndRest(b, q, r * k + x / q, x % q);
  }

  lemma Distributes(p: nat, m: nat, k: nat, x: nat)
    ensures p * (m * k + x) == p * m * k + p * x
  {
  }

  /** The vault that a core computes for itself, without the rest of the place, is the vault of the place,
      whatever the order of the fields. */
  method GetVaultTarget(g: Geometry, k: Kind, address: nat) returns (vault: nat)
    requires g.block <= g.column
    ensures vault == Locate(g, k, address).vault
    ensures vault == address / Pow2(g.tx + g.block) % Pow2(g.vault)
  {
    hide Shr, Pow2;
    VaultBits(g, address);
    var addr := And(address, Capacity(g) - 1);
    assert addr == Low(address, g.tx + Width(g));
    hide Low, And;
    addr := Shr(addr, g.tx);
    var column;
    column, addr := SliceLowerBits(addr, g.block);
    vault, addr := SliceLowerBits(addr, g.vault);
    CutSix(Shr(Low(address, g.tx + Width(g)), g.tx), Widths(g, k));
  }

  // ---------------------------------------------------------------- the geometry of a memory

  /** The numbers of vaults, bank groups, banks, rows and columns; the bytes a vault moves at a time, and how
      often it does so for one transaction. */
  datatype Organization = Organization(vaults: nat, bankGroups: nat, banks: nat, rows: nat, columns: nat,
                                       bytes: nat, prefetch: nat)

  predicate PowersOfTwo(o: Organization) {
    && IsPower(o.vaults) && IsPower(o.bankGroups) && IsPower(o.banks) && IsPower(o.rows) && IsPower(o.columns)
    && IsPower(o.bytes) && IsPower(o.prefetch) && Log2(o.prefetch) <= Log2(o.columns)
  }

  function MaxAddress(o: Organization): nat {
    o.bytes * o.vaults * o.bankGroups * o.banks * o.rows * o.columns
  }

  /** The field widths, for blocks of `2^maxBlock` bytes. */
  method Setup(o: Organization, maxBlock: nat) returns (g: Geometry)
    requires PowersOfTwo(o) && Log2(o.prefetch * o.bytes) <= maxBlock
    ensures Capacity(g) == MaxAddress(o) && Pow2(g.tx) == o.prefetch * o.bytes && g.tx + g.block == maxBlock
    ensures Pow2(g.vault) == o.vaults && Pow2(g.bankGroup) == o.bankGroups && Pow2(g.bank) == o.banks
    ensures Pow2(g.row) == o.rows && Pow2(g.column) * o.prefetch == o.columns
  {
    hide Log2, Pow2;
    var tx := CalcLog2(o.prefetch * o.bytes);
    var vault := CalcLog2(o.vaults);
    var bankGroup := CalcLog2(o.bankGroups);
    var bank := CalcLog2(o.banks);
    var row := CalcLog2(o.rows);
    var column := CalcLog2(o.columns);
    var prefetch := CalcLog2(o.prefetch);
    g := Geometry(tx, vault, bankGroup, bank, row, column - prefetch, maxBlock - tx);
    ProductOfPowers(o.prefetch, o.bytes);
    PowSum(column - prefetch, prefetch);
    ProductOfPowers(o.bytes, o.vaults);
    ProductOfPowers(o.bytes * o.vaults, o.bankGroups);
    ProductOfPowers(o.bytes * o.vaults * o.bankGroups, o.banks);
    ProductOfPowers(o.bytes * o.vaults * o.bankGroups * o.banks, o.rows);
    ProductOfPowers(o.bytes * o.vaults * o.bankGroups * o.banks * o.rows, o.columns);
  }
}
