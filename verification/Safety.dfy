/** What the engine's check buys over whole runs: every two issued commands that a table relates at a
    common node keep their distance, rolling windows hold no more commands than they may, and closing
    all banks at once is never earlier than closing each of them would have been. */
module Safety {
  import opened Device
  import opened History

  /** A run: the clock never goes back, and every command was allowed when it was issued. */
  ghost predicate Legal(dev: Spec, h: seq<Event>) {
    && Chronological(h)
    && forall j :: 0 <= j < |h| ==> LegalAt(dev, h, j)
  }

  ghost predicate LegalAt(dev: Spec, h: seq<Event>, j: nat)
    requires j < |h|
  {
    Allows(dev, h[..j], h[j].cmd, h[j].addr, h[j].clk)
  }

  /** The check made for `e` includes node `p`. */
  predicate Visits(dev: Spec, e: Event, p: Path) {
    AtNode(e, p) && |p| <= 1 + Depth(dev, e.cmd, e.addr, 0)
  }

  /** How many `c` commands were aimed at `p` from position `i` up to position `j`. */
  ghost function Occurrences(h: seq<Event>, p: Path, c: Command, i: nat, j: nat): int
    requires i <= j <= |h|
  {
    |Times(h[..j], p, c)| - |Times(h[..i], p, c)|
  }

  lemma {:induction false} EarlierTimesAreSuffix(h: seq<Event>, p: Path, c: Command, i: nat)
    requires i <= |h|
    ensures |Times(h[..i], p, c)| <= |Times(h, p, c)|
    ensures Times(h, p, c)[|Times(h, p, c)| - |Times(h[..i], p, c)|..] == Times(h[..i], p, c)
  {
    hide Times;
    if i == |h| {
      assert h[..i] == h;
    } else {
      var h', e := h[..|h| - 1], h[|h| - 1];
      assert h == h' + [e] && h'[..i] == h[..i];
      EarlierTimesAreSuffix(h', p, c, i);
      TimesSnoc(h', e, p, c);
    }
  }

  /** Looking back from position `j`, the command at position `i` is no later than the `d`-th most
      recent one, whenever `d` of them were issued from `i` on. */
  lemma LookingBack(h: seq<Event>, p: Path, i: nat, j: nat, d: nat)
    requires Chronological(h) && i < j <= |h| && AtNode(h[i], p)
    requires 1 <= d <= Occurrences(h, p, h[i].cmd, i, j)
    ensures d <= |Times(h[..j], p, h[i].cmd)| && h[i].clk <= Times(h[..j], p, h[i].cmd)[d - 1]
  {
    var c := h[i].cmd;
    var before, after := Times(h[..i], p, c), Times(h[..j], p, c);
    var upTo := Times(h[..i + 1], p, c);
    assert h[..i + 1] == h[..i] + [h[i]];
    TimesSnoc(h[..i], h[i], p, c);
    assert upTo == [h[i].clk] + before;
    EarlierTimesAreSuffix(h[..j], p, c, i + 1);
    assert h[..j][..i + 1] == h[..i + 1];
    var at := |after| - |upTo|;
    assert after[at] == after[at..][0] == h[i].clk;
    TimesDescend(h[..j], p, c);
    assert d - 1 <= at;
  }

  /** Two commands of a run that a table entry relates at a node keep the entry's distance: `t.dist`
      commands of the first kind, counted from position `i`, and then the command at `j`. */
  lemma RunsAreSafe(dev: Spec, h: seq<Event>, p: Path, i: nat, j: nat, t: Entry)
    requires Legal(dev, h) && i < j < |h|
    requires AtNode(h[i], p) && Visits(dev, h[j], p)
    requires t in dev.timing(|p| - 1, h[i].cmd) && t.cmd == h[j].cmd && !t.sibling
    requires t.dist <= Occurrences(h, p, h[i].cmd, i, j)
    ensures t.val <= h[j].clk - h[i].clk
  {
    LookingBack(h, p, i, j, t.dist);
    assert LegalAt(dev, h, j);
    assert h[j].addr[..|p|] == p;
    assert NodeAllows(dev, h[..j], p, h[j].cmd, h[j].clk);
    assert Elapsed(Past(h[..j], p, h[i].cmd, t), t, h[j].clk);
  }

  /** The instance for distance one, which needs no counting. */
  lemma AnyTwoAreSafe(dev: Spec, h: seq<Event>, p: Path, i: nat, j: nat, t: Entry)
    requires Legal(dev, h) && i < j < |h|
    requires AtNode(h[i], p) && Visits(dev, h[j], p)
    requires t in dev.timing(|p| - 1, h[i].cmd) && t.cmd == h[j].cmd && !t.sibling && t.dist == 1
    ensures t.val <= h[j].clk - h[i].clk
  {
    var c := h[i].cmd;
    assert h[..i + 1] == h[..i] + [h[i]];
    TimesSnoc(h[..i], h[i], p, c);
    EarlierTimesAreSuffix(h[..j], p, c, i + 1);
    assert h[..j][..i + 1] == h[..i + 1];
    RunsAreSafe(dev, h, p, i, j, t);
  }

  /** The same between siblings: the first command was aimed at another child of the same parent. */
  lemma SiblingsAreSafe(dev: Spec, h: seq<Event>, p: Path, i: nat, j: nat, t: Entry)
    requires Legal(dev, h) && i < j < |h|
    requires AtSibling(h[i], p) && Visits(dev, h[j], p)
    requires t in dev.timing(|p| - 1, h[i].cmd) && t.cmd == h[j].cmd && t.sibling
    ensures t.val <= h[j].clk - h[i].clk
  {
    SiblingLookingBack(h, p, i, j);
    assert LegalAt(dev, h, j);
    assert h[j].addr[..|p|] == p;
    assert NodeAllows(dev, h[..j], p, h[j].cmd, h[j].clk);
    assert Elapsed(Past(h[..j], p, h[i].cmd, t), t, h[j].clk);
  }

  lemma {:induction false} SiblingLookingBack(h: seq<Event>, p: Path, i: nat, j: nat)
    requires Chronological(h) && i < j <= |h| && AtSibling(h[i], p)
    ensures |SiblingTimes(h[..j], p, h[i].cmd)| >= 1
    ensures h[i].clk <= SiblingTimes(h[..j], p, h[i].cmd)[0]
  {
    var last := h[j - 1];
    assert h[..j] == h[..j - 1] + [last];
    TimesSnoc(h[..j - 1], last, p, h[i].cmd);
    if i < j - 1 {
      SiblingLookingBack(h, p, i, j - 1);
    }
  }

  // ---------------------------------------------------------------- rolling windows

  function CountWithin(ts: seq<int>, from: int, to: int): nat {
    if ts == [] then 0 else (if from <= ts[0] < to then 1 else 0) + CountWithin(ts[1..], from, to)
  }

  lemma {:induction false} AllEarlier(ts: seq<int>, from: int, to: int)
    requires forall k :: 0 <= k < |ts| ==> ts[k] < from
    ensures CountWithin(ts, from, to) == 0
  {
    if ts != [] {
      AllEarlier(ts[1..], from, to);
    }
  }

  lemma {:induction false} CountSplit(ts: seq<int>, n: nat, from: int, to: int)
    requires n <= |ts|
    ensures CountWithin(ts, from, to) <= n + CountWithin(ts[n..], from, to)
  {
    if n > 0 {
      CountSplit(ts[1..], n - 1, from, to);
      assert ts[1..][n - 1..] == ts[n..];
    } else {
      assert ts[n..] == ts;
    }
  }

  /** In a descending list whose entries `d` apart differ by `w`, a window of length `w` holds at most `d`. */
  lemma {:induction false} WindowHolds(ts: seq<int>, d: nat, w: int, from: int)
    requires forall i, j :: 0 <= i <= j < |ts| ==> ts[j] <= ts[i]
    requires forall i :: 0 <= i < |ts| - d ==> w <= ts[i] - ts[i + d]
    ensures CountWithin(ts, from, from + w) <= d
  {
    if ts == [] {
    } else if !(from <= ts[0] < from + w) {
      forall i | 0 <= i < |ts[1..]| - d
        ensures w <= ts[1..][i] - ts[1..][i + d]
      {
        assert ts[1..][i] == ts[i + 1] && ts[1..][i + d] == ts[i + 1 + d];
      }
      WindowHolds(ts[1..], d, w, from);
    } else if |ts| <= d {
      CountSplit(ts, |ts|, from, from + w);
    } else {
      assert w <= ts[0] - ts[0 + d];
      CountSplit(ts, d, from, from + w);
      AllEarlier(ts[d..], from, from + w);
    }
  }

  /** An entry "`c` to `c`, distance `d`, value `w`" in a node's table means that no `w` consecutive
      cycles of a run hold more than `d` of the `c` commands aimed at the node. */
  lemma RollingWindow(dev: Spec, h: seq<Event>, p: Path, c: Command, t: Entry, from: int)
    requires Legal(dev, h)
    requires t in dev.timing(|p| - 1, c) && t.cmd == c && !t.sibling
    requires forall j :: 0 <= j < |h| && h[j].cmd == c && AtNode(h[j], p) ==> Visits(dev, h[j], p)
    ensures CountWithin(Times(h, p, c), from, from + t.val) <= t.dist
  {
    TimesDescend(h, p, c);
    TimesSpaced(dev, h, p, c, t);
    WindowHolds(Times(h, p, c), t.dist, t.val, from);
  }

  lemma {:induction false} TimesSpaced(dev: Spec, h: seq<Event>, p: Path, c: Command, t: Entry)
    requires Legal(dev, h)
    requires t in dev.timing(|p| - 1, c) && t.cmd == c && !t.sibling
    requires forall j :: 0 <= j < |h| && h[j].cmd == c && AtNode(h[j], p) ==> Visits(dev, h[j], p)
    ensures forall i :: 0 <= i < |Times(h, p, c)| - t.dist ==> t.val <= Times(h, p, c)[i] - Times(h, p, c)[i + t.dist]
  {
    if h != [] {
      var h', e := h[..|h| - 1], h[|h| - 1];
      LegalPrefix(dev, h);
      TimesSpaced(dev, h', p, c, t);
      if e.cmd == c && AtNode(e, p) {
        assert LegalAt(dev, h, |h| - 1);
        assert e.addr[..|p|] == p;
        assert NodeAllows(dev, h', p, c, e.clk);
        assert Elapsed(Past(h', p, c, t), t, e.clk);
      }
    }
  }

  lemma LegalPrefix(dev: Spec, h: seq<Event>)
    requires Legal(dev, h) && h != []
    ensures Legal(dev, h[..|h| - 1])
  {
    var h' := h[..|h| - 1];
    forall j | 0 <= j < |h'|
      ensures LegalAt(dev, h', j)
    {
      assert LegalAt(dev, h, j);
      assert h'[..j] == h[..j];
    }
  }

  /** The four-activate window of a vault: any `nFAW` consecutive cycles hold at most four activates. */
  lemma FourActivatesPerVault(s: HmcSpeed, vaults: nat, groups: nat, banks: nat, h: seq<Event>, vault: int, from: int)
    requires Legal(Hmc(s, vaults, groups, banks), h)
    ensures CountWithin(Times(h, [vault], ACT), from, from + s.nFAW) <= 4
  {
    var dev := Hmc(s, vaults, groups, banks);
    var t := Own(ACT, 4, s.nFAW);
    assert HmcVault(s, ACT)[1] == t;
    assert t in dev.timing(0, ACT);
    RollingWindow(dev, h, [vault], ACT, t, from);
  }

  /** The same for a DDR3 rank; there the activate must name the rank it is for. */
  lemma FourActivatesPerRank(s: Ddr3Speed, ranks: nat, banks: nat, h: seq<Event>, channel: int, rank: nat, from: int)
    requires Legal(Ddr3(s, ranks, banks), h) && rank < ranks
    ensures CountWithin(Times(h, [channel, rank], ACT), from, from + s.nFAW) <= 4
  {
    var dev := Ddr3(s, ranks, banks);
    var t := Own(ACT, 4, s.nFAW);
    assert Ddr3Rank(s, ACT)[1] == t;
    assert t in dev.timing(1, ACT);
    forall j | 0 <= j < |h| && h[j].cmd == ACT && AtNode(h[j], [channel, rank])
      ensures Visits(dev, h[j], [channel, rank])
    {
      assert h[j].addr[..2][1] == rank;
    }
    RollingWindow(dev, h, [channel, rank], ACT, t, from);
  }

  // ---------------------------------------------------------------- the rules of a vault, as distances in a run

  predicate IsRead(c: Command) { c in {RD, RDA} }

  predicate IsWrite(c: Command) { c in {WR, WRA} }

  function Gap(h: seq<Event>, i: nat, j: nat): int
    requires i < |h| && j < |h|
  {
    h[j].clk - h[i].clk
  }

  /** All the rules from here that look back once to a `c` allow a gap. */
  ghost predicate Kept(rules: seq<Entry>, c: Command, gap: int) {
    forall k :: 0 <= k < |rules| && rules[k].cmd == c && rules[k].dist == 1 && !rules[k].sibling ==> rules[k].val <= gap
  }

  lemma RulesKept(dev: Spec, h: seq<Event>, p: Path, i: nat, j: nat)
    requires Legal(dev, h) && i < j < |h| && AtNode(h[i], p) && Visits(dev, h[j], p)
    ensures Kept(dev.timing(|p| - 1, h[i].cmd), h[j].cmd, Gap(h, i, j))
  {
    hide Legal, Visits, AtNode;
    var rules := dev.timing(|p| - 1, h[i].cmd);
    forall k | 0 <= k < |rules| && rules[k].cmd == h[j].cmd && rules[k].dist == 1 && !rules[k].sibling
      ensures rules[k].val <= Gap(h, i, j)
    {
      AnyTwoAreSafe(dev, h, p, i, j, rules[k]);
    }
  }

  /** Within a bank: opening, access, closing, and opening again. */
  ghost predicate BankCycle(s: HmcSpeed, a: Command, b: Command, gap: int) {
    && (a == ACT && IsAccessing(b) ==> s.nRCD <= gap)
    && (a == ACT && b == PRE ==> s.nRAS <= gap)
    && (a == ACT && b == ACT ==> s.nRC <= gap)
    && (a == PRE && b == ACT ==> s.nRP <= gap)
    && (a == RD && b == PRE ==> s.nRTP <= gap)
    && (a == WR && b == PRE ==> s.nCWL + s.nBL + s.nWR <= gap)
    && (a == RDA && b == ACT ==> s.nRTP + s.nRP <= gap)
    && (a == WRA && b == ACT ==> s.nCWL + s.nBL + s.nWR + s.nRP <= gap)
  }

  /** Within a bank group: the longer distances between accesses, and between activates. */
  ghost predicate GroupSpacing(s: HmcSpeed, a: Command, b: Command, gap: int) {
    && (IsRead(a) && IsRead(b) ==> s.nCCDL <= gap)
    && (IsWrite(a) && IsWrite(b) ==> s.nCCDL <= gap)
    && (IsWrite(a) && IsRead(b) ==> s.nCWL + s.nBL + s.nWTRL <= gap)
    && (a == ACT && b == ACT ==> s.nRRDL <= gap)
  }

  /** Within a vault: the data bus and its turnarounds, activates, closing all banks, refresh, and powering down. */
  ghost predicate VaultSpacing(s: HmcSpeed, a: Command, b: Command, gap: int) {
    && (IsRead(a) && IsRead(b) ==> s.nBL <= gap && s.nCCDS <= gap)
    && (IsWrite(a) && IsWrite(b) ==> s.nBL <= gap && s.nCCDS <= gap)
    && (IsRead(a) && IsWrite(b) ==> s.nCL + s.nCCDS + 2 - s.nCWL <= gap)
    && (IsWrite(a) && IsRead(b) ==> s.nCWL + s.nBL + s.nWTRS <= gap)
    && (a == ACT && b == ACT ==> s.nRRDS <= gap)
    && (a == ACT && b == PREA ==> s.nRAS <= gap)
    && (a == RD && b == PREA ==> s.nRTP <= gap)
    && (a == WR && b == PREA ==> s.nCWL + s.nBL + s.nWR <= gap)
    && (a == PREA && b in {ACT, REF} ==> s.nRP <= gap)
    && (a == PRE && b == REF ==> s.nRP <= gap)
    && (a == REF && b in {ACT, REF} ==> s.nRFC <= gap)
    && (a in {PREA, PRE} && b == SRE ==> s.nRP <= gap)
    && (b == PDE ==> ToPowerDown(s, a) <= gap || a in {PREA, PRE, PDE, PDX, SRE, SRX})
    && (a == PDX && b !in {PDX, SRX} ==> s.nXP <= gap)
    && (a == SRX && b in {ACT, REF, PDE, SRE} ==> s.nXS <= gap)
    && (a == PDE && b == PDX ==> s.nPD <= gap)
    && (a == SRE && b == SRX ==> s.nCKESR <= gap)
  }

  /** How long a vault must stay powered up after a command that uses it. */
  function ToPowerDown(s: HmcSpeed, a: Command): int {
    if IsRead(a) then s.nCL + s.nBL + 1
    else if a == WR then s.nCWL + s.nBL + s.nWR
    else if a == WRA then s.nCWL + s.nBL + s.nWR + 1
    else 1
  }

  /** The tables say just this, and no more. */
  lemma BankTableIs(s: HmcSpeed, a: Command, b: Command, gap: int)
    ensures Kept(HmcBank(s, a), b, gap) <==> BankCycle(s, a, b, gap)
  {
    var rules := HmcBank(s, a);
    match a
    case ACT =>
      assert |rules| == 6 && rules[0].cmd == RD && rules[1].cmd == RDA && rules[2].cmd == WR && rules[3].cmd == WRA;
      assert rules[4].cmd == ACT && rules[5].cmd == PRE;
    case RD | WR | RDA | WRA | PRE => assert |rules| == 1 && rules[0].dist == 1;
    case _ =>
  }

  lemma GroupTableIs(s: HmcSpeed, a: Command, b: Command, gap: int)
    ensures Kept(HmcBankGroup(s, a), b, gap) <==> GroupSpacing(s, a, b, gap)
  {
    var rules := HmcBankGroup(s, a);
    match a
    case RD | RDA => assert rules[0].cmd == RD && rules[1].cmd == RDA;
    case WR | WRA => assert rules[0].cmd == WR && rules[1].cmd == WRA && rules[2].cmd == RD && rules[3].cmd == RDA;
    case ACT => assert rules[0].cmd == ACT;
    case _ =>
  }

  lemma VaultTableIs(s: HmcSpeed, a: Command, b: Command, gap: int)
    ensures Kept(HmcVault(s, a), b, gap) <==> VaultSpacing(s, a, b, gap)
  {
    match a
    case RD | RDA => AfterRead(s, a, b, gap);
    case WR | WRA => AfterWrite(s, a, b, gap);
    case PDX | SRX | PDE | SRE => AfterPower(s, a, b, gap);
    case _ => AfterRow(s, a, b, gap);
  }

  lemma AfterRead(s: HmcSpeed, a: Command, b: Command, gap: int)
    requires IsRead(a)
    ensures Kept(HmcVault(s, a), b, gap) <==> VaultSpacing(s, a, b, gap)
  {
    var rules := HmcVault(s, a);
    assert rules[0].cmd == RD && rules[1].cmd == RDA && rules[2].cmd == RD && rules[3].cmd == RDA;
    assert rules[4].cmd == WR && rules[5].cmd == WRA;
    assert if a == RD then rules[6].cmd == PREA && rules[7].cmd == PDE else rules[6].cmd == PDE;
  }

  lemma AfterWrite(s: HmcSpeed, a: Command, b: Command, gap: int)
    requires IsWrite(a)
    ensures Kept(HmcVault(s, a), b, gap) <==> VaultSpacing(s, a, b, gap)
  {
    var rules := HmcVault(s, a);
    assert rules[0].cmd == WR && rules[1].cmd == WRA && rules[2].cmd == WR && rules[3].cmd == WRA;
    assert rules[4].cmd == RD && rules[5].cmd == RDA;
    assert if a == WR then rules[6].cmd == PREA && rules[7].cmd == PDE else rules[6].cmd == PDE;
  }

  lemma AfterRow(s: HmcSpeed, a: Command, b: Command, gap: int)
    requires a in {ACT, PRE, PREA, REF}
    ensures Kept(HmcVault(s, a), b, gap) <==> VaultSpacing(s, a, b, gap)
  {
    var rules := HmcVault(s, a);
    if a == ACT {
      assert rules[0].cmd == ACT && rules[2].cmd == PREA && rules[3].cmd == PDE;
    } else if a == PRE {
      assert rules[0].cmd == REF && rules[1].cmd == SRE;
    } else {
      assert rules[0].cmd == ACT && rules[1].cmd == REF && rules[2].cmd == if a == REF then PDE else SRE;
    }
  }

  lemma AfterPower(s: HmcSpeed, a: Command, b: Command, gap: int)
    requires a in {PDE, PDX, SRE, SRX}
    ensures Kept(HmcVault(s, a), b, gap) <==> VaultSpacing(s, a, b, gap)
  {
    var rules := HmcVault(s, a);
    if a == PDX {
      assert rules[0].cmd == RD && rules[1].cmd == RDA && rules[2].cmd == WR && rules[3].cmd == WRA;
      assert rules[4].cmd == ACT && rules[5].cmd == PRE && rules[6].cmd == PREA && rules[7].cmd == REF;
      assert rules[8].cmd == PDE && rules[9].cmd == SRE;
    } else if a == SRX {
      assert rules[0].cmd == ACT && rules[1].cmd == REF && rules[2].cmd == PDE && rules[3].cmd == SRE;
    } else {
      assert |rules| == 1 && rules[0].dist == 1;
    }
  }

  /** The rules of a vault, of its bank groups and of its banks, between any two commands of a run. */
  lemma VaultRunsAreSpaced(s: HmcSpeed, vaults: nat, groups: nat, banks: nat, h: seq<Event>, p: Path, i: nat, j: nat)
    requires Legal(Hmc(s, vaults, groups, banks), h) && i < j < |h|
    requires AtNode(h[i], p) && Visits(Hmc(s, vaults, groups, banks), h[j], p)
    ensures |p| == 1 ==> VaultSpacing(s, h[i].cmd, h[j].cmd, Gap(h, i, j))
    ensures |p| == 2 ==> GroupSpacing(s, h[i].cmd, h[j].cmd, Gap(h, i, j))
    ensures |p| == 3 ==> BankCycle(s, h[i].cmd, h[j].cmd, Gap(h, i, j))
  {
    hide Legal, Visits, AtNode, VaultSpacing, GroupSpacing, BankCycle, HmcVault, HmcBankGroup, HmcBank, Kept;
    RulesKept(Hmc(s, vaults, groups, banks), h, p, i, j);
    match |p|
    case 1 => VaultTableIs(s, h[i].cmd, h[j].cmd, Gap(h, i, j));
    case 2 => GroupTableIs(s, h[i].cmd, h[j].cmd, Gap(h, i, j));
    case 3 => BankTableIs(s, h[i].cmd, h[j].cmd, Gap(h, i, j));
    case _ =>
  }

  /** Between different ranks of a DDR3 channel, the bus needs time to switch. */
  lemma RanksAreSpaced(s: Ddr3Speed, ranks: nat, banks: nat, h: seq<Event>, p: Path, i: nat, j: nat)
    requires Legal(Ddr3(s, ranks, banks), h) && i < j < |h| && |p| == RANK + 1
    requires AtSibling(h[i], p) && Visits(Ddr3(s, ranks, banks), h[j], p)
    ensures IsRead(h[i].cmd) && IsAccessing(h[j].cmd) ==> s.nBL + s.nRTRS <= Gap(h, i, j)
    ensures IsRead(h[i].cmd) && IsWrite(h[j].cmd) ==> s.nCL + s.nBL + s.nRTRS - s.nCWL <= Gap(h, i, j)
    ensures IsWrite(h[i].cmd) && IsRead(h[j].cmd) ==> s.nCWL + s.nBL + s.nRTRS - s.nCL <= Gap(h, i, j)
  {
    hide Legal, Visits, AtSibling;
    var dev := Ddr3(s, ranks, banks);
    var rules := Ddr3Rank(s, h[i].cmd);
    assert dev.timing(RANK, h[i].cmd) == rules;
    forall k | 0 <= k < |rules| && rules[k].sibling && rules[k].cmd == h[j].cmd
      ensures rules[k].val <= Gap(h, i, j)
    {
      assert rules[k] in rules;
      SiblingsAreSafe(dev, h, p, i, j, rules[k]);
    }
    RankTableSays(s, h[i].cmd);
    hide Ddr3Rank;
  }

  lemma RankTableSays(s: Ddr3Speed, c: Command)
    ensures var rules := Ddr3Rank(s, c);
            && (IsRead(c) ==>
                  && |rules| > 9 && rules[4] == Sib(RD, s.nBL + s.nRTRS) && rules[5] == Sib(RDA, s.nBL + s.nRTRS)
                  && rules[6] == Sib(WR, s.nBL + s.nRTRS) && rules[7] == Sib(WRA, s.nBL + s.nRTRS)
                  && rules[8] == Sib(WR, s.nCL + s.nBL + s.nRTRS - s.nCWL)
                  && rules[9] == Sib(WRA, s.nCL + s.nBL + s.nRTRS - s.nCWL))
            && (IsWrite(c) ==>
                  && |rules| > 5 && rules[4] == Sib(RD, s.nCWL + s.nBL + s.nRTRS - s.nCL)
                  && rules[5] == Sib(RDA, s.nCWL + s.nBL + s.nRTRS - s.nCL))
  {
  }

  // ---------------------------------------------------------------- closing all banks at once

  /** The rule about closing all banks that answers the rule `t` after command `a`. */
  ghost predicate Answered(rankRules: seq<Entry>, t: Entry) {
    && t.dist == 1 && !t.sibling
    && exists i :: 0 <= i < |rankRules| && rankRules[i] == Own(PREA, 1, t.val)
  }

  /** Each rule about closing one bank has a rule at least as strong about closing its whole rank. */
  ghost predicate CloseAllCovers(dev: Spec) {
    forall level: nat, a: Command, t: Entry :: t in dev.timing(level, a) && t.cmd == PRE ==>
      dev.rank <= level && Answered(dev.timing(dev.rank, a), t)
  }

  lemma {:induction false} DeeperIsOlder(h: seq<Event>, p: Path, q: Path, c: Command)
    requires Chronological(h) && |p| <= |q| && q[..|p|] == p
    requires Times(h, q, c) != []
    ensures Times(h, p, c) != [] && Times(h, q, c)[0] <= Times(h, p, c)[0]
  {
    var h', e := h[..|h| - 1], h[|h| - 1];
    TimesDescend(h, q, c);
    if e.cmd == c && AtNode(e, p) {
    } else {
      if AtNode(e, q) {
        assert e.addr[..|p|] == e.addr[..|q|][..|p|] == p;
      }
      DeeperIsOlder(h', p, q, c);
    }
  }

  /** If all the banks of a rank may be closed together, then each of them may be closed by itself. */
  lemma CloseAllDominatesClose(dev: Spec, h: seq<Event>, rankAddr: Address, bankAddr: Address, clk: int)
    requires Chronological(h) && CloseAllCovers(dev)
    requires rankAddr[..dev.rank + 1] == bankAddr[..dev.rank + 1]
    requires Depth(dev, PREA, rankAddr, 0) == dev.rank
    requires Allows(dev, h, PREA, rankAddr, clk)
    ensures Allows(dev, h, PRE, bankAddr, clk)
  {
    var p := rankAddr[..dev.rank + 1];
    assert NodeAllows(dev, h, p, PREA, clk);
    forall k | 1 <= k <= 1 + Depth(dev, PRE, bankAddr, 0)
      ensures NodeAllows(dev, h, bankAddr[..k], PRE, clk)
    {
      var q := bankAddr[..k];
      forall a: Command, t: Entry | t in dev.timing(k - 1, a) && t.cmd == PRE
        ensures Elapsed(Past(h, q, a, t), t, clk)
      {
        assert Answered(dev.timing(dev.rank, a), t);
        var u := Own(PREA, 1, t.val);
        assert u in dev.timing(dev.rank, a);
        assert Elapsed(Past(h, p, a, u), u, clk);
        if Times(h, q, a) != [] {
          assert q[..|p|] == p;
          DeeperIsOlder(h, p, q, a);
        }
      }
    }
  }

  lemma HmcAnswers(s: HmcSpeed, level: nat, a: Command, t: Entry)
    requires t in HmcTiming(s, level, a) && t.cmd == PRE
    ensures Answered(HmcVault(s, a), t)
  {
    var rules := HmcVault(s, a);
    match a
    case RD => assert rules[6] == Own(PREA, 1, t.val);
    case WR => assert rules[6] == Own(PREA, 1, t.val);
    case ACT => assert rules[2] == Own(PREA, 1, t.val);
    case PDX => assert rules[6] == Own(PREA, 1, t.val);
    case _ =>
  }

  lemma Ddr3Answers(s: Ddr3Speed, level: nat, a: Command, t: Entry)
    requires t in Ddr3Timing(s, level, a) && t.cmd == PRE
    ensures 1 <= level && Answered(Ddr3Rank(s, a), t)
  {
    var rules := Ddr3Rank(s, a);
    match a
    case RD => assert rules[10] == Own(PREA, 1, t.val);
    case WR => assert rules[6] == Own(PREA, 1, t.val);
    case ACT => assert rules[2] == Own(PREA, 1, t.val);
    case PDX => assert rules[6] == Own(PREA, 1, t.val);
    case _ =>
  }

  /** A vault that may close all its banks may close any one of them. */
  lemma HmcCloseAll(s: HmcSpeed, vaults: nat, groups: nat, banks: nat, h: seq<Event>, vaultAddr: Address,
                    bankAddr: Address, clk: int)
    requires Chronological(h) && vaultAddr[0] == bankAddr[0]
    requires Allows(Hmc(s, vaults, groups, banks), h, PREA, vaultAddr, clk)
    ensures Allows(Hmc(s, vaults, groups, banks), h, PRE, bankAddr, clk)
  {
    var dev := Hmc(s, vaults, groups, banks);
    forall level: nat, a: Command, t: Entry | t in dev.timing(level, a) && t.cmd == PRE
      ensures Answered(dev.timing(dev.rank, a), t)
    {
      HmcAnswers(s, level, a, t);
    }
    CloseAllDominatesClose(dev, h, vaultAddr, bankAddr, clk);
  }

  /** The same for a DDR3 rank. */
  lemma Ddr3CloseAll(s: Ddr3Speed, ranks: nat, banks: nat, h: seq<Event>, rankAddr: Address,
                     bankAddr: Address, clk: int)
    requires Chronological(h) && rankAddr[..2] == bankAddr[..2]
    requires 0 <= rankAddr[1] < ranks
    requires Allows(Ddr3(s, ranks, banks), h, PREA, rankAddr, clk)
    ensures Allows(Ddr3(s, ranks, banks), h, PRE, bankAddr, clk)
  {
    var dev := Ddr3(s, ranks, banks);
    forall level: nat, a: Command, t: Entry | t in dev.timing(level, a) && t.cmd == PRE
      ensures 1 <= level && Answered(dev.timing(dev.rank, a), t)
    {
      Ddr3Answers(s, level, a, t);
    }
    CloseAllDominatesClose(dev, h, rankAddr, bankAddr, clk);
  }
}
