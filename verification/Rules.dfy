/** The rules of a device in its own terms, and that the engine allows a command exactly if they are kept: none is
    missing from the tables, and none is added by them. */
module Rules {
  import opened Device
  import opened History
  import opened Safety

  // ---------------------------------------------------------------- looking back over the commands themselves

  predicate Was(e: Event, p: Path, c: Command) { e.cmd == c && AtNode(e, p) }

  /** How many `c` commands were aimed at a node after `clk`. */
  function Recent(h: seq<Event>, p: Path, c: Command, clk: int): nat {
    if h == [] then 0
    else Recent(h[..|h| - 1], p, c, clk) + if Was(h[|h| - 1], p, c) && clk < h[|h| - 1].clk then 1 else 0
  }

  lemma {:induction false} NoneIsRecent(h: seq<Event>, p: Path, c: Command, clk: int)
    ensures Recent(h, p, c, clk) == 0 <==> forall i :: 0 <= i < |h| && Was(h[i], p, c) ==> h[i].clk <= clk
  {
    if h != [] {
      var before := h[..|h| - 1];
      NoneIsRecent(before, p, c, clk);
      assert forall i :: 0 <= i < |before| ==> before[i] == h[i];
    }
  }

  lemma {:induction false} EarlierIsNotRecent(h: seq<Event>, p: Path, c: Command, clk: int)
    requires forall i :: 0 <= i < |h| ==> h[i].clk <= clk
    ensures Recent(h, p, c, clk) == 0
  {
    NoneIsRecent(h, p, c, clk);
  }

  lemma RecentSnoc(h: seq<Event>, e: Event, p: Path, c: Command, clk: int)
    ensures Recent(h + [e], p, c, clk) == Recent(h, p, c, clk) + if Was(e, p, c) && clk < e.clk then 1 else 0
  {
    assert (h + [e])[..|h|] == h;
  }

  /** The `d`-th most recent clock is after `clk` exactly if `d` of the commands were. */
  lemma {:induction false} TimesAreRecent(h: seq<Event>, p: Path, c: Command, d: nat, clk: int)
    requires Chronological(h) && 1 <= d
    ensures d <= |Times(h, p, c)| && clk < Times(h, p, c)[d - 1] <==> d <= Recent(h, p, c, clk)
  {
    if h == [] {
    } else {
      var before, e := h[..|h| - 1], h[|h| - 1];
      assert h == before + [e];
      ChronologicalPrefix(before, e);
      TimesSnoc(before, e, p, c);
      RecentSnoc(before, e, p, c, clk);
      if e.clk <= clk {
        EarlierIsNotRecent(before, p, c, clk);
        TimesDescend(h, p, c);
        TimesEnd(before, e, p, c);
      } else {
        if d > 1 {
          TimesAreRecent(before, p, c, d - 1, clk);
        }
        TimesAreRecent(before, p, c, d, clk);
      }
      hide Times, Recent, Chronological;
    }
  }

  lemma {:induction false} TimesEnd(h: seq<Event>, e: Event, p: Path, c: Command)
    requires Chronological(h + [e])
    ensures forall i :: 0 <= i < |Times(h + [e], p, c)| ==> Times(h + [e], p, c)[i] <= e.clk
  {
    TimesSnoc(h, e, p, c);
    ChronologicalPrefix(h, e);
    if h != [] {
      var before, last := h[..|h| - 1], h[|h| - 1];
      assert h == before + [last] && (h + [e])[|h|] == e && (h + [e])[|h| - 1] == last;
      TimesEnd(before, last, p, c);
    }
  }

  lemma {:induction false} LatestSibling(h: seq<Event>, p: Path, c: Command, clk: int)
    requires Chronological(h)
    ensures SiblingTimes(h, p, c) != [] && clk < SiblingTimes(h, p, c)[0] <==>
            !forall i :: 0 <= i < |h| && h[i].cmd == c && AtSibling(h[i], p) ==> h[i].clk <= clk
  {
    hide AtSibling;
    if h != [] {
      var before, e := h[..|h| - 1], h[|h| - 1];
      assert h == before + [e] && forall i :: 0 <= i < |before| ==> before[i] == h[i];
      if e.cmd == c && AtSibling(e, p) {
        assert SiblingTimes(h, p, c)[0] == e.clk;
      } else {
        ChronologicalPrefix(before, e);
        LatestSibling(before, p, c, clk);
      }
    }
  }

  // ---------------------------------------------------------------- one node

  /** The rules between siblings that end in `c` allow a gap. */
  ghost predicate SiblingKept(rules: seq<Entry>, c: Command, gap: int) {
    forall k :: 0 <= k < |rules| && rules[k].cmd == c && rules[k].sibling ==> rules[k].val <= gap
  }

  /** Fewer commands than the rule looks back over were issued within its time. */
  ghost predicate FewRecent(h: seq<Event>, p: Path, a: Command, t: Entry, clk: int) {
    Recent(h, p, a, clk - t.val) < t.dist
  }

  /** The rules that look back further. */
  ghost predicate FurtherKept(dev: Spec, h: seq<Event>, p: Path, c: Command, clk: int) {
    forall a: Command, t: Entry :: t in dev.timing(|p| - 1, a) && t.cmd == c && !t.sibling && t.dist != 1 ==>
      FewRecent(h, p, a, t, clk)
  }

  ghost predicate EachKept(dev: Spec, h: seq<Event>, p: Path, c: Command, clk: int) {
    forall i :: 0 <= i < |h| && AtNode(h[i], p) ==> Kept(dev.timing(|p| - 1, h[i].cmd), c, clk - h[i].clk)
  }

  ghost predicate EachSiblingKept(dev: Spec, h: seq<Event>, p: Path, c: Command, clk: int) {
    forall i :: 0 <= i < |h| && AtSibling(h[i], p) ==>
      SiblingKept(dev.timing(|p| - 1, h[i].cmd), c, clk - h[i].clk)
  }

  lemma EntryLooksBack(dev: Spec, level: nat, a: Command, t: Entry)
    requires t in dev.timing(level, a)
    ensures LooksBack(t)
  {
  }

  lemma ElapsedIs(dev: Spec, h: seq<Event>, p: Path, a: Command, t: Entry, clk: int)
    requires Chronological(h) && t in dev.timing(|p| - 1, a)
    ensures Elapsed(Past(h, p, a, t), t, clk) <==>
            if t.sibling then
              forall i :: 0 <= i < |h| && h[i].cmd == a && AtSibling(h[i], p) ==> t.val <= clk - h[i].clk
            else FewRecent(h, p, a, t, clk)
  {
    hide Times, SiblingTimes, Recent;
    EntryLooksBack(dev, |p| - 1, a, t);
    if t.sibling {
      LatestSibling(h, p, a, clk - t.val);
    } else {
      TimesAreRecent(h, p, a, t.dist, clk - t.val);
    }
  }

  /** A node allows a command exactly if each earlier command at the node, and at its siblings, is far enough back. */
  lemma NodeAllowsExactly(dev: Spec, h: seq<Event>, p: Path, c: Command, clk: int)
    requires Chronological(h)
    ensures NodeAllows(dev, h, p, c, clk) <==>
            EachKept(dev, h, p, c, clk) && EachSiblingKept(dev, h, p, c, clk) && FurtherKept(dev, h, p, c, clk)
  {
    if NodeAllows(dev, h, p, c, clk) {
      AllowedIsKept(dev, h, p, c, clk);
    }
    if EachKept(dev, h, p, c, clk) && EachSiblingKept(dev, h, p, c, clk) && FurtherKept(dev, h, p, c, clk) {
      KeptIsAllowed(dev, h, p, c, clk);
    }
  }

  lemma AllowedIsKept(dev: Spec, h: seq<Event>, p: Path, c: Command, clk: int)
    requires Chronological(h) && NodeAllows(dev, h, p, c, clk)
    ensures EachKept(dev, h, p, c, clk) && EachSiblingKept(dev, h, p, c, clk) && FurtherKept(dev, h, p, c, clk)
  {
    hide FewRecent, Past, AtNode, AtSibling, Kept, SiblingKept;
    forall a: Command, t: Entry | t in dev.timing(|p| - 1, a) && t.cmd == c && !t.sibling && t.dist != 1
      ensures FewRecent(h, p, a, t, clk)
    {
      ElapsedIs(dev, h, p, a, t, clk);
    }
    forall i | 0 <= i < |h| && AtNode(h[i], p)
      ensures Kept(dev.timing(|p| - 1, h[i].cmd), c, clk - h[i].clk)
    {
      OneIsKept(dev, h, p, c, clk, i);
    }
    forall i | 0 <= i < |h| && AtSibling(h[i], p)
      ensures SiblingKept(dev.timing(|p| - 1, h[i].cmd), c, clk - h[i].clk)
    {
      OneSiblingIsKept(dev, h, p, c, clk, i);
    }
  }

  lemma OneIsKept(dev: Spec, h: seq<Event>, p: Path, c: Command, clk: int, i: nat)
    requires Chronological(h) && NodeAllows(dev, h, p, c, clk) && i < |h| && AtNode(h[i], p)
    ensures Kept(dev.timing(|p| - 1, h[i].cmd), c, clk - h[i].clk)
  {
    hide Recent, Past, AtNode;
    var a := h[i].cmd;
    var rules := dev.timing(|p| - 1, a);
    forall k | 0 <= k < |rules| && rules[k].cmd == c && rules[k].dist == 1 && !rules[k].sibling
      ensures rules[k].val <= clk - h[i].clk
    {
      assert rules[k] in rules;
      ElapsedIs(dev, h, p, a, rules[k], clk);
      NoneIsRecent(h, p, a, clk - rules[k].val);
      assert Was(h[i], p, a);
    }
  }

  lemma OneSiblingIsKept(dev: Spec, h: seq<Event>, p: Path, c: Command, clk: int, i: nat)
    requires Chronological(h) && NodeAllows(dev, h, p, c, clk) && i < |h| && AtSibling(h[i], p)
    ensures SiblingKept(dev.timing(|p| - 1, h[i].cmd), c, clk - h[i].clk)
  {
    hide Recent, Past, AtSibling, FewRecent;
    var rules := dev.timing(|p| - 1, h[i].cmd);
    forall k | 0 <= k < |rules| && rules[k].cmd == c && rules[k].sibling
      ensures rules[k].val <= clk - h[i].clk
    {
      assert rules[k] in rules;
      ElapsedIs(dev, h, p, h[i].cmd, rules[k], clk);
    }
  }

  lemma KeptIsAllowed(dev: Spec, h: seq<Event>, p: Path, c: Command, clk: int)
    requires Chronological(h)
    requires EachKept(dev, h, p, c, clk) && EachSiblingKept(dev, h, p, c, clk) && FurtherKept(dev, h, p, c, clk)
    ensures NodeAllows(dev, h, p, c, clk)
  {
    hide FewRecent, Past, AtNode, AtSibling, EachKept, EachSiblingKept;
    forall a: Command, t: Entry | t in dev.timing(|p| - 1, a) && t.cmd == c
      ensures Elapsed(Past(h, p, a, t), t, clk)
    {
      ElapsedIs(dev, h, p, a, t, clk);
      if t.sibling {
        SiblingsAreFar(dev, h, p, c, clk, a, t);
      } else if t.dist == 1 {
        OthersAreFar(dev, h, p, c, clk, a, t);
      }
    }
  }

  lemma SiblingsAreFar(dev: Spec, h: seq<Event>, p: Path, c: Command, clk: int, a: Command, t: Entry)
    requires EachSiblingKept(dev, h, p, c, clk) && t in dev.timing(|p| - 1, a) && t.cmd == c && t.sibling
    ensures forall i :: 0 <= i < |h| && h[i].cmd == a && AtSibling(h[i], p) ==> t.val <= clk - h[i].clk
  {
    hide AtSibling;
    var rules := dev.timing(|p| - 1, a);
    var k :| 0 <= k < |rules| && rules[k] == t;
    forall i | 0 <= i < |h| && h[i].cmd == a && AtSibling(h[i], p)
      ensures t.val <= clk - h[i].clk
    {
      assert SiblingKept(rules, c, clk - h[i].clk);
    }
  }

  lemma OthersAreFar(dev: Spec, h: seq<Event>, p: Path, c: Command, clk: int, a: Command, t: Entry)
    requires EachKept(dev, h, p, c, clk) && t in dev.timing(|p| - 1, a) && t.cmd == c && !t.sibling && t.dist == 1
    ensures FewRecent(h, p, a, t, clk)
  {
    hide AtNode;
    var rules := dev.timing(|p| - 1, a);
    var k :| 0 <= k < |rules| && rules[k] == t;
    forall i | 0 <= i < |h| && Was(h[i], p, a)
      ensures h[i].clk <= clk - t.val
    {
      assert Kept(rules, c, clk - h[i].clk);
    }
    NoneIsRecent(h, p, a, clk - t.val);
  }

  // ---------------------------------------------------------------- a vault of the Hybrid Memory Cube

  /** The rules of a vault, a bank group or a bank, between an earlier command and `c`. */
  ghost predicate Spaced(s: HmcSpeed, level: int, a: Command, c: Command, gap: int) {
    if level == VAULT then VaultSpacing(s, a, c, gap)
    else if level == BANK_GROUP then GroupSpacing(s, a, c, gap)
    else if level == BANK then BankCycle(s, a, c, gap)
    else true
  }

  /** Each earlier command is far enough back, and for an activate of a vault at most three others were issued within
      the last `nFAW` cycles. */
  ghost predicate NodeSpaced(s: HmcSpeed, h: seq<Event>, p: Path, c: Command, clk: int) {
    && (forall i :: 0 <= i < |h| && AtNode(h[i], p) ==> Spaced(s, |p| - 1, h[i].cmd, c, clk - h[i].clk))
    && (|p| - 1 == VAULT && c == ACT ==> Recent(h, p, ACT, clk - s.nFAW) <= 3)
  }

  lemma HmcTableIs(s: HmcSpeed, level: nat, a: Command, c: Command, gap: int)
    ensures Kept(HmcTiming(s, level, a), c, gap) <==> Spaced(s, level, a, c, gap)
    ensures SiblingKept(HmcTiming(s, level, a), c, gap)
  {
    HmcIsPlain(s, level, a);
    hide HmcVault, HmcBankGroup, HmcBank, VaultSpacing, GroupSpacing, BankCycle;
    if level == VAULT {
      VaultTableIs(s, a, c, gap);
    } else if level == BANK_GROUP {
      GroupTableIs(s, a, c, gap);
    } else if level == BANK {
      BankTableIs(s, a, c, gap);
    }
  }

  /** Only the four-activate rule looks back further than once. */
  lemma HmcIsPlain(s: HmcSpeed, level: nat, a: Command)
    ensures forall t :: t in HmcTiming(s, level, a) ==>
              !t.sibling && (t.dist != 1 ==> level == VAULT && a == ACT && t == Own(ACT, 4, s.nFAW))
    ensures level == VAULT && a == ACT ==> Own(ACT, 4, s.nFAW) in HmcTiming(s, level, a)
    ensures forall k :: 0 <= k < |HmcTiming(s, level, a)| ==> !HmcTiming(s, level, a)[k].sibling
  {
    if level == VAULT && a == ACT {
      assert HmcVault(s, ACT)[1] == Own(ACT, 4, s.nFAW);
    }
  }

  lemma HmcNodeAllows(s: HmcSpeed, vaults: nat, groups: nat, banks: nat, h: seq<Event>, p: Path, c: Command, clk: int)
    requires Chronological(h)
    ensures NodeAllows(Hmc(s, vaults, groups, banks), h, p, c, clk) <==> NodeSpaced(s, h, p, c, clk)
  {
    hide NodeAllows, AtNode, AtSibling, HmcTiming, Kept, SiblingKept, Spaced, Recent;
    var dev := Hmc(s, vaults, groups, banks);
    NodeAllowsExactly(dev, h, p, c, clk);
    forall i | 0 <= i < |h|
      ensures Kept(dev.timing(|p| - 1, h[i].cmd), c, clk - h[i].clk) <==>
              Spaced(s, |p| - 1, h[i].cmd, c, clk - h[i].clk)
      ensures SiblingKept(dev.timing(|p| - 1, h[i].cmd), c, clk - h[i].clk)
    {
      HmcTableIs(s, |p| - 1, h[i].cmd, c, clk - h[i].clk);
    }
    FurtherIsFour(s, vaults, groups, banks, h, p, c, clk);
  }

  lemma FurtherIsFour(s: HmcSpeed, vaults: nat, groups: nat, banks: nat, h: seq<Event>, p: Path, c: Command, clk: int)
    ensures FurtherKept(Hmc(s, vaults, groups, banks), h, p, c, clk) <==>
            (|p| - 1 == VAULT && c == ACT ==> Recent(h, p, ACT, clk - s.nFAW) <= 3)
  {
    hide HmcTiming, Recent;
    var level := |p| - 1;
    HmcIsPlain(s, level, ACT);
    forall a: Command, t: Entry | t in HmcTiming(s, level, a) && t.dist != 1
      ensures level == VAULT && a == ACT && t == Own(ACT, 4, s.nFAW)
    {
      HmcIsPlain(s, level, a);
    }
    assert |p| - 1 == VAULT && c == ACT && FurtherKept(Hmc(s, vaults, groups, banks), h, p, c, clk) ==>
        FewRecent(h, p, ACT, Own(ACT, 4, s.nFAW), clk);
  }

  /** How many nodes a command must be allowed by: one if it is for the vault as a whole, else all those on the way to
      its bank that its address names. */
  function Nodes(c: Command, groups: nat, banks: nat, addr: Address): nat {
    if c !in {ACT, PRE, RD, WR, RDA, WRA} || addr[BANK_GROUP] < 0 || groups == 0 then 1
    else if addr[BANK] < 0 || banks == 0 then 2
    else 3
  }

  /** The engine allows a command to a vault exactly if it keeps the rules of the vault, of the bank group and of the
      bank towards every earlier command there. */
  lemma HmcAllowsExactly(s: HmcSpeed, vaults: nat, groups: nat, banks: nat, h: seq<Event>, c: Command, addr: Address,
                         clk: int)
    requires Chronological(h)
    ensures Allows(Hmc(s, vaults, groups, banks), h, c, addr, clk) <==>
            forall k :: 1 <= k <= Nodes(c, groups, banks, addr) ==> NodeSpaced(s, h, addr[..k], c, clk)
  {
    hide NodeAllows, NodeSpaced;
    var dev := Hmc(s, vaults, groups, banks);
    HmcDepth(s, vaults, groups, banks, c, addr);
    forall k | 1 <= k <= 3
      ensures NodeAllows(dev, h, addr[..k], c, clk) <==> NodeSpaced(s, h, addr[..k], c, clk)
    {
      HmcNodeAllows(s, vaults, groups, banks, h, addr[..k], c, clk);
    }
  }

  lemma HmcDepth(s: HmcSpeed, vaults: nat, groups: nat, banks: nat, c: Command, addr: Address)
    ensures 1 + Depth(Hmc(s, vaults, groups, banks), c, addr, 0) == Nodes(c, groups, banks, addr)
  {
    var dev := Hmc(s, vaults, groups, banks);
    assert Depth(dev, c, addr, 2) == 0;
    assert Depth(dev, c, addr, 1) == if addr[2] < 0 || banks == 0 || Scope(dev, c) == 1 then 0 else 1;
  }

  // ---------------------------------------------------------------- a DDR3 channel

  /** Within a channel: the data bus. */
  ghost predicate ChannelSpacing(s: Ddr3Speed, a: Command, b: Command, gap: int) {
    (IsRead(a) && IsRead(b)) || (IsWrite(a) && IsWrite(b)) ==> s.nBL <= gap
  }

  /** How long a rank must stay powered up after a command that uses it. */
  function RankToPowerDown(s: Ddr3Speed, a: Command): int {
    if IsRead(a) then s.nCL + s.nBL + 1
    else if a == WR then s.nCWL + s.nBL + s.nWR
    else if a == WRA then s.nCWL + s.nBL + s.nWR + 1
    else 1
  }

  /** Within a rank: accesses and their turnarounds, activates, closing all banks, refresh, and powering down. */
  ghost predicate RankSpacing(s: Ddr3Speed, a: Command, b: Command, gap: int) {
    && ((IsRead(a) && IsRead(b)) || (IsWrite(a) && IsWrite(b)) ==> s.nCCD <= gap)
    && (IsRead(a) && IsWrite(b) ==> s.nCL + s.nCCD + 2 - s.nCWL <= gap)
    && (IsWrite(a) && IsRead(b) ==> s.nCWL + s.nBL + s.nWTR <= gap)
    && (a == ACT && b == ACT ==> s.nRRD <= gap)
    && (a == ACT && b == PREA ==> s.nRAS <= gap)
    && (a == RD && b == PREA ==> s.nRTP <= gap)
    && (a == WR && b == PREA ==> s.nCWL + s.nBL + s.nWR <= gap)
    && (a == PREA && b in {ACT, REF} ==> s.nRP <= gap)
    && (a == PRE && b == REF ==> s.nRP <= gap)
    && (a == REF && b in {ACT, REF} ==> s.nRFC <= gap)
    && (a in {PREA, PRE} && b == SRE ==> s.nRP <= gap)
    && (b == PDE ==> RankToPowerDown(s, a) <= gap || a in {PREA, PRE, PDE, PDX, SRE, SRX})
    && (a == PDX && b !in {PDX, SRX} ==> s.nXP <= gap)
    && (a == SRX && b in {ACT, REF, PDE, SRE} ==> s.nXS <= gap)
    && (a == PDE && b == PDX ==> s.nPD <= gap)
    && (a == SRE && b == SRX ==> s.nCKESR <= gap)
  }

  /** Between different ranks: the bus takes time to switch. */
  ghost predicate SwitchSpacing(s: Ddr3Speed, a: Command, b: Command, gap: int) {
    && (IsRead(a) && IsAccessing(b) ==> s.nBL + s.nRTRS <= gap)
    && (IsRead(a) && IsWrite(b) ==> s.nCL + s.nBL + s.nRTRS - s.nCWL <= gap)
    && (IsWrite(a) && IsRead(b) ==> s.nCWL + s.nBL + s.nRTRS - s.nCL <= gap)
  }

  /** Within a bank: opening, access, closing, and opening again. */
  ghost predicate Ddr3BankCycle(s: Ddr3Speed, a: Command, b: Command, gap: int) {
    && (a == ACT && IsAccessing(b) ==> s.nRCD <= gap)
    && (a == ACT && b == PRE ==> s.nRAS <= gap)
    && (a == ACT && b == ACT ==> s.nRC <= gap)
    && (a == PRE && b == ACT ==> s.nRP <= gap)
    && (a == RD && b == PRE ==> s.nRTP <= gap)
    && (a == WR && b == PRE ==> s.nCWL + s.nBL + s.nWR <= gap)
    && (a == RDA && b == ACT ==> s.nRTP + s.nRP <= gap)
    && (a == WRA && b == ACT ==> s.nCWL + s.nBL + s.nWR + s.nRP <= gap)
  }

  lemma ChannelTableIs(s: Ddr3Speed, a: Command, b: Command, gap: int)
    ensures Kept(Ddr3Channel(s, a), b, gap) <==> ChannelSpacing(s, a, b, gap)
  {
    var rules := Ddr3Channel(s, a);
    match a
    case RD | RDA => assert rules[0].cmd == RD && rules[1].cmd == RDA;
    case WR | WRA => assert rules[0].cmd == WR && rules[1].cmd == WRA;
    case _ =>
  }

  lemma Ddr3BankTableIs(s: Ddr3Speed, a: Command, b: Command, gap: int)
    ensures Kept(Ddr3Bank(s, a), b, gap) <==> Ddr3BankCycle(s, a, b, gap)
  {
    var rules := Ddr3Bank(s, a);
    match a
    case ACT =>
      assert |rules| == 6 && rules[0].cmd == RD && rules[1].cmd == RDA && rules[2].cmd == WR && rules[3].cmd == WRA;
      assert rules[4].cmd == ACT && rules[5].cmd == PRE;
    case RD | WR | RDA | WRA | PRE => assert |rules| == 1 && rules[0].dist == 1;
    case _ =>
  }

  lemma RankTableIs(s: Ddr3Speed, a: Command, b: Command, gap: int)
    ensures Kept(Ddr3Rank(s, a), b, gap) <==> RankSpacing(s, a, b, gap)
    ensures SiblingKept(Ddr3Rank(s, a), b, gap) <==> SwitchSpacing(s, a, b, gap)
  {
    hide Kept, SiblingKept, RankSpacing, SwitchSpacing, Ddr3Rank;
    match a
    case RD | RDA | WR | WRA => RankAfterAccess(s, a, b, gap);
    case PDX | SRX | PDE | SRE =>
      RankAfterPower(s, a, b, gap);
      SwitchAfterPower(s, a, b, gap);
    case _ =>
      RankAfterRow(s, a, b, gap);
      SwitchAfterRow(s, a, b, gap);
  }

  lemma KeptSplit(xs: seq<Entry>, ys: seq<Entry>, c: Command, gap: int)
    ensures Kept(xs + ys, c, gap) <==> Kept(xs, c, gap) && Kept(ys, c, gap)
  {
    var all := xs + ys;
    assert forall k :: 0 <= k < |xs| ==> all[k] == xs[k];
    assert forall k :: 0 <= k < |ys| ==> all[|xs| + k] == ys[k];
  }

  lemma SiblingSplit(xs: seq<Entry>, ys: seq<Entry>, c: Command, gap: int)
    ensures SiblingKept(xs + ys, c, gap) <==> SiblingKept(xs, c, gap) && SiblingKept(ys, c, gap)
  {
    var all := xs + ys;
    assert forall k :: 0 <= k < |xs| ==> all[k] == xs[k];
    assert forall k :: 0 <= k < |ys| ==> all[|xs| + k] == ys[k];
  }

  /** A rank's rules after an access, in three parts: within the rank, between ranks, and the rest. */
  lemma ThreeParts(rules: seq<Entry>, i: nat, j: nat, c: Command, gap: int)
    requires i <= j <= |rules|
    ensures Kept(rules, c, gap) <==>
            Kept(rules[..i], c, gap) && Kept(rules[i..j], c, gap) && Kept(rules[j..], c, gap)
    ensures SiblingKept(rules, c, gap) <==>
            SiblingKept(rules[..i], c, gap) && SiblingKept(rules[i..j], c, gap) && SiblingKept(rules[j..], c, gap)
  {
    hide Kept, SiblingKept;
    KeptSplit(rules[..i], rules[i..j], c, gap);
    KeptSplit(rules[..j], rules[j..], c, gap);
    SiblingSplit(rules[..i], rules[i..j], c, gap);
    SiblingSplit(rules[..j], rules[j..], c, gap);
    assert rules[..j] == rules[..i] + rules[i..j] && rules == rules[..j] + rules[j..];
  }

  lemma BusAfterAccess(s: Ddr3Speed, a: Command, b: Command, gap: int)
    requires IsRead(a) || IsWrite(a)
    ensures |Ddr3Rank(s, a)| >= 4 && SiblingKept(Ddr3Rank(s, a)[..4], b, gap)
    ensures Kept(Ddr3Rank(s, a)[..4], b, gap) <==>
            && (IsRead(a) == IsRead(b) && IsAccessing(b) ==> s.nCCD <= gap)
            && (IsRead(a) && IsWrite(b) ==> s.nCL + s.nCCD + 2 - s.nCWL <= gap)
            && (IsWrite(a) && IsRead(b) ==> s.nCWL + s.nBL + s.nWTR <= gap)
  {
    var rules := Ddr3Rank(s, a)[..4];
    if IsRead(a) {
      assert rules[0].cmd == RD && rules[1].cmd == RDA && rules[2].cmd == WR && rules[3].cmd == WRA;
    } else {
      assert rules[0].cmd == WR && rules[1].cmd == WRA && rules[2].cmd == RD && rules[3].cmd == RDA;
    }
  }

  function BusSwitches(w: int, v: int): seq<Entry> {
    [Sib(RD, w), Sib(RDA, w), Sib(WR, w), Sib(WRA, w)] + [Sib(WR, v), Sib(WRA, v)]
  }

  lemma ReadHasSwitches(s: Ddr3Speed, a: Command)
    requires IsRead(a)
    ensures |Ddr3Rank(s, a)| >= 10
    ensures Ddr3Rank(s, a)[4..10] == BusSwitches(s.nBL + s.nRTRS, s.nCL + s.nBL + s.nRTRS - s.nCWL)
  {
  }

  lemma BusSwitchesKept(w: int, v: int, b: Command, gap: int)
    ensures Kept(BusSwitches(w, v), b, gap)
    ensures SiblingKept(BusSwitches(w, v), b, gap) <==>
            (IsAccessing(b) ==> w <= gap) && (IsWrite(b) ==> v <= gap)
  {
    SiblingSplit([Sib(RD, w), Sib(RDA, w), Sib(WR, w), Sib(WRA, w)], [Sib(WR, v), Sib(WRA, v)], b, gap);
    AnyAccess(w, b, gap);
    AnyWrite(v, b, gap);
    hide SiblingKept;
  }

  lemma SwitchesAfterRead(s: Ddr3Speed, a: Command, b: Command, gap: int)
    requires IsRead(a)
    ensures |Ddr3Rank(s, a)| >= 10 && Kept(Ddr3Rank(s, a)[4..10], b, gap)
    ensures SiblingKept(Ddr3Rank(s, a)[4..10], b, gap) <==> SwitchSpacing(s, a, b, gap)
  {
    hide Ddr3Rank, Kept, SiblingKept, BusSwitches;
    ReadHasSwitches(s, a);
    BusSwitchesKept(s.nBL + s.nRTRS, s.nCL + s.nBL + s.nRTRS - s.nCWL, b, gap);
  }

  lemma AnyAccess(w: int, b: Command, gap: int)
    ensures SiblingKept([Sib(RD, w), Sib(RDA, w), Sib(WR, w), Sib(WRA, w)], b, gap) <==> (IsAccessing(b) ==> w <= gap)
  {
    var rules := [Sib(RD, w), Sib(RDA, w), Sib(WR, w), Sib(WRA, w)];
    assert rules[0].cmd == RD && rules[1].cmd == RDA && rules[2].cmd == WR && rules[3].cmd == WRA;
  }

  lemma AnyWrite(w: int, b: Command, gap: int)
    ensures SiblingKept([Sib(WR, w), Sib(WRA, w)], b, gap) <==> (IsWrite(b) ==> w <= gap)
  {
    var rules := [Sib(WR, w), Sib(WRA, w)];
    assert rules[0].cmd == WR && rules[1].cmd == WRA;
  }

  lemma SwitchesAfterWrite(s: Ddr3Speed, a: Command, b: Command, gap: int)
    requires IsWrite(a)
    ensures |Ddr3Rank(s, a)| >= 6 && Kept(Ddr3Rank(s, a)[4..6], b, gap)
    ensures SiblingKept(Ddr3Rank(s, a)[4..6], b, gap) <==> SwitchSpacing(s, a, b, gap)
  {
    var rules := Ddr3Rank(s, a)[4..6];
    assert rules[0].cmd == RD && rules[1].cmd == RDA;
  }

  lemma RestAfterAccess(s: Ddr3Speed, a: Command, b: Command, gap: int)
    requires IsRead(a) || IsWrite(a)
    ensures var n := if IsRead(a) then 10 else 6;
            && |Ddr3Rank(s, a)| >= n && SiblingKept(Ddr3Rank(s, a)[n..], b, gap)
            && (Kept(Ddr3Rank(s, a)[n..], b, gap) <==>
                  && (a == RD && b == PREA ==> s.nRTP <= gap)
                  && (a == WR && b == PREA ==> s.nCWL + s.nBL + s.nWR <= gap)
                  && (b == PDE ==> RankToPowerDown(s, a) <= gap))
  {
    var rules := Ddr3Rank(s, a)[if IsRead(a) then 10 else 6..];
    assert if a in {RD, WR} then |rules| == 2 && rules[0].cmd == PREA && rules[1].cmd == PDE
           else |rules| == 1 && rules[0].cmd == PDE;
  }

  lemma RankAfterAccess(s: Ddr3Speed, a: Command, b: Command, gap: int)
    requires IsRead(a) || IsWrite(a)
    ensures Kept(Ddr3Rank(s, a), b, gap) <==> RankSpacing(s, a, b, gap)
    ensures SiblingKept(Ddr3Rank(s, a), b, gap) <==> SwitchSpacing(s, a, b, gap)
  {
    hide Ddr3Rank, Kept, SiblingKept, SwitchSpacing;
    BusAfterAccess(s, a, b, gap);
    RestAfterAccess(s, a, b, gap);
    if IsRead(a) {
      SwitchesAfterRead(s, a, b, gap);
      ThreeParts(Ddr3Rank(s, a), 4, 10, b, gap);
    } else {
      SwitchesAfterWrite(s, a, b, gap);
      ThreeParts(Ddr3Rank(s, a), 4, 6, b, gap);
    }
  }

  lemma RankAfterRow(s: Ddr3Speed, a: Command, b: Command, gap: int)
    requires a in {ACT, PRE, PREA, REF}
    ensures Kept(Ddr3Rank(s, a), b, gap) <==> RankSpacing(s, a, b, gap)
  {
    var rules := Ddr3Rank(s, a);
    if a == ACT {
      assert rules[0].cmd == ACT && rules[2].cmd == PREA && rules[3].cmd == PDE;
    } else if a == PRE {
      assert rules[0].cmd == REF && rules[1].cmd == SRE;
    } else {
      assert rules[0].cmd == ACT && rules[1].cmd == REF && rules[2].cmd == if a == REF then PDE else SRE;
    }
  }

  lemma SwitchAfterRow(s: Ddr3Speed, a: Command, b: Command, gap: int)
    requires a in {ACT, PRE, PREA, REF}
    ensures SiblingKept(Ddr3Rank(s, a), b, gap) <==> SwitchSpacing(s, a, b, gap)
  {
    var rules := Ddr3Rank(s, a);
    if a == ACT {
      assert rules[0].cmd == ACT && rules[2].cmd == PREA && rules[3].cmd == PDE;
    } else if a == PRE {
      assert rules[0].cmd == REF && rules[1].cmd == SRE;
    } else {
      assert rules[0].cmd == ACT && rules[1].cmd == REF && rules[2].cmd == if a == REF then PDE else SRE;
    }
  }

  lemma RankAfterPower(s: Ddr3Speed, a: Command, b: Command, gap: int)
    requires a in {PDE, PDX, SRE, SRX}
    ensures Kept(Ddr3Rank(s, a), b, gap) <==> RankSpacing(s, a, b, gap)
  {
    var rules := Ddr3Rank(s, a);
    if a == PDX {
      assert rules[0].cmd == RD && rules[1].cmd == RDA && rules[2].cmd == WR && rules[3].cmd == WRA;
      assert rules[4].cmd == ACT && rules[5].cmd == PRE && rules[6].cmd == PREA && rules[7].cmd == REF;
      assert rules[8].cmd == PDE && rules[9].cmd == SRE;
    } else if a == SRX {
      assert rules[0].cmd == ACT && rules[1].cmd == REF && rules[2].cmd == PDE && rules[3].cmd == SRE;
    } else {
      assert |rules| == 1 && rules[0].dist == 1;
    }
  }

  lemma SwitchAfterPower(s: Ddr3Speed, a: Command, b: Command, gap: int)
    requires a in {PDE, PDX, SRE, SRX}
    ensures SiblingKept(Ddr3Rank(s, a), b, gap) <==> SwitchSpacing(s, a, b, gap)
  {
    var rules := Ddr3Rank(s, a);
    if a == PDX {
      assert rules[0].cmd == RD && rules[1].cmd == RDA && rules[2].cmd == WR && rules[3].cmd == WRA;
      assert rules[4].cmd == ACT && rules[5].cmd == PRE && rules[6].cmd == PREA && rules[7].cmd == REF;
      assert rules[8].cmd == PDE && rules[9].cmd == SRE;
    } else if a == SRX {
      assert rules[0].cmd == ACT && rules[1].cmd == REF && rules[2].cmd == PDE && rules[3].cmd == SRE;
    } else {
      assert |rules| == 1 && rules[0].dist == 1;
    }
  }

  ghost predicate Ddr3Spaced(s: Ddr3Speed, level: int, a: Command, c: Command, gap: int) {
    if level == CHANNEL then ChannelSpacing(s, a, c, gap)
    else if level == RANK then RankSpacing(s, a, c, gap)
    else if level == BANK then Ddr3BankCycle(s, a, c, gap)
    else true
  }

  /** The same for a node of a DDR3 channel: the four-activate rule and the switching rules are those of a rank. */
  ghost predicate Ddr3NodeSpaced(s: Ddr3Speed, h: seq<Event>, p: Path, c: Command, clk: int) {
    && (forall i :: 0 <= i < |h| && AtNode(h[i], p) ==> Ddr3Spaced(s, |p| - 1, h[i].cmd, c, clk - h[i].clk))
    && (|p| - 1 == RANK ==>
          forall i :: 0 <= i < |h| && AtSibling(h[i], p) ==> SwitchSpacing(s, h[i].cmd, c, clk - h[i].clk))
    && (|p| - 1 == RANK && c == ACT ==> Recent(h, p, ACT, clk - s.nFAW) <= 3)
  }

  lemma Ddr3IsPlain(s: Ddr3Speed, level: nat, a: Command)
    ensures forall t :: t in Ddr3Timing(s, level, a) ==>
              && (t.sibling ==> level == RANK)
              && (t.dist != 1 ==> level == RANK && a == ACT && t == Own(ACT, 4, s.nFAW))
    ensures level == RANK && a == ACT ==> Own(ACT, 4, s.nFAW) in Ddr3Timing(s, level, a)
    ensures level != RANK ==>
              forall k :: 0 <= k < |Ddr3Timing(s, level, a)| ==> !Ddr3Timing(s, level, a)[k].sibling
  {
    if level == RANK && a == ACT {
      assert Ddr3Rank(s, ACT)[1] == Own(ACT, 4, s.nFAW);
    }
  }

  lemma Ddr3TableIs(s: Ddr3Speed, level: nat, a: Command, c: Command, gap: int)
    ensures Kept(Ddr3Timing(s, level, a), c, gap) <==> Ddr3Spaced(s, level, a, c, gap)
    ensures SiblingKept(Ddr3Timing(s, level, a), c, gap) <==> level != RANK || SwitchSpacing(s, a, c, gap)
  {
    Ddr3IsPlain(s, level, a);
    hide Ddr3Channel, Ddr3Rank, Ddr3Bank, ChannelSpacing, RankSpacing, Ddr3BankCycle, SwitchSpacing;
    if level == CHANNEL {
      ChannelTableIs(s, a, c, gap);
    } else if level == RANK {
      RankTableIs(s, a, c, gap);
    } else if level == BANK {
      Ddr3BankTableIs(s, a, c, gap);
    }
  }

  lemma Ddr3FurtherIsFour(s: Ddr3Speed, ranks: nat, banks: nat, h: seq<Event>, p: Path, c: Command, clk: int)
    ensures FurtherKept(Ddr3(s, ranks, banks), h, p, c, clk) <==>
            (|p| - 1 == RANK && c == ACT ==> Recent(h, p, ACT, clk - s.nFAW) <= 3)
  {
    hide Ddr3Timing, Recent;
    var level := |p| - 1;
    Ddr3IsPlain(s, level, ACT);
    forall a: Command, t: Entry | t in Ddr3Timing(s, level, a) && t.dist != 1
      ensures level == RANK && a == ACT && t == Own(ACT, 4, s.nFAW)
    {
      Ddr3IsPlain(s, level, a);
    }
    assert |p| - 1 == RANK && c == ACT && FurtherKept(Ddr3(s, ranks, banks), h, p, c, clk) ==>
        FewRecent(h, p, ACT, Own(ACT, 4, s.nFAW), clk);
  }

  lemma Ddr3NodeAllows(s: Ddr3Speed, ranks: nat, banks: nat, h: seq<Event>, p: Path, c: Command, clk: int)
    requires Chronological(h)
    ensures NodeAllows(Ddr3(s, ranks, banks), h, p, c, clk) <==> Ddr3NodeSpaced(s, h, p, c, clk)
  {
    hide NodeAllows, AtNode, AtSibling, Ddr3Timing, Kept, SiblingKept, Ddr3Spaced, SwitchSpacing, Recent;
    var dev := Ddr3(s, ranks, banks);
    NodeAllowsExactly(dev, h, p, c, clk);
    forall i | 0 <= i < |h|
      ensures Kept(dev.timing(|p| - 1, h[i].cmd), c, clk - h[i].clk) <==>
              Ddr3Spaced(s, |p| - 1, h[i].cmd, c, clk - h[i].clk)
      ensures SiblingKept(dev.timing(|p| - 1, h[i].cmd), c, clk - h[i].clk) <==>
              |p| - 1 != RANK || SwitchSpacing(s, h[i].cmd, c, clk - h[i].clk)
    {
      Ddr3TableIs(s, |p| - 1, h[i].cmd, c, clk - h[i].clk);
    }
    Ddr3FurtherIsFour(s, ranks, banks, h, p, c, clk);
  }

  /** A command for a rank as a whole must be allowed by the channel and the rank. */
  function Ddr3Nodes(c: Command, ranks: nat, banks: nat, addr: Address): nat {
    if addr[RANK] < 0 || ranks == 0 then 1
    else if c !in {ACT, PRE, RD, WR, RDA, WRA} || addr[BANK] < 0 || banks == 0 then 2
    else 3
  }

  /** The engine allows a command to a DDR3 channel exactly if it keeps the rules of the channel, of the rank, of its
      bank, and those between ranks, towards every earlier command. */
  lemma Ddr3AllowsExactly(s: Ddr3Speed, ranks: nat, banks: nat, h: seq<Event>, c: Command, addr: Address, clk: int)
    requires Chronological(h)
    ensures Allows(Ddr3(s, ranks, banks), h, c, addr, clk) <==>
            forall k :: 1 <= k <= Ddr3Nodes(c, ranks, banks, addr) ==> Ddr3NodeSpaced(s, h, addr[..k], c, clk)
  {
    hide NodeAllows, Ddr3NodeSpaced;
    var dev := Ddr3(s, ranks, banks);
    Ddr3Depth(s, ranks, banks, c, addr);
    forall k | 1 <= k <= 3
      ensures NodeAllows(dev, h, addr[..k], c, clk) <==> Ddr3NodeSpaced(s, h, addr[..k], c, clk)
    {
      Ddr3NodeAllows(s, ranks, banks, h, addr[..k], c, clk);
    }
  }

  lemma Ddr3Depth(s: Ddr3Speed, ranks: nat, banks: nat, c: Command, addr: Address)
    ensures 1 + Depth(Ddr3(s, ranks, banks), c, addr, 0) == Ddr3Nodes(c, ranks, banks, addr)
  {
    var dev := Ddr3(s, ranks, banks);
    assert Depth(dev, c, addr, 2) == 0;
    assert Depth(dev, c, addr, 1) == if addr[2] < 0 || banks == 0 || Scope(dev, c) == 1 then 0 else 1;
  }
}
