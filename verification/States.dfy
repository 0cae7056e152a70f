/** States in terms of the commands themselves: which activates have left a row open, what the last power command
    was, and which command a request needs next because of them. */
module States {
  import opened Device
  import opened History
  import opened BankState

  // ---------------------------------------------------------------- banks

  predicate ClosesBank(dev: Spec, e: Event, p: Path)
    requires |p| == BANK + 1
  {
    (e.cmd in {PRE, RDA, WRA} && AtNode(e, p)) || (e.cmd == PREA && AtNode(e, p[..dev.rank + 1]))
  }

  /** Command `i` opened a row of bank `p`, and nothing has closed it since. */
  ghost predicate OpenSince(dev: Spec, h: seq<Event>, p: Path, i: int)
    requires |p| == BANK + 1
  {
    && 0 <= i < |h| && h[i].cmd == ACT && AtNode(h[i], p)
    && forall j :: i < j < |h| ==> !ClosesBank(dev, h[j], p)
  }

  lemma OpenSinceSnoc(dev: Spec, h: seq<Event>, e: Event, p: Path, i: int)
    requires |p| == BANK + 1
    ensures OpenSince(dev, h + [e], p, i) <==>
            if i == |h| then e.cmd == ACT && AtNode(e, p) else OpenSince(dev, h, p, i) && !ClosesBank(dev, e, p)
  {
    assert forall j :: 0 <= j < |h| ==> (h + [e])[j] == h[j];
    assert (h + [e])[|h|] == e;
    if i != |h| && OpenSince(dev, h, p, i) && !ClosesBank(dev, e, p) {
      assert OpenSince(dev, h + [e], p, i);
    }
  }

  lemma OpenSinceEach(dev: Spec, h: seq<Event>, e: Event, p: Path)
    requires |p| == BANK + 1
    ensures forall i :: OpenSince(dev, h + [e], p, i) <==>
              if i == |h| then e.cmd == ACT && AtNode(e, p) else OpenSince(dev, h, p, i) && !ClosesBank(dev, e, p)
  {
    forall i
      ensures OpenSince(dev, h + [e], p, i) <==>
              if i == |h| then e.cmd == ACT && AtNode(e, p) else OpenSince(dev, h, p, i) && !ClosesBank(dev, e, p)
    {
      OpenSinceSnoc(dev, h, e, p, i);
    }
  }

  /** A bank is open exactly if a row was activated and not closed since. */
  lemma {:induction false} OpenIsActivated(dev: Spec, h: seq<Event>, p: Path)
    requires |p| == BANK + 1
    ensures StatusAfter(dev, h, p).state == if exists i :: OpenSince(dev, h, p, i) then Opened else Closed
  {
    if h != [] {
      var before, e := h[..|h| - 1], h[|h| - 1];
      assert h == before + [e];
      OpenIsActivated(dev, before, p);
      StatusSnoc(dev, before, e, p);
      OpenSinceEach(dev, before, e, p);
      hide StatusAfter, OpenSince;
      if e.cmd == ACT && AtNode(e, p) {
        assert OpenSince(dev, h, p, |before|);
      } else if i :| OpenSince(dev, before, p, i) {
        assert OpenSince(dev, h, p, i) <==> !ClosesBank(dev, e, p);
      }
    }
  }

  /** Its open rows are the rows that were. */
  lemma {:induction false} RowsAreActivated(dev: Spec, h: seq<Event>, p: Path, row: int)
    requires |p| == BANK + 1
    ensures row in StatusAfter(dev, h, p).rows <==> exists i :: OpenSince(dev, h, p, i) && h[i].addr[ROW] == row
  {
    if h != [] {
      var before, e := h[..|h| - 1], h[|h| - 1];
      assert h == before + [e];
      assert forall i :: 0 <= i < |before| ==> h[i] == before[i];
      RowsAreActivated(dev, before, p, row);
      StatusSnoc(dev, before, e, p);
      OpenSinceEach(dev, before, e, p);
      OpenSinceIsPast(dev, before, p);
      OpenSinceIsPast(dev, h, p);
      hide StatusAfter, OpenSince;
      if e.cmd == ACT && AtNode(e, p) && e.addr[ROW] == row {
        assert OpenSince(dev, h, p, |before|);
      } else if i :| OpenSince(dev, before, p, i) && before[i].addr[ROW] == row {
        assert OpenSince(dev, h, p, i) <==> !ClosesBank(dev, e, p);
      }
    }
  }

  lemma OpenSinceIsPast(dev: Spec, h: seq<Event>, p: Path)
    requires |p| == BANK + 1
    ensures forall i :: OpenSince(dev, h, p, i) ==> 0 <= i < |h|
  {
  }

  // ---------------------------------------------------------------- ranks

  predicate PowerEvent(e: Event, p: Path) { e.cmd in {PDE, PDX, SRE, SRX} && AtNode(e, p) }

  /** Command `i` is the last that changed the power state of rank `p`. */
  ghost predicate LastPower(h: seq<Event>, p: Path, i: int) {
    0 <= i < |h| && PowerEvent(h[i], p) && forall j :: i < j < |h| ==> !PowerEvent(h[j], p)
  }

  /** A row of bank `q` was open after the first `i` commands. */
  ghost predicate WasOpen(dev: Spec, h: seq<Event>, q: Path, i: nat)
    requires i <= |h|
  {
    |q| == BANK + 1 && exists k :: OpenSince(dev, h[..i], q, k)
  }

  ghost predicate AnyWasOpen(dev: Spec, h: seq<Event>, p: Path, i: nat)
    requires i <= |h|
  {
    exists q: Path :: IsBank(dev, q) && Extends(q, p) && WasOpen(dev, h, q, i)
  }

  lemma AnyOpenWasOpen(dev: Spec, h: seq<Event>, p: Path, i: nat)
    requires i <= |h|
    ensures AnyOpen(dev, h[..i], p) <==> AnyWasOpen(dev, h, p, i)
  {
    hide StatusAfter, OpenSince;
    forall q: Path | IsBank(dev, q)
      ensures StatusAfter(dev, h[..i], q).state != Closed <==> WasOpen(dev, h, q, i)
    {
      OpenIsActivated(dev, h[..i], q);
    }
  }

  /** The state that a rank's last power command `i` has put it in. */
  ghost function PowerState(dev: Spec, h: seq<Event>, p: Path, i: nat): State
    requires i < |h|
  {
    if h[i].cmd in {PDX, SRX} then PowerUp
    else if h[i].cmd == SRE then SelfRefresh
    else if AnyWasOpen(dev, h, p, i) then ActPowerDown
    else PrePowerDown
  }

  lemma LastPowerSnoc(dev: Spec, h: seq<Event>, e: Event, p: Path)
    ensures LastPower(h + [e], p, |h|) <==> PowerEvent(e, p)
    ensures forall i: nat :: i < |h| ==> (LastPower(h + [e], p, i) <==> LastPower(h, p, i) && !PowerEvent(e, p))
    ensures forall i: nat :: i < |h| ==> PowerState(dev, h + [e], p, i) == PowerState(dev, h, p, i)
  {
    var longer := h + [e];
    forall i: nat | i < |h|
      ensures LastPower(longer, p, i) <==> LastPower(h, p, i) && !PowerEvent(e, p)
      ensures PowerState(dev, longer, p, i) == PowerState(dev, h, p, i)
    {
      assert longer[..i] == h[..i] && longer[|h|] == e;
      assert forall j :: 0 <= j < |h| ==> longer[j] == h[j];
      hide OpenSince;
    }
  }

  /** The state of a rank is the one of its last power command; without any, it is powered up. */
  lemma {:induction false} PowerIsLast(dev: Spec, h: seq<Event>, p: Path)
    requires |p| == dev.rank + 1
    ensures forall i: nat :: LastPower(h, p, i) ==> StatusAfter(dev, h, p).state == PowerState(dev, h, p, i)
    ensures (forall i: nat :: !LastPower(h, p, i)) ==> StatusAfter(dev, h, p).state == PowerUp
  {
    hide LastPower, AnyOpen, AnyWasOpen;
    LastIsUnique(h, p);
    if h != [] {
      var before, e := h[..|h| - 1], h[|h| - 1];
      assert h == before + [e];
      PowerIsLast(dev, before, p);
      StatusSnoc(dev, before, e, p);
      AnyOpenWasOpen(dev, h, p, |before|);
      LastPowerSnoc(dev, before, e, p);
      LastIsUnique(before, p);
      hide StatusAfter;
      if PowerEvent(e, p) {
        assert StatusAfter(dev, h, p).state == PowerState(dev, h, p, |before|);
      } else {
        hide PowerState;
        assert StatusAfter(dev, h, p).state == StatusAfter(dev, before, p).state;
        assert forall i: nat :: LastPower(before, p, i) ==> LastPower(h, p, i);
      }
    }
  }

  lemma LastIsUnique(h: seq<Event>, p: Path)
    ensures forall i, j :: LastPower(h, p, i) && LastPower(h, p, j) ==> i == j
    ensures forall i :: LastPower(h, p, i) ==> 0 <= i < |h| && h[i].cmd in {PDE, PDX, SRE, SRX}
  {
  }

  // ---------------------------------------------------------------- the next command

  ghost predicate PoweredDown(h: seq<Event>, p: Path) {
    exists i: nat :: LastPower(h, p, i) && h[i].cmd == PDE
  }

  ghost predicate Refreshing(h: seq<Event>, p: Path) {
    exists i: nat :: LastPower(h, p, i) && h[i].cmd == SRE
  }

  lemma PowerSays(dev: Spec, h: seq<Event>, p: Path)
    requires |p| == dev.rank + 1
    ensures var s := StatusAfter(dev, h, p).state;
            (s in {ActPowerDown, PrePowerDown} <==> PoweredDown(h, p)) && (s == SelfRefresh <==> Refreshing(h, p))
  {
    PowerIsLast(dev, h, p);
    hide StatusAfter, AnyWasOpen, LastPower;
    LastIsUnique(h, p);
    if i: nat :| LastPower(h, p, i) {
      assert StatusAfter(dev, h, p).state == PowerState(dev, h, p, i);
    }
  }

  /** The address names nodes down to a level. */
  predicate ToLevel(dev: Spec, addr: Address, level: nat)
    requires level <= BANK
  {
    forall l :: 1 <= l <= level ==> 0 <= addr[l] && dev.count[l] != 0
  }

  /** A column command finds its row open, or some row of its bank. */
  lemma RowsFound(dev: Spec, h: seq<Event>, c: Command, addr: Address)
    ensures var bank, column := addr[..BANK + 1], c in {RD, WR} && ToLevel(dev, addr, BANK);
            && (RowOpen(dev, h, c, addr) <==> column && exists i :: OpenSince(dev, h, bank, i))
            && (RowHit(dev, h, c, addr) <==>
                  column && exists i :: OpenSince(dev, h, bank, i) && h[i].addr[ROW] == addr[ROW])
  {
    OpenIsActivated(dev, h, addr[..BANK + 1]);
    RowsAreActivated(dev, h, addr[..BANK + 1], addr[ROW]);
    hide StatusAfter, OpenSince;
    assert ReachesBank(dev, addr, 0) <==> ToLevel(dev, addr, BANK) by {
      assert ReachesBank(dev, addr, 1) <==> 0 <= addr[2] && dev.count[2] != 0;
    }
  }

  lemma ColumnDecodes(dev: Spec, h: seq<Event>, c: Command, addr: Address)
    requires c in {RD, WR} && ToLevel(dev, addr, BANK)
    ensures var power, bank := StatusAfter(dev, h, addr[..dev.rank + 1]).state, StatusAfter(dev, h, addr[..BANK + 1]);
            Decode(dev, h, c, addr) ==
            if power in {ActPowerDown, PrePowerDown} then PDX
            else if power == SelfRefresh then SRX
            else if bank.state == Closed then ACT
            else if addr[ROW] in bank.rows then c
            else PRE
  {
    hide StatusAfter, AnyOpen;
    assert DecodeBelow(dev, h, c, addr, 2) == DecodeBelow(dev, h, c, addr, BANK);
  }

  /** A column command first leaves power down or self refresh, then opens its row, after closing any other. */
  lemma ColumnNeeds(dev: Spec, h: seq<Event>, c: Command, addr: Address)
    requires c in {RD, WR} && ToLevel(dev, addr, BANK)
    ensures var rank, bank := addr[..dev.rank + 1], addr[..BANK + 1];
            Decode(dev, h, c, addr) ==
            if PoweredDown(h, rank) then PDX
            else if Refreshing(h, rank) then SRX
            else if !exists i :: OpenSince(dev, h, bank, i) then ACT
            else if exists i :: OpenSince(dev, h, bank, i) && h[i].addr[ROW] == addr[ROW] then c
            else PRE
  {
    ColumnDecodes(dev, h, c, addr);
    PowerSays(dev, h, addr[..dev.rank + 1]);
    OpenIsActivated(dev, h, addr[..BANK + 1]);
    RowsAreActivated(dev, h, addr[..BANK + 1], addr[ROW]);
    hide StatusAfter, PoweredDown, Refreshing, OpenSince, Decode, ToLevel;
  }

  /** A refresh first closes all the banks of the rank. */
  lemma RefreshNeeds(dev: Spec, h: seq<Event>, addr: Address)
    requires ToLevel(dev, addr, dev.rank)
    ensures Decode(dev, h, REF, addr) == if AnyWasOpen(dev, h, addr[..dev.rank + 1], |h|) then PREA else REF
  {
    AnyOpenWasOpen(dev, h, addr[..dev.rank + 1], |h|);
    assert h[..|h|] == h;
    hide AnyOpen, AnyWasOpen;
  }

  /** Powering down waits for the end of self refresh, and self refresh for the end of power down. */
  lemma SleepNeeds(dev: Spec, h: seq<Event>, addr: Address)
    requires ToLevel(dev, addr, dev.rank)
    ensures Decode(dev, h, PDE, addr) == if Refreshing(h, addr[..dev.rank + 1]) then SRX else PDE
    ensures Decode(dev, h, SRE, addr) == if PoweredDown(h, addr[..dev.rank + 1]) then PDX else SRE
  {
    PowerSays(dev, h, addr[..dev.rank + 1]);
    hide StatusAfter, PoweredDown, Refreshing, AnyOpen;
  }
}
