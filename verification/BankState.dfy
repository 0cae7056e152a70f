/** What a command history leaves open, and the prerequisite command that a request needs next. */
module BankState {
  import opened Device
  import opened History
  import opened Wrappers

  datatype Status = Status(state: State, rows: set<int>)

  function Start(dev: Spec, level: nat): State {
    if level == dev.rank then PowerUp else if level == BANK then Closed else Unused
  }

  ghost predicate IsBank(dev: Spec, q: Path) {
    && |q| == BANK + 1
    && forall l :: 1 <= l <= BANK ==> 0 <= q[l] < dev.count[l]
  }

  predicate Extends(q: Path, p: Path) { |p| <= |q| && q[..|p|] == p }

  /** Some bank below node `p` is not closed. */
  ghost predicate AnyOpen(dev: Spec, h: seq<Event>, p: Path)
    decreases |h|, 1
  {
    exists q: Path :: IsBank(dev, q) && Extends(q, p) && StatusAfter(dev, h, q).state != Closed
  }

  /** What a command aimed through a node of level `level` does to that node itself; `open` says
      whether some bank below it is open. */
  function OwnChange(dev: Spec, level: nat, s: Status, c: Command, row: int, open: bool): Status {
    if level == BANK then
      match c
      case ACT => Status(Opened, s.rows + {row})
      case PRE | RDA | WRA => Status(Closed, {})
      case _ => s
    else if level == dev.rank then
      match c
      case PDE => s.(state := if open then ActPowerDown else PrePowerDown)
      case PDX | SRX => s.(state := PowerUp)
      case SRE => s.(state := SelfRefresh)
      case _ => s
    else s
  }

  /** `e` closes all the banks of the rank that bank `p` belongs to. */
  predicate ClosesRankOf(dev: Spec, e: Event, p: Path) {
    |p| - 1 == BANK && e.cmd == PREA && AtNode(e, p[..dev.rank + 1])
  }

  /** The state and the open rows of node `p` after the history `h`. */
  ghost function StatusAfter(dev: Spec, h: seq<Event>, p: Path): Status
    decreases |h|, 0
  {
    if h == [] then Status(Start(dev, |p| - 1), {})
    else
      var h', e := h[..|h| - 1], h[|h| - 1];
      var s := StatusAfter(dev, h', p);
      if ClosesRankOf(dev, e, p) then Status(Closed, {})
      else if AtNode(e, p) then OwnChange(dev, |p| - 1, s, e.cmd, e.addr[ROW], AnyOpen(dev, h', p))
      else s
  }

  lemma StatusSnoc(dev: Spec, h: seq<Event>, e: Event, p: Path)
    ensures StatusAfter(dev, h + [e], p) ==
            if ClosesRankOf(dev, e, p) then Status(Closed, {})
            else if AtNode(e, p) then
              OwnChange(dev, |p| - 1, StatusAfter(dev, h, p), e.cmd, e.addr[ROW], AnyOpen(dev, h, p))
            else StatusAfter(dev, h, p)
  {
    assert (h + [e])[..|h|] == h;
  }

  /** The command that must precede `c` because of the state of node `p`, if the node has a say. */
  ghost function Prereq(dev: Spec, h: seq<Event>, p: Path, c: Command, child: int): Option<Command> {
    var s := StatusAfter(dev, h, p);
    if |p| - 1 == dev.rank then
      match c
      case RD | WR =>
        if s.state in {ActPowerDown, PrePowerDown} then Some(PDX)
        else if s.state == SelfRefresh then Some(SRX) else None
      case REF => Some(if AnyOpen(dev, h, p) then PREA else REF)
      case PDE => Some(if s.state == SelfRefresh then SRX else PDE)
      case SRE => Some(if s.state in {ActPowerDown, PrePowerDown} then PDX else SRE)
      case _ => None
    else if |p| - 1 == BANK && c in {RD, WR} then
      Some(if s.state == Closed then ACT else if child in s.rows then c else PRE)
    else None
  }

  /** The first prerequisite found on the way down from `level`, or `c` itself. */
  ghost function DecodeBelow(dev: Spec, h: seq<Event>, c: Command, addr: Address, level: nat): Command
    requires level <= BANK
    decreases BANK - level
  {
    match Prereq(dev, h, addr[..level + 1], c, addr[level + 1])
    case Some(first) => first
    case None =>
      if level == BANK || addr[level + 1] < 0 || dev.count[level + 1] == 0 then c
      else DecodeBelow(dev, h, c, addr, level + 1)
  }

  ghost function Decode(dev: Spec, h: seq<Event>, c: Command, addr: Address): Command {
    DecodeBelow(dev, h, c, addr, 0)
  }

  /** A column command would find its row open, or at least some row of its bank.  Only `RD` and `WR`
      can hit a row, and only an address that reaches a bank has one. */
  predicate ReachesBank(dev: Spec, addr: Address, level: nat)
    requires level <= BANK
    decreases BANK - level
  {
    level == BANK || (0 <= addr[level + 1] && dev.count[level + 1] != 0 && ReachesBank(dev, addr, level + 1))
  }

  ghost predicate RowHit(dev: Spec, h: seq<Event>, c: Command, addr: Address) {
    && c in {RD, WR} && ReachesBank(dev, addr, 0)
    && StatusAfter(dev, h, addr[..BANK + 1]).state != Closed
    && addr[ROW] in StatusAfter(dev, h, addr[..BANK + 1]).rows
  }

  ghost predicate RowOpen(dev: Spec, h: seq<Event>, c: Command, addr: Address) {
    && c in {RD, WR} && ReachesBank(dev, addr, 0)
    && StatusAfter(dev, h, addr[..BANK + 1]).state != Closed
  }
}
