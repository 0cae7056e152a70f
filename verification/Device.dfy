/** The description of a DRAM device: its command set, the levels of its tree of nodes, and its
    tables of timing constraints.  Two devices are given: one vault of the Hybrid Memory Cube, and a
    DDR3 channel (which adds constraints between sibling ranks).  Both use the same command set. */
module Device {

  datatype Command = ACT | PRE | PREA | RD | WR | RDA | WRA | REF | PDE | PDX | SRE | SRX

  datatype State = Opened | Closed | PowerUp | ActPowerDown | PrePowerDown | SelfRefresh | Unused

  /** "At least `val` cycles between the `dist`-th most recent occurrence of the command whose list
      holds this entry and a `cmd`."  A sibling entry counts occurrences that were aimed at another
      child of the same parent. */
  datatype Entry = Entry(cmd: Command, dist: int, val: int, sibling: bool)

  /** Nodes have levels 0 to 2, the last being the banks; rows and columns are not nodes. */
  const BANK: nat := 2
  const ROW: nat := 3
  const COLUMN: nat := 4

  /** `count[l]` is the number of children that a node of level `l - 1` has.  `rank` is the level that
      is refreshed and powered down as a whole. */
  datatype DeviceTables = DeviceTables(count: seq<nat>, rank: nat, timing: (nat, Command) -> seq<Entry>)

  predicate LooksBack(t: Entry) { 1 <= t.dist && (t.sibling ==> t.dist == 1) }

  /** What the tables must satisfy for the engine to be defined: every distance looks back at least
      one command, and sibling entries look back exactly one. */
  ghost predicate WellFormed(d: DeviceTables) {
    forall level: nat, c: Command, t: Entry {:trigger t in d.timing(level, c)} ::
      t in d.timing(level, c) ==> LooksBack(t)
  }

  type Spec = d: DeviceTables | |d.count| == ROW && d.rank < BANK && WellFormed(d)
    witness DeviceTables([1, 1, 1], 0, (level: nat, c: Command) => [])

  /** The deepest level that a command concerns: `ACT` reaches down to the row, `PRE` to the bank,
      column commands to the column, and all the other commands concern a whole rank. */
  function Scope(dev: Spec, c: Command): nat {
    match c
    case ACT => ROW
    case PRE => BANK
    case RD | WR | RDA | WRA => COLUMN
    case _ => dev.rank
  }

  /** `a[l]` is the node index at level `l`, then the row and the column, or -1. */
  type Address = a: seq<int> | ROW < |a| witness [0, 0, 0, 0]

  predicate IsOpening(c: Command) { c == ACT }

  predicate IsAccessing(c: Command) { c in {RD, WR, RDA, WRA} }

  predicate IsClosing(c: Command) { c in {RDA, WRA, PRE, PREA} }

  function Own(cmd: Command, dist: int, val: int): Entry { Entry(cmd, dist, val, false) }

  function Sib(cmd: Command, val: int): Entry { Entry(cmd, 1, val, true) }

  // ---------------------------------------------------------------- Hybrid Memory Cube, one vault

  const VAULT: nat := 0
  const BANK_GROUP: nat := 1

  datatype HmcSpeed = HmcSpeed(
    nBL: int, nCCDS: int, nCCDL: int, nCL: int, nRCD: int, nRP: int, nCWL: int, nRAS: int, nRC: int,
    nRTP: int, nWTRS: int, nWTRL: int, nWR: int, nRRDS: int, nRRDL: int, nFAW: int, nRFC: int,
    nREFI: int, nPD: int, nXP: int, nCKESR: int, nXS: int)

  /** The speed grades, in clock cycles; the second has an unlimited data bus. */
  const HMC_2500 := HmcSpeed(4, 4, 6, 17, 17, 17, 13, 34, 51, 9, 3, 9, 19, 7, 8, 17, 200, 9750, 6, 8, 7, 0)
  const HMC_2500_UNLIMITED := HmcSpeed(0, 1, 1, 17, 17, 17, 13, 34, 51, 9, 3, 9, 19, 7, 8, 17, 200, 9750, 6, 8, 7, 0)

  /** One column command moves `PREFETCH` times `WIDTH` bits, and a flit has 16 bytes. */
  const PREFETCH := 8
  const WIDTH := 32
  const FLIT_BYTES := 16

  /** The column commands that a payload of some flits takes, rounded down. */
  function BurstCount(payload: nat): nat { payload / (PREFETCH * WIDTH / 8 / FLIT_BYTES) }

  function HmcVault(s: HmcSpeed, c: Command): (es: seq<Entry>)
    ensures forall t :: t in es ==> LooksBack(t)
  {
    var readToWrite := s.nCL + s.nCCDS + 2 - s.nCWL;
    var writeToReadS := s.nCWL + s.nBL + s.nWTRS;
    var writeToPre := s.nCWL + s.nBL + s.nWR;
    match c
    case RD => [Own(RD, 1, s.nBL), Own(RDA, 1, s.nBL), Own(RD, 1, s.nCCDS), Own(RDA, 1, s.nCCDS),
                Own(WR, 1, readToWrite), Own(WRA, 1, readToWrite), Own(PREA, 1, s.nRTP),
                Own(PDE, 1, s.nCL + s.nBL + 1)]
    case RDA => [Own(RD, 1, s.nBL), Own(RDA, 1, s.nBL), Own(RD, 1, s.nCCDS), Own(RDA, 1, s.nCCDS),
                 Own(WR, 1, readToWrite), Own(WRA, 1, readToWrite), Own(PDE, 1, s.nCL + s.nBL + 1)]
    case WR => [Own(WR, 1, s.nBL), Own(WRA, 1, s.nBL), Own(WR, 1, s.nCCDS), Own(WRA, 1, s.nCCDS),
                Own(RD, 1, writeToReadS), Own(RDA, 1, writeToReadS), Own(PREA, 1, writeToPre),
                Own(PDE, 1, writeToPre)]
    case WRA => [Own(WR, 1, s.nBL), Own(WRA, 1, s.nBL), Own(WR, 1, s.nCCDS), Own(WRA, 1, s.nCCDS),
                 Own(RD, 1, writeToReadS), Own(RDA, 1, writeToReadS), Own(PDE, 1, writeToPre + 1)]
    case PDX => [Own(RD, 1, s.nXP), Own(RDA, 1, s.nXP), Own(WR, 1, s.nXP), Own(WRA, 1, s.nXP),
                 Own(ACT, 1, s.nXP), Own(PRE, 1, s.nXP), Own(PREA, 1, s.nXP), Own(REF, 1, s.nXP),
                 Own(PDE, 1, s.nXP), Own(SRE, 1, s.nXP)]
    case ACT => [Own(ACT, 1, s.nRRDS), Own(ACT, 4, s.nFAW), Own(PREA, 1, s.nRAS), Own(PDE, 1, 1)]
    case PREA => [Own(ACT, 1, s.nRP), Own(REF, 1, s.nRP), Own(SRE, 1, s.nRP)]
    case PRE => [Own(REF, 1, s.nRP), Own(SRE, 1, s.nRP)]
    case REF => [Own(ACT, 1, s.nRFC), Own(REF, 1, s.nRFC), Own(PDE, 1, 1)]
    case SRX => [Own(ACT, 1, s.nXS), Own(REF, 1, s.nXS), Own(PDE, 1, s.nXS), Own(SRE, 1, s.nXS)]
    case PDE => [Own(PDX, 1, s.nPD)]
    case SRE => [Own(SRX, 1, s.nCKESR)]
  }

  function HmcBankGroup(s: HmcSpeed, c: Command): (es: seq<Entry>)
    ensures forall t :: t in es ==> LooksBack(t)
  {
    var writeToReadL := s.nCWL + s.nBL + s.nWTRL;
    match c
    case RD | RDA => [Own(RD, 1, s.nCCDL), Own(RDA, 1, s.nCCDL)]
    case WR | WRA => [Own(WR, 1, s.nCCDL), Own(WRA, 1, s.nCCDL), Own(RD, 1, writeToReadL),
                      Own(RDA, 1, writeToReadL)]
    case ACT => [Own(ACT, 1, s.nRRDL)]
    case _ => []
  }

  function HmcBank(s: HmcSpeed, c: Command): (es: seq<Entry>)
    ensures forall t :: t in es ==> LooksBack(t)
  {
    var writeToPre := s.nCWL + s.nBL + s.nWR;
    match c
    case ACT => [Own(RD, 1, s.nRCD), Own(RDA, 1, s.nRCD), Own(WR, 1, s.nRCD), Own(WRA, 1, s.nRCD),
                 Own(ACT, 1, s.nRC), Own(PRE, 1, s.nRAS)]
    case RD => [Own(PRE, 1, s.nRTP)]
    case WR => [Own(PRE, 1, writeToPre)]
    case RDA => [Own(ACT, 1, s.nRTP + s.nRP)]
    case WRA => [Own(ACT, 1, writeToPre + s.nRP)]
    case PRE => [Own(ACT, 1, s.nRP)]
    case _ => []
  }

  function HmcTiming(s: HmcSpeed, level: nat, c: Command): (es: seq<Entry>)
    ensures forall t :: t in es ==> LooksBack(t)
  {
    if level == VAULT then HmcVault(s, c)
    else if level == BANK_GROUP then HmcBankGroup(s, c)
    else if level == BANK then HmcBank(s, c)
    else []
  }

  function Hmc(s: HmcSpeed, vaults: nat, bankGroups: nat, banks: nat): Spec
  {
    DeviceTables([vaults, bankGroups, banks], VAULT, (level: nat, c: Command) => HmcTiming(s, level, c))
  }

  // ---------------------------------------------------------------- DDR3, one channel

  const CHANNEL: nat := 0
  const RANK: nat := 1

  datatype Ddr3Speed = Ddr3Speed(
    nBL: int, nCCD: int, nRTRS: int, nCL: int, nRCD: int, nRP: int, nCWL: int, nRAS: int, nRC: int,
    nRTP: int, nWTR: int, nWR: int, nRRD: int, nFAW: int, nRFC: int, nPD: int, nXP: int,
    nCKESR: int, nXS: int)

  function Ddr3Channel(s: Ddr3Speed, c: Command): (es: seq<Entry>)
    ensures forall t :: t in es ==> LooksBack(t)
  {
    match c
    case RD | RDA => [Own(RD, 1, s.nBL), Own(RDA, 1, s.nBL)]
    case WR | WRA => [Own(WR, 1, s.nBL), Own(WRA, 1, s.nBL)]
    case _ => []
  }

  function Ddr3Rank(s: Ddr3Speed, c: Command): (es: seq<Entry>)
    ensures forall t :: t in es ==> LooksBack(t)
  {
    var readToWrite := s.nCL + s.nCCD + 2 - s.nCWL;
    var writeToRead := s.nCWL + s.nBL + s.nWTR;
    var writeToPre := s.nCWL + s.nBL + s.nWR;
    var switchRank := s.nBL + s.nRTRS;
    var sibReadToWrite := s.nCL + s.nBL + s.nRTRS - s.nCWL;
    var sibWriteToRead := s.nCWL + s.nBL + s.nRTRS - s.nCL;
    match c
    case RD => [Own(RD, 1, s.nCCD), Own(RDA, 1, s.nCCD), Own(WR, 1, readToWrite),
                Own(WRA, 1, readToWrite), Sib(RD, switchRank), Sib(RDA, switchRank),
                Sib(WR, switchRank), Sib(WRA, switchRank), Sib(WR, sibReadToWrite),
                Sib(WRA, sibReadToWrite), Own(PREA, 1, s.nRTP), Own(PDE, 1, s.nCL + s.nBL + 1)]
    case RDA => [Own(RD, 1, s.nCCD), Own(RDA, 1, s.nCCD), Own(WR, 1, readToWrite),
                 Own(WRA, 1, readToWrite), Sib(RD, switchRank), Sib(RDA, switchRank),
                 Sib(WR, switchRank), Sib(WRA, switchRank), Sib(WR, sibReadToWrite),
                 Sib(WRA, sibReadToWrite), Own(PDE, 1, s.nCL + s.nBL + 1)]
    case WR => [Own(WR, 1, s.nCCD), Own(WRA, 1, s.nCCD), Own(RD, 1, writeToRead),
                Own(RDA, 1, writeToRead), Sib(RD, sibWriteToRead), Sib(RDA, sibWriteToRead),
                Own(PREA, 1, writeToPre), Own(PDE, 1, writeToPre)]
    case WRA => [Own(WR, 1, s.nCCD), Own(WRA, 1, s.nCCD), Own(RD, 1, writeToRead),
                 Own(RDA, 1, writeToRead), Sib(RD, sibWriteToRead), Sib(RDA, sibWriteToRead),
                 Own(PDE, 1, writeToPre + 1)]
    case PDX => [Own(RD, 1, s.nXP), Own(RDA, 1, s.nXP), Own(WR, 1, s.nXP), Own(WRA, 1, s.nXP),
                 Own(ACT, 1, s.nXP), Own(PRE, 1, s.nXP), Own(PREA, 1, s.nXP), Own(REF, 1, s.nXP),
                 Own(PDE, 1, s.nXP), Own(SRE, 1, s.nXP)]
    case ACT => [Own(ACT, 1, s.nRRD), Own(ACT, 4, s.nFAW), Own(PREA, 1, s.nRAS), Own(PDE, 1, 1)]
    case PREA => [Own(ACT, 1, s.nRP), Own(REF, 1, s.nRP), Own(SRE, 1, s.nRP)]
    case PRE => [Own(REF, 1, s.nRP), Own(SRE, 1, s.nRP)]
    case REF => [Own(ACT, 1, s.nRFC), Own(REF, 1, s.nRFC), Own(PDE, 1, 1)]
    case SRX => [Own(ACT, 1, s.nXS), Own(REF, 1, s.nXS), Own(PDE, 1, s.nXS), Own(SRE, 1, s.nXS)]
    case PDE => [Own(PDX, 1, s.nPD)]
    case SRE => [Own(SRX, 1, s.nCKESR)]
  }

  function Ddr3Bank(s: Ddr3Speed, c: Command): (es: seq<Entry>)
    ensures forall t :: t in es ==> LooksBack(t)
  {
    var writeToPre := s.nCWL + s.nBL + s.nWR;
    match c
    case ACT => [Own(RD, 1, s.nRCD), Own(RDA, 1, s.nRCD), Own(WR, 1, s.nRCD), Own(WRA, 1, s.nRCD),
                 Own(ACT, 1, s.nRC), Own(PRE, 1, s.nRAS)]
    case RD => [Own(PRE, 1, s.nRTP)]
    case WR => [Own(PRE, 1, writeToPre)]
    case RDA => [Own(ACT, 1, s.nRTP + s.nRP)]
    case WRA => [Own(ACT, 1, writeToPre + s.nRP)]
    case PRE => [Own(ACT, 1, s.nRP)]
    case _ => []
  }

  function Ddr3Timing(s: Ddr3Speed, level: nat, c: Command): (es: seq<Entry>)
    ensures forall t :: t in es ==> LooksBack(t)
  {
    if level == CHANNEL then Ddr3Channel(s, c)
    else if level == RANK then Ddr3Rank(s, c)
    else if level == BANK then Ddr3Bank(s, c)
    else []
  }

  function Ddr3(s: Ddr3Speed, ranks: nat, banks: nat): Spec
  {
    DeviceTables([1, ranks, banks], RANK, (level: nat, c: Command) => Ddr3Timing(s, level, c))
  }
}
