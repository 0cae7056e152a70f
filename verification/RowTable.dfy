/** The controller's own record of open rows: which row each bank has open, how often it was accessed
    since it was opened, and when last. */
module RowTable {
  import opened Device

  datatype Row = Row(row: int, hits: int, timestamp: int)

  type Table = map<seq<int>, Row>

  function Group(addr: Address): seq<int> { addr[..ROW] }

  /** `c` closes the bank with this group. */
  predicate Closes(dev: Spec, c: Command, addr: Address, group: seq<int>) {
    var n := Scope(dev, c) + 1;
    IsClosing(c) && n <= |addr| && n <= |group| && group[..n] == addr[..n]
  }

  /** The source's assertions: an accessed row is the recorded one, and closing closes something. */
  ghost predicate Fits(dev: Spec, t: Table, c: Command, addr: Address) {
    && (IsAccessing(c) ==> Group(addr) in t && t[Group(addr)].row == addr[ROW])
    && (IsClosing(c) ==> exists g :: g in t && Closes(dev, c, addr, g))
  }

  function TableAfter(dev: Spec, t: Table, c: Command, addr: Address, clk: int): Table {
    var g := Group(addr);
    var afterOpen := if IsOpening(c) && g !in t then t[g := Row(addr[ROW], 0, clk)] else t;
    var accessed := if IsAccessing(c) && g in afterOpen
                    then afterOpen[g := afterOpen[g].(hits := afterOpen[g].hits + 1, timestamp := clk)] else afterOpen;
    map h | h in accessed && !Closes(dev, c, addr, h) :: accessed[h]
  }

  /** One command, seen from one record. */
  lemma RecordAfter(dev: Spec, t: Table, c: Command, addr: Address, clk: int, g: seq<int>)
    ensures var t' := TableAfter(dev, t, c, addr, clk);
            && (g in t' <==> (g in t || (IsOpening(c) && g == Group(addr))) && !Closes(dev, c, addr, g))
            && (g in t' ==>
                  t'[g] == var r := if g in t then t[g] else Row(addr[ROW], 0, clk);
                           if IsAccessing(c) && g == Group(addr) then r.(hits := r.hits + 1, timestamp := clk) else r)
  {
  }

  class RowTable {
    var table: Table

    constructor ()
      ensures table == map[]
    {
      table := map[];
    }

    method Update(dev: Spec, c: Command, addr: Address, clk: int)
      requires Fits(dev, table, c, addr)
      requires forall g :: g in table ==> Scope(dev, c) < |g| || !IsClosing(c)
      modifies this
      ensures table == TableAfter(dev, old(table), c, addr, clk)
    {
      var group := Group(addr);
      if IsOpening(c) {
        if group !in table {
          table := table[group := Row(addr[ROW], 0, clk)];
        }
      }
      if IsAccessing(c) {
        assert group in table && table[group].row == addr[ROW];
        table := table[group := table[group].(hits := table[group].hits + 1, timestamp := clk)];
      }
      if IsClosing(c) {
        Remove(dev, c, addr);
        assert exists g :: g in old(table) && g !in table;
      }
    }

    /** Erase the record of every bank that `c` closes. */
    method Remove(dev: Spec, c: Command, addr: Address)
      modifies this
      ensures table == map g | g in old(table) && !Closes(dev, c, addr, g) :: old(table)[g]
    {
      var groups := table.Keys;
      while groups != {}
        invariant groups <= old(table).Keys
        invariant table == map g | g in old(table) && (g in groups || !Closes(dev, c, addr, g)) :: old(table)[g]
        decreases groups
      {
        var g :| g in groups;
        groups := groups - {g};
        if Closes(dev, c, addr, g) {
          table := table - {g};
        }
      }
    }
  }
}
