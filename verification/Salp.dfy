/** Banks whose subarrays can be open at the same time: three protocols, and what each of them keeps. */
module Salp {

  datatype Kind = SALP1 | SALP2 | MASA

  datatype State = Opened | Closed | Selected

  /** The open rows of a subarray stand for the keys of the source's row map. */
  datatype SubArray = SubArray(state: State, rows: set<int>)

  /** Only SALP-1 uses the bank's own state. */
  datatype Bank = Bank(state: State, subs: seq<SubArray>)

  datatype Command = ACT | SASEL | PRE | PRER | RD | WR | REF | PRE_OTHER

  /** A column access, or a refresh of the whole rank. */
  datatype Request = Access(write: bool, bank: nat, sub: nat, row: int) | Refresh

  type Rank = seq<Bank>

  predicate Fits(rank: Rank, r: Request) {
    r.Access? ==> r.bank < |rank| && r.sub < |rank[r.bank].subs|
  }

  function Column(r: Request): Command {
    match r
    case Access(write, _, _, _) => if write then WR else RD
    case Refresh => REF
  }

  // ---------------------------------------------------------------- what a request needs first

  predicate IsOpen(s: SubArray) { s.state != Closed }

  predicate AnyOpen(k: Kind, rank: Rank) {
    exists b :: 0 <= b < |rank| &&
      if k == SALP1 then rank[b].state != Closed
      else exists i :: 0 <= i < |rank[b].subs| && IsOpen(rank[b].subs[i])
  }

  predicate OtherOpened(subs: seq<SubArray>, sub: nat) {
    exists i :: 0 <= i < |subs| && i != sub && subs[i].state == Opened
  }

  function Decode(k: Kind, rank: Rank, r: Request): Command
    requires Fits(rank, r)
  {
    match r
    case Refresh => if AnyOpen(k, rank) then PRER else REF
    case Access(_, b, i, row) =>
      var bank := rank[b];
      var s := bank.subs[i];
      match k
      case SALP1 =>
        if bank.state == Closed then ACT
        else if row in s.rows then Column(r)
        else if s.rows != {} then PRE else PRE_OTHER
      case SALP2 =>
        if s.state == Closed then ACT
        else if row !in s.rows then PRE
        else if OtherOpened(bank.subs, i) then PRE_OTHER else Column(r)
      case MASA =>
        if s.state == Closed then ACT
        else if row !in s.rows then PRE
        else if s.state == Opened then SASEL else Column(r)
  }

  /** The first subarray other than `sub` that is open, or number 0. */
  function Offending(subs: seq<SubArray>, sub: nat): (j: nat)
    ensures OtherOpened(subs, sub) ==> j < |subs| && j != sub && subs[j].state == Opened
  {
    FirstOther(subs, sub, 0)
  }

  function FirstOther(subs: seq<SubArray>, sub: nat, from: nat): (j: nat)
    requires from <= |subs|
    ensures (exists i :: from <= i < |subs| && i != sub && subs[i].state == Opened) ==>
              from <= j < |subs| && j != sub && subs[j].state == Opened
    decreases |subs| - from
  {
    if from == |subs| then 0
    else if from != sub && subs[from].state == Opened then from
    else FirstOther(subs, sub, from + 1)
  }

  /** The subarray that a request's command is sent to. */
  function Target(k: Kind, rank: Rank, r: Request): nat
    requires r.Access? && Fits(rank, r)
  {
    if Decode(k, rank, r) == PRE_OTHER then Offending(rank[r.bank].subs, r.sub) else r.sub
  }

  // ---------------------------------------------------------------- what a command does

  const SHUT := SubArray(Closed, {})

  /** Closing a whole rank, for one bank; only SALP-1 has a bank state to close. */
  function CloseBank(k: Kind, b: Bank): Bank {
    Bank(if k == SALP1 then Closed else b.state, seq(|b.subs|, _ => SHUT))
  }

  /** The first other subarray that is selected goes back to being open. */
  function Deselect(subs: seq<SubArray>, sub: nat, from: nat): (after: seq<SubArray>)
    requires from <= |subs|
    ensures |after| == |subs|
    decreases |subs| - from
  {
    if from == |subs| then subs
    else if from != sub && subs[from].state == Selected then subs[from := subs[from].(state := Opened)]
    else Deselect(subs, sub, from + 1)
  }

  /** A command to one bank. */
  function InBank(k: Kind, bank: Bank, c: Command, i: nat, row: int): (after: Bank)
    requires i < |bank.subs|
    ensures |after.subs| == |bank.subs|
  {
    var s := bank.subs[i];
    match k
    case SALP1 =>
      (match c
       case ACT => Bank(Opened, bank.subs[i := SubArray(Opened, s.rows + {row})])
       case PRE | PRE_OTHER => Bank(Closed, bank.subs[i := SHUT])
       case _ => bank)
    case SALP2 =>
      (match c
       case ACT => bank.(subs := bank.subs[i := SubArray(Opened, s.rows + {row})])
       case PRE | PRE_OTHER => bank.(subs := bank.subs[i := SHUT])
       case _ => bank)
    case MASA =>
      (match c
       case ACT => bank.(subs := Deselect(bank.subs[i := SubArray(Selected, s.rows + {row})], i, 0))
       case SASEL => bank.(subs := Deselect(bank.subs[i := SubArray(Selected, s.rows)], i, 0))
       case PRE => bank.(subs := bank.subs[i := SHUT])
       case _ => bank)
  }

  /** The rank after the request's next command. */
  function Step(k: Kind, rank: Rank, r: Request): Rank
    requires Fits(rank, r)
  {
    var c := Decode(k, rank, r);
    match r
    case Refresh => if c == PRER then seq(|rank|, b requires 0 <= b < |rank| => CloseBank(k, rank[b])) else rank
    case Access(_, b, _, row) =>
      var i := Target(k, rank, r);
      if i < |rank[b].subs| then rank[b := InBank(k, rank[b], c, i, row)] else rank
  }

  // ---------------------------------------------------------------- what the protocols keep

  predicate OneRow(s: SubArray) { exists row :: row in s.rows && s.rows == {row} }

  /** A subarray is closed and holds no row, or is open and holds exactly one. */
  predicate Proper(s: SubArray) { if s.state == Closed then s.rows == {} else OneRow(s) }

  /** SALP-1: the bank is open exactly if one subarray is, and there is never more than one. */
  predicate OneOpen(bank: Bank) {
    && (bank.state == Opened || bank.state == Closed)
    && (bank.state == Opened <==> exists i :: 0 <= i < |bank.subs| && IsOpen(bank.subs[i]))
    && forall i, j ::
         0 <= i < |bank.subs| && 0 <= j < |bank.subs| && IsOpen(bank.subs[i]) && IsOpen(bank.subs[j]) ==> i == j
  }

  /** MASA: at most one subarray of a bank is selected. */
  predicate OneSelected(bank: Bank) {
    forall i, j :: 0 <= i < j < |bank.subs| ==> bank.subs[i].state != Selected || bank.subs[j].state != Selected
  }

  predicate BankKeeps(k: Kind, bank: Bank) {
    && (forall i :: 0 <= i < |bank.subs| ==> Proper(bank.subs[i]) && (k != MASA ==> bank.subs[i].state != Selected))
    && (k == SALP1 ==> OneOpen(bank))
    && (k == MASA ==> OneSelected(bank))
  }

  predicate Keeps(k: Kind, rank: Rank) {
    forall b :: 0 <= b < |rank| ==> BankKeeps(k, rank[b])
  }

  lemma DeselectIs(subs: seq<SubArray>, sub: nat, from: nat)
    requires from <= |subs|
    requires forall i :: 0 <= i < from ==> i == sub || subs[i].state != Selected
    requires forall i, j :: 0 <= i < j < |subs| && i != sub && j != sub ==>
               subs[i].state != Selected || subs[j].state != Selected
    ensures forall i :: 0 <= i < |subs| ==>
              Deselect(subs, sub, from)[i] ==
              if i != sub && subs[i].state == Selected then subs[i].(state := Opened) else subs[i]
    decreases |subs| - from
  {
    if from < |subs| && (from == sub || subs[from].state != Selected) {
      DeselectIs(subs, sub, from + 1);
    }
  }

  lemma Salp1Keeps(bank: Bank, i: nat, row: int, write: bool)
    requires i < |bank.subs| && BankKeeps(SALP1, bank)
    ensures var c := Decode(SALP1, [bank], Access(write, 0, i, row));
            var t := if c == PRE_OTHER then Offending(bank.subs, i) else i;
            && (c == PRE_OTHER ==> OtherOpened(bank.subs, i))
            && t < |bank.subs| && BankKeeps(SALP1, InBank(SALP1, bank, c, t, row))
  {
    var s := bank.subs[i];
    assert Proper(s);
    if bank.state == Opened && s.rows == {} {
      var j :| 0 <= j < |bank.subs| && IsOpen(bank.subs[j]);
      assert j != i && bank.subs[j].state == Opened;
    }
    if bank.state == Closed {
      var after := InBank(SALP1, bank, ACT, i, row);
      assert !IsOpen(s) && s.rows + {row} == {row};
      assert after.subs[i] == SubArray(Opened, {row}) && OneRow(after.subs[i]);
    }
  }

  lemma Salp2Keeps(bank: Bank, i: nat, row: int, write: bool)
    requires i < |bank.subs| && BankKeeps(SALP2, bank)
    ensures var c := Decode(SALP2, [bank], Access(write, 0, i, row));
            var t := if c == PRE_OTHER then Offending(bank.subs, i) else i;
            && (c == PRE_OTHER ==> OtherOpened(bank.subs, i))
            && t < |bank.subs| && BankKeeps(SALP2, InBank(SALP2, bank, c, t, row))
  {
    var s := bank.subs[i];
    assert Proper(s);
    if s.state == Closed {
      assert s.rows + {row} == {row};
      assert OneRow(InBank(SALP2, bank, ACT, i, row).subs[i]);
    }
  }

  lemma MasaKeeps(bank: Bank, i: nat, row: int, write: bool)
    requires i < |bank.subs| && BankKeeps(MASA, bank)
    ensures var c := Decode(MASA, [bank], Access(write, 0, i, row));
            c != PRE_OTHER && BankKeeps(MASA, InBank(MASA, bank, c, i, row))
  {
    var s := bank.subs[i];
    var c := Decode(MASA, [bank], Access(write, 0, i, row));
    assert Proper(s);
    if c == ACT || c == SASEL {
      var rows := if c == ACT then s.rows + {row} else s.rows;
      assert c == ACT ==> rows == {row};
      var picked := SubArray(Selected, rows);
      assert Proper(picked);
      var subs := bank.subs[i := picked];
      DeselectIs(subs, i, 0);
      hide Deselect;
    }
  }

  /** Only the request's own bank matters. */
  lemma InOneBank(k: Kind, rank: Rank, r: Request)
    requires r.Access? && Fits(rank, r)
    ensures Decode(k, rank, r) == Decode(k, [rank[r.bank]], r.(bank := 0))
  {
  }

  lemma AccessKeeps(k: Kind, rank: Rank, r: Request)
    requires Fits(rank, r) && r.Access? && Keeps(k, rank)
    ensures Keeps(k, Step(k, rank, r)) && Target(k, rank, r) < |rank[r.bank].subs|
    ensures Decode(k, rank, r) == PRE_OTHER ==> OtherOpened(rank[r.bank].subs, r.sub)
  {
    InOneBank(k, rank, r);
    match k {
      case SALP1 => Salp1Keeps(rank[r.bank], r.sub, r.row, r.write);
      case SALP2 => Salp2Keeps(rank[r.bank], r.sub, r.row, r.write);
      case MASA => MasaKeeps(rank[r.bank], r.sub, r.row, r.write);
    }
    hide BankKeeps, InBank, Decode, Offending;
  }

  lemma RefreshKeeps(k: Kind, rank: Rank)
    requires Keeps(k, rank)
    ensures Keeps(k, Step(k, rank, Refresh))
  {
  }

  /** After any requests, each of which had its next command issued. */
  function Run(k: Kind, rank: Rank, requests: seq<Request>): (after: Rank)
    requires forall i :: 0 <= i < |requests| ==> Fits(rank, requests[i])
    ensures |after| == |rank| && forall b :: 0 <= b < |rank| ==> |after[b].subs| == |rank[b].subs|
  {
    if requests == [] then rank
    else
      var before := Run(k, rank, requests[..|requests| - 1]);
      assert Fits(rank, requests[|requests| - 1]);
      Step(k, before, requests[|requests| - 1])
  }

  /** All banks closed. */
  predicate Fresh(rank: Rank) {
    forall b :: 0 <= b < |rank| ==>
      rank[b].state == Closed && forall i :: 0 <= i < |rank[b].subs| ==> rank[b].subs[i] == SHUT
  }

  lemma {:induction false} RunKeeps(k: Kind, rank: Rank, requests: seq<Request>)
    requires Fresh(rank) && forall i :: 0 <= i < |requests| ==> Fits(rank, requests[i])
    ensures Keeps(k, Run(k, rank, requests))
  {
    if requests != [] {
      var last := requests[|requests| - 1];
      assert Fits(rank, last);
      RunKeeps(k, rank, requests[..|requests| - 1]);
      var before := Run(k, rank, requests[..|requests| - 1]);
      if last.Access? {
        AccessKeeps(k, before, last);
      } else {
        RefreshKeeps(k, before);
      }
    }
  }

  /** The subarray that a column command goes to holds its row open; with SALP-1 and SALP-2 no other subarray of
      the bank is open, and with MASA no other is selected. */
  predicate Reachable(k: Kind, bank: Bank, i: nat, row: int)
    requires i < |bank.subs|
  {
    && bank.subs[i].rows == {row}
    && match k
       case MASA =>
         bank.subs[i].state == Selected && forall j :: 0 <= j < |bank.subs| && j != i ==> bank.subs[j].state != Selected
       case _ =>
         bank.subs[i].state == Opened && forall j :: 0 <= j < |bank.subs| && j != i ==> bank.subs[j].state == Closed
  }

  /** In any run, a column command is the next one exactly when its row can be reached. */
  lemma AccessesReachTheirRow(k: Kind, rank: Rank, requests: seq<Request>, r: Request)
    requires Fresh(rank) && (forall i :: 0 <= i < |requests| ==> Fits(rank, requests[i])) && Fits(rank, r) && r.Access?
    ensures var now := Run(k, rank, requests);
            Decode(k, now, r) == Column(r) <==> Reachable(k, now[r.bank], r.sub, r.row)
  {
    RunKeeps(k, rank, requests);
    hide Run;
    AccessReaches(k, Run(k, rank, requests), r);
  }

  lemma AccessReaches(k: Kind, rank: Rank, r: Request)
    requires Keeps(k, rank) && Fits(rank, r) && r.Access?
    ensures Decode(k, rank, r) == Column(r) <==> Reachable(k, rank[r.bank], r.sub, r.row)
  {
    var bank := rank[r.bank];
    assert BankKeeps(k, bank) && Proper(bank.subs[r.sub]);
  }

  /** In any run, a subarray that a request wants closed for its sake is another one, and open. */
  lemma OthersAreOpen(k: Kind, rank: Rank, requests: seq<Request>, r: Request)
    requires Fresh(rank) && (forall i :: 0 <= i < |requests| ==> Fits(rank, requests[i])) && Fits(rank, r) && r.Access?
    ensures var now := Run(k, rank, requests);
            Decode(k, now, r) == PRE_OTHER ==>
              var j := Target(k, now, r);
              j < |now[r.bank].subs| && j != r.sub && now[r.bank].subs[j].state == Opened
  {
    RunKeeps(k, rank, requests);
    hide Run;
    AccessKeeps(k, Run(k, rank, requests), r);
  }

  // ---------------------------------------------------------------- the order of the commands

  /** Only subarray `j` of bank `b` is different, and, with SALP-1, the bank's own state. */
  ghost predicate OnlyChanged(k: Kind, was: Rank, now: Rank, b: nat, j: nat, s: SubArray)
    requires b < |was| && j < |was[b].subs|
  {
    now == was[b := Bank(if k == SALP1 then s.state else was[b].state, was[b].subs[j := s])]
  }

  /** Subarray `i` of bank `b` is selected with these rows; if another one was, it is now only open. */
  ghost predicate OnlySelected(was: Rank, now: Rank, b: nat, i: nat, rows: set<int>)
    requires b < |was| && i < |was[b].subs|
  {
    && |now| == |was| && (forall c :: 0 <= c < |was| && c != b ==> now[c] == was[c])
    && now[b].state == was[b].state && |now[b].subs| == |was[b].subs| && now[b].subs[i] == SubArray(Selected, rows)
    && forall j :: 0 <= j < |was[b].subs| && j != i ==>
         now[b].subs[j] == if was[b].subs[j].state == Selected then was[b].subs[j].(state := Opened) else was[b].subs[j]
  }

  ghost predicate OtherOpen(was: Rank, b: nat, i: nat, j: nat)
    requires b < |was|
  {
    j < |was[b].subs| && j != i && IsOpen(was[b].subs[j])
  }

  /** SALP-1 closes what is open in the bank, be it another row or another subarray, before it opens anything. */
  lemma Salp1Order(rank: Rank, requests: seq<Request>, r: Request)
    requires Fresh(rank) && (forall i :: 0 <= i < |requests| ==> Fits(rank, requests[i])) && Fits(rank, r) && r.Access?
    ensures var was := Run(SALP1, rank, requests);
            var now, b, i := Step(SALP1, was, r), r.bank, r.sub;
            var s := was[b].subs[i];
            && (forall j :: OtherOpen(was, b, i, j) ==> OnlyChanged(SALP1, was, now, b, j, SHUT))
            && (IsOpen(s) && s.rows != {r.row} ==> OnlyChanged(SALP1, was, now, b, i, SHUT))
            && (IsOpen(s) && s.rows == {r.row} ==> now == was)
            && (!IsOpen(s) && (forall j: nat :: !OtherOpen(was, b, i, j)) ==>
                  OnlyChanged(SALP1, was, now, b, i, SubArray(Opened, {r.row})))
  {
    RunKeeps(SALP1, rank, requests);
    hide Run;
    Salp1Next(Run(SALP1, rank, requests), r);
  }

  lemma Salp1Next(was: Rank, r: Request)
    requires Keeps(SALP1, was) && Fits(was, r) && r.Access?
    ensures var now, b, i := Step(SALP1, was, r), r.bank, r.sub;
            var s := was[b].subs[i];
            && (forall j :: OtherOpen(was, b, i, j) ==> OnlyChanged(SALP1, was, now, b, j, SHUT))
            && (IsOpen(s) && s.rows != {r.row} ==> OnlyChanged(SALP1, was, now, b, i, SHUT))
            && (IsOpen(s) && s.rows == {r.row} ==> now == was)
            && (!IsOpen(s) && (forall j: nat :: !OtherOpen(was, b, i, j)) ==>
                  OnlyChanged(SALP1, was, now, b, i, SubArray(Opened, {r.row})))
  {
    var bank, s := was[r.bank], was[r.bank].subs[r.sub];
    assert BankKeeps(SALP1, bank) && Proper(s);
    AccessKeeps(SALP1, was, r);
    assert s.rows == {} ==> s.rows + {r.row} == {r.row};
    if bank.state == Opened {
      var j: nat :| j < |bank.subs| && IsOpen(bank.subs[j]);
      assert j == r.sub || OtherOpen(was, r.bank, r.sub, j);
    }
  }

  /** SALP-2 opens the request's own row first, whatever else is open in the bank, and only then closes the others,
      one by one. */
  lemma Salp2Order(rank: Rank, requests: seq<Request>, r: Request)
    requires Fresh(rank) && (forall i :: 0 <= i < |requests| ==> Fits(rank, requests[i])) && Fits(rank, r) && r.Access?
    ensures var was := Run(SALP2, rank, requests);
            var now, b, i := Step(SALP2, was, r), r.bank, r.sub;
            var s := was[b].subs[i];
            && (!IsOpen(s) ==> OnlyChanged(SALP2, was, now, b, i, SubArray(Opened, {r.row})))
            && (IsOpen(s) && s.rows != {r.row} ==> OnlyChanged(SALP2, was, now, b, i, SHUT))
            && (IsOpen(s) && s.rows == {r.row} ==>
                  if exists j: nat :: OtherOpen(was, b, i, j) then
                    exists j: nat :: OtherOpen(was, b, i, j) && OnlyChanged(SALP2, was, now, b, j, SHUT)
                  else now == was)
            && (Decode(SALP2, was, r) == PRE_OTHER ==> s == SubArray(Opened, {r.row}))
  {
    RunKeeps(SALP2, rank, requests);
    hide Run;
    Salp2Next(Run(SALP2, rank, requests), r);
  }

  lemma Salp2Next(was: Rank, r: Request)
    requires Keeps(SALP2, was) && Fits(was, r) && r.Access?
    ensures var now, b, i := Step(SALP2, was, r), r.bank, r.sub;
            var s := was[b].subs[i];
            && (!IsOpen(s) ==> OnlyChanged(SALP2, was, now, b, i, SubArray(Opened, {r.row})))
            && (IsOpen(s) && s.rows != {r.row} ==> OnlyChanged(SALP2, was, now, b, i, SHUT))
            && (IsOpen(s) && s.rows == {r.row} ==>
                  if exists j: nat :: OtherOpen(was, b, i, j) then
                    exists j: nat :: OtherOpen(was, b, i, j) && OnlyChanged(SALP2, was, now, b, j, SHUT)
                  else now == was)
            && (Decode(SALP2, was, r) == PRE_OTHER ==> s == SubArray(Opened, {r.row}))
  {
    var bank, s := was[r.bank], was[r.bank].subs[r.sub];
    assert BankKeeps(SALP2, bank) && Proper(s);
    AccessKeeps(SALP2, was, r);
    assert s.rows == {} ==> s.rows + {r.row} == {r.row};
    if OtherOpened(bank.subs, r.sub) {
      var j := Offending(bank.subs, r.sub);
      assert OtherOpen(was, r.bank, r.sub, j);
    } else {
      assert forall j: nat :: !OtherOpen(was, r.bank, r.sub, j);
    }
  }

  /** MASA leaves other subarrays open, and selects the one that the request is for. */
  lemma MasaOrder(rank: Rank, requests: seq<Request>, r: Request)
    requires Fresh(rank) && (forall i :: 0 <= i < |requests| ==> Fits(rank, requests[i])) && Fits(rank, r) && r.Access?
    ensures var was := Run(MASA, rank, requests);
            var now, b, i := Step(MASA, was, r), r.bank, r.sub;
            var s := was[b].subs[i];
            && (!IsOpen(s) ==> OnlySelected(was, now, b, i, {r.row}))
            && (IsOpen(s) && s.rows != {r.row} ==> OnlyChanged(MASA, was, now, b, i, SHUT))
            && (s == SubArray(Opened, {r.row}) ==> OnlySelected(was, now, b, i, {r.row}))
            && (s == SubArray(Selected, {r.row}) ==> now == was)
  {
    RunKeeps(MASA, rank, requests);
    hide Run;
    MasaNext(Run(MASA, rank, requests), r);
  }

  lemma MasaNext(was: Rank, r: Request)
    requires Keeps(MASA, was) && Fits(was, r) && r.Access?
    ensures var now, b, i := Step(MASA, was, r), r.bank, r.sub;
            var s := was[b].subs[i];
            && (!IsOpen(s) ==> OnlySelected(was, now, b, i, {r.row}))
            && (IsOpen(s) && s.rows != {r.row} ==> OnlyChanged(MASA, was, now, b, i, SHUT))
            && (s == SubArray(Opened, {r.row}) ==> OnlySelected(was, now, b, i, {r.row}))
            && (s == SubArray(Selected, {r.row}) ==> now == was)
  {
    var bank, s := was[r.bank], was[r.bank].subs[r.sub];
    assert BankKeeps(MASA, bank) && Proper(s);
    AccessKeeps(MASA, was, r);
    assert s.rows == {} ==> s.rows + {r.row} == {r.row};
    DeselectIs(bank.subs[r.sub := SubArray(Selected, s.rows + {r.row})], r.sub, 0);
    DeselectIs(bank.subs[r.sub := SubArray(Selected, s.rows)], r.sub, 0);
    hide Deselect, Keeps;
  }

  /** A refresh closes the whole rank first, if anything is open in it. */
  lemma RefreshOrder(k: Kind, rank: Rank, requests: seq<Request>)
    requires Fresh(rank) && forall i :: 0 <= i < |requests| ==> Fits(rank, requests[i])
    ensures var was := Run(k, rank, requests);
            var now := Step(k, was, Refresh);
            && |now| == |was| && Fresh(now)
            && (Decode(k, was, Refresh) == REF <==> Fresh(was)) && (Fresh(was) ==> now == was)
  {
    RunKeeps(k, rank, requests);
    var was := Run(k, rank, requests);
    FreshStates(k, rank, requests);
    hide Run;
    if !AnyOpen(k, was) {
      forall b, i | 0 <= b < |was| && 0 <= i < |was[b].subs|
        ensures was[b].subs[i] == SHUT
      {
        assert BankKeeps(k, was[b]) && Proper(was[b].subs[i]);
      }
    }
  }

  /** Without SALP-1 no bank ever changes its own state. */
  lemma {:induction false} FreshStates(k: Kind, rank: Rank, requests: seq<Request>)
    requires Fresh(rank) && forall i :: 0 <= i < |requests| ==> Fits(rank, requests[i])
    ensures k != SALP1 ==> forall b :: 0 <= b < |rank| ==> Run(k, rank, requests)[b].state == Closed
  {
    if requests != [] {
      assert Fits(rank, requests[|requests| - 1]);
      FreshStates(k, rank, requests[..|requests| - 1]);
      hide Decode, Offending, Deselect;
    }
  }

  // ---------------------------------------------------------------- how long a request takes by itself

  function OpenBut(subs: seq<SubArray>, sub: nat, from: nat): nat
    requires from <= |subs|
    decreases |subs| - from
  {
    if from == |subs| then 0
    else (if from != sub && subs[from].state == Opened then 1 else 0) + OpenBut(subs, sub, from + 1)
  }

  /** The commands that must come before the request's own. */
  function Work(k: Kind, rank: Rank, r: Request): nat
    requires Fits(rank, r)
  {
    match r
    case Refresh => if AnyOpen(k, rank) then 1 else 0
    case Access(_, b, i, row) =>
      var s := rank[b].subs[i];
      match k
      case SALP1 => if rank[b].state == Closed then 1 else if row in s.rows then 0 else 2
      case SALP2 => OpenBut(rank[b].subs, i, 0) + if s.state == Closed then 1 else if row in s.rows then 0 else 2
      case MASA => if s.state == Closed then 1 else if row !in s.rows then 2 else if s.state == Opened then 1 else 0
  }

  lemma OpenButClosing(subs: seq<SubArray>, sub: nat, j: nat, from: nat)
    requires from <= |subs| && j < |subs| && j != sub && subs[j].state == Opened
    ensures OpenBut(subs[j := SHUT], sub, from) == OpenBut(subs, sub, from) - if from <= j then 1 else 0
    decreases |subs| - from
  {
    if from < |subs| {
      OpenButClosing(subs, sub, j, from + 1);
    }
  }

  lemma OpenButSame(subs: seq<SubArray>, sub: nat, s: SubArray, from: nat)
    requires from <= |subs| && sub < |subs|
    ensures OpenBut(subs[sub := s], sub, from) == OpenBut(subs, sub, from)
    decreases |subs| - from
  {
    if from < |subs| {
      OpenButSame(subs, sub, s, from + 1);
    }
  }

  lemma NoneOpened(subs: seq<SubArray>, sub: nat, from: nat)
    requires from <= |subs|
    ensures OpenBut(subs, sub, from) == 0 <==> forall j :: from <= j < |subs| && j != sub ==> subs[j].state != Opened
    decreases |subs| - from
  {
    if from < |subs| {
      NoneOpened(subs, sub, from + 1);
    }
  }

  /** Every command issued for a request brings its own one step closer, and when nothing is left to do, its own
      is next. */
  lemma WorkDecreases(k: Kind, rank: Rank, r: Request)
    requires Keeps(k, rank) && Fits(rank, r)
    ensures Fits(Step(k, rank, r), r)
    ensures Decode(k, rank, r) != Column(r) ==> Work(k, Step(k, rank, r), r) == Work(k, rank, r) - 1
    ensures Decode(k, rank, r) == Column(r) <==> Work(k, rank, r) == 0
  {
    match r
    case Refresh =>
    case Access(_, _, _, _) =>
      match k {
        case SALP1 => WorkSalp1(rank, r);
        case SALP2 => WorkSalp2(rank, r);
        case MASA => WorkMasa(rank, r);
      }
  }

  lemma WorkSalp1(rank: Rank, r: Request)
    requires Keeps(SALP1, rank) && Fits(rank, r) && r.Access?
    ensures Decode(SALP1, rank, r) != Column(r) ==> Work(SALP1, Step(SALP1, rank, r), r) == Work(SALP1, rank, r) - 1
    ensures Decode(SALP1, rank, r) == Column(r) <==> Work(SALP1, rank, r) == 0
  {
    AccessKeeps(SALP1, rank, r);
    assert BankKeeps(SALP1, rank[r.bank]);
  }

  lemma WorkSalp2(rank: Rank, r: Request)
    requires Keeps(SALP2, rank) && Fits(rank, r) && r.Access?
    ensures Decode(SALP2, rank, r) != Column(r) ==> Work(SALP2, Step(SALP2, rank, r), r) == Work(SALP2, rank, r) - 1
    ensures Decode(SALP2, rank, r) == Column(r) <==> Work(SALP2, rank, r) == 0
  {
    AccessKeeps(SALP2, rank, r);
    var bank := rank[r.bank];
    var s := bank.subs[r.sub];
    NoneOpened(bank.subs, r.sub, 0);
    OpenButSame(bank.subs, r.sub, SHUT, 0);
    OpenButSame(bank.subs, r.sub, SubArray(Opened, s.rows + {r.row}), 0);
    if Decode(SALP2, rank, r) == PRE_OTHER {
      OpenButClosing(bank.subs, r.sub, Target(SALP2, rank, r), 0);
    }
    hide OpenBut, Keeps;
  }

  lemma WorkMasa(rank: Rank, r: Request)
    requires Keeps(MASA, rank) && Fits(rank, r) && r.Access?
    ensures Decode(MASA, rank, r) != Column(r) ==> Work(MASA, Step(MASA, rank, r), r) == Work(MASA, rank, r) - 1
    ensures Decode(MASA, rank, r) == Column(r) <==> Work(MASA, rank, r) == 0
  {
    AccessKeeps(MASA, rank, r);
    var bank := rank[r.bank];
    var s := bank.subs[r.sub];
    assert BankKeeps(MASA, bank);
    DeselectIs(bank.subs[r.sub := SubArray(Selected, s.rows + {r.row})], r.sub, 0);
    DeselectIs(bank.subs[r.sub := SubArray(Selected, s.rows)], r.sub, 0);
    hide Deselect, Keeps;
  }

  // ---------------------------------------------------------------- the device

  class Device {
    const kind: Kind
    var rank: Rank

    constructor (kind: Kind, banks: nat, subs: nat)
      ensures this.kind == kind && Fresh(rank) && |rank| == banks && Keeps(kind, rank)
      ensures forall b :: 0 <= b < banks ==> |rank[b].subs| == subs
    {
      this.kind := kind;
      rank := seq(banks, _ => Bank(Closed, seq(subs, _ => SHUT)));
    }

    method SomethingOpen() returns (open: bool)
      ensures open == AnyOpen(kind, rank)
    {
      for b := 0 to |rank|
        invariant forall c :: 0 <= c < b ==>
                    if kind == SALP1 then rank[c].state == Closed
                    else forall i :: 0 <= i < |rank[c].subs| ==> !IsOpen(rank[c].subs[i])
      {
        if kind == SALP1 {
          if rank[b].state != Closed {
            return true;
          }
        } else {
          for i := 0 to |rank[b].subs|
            invariant forall j :: 0 <= j < i ==> !IsOpen(rank[b].subs[j])
          {
            if rank[b].subs[i].state != Closed {
              return true;
            }
          }
        }
      }
      return false;
    }

    /** Another subarray of the bank that is open, or number 0 if there is none. */
    method OffendingSubarray(b: nat, sub: nat) returns (other: nat, found: bool)
      requires b < |rank|
      ensures other == Offending(rank[b].subs, sub) && found == OtherOpened(rank[b].subs, sub)
    {
      var i := 0;
      while i < |rank[b].subs|
        invariant i <= |rank[b].subs| && FirstOther(rank[b].subs, sub, 0) == FirstOther(rank[b].subs, sub, i)
        invariant forall j :: 0 <= j < i && j != sub ==> rank[b].subs[j].state != Opened
      {
        if i != sub && rank[b].subs[i].state == Opened {
          return i, true;
        }
        i := i + 1;
      }
      return 0, false;
    }

    method NextCommand(r: Request) returns (c: Command)
      requires Fits(rank, r)
      ensures c == Decode(kind, rank, r)
    {
      match r
      case Refresh =>
        var open := SomethingOpen();
        c := if open then PRER else REF;
      case Access(_, b, i, row) =>
        var s := rank[b].subs[i];
        match kind
        case SALP1 =>
          c := if rank[b].state == Closed then ACT else if row in s.rows then Column(r)
               else if |s.rows| != 0 then PRE else PRE_OTHER;
        case SALP2 =>
          if s.state == Closed {
            c := ACT;
          } else if row in s.rows {
            var _, found := OffendingSubarray(b, i);
            c := if found then PRE_OTHER else Column(r);
          } else {
            c := PRE;
          }
        case MASA =>
          c := if s.state == Closed then ACT else if row !in s.rows then PRE
               else if s.state == Opened then SASEL else Column(r);
    }

    /** A subarray is selected, and the one that was selected is only open. */
    method Select(b: nat, i: nat, rows: set<int>)
      requires b < |rank| && i < |rank[b].subs|
      modifies this
      ensures rank ==
                old(rank)[b := old(rank)[b].(subs := Deselect(old(rank)[b].subs[i := SubArray(Selected, rows)], i, 0))]
    {
      var subs := rank[b].subs[i := SubArray(Selected, rows)];
      var j := 0;
      while j < |subs|
        invariant j <= |subs| && Deselect(subs, i, 0) == Deselect(subs, i, j)
      {
        if j != i && subs[j].state == Selected {
          rank := rank[b := rank[b].(subs := subs[j := subs[j].(state := Opened)])];
          return;
        }
        j := j + 1;
      }
      rank := rank[b := rank[b].(subs := subs)];
    }

    method CloseRank()
      modifies this
      ensures |rank| == |old(rank)| && forall b :: 0 <= b < |rank| ==> rank[b] == CloseBank(kind, old(rank)[b])
    {
      for b := 0 to |rank|
        invariant |rank| == |old(rank)|
        invariant forall c :: 0 <= c < |rank| ==>
                    rank[c] == if c < b then CloseBank(kind, old(rank)[c]) else old(rank)[c]
      {
        var subs := rank[b].subs;
        for i := 0 to |subs|
          invariant |subs| == |rank[b].subs| && forall j :: 0 <= j < i ==> subs[j] == SHUT
        {
          subs := subs[i := SHUT];
        }
        assert subs == CloseBank(kind, rank[b]).subs;
        rank := rank[b := Bank(if kind == SALP1 then Closed else rank[b].state, subs)];
      }
    }

    /** A command to a subarray of a bank. */
    method Change(c: Command, b: nat, i: nat, row: int)
      requires b < |rank| && i < |rank[b].subs|
      modifies this
      ensures rank == old(rank)[b := InBank(kind, old(rank)[b], c, i, row)]
    {
      var bank := rank[b];
      var s := bank.subs[i];
      assert rank[b := bank] == rank;
      match c
      case ACT =>
        if kind == MASA {
          Select(b, i, s.rows + {row});
        } else {
          var state := if kind == SALP1 then Opened else bank.state;
          rank := rank[b := Bank(state, bank.subs[i := SubArray(Opened, s.rows + {row})])];
        }
      case SASEL =>
        if kind == MASA {
          Select(b, i, s.rows);
        }
      case PRE =>
        rank := rank[b := Bank(if kind == SALP1 then Closed else bank.state, bank.subs[i := SHUT])];
      case PRE_OTHER =>
        if kind != MASA {
          rank := rank[b := Bank(if kind == SALP1 then Closed else bank.state, bank.subs[i := SHUT])];
        }
      case _ =>
    }

    /** The request's next command is issued, to the subarray that it is for. */
    method Issue(r: Request) returns (c: Command)
      requires Fits(rank, r) && Keeps(kind, rank)
      modifies this
      ensures c == Decode(kind, old(rank), r) && rank == Step(kind, old(rank), r) && Keeps(kind, rank)
    {
      hide InBank, BankKeeps, Offending;
      c := NextCommand(r);
      match r
      case Refresh =>
        RefreshKeeps(kind, rank);
        if c == PRER {
          CloseRank();
        }
      case Access(_, b, i, row) =>
        AccessKeeps(kind, rank, r);
        var target := i;
        if c == PRE_OTHER {
          var other, _ := OffendingSubarray(b, i);
          target := other;
        }
        Change(c, b, target, row);
    }
  }
}
