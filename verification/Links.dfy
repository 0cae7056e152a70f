/** The serial links of a memory stack, and the switch between them and the vaults: tokens, buffers, order and
    bandwidth. */
module Links {
  import opened Bits

  /** `flits` is the whole length, `rtc` the tokens that the packet returns; a flow-control packet carries
      nothing else. */
  datatype Packet = Packet(id: int, vault: nat, slid: nat, flits: nat, rtc: nat, control: bool)

  const BUFFER_MAX := 32

  // ---------------------------------------------------------------- bandwidth

  /** A link was taken at `clk` for `flits` flits. */
  datatype Slot = Slot(clk: int, flits: nat)

  function Ceil(x: real): (c: int)
    ensures x <= c as real < x + 1.0
  {
    -((-x).Floor)
  }

  /** The cycles that some flits take. */
  function Time(flits: nat, flitCycles: real): real { flits as real * flitCycles }

  /** Every slot leaves the link taken for as long as its flits need. */
  ghost predicate Paced(log: seq<Slot>, flitCycles: real) {
    forall i :: 0 <= i < |log| - 1 ==> log[i].clk + Ceil(Time(log[i].flits, flitCycles)) <= log[i + 1].clk
  }

  function Flits(log: seq<Slot>): nat { if log == [] then 0 else Flits(log[..|log| - 1]) + log[|log| - 1].flits }

  /** Between the first slot and the last, the flits sent fit into the cycles that passed. */
  lemma {:induction false} WithinBandwidth(log: seq<Slot>, flitCycles: real)
    requires Paced(log, flitCycles) && log != []
    ensures Time(Flits(log[..|log| - 1]), flitCycles) <= (log[|log| - 1].clk - log[0].clk) as real
  {
    hide Time, Ceil;
    var n := |log| - 1;
    if n == 0 {
      NoTime(flitCycles);
    } else {
      var before, last := log[..n], log[n - 1];
      assert before[0] == log[0] && before[n - 1] == last && before[..n - 1] == log[..n - 1];
      WithinBandwidth(before, flitCycles);
      FlitsSplit(log, n);
      Distribute(Flits(log[..n - 1]), last.flits, flitCycles);
      var sent, more := Time(Flits(log[..n - 1]), flitCycles), Time(last.flits, flitCycles);
      assert last.clk + Ceil(more) <= log[n].clk;
      hide Flits, Paced;
      OneMore(sent, more, log[0].clk, last.clk, log[n].clk, Ceil(more));
    }
  }

  lemma NoTime(x: real)
    ensures Time(0, x) == 0.0
  {
  }

  lemma OneMore(sent: real, more: real, first: int, last: int, now: int, cycles: int)
    requires sent <= (last - first) as real && more <= cycles as real && last + cycles <= now
    ensures sent + more <= (now - first) as real
  {
    assert (now - first) as real >= (last - first + cycles) as real == (last - first) as real + cycles as real;
  }

  lemma FlitsSplit(log: seq<Slot>, n: nat)
    requires 0 < n <= |log|
    ensures Flits(log[..n]) == Flits(log[..n - 1]) + log[n - 1].flits
  {
    assert log[..n][..n - 1] == log[..n - 1];
  }

  lemma Distribute(a: nat, b: nat, x: real)
    ensures Time(a + b, x) == Time(a, x) + Time(b, x)
  {
    assert (a + b) as real == a as real + b as real;
  }

  /** The same from any slot on. */
  lemma BandwidthFrom(log: seq<Slot>, flitCycles: real, i: nat, j: nat)
    requires Paced(log, flitCycles) && i <= j < |log|
    ensures Time(Flits(log[i..j]), flitCycles) <= (log[j].clk - log[i].clk) as real
  {
    hide Time, Ceil;
    var part := log[i..j + 1];
    assert Paced(part, flitCycles) by {
      assert forall k :: 0 <= k < |part| ==> part[k] == log[i + k];
    }
    WithinBandwidth(part, flitCycles);
    assert part[..|part| - 1] == log[i..j];
  }

  lemma PacedSnoc(log: seq<Slot>, slot: Slot, flitCycles: real)
    requires Paced(log, flitCycles)
    requires log != [] ==> log[|log| - 1].clk + Ceil(Time(log[|log| - 1].flits, flitCycles)) <= slot.clk
    ensures Paced(log + [slot], flitCycles)
  {
    var more := log + [slot];
    assert forall i :: 0 <= i < |log| ==> more[i] == log[i];
  }

  // ---------------------------------------------------------------- tokens

  function TotalFlits(ps: seq<Packet>): nat { if ps == [] then 0 else TotalFlits(ps[..|ps| - 1]) + ps[|ps| - 1].flits }

  function TotalRtc(ps: seq<Packet>): nat { if ps == [] then 0 else TotalRtc(ps[..|ps| - 1]) + ps[|ps| - 1].rtc }

  lemma TotalsSnoc(ps: seq<Packet>, p: Packet)
    ensures TotalFlits(ps + [p]) == TotalFlits(ps) + p.flits && TotalRtc(ps + [p]) == TotalRtc(ps) + p.rtc
  {
    assert (ps + [p])[..|ps|] == ps;
  }

  /** The largest power of two within a number; 0 for 0. */
  ghost predicate IsLeftmostBit(val: nat, bit: nat) {
    if val == 0 then bit == 0 else IsPower(bit) && bit <= val < 2 * bit
  }

  method LeftmostBit(val: nat) returns (bit: nat)
    ensures IsLeftmostBit(val, bit)
  {
    if val == 0 {
      return 0;
    }
    var n, v := 0, val;
    while v / 2 != 0
      invariant Log2(val) == n + Log2(v)
      decreases v
    {
      v := v / 2;
      n := n + 1;
    }
    LogBounds(val);
    LogOfPower(n);
    bit := Shl(1, n);
  }

  /** Returning the leftmost bit again and again returns everything, and each time at least half of the rest. */
  lemma AtLeastHalf(val: nat, bit: nat)
    requires IsLeftmostBit(val, bit)
    ensures bit <= val && val <= 2 * bit && (0 < val ==> 0 < bit && val - bit < bit)
  {
  }

  // ---------------------------------------------------------------- a link

  /** The data packets, as they were before tokens were put into them. */
  function Data(ps: seq<Packet>): seq<Packet> {
    if ps == [] then []
    else Data(ps[..|ps| - 1]) + if ps[|ps| - 1].control then [] else [ps[|ps| - 1].(rtc := 0)]
  }

  lemma DataSnoc(ps: seq<Packet>, p: Packet)
    ensures Data(ps + [p]) == Data(ps) + if p.control then [] else [p.(rtc := 0)]
  {
    assert (ps + [p])[..|ps|] == ps;
  }

  class Link {
    /** In source mode the host needs no tokens for what is sent to it. */
    const source: bool
    const flitCycles: real

    // towards the stack
    var input: seq<Packet>
    var extracted: nat

    // towards the host
    var output: seq<Packet>
    var available: int
    var clk: int
    var nextClk: int

    /** What came from the host, what of it went on to the vaults, what came from them, what left to the host,
        and when the link was taken. */
    ghost var arrived: seq<Packet>
    ghost var forwarded: seq<Packet>
    ghost var queued: seq<Packet>
    ghost var sent: seq<Packet>
    ghost var log: seq<Slot>

    constructor (source: bool, flitCycles: real)
      ensures Valid() && this.source == source && this.flitCycles == flitCycles
      ensures arrived == [] && forwarded == [] && queued == [] && sent == [] && log == [] && clk == 0
    {
      this.source, this.flitCycles := source, flitCycles;
      input, extracted, output, available, clk, nextClk := [], 0, [], BUFFER_MAX, 0, 0;
      arrived, forwarded, queued, sent, log := [], [], [], [], [];
    }

    ghost predicate Valid()
      reads this
    {
      && |input| <= BUFFER_MAX && |output| <= BUFFER_MAX
      // nothing is lost or overtaken
      && arrived == forwarded + input && queued == Data(sent) + output
      && (forall i :: 0 <= i < |output| ==> !output[i].control && output[i].rtc == 0)
      // every flit taken from the input buffer is a token returned, or one still owed
      && TotalFlits(forwarded) == TotalRtc(sent) + extracted
      && Paced(log, flitCycles) && PaceKept()
    }

    ghost predicate PaceKept()
      reads `log, `nextClk
    {
      log != [] ==> nextClk == log[|log| - 1].clk + Ceil(Time(log[|log| - 1].flits, flitCycles))
    }

    /** The host sends a packet if there is room for its flits. */
    method HostSend(p: Packet) returns (ok: bool)
      requires Valid() && !p.control && 0 < p.flits
      modifies this`input, this`available, this`arrived
      ensures Valid() && ok == (p.flits <= BUFFER_MAX - |old(input)|)
      ensures arrived == old(arrived) + if ok then [p] else []
      ensures available == old(available) + if ok then p.rtc else 0
    {
      ok := p.flits <= BUFFER_MAX - |input|;
      if ok {
        Receive(p);
      }
    }

    /** The tokens of a packet are credited; a flow-control packet has nothing else. */
    method Receive(p: Packet)
      requires Valid() && (p.control || |input| < BUFFER_MAX)
      modifies this`input, this`available, this`arrived
      ensures Valid() && available == old(available) + p.rtc && arrived == old(arrived) + if p.control then [] else [p]
    {
      available := available + p.rtc;
      if !p.control {
        input := input + [p];
        arrived := arrived + [p];
      }
    }

    /** The switch takes the oldest packet. */
    method TakeInput() returns (p: Packet)
      requires Valid() && input != []
      modifies this`input, this`extracted, this`forwarded
      ensures Valid() && p == old(input)[0]
      ensures forwarded == old(forwarded) + [p] && extracted == old(extracted) + p.flits
    {
      p := input[0];
      TotalsSnoc(forwarded, p);
      extracted, input, forwarded := extracted + p.flits, input[1..], forwarded + [p];
    }

    lemma OutputBound()
      requires Valid()
      ensures |output| <= BUFFER_MAX
    {
    }

    method PutOutput(p: Packet)
      requires Valid() && |output| < BUFFER_MAX && !p.control && p.rtc == 0
      modifies this`output, this`queued
      ensures Valid() && queued == old(queued) + [p] && output == old(output) + [p]
    {
      output, queued := output + [p], queued + [p];
    }

    /** The tokens to return now. */
    method TakeTokens() returns (rtc: nat)
      modifies this`extracted
      ensures IsLeftmostBit(old(extracted), rtc) && extracted == old(extracted) - rtc
    {
      rtc := LeftmostBit(extracted);
      AtLeastHalf(extracted, rtc);
      extracted := extracted - rtc;
    }

    /** The link is taken for some flits, from now on. */
    method Occupy(flits: nat)
      requires Paced(log, flitCycles) && PaceKept() && nextClk <= clk
      modifies this`nextClk, this`log
      ensures Paced(log, flitCycles) && PaceKept() && Taken(flits)
    {
      hide Paced, Ceil, Time;
      PacedSnoc(log, Slot(clk, flits), flitCycles);
      nextClk := clk + Ceil(Time(flits, flitCycles));
      log := log + [Slot(clk, flits)];
    }

    /** One packet left, with the tokens that are returned now. */
    twostate predicate Left(p: Packet)
      reads `sent
    {
      sent == old(sent) + [p] && IsLeftmostBit(old(extracted), p.rtc)
    }

    /** The link was taken once, from now on. */
    twostate predicate Taken(flits: nat)
      reads `log, `clk, `nextClk
    {
      log == old(log) + [Slot(clk, flits)] && nextClk == clk + Ceil(Time(flits, flitCycles))
    }

    /** The oldest packet left if its tokens were there; else tokens alone were returned, if there were any; else
        an empty packet passed. */
    twostate predicate Transmitted()
      reads `sent, `log, `available, `clk, `nextClk
    {
      if old(output) != [] && old(output)[0].flits <= old(available) then
        && sent != [] && Left(sent[|sent| - 1]) && sent[|sent| - 1].(rtc := 0) == old(output)[0]
        && Taken(old(output)[0].flits) && available == old(available) - if source then 0 else old(output)[0].flits
      else
        && available == old(available) && Taken(1)
        && if old(extracted) > 0 then sent != [] && sent[|sent| - 1].control && Left(sent[|sent| - 1])
           else sent == old(sent)
    }

    /** What left the link has left its buffer, and the tokens returned are no longer owed. */
    twostate predicate Served()
      reads this
    {
      && Transmitted()
      && output == (if old(output) != [] && old(output)[0].flits <= old(available)
                    then old(output)[1..] else old(output))
      && extracted == old(extracted) - if sent == old(sent) || sent == [] then 0 else sent[|sent| - 1].rtc
    }

    method Send()
      requires Valid() && nextClk <= clk
      modifies this`output, this`extracted, this`available, this`nextClk, this`sent, this`log
      ensures Valid() && Served()
    {
      hide Paced, PaceKept, IsLeftmostBit, Data, TotalFlits, TotalRtc, Time;
      if |output| > 0 && available >= output[0].flits {
        SendData();
      } else if extracted > 0 {
        SendTokens();
      } else {
        Occupy(1);
      }
    }

    method SendData()
      requires Valid() && nextClk <= clk && output != []
      modifies this`output, this`extracted, this`available, this`nextClk, this`sent, this`log
      ensures Valid() && Taken(old(output)[0].flits) && output == old(output)[1..]
      ensures sent != [] && Left(sent[|sent| - 1]) && sent[|sent| - 1].(rtc := 0) == old(output)[0]
      ensures extracted == old(extracted) - sent[|sent| - 1].rtc
      ensures available == old(available) - if source then 0 else old(output)[0].flits
    {
      hide Paced, PaceKept, IsLeftmostBit, Data, TotalFlits, TotalRtc, Time;
      var packet := output[0];
      output := output[1..];
      var rtc := TakeTokens();
      packet := packet.(rtc := rtc);
      if !source {
        available := available - packet.flits;
      }
      Transmit(packet);
      Occupy(packet.flits);
      assert old(output) == [old(output)[0]] + output;
    }

    method SendTokens()
      requires Valid() && nextClk <= clk && extracted > 0
      modifies this`extracted, this`nextClk, this`sent, this`log
      ensures Valid() && Taken(1) && sent != [] && sent[|sent| - 1].control && Left(sent[|sent| - 1])
      ensures extracted == old(extracted) - sent[|sent| - 1].rtc
    {
      hide Paced, PaceKept, IsLeftmostBit, Data, TotalFlits, TotalRtc, Time;
      var rtc := TakeTokens();
      Transmit(Packet(0, 0, 0, 1, rtc, true));
      Occupy(1);
    }

    ghost method Transmit(p: Packet)
      modifies this`sent
      ensures sent == old(sent) + [p]
      ensures Data(sent) == Data(old(sent)) + if p.control then [] else [p.(rtc := 0)]
      ensures TotalRtc(sent) == TotalRtc(old(sent)) + p.rtc
    {
      DataSnoc(sent, p);
      TotalsSnoc(sent, p);
      sent := sent + [p];
    }

    /** A cycle passed: the link served if it was free by then. */
    twostate predicate Ticked()
      reads this
    {
      && clk == old(clk) + 1
      && input == old(input) && arrived == old(arrived) && forwarded == old(forwarded) && queued == old(queued)
      && if old(nextClk) <= clk then Served()
         else && output == old(output) && available == old(available) && extracted == old(extracted)
              && sent == old(sent) && log == old(log) && nextClk == old(nextClk)
    }

    twostate lemma OutputShrinks()
      requires Ticked()
      ensures LinkTicked(this)
    {
    }

    method Tick()
      requires Valid()
      modifies this
      ensures Valid() && Ticked()
    {
      hide Paced, Ceil, Time, TotalFlits, TotalRtc, Data, IsLeftmostBit;
      clk := clk + 1;
      if clk >= nextClk {
        Send();
      }
    }
  }

  // ---------------------------------------------------------------- the switch

  /** A packet that passed the switch, and its link. */
  datatype Pass = Pass(link: nat, packet: Packet)

  /** No vault gets two packets. */
  ghost predicate OnePerVault(passed: seq<Pass>) {
    forall i, j :: 0 <= i < j < |passed| ==> passed[i].packet.vault != passed[j].packet.vault
  }

  /** No link gets two packets. */
  ghost predicate OnePerLink(passed: seq<Pass>) {
    forall i, j :: 0 <= i < j < |passed| ==> passed[i].link != passed[j].link
  }

  lemma NoneAtFirst()
    ensures OnePerLink([]) && OnePerVault([])
  {
  }

  lemma OneMoreVault(passed: seq<Pass>, p: Pass)
    requires OnePerVault(passed) && forall q :: q in passed ==> q.packet.vault != p.packet.vault
    ensures OnePerVault(passed + [p])
  {
  }

  lemma OneMoreLink(passed: seq<Pass>, p: Pass)
    requires OnePerLink(passed) && forall q :: q in passed ==> q.link != p.link
    ensures OnePerLink(passed + [p])
  {
  }

  class Switch {
    const links: seq<Link>

    /** The responses that each vault has ready. */
    var responses: seq<seq<Packet>>

    constructor (links: seq<Link>, vaults: nat)
      requires forall i, j :: 0 <= i < j < |links| ==> links[i] != links[j]
      requires forall i :: 0 <= i < |links| ==> links[i].Valid()
      ensures Valid() && this.links == links
      ensures |responses| == vaults && forall v :: 0 <= v < vaults ==> responses[v] == []
    {
      this.links := links;
      responses := seq(vaults, _ => []);
    }

    ghost predicate Valid()
      reads this, links
    {
      && (forall i, j :: 0 <= i < j < |links| ==> links[i] != links[j])
      && (forall i :: 0 <= i < |links| ==> links[i].Valid())
      && forall v, i :: 0 <= v < |responses| && 0 <= i < |responses[v]| ==> Sendable(responses[v][i])
    }

    lemma SendableSays(p: Packet)
      requires Sendable(p)
      ensures p.slid < |links| && !p.control && p.rtc == 0 && 0 < p.flits
    {
    }

    predicate Sendable(p: Packet) { p.slid < |links| && !p.control && p.rtc == 0 && 0 < p.flits }

    /** Another link, before link `i`, has passed a packet to the vault that its oldest packet is for. */
    ghost predicate VaultTaken(passed: seq<Pass>, i: nat, packet: Packet) {
      exists p :: p in passed && p.link < i && p.packet.vault == packet.vault
    }

    /** What became of the oldest packet of link `i`: it went to its vault, unless that refused it or had one
        already. */
    ghost predicate RequestMoved(i: nat, accept: bool, passed: seq<Pass>, input: seq<Packet>, was: seq<Packet>,
                                 forwarded: seq<Packet>) {
      if exists p :: p in passed && p.link == i then
        input != [] && accept && Pass(i, input[0]) in passed && forwarded == was + [input[0]]
      else
        forwarded == was && (input != [] && accept ==> VaultTaken(passed, i, input[0]))
    }

    ghost predicate UsedVaults(passed: seq<Pass>, used: set<nat>) {
      forall u :: u in used <==> exists p :: p in passed && p.packet.vault == u
    }

    lemma RequestPasses(passed: seq<Pass>, used: set<nat>, i: nat, input: seq<Packet>, was: seq<Packet>)
      requires UsedVaults(passed, used) && (forall p :: p in passed ==> p.link < i)
      requires input != [] && input[0].vault !in used && OnePerVault(passed) && OnePerLink(passed)
      ensures var more := passed + [Pass(i, input[0])];
              && UsedVaults(more, used + {input[0].vault}) && OnePerVault(more) && OnePerLink(more)
              && (forall p :: p in more ==> p.link <= i)
              && RequestMoved(i, true, more, input, was, was + [input[0]])
    {
      var p := Pass(i, input[0]);
      OneMoreVault(passed, p);
      OneMoreLink(passed, p);
      assert (passed + [p])[|passed|] == p;
      assert forall q :: q in passed + [p] <==> q in passed || q == p;
      hide OnePerVault, OnePerLink, VaultTaken;
    }

    lemma OthersStay(passed: seq<Pass>, p: Pass)
      ensures forall i: nat, accept, input, was, forwarded ::
                i < p.link && RequestMoved(i, accept, passed, input, was, forwarded) ==>
                RequestMoved(i, accept, passed + [p], input, was, forwarded)
    {
      assert forall q :: q in passed + [p] <==> q in passed || q == p;
    }

    lemma RequestStays(passed: seq<Pass>, used: set<nat>, i: nat, accept: bool, input: seq<Packet>, was: seq<Packet>)
      requires UsedVaults(passed, used) && (forall p :: p in passed ==> p.link < i)
      requires input == [] || !accept || input[0].vault in used
      ensures RequestMoved(i, accept, passed, input, was, was)
    {
    }

    /** From the links to the vaults; `accepts` says of each link whether the vault that its oldest packet is for
        would take it now. */
    method FromLinks(accepts: seq<bool>) returns (passed: seq<Pass>)
      requires Valid() && |accepts| == |links|
      modifies links`input, links`extracted, links`forwarded
      ensures Valid() && OnePerVault(passed) && OnePerLink(passed) && forall p :: p in passed ==> p.link < |links|
      ensures forall i :: 0 <= i < |links| ==>
                RequestMoved(i, accepts[i], passed, old(links[i].input), old(links[i].forwarded), links[i].forwarded)
    {
      hide Link.Valid, OnePerLink, OnePerVault, Sendable, RequestMoved, UsedVaults;
      passed := [];
      var usedVaults: set<nat> := {};
      NothingPassed();
      for i := 0 to |links|
        invariant forall j :: 0 <= j < |links| ==> links[j].Valid()
        invariant OnePerVault(passed) && OnePerLink(passed) && forall p :: p in passed ==> p.link < i
        invariant UsedVaults(passed, usedVaults)
        invariant forall j :: i <= j < |links| ==>
                    links[j].input == old(links[j].input) && links[j].forwarded == old(links[j].forwarded)
        invariant forall j :: 0 <= j < i ==>
                    RequestMoved(j, accepts[j], passed, old(links[j].input), old(links[j].forwarded),
                                 links[j].forwarded)
      {
        var link := links[i];
        if |link.input| != 0 && link.input[0].vault !in usedVaults && accepts[i] {
          RequestPasses(passed, usedVaults, i, link.input, link.forwarded);
          OthersStay(passed, Pass(i, link.input[0]));
          var packet := link.TakeInput();
          usedVaults := usedVaults + {packet.vault};
          passed := passed + [Pass(i, packet)];
        } else {
          RequestStays(passed, usedVaults, i, accepts[i], link.input, link.forwarded);
        }
      }
    }

    lemma NothingPassed()
      ensures OnePerLink([]) && OnePerVault([]) && UsedVaults([], {})
    {
    }

    ghost function OutputSizes(): (sizes: seq<nat>)
      reads this, links
      ensures |sizes| == |links| && forall i :: 0 <= i < |links| ==> sizes[i] == |links[i].output|
    {
      seq(|links|, i requires 0 <= i < |links| reads links => |links[i].output|)
    }

    /** What became of the oldest response that a vault had ready: it went to its link, unless that had no room or
        had one already. */
    ghost predicate ResponseMoved(passed: seq<Pass>, sizes: seq<nat>, ready: seq<Packet>, left: seq<Packet>) {
      if ready == [] then left == []
      else if left == ready then
        ready[0].slid < |sizes| &&
        (BUFFER_MAX - sizes[ready[0].slid] < ready[0].flits || exists p :: p in passed && p.link == ready[0].slid)
      else left == ready[1..] && Pass(ready[0].slid, ready[0]) in passed
    }

    /** What a link got from the vaults. */
    ghost predicate LinkGot(i: nat, passed: seq<Pass>, was: seq<Packet>, queued: seq<Packet>) {
      && (forall p :: p in passed && p.link == i ==> p.packet.slid == i && queued == was + [p.packet])
      && ((forall p :: p in passed ==> p.link != i) ==> queued == was)
    }

    /** Every response that passed was the oldest of a vault that has given it away; no two vaults gave one to the same
        link. */
    ghost predicate Givers(passed: seq<Pass>, was: seq<seq<Packet>>, now: seq<seq<Packet>>) {
      && |now| == |was|
      && (forall p :: p in passed ==> exists v :: 0 <= v < |was| && Gave(was[v], now[v]) && was[v][0] == p.packet)
      && (forall v :: 0 <= v < |was| && Gave(was[v], now[v]) ==> Pass(was[v][0].slid, was[v][0]) in passed)
      && forall u, v :: 0 <= u < v < |was| && Gave(was[u], now[u]) && Gave(was[v], now[v]) ==>
           was[u][0].slid != was[v][0].slid
    }

    ghost predicate Gave(was: seq<Packet>, now: seq<Packet>) { was != [] && now != was }

    lemma NoGivers(was: seq<seq<Packet>>)
      ensures Givers([], was, was)
    {
    }

    lemma OneMoreGiver(passed: seq<Pass>, was: seq<seq<Packet>>, now: seq<seq<Packet>>, v: nat)
      requires Givers(passed, was, now) && v < |was| && now[v] == was[v] != []
      requires forall p :: p in passed ==> p.link != was[v][0].slid
      ensures Givers(passed + [Pass(was[v][0].slid, was[v][0])], was, now[v := was[v][1..]])
    {
      var p := Pass(was[v][0].slid, was[v][0]);
      var more, later := passed + [p], now[v := was[v][1..]];
      assert more[|passed|] == p && Gave(was[v], later[v]);
      assert forall u :: 0 <= u < |was| && u != v ==> Gave(was[u], later[u]) == Gave(was[u], now[u]);
      assert forall q :: q in more <==> q in passed || q == p;
    }

    lemma OneMoreMoved(passed: seq<Pass>, p: Pass)
      ensures forall sizes, ready, left ::
                ResponseMoved(passed, sizes, ready, left) ==> ResponseMoved(passed + [p], sizes, ready, left)
      ensures forall i: nat, was, queued ::
                LinkGot(i, passed, was, queued) && p.link != i ==> LinkGot(i, passed + [p], was, queued)
    {
      assert forall q :: q in passed + [p] <==> q in passed || q == p;
    }

    lemma NewlyMoved(passed: seq<Pass>, sizes: seq<nat>, ready: seq<Packet>, was: seq<Packet>)
      requires ready != [] && forall p :: p in passed ==> p.link != ready[0].slid
      ensures var p := Pass(ready[0].slid, ready[0]);
              && ResponseMoved(passed + [p], sizes, ready, ready[1..])
              && LinkGot(p.link, passed + [p], was, was + [ready[0]])
    {
      var p := Pass(ready[0].slid, ready[0]);
      assert (passed + [p])[|passed|] == p;
      assert forall q :: q in passed + [p] <==> q in passed || q == p;
    }

    method MoveResponse(v: nat, link: Link)
      requires Valid() && v < |responses| && responses[v] != []
      requires responses[v][0].slid < |links| && link == links[responses[v][0].slid] && |link.output| < BUFFER_MAX
      modifies this`responses, link`output, link`queued
      ensures Valid() && responses == old(responses)[v := old(responses)[v][1..]]
      ensures link.queued == old(link.queued) + [old(responses)[v][0]]
    {
      hide Link.Valid, Sendable;
      var packet := responses[v][0];
      SendableSays(packet);
      link.PutOutput(packet);
      responses := responses[v := responses[v][1..]];
    }

    /** From the vaults to the links. */
    method FromVaults() returns (passed: seq<Pass>)
      requires Valid()
      modifies this`responses, links`output, links`queued
      ensures Valid() && OnePerLink(passed) && forall p :: p in passed ==> p.link < |links|
      ensures |responses| == |old(responses)|
      ensures forall i :: 0 <= i < |links| ==> LinkGot(i, passed, old(links[i].queued), links[i].queued)
      ensures forall v :: 0 <= v < |responses| ==>
                ResponseMoved(passed, old(OutputSizes()), old(responses)[v], responses[v])
      ensures Givers(passed, old(responses), responses)
    {
      hide Link.Valid, OnePerLink, Sendable, ResponseMoved, LinkGot, Givers;
      NoneAtFirst();
      NoGivers(responses);
      passed := [];
      ghost var sizes := OutputSizes();
      var usedLinks: set<nat> := {};
      NothingGot();
      for v := 0 to |responses|
        invariant |responses| == |old(responses)| && Valid() && OnePerLink(passed)
        invariant forall p :: p in passed ==> p.link < |links|
        invariant forall i :: i in usedLinks <==> exists p :: p in passed && p.link == i
        invariant forall i :: 0 <= i < |links| && i !in usedLinks ==>
                    links[i].queued == old(links[i].queued) && |links[i].output| == sizes[i]
        invariant forall i :: 0 <= i < |links| ==> LinkGot(i, passed, old(links[i].queued), links[i].queued)
        invariant forall u :: v <= u < |responses| ==> responses[u] == old(responses)[u]
        invariant forall u :: 0 <= u < v ==> ResponseMoved(passed, sizes, old(responses)[u], responses[u])
        invariant Givers(passed, old(responses), responses)
      {
        ghost var ready := responses[v];
        if |responses[v]| != 0 {
          var packet := responses[v][0];
          SendableSays(packet);
          if packet.slid !in usedLinks {
            var link := links[packet.slid];
            link.OutputBound();
            if packet.flits <= BUFFER_MAX - |link.output| {
              OneMoreLink(passed, Pass(packet.slid, packet));
              OneMoreMoved(passed, Pass(packet.slid, packet));
              NewlyMoved(passed, sizes, ready, link.queued);
              OneMoreGiver(passed, old(responses), responses, v);
              MoveResponse(v, link);
              usedLinks := usedLinks + {packet.slid};
              passed := passed + [Pass(packet.slid, packet)];
            }
          }
        }
        StillReady(passed, sizes, ready);
      }
    }

    lemma NothingGot()
      ensures forall i: nat, was :: LinkGot(i, [], was, was)
    {
    }

    lemma StillReady(passed: seq<Pass>, sizes: seq<nat>, ready: seq<Packet>)
      ensures ready == [] || (ready[0].slid < |sizes| &&
                              (BUFFER_MAX - sizes[ready[0].slid] < ready[0].flits ||
                               exists p :: p in passed && p.link == ready[0].slid)) ==>
                ResponseMoved(passed, sizes, ready, ready)
    {
    }

    /** One cycle of the logic layer: every link serves if it is free, then the switch moves packets both ways.
        `sizes` are what is in the output buffers in between.  What is in the buffers and what tokens are owed
        afterwards follows from what was forwarded, queued and sent, as `Link.Valid` says. */
    method Tick(accepts: seq<bool>) returns (requests: seq<Pass>, answers: seq<Pass>, ghost sizes: seq<nat>)
      requires Valid() && |accepts| == |links|
      modifies this, links
      ensures Valid() && OnePerVault(requests) && OnePerLink(requests) && OnePerLink(answers)
      ensures |responses| == |old(responses)| && |sizes| == |links|
      ensures forall i :: 0 <= i < |links| ==> Clocked(links[i]) && sizes[i] <= |old(links[i].output)| <= sizes[i] + 1
      ensures forall i :: 0 <= i < |links| ==> links[i].arrived == old(links[i].arrived)
      ensures forall i :: 0 <= i < |links| ==>
                RequestMoved(i, accepts[i], requests, old(links[i].input), old(links[i].forwarded), links[i].forwarded)
      ensures forall i :: 0 <= i < |links| ==> LinkGot(i, answers, old(links[i].queued), links[i].queued)
      ensures forall v :: 0 <= v < |responses| ==> ResponseMoved(answers, sizes, old(responses)[v], responses[v])
      ensures Givers(answers, old(responses), responses)
    {
      hide Link.Valid, OnePerVault, OnePerLink, Sendable, RequestMoved, ResponseMoved, LinkGot, Givers, Clocked;
      ServeLinks();
      sizes := OutputSizes();
      requests := FromLinks(accepts);
      assert OutputSizes() == sizes;
      answers := FromVaults();
    }

    method ServeLinks()
      requires Valid()
      modifies links
      ensures Valid() && forall i :: 0 <= i < |links| ==> LinkTicked(links[i])
    {
      hide Link.Valid, Link.Served, Sendable;
      for i := 0 to |links|
        invariant forall j :: 0 <= j < |links| ==> links[j].Valid()
        invariant forall j :: 0 <= j < i ==> LinkTicked(links[j])
        invariant forall j :: i <= j < |links| ==> unchanged(links[j])
      {
        label start:
        links[i].Tick();
        links[i].OutputShrinks@start();
      }
    }
  }

  /** A link's clock advanced, and it transmitted if it was free by then. */
  twostate predicate Clocked(link: Link)
    reads link`sent, link`log, link`available, link`clk, link`nextClk
  {
    && link.clk == old(link.clk) + 1
    && if old(link.nextClk) <= link.clk then link.Transmitted()
       else && link.sent == old(link.sent) && link.log == old(link.log)
            && link.available == old(link.available) && link.nextClk == old(link.nextClk)
  }

  twostate predicate LinkTicked(link: Link)
    reads link
  {
    && Clocked(link) && |link.output| <= |old(link.output)| <= |link.output| + 1
    && link.arrived == old(link.arrived) && link.input == old(link.input) && link.forwarded == old(link.forwarded)
    && link.queued == old(link.queued)
  }
}
