/** A whole stack: the host and the near-memory cores send packets, the links carry those of the host to the vaults, the
    vaults work on them, and their responses go back on the links.  The parts move in any order: what they do in one
    cycle of the stack is one order of many. */
module Stack {
  import opened History
  import opened RowTable
  import opened Tally
  import opened Vault
  import opened VaultRequests
  import opened VaultRuns

  /** A response on a link, and the vault that it comes from. */
  datatype Answer = Answer(vault: nat, response: Response)

  /** The packets that a link got from the host, how many of them the vaults have taken, and the responses that it got
      from the vaults. */
  datatype Wire = Wire(arrived: seq<Packet>, taken: nat, queued: seq<Answer>)

  datatype Stack = Stack(wires: seq<Wire>, vaults: seq<Vault>)

  /** The host sends a packet on its link, a core sends one to its vault, a link offers its oldest packet to its vault,
      a vault gives its oldest response to its link, or a vault passes a cycle. */
  datatype Move = HostSends(packet: Packet) | CoreSends(packet: Packet) | Offers(link: nat) | Returns(vault: nat)
                | Passes(vault: nat)

  /** The configuration of one of the vaults. */
  function Of(cfg: Config, v: nat): Config { cfg.(id := v) }

  function Target(p: Packet): int { p.req.vec[0] }

  function Start(links: nat, vaults: nat): Stack {
    Stack(seq(links, _ => Wire([], 0, [])), seq(vaults, _ => Init()))
  }

  // ---------------------------------------------------------------- its moves

  /** No packet with this id was sent before. */
  ghost predicate New(s: Stack, id: int) {
    && (forall i, p :: 0 <= i < |s.wires| && p in s.wires[i].arrived ==> p.req.id != id)
    && forall v, p :: 0 <= v < |s.vaults| && p in s.vaults[v].accepted ==> p.req.id != id
  }

  /** A read or a write for one of the vaults. */
  predicate Proper(cfg: Config, s: Stack, p: Packet) {
    p.req.kind != Refresh && p.req.first && 0 <= Target(p) < |s.vaults| && InVault(Of(cfg, Target(p)), p.req.vec)
  }

  ghost predicate May(cfg: Config, s: Stack, m: Move) {
    match m
    case HostSends(p) => Proper(cfg, s, p) && !p.req.nmp && 0 <= p.slid < |s.wires| && New(s, p.req.id)
    case CoreSends(p) => Proper(cfg, s, p) && p.req.nmp && 0 <= p.slid < |s.wires| && New(s, p.req.id)
    case Offers(i) =>
      i < |s.wires| && s.wires[i].taken < |s.wires[i].arrived| && Proper(cfg, s, s.wires[i].arrived[s.wires[i].taken])
    case Returns(v) =>
      && v < |s.vaults| && s.vaults[v].replies.responses != []
      && 0 <= s.vaults[v].replies.responses[0].slid < |s.wires|
    case Passes(v) => v < |s.vaults|
  }

  ghost function AtVault(cfg: Config, s: Stack, v: nat, a: Action): Stack
    requires v < |s.vaults|
  {
    s.(vaults := s.vaults[v := Step(Of(cfg, v), s.vaults[v], a)])
  }

  ghost function After(cfg: Config, s: Stack, m: Move): Stack
    requires May(cfg, s, m)
  {
    match m
    case HostSends(p) =>
      var w := s.wires[p.slid];
      s.(wires := s.wires[p.slid := w.(arrived := w.arrived + [p])])
    case CoreSends(p) => AtVault(cfg, s, Target(p), Arrive(p))
    case Offers(i) =>
      var w := s.wires[i];
      var p := w.arrived[w.taken];
      var taken := if Accepts(s.vaults[Target(p)], p.req) then w.taken + 1 else w.taken;
      AtVault(cfg, s, Target(p), Arrive(p)).(wires := s.wires[i := w.(taken := taken)])
    case Returns(v) =>
      var a := s.vaults[v].replies.responses[0];
      var w := s.wires[a.slid];
      AtVault(cfg, s, v, Leave).(wires := s.wires[a.slid := w.(queued := w.queued + [Answer(v, a)])])
    case Passes(v) => AtVault(cfg, s, v, Cycle)
  }

  // ---------------------------------------------------------------- what travels where

  /** A packet without what a vault notes on it. */
  function Bare(p: Packet): Packet { p.(req := p.req.(burst := 0)) }

  /** The packets for a vault. */
  function For(ps: seq<Packet>, v: int): seq<Packet> {
    if ps == [] then []
    else For(ps[..|ps| - 1], v) + if Target(ps[|ps| - 1]) == v then [Bare(ps[|ps| - 1])] else []
  }

  /** The packets of the host that came on a link. */
  function Over(ps: seq<Packet>, i: int): seq<Packet> {
    if ps == [] then []
    else
      var p := ps[|ps| - 1];
      Over(ps[..|ps| - 1], i) + if !p.req.nmp && p.slid == i then [Bare(p)] else []
  }

  /** The responses for a link. */
  function To(rs: seq<Response>, i: int): seq<Response> {
    if rs == [] then [] else To(rs[..|rs| - 1], i) + if rs[|rs| - 1].slid == i then [rs[|rs| - 1]] else []
  }

  /** The responses of a vault. */
  function By(answers: seq<Answer>, v: nat): seq<Response> {
    if answers == [] then []
    else
      var a := answers[|answers| - 1];
      By(answers[..|answers| - 1], v) + if a.vault == v then [a.response] else []
  }

  lemma ForSnoc(ps: seq<Packet>, p: Packet, v: int)
    ensures For(ps + [p], v) == For(ps, v) + if Target(p) == v then [Bare(p)] else []
  {
    assert (ps + [p])[..|ps|] == ps;
  }

  lemma OverSnoc(ps: seq<Packet>, p: Packet, i: int)
    ensures Over(ps + [p], i) == Over(ps, i) + if !p.req.nmp && p.slid == i then [Bare(p)] else []
  {
    assert (ps + [p])[..|ps|] == ps;
  }

  lemma ToSnoc(rs: seq<Response>, r: Response, i: int)
    ensures To(rs + [r], i) == To(rs, i) + if r.slid == i then [r] else []
  {
    assert (rs + [r])[..|rs|] == rs;
  }

  lemma BySnoc(answers: seq<Answer>, a: Answer, v: nat)
    ensures By(answers + [a], v) == By(answers, v) + if a.vault == v then [a.response] else []
  {
    assert (answers + [a])[..|answers|] == answers;
  }

  lemma {:induction false} InFor(ps: seq<Packet>, v: int, b: Packet)
    ensures b in For(ps, v) <==> exists p :: p in ps && Target(p) == v && Bare(p) == b
  {
    if ps != [] {
      var before, p := ps[..|ps| - 1], ps[|ps| - 1];
      InFor(before, v, b);
      assert forall q :: q in ps <==> q in before || q == p;
    }
  }

  lemma {:induction false} InOver(ps: seq<Packet>, i: int, b: Packet)
    ensures b in Over(ps, i) <==> exists p :: p in ps && !p.req.nmp && p.slid == i && Bare(p) == b
  {
    if ps != [] {
      var before, p := ps[..|ps| - 1], ps[|ps| - 1];
      InOver(before, i, b);
      assert forall q :: q in ps <==> q in before || q == p;
    }
  }

  lemma {:induction false} InTo(rs: seq<Response>, i: int, r: Response)
    ensures r in To(rs, i) <==> r in rs && r.slid == i
  {
    if rs != [] {
      var before, last := rs[..|rs| - 1], rs[|rs| - 1];
      InTo(before, i, r);
      assert forall q :: q in rs <==> q in before || q == last;
    }
  }

  lemma {:induction false} InBy(answers: seq<Answer>, v: nat, r: Response)
    ensures r in By(answers, v) <==> Answer(v, r) in answers
  {
    if answers != [] {
      var before, last := answers[..|answers| - 1], answers[|answers| - 1];
      InBy(before, v, r);
      assert forall a :: a in answers <==> a in before || a == last;
    }
  }

  // ---------------------------------------------------------------- the invariant

  /** What of a link's packets the vaults have taken. */
  function Passed(w: Wire): seq<Packet> { if w.taken <= |w.arrived| then w.arrived[..w.taken] else w.arrived }

  /** Every packet of the host came on its own link. */
  ghost predicate Sent(cfg: Config, s: Stack) {
    && (forall i :: 0 <= i < |s.wires| ==> s.wires[i].taken <= |s.wires[i].arrived|)
    && forall i, p :: 0 <= i < |s.wires| && p in s.wires[i].arrived ==> Proper(cfg, s, p) && !p.req.nmp && p.slid == i
  }

  /** Every packet of the host came once. */
  ghost predicate Once(s: Stack) {
    forall i, j, k, l ::
      0 <= i < |s.wires| && 0 <= j < |s.wires| && 0 <= k < |s.wires[i].arrived| && 0 <= l < |s.wires[j].arrived| ==>
      s.wires[i].arrived[k].req.id == s.wires[j].arrived[l].req.id ==> i == j && k == l
  }

  /** What the vaults have accepted came from the host or from a core. */
  ghost predicate Known(s: Stack) {
    forall v, p :: 0 <= v < |s.vaults| && p in s.vaults[v].accepted ==>
      && 0 <= p.slid < |s.wires|
      && (p.req.nmp ==> forall i, q :: 0 <= i < |s.wires| && q in s.wires[i].arrived ==> q.req.id != p.req.id)
  }

  /** Each vault has accepted the packets for it that the links have passed on, those of each link in their order. */
  ghost predicate Delivered(s: Stack) {
    forall i, v :: 0 <= i < |s.wires| && 0 <= v < |s.vaults| ==>
      Over(s.vaults[v].accepted, i) == For(Passed(s.wires[i]), v)
  }

  /** Each link has got the responses for it that the vaults have given away, those of each vault in their order. */
  ghost predicate Returned(s: Stack) {
    && (forall i, v :: 0 <= i < |s.wires| && 0 <= v < |s.vaults| ==>
          By(s.wires[i].queued, v) == To(s.vaults[v].replies.sent, i))
    && forall i, a :: 0 <= i < |s.wires| && a in s.wires[i].queued ==> a.vault < |s.vaults|
  }

  ghost predicate Working(cfg: Config, s: Stack) {
    forall v :: 0 <= v < |s.vaults| ==> Core(Of(cfg, v), s.vaults[v])
  }

  ghost predicate Inv(cfg: Config, s: Stack) {
    Working(cfg, s) && Sent(cfg, s) && Once(s) && Known(s) && Delivered(s) && Returned(s)
  }

  lemma InitInv(cfg: Config, links: nat, vaults: nat)
    requires Usable(cfg)
    ensures Inv(cfg, Start(links, vaults))
  {
    hide Core;
    forall v: nat
      ensures Core(Of(cfg, v), Init())
    {
      VaultRuns.InitInv(Of(cfg, v));
    }
  }

  // ---------------------------------------------------------------- what a vault's step changes

  lemma StepLists(cfg: Config, v: Vault, a: Action)
    ensures Step(cfg, v, a).accepted ==
            if a.Arrive? && Accepts(v, Stamped(cfg, a.packet).req) then v.accepted + [Stamped(cfg, a.packet)]
            else v.accepted
    ensures Step(cfg, v, a).replies.sent ==
            if a.Leave? && v.replies.responses != [] then v.replies.sent + [v.replies.responses[0]]
            else v.replies.sent
  {
    hide Forwards, Accepts, BeforeServe, Serve;
    match a
    case Arrive(p) =>
    case Cycle =>
      BeforeServeFrame(cfg, v);
      SentBefore(cfg, v);
      SentServe(cfg, BeforeServe(cfg, v));
    case Leave =>
  }

  lemma SentBefore(cfg: Config, v: Vault)
    ensures BeforeServe(cfg, v).replies.sent == v.replies.sent
  {
    hide TickRefresh, Accepts;
    var c := Complete(cfg, v.(clk := v.clk + 1));
    TickRefreshFrame(cfg, c);
    DrainFrame(TickRefresh(cfg, c));
    assert BeforeServe(cfg, v) == DrainMode(TickRefresh(cfg, c));
  }

  lemma SentServe(cfg: Config, v: Vault)
    ensures Serve(cfg, v).replies.sent == v.replies.sent && Serve(cfg, v).accepted == v.accepted
  {
    hide Chosen, Begin, Finish, First, Serve, TableAfter, Fits, Allows;
    ServeIsStages(cfg, v);
    var i := Chosen(cfg, v);
    if i != -1 {
      var r := ServedQueue(v)[i];
      BeginFrame(v, i);
      FinishFrame(cfg, Issue(cfg, Begin(v, i), First(cfg, v.issued.history, r), r.vec), i);
    }
  }

  lemma StampedSays(cfg: Config, v: Vault, p: Packet)
    ensures var q := Stamped(cfg, p);
            && Bare(q) == Bare(p) && q.req.id == p.req.id && q.req.nmp == p.req.nmp
            && q.slid == p.slid && Target(q) == Target(p)
            && Accepts(v, q.req) == Accepts(v, p.req)
  {
  }

  // ---------------------------------------------------------------- each move keeps it

  lemma WorkingAt(cfg: Config, s: Stack, v: nat, a: Action)
    requires Working(cfg, s) && Usable(cfg) && v < |s.vaults| && Valid(Of(cfg, v), s.vaults[v], a)
    ensures Working(cfg, AtVault(cfg, s, v, a))
  {
    hide Core, Valid, Step;
    StepCore(Of(cfg, v), s.vaults[v], a);
  }

  /** What the vaults have taken from the links are other packets than the oldest one of a link. */
  lemma PassedAreOthers(s: Stack, i: nat, j: nat)
    requires Once(s) && i < |s.wires| && j < |s.wires| && s.wires[i].taken < |s.wires[i].arrived|
    ensures forall q :: q in Passed(s.wires[j]) ==> q.req.id != s.wires[i].arrived[s.wires[i].taken].req.id
  {
    var p := s.wires[i].arrived[s.wires[i].taken];
    forall l | 0 <= l < |Passed(s.wires[j])|
      ensures Passed(s.wires[j])[l].req.id != p.req.id
    {
      assert Passed(s.wires[j])[l] == s.wires[j].arrived[l];
    }
  }

  /** The oldest packet of a link was not accepted before. */
  lemma OldestIsNew(cfg: Config, s: Stack, i: nat)
    requires Sent(cfg, s) && Once(s) && Known(s) && Delivered(s)
    requires i < |s.wires| && s.wires[i].taken < |s.wires[i].arrived|
    ensures var p := s.wires[i].arrived[s.wires[i].taken];
            && Proper(cfg, s, p) && !p.req.nmp && p.slid == i
            && Valid(Of(cfg, Target(p)), s.vaults[Target(p)], Arrive(p))
  {
    hide InVault, Once, Passed;
    var p := s.wires[i].arrived[s.wires[i].taken];
    var v := Target(p);
    assert p in s.wires[i].arrived;
    forall q | q in s.vaults[v].accepted
      ensures q.req.id != p.req.id
    {
      if !q.req.nmp {
        PassedAreOthers(s, i, q.slid);
        InOver(s.vaults[v].accepted, q.slid, Bare(q));
        InFor(Passed(s.wires[q.slid]), v, Bare(q));
      }
    }
  }

  /** The same packets have come from the host. */
  ghost predicate SameHost(s: Stack, t: Stack) {
    && |t.wires| == |s.wires| && |t.vaults| == |s.vaults|
    && forall i :: 0 <= i < |s.wires| ==> t.wires[i].arrived == s.wires[i].arrived
  }

  ghost predicate SameAccepted(s: Stack, t: Stack) {
    && |t.vaults| == |s.vaults|
    && forall v :: 0 <= v < |s.vaults| ==> t.vaults[v].accepted == s.vaults[v].accepted
  }

  lemma HostSame(cfg: Config, s: Stack, t: Stack)
    requires Sent(cfg, s) && Once(s) && SameHost(s, t)
    requires forall i :: 0 <= i < |t.wires| ==> t.wires[i].taken <= |t.wires[i].arrived|
    ensures Sent(cfg, t) && Once(t)
  {
    hide InVault;
  }

  lemma KnownSame(s: Stack, t: Stack)
    requires Known(s) && SameHost(s, t) && SameAccepted(s, t)
    ensures Known(t)
  {
  }

  lemma DeliveredSame(s: Stack, t: Stack)
    requires Delivered(s) && SameAccepted(s, t) && |t.wires| == |s.wires|
    requires forall i :: 0 <= i < |s.wires| ==> Passed(t.wires[i]) == Passed(s.wires[i])
    ensures Delivered(t)
  {
    hide Over, For, Passed;
  }

  lemma ReturnedSame(s: Stack, t: Stack)
    requires Returned(s) && |t.wires| == |s.wires| && |t.vaults| == |s.vaults|
    requires forall i :: 0 <= i < |s.wires| ==> t.wires[i].queued == s.wires[i].queued
    requires forall v :: 0 <= v < |s.vaults| ==> t.vaults[v].replies.sent == s.vaults[v].replies.sent
    ensures Returned(t)
  {
    hide By, To;
  }

  lemma OnceMore(s: Stack, t: Stack, p: Packet)
    requires Once(s) && New(s, p.req.id) && 0 <= p.slid < |s.wires|
    requires t.wires == s.wires[p.slid := s.wires[p.slid].(arrived := s.wires[p.slid].arrived + [p])]
    ensures Once(t)
  {
    forall i, j, k, l |
      0 <= i < |t.wires| && 0 <= j < |t.wires| && 0 <= k < |t.wires[i].arrived| && 0 <= l < |t.wires[j].arrived| &&
      t.wires[i].arrived[k].req.id == t.wires[j].arrived[l].req.id
      ensures i == j && k == l
    {
      if k < |s.wires[i].arrived| {
        assert t.wires[i].arrived[k] == s.wires[i].arrived[k] && s.wires[i].arrived[k] in s.wires[i].arrived;
      }
      if l < |s.wires[j].arrived| {
        assert t.wires[j].arrived[l] == s.wires[j].arrived[l] && s.wires[j].arrived[l] in s.wires[j].arrived;
      }
    }
  }

  lemma SentMore(cfg: Config, s: Stack, p: Packet)
    requires Sent(cfg, s) && Known(s) && May(cfg, s, HostSends(p))
    ensures var t := After(cfg, s, HostSends(p));
            && Sent(cfg, t) && Known(t) && forall i :: 0 <= i < |s.wires| ==> Passed(t.wires[i]) == Passed(s.wires[i])
  {
    hide InVault;
    var t := After(cfg, s, HostSends(p));
    forall i | 0 <= i < |s.wires|
      ensures forall q :: q in t.wires[i].arrived <==> q in s.wires[i].arrived || (i == p.slid && q == p)
    {
    }
  }

  lemma HostInv(cfg: Config, s: Stack, p: Packet)
    requires Inv(cfg, s) && May(cfg, s, HostSends(p))
    ensures Inv(cfg, After(cfg, s, HostSends(p)))
  {
    hide Sent, Once, Known, Delivered, Returned, Passed, Proper, Core;
    var t := After(cfg, s, HostSends(p));
    SentMore(cfg, s, p);
    OnceMore(s, t, p);
    DeliveredSame(s, t);
    ReturnedSame(s, t);
  }

  lemma CoreMore(cfg: Config, s: Stack, t: Stack, v: nat, p: Packet)
    requires Known(s) && Delivered(s) && p.req.nmp && New(s, p.req.id) && t.wires == s.wires && 0 <= p.slid < |s.wires|
    requires v < |s.vaults| == |t.vaults| && t.vaults[v].accepted == s.vaults[v].accepted + [p]
    requires forall u :: 0 <= u < |s.vaults| && u != v ==> t.vaults[u] == s.vaults[u]
    ensures Known(t) && Delivered(t)
  {
    hide Over, For, Passed;
    forall i | 0 <= i < |s.wires|
      ensures Over(t.vaults[v].accepted, i) == Over(s.vaults[v].accepted, i)
    {
      OverSnoc(s.vaults[v].accepted, p, i);
    }
  }

  lemma CoreInv(cfg: Config, s: Stack, p: Packet)
    requires Inv(cfg, s) && Usable(cfg) && May(cfg, s, CoreSends(p))
    ensures Inv(cfg, After(cfg, s, CoreSends(p)))
  {
    hide Sent, Once, Known, Delivered, Returned, Passed, Core, InVault, Step, Working, Stamped;
    var v := Target(p);
    var t := After(cfg, s, CoreSends(p));
    WorkingAt(cfg, s, v, Arrive(p));
    StepLists(Of(cfg, v), s.vaults[v], Arrive(p));
    StampedSays(Of(cfg, v), s.vaults[v], p);
    HostSays(cfg, s);
    HostSame(cfg, s, t);
    CoreMore(cfg, s, t, v, Stamped(Of(cfg, v), p));
    ReturnedSame(s, t);
  }

  lemma HostSays(cfg: Config, s: Stack)
    requires Sent(cfg, s)
    ensures forall i :: 0 <= i < |s.wires| ==> s.wires[i].taken <= |s.wires[i].arrived|
  {
  }

  /** A vault took the oldest packet of a link. */
  lemma DeliveredMore(s: Stack, t: Stack, i: nat, v: nat, p: Packet, q: Packet)
    requires Delivered(s) && i < |s.wires| == |t.wires| && v < |s.vaults| == |t.vaults|
    requires forall j :: 0 <= j < |s.wires| && j != i ==> t.wires[j] == s.wires[j]
    requires forall u :: 0 <= u < |s.vaults| && u != v ==> t.vaults[u] == s.vaults[u]
    requires t.vaults[v].accepted == s.vaults[v].accepted + [q] && Passed(t.wires[i]) == Passed(s.wires[i]) + [p]
    requires Bare(q) == Bare(p) && !q.req.nmp && q.slid == i && Target(p) == v
    ensures Delivered(t)
  {
    hide Over, For, Passed;
    forall j, u | 0 <= j < |s.wires| && 0 <= u < |s.vaults|
      ensures Over(t.vaults[u].accepted, j) == For(Passed(t.wires[j]), u)
    {
      OverSnoc(s.vaults[v].accepted, q, j);
      ForSnoc(Passed(s.wires[i]), p, u);
    }
  }

  lemma KnownMore(s: Stack, t: Stack, v: nat, q: Packet)
    requires Known(s) && SameHost(s, t) && v < |s.vaults|
    requires forall u :: 0 <= u < |s.vaults| && u != v ==> t.vaults[u] == s.vaults[u]
    requires t.vaults[v].accepted == s.vaults[v].accepted + [q] && !q.req.nmp && 0 <= q.slid < |s.wires|
    ensures Known(t)
  {
  }

  lemma OfferInv(cfg: Config, s: Stack, i: nat)
    requires Inv(cfg, s) && Usable(cfg) && May(cfg, s, Offers(i))
    ensures Inv(cfg, After(cfg, s, Offers(i)))
  {
    hide Sent, Once, Known, Delivered, Returned, Core, InVault, Step, Working, Stamped, Accepts;
    OldestIsNew(cfg, s, i);
    var w := s.wires[i];
    var p := w.arrived[w.taken];
    var v := Target(p);
    var q := Stamped(Of(cfg, v), p);
    var t := After(cfg, s, Offers(i));
    WorkingAt(cfg, s, v, Arrive(p));
    SameWorking(cfg, AtVault(cfg, s, v, Arrive(p)), t);
    StepLists(Of(cfg, v), s.vaults[v], Arrive(p));
    StampedSays(Of(cfg, v), s.vaults[v], p);
    HostSays(cfg, s);
    HostSame(cfg, s, t);
    ReturnedSame(s, t);
    if Accepts(s.vaults[v], p.req) {
      DeliveredMore(s, t, i, v, p, q);
      KnownMore(s, t, v, q);
    } else {
      DeliveredSame(s, t);
      KnownSame(s, t);
    }
  }

  lemma SameWorking(cfg: Config, s: Stack, t: Stack)
    requires Working(cfg, s) && t.vaults == s.vaults
    ensures Working(cfg, t)
  {
  }

  lemma ReturnedMore(s: Stack, t: Stack, v: nat, r: Response)
    requires Returned(s) && 0 <= r.slid < |s.wires| == |t.wires| && v < |s.vaults| == |t.vaults|
    requires forall i :: 0 <= i < |s.wires| && i != r.slid ==> t.wires[i] == s.wires[i]
    requires forall u :: 0 <= u < |s.vaults| && u != v ==> t.vaults[u] == s.vaults[u]
    requires t.vaults[v].replies.sent == s.vaults[v].replies.sent + [r]
    requires t.wires[r.slid].queued == s.wires[r.slid].queued + [Answer(v, r)]
    ensures Returned(t)
  {
    hide By, To;
    forall i, u: nat | 0 <= i < |s.wires| && u < |s.vaults|
      ensures By(t.wires[i].queued, u) == To(t.vaults[u].replies.sent, i)
    {
      BySnoc(s.wires[r.slid].queued, Answer(v, r), u);
      ToSnoc(s.vaults[v].replies.sent, r, i);
    }
  }

  lemma ReturnInv(cfg: Config, s: Stack, v: nat)
    requires Inv(cfg, s) && Usable(cfg) && May(cfg, s, Returns(v))
    ensures Inv(cfg, After(cfg, s, Returns(v)))
  {
    hide Sent, Once, Known, Delivered, Returned, Core, InVault, Step, Working;
    var r := s.vaults[v].replies.responses[0];
    var t := After(cfg, s, Returns(v));
    WorkingAt(cfg, s, v, Leave);
    SameWorking(cfg, AtVault(cfg, s, v, Leave), t);
    StepLists(Of(cfg, v), s.vaults[v], Leave);
    HostSays(cfg, s);
    HostSame(cfg, s, t);
    DeliveredSame(s, t);
    KnownSame(s, t);
    ReturnedMore(s, t, v, r);
  }

  lemma PassInv(cfg: Config, s: Stack, v: nat)
    requires Inv(cfg, s) && Usable(cfg) && May(cfg, s, Passes(v))
    ensures Inv(cfg, After(cfg, s, Passes(v)))
  {
    hide Sent, Once, Known, Delivered, Returned, Passed, Core, Step, Working;
    var t := After(cfg, s, Passes(v));
    WorkingAt(cfg, s, v, Cycle);
    StepLists(Of(cfg, v), s.vaults[v], Cycle);
    HostSays(cfg, s);
    HostSame(cfg, s, t);
    DeliveredSame(s, t);
    KnownSame(s, t);
    ReturnedSame(s, t);
  }

  lemma MoveInv(cfg: Config, s: Stack, m: Move)
    requires Inv(cfg, s) && Usable(cfg) && May(cfg, s, m)
    ensures Inv(cfg, After(cfg, s, m))
  {
    hide Inv, May, After;
    match m
    case HostSends(p) => HostInv(cfg, s, p);
    case CoreSends(p) => CoreInv(cfg, s, p);
    case Offers(i) => OfferInv(cfg, s, i);
    case Returns(v) => ReturnInv(cfg, s, v);
    case Passes(v) => PassInv(cfg, s, v);
  }

  // ---------------------------------------------------------------- runs

  ghost predicate IsRun(cfg: Config, run: seq<Stack>, moves: seq<Move>) {
    && |run| == |moves| + 1 && run[0] == Start(|run[0].wires|, |run[0].vaults|)
    && forall i :: 0 <= i < |moves| ==> May(cfg, run[i], moves[i]) && run[i + 1] == After(cfg, run[i], moves[i])
  }

  lemma {:induction false} RunInv(cfg: Config, run: seq<Stack>, moves: seq<Move>)
    requires Usable(cfg) && IsRun(cfg, run, moves)
    ensures Inv(cfg, run[|moves|])
    decreases |moves|
  {
    hide Inv, May, After, Start, Usable;
    if moves == [] {
      InitInv(cfg, |run[0].wires|, |run[0].vaults|);
    } else {
      var n := |moves| - 1;
      assert IsRun(cfg, run[..n + 1], moves[..n]);
      RunInv(cfg, run[..n + 1], moves[..n]);
      MoveInv(cfg, run[n], moves[n]);
    }
  }

  // ---------------------------------------------------------------- at most one answer

  /** Packet `p` came on link `i`. */
  ghost predicate CameOn(s: Stack, i: nat, p: Packet) { i < |s.wires| && p in s.wires[i].arrived }

  lemma CameFrom(s: Stack, i: nat, p: Packet)
    requires CameOn(s, i, p)
    ensures i < |s.wires|
  {
  }

  /** The packet that a vault accepted under the id of a packet of the host is that packet. */
  lemma AcceptedIsHis(cfg: Config, s: Stack, i: nat, p: Packet, v: nat, q: Packet)
    requires Inv(cfg, s) && CameOn(s, i, p)
    requires v < |s.vaults| && q in s.vaults[v].accepted && q.req.id == p.req.id
    ensures Bare(q) == Bare(p) && !q.req.nmp && q.slid == i && Target(p) == v && p in Passed(s.wires[i])
  {
    hide Working, Sent, Returned, Over, For;
    InOver(s.vaults[v].accepted, q.slid, Bare(q));
    InFor(Passed(s.wires[q.slid]), v, Bare(q));
    var r :| r in Passed(s.wires[q.slid]) && Target(r) == v && Bare(r) == Bare(q);
    var l :| 0 <= l < |Passed(s.wires[q.slid])| && Passed(s.wires[q.slid])[l] == r;
    var k :| 0 <= k < |s.wires[i].arrived| && s.wires[i].arrived[k] == p;
    assert s.wires[q.slid].arrived[l].req.id == r.req.id == Bare(r).req.id == Bare(q).req.id == q.req.id;
  }

  /** The answer that has the id of a packet of the host is on the packet's own link, comes from its vault, and has its
      header. */
  ghost predicate Answers(cfg: Config, a: Answer, p: Packet) {
    var r := a.response;
    && a.vault == Target(p) && r.slid == p.slid && SameRequest(r.req, p.req) && r.cub == p.cub && r.tag == p.tag
    && r.cmd == p.cmd && r.lng == if p.req.kind == Write then 1 else 1 + cfg.payload
  }

  lemma WorkingSays(cfg: Config, s: Stack, v: nat)
    requires Inv(cfg, s) && v < |s.vaults|
    ensures Conserved(s.vaults[v]) && AllAnswers(Of(cfg, v), s.vaults[v])
  {
    hide Sent, Once, Known, Delivered, Returned;
    assert Core(Of(cfg, v), s.vaults[v]);
  }

  lemma SentAnswers(cfg: Config, s: Stack, i: nat, p: Packet, v: nat, r: Response)
    requires Inv(cfg, s) && CameOn(s, i, p) && v < |s.vaults| && r.req.id == p.req.id
    requires r in s.vaults[v].replies.sent || r in s.vaults[v].replies.responses
    ensures Answers(cfg, Answer(v, r), p) && r.slid == i
  {
    hide Inv, AllAnswers, Conserved, CameOn, Passed;
    WorkingSays(cfg, s, v);
    SaysAnswer(Of(cfg, v), s.vaults[v], r);
    var q :| q in s.vaults[v].accepted && SameRequest(r.req, q.req)
      && r.cub == q.cub && r.tag == q.tag && r.slid == q.slid && r.cmd == q.cmd
      && r.lng == if q.req.kind == Write then 1 else 1 + Of(cfg, v).payload;
    AcceptedIsHis(cfg, s, i, p, v, q);
    BareIs(p, q);
  }

  lemma BareIs(p: Packet, q: Packet)
    requires Bare(p) == Bare(q)
    ensures p.cub == q.cub && p.tag == q.tag && p.slid == q.slid && p.cmd == q.cmd && SameRequest(p.req, q.req)
  {
    assert p.cub == Bare(p).cub && p.tag == Bare(p).tag && p.slid == Bare(p).slid && p.cmd == Bare(p).cmd;
    assert SameRequest(p.req, Bare(p).req) && SameRequest(q.req, Bare(q).req);
  }

  lemma SaysAnswer(cfg: Config, v: Vault, r: Response)
    requires AllAnswers(cfg, v) && (r in v.replies.sent || r in v.replies.responses)
    ensures AnswersSome(cfg, v.accepted, r)
  {
  }

  lemma QueuedAnswers(cfg: Config, s: Stack, i: nat, p: Packet, j: nat, a: Answer)
    requires Inv(cfg, s) && CameOn(s, i, p) && j < |s.wires| && a in s.wires[j].queued && a.response.req.id == p.req.id
    ensures j == i && a.vault < |s.vaults| && Answers(cfg, a, p)
  {
    hide Working, Sent, Once, Known, Delivered, By, To, CameOn, Answers;
    InBy(s.wires[j].queued, a.vault, a.response);
    assert a == Answer(a.vault, a.response);
    InTo(s.vaults[a.vault].replies.sent, j, a.response);
    SentAnswers(cfg, s, i, p, a.vault, a.response);
  }

  function AnswerIdIs(id: int): Answer -> int { (a: Answer) => if a.response.req.id == id then 1 else 0 }

  /** How many responses with this id a link has got. */
  function Got(s: Stack, i: nat, id: int): int
    requires i < |s.wires|
  {
    Sum(s.wires[i].queued, AnswerIdIs(id))
  }

  /** If all that have the id are of one vault, they can be counted there. */
  lemma {:induction false} CountBy(answers: seq<Answer>, v: nat, id: int)
    requires forall a :: a in answers && a.response.req.id == id ==> a.vault == v
    ensures Sum(answers, AnswerIdIs(id)) == Sum(By(answers, v), ResponseIdIs(id))
  {
    if answers != [] {
      var before, last := answers[..|answers| - 1], answers[|answers| - 1];
      CountBy(before, v, id);
      Append(By(before, v), last.response, ResponseIdIs(id));
      assert last in answers && By(before, v) + [] == By(before, v);
    }
  }

  lemma {:induction false} CountTo(rs: seq<Response>, i: int, id: int)
    requires forall r :: r in rs && r.req.id == id ==> r.slid == i
    ensures Sum(To(rs, i), ResponseIdIs(id)) == Sum(rs, ResponseIdIs(id))
  {
    if rs != [] {
      var before, last := rs[..|rs| - 1], rs[|rs| - 1];
      CountTo(before, i, id);
      Append(To(before, i), last, ResponseIdIs(id));
      assert last in rs && To(before, i) + [] == To(before, i);
    }
  }

  /** What a link has got for a packet is what its vault has given away. */
  lemma GotIsSent(cfg: Config, s: Stack, i: nat, p: Packet)
    requires Inv(cfg, s) && CameOn(s, i, p)
    ensures 0 <= Target(p) < |s.vaults|
    ensures Got(s, i, p.req.id) == Sum(s.vaults[Target(p)].replies.sent, ResponseIdIs(p.req.id))
  {
    hide Working, Once, Known, Delivered, By, To, Sum, Answers, InVault;
    var id, v := p.req.id, Target(p);
    assert Proper(cfg, s, p);
    forall a | a in s.wires[i].queued && a.response.req.id == id
      ensures a.vault == v
    {
      QueuedAnswers(cfg, s, i, p, i, a);
      AnswersSays(cfg, a, p);
    }
    CountBy(s.wires[i].queued, v, id);
    forall r | r in s.vaults[v].replies.sent && r.req.id == id
      ensures r.slid == i
    {
      SentAnswers(cfg, s, i, p, v, r);
    }
    CountTo(s.vaults[v].replies.sent, i, id);
  }

  lemma AnswersSays(cfg: Config, a: Answer, p: Packet)
    requires Answers(cfg, a, p)
    ensures a.vault == Target(p)
  {
  }

  lemma RepliedParts(v: Vault, id: int)
    requires Conserved(v)
    ensures var rs, f, g := v.replies, IdIs(id), ResponseIdIs(id);
            && 0 <= Sum(rs.responses, g) && 0 <= Sum(rs.sent, g) && 0 <= Sum(rs.called, f)
            && Replied(rs, id) == Sum(rs.responses, g) + Sum(rs.sent, g) + Sum(rs.called, f) <= 1
  {
    hide Sum;
    NonNegative(v.replies.responses, ResponseIdIs(id));
    NonNegative(v.replies.sent, ResponseIdIs(id));
    NonNegative(v.replies.called, IdIs(id));
    NonNegative(v.queues.read, IdIs(id));
    NonNegative(v.queues.write, IdIs(id));
    NonNegative(v.pending, IdIs(id));
    assert Held(v, id) == Accepted(v, id) <= 1;
  }

  /** In every run, a packet of the host has had at most one response; it was on the packet's own link and answers the
      packet; no other link has had any. */
  lemma AtMostOneAnswer(cfg: Config, run: seq<Stack>, moves: seq<Move>, i: nat, p: Packet, j: nat)
    requires Usable(cfg) && IsRun(cfg, run, moves)
    requires CameOn(run[|moves|], i, p) && j < |run[|moves|].wires|
    ensures var s, id := run[|moves|], p.req.id;
            && 0 <= Got(s, j, id) <= (if j == i then 1 else 0)
            && forall a :: a in s.wires[j].queued && a.response.req.id == id ==> Answers(cfg, a, p)
  {
    hide May, After, Start, Inv, Usable, Answers, CameOn, Sum, Conserved, AllAnswers, Replied;
    RunInv(cfg, run, moves);
    var s, id := run[|moves|], p.req.id;
    forall a | a in s.wires[j].queued && a.response.req.id == id
      ensures j == i && Answers(cfg, a, p)
    {
      QueuedAnswers(cfg, s, i, p, j, a);
    }
    if j == i {
      GotIsSent(cfg, s, i, p);
      WorkingSays(cfg, s, Target(p));
      RepliedParts(s.vaults[Target(p)], id);
    } else {
      Zero(s.wires[j].queued, AnswerIdIs(id));
    }
  }

  // ---------------------------------------------------------------- exactly one in the end

  /** A vault has nothing more to do. */
  predicate Idle(v: Vault) {
    v.queues.read == [] && v.queues.write == [] && v.pending == [] && v.replies.responses == []
  }

  lemma PassedIsAccepted(s: Stack, i: nat, p: Packet)
    requires Delivered(s) && i < |s.wires| && p in Passed(s.wires[i]) && 0 <= Target(p) < |s.vaults|
    ensures WasAccepted(s.vaults[Target(p)], p.req.id)
  {
    hide Over, For, Passed;
    var v := Target(p);
    InFor(Passed(s.wires[i]), v, Bare(p));
    InOver(s.vaults[v].accepted, i, Bare(p));
    var q :| q in s.vaults[v].accepted && Bare(q) == Bare(p);
    assert q.req.id == Bare(q).req.id == Bare(p).req.id == p.req.id;
  }

  lemma NotCalled(cfg: Config, s: Stack, i: nat, p: Packet, v: nat)
    requires Inv(cfg, s) && CameOn(s, i, p) && v < |s.vaults|
    ensures Sum(s.vaults[v].replies.called, IdIs(p.req.id)) == 0
  {
    hide Sum, Inv, Conserved, CameOn, Passed;
    WorkingSays(cfg, s, v);
    var called := s.vaults[v].replies.called;
    forall k | 0 <= k < |called|
      ensures called[k].id != p.req.id
    {
      assert called[k] in called && CalledFor(s.vaults[v].accepted, called[k]);
      var q :| q in s.vaults[v].accepted && SameRequest(called[k], q.req) && q.req.nmp && q.req.kind == Read;
      if q.req.id == p.req.id {
        AcceptedIsHis(cfg, s, i, p, v, q);
      }
    }
    Zero(called, IdIs(p.req.id));
  }

  /** In every run, once a packet of the host has been taken from its link and its vault has nothing more to do, it has
      had exactly one response, on its own link. */
  lemma ExactlyOneAnswer(cfg: Config, run: seq<Stack>, moves: seq<Move>, i: nat, p: Packet)
    requires Usable(cfg) && IsRun(cfg, run, moves)
    requires var s := run[|moves|];
             CameOn(s, i, p) && p in Passed(s.wires[i]) && 0 <= Target(p) < |s.vaults| && Idle(s.vaults[Target(p)])
    ensures Got(run[|moves|], i, p.req.id) == 1
  {
    hide May, After, Start, Usable, CameOn, Sum, Conserved, AllAnswers, Replied, Working, Sent, Once, Known, Delivered,
         Returned, Passed, WasAccepted;
    RunInv(cfg, run, moves);
    var s, id := run[|moves|], p.req.id;
    var v := s.vaults[Target(p)];
    GotIsSent(cfg, s, i, p);
    WorkingSays(cfg, s, Target(p));
    RepliedParts(v, id);
    assert i < |s.wires| by {
      CameFrom(s, i, p);
    }
    PassedIsAccepted(s, i, p);
    AcceptedCounts(v, id);
    IdleHolds(v, id);
    NotCalled(cfg, s, i, p, Target(p));
    NoneToGive(v.replies.responses, id);
  }

  lemma NoneToGive(rs: seq<Response>, id: int)
    requires rs == []
    ensures Sum(rs, ResponseIdIs(id)) == 0
  {
  }

  lemma MayReturn(cfg: Config, s: Stack, v: nat)
    requires Inv(cfg, s) && v < |s.vaults| && s.vaults[v].replies.responses != []
    ensures May(cfg, s, Returns(v))
  {
    hide Working, Sent, Once, Delivered, Returned, AllAnswers, Conserved;
    WorkingSays(cfg, s, v);
    SaysAnswer(Of(cfg, v), s.vaults[v], s.vaults[v].replies.responses[0]);
  }

  /** Nothing gets stuck for want of a receiver: in every run the oldest packet of a link may be offered to its vault,
      and the oldest response of a vault may go to its link. */
  lemma NothingIsStuck(cfg: Config, run: seq<Stack>, moves: seq<Move>, i: nat, v: nat)
    requires Usable(cfg) && IsRun(cfg, run, moves)
    ensures var s := run[|moves|];
            && (i < |s.wires| && s.wires[i].taken < |s.wires[i].arrived| ==> May(cfg, s, Offers(i)))
            && (v < |s.vaults| && s.vaults[v].replies.responses != [] ==> May(cfg, s, Returns(v)))
  {
    hide After, Start, Usable, Working, Sent, Once, Delivered, Returned, Proper;
    RunInv(cfg, run, moves);
    var s := run[|moves|];
    if i < |s.wires| && s.wires[i].taken < |s.wires[i].arrived| {
      OldestIsNew(cfg, s, i);
    }
    if v < |s.vaults| && s.vaults[v].replies.responses != [] {
      MayReturn(cfg, s, v);
    }
  }
}
