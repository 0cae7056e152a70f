/** One cycle of the logic layer, in the moves of a stack: what the switch does between the links and the vaults is that
    some links offer their oldest packet, and some vaults return their oldest response. */
module LogicLayer {
  import L = Links
  import opened Vault
  import opened Stack

  /** The traffic as the links and the switch see it: for each link what came from the host, what of it went on, and
      what came from the vaults; for each vault what it has ready. */
  datatype Traffic = Traffic(arrived: seq<seq<L.Packet>>, forwarded: seq<seq<L.Packet>>, queued: seq<seq<L.Packet>>,
                             ready: seq<seq<L.Packet>>)

  /** The packet on a link that carries a packet of the host. */
  predicate Carries(l: L.Packet, p: Packet) { l.id == p.req.id && l.vault == Target(p) && l.slid == p.slid }

  /** The packet on a link that carries a response. */
  predicate Gives(l: L.Packet, r: Response) { l.id == r.req.id && l.slid == r.slid && l.flits == r.lng }

  ghost predicate AllCarry(ls: seq<L.Packet>, ps: seq<Packet>) {
    |ls| == |ps| && forall k :: 0 <= k < |ls| ==> Carries(ls[k], ps[k])
  }

  ghost predicate AllGive(ls: seq<L.Packet>, rs: seq<Response>) {
    |ls| == |rs| && forall k :: 0 <= k < |ls| ==> Gives(ls[k], rs[k])
  }

  ghost predicate AllQueued(ls: seq<L.Packet>, answers: seq<Answer>) {
    |ls| == |answers| && forall k :: 0 <= k < |ls| ==> Gives(ls[k], answers[k].response)
  }

  /** The traffic is that of the stack. */
  ghost predicate WireIs(arrived: seq<L.Packet>, forwarded: seq<L.Packet>, queued: seq<L.Packet>, w: Wire) {
    && AllCarry(arrived, w.arrived) && forwarded <= arrived && |forwarded| == w.taken
    && AllQueued(queued, w.queued)
  }

  ghost predicate Mirrors(n: Traffic, s: Stack) {
    && |n.arrived| == |n.forwarded| == |n.queued| == |s.wires| && |n.ready| == |s.vaults|
    && (forall i :: 0 <= i < |s.wires| ==> WireIs(n.arrived[i], n.forwarded[i], n.queued[i], s.wires[i]))
    && forall v :: 0 <= v < |s.vaults| ==> AllGive(n.ready[v], s.vaults[v].replies.responses)
  }

  /** What is still in a link's buffer. */
  function Input(n: Traffic, i: nat): seq<L.Packet>
    requires i < |n.arrived| == |n.forwarded| && |n.forwarded[i]| <= |n.arrived[i]|
  {
    n.arrived[i][|n.forwarded[i]|..]
  }

  /** The stack goes from `run[0]` to its last state by these moves. */
  ghost predicate IsPath(cfg: Config, run: seq<Stack>, moves: seq<Move>) {
    && |run| == |moves| + 1
    && forall i :: 0 <= i < |moves| ==> May(cfg, run[i], moves[i]) && run[i + 1] == After(cfg, run[i], moves[i])
  }

  lemma PathSnoc(cfg: Config, run: seq<Stack>, moves: seq<Move>, m: Move)
    requires IsPath(cfg, run, moves) && May(cfg, run[|moves|], m)
    ensures IsPath(cfg, run + [After(cfg, run[|moves|], m)], moves + [m])
  {
    hide May, After;
  }

  // ---------------------------------------------------------------- from the links to the vaults

  /** The answers that the switch gets from the vaults are theirs. */
  ghost predicate Asked(n: Traffic, s: Stack, accepts: seq<bool>) {
    && |accepts| == |s.wires|
    && forall i :: 0 <= i < |s.wires| && s.wires[i].taken < |s.wires[i].arrived| ==>
         var p := s.wires[i].arrived[s.wires[i].taken];
         0 <= Target(p) < |s.vaults| && accepts[i] == Accepts(s.vaults[Target(p)], p.req)
  }

  ghost predicate VaultUsed(requests: seq<L.Pass>, k: nat, v: nat) {
    exists p :: p in requests && p.link < k && p.packet.vault == v
  }

  /** What the switch says of the requests. */
  ghost predicate Requested(sw: L.Switch, n: Traffic, m: Traffic, accepts: seq<bool>, requests: seq<L.Pass>) {
    && |n.arrived| == |n.forwarded| == |m.forwarded| == |accepts|
    && L.OnePerVault(requests) && L.OnePerLink(requests)
    && forall i :: 0 <= i < |n.arrived| ==>
         && |n.forwarded[i]| <= |n.arrived[i]|
         && sw.RequestMoved(i, accepts[i], requests, Input(n, i), n.forwarded[i], m.forwarded[i])
  }

  /** The links before `k` have made their offers. */
  ghost predicate Offered(m: Traffic, requests: seq<L.Pass>, s: Stack, t: Stack, k: nat) {
    && |t.wires| == |s.wires| == |m.forwarded| && |t.vaults| == |s.vaults|
    && (forall i :: 0 <= i < |s.wires| ==>
          t.wires[i] == if i < k then s.wires[i].(taken := |m.forwarded[i]|) else s.wires[i])
    && forall v :: 0 <= v < |s.vaults| ==>
         && t.vaults[v].replies.responses == s.vaults[v].replies.responses
         && (!VaultUsed(requests, k, v) ==> t.vaults[v].queues == s.vaults[v].queues)
  }

  /** What an offer does. */
  lemma OfferDoes(cfg: Config, t: Stack, i: nat)
    requires Inv(cfg, t) && i < |t.wires| && t.wires[i].taken < |t.wires[i].arrived|
    ensures May(cfg, t, Offers(i))
    ensures var p := t.wires[i].arrived[t.wires[i].taken];
            var u, v := After(cfg, t, Offers(i)), Target(p);
            && 0 <= v < |t.vaults| && u.wires == t.wires[i := t.wires[i].(taken := u.wires[i].taken)]
            && u.wires[i].taken == t.wires[i].taken + (if Accepts(t.vaults[v], p.req) then 1 else 0)
            && |u.vaults| == |t.vaults| && (forall w :: 0 <= w < |t.vaults| && w != v ==> u.vaults[w] == t.vaults[w])
            && u.vaults[v].replies.responses == t.vaults[v].replies.responses
            && (!Accepts(t.vaults[v], p.req) ==> u.vaults[v].queues == t.vaults[v].queues)
  {
    hide Working, Sent, Once, Known, Delivered, Returned, Forwards, Accepts, Valid;
    OldestIsNew(cfg, t, i);
    var p := t.wires[i].arrived[t.wires[i].taken];
    StampedSays(Of(cfg, Target(p)), t.vaults[Target(p)], p);
  }

  lemma AcceptsAlike(v: Vault, w: Vault, r: Request)
    requires v.queues == w.queues
    ensures Accepts(v, r) == Accepts(w, r)
  {
  }

  /** What the switch says of link `k`. */
  lemma RequestSays(cfg: Config, sw: L.Switch, n: Traffic, m: Traffic, accepts: seq<bool>, requests: seq<L.Pass>,
                    s: Stack, k: nat)
    requires Mirrors(n, s) && Inv(cfg, s) && Asked(n, s, accepts) && k < |s.wires|
    requires Requested(sw, n, m, accepts, requests)
    ensures s.wires[k].taken <= |s.wires[k].arrived|
    ensures s.wires[k].taken == |s.wires[k].arrived| ==>
              |m.forwarded[k]| == s.wires[k].taken && forall p :: p in requests ==> p.link != k
    ensures s.wires[k].taken < |s.wires[k].arrived| ==>
              var v := Target(s.wires[k].arrived[s.wires[k].taken]);
              && 0 <= v < |s.vaults|
              && if exists p :: p in requests && p.link == k then
                   && accepts[k] && |m.forwarded[k]| == s.wires[k].taken + 1 && !VaultUsed(requests, k, v)
                   && (forall p :: p in requests && p.link == k ==> p.packet.vault == v)
                 else |m.forwarded[k]| == s.wires[k].taken && (accepts[k] ==> VaultUsed(requests, k, v))
  {
    hide Working, Sent, Once, Known, Delivered, Returned, L.OnePerVault, L.OnePerLink;
    HostSays(cfg, s);
    var w, input := s.wires[k], Input(n, k);
    assert WireIs(n.arrived[k], n.forwarded[k], n.queued[k], w);
    if w.taken < |w.arrived| {
      assert input[0] == n.arrived[k][w.taken] && Carries(input[0], w.arrived[w.taken]);
      if p :| p in requests && p.link == k {
        OneLinkSays(requests, L.Pass(k, input[0]));
        NotUsed(requests, L.Pass(k, input[0]), k);
      }
    }
  }

  lemma OneLinkSays(requests: seq<L.Pass>, q: L.Pass)
    requires L.OnePerLink(requests) && q in requests
    ensures forall p :: p in requests && p.link == q.link ==> p == q
  {
  }

  lemma NotUsed(requests: seq<L.Pass>, q: L.Pass, k: nat)
    requires L.OnePerVault(requests) && q in requests && q.link == k
    ensures !VaultUsed(requests, k, q.packet.vault)
  {
  }

  lemma UsedMore(requests: seq<L.Pass>, k: nat, v: nat)
    ensures VaultUsed(requests, k + 1, v) <==>
            VaultUsed(requests, k, v) || exists p :: p in requests && p.link == k && p.packet.vault == v
  {
  }

  /** A link's turn: it offers its packet, unless it has none or its vault had one already. */
  lemma OfferedNext(cfg: Config, sw: L.Switch, n: Traffic, m: Traffic, accepts: seq<bool>, requests: seq<L.Pass>,
                    s: Stack, t: Stack, k: nat) returns (moves: seq<Move>, u: Stack)
    requires Mirrors(n, s) && Inv(cfg, s) && Asked(n, s, accepts) && k < |s.wires|
    requires Requested(sw, n, m, accepts, requests) && Inv(cfg, t) && Offered(m, requests, s, t, k)
    ensures if moves == [] then u == t
            else moves == [Offers(k)] && May(cfg, t, Offers(k)) && u == After(cfg, t, Offers(k))
    ensures Offered(m, requests, s, u, k + 1)
  {
    hide Inv, Mirrors, Requested, VaultUsed, Proper, Accepts, After;
    RequestSays(cfg, sw, n, m, accepts, requests, s, k);
    moves, u := [], t;
    forall v: nat
      ensures VaultUsed(requests, k, v) ==> VaultUsed(requests, k + 1, v)
    {
      UsedMore(requests, k, v);
    }
    if s.wires[k].taken < |s.wires[k].arrived| {
      var p := s.wires[k].arrived[s.wires[k].taken];
      var v := Target(p);
      UsedMore(requests, k, v);
      if !VaultUsed(requests, k, v) {
        OfferDoes(cfg, t, k);
        AcceptsAlike(s.vaults[v], t.vaults[v], p.req);
        moves, u := [Offers(k)], After(cfg, t, Offers(k));
      }
    }
  }

  /** Only the switch moves: links offer packets, or vaults return responses. */
  ghost predicate OfSwitch(moves: seq<Move>) {
    forall k :: 0 <= k < |moves| ==> moves[k].Offers? || moves[k].Returns?
  }

  lemma PathMore(cfg: Config, run: seq<Stack>, moves: seq<Move>, more: seq<Move>, u: Stack)
      returns (run': seq<Stack>, moves': seq<Move>)
    requires Usable(cfg) && IsPath(cfg, run, moves) && Inv(cfg, run[|moves|]) && OfSwitch(moves + more)
    requires if more == [] then u == run[|moves|]
             else |more| == 1 && May(cfg, run[|moves|], more[0]) && u == After(cfg, run[|moves|], more[0])
    ensures IsPath(cfg, run', moves') && run'[0] == run[0] && run'[|moves'|] == u && Inv(cfg, u) && OfSwitch(moves')
  {
    hide May, After, Inv, Usable;
    if more == [] {
      run', moves' := run, moves;
      assert moves + more == moves;
    } else {
      assert moves + [more[0]] == moves + more;
      PathSnoc(cfg, run, moves, more[0]);
      MoveInv(cfg, run[|moves|], more[0]);
      run', moves' := run + [u], moves + [more[0]];
    }
  }

  lemma {:induction false} OffersUpTo(cfg: Config, sw: L.Switch, n: Traffic, m: Traffic, accepts: seq<bool>,
                                      requests: seq<L.Pass>, s: Stack, k: nat)
      returns (run: seq<Stack>, moves: seq<Move>)
    requires Usable(cfg) && Mirrors(n, s) && Inv(cfg, s) && Asked(n, s, accepts) && k <= |s.wires| == |m.forwarded|
    requires Requested(sw, n, m, accepts, requests)
    ensures IsPath(cfg, run, moves) && run[0] == s && Inv(cfg, run[|moves|])
    ensures Offered(m, requests, s, run[|moves|], k) && OfSwitch(moves)
    decreases k
  {
    hide Usable, Inv, Mirrors, Asked, Requested, May, After;
    if k == 0 {
      run, moves := [s], [];
    } else {
      var run0, moves0 := OffersUpTo(cfg, sw, n, m, accepts, requests, s, k - 1);
      var more, u := OfferedNext(cfg, sw, n, m, accepts, requests, s, run0[|moves0|], k - 1);
      run, moves := PathMore(cfg, run0, moves0, more, u);
    }
  }

  // ---------------------------------------------------------------- from the vaults to the links

  /** What the switch says of the responses. */
  ghost predicate Answered(sw: L.Switch, n: Traffic, m: Traffic, answers: seq<L.Pass>, sizes: seq<nat>) {
    && |n.queued| == |m.queued| && |n.ready| == |m.ready| && L.OnePerLink(answers)
    && sw.Givers(answers, n.ready, m.ready)
    && (forall i :: 0 <= i < |n.queued| ==> sw.LinkGot(i, answers, n.queued[i], m.queued[i]))
    && forall v :: 0 <= v < |n.ready| ==> sw.ResponseMoved(answers, sizes, n.ready[v], m.ready[v])
  }

  /** One of the first vaults has given its response to link `i`. */
  ghost predicate Served(n: Traffic, m: Traffic, k: nat, i: nat) {
    exists v ::
      && 0 <= v < k && v < |n.ready| == |m.ready|
      && n.ready[v] != [] && m.ready[v] != n.ready[v] && n.ready[v][0].slid == i
  }

  /** The vaults before `k` have had their turn. */
  ghost predicate TurnsTaken(n: Traffic, m: Traffic, t: Stack, u: Stack, k: nat) {
    && |u.wires| == |t.wires| == |n.queued| == |m.queued| && |u.vaults| == |t.vaults| == |n.ready| == |m.ready|
    && (forall v :: 0 <= v < |t.vaults| ==>
          AllGive(if v < k then m.ready[v] else n.ready[v], u.vaults[v].replies.responses))
    && forall i :: 0 <= i < |t.wires| ==>
         && u.wires[i] == t.wires[i].(queued := u.wires[i].queued)
         && AllQueued(if Served(n, m, k, i) then m.queued[i] else n.queued[i], u.wires[i].queued)
  }

  /** What the switch says of vault `k`: if it gave its response away, the link has got just that one. */
  lemma AnswerSays(sw: L.Switch, n: Traffic, m: Traffic, answers: seq<L.Pass>, sizes: seq<nat>, k: nat)
    requires Answered(sw, n, m, answers, sizes) && k < |n.ready|
    ensures n.ready[k] == [] ==> m.ready[k] == []
    ensures n.ready[k] != [] && m.ready[k] != n.ready[k] ==>
              var i := n.ready[k][0].slid;
              && m.ready[k] == n.ready[k][1..] && !Served(n, m, k, i)
              && (i < |n.queued| ==> m.queued[i] == n.queued[i] + [n.ready[k][0]])
  {
    hide L.OnePerLink;
    if n.ready[k] != [] && m.ready[k] != n.ready[k] {
      assert sw.Gave(n.ready[k], m.ready[k]);
      assert L.Pass(n.ready[k][0].slid, n.ready[k][0]) in answers;
      forall v | 0 <= v < k && n.ready[v] != [] && m.ready[v] != n.ready[v]
        ensures n.ready[v][0].slid != n.ready[k][0].slid
      {
        assert sw.Gave(n.ready[v], m.ready[v]);
      }
    }
  }

  /** A link that no vault has given anything to has got nothing. */
  lemma UnservedGotNothing(sw: L.Switch, n: Traffic, m: Traffic, answers: seq<L.Pass>, sizes: seq<nat>, i: nat)
    requires Answered(sw, n, m, answers, sizes) && i < |n.queued| && !Served(n, m, |n.ready|, i)
    ensures m.queued[i] == n.queued[i]
  {
    hide L.OnePerLink;
    forall p | p in answers
      ensures p.link != i
    {
      var v :| 0 <= v < |n.ready| && sw.Gave(n.ready[v], m.ready[v]) && n.ready[v][0] == p.packet;
      assert n.ready[v][0].slid != i;
    }
  }

  lemma ServedMore(n: Traffic, m: Traffic, k: nat, i: nat)
    requires k < |n.ready| == |m.ready|
    ensures Served(n, m, k + 1, i) <==>
            Served(n, m, k, i) || (n.ready[k] != [] && m.ready[k] != n.ready[k] && n.ready[k][0].slid == i)
  {
  }

  /** What returning a response does. */
  lemma ReturnDoes(cfg: Config, u: Stack, v: nat)
    requires Inv(cfg, u) && v < |u.vaults| && u.vaults[v].replies.responses != []
    ensures May(cfg, u, Returns(v))
    ensures var w, r := After(cfg, u, Returns(v)), u.vaults[v].replies.responses[0];
            && 0 <= r.slid < |u.wires|
            && w.wires == u.wires[r.slid := u.wires[r.slid].(queued := u.wires[r.slid].queued + [Answer(v, r)])]
            && |w.vaults| == |u.vaults| && (forall x :: 0 <= x < |u.vaults| && x != v ==> w.vaults[x] == u.vaults[x])
            && w.vaults[v].replies.responses == u.vaults[v].replies.responses[1..]
  {
    MayReturn(cfg, u, v);
    hide Inv;
  }

  /** A vault's turn: it gives its oldest response to its link, or keeps it. */
  lemma TurnNext(cfg: Config, sw: L.Switch, n: Traffic, m: Traffic, answers: seq<L.Pass>, sizes: seq<nat>,
                 t: Stack, u: Stack, k: nat) returns (moves: seq<Move>, w: Stack)
    requires Answered(sw, n, m, answers, sizes) && k < |t.vaults| && Inv(cfg, u) && TurnsTaken(n, m, t, u, k)
    ensures if moves == [] then w == u
            else moves == [Returns(k)] && May(cfg, u, Returns(k)) && w == After(cfg, u, Returns(k))
    ensures TurnsTaken(n, m, t, w, k + 1)
  {
    hide Inv, Answered, Served, May, After;
    AnswerSays(sw, n, m, answers, sizes, k);
    moves, w := [], u;
    forall i: nat
      ensures Served(n, m, k + 1, i) <==>
              Served(n, m, k, i) || (n.ready[k] != [] && m.ready[k] != n.ready[k] && n.ready[k][0].slid == i)
    {
      ServedMore(n, m, k, i);
    }
    if n.ready[k] != [] && m.ready[k] != n.ready[k] {
      var r := u.vaults[k].replies.responses[0];
      assert Gives(n.ready[k][0], r);
      ReturnDoes(cfg, u, k);
      moves, w := [Returns(k)], After(cfg, u, Returns(k));
      assert u.wires[r.slid] == t.wires[r.slid].(queued := u.wires[r.slid].queued);
    }
  }

  lemma {:induction false} TurnsUpTo(cfg: Config, sw: L.Switch, n: Traffic, m: Traffic, answers: seq<L.Pass>,
                                     sizes: seq<nat>, t: Stack, run: seq<Stack>, moves: seq<Move>, k: nat)
      returns (run': seq<Stack>, moves': seq<Move>)
    requires Usable(cfg) && Answered(sw, n, m, answers, sizes) && k <= |t.vaults| && Inv(cfg, t)
    requires IsPath(cfg, run, moves) && run[|moves|] == t && TurnsTaken(n, m, t, t, 0) && OfSwitch(moves)
    ensures IsPath(cfg, run', moves') && run'[0] == run[0] && Inv(cfg, run'[|moves'|]) && OfSwitch(moves')
    ensures TurnsTaken(n, m, t, run'[|moves'|], k)
    decreases k
  {
    hide Usable, Inv, Answered, TurnsTaken, May, After;
    if k == 0 {
      run', moves' := run, moves;
    } else {
      var run0, moves0 := TurnsUpTo(cfg, sw, n, m, answers, sizes, t, run, moves, k - 1);
      var more, w := TurnNext(cfg, sw, n, m, answers, sizes, t, run0[|moves0|], k - 1);
      run', moves' := PathMore(cfg, run0, moves0, more, w);
    }
  }

  // ---------------------------------------------------------------- the whole cycle

  lemma TurnsStart(n: Traffic, m: Traffic, requests: seq<L.Pass>, s: Stack, t: Stack)
    requires Mirrors(n, s) && Offered(m, requests, s, t, |s.wires|)
    requires |n.queued| == |m.queued| && |n.ready| == |m.ready|
    ensures TurnsTaken(n, m, t, t, 0)
  {
    forall i | 0 <= i < |s.wires|
      ensures AllQueued(n.queued[i], t.wires[i].queued) && !Served(n, m, 0, i)
    {
      assert WireIs(n.arrived[i], n.forwarded[i], n.queued[i], s.wires[i]);
    }
  }

  lemma ForwardedGrows(sw: L.Switch, n: Traffic, m: Traffic, accepts: seq<bool>, requests: seq<L.Pass>, i: nat)
    requires Requested(sw, n, m, accepts, requests) && i < |n.arrived| && n.forwarded[i] <= n.arrived[i]
    ensures m.forwarded[i] <= n.arrived[i]
  {
    hide L.OnePerVault, L.OnePerLink;
    assert n.arrived[i] == n.forwarded[i] + Input(n, i);
  }

  lemma MirrorsAfter(sw: L.Switch, n: Traffic, m: Traffic, accepts: seq<bool>, requests: seq<L.Pass>,
                     answers: seq<L.Pass>, sizes: seq<nat>, s: Stack, t: Stack, u: Stack)
    requires Mirrors(n, s) && m.arrived == n.arrived && Offered(m, requests, s, t, |s.wires|)
    requires Requested(sw, n, m, accepts, requests) && Answered(sw, n, m, answers, sizes)
    requires TurnsTaken(n, m, t, u, |t.vaults|)
    ensures Mirrors(m, u)
  {
    hide Requested, Answered, Served, VaultUsed, AllCarry, AllGive, AllQueued;
    forall i | 0 <= i < |s.wires|
      ensures WireIs(m.arrived[i], m.forwarded[i], m.queued[i], u.wires[i])
    {
      assert WireIs(n.arrived[i], n.forwarded[i], n.queued[i], s.wires[i]);
      ForwardedGrows(sw, n, m, accepts, requests, i);
      if !Served(n, m, |n.ready|, i) {
        UnservedGotNothing(sw, n, m, answers, sizes, i);
      }
    }
  }

  /** What the switch does in a cycle is a path of the stack: some links offer their oldest packet to its vault, then
      some vaults return their oldest response to its link. */
  lemma SwitchingIsMoves(cfg: Config, sw: L.Switch, n: Traffic, m: Traffic, accepts: seq<bool>, requests: seq<L.Pass>,
                         answers: seq<L.Pass>, sizes: seq<nat>, s: Stack)
      returns (run: seq<Stack>, moves: seq<Move>)
    requires Usable(cfg) && Mirrors(n, s) && Inv(cfg, s) && Asked(n, s, accepts)
    requires |s.wires| == |m.forwarded| && m.arrived == n.arrived
    requires Requested(sw, n, m, accepts, requests) && Answered(sw, n, m, answers, sizes)
    ensures IsPath(cfg, run, moves) && run[0] == s && Inv(cfg, run[|moves|]) && Mirrors(m, run[|moves|])
    ensures OfSwitch(moves)
  {
    hide Usable, Inv, Asked, Requested, May, After, Mirrors, Offered, TurnsTaken, OfSwitch;
    var run0, moves0 := OffersUpTo(cfg, sw, n, m, accepts, requests, s, |s.wires|);
    var t := run0[|moves0|];
    AnsweredSizes(sw, n, m, answers, sizes);
    hide Answered;
    TurnsStart(n, m, requests, s, t);
    run, moves := TurnsUpTo(cfg, sw, n, m, answers, sizes, t, run0, moves0, |t.vaults|);
    MirrorsAfter(sw, n, m, accepts, requests, answers, sizes, s, t, run[|moves|]);
  }

  lemma AnsweredSizes(sw: L.Switch, n: Traffic, m: Traffic, answers: seq<L.Pass>, sizes: seq<nat>)
    requires Answered(sw, n, m, answers, sizes)
    ensures |n.queued| == |m.queued| && |n.ready| == |m.ready|
  {
  }

  /** The traffic of a switch and its links. */
  ghost function Seen(sw: L.Switch): (n: Traffic)
    reads sw, sw.links
    ensures |n.arrived| == |n.forwarded| == |n.queued| == |sw.links| && n.ready == sw.responses
    ensures forall i :: 0 <= i < |sw.links| ==>
              && n.arrived[i] == sw.links[i].arrived && n.forwarded[i] == sw.links[i].forwarded
              && n.queued[i] == sw.links[i].queued
  {
    Traffic(seq(|sw.links|, i requires 0 <= i < |sw.links| reads sw.links => sw.links[i].arrived),
            seq(|sw.links|, i requires 0 <= i < |sw.links| reads sw.links => sw.links[i].forwarded),
            seq(|sw.links|, i requires 0 <= i < |sw.links| reads sw.links => sw.links[i].queued),
            sw.responses)
  }

  lemma InputIs(sw: L.Switch)
    requires sw.Valid()
    ensures forall i :: 0 <= i < |sw.links| ==>
              && |Seen(sw).forwarded[i]| <= |Seen(sw).arrived[i]| && Input(Seen(sw), i) == sw.links[i].input
  {
    hide sw.Sendable;
    forall i | 0 <= i < |sw.links|
      ensures sw.links[i].arrived == sw.links[i].forwarded + sw.links[i].input
    {
      assert sw.links[i].Valid();
    }
  }

  /** A cycle of the logic layer moves the stack that it belongs to along a path of its own moves. */
  method Tick(sw: L.Switch, accepts: seq<bool>, ghost cfg: Config, ghost s: Stack)
      returns (ghost run: seq<Stack>, ghost moves: seq<Move>)
    requires sw.Valid() && Usable(cfg) && Inv(cfg, s) && Mirrors(Seen(sw), s) && Asked(Seen(sw), s, accepts)
    modifies sw, sw.links
    ensures sw.Valid() && IsPath(cfg, run, moves) && run[0] == s && OfSwitch(moves)
    ensures Inv(cfg, run[|moves|]) && Mirrors(Seen(sw), run[|moves|])
  {
    hide L.Link.Valid, L.OnePerVault, L.OnePerLink, Usable, Inv, Mirrors, L.Clocked;
    ghost var n := Seen(sw);
    InputIs(sw);
    MirrorsSizes(n, s);
    var requests, answers, sizes := sw.Tick(accepts);
    ghost var m := Seen(sw);
    assert m.arrived == n.arrived;
    assert Requested(sw, n, m, accepts, requests);
    assert Answered(sw, n, m, answers, sizes);
    run, moves := SwitchingIsMoves(cfg, sw, n, m, accepts, requests, answers, sizes, s);
  }

  lemma MirrorsSizes(n: Traffic, s: Stack)
    requires Mirrors(n, s)
    ensures |n.arrived| == |n.forwarded| == |n.queued| == |s.wires| && |n.ready| == |s.vaults|
  {
  }
}
