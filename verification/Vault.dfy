/** The controller of one vault: its queues, its write-drain mode, its refresh timer, and what it does in
    one clock cycle.  The device is seen through the history of the commands issued to it, which
    `DramTree` shows the tree of nodes to represent. */
module Vault {
  import opened Device
  import opened History
  import opened BankState
  import opened Activity
  import opened RowTable
  import Scheduler
  import opened Tally

  /** The capacity of each queue, and the drain thresholds at 80% and 20% of it, rounded down. */
  const QUEUE_MAX := 32
  const HIGH_MARK := 25
  const LOW_MARK := 6

  datatype Kind = Read | Write | Refresh

  /** `first` until the first command on behalf of the request; `burst` column commands remain. */
  datatype Request = Request(kind: Kind, addr: int, vec: Address, id: int, nmp: bool, first: bool, arrive: int,
                             depart: int, burst: int)

  datatype Packet = Packet(cub: int, tag: int, slid: int, cmd: int, req: Request)

  datatype Response = Response(cub: int, tag: int, slid: int, cmd: int, lng: int, req: Request)

  datatype Config = Config(speed: HmcSpeed, vaults: nat, groups: nat, banks: nat, id: int, burst: int, payload: int)

  function Dev(cfg: Config): Spec { Hmc(cfg.speed, cfg.vaults, cfg.groups, cfg.banks) }

  function ReadLatency(cfg: Config): int { cfg.speed.nCL + cfg.speed.nBL }

  /** What the model assumes of a configuration. */
  predicate Usable(cfg: Config) { 1 <= cfg.burst && 1 < ReadLatency(cfg) && 0 < cfg.groups && 0 < cfg.banks }

  datatype Queues = Queues(read: seq<Request>, write: seq<Request>, other: seq<Request>)

  /** The packets of unanswered requests, the responses formed and not yet taken away, those taken away,
      and the requests that were answered by their callback instead. */
  datatype Replies = Replies(incoming: map<int, Packet>, responses: seq<Response>, sent: seq<Response>,
                             called: seq<Request>)

  datatype Timer = Timer(clk: int, refreshed: int)

  /** The commands issued to the device so far, and the controller's own record of open rows. */
  datatype Issued = Issued(history: seq<Event>, table: Table)

  /** `pending` are the reads waiting to depart, `activity` what was reported to the device about requests
      being served, and `accepted` every packet whose request was taken in; `ok` holds until an assertion
      of the source fails. */
  datatype Vault = Vault(clk: int, writeMode: bool, queues: Queues, pending: seq<Request>, replies: Replies,
                         timer: Timer, issued: Issued, activity: seq<Change>, accepted: seq<Packet>, ok: bool)

  function Init(): Vault {
    Vault(0, false, Queues([], [], []), [], Replies(map[], [], [], []), Timer(0, 0), Issued([], map[]), [], [], true)
  }

  function Queue(qs: Queues, k: Kind): seq<Request> {
    match k
    case Read => qs.read
    case Write => qs.write
    case Refresh => qs.other
  }

  function WithQueue(qs: Queues, k: Kind, q: seq<Request>): Queues {
    match k
    case Read => qs.(read := q)
    case Write => qs.(write := q)
    case Refresh => qs.(other := q)
  }

  // ---------------------------------------------------------------- taking requests in

  predicate Accepts(v: Vault, r: Request) { r.nmp || |Queue(v.queues, r.kind)| != QUEUE_MAX }

  predicate Forwards(v: Vault, r: Request) {
    r.kind == Read && exists w :: w in v.queues.write && w.addr == r.addr
  }

  /** A read of an address with a queued write is answered in the next cycle and not queued. */
  function Enqueue(v: Vault, r: Request): Vault {
    var r' := r.(arrive := v.clk);
    if !Accepts(v, r) then v
    else if Forwards(v, r) then v.(pending := v.pending + [r'.(depart := v.clk + 1)])
    else v.(queues := WithQueue(v.queues, r.kind, Queue(v.queues, r.kind) + [r']))
  }

  function Stamped(cfg: Config, p: Packet): Packet { p.(req := p.req.(burst := cfg.burst)) }

  /** The packet is kept for the response header even when its request is refused. */
  function Receive(cfg: Config, v: Vault, p: Packet): Vault {
    var p' := Stamped(cfg, p);
    Enqueue(v, p'.req).(replies := v.replies.(incoming := v.replies.incoming[p.req.id := p']),
                        accepted := v.accepted + if Accepts(v, p'.req) then [p'] else [])
  }

  // ---------------------------------------------------------------- one clock cycle

  /** The response for a finished request; its packet need not be kept any longer. */
  function Respond(cfg: Config, rs: Replies, r: Request): Replies {
    var p := if r.id in rs.incoming then rs.incoming[r.id] else Packet(0, 0, 0, 0, r);
    var response := Response(p.cub, p.tag, p.slid, p.cmd, if r.kind == Write then 1 else 1 + cfg.payload, r);
    rs.(responses := rs.responses + [response], incoming := rs.incoming - {r.id})
  }

  function CallBack(rs: Replies, r: Request): Replies {
    rs.(called := rs.called + [r], incoming := rs.incoming - {r.id})
  }

  /** A pending read that was served, not forwarded. */
  predicate WasServed(r: Request) { r.depart - r.arrive > 1 }

  /** The oldest pending read departs, if its time has come. */
  function Complete(cfg: Config, v: Vault): Vault {
    if v.pending == [] || v.pending[0].depart > v.clk then v
    else
      var r := v.pending[0];
      v.(pending := v.pending[1..],
         replies := if r.nmp then CallBack(v.replies, r) else Respond(cfg, v.replies, r),
         activity := v.activity + (if WasServed(r) then [Change(r.vec, -1, v.clk)] else []),
         ok := v.ok && r.id in v.replies.incoming)
  }

  function RefreshRequest(cfg: Config): Request {
    Request(Refresh, 0, [cfg.id, -1, -1, -1, -1], -1, false, true, -1, 0, 0)
  }

  /** Every `nREFI` cycles a refresh of the whole vault is queued. */
  function TickRefresh(cfg: Config, v: Vault): Vault {
    var clk := v.timer.clk + 1;
    if clk - v.timer.refreshed < cfg.speed.nREFI then v.(timer := v.timer.(clk := clk))
    else
      var r := RefreshRequest(cfg);
      Enqueue(v, r).(timer := Timer(clk, clk), ok := v.ok && Accepts(v, r))
  }

  function DrainMode(v: Vault): Vault {
    v.(writeMode := if !v.writeMode then |v.queues.write| >= HIGH_MARK || |v.queues.read| == 0
                    else !(|v.queues.write| <= LOW_MARK && |v.queues.read| != 0))
  }

  function Serving(v: Vault): Kind {
    if v.queues.other != [] then Refresh else if v.writeMode then Write else Read
  }

  function ServedQueue(v: Vault): seq<Request> { Queue(v.queues, Serving(v)) }

  function Column(k: Kind): Command {
    match k
    case Read => RD
    case Write => WR
    case Refresh => REF
  }

  /** The command that the request needs next. */
  ghost function First(cfg: Config, h: seq<Event>, r: Request): Command {
    Decode(Dev(cfg), h, Column(r.kind), r.vec)
  }

  ghost function ViewOf(cfg: Config, h: seq<Event>, clk: int, r: Request): Scheduler.View {
    Scheduler.View(Allows(Dev(cfg), h, First(cfg, h, r), r.vec, clk), RowHit(Dev(cfg), h, Column(r.kind), r.vec),
                   RowOpen(Dev(cfg), h, Column(r.kind), r.vec), Group(r.vec), r.arrive)
  }

  ghost function Views(cfg: Config, v: Vault): (vs: seq<Scheduler.View>)
    ensures |vs| == |ServedQueue(v)|
    ensures forall i :: 0 <= i < |vs| ==> vs[i] == ViewOf(cfg, v.issued.history, v.clk, ServedQueue(v)[i])
  {
    var q := ServedQueue(v);
    seq(|q|, i requires 0 <= i < |q| => ViewOf(cfg, v.issued.history, v.clk, q[i]))
  }

  /** The position of the request to work on in this cycle, or -1 if nothing can be issued. */
  ghost function Chosen(cfg: Config, v: Vault): (i: int)
    ensures -1 <= i < |ServedQueue(v)|
    ensures i != -1 ==> Scheduler.IsHead(Views(cfg, v), i) && Views(cfg, v)[i].ready
  {
    if ServedQueue(v) == [] then -1 else
      var i := Scheduler.Head(Views(cfg, v));
      if Views(cfg, v)[i].ready then i else -1
  }

  /** The first command for a read or write marks it as being served. */
  function Begin(v: Vault, i: nat): Vault
    requires i < |ServedQueue(v)|
  {
    var r := ServedQueue(v)[i];
    if !r.first then v
    else v.(queues := WithQueue(v.queues, Serving(v), ServedQueue(v)[i := r.(first := false)]),
            activity := v.activity + if r.kind == Refresh then [] else [Change(r.vec, 1, v.clk)])
  }

  /** The command reaches the device and the row table. */
  ghost function Issue(cfg: Config, v: Vault, c: Command, vec: Address): Vault {
    v.(issued := Issued(v.issued.history + [Event(c, vec, v.clk)], TableAfter(Dev(cfg), v.issued.table, c, vec, v.clk)),
       ok := v.ok && Allows(Dev(cfg), v.issued.history, c, vec, v.clk) && Fits(Dev(cfg), v.issued.table, c, vec))
  }

  /** One column command less to go; a refresh has none. */
  function OneLess(r: Request): Request {
    if r.kind == Refresh then r else r.(burst := r.burst - 1)
  }

  /** The request's own command was issued: its last one finishes the request. */
  function Finish(cfg: Config, v: Vault, i: nat): Vault
    requires i < |ServedQueue(v)|
  {
    var k, q := Serving(v), ServedQueue(v);
    var r := OneLess(q[i]);
    if r.burst != 0 then v.(queues := WithQueue(v.queues, k, q[i := r]))
    else
      var v' := v.(queues := WithQueue(v.queues, k, Without(q, i)));
      match r.kind
      case Read => v'.(pending := v.pending + [r.(depart := v.clk + ReadLatency(cfg))])
      case Write => v'.(replies := Respond(cfg, v.replies, r), ok := v.ok && r.id in v.replies.incoming,
                        activity := v.activity + [Change(r.vec, -1, v.clk)])
      case Refresh => v'
  }

  ghost function Serve(cfg: Config, v: Vault): Vault {
    var i := Chosen(cfg, v);
    if i == -1 then v
    else
      var r := ServedQueue(v)[i];
      var c := First(cfg, v.issued.history, r);
      var v' := Issue(cfg, Begin(v, i), c, r.vec);
      if c == Column(r.kind) then Finish(cfg, v', i) else v'
  }

  /** The state in which the cycle chooses a command. */
  function BeforeServe(cfg: Config, v: Vault): Vault {
    DrainMode(TickRefresh(cfg, Complete(cfg, v.(clk := v.clk + 1))))
  }

  ghost function Tick(cfg: Config, v: Vault): Vault {
    Serve(cfg, BeforeServe(cfg, v))
  }

  // ---------------------------------------------------------------- what each stage leaves alone

  lemma ReceiveFrame(cfg: Config, v: Vault, p: Packet)
    ensures var w := Receive(cfg, v, p);
            && w.clk == v.clk && w.writeMode == v.writeMode && w.timer == v.timer && w.issued == v.issued
            && w.activity == v.activity && w.ok == v.ok
  {
    hide Accepts, Forwards;
  }

  lemma CompleteFrame(cfg: Config, v: Vault)
    ensures var w := Complete(cfg, v);
            && w.clk == v.clk && w.queues == v.queues && w.timer == v.timer && w.issued == v.issued
            && w.accepted == v.accepted
  {
    hide Respond, CallBack;
  }

  lemma TickRefreshFrame(cfg: Config, v: Vault)
    ensures var w := TickRefresh(cfg, v);
            && w.clk == v.clk && w.queues.read == v.queues.read && w.queues.write == v.queues.write
            && w.pending == v.pending && w.replies == v.replies && w.issued == v.issued && w.activity == v.activity
            && w.accepted == v.accepted
  {
    hide Accepts;
  }

  lemma DrainFrame(v: Vault)
    ensures DrainMode(v) == v.(writeMode := DrainMode(v).writeMode)
  {
  }

  lemma BeforeServeFrame(cfg: Config, v: Vault)
    ensures var w := BeforeServe(cfg, v);
            && w.clk == v.clk + 1 && w.queues.read == v.queues.read && w.queues.write == v.queues.write
            && w.issued == v.issued && w.accepted == v.accepted
  {
    var u := v.(clk := v.clk + 1);
    CompleteFrame(cfg, u);
    TickRefreshFrame(cfg, Complete(cfg, u));
    hide Complete, TickRefresh;
    assert BeforeServe(cfg, v) == DrainMode(TickRefresh(cfg, Complete(cfg, u)));
  }

  lemma BeginFrame(v: Vault, i: nat)
    requires i < |ServedQueue(v)|
    ensures var w := Begin(v, i);
            && w == v.(queues := w.queues, activity := w.activity)
            && Serving(w) == Serving(v) && ServedQueue(w) == ServedQueue(v)[i := ServedQueue(v)[i].(first := false)]
            && w.queues == WithQueue(v.queues, Serving(v), ServedQueue(w))
  {
    var q := ServedQueue(v);
    assert !q[i].first ==> q[i := q[i].(first := false)] == q;
  }

  lemma FinishFrame(cfg: Config, v: Vault, i: nat)
    requires i < |ServedQueue(v)|
    ensures var w, q := Finish(cfg, v, i), ServedQueue(v);
            var r := OneLess(q[i]);
            && w.clk == v.clk && w.timer == v.timer && w.writeMode == v.writeMode && w.issued == v.issued
            && w.accepted == v.accepted
            && w.queues == WithQueue(v.queues, Serving(v), if r.burst != 0 then q[i := r] else Without(q, i))
            && w.pending == (if r.burst == 0 && r.kind == Read
                             then v.pending + [r.(depart := v.clk + ReadLatency(cfg))] else v.pending)
            && w.replies == (if r.burst == 0 && r.kind == Write then Respond(cfg, v.replies, r) else v.replies)
            && w.activity == (if r.burst == 0 && r.kind == Write
                              then v.activity + [Change(r.vec, -1, v.clk)] else v.activity)
            && w.ok == (v.ok && (r.burst == 0 && r.kind == Write ==> r.id in v.replies.incoming))
  {
    hide Respond;
  }

  lemma ServeIsStages(cfg: Config, v: Vault)
    ensures var i := Chosen(cfg, v);
            if i == -1 then Serve(cfg, v) == v
            else
              var r := ServedQueue(v)[i];
              var c := First(cfg, v.issued.history, r);
              var v' := Issue(cfg, Begin(v, i), c, r.vec);
              && Serving(v') == Serving(v) && |ServedQueue(v')| == |ServedQueue(v)|
              && Serve(cfg, v) == if c == Column(r.kind) then Finish(cfg, v', i) else v'
  {
    var i := Chosen(cfg, v);
    if i != -1 {
      BeginFrame(v, i);
    }
    hide Chosen, Begin, Finish, First;
  }

  // ---------------------------------------------------------------- runs

  /** A packet arrives, a cycle passes, or the oldest response leaves. */
  datatype Action = Arrive(packet: Packet) | Cycle | Leave

  function TakeResponse(rs: Replies): Replies {
    if rs.responses == [] then rs
    else rs.(responses := rs.responses[1..], sent := rs.sent + [rs.responses[0]])
  }

  ghost function Step(cfg: Config, v: Vault, a: Action): Vault {
    match a
    case Arrive(p) => Receive(cfg, v, p)
    case Cycle => Tick(cfg, v)
    case Leave => v.(replies := TakeResponse(v.replies))
  }

  /** The address is inside this vault, down to a row and a column. */
  predicate InVault(cfg: Config, vec: Address) {
    |vec| == COLUMN + 1 && vec[VAULT] == cfg.id && 0 <= vec[BANK_GROUP] < cfg.groups && 0 <= vec[BANK] < cfg.banks
  }

  /** The packets that reach a vault: reads and writes for it, each with its own id. */
  predicate Valid(cfg: Config, v: Vault, a: Action) {
    a.Arrive? ==>
      && a.packet.req.kind != Refresh && a.packet.req.first && InVault(cfg, a.packet.req.vec)
      && forall p :: p in v.accepted ==> p.req.id != a.packet.req.id
  }

  /** The states that a vault goes through, one more than there are actions. */
  ghost predicate IsRun(cfg: Config, run: seq<Vault>, actions: seq<Action>) {
    && |run| == |actions| + 1 && run[0] == Init()
    && forall i :: 0 <= i < |actions| ==> Valid(cfg, run[i], actions[i]) && run[i + 1] == Step(cfg, run[i], actions[i])
  }

  function Last(run: seq<Vault>): Vault
    requires run != []
  {
    run[|run| - 1]
  }

  /** Any run can go on with any valid action. */
  lemma RunGoesOn(cfg: Config, run: seq<Vault>, actions: seq<Action>, a: Action)
    requires IsRun(cfg, run, actions) && Valid(cfg, Last(run), a)
    ensures IsRun(cfg, run + [Step(cfg, Last(run), a)], actions + [a])
  {
    hide Step, Valid;
  }

  lemma RunBefore(cfg: Config, run: seq<Vault>, actions: seq<Action>)
    requires IsRun(cfg, run, actions) && actions != []
    ensures var n := |actions| - 1;
            && IsRun(cfg, run[..n + 1], actions[..n]) && Last(run[..n + 1]) == run[n]
            && Valid(cfg, run[n], actions[n]) && Last(run) == Step(cfg, run[n], actions[n])
  {
    hide Step, Valid;
  }
}
