/**
 * The auction as a whole: any number of buyers and workers on a gossip network that drops,
 * duplicates and reorders. Peers in `System.correct` run the code of Buyer.dfy, Dispatch.dfy and
 * the runner below; every other peer publishes whatever it likes, but only as itself.
 */
module Protocol {
  import opened Wrappers
  import opened Wire
  import Dispatch
  import Buyer
  import Load
  import Pricing
  import Routing

  // ---- the static system -----------------------------------------------

  /** The subscriber and the runner of one workload on one node. */
  datatype SubId = SubId(peer: Peer, workload: string)

  /**
   * `subs` are the workloads correct nodes serve; `pools` the sizes of the slot semaphores they draw
   * on (shared by several workloads, or not); `spawning` the runners that let each job run on its own
   * instead of finishing it before they receive the next.
   */
  datatype System = System(
    correct: set<Peer>,
    subs: map<SubId, Dispatch.Config>,
    pools: map<Dispatch.SlotPool, nat>,
    spawning: set<SubId>)
  {
    ghost predicate Valid() {
      forall k | k in subs ::
        && k.peer in correct
        && subs[k].peer == k.peer
        && subs[k].workload == k.workload
        && (subs[k].slots.Some? ==> subs[k].slots.value in pools)
    }
  }

  // ---- one worker ------------------------------------------------------

  /** A bid that went out, with the terms it was remembered by. */
  datatype BidRecord = BidRecord(bid: JobBid, terms: Dispatch.OpenBid)

  /** A job that ran to its end, and what its receipt says. */
  datatype Ran = Ran(accept: JobAccept, status: JobStatus, outputHash: Option<string>)

  /**
   * A subscriber, its runner channel, the job its runner has received and not started, the jobs
   * running, the job-time average, and the record of what it bid on, forwarded and ran.
   */
  datatype Node = Node(
    sub: Dispatch.State,
    queue: seq<JobAccept>,
    held: Option<JobAccept>,
    running: seq<JobAccept>,
    averageMs: nat,
    bids: seq<BidRecord>,
    forwarded: seq<JobAccept>,
    ran: seq<Ran>)

  datatype WorkerEvent =
    | HearOffer(msg: Gossip, filterOk: bool, now: nat, bidNow: nat, benchScore: Option<U32>)
    | PublishBid(published: bool)
    | HearAccept(msg: Gossip, acceptNow: nat)
    | QueueJob(channelOpen: bool)
    | Receive
    | Acquire
    | Finish(i: nat, status: JobStatus, outputHash: Option<string>, tookMs: nat, completedMs: nat,
        receiptPublished: bool)

  datatype SlotChange = Keep | Take | Release

  datatype Effect = Effect(node: Node, sent: Option<Gossip>, slots: SlotChange)

  function Remove<T>(s: seq<T>, i: nat): seq<T>
    requires i < |s|
  {
    s[..i] + s[i + 1..]
  }

  function MakeReceipt(us: Peer, ran: Ran, completedMs: nat): JobReceipt {
    JobReceipt(ran.accept.jobId, us, ran.accept.buyer, ran.outputHash, ran.status, completedMs, ran.accept.externalRef)
  }

  function Sense(cfg: Dispatch.Config, node: Node, free: Option<nat>, total: nat, e: WorkerEvent): Dispatch.Surroundings
    requires e.HearOffer?
  {
    var recent := if cfg.slots.None? || node.averageMs == 0 then None else Some(node.averageMs);
    Dispatch.Surroundings(e.filterOk, e.now, e.bidNow, |node.queue|, free, total, recent, e.benchScore)
  }

  function OfferStep(cfg: Dispatch.Config, node: Node, free: Option<nat>, total: nat, e: WorkerEvent): Option<Effect>
    requires e.HearOffer?
  {
    if node.sub.mode.Idle? && e.msg.topic == JobTopic(cfg.workload) && e.msg.body.OfferBody? then
      var sub := Dispatch.Decide(cfg, node.sub, e.msg, e.msg.body.offer, Sense(cfg, node, free, total, e));
      Some(Effect(node.(sub := sub), None, Keep))
    else None
  }

  function PublishStep(cfg: Dispatch.Config, node: Node, published: bool): Option<Effect> {
    if node.sub.mode.Publishing? then
      var m := node.sub.mode;
      var next := node.(sub := Dispatch.AfterPublish(node.sub, published));
      if published then
        Some(Effect(next.(bids := node.bids + [BidRecord(m.bid, m.pending)]),
                    Some(Gossip(Some(cfg.peer), JobTopic(cfg.workload), BidBody(m.bid))), Keep))
      else Some(Effect(next, None, Keep))
    else None
  }

  function AcceptStep(cfg: Dispatch.Config, node: Node, msg: Gossip, now: nat): Option<Effect> {
    if node.sub.mode.Idle? && msg.topic == JobTopic(cfg.workload) && msg.body.AcceptBody? then
      Some(Effect(node.(sub := Dispatch.OnAccept(cfg, node.sub, msg, msg.body.accept, now)), None, Keep))
    else None
  }

  /** Queues a won job; waits while the queue is full, and loses the job if the runner is gone. */
  function QueueStep(cfg: Dispatch.Config, node: Node, channelOpen: bool): Option<Effect> {
    if node.sub.mode.Sending? && cfg.queueCap.Some? then
      var a, idle := node.sub.mode.accept, node.sub.(mode := Dispatch.Idle);
      if !channelOpen then Some(Effect(node.(sub := idle), None, Keep))
      else if |node.queue| < cfg.queueCap.value then
        Some(Effect(node.(sub := idle, queue := node.queue + [a], forwarded := node.forwarded + [a]), None, Keep))
      else None
    else None
  }

  function ReceiveStep(spawning: bool, node: Node): Option<Effect> {
    if node.held.None? && node.queue != [] && (spawning || node.running == []) then
      Some(Effect(node.(held := Some(node.queue[0]), queue := node.queue[1..]), None, Keep))
    else None
  }

  function AcquireStep(node: Node, free: Option<nat>): Option<Effect> {
    if node.held.Some? && (free.Some? ==> free.value > 0) then
      Some(Effect(node.(held := None, running := node.running + [node.held.value]), None, Take))
    else None
  }

  function FinishStep(cfg: Dispatch.Config, node: Node, e: WorkerEvent): Option<Effect>
    requires e.Finish?
  {
    if e.i < |node.running| then
      var ran := Ran(node.running[e.i], e.status, e.outputHash);
      var averageMs := if e.status.Completed? then Load.RecordMs(node.averageMs, e.tookMs) else node.averageMs;
      var next := node.(running := Remove(node.running, e.i), averageMs := averageMs, ran := node.ran + [ran]);
      var receipt := Gossip(Some(cfg.peer), JobTopic(cfg.workload), ReceiptBody(MakeReceipt(cfg.peer, ran,
          e.completedMs)));
      Some(Effect(next, if e.receiptPublished then Some(receipt) else None, Release))
    else None
  }

  /**
   * One step of one worker, with `free` of its `total` slots free. The subscriber handles one message
   * at a time; while it awaits a publish or a queue place, only its runner moves.
   */
  function WorkerStep(cfg: Dispatch.Config, spawning: bool, node: Node, free: Option<nat>, total: nat, e: WorkerEvent)
    : Option<Effect>
  {
    match e
    case HearOffer(_, _, _, _, _) => OfferStep(cfg, node, free, total, e)
    case PublishBid(published) => PublishStep(cfg, node, published)
    case HearAccept(msg, now) => AcceptStep(cfg, node, msg, now)
    case QueueJob(channelOpen) => QueueStep(cfg, node, channelOpen)
    case Receive => ReceiveStep(spawning, node)
    case Acquire => AcquireStep(node, free)
    case Finish(_, _, _, _, _, _) => FinishStep(cfg, node, e)
  }

  // ---- one auction -----------------------------------------------------

  /** The award: the winning bid among those standing when the window closed, and the accept sent for it. */
  datatype Award = Award(winner: JobBid, standing: seq<JobBid>, closedAt: nat, accept: JobAccept)

  /** An auction of a correct buyer, from its offer to the receipt it returns. */
  datatype Auction = Auction(
    buyer: Peer,
    req: Buyer.Request,
    offer: JobOffer,
    open: bool,
    bids: seq<JobBid>,
    award: Option<Award>,
    receipt: Option<JobReceipt>)

  datatype BuyerEvent =
    | HearBid(bidMsg: Gossip, now: nat)
    | CloseWindow(closeNow: nat, tick: nat, acceptNow: nat, acceptPublished: bool)
    | HearReceipt(receiptMsg: Gossip)

  function BuyerStep(jobId: JobId, a: Auction, e: BuyerEvent): Option<(Auction, Option<Gossip>)> {
    match e
    case HearBid(msg, now) =>
      if !a.open then None
      else if Buyer.BidCounts(a.req, jobId, a.buyer, msg, now) then
        Some((a.(bids := a.bids + [msg.body.bid]), None))
      else Some((a, None))
    case CloseWindow(closeNow, tick, acceptNow, acceptPublished) =>
      if !a.open then None
      else
        var standing := Buyer.RetainLive(a.bids, closeNow);
        if standing == [] || !acceptPublished || !Routing.FinitePrices(standing) then
          Some((a.(open := false), None))
        else
          var winner := Routing.Winner(a.req.policy, a.req.DeadlineSecs(), standing, tick);
          var accept := Buyer.MakeAccept(a.req, jobId, a.buyer, winner, acceptNow);
          Some((a.(open := false, award := Some(Award(winner, standing, closeNow, accept))),
                Some(Gossip(Some(a.buyer), JobTopic(a.req.workload), AcceptBody(accept)))))
    case HearReceipt(msg) =>
      if a.award.None? || a.receipt.Some? then None
      else if Buyer.ReceiptCounts(a.req, jobId, a.award.value.winner.bidder, msg) then
        Some((a.(receipt := Some(msg.body.receipt)), None))
      else Some((a, None))
  }

  // ---- the whole network -----------------------------------------------

  /** `net` is everything ever published; `holders` who holds a slot of each pool. */
  datatype State = State(
    net: set<Gossip>,
    auctions: map<JobId, Auction>,
    nodes: map<SubId, Node>,
    holders: map<Dispatch.SlotPool, multiset<SubId>>)

  datatype Event =
    | OpenAuction(jobId: JobId, buyer: Peer, req: Buyer.Request, now: nat, published: bool)
    | BuyerActs(auction: JobId, be: BuyerEvent)
    | WorkerActs(k: SubId, we: WorkerEvent)
    | OthersPublish(msg: Gossip)

  function Initially(sys: System): State {
    State({}, map[],
          map k | k in sys.subs :: Node(Dispatch.State(map[], Pricing.DYNAMIC_IDLE_SHARE, Dispatch.Idle), [], None,
              [], 0, [], [], []),
          map p | p in sys.pools :: multiset{})
  }

  function WorkerHears(e: WorkerEvent): set<Gossip> {
    match e
    case HearOffer(msg, _, _, _, _) => {msg}
    case HearAccept(msg, _) => {msg}
    case _ => {}
  }

  function BuyerHears(e: BuyerEvent): set<Gossip> {
    match e
    case HearBid(msg, _) => {msg}
    case HearReceipt(msg) => {msg}
    case CloseWindow(_, _, _, _) => {}
  }

  function Sent(g: Option<Gossip>): set<Gossip> {
    if g.Some? then {g.value} else {}
  }

  function FreeSlots(sys: System, s: State, k: SubId): Option<nat>
    requires k in sys.subs
  {
    match sys.subs[k].slots
    case Some(p) => if p in sys.pools && p in s.holders then Some(Max(sys.pools[p] - |s.holders[p]|, 0)) else None
    case None => None
  }

  function TotalSlots(sys: System, k: SubId): nat
    requires k in sys.subs
  {
    match sys.subs[k].slots
    case Some(p) => if p in sys.pools then sys.pools[p] else 1
    case None => 1
  }

  function ChangeHolders(sys: System, s: State, k: SubId, c: SlotChange): map<Dispatch.SlotPool, multiset<SubId>>
    requires k in sys.subs
  {
    match sys.subs[k].slots
    case None => s.holders
    case Some(p) =>
      if p !in s.holders then s.holders
      else
        match c
        case Keep => s.holders
        case Take => s.holders[p := s.holders[p] + multiset{k}]
        case Release => s.holders[p := s.holders[p] - multiset{k}]
  }

  /** The state after `e`, or `None` when `e` cannot happen in `s`. */
  function Step(sys: System, s: State, e: Event): Option<State> {
    match e
    case OpenAuction(jobId, buyer, req, now, published) =>
      if buyer !in sys.correct || jobId in s.auctions || !req.ValidRef() then None
      else
        var offer := Buyer.MakeOffer(req, jobId, buyer, now);
        var g := if published then Some(Gossip(Some(buyer), JobTopic(req.workload), OfferBody(offer))) else None;
        Some(s.(auctions := s.auctions[jobId := Auction(buyer, req, offer, published, [], None, None)],
                net := s.net + Sent(g)))
    case BuyerActs(j, be) =>
      if j !in s.auctions || !(BuyerHears(be) <= s.net) then None
      else
        (match BuyerStep(j, s.auctions[j], be)
         case None => None
         case Some((a, g)) => Some(s.(auctions := s.auctions[j := a], net := s.net + Sent(g))))
    case WorkerActs(k, we) =>
      if k !in sys.subs || k !in s.nodes || !(WorkerHears(we) <= s.net) then None
      else
        (match WorkerStep(sys.subs[k], k in sys.spawning, s.nodes[k], FreeSlots(sys, s, k), TotalSlots(sys, k), we)
         case None => None
         case Some(eff) =>
           Some(s.(nodes := s.nodes[k := eff.node], net := s.net + Sent(eff.sent),
                   holders := ChangeHolders(sys, s, k, eff.slots))))
    case OthersPublish(msg) =>
      if msg.source.Some? && msg.source.value in sys.correct then None
      else Some(s.(net := s.net + {msg}))
  }

  /** The state a sequence of events leads to. */
  function Run(sys: System, events: seq<Event>): Option<State> {
    if events == [] then Some(Initially(sys))
    else
      match Run(sys, events[..|events| - 1])
      case None => None
      case Some(s) => Step(sys, s, events[|events| - 1])
  }

  ghost predicate Reachable(sys: System, s: State) {
    exists events :: Run(sys, events) == Some(s)
  }
}
