/** What every step of the network keeps, and so what holds in every reachable state. */
module NetworkInvariants {
  import opened Wrappers
  import opened Floats
  import opened Wire
  import opened Protocol
  import opened WorkerInvariants
  import Dispatch
  import Buyer
  import Routing

  // ---- correct auctions ------------------------------------------------

  /** `b` is an authenticated bid that passed the filters of auction `a` on `j`. */
  predicate BidReceived(net: set<Gossip>, j: JobId, a: Auction, b: JobBid) {
    && b.jobId == j
    && b.bidder != a.buyer
    && Buyer.AllowedBy(a.req.allowed, b.bidder)
    && b.bidder !in a.req.excluded
    && Buyer.PriceInCap(b.price, a.req.maxPrice)
    && Gossip(Some(b.bidder), JobTopic(a.req.workload), BidBody(b)) in net
  }

  /** The published offer repeats the request. */
  predicate OfferAsRequested(j: JobId, a: Auction) {
    && a.offer.jobId == j
    && a.offer.buyer == a.buyer
    && a.offer.workload == a.req.workload
    && a.offer.spec == Some(a.req.spec)
    && a.offer.externalRef == a.req.externalRef
    && a.offer.maxPrice == a.req.maxPrice
    && a.offer.requiredCapabilities == a.req.requiredCapabilities
    && a.offer.deadlineMs == a.offer.publishedMs + a.req.deadlineMs
    && (a.offer.externalRef.Some? ==> ValidExternalRef(a.offer.externalRef.value))
  }

  /** The award went to a standing bid, live at the close and best in its ranking, and its accept was published. */
  ghost predicate AwardInOrder(net: set<Gossip>, j: JobId, a: Auction, w: Award) {
    && w.winner in w.standing
    && w.standing == Buyer.RetainLive(a.bids, w.closedAt)
    && (forall b | b in w.standing :: b in a.bids && b.IsLive(w.closedAt))
    && (forall b | b in w.standing ::
          Routing.Compare(Routing.RuleFor(a.req.policy, a.req.DeadlineSecs(), w.standing), w.winner, b) != Greater)
    && w.accept == Buyer.MakeAccept(a.req, j, a.buyer, w.winner, w.accept.publishedMs)
    && Gossip(Some(a.buyer), JobTopic(a.req.workload), AcceptBody(w.accept)) in net
  }

  predicate ReceiptInOrder(net: set<Gossip>, j: JobId, a: Auction, w: Award, r: JobReceipt) {
    && r.jobId == j
    && r.worker == w.winner.bidder
    && Buyer.ReceiptRefMatches(a.req.externalRef, r.externalRef)
    && Gossip(Some(w.winner.bidder), JobTopic(a.req.workload), ReceiptBody(r)) in net
  }

  ghost predicate AuctionInOrder(sys: System, net: set<Gossip>, j: JobId, a: Auction) {
    && a.buyer in sys.correct
    && OfferAsRequested(j, a)
    && (forall b | b in a.bids :: BidReceived(net, j, a, b))
    && (a.award.Some? ==> !a.open && AwardInOrder(net, j, a, a.award.value))
    && (a.receipt.Some? ==> a.award.Some? && ReceiptInOrder(net, j, a, a.award.value, a.receipt.value))
  }

  lemma HearingBidKeepsOrder(sys: System, net: set<Gossip>, j: JobId, a: Auction, msg: Gossip, now: nat, a': Auction)
    requires AuctionInOrder(sys, net, j, a) && msg in net
    requires BuyerStep(j, a, HearBid(msg, now)) == Some((a', None))
    ensures AuctionInOrder(sys, net, j, a')
  {
    assert msg == Gossip(msg.source, msg.topic, msg.body);
  }

  lemma HearingReceiptKeepsOrder(sys: System, net: set<Gossip>, j: JobId, a: Auction, msg: Gossip, a': Auction)
    requires AuctionInOrder(sys, net, j, a) && msg in net
    requires BuyerStep(j, a, HearReceipt(msg)) == Some((a', None))
    ensures AuctionInOrder(sys, net, j, a')
  {
    assert msg == Gossip(msg.source, msg.topic, msg.body);
  }

  lemma ClosingKeepsOrder(
    sys: System, net: set<Gossip>, j: JobId, a: Auction, e: BuyerEvent, a': Auction, g: Option<Gossip>)
    requires AuctionInOrder(sys, net, j, a) && e.CloseWindow? && BuyerStep(j, a, e) == Some((a', g))
    ensures AuctionInOrder(sys, net + Sent(g), j, a')
    ensures g.Some? ==>
              && a'.award.Some?
              && g.value == Gossip(Some(a.buyer), JobTopic(a.req.workload), AcceptBody(a'.award.value.accept))
  {
    var standing := Buyer.RetainLive(a.bids, e.closeNow);
    if standing != [] && Routing.FinitePrices(standing) {
      Routing.WinnerIsMinimal(a.req.policy, a.req.DeadlineSecs(), standing, e.tick);
    }
    AuctionMonotone(sys, net, net + Sent(g), j, a);
  }

  lemma BuyerKeepsAuctionInOrder(sys: System, net: set<Gossip>, j: JobId, a: Auction, e: BuyerEvent,
                                 a': Auction, g: Option<Gossip>)
    requires AuctionInOrder(sys, net, j, a) && BuyerHears(e) <= net && BuyerStep(j, a, e) == Some((a', g))
    ensures AuctionInOrder(sys, net + Sent(g), j, a')
    ensures a'.buyer == a.buyer && a'.req == a.req && a'.offer == a.offer
    ensures a.award.Some? ==> a'.award == a.award && g.None?
    ensures g.Some? ==>
              && a'.award.Some?
              && g.value == Gossip(Some(a.buyer), JobTopic(a.req.workload), AcceptBody(a'.award.value.accept))
  {
    match e
    case HearBid(msg, now) => HearingBidKeepsOrder(sys, net, j, a, msg, now, a'); assert net + Sent(g) == net;
    case CloseWindow(_, _, _, _) => ClosingKeepsOrder(sys, net, j, a, e, a', g);
    case HearReceipt(msg) => HearingReceiptKeepsOrder(sys, net, j, a, msg, a'); assert net + Sent(g) == net;
  }

  lemma AuctionMonotone(sys: System, net: set<Gossip>, net': set<Gossip>, j: JobId, a: Auction)
    requires AuctionInOrder(sys, net, j, a) && net <= net'
    ensures AuctionInOrder(sys, net', j, a)
  {
  }

  ghost predicate AuctionsInOrder(sys: System, s: State) {
    forall j | j in s.auctions :: AuctionInOrder(sys, s.net, j, s.auctions[j])
  }

  lemma StepKeepsAuctionsInOrder(sys: System, s: State, e: Event, s': State)
    requires AuctionsInOrder(sys, s) && Step(sys, s, e) == Some(s')
    ensures AuctionsInOrder(sys, s')
  {
    forall j | j in s'.auctions ensures AuctionInOrder(sys, s'.net, j, s'.auctions[j]) {
      if e.BuyerActs? && e.auction == j {
        var (a, g) := BuyerStep(j, s.auctions[j], e.be).value;
        BuyerKeepsAuctionInOrder(sys, s.net, j, s.auctions[j], e.be, a, g);
      } else if j in s.auctions {
        AuctionMonotone(sys, s.net, s'.net, j, s.auctions[j]);
      }
    }
  }

  // ---- workers ---------------------------------------------------------

  ghost predicate NodeInOrder(cfg: Dispatch.Config, net: set<Gossip>, node: Node) {
    && BidsInOrder(cfg, node)
    && WonWhatItForwards(cfg, net, node)
    && OnRecord(cfg, net, node)
    && JobsConserved(node)
    && ForwardsPaidByBids(node)
    && QueueHasRoom(cfg, node)
  }

  ghost predicate NodesInOrder(sys: System, s: State) {
    && s.nodes.Keys == sys.subs.Keys
    && forall k | k in s.nodes :: NodeInOrder(sys.subs[k], s.net, s.nodes[k])
  }

  lemma WorkerKeepsNodeInOrder(cfg: Dispatch.Config, spawning: bool, net: set<Gossip>, node: Node, free: Option<nat>,
                               total: nat, e: WorkerEvent, eff: Effect)
    requires NodeInOrder(cfg, net, node) && WorkerHears(e) <= net
    requires WorkerStep(cfg, spawning, node, free, total, e) == Some(eff)
    ensures NodeInOrder(cfg, net + Sent(eff.sent), eff.node)
  {
    WorkerKeepsBidsInOrder(cfg, spawning, node, free, total, e, eff);
    WorkerKeepsWon(cfg, spawning, net, node, free, total, e, eff);
    WorkerKeepsRecord(cfg, spawning, net, node, free, total, e, eff);
    WorkerConservesJobs(cfg, spawning, node, free, total, e, eff);
    WorkerKeepsForwardsPaid(cfg, spawning, node, free, total, e, eff);
    WorkerKeepsQueueRoom(cfg, spawning, node, free, total, e, eff);
  }

  lemma NodeMonotone(cfg: Dispatch.Config, net: set<Gossip>, net': set<Gossip>, node: Node)
    requires NodeInOrder(cfg, net, node) && net <= net'
    ensures NodeInOrder(cfg, net', node)
  {
    OnRecordMonotone(cfg, net, net', node);
  }

  lemma WorkerKeepsOwnNode(sys: System, s: State, k: SubId, we: WorkerEvent, s': State)
    requires NodesInOrder(sys, s) && Step(sys, s, WorkerActs(k, we)) == Some(s')
    ensures k in s'.nodes && NodeInOrder(sys.subs[k], s'.net, s'.nodes[k])
  {
    var eff := WorkerEffect(sys, s, k, we, s');
    WorkerKeepsNodeInOrder(sys.subs[k], k in sys.spawning, s.net, s.nodes[k], FreeSlots(sys, s, k),
                           TotalSlots(sys, k), we, eff);
    assert s'.net == s.net + Sent(eff.sent) && s'.nodes[k] == eff.node;
  }

  /** A step of anyone else leaves this node as it is, and messages only ever come in addition. */
  lemma OthersLeaveNodeAlone(sys: System, s: State, e: Event, s': State, k: SubId)
    requires Step(sys, s, e) == Some(s') && !(e.WorkerActs? && e.k == k)
    ensures s.net <= s'.net && (k in s'.nodes <==> k in s.nodes) && (k in s.nodes ==> s'.nodes[k] == s.nodes[k])
  {
  }

  lemma StepKeepsNode(sys: System, s: State, e: Event, s': State, k: SubId)
    requires NodesInOrder(sys, s) && Step(sys, s, e) == Some(s') && k in s'.nodes
    ensures k in sys.subs && NodeInOrder(sys.subs[k], s'.net, s'.nodes[k])
  {
    if e.WorkerActs? && e.k == k {
      WorkerKeepsOwnNode(sys, s, k, e.we, s');
    } else {
      OthersLeaveNodeAlone(sys, s, e, s', k);
      NodeMonotone(sys.subs[k], s.net, s'.net, s.nodes[k]);
    }
  }

  lemma StepKeepsNodeKeys(sys: System, s: State, e: Event, s': State)
    requires Step(sys, s, e) == Some(s')
    ensures s'.nodes.Keys == s.nodes.Keys
  {
  }

  lemma StepKeepsNodesInOrder(sys: System, s: State, e: Event, s': State)
    requires NodesInOrder(sys, s) && Step(sys, s, e) == Some(s')
    ensures NodesInOrder(sys, s')
  {
    StepKeepsNodeKeys(sys, s, e, s');
    forall k | k in s'.nodes ensures k in sys.subs && NodeInOrder(sys.subs[k], s'.net, s'.nodes[k]) {
      StepKeepsNode(sys, s, e, s', k);
    }
  }

  // ---- what correct peers have said ------------------------------------

  /** The subscriber whose topic `topic` is, on node `p`. */
  ghost predicate Serves(sys: System, k: SubId, p: Peer, topic: string) {
    k in sys.subs && k.peer == p && topic == JobTopic(k.workload)
  }

  predicate Reports(ran: Ran, r: JobReceipt) {
    && r.jobId == ran.accept.jobId && r.buyer == ran.accept.buyer && r.externalRef == ran.accept.externalRef
    && r.status == ran.status && r.outputHash == ran.outputHash
  }

  /** A message signed by correct peer `p` records something `p` did. */
  ghost predicate Vouched(sys: System, s: State, p: Peer, m: Gossip) {
    match m.body
    case OfferBody(o) =>
      o.jobId in s.auctions && s.auctions[o.jobId].buyer == p && s.auctions[o.jobId].offer == o
    case BidBody(b) =>
      exists k, r :: Serves(sys, k, p, m.topic) && k in s.nodes && r in s.nodes[k].bids && r.bid == b
    case AcceptBody(x) =>
      && x.jobId in s.auctions && s.auctions[x.jobId].buyer == p
      && s.auctions[x.jobId].award.Some? && s.auctions[x.jobId].award.value.accept == x
      && m.topic == JobTopic(s.auctions[x.jobId].req.workload)
    case ReceiptBody(r) =>
      exists k, ran :: Serves(sys, k, p, m.topic) && k in s.nodes && ran in s.nodes[k].ran && Reports(ran, r)
  }

  ghost predicate NetVouched(sys: System, s: State) {
    forall m | m in s.net && m.source.Some? && m.source.value in sys.correct :: Vouched(sys, s, m.source.value, m)
  }

  /** Auctions keep their buyer, offer and award; workers keep their records. */
  ghost predicate Grows(s: State, s': State) {
    && s.net <= s'.net
    && (forall j | j in s.auctions ::
          && j in s'.auctions
          && s'.auctions[j].buyer == s.auctions[j].buyer
          && s'.auctions[j].req == s.auctions[j].req
          && s'.auctions[j].offer == s.auctions[j].offer
          && (s.auctions[j].award.Some? ==> s'.auctions[j].award == s.auctions[j].award))
    && (forall k | k in s.nodes ::
          && k in s'.nodes
          && (forall r | r in s.nodes[k].bids :: r in s'.nodes[k].bids)
          && (forall r | r in s.nodes[k].ran :: r in s'.nodes[k].ran))
  }

  lemma WorkerRecordsGrow(cfg: Dispatch.Config, spawning: bool, node: Node, free: Option<nat>, total: nat,
                          e: WorkerEvent, eff: Effect)
    requires WorkerStep(cfg, spawning, node, free, total, e) == Some(eff)
    ensures forall r | r in node.bids :: r in eff.node.bids
    ensures forall r | r in node.ran :: r in eff.node.ran
    ensures eff.sent.Some? ==>
              && eff.sent.value.source == Some(cfg.peer) && eff.sent.value.topic == JobTopic(cfg.workload)
              && match eff.sent.value.body
                 case BidBody(b) => exists r :: r in eff.node.bids && r.bid == b
                 case ReceiptBody(x) => exists ran :: ran in eff.node.ran && Reports(ran, x)
                 case _ => false
  {
    if e.PublishBid? && e.published {
      var r := BidRecord(node.sub.mode.bid, node.sub.mode.pending);
      assert eff.node.bids[|node.bids|] == r;
    }
    if e.Finish? {
      var ran := Ran(node.running[e.i], e.status, e.outputHash);
      assert eff.node.ran[|node.ran|] == ran;
      assert Reports(ran, MakeReceipt(cfg.peer, ran, e.completedMs));
    }
  }

  /** The effect behind a worker's step: its node, what it sent, and the slot it took or gave back. */
  lemma WorkerEffect(sys: System, s: State, k: SubId, we: WorkerEvent, s': State) returns (eff: Effect)
    requires Step(sys, s, WorkerActs(k, we)) == Some(s')
    ensures k in sys.subs && k in s.nodes && WorkerHears(we) <= s.net
    ensures WorkerStep(sys.subs[k], k in sys.spawning, s.nodes[k], FreeSlots(sys, s, k), TotalSlots(sys, k), we)
        == Some(eff)
    ensures s' == s.(nodes := s.nodes[k := eff.node], net := s.net + Sent(eff.sent),
                     holders := ChangeHolders(sys, s, k, eff.slots))
  {
    eff := WorkerStep(sys.subs[k], k in sys.spawning, s.nodes[k], FreeSlots(sys, s, k), TotalSlots(sys, k), we).value;
  }

  lemma WorkerGrows(sys: System, s: State, k: SubId, we: WorkerEvent, s': State)
    requires Step(sys, s, WorkerActs(k, we)) == Some(s')
    ensures Grows(s, s')
  {
    var eff := WorkerEffect(sys, s, k, we, s');
    WorkerRecordsGrow(sys.subs[k], k in sys.spawning, s.nodes[k], FreeSlots(sys, s, k), TotalSlots(sys, k), we, eff);
  }

  /** The auction and the message behind a buyer's step. */
  lemma BuyerEffect(sys: System, s: State, j: JobId, be: BuyerEvent, s': State) returns (a: Auction, g: Option<Gossip>)
    requires Step(sys, s, BuyerActs(j, be)) == Some(s')
    ensures j in s.auctions && BuyerHears(be) <= s.net && BuyerStep(j, s.auctions[j], be) == Some((a, g))
    ensures s' == s.(auctions := s.auctions[j := a], net := s.net + Sent(g))
  {
    a, g := BuyerStep(j, s.auctions[j], be).value.0, BuyerStep(j, s.auctions[j], be).value.1;
  }

  lemma BuyerKeepsItsWord(sys: System, net: set<Gossip>, j: JobId, a: Auction, e: BuyerEvent,
                          a': Auction, g: Option<Gossip>)
    requires AuctionInOrder(sys, net, j, a) && BuyerHears(e) <= net && BuyerStep(j, a, e) == Some((a', g))
    ensures a'.buyer == a.buyer && a'.req == a.req && a'.offer == a.offer
    ensures a.award.Some? ==> a'.award == a.award
  {
    BuyerKeepsAuctionInOrder(sys, net, j, a, e, a', g);
  }

  lemma OneAuctionGrows(s: State, j: JobId, a: Auction, g: Option<Gossip>)
    requires j in s.auctions
    requires a.buyer == s.auctions[j].buyer && a.req == s.auctions[j].req && a.offer == s.auctions[j].offer
    requires s.auctions[j].award.Some? ==> a.award == s.auctions[j].award
    ensures Grows(s, s.(auctions := s.auctions[j := a], net := s.net + Sent(g)))
  {
  }

  lemma BuyerGrows(sys: System, s: State, j: JobId, be: BuyerEvent, s': State)
    requires AuctionsInOrder(sys, s) && Step(sys, s, BuyerActs(j, be)) == Some(s')
    ensures Grows(s, s')
  {
    var a, g := BuyerEffect(sys, s, j, be, s');
    BuyerKeepsItsWord(sys, s.net, j, s.auctions[j], be, a, g);
    OneAuctionGrows(s, j, a, g);
  }

  lemma StepGrows(sys: System, s: State, e: Event, s': State)
    requires AuctionsInOrder(sys, s) && Step(sys, s, e) == Some(s')
    ensures Grows(s, s')
  {
    match e
    case BuyerActs(j, be) => BuyerGrows(sys, s, j, be, s');
    case WorkerActs(k, we) => WorkerGrows(sys, s, k, we, s');
    case _ =>
  }

  lemma VouchedMonotone(sys: System, s: State, s': State, p: Peer, m: Gossip)
    requires Vouched(sys, s, p, m) && Grows(s, s')
    ensures Vouched(sys, s', p, m)
  {
    match m.body
    case BidBody(b) =>
      var k, r :| Serves(sys, k, p, m.topic) && k in s.nodes && r in s.nodes[k].bids && r.bid == b;
      assert r in s'.nodes[k].bids;
    case ReceiptBody(x) =>
      var k, ran :| Serves(sys, k, p, m.topic) && k in s.nodes && ran in s.nodes[k].ran && Reports(ran, x);
      assert ran in s'.nodes[k].ran;
    case _ =>
  }

  lemma BuyerMessageVouched(sys: System, s: State, j: JobId, be: BuyerEvent, s': State, m: Gossip)
    requires sys.Valid() && AuctionsInOrder(sys, s) && Step(sys, s, BuyerActs(j, be)) == Some(s')
    requires m in s'.net && m !in s.net && m.source.Some?
    ensures Vouched(sys, s', m.source.value, m)
  {
    var a, g := BuyerEffect(sys, s, j, be, s');
    BuyerKeepsAuctionInOrder(sys, s.net, j, s.auctions[j], be, a, g);
    assert g == Some(m);
  }

  lemma WorkerMessageVouched(sys: System, s: State, k: SubId, we: WorkerEvent, s': State, m: Gossip)
    requires sys.Valid() && Step(sys, s, WorkerActs(k, we)) == Some(s')
    requires m in s'.net && m !in s.net && m.source.Some?
    ensures Vouched(sys, s', m.source.value, m)
  {
    var eff := WorkerEffect(sys, s, k, we, s');
    WorkerRecordsGrow(sys.subs[k], k in sys.spawning, s.nodes[k], FreeSlots(sys, s, k), TotalSlots(sys, k), we, eff);
    assert eff.sent == Some(m);
    assert Serves(sys, k, m.source.value, m.topic);
    assert s'.nodes[k] == eff.node;
  }

  /** Whatever a step adds to the network in a correct peer's name is that peer's own doing. */
  lemma NewMessageVouched(sys: System, s: State, e: Event, s': State, m: Gossip)
    requires sys.Valid() && AuctionsInOrder(sys, s) && Step(sys, s, e) == Some(s')
    requires m in s'.net && m !in s.net && m.source.Some? && m.source.value in sys.correct
    ensures Vouched(sys, s', m.source.value, m)
  {
    match e
    case OpenAuction(_, _, _, _, _) =>
    case BuyerActs(j, be) => BuyerMessageVouched(sys, s, j, be, s', m);
    case WorkerActs(k, we) => WorkerMessageVouched(sys, s, k, we, s', m);
    case OthersPublish(msg) =>
  }

  lemma StepKeepsNetVouched(sys: System, s: State, e: Event, s': State)
    requires sys.Valid() && AuctionsInOrder(sys, s) && NodesInOrder(sys, s) && NetVouched(sys, s)
    requires Step(sys, s, e) == Some(s')
    ensures NetVouched(sys, s')
  {
    StepGrows(sys, s, e, s');
    forall m | m in s'.net && m.source.Some? && m.source.value in sys.correct
      ensures Vouched(sys, s', m.source.value, m)
    {
      if m in s.net {
        VouchedMonotone(sys, s, s', m.source.value, m);
      } else {
        NewMessageVouched(sys, s, e, s', m);
      }
    }
  }

  // ---- compute slots ---------------------------------------------------

  function Running(sys: System, s: State, p: Dispatch.SlotPool, k: SubId): nat {
    if k in sys.subs && k in s.nodes && sys.subs[k].slots == Some(p) then |s.nodes[k].running| else 0
  }

  /** A pool's slots are held by the running jobs of the workloads that draw on it, one each, and never overdrawn. */
  ghost predicate PoolAccountedFor(sys: System, s: State, p: Dispatch.SlotPool)
    requires p in s.holders && p in sys.pools
  {
    |s.holders[p]| <= sys.pools[p] && forall k :: s.holders[p][k] == Running(sys, s, p, k)
  }

  ghost predicate SlotsAccountedFor(sys: System, s: State) {
    s.holders.Keys == sys.pools.Keys && forall p | p in s.holders :: PoolAccountedFor(sys, s, p)
  }

  /** A slot is taken when a job starts and given back when it ends. */
  lemma SlotsFollowJobs(cfg: Dispatch.Config, spawning: bool, node: Node, free: Option<nat>, total: nat,
                        e: WorkerEvent, eff: Effect)
    requires WorkerStep(cfg, spawning, node, free, total, e) == Some(eff)
    ensures eff.slots == Keep ==> |eff.node.running| == |node.running|
    ensures eff.slots == Take ==> |eff.node.running| == |node.running| + 1 && (free.Some? ==> free.value > 0)
    ensures eff.slots == Release ==> |eff.node.running| == |node.running| - 1
  {
  }

  /** The holders of one pool, before and after a step of worker `k`. */
  lemma ChangedHolders(sys: System, s: State, k: SubId, c: SlotChange, p: Dispatch.SlotPool)
    requires k in sys.subs && p in s.holders
    ensures p in ChangeHolders(sys, s, k, c)
    ensures var was, now := s.holders[p], ChangeHolders(sys, s, k, c)[p];
            if sys.subs[k].slots != Some(p) || c == Keep then now == was
            else if c == Take then now == was + multiset{k} else now == was - multiset{k}
  {
  }

  /** A worker's step as its slot pool sees it. */
  lemma WorkerSlots(sys: System, s: State, k: SubId, we: WorkerEvent, s': State) returns (c: SlotChange)
    requires Step(sys, s, WorkerActs(k, we)) == Some(s')
    ensures k in sys.subs && k in s.nodes && s'.nodes.Keys == s.nodes.Keys
    ensures s'.holders == ChangeHolders(sys, s, k, c)
    ensures forall k' | k' in s.nodes && k' != k :: s'.nodes[k'] == s.nodes[k']
    ensures |s'.nodes[k].running| == |s.nodes[k].running| + (if c == Take then 1 else if c == Release then -1 else 0)
    ensures c == Take && FreeSlots(sys, s, k).Some? ==> FreeSlots(sys, s, k).value > 0
  {
    var eff := WorkerEffect(sys, s, k, we, s');
    SlotsFollowJobs(sys.subs[k], k in sys.spawning, s.nodes[k], FreeSlots(sys, s, k), TotalSlots(sys, k), we, eff);
    c := eff.slots;
  }

  /** The count arithmetic of one pool when worker `k` takes or gives back a slot. */
  lemma PoolArithmetic(was: multiset<SubId>, now: multiset<SubId>, k: SubId, c: SlotChange, size: nat)
    requires |was| <= size && (c == Take ==> |was| < size) && (c == Release ==> was[k] > 0)
    requires now == if c == Take then was + multiset{k} else if c == Release then was - multiset{k} else was
    ensures |now| <= size
    ensures now[k] == was[k] + (if c == Take then 1 else if c == Release then -1 else 0)
    ensures forall k' | k' != k :: now[k'] == was[k']
  {
  }

  /** A pool stays accounted for when one worker takes or gives back a slot, or neither. */
  lemma SlotChangeKeepsPool(sys: System, s: State, k: SubId, c: SlotChange, s': State, p: Dispatch.SlotPool)
    requires k in sys.subs && k in s.nodes && s'.nodes.Keys == s.nodes.Keys && s'.holders == ChangeHolders(sys, s, k, c)
    requires forall k' | k' in s.nodes && k' != k :: s'.nodes[k'] == s.nodes[k']
    requires |s'.nodes[k].running| == |s.nodes[k].running| + (if c == Take then 1 else if c == Release then -1 else 0)
    requires c == Take && FreeSlots(sys, s, k).Some? ==> FreeSlots(sys, s, k).value > 0
    requires s.holders.Keys == sys.pools.Keys && p in s.holders && PoolAccountedFor(sys, s, p)
    ensures p in s'.holders && PoolAccountedFor(sys, s', p)
  {
    ChangedHolders(sys, s, k, c, p);
    assert s.holders[p][k] == Running(sys, s, p, k);
    if sys.subs[k].slots == Some(p) {
      PoolArithmetic(s.holders[p], s'.holders[p], k, c, sys.pools[p]);
    }
    forall k' ensures s'.holders[p][k'] == Running(sys, s', p, k') {
      assert s.holders[p][k'] == Running(sys, s, p, k');
    }
  }

  lemma StepKeepsSlotsAccountedFor(sys: System, s: State, e: Event, s': State)
    requires sys.Valid() && SlotsAccountedFor(sys, s) && Step(sys, s, e) == Some(s')
    ensures SlotsAccountedFor(sys, s')
  {
    if e.WorkerActs? {
      var c := WorkerSlots(sys, s, e.k, e.we, s');
      forall p | p in s'.holders
        ensures PoolAccountedFor(sys, s', p)
      {
        SlotChangeKeepsPool(sys, s, e.k, c, s', p);
      }
    } else {
      assert s'.holders == s.holders && s'.nodes == s.nodes;
      forall p | p in s'.holders
        ensures PoolAccountedFor(sys, s', p)
      {
        SamePool(sys, s, s', p);
      }
    }
  }

  lemma SamePool(sys: System, s: State, s': State, p: Dispatch.SlotPool)
    requires s'.holders == s.holders && s'.nodes == s.nodes
    requires p in s.holders && p in sys.pools && PoolAccountedFor(sys, s, p)
    ensures PoolAccountedFor(sys, s', p)
  {
    forall k ensures s'.holders[p][k] == Running(sys, s', p, k) {
      assert s.holders[p][k] == Running(sys, s, p, k);
    }
  }

  lemma CountBelowSize<T>(m: multiset<T>, x: T)
    ensures m[x] <= |m|
  {
    var only := multiset{}[x := m[x]];
    assert only + (m - only) == m;
    assert |only| == m[x];
  }

  /** A workload's own running jobs and the free slots of its pool fit the pool. */
  lemma FreePlusOwnRunning(sys: System, s: State, k: SubId)
    requires sys.Valid() && SlotsAccountedFor(sys, s)
    requires k in sys.subs && k in s.nodes && sys.subs[k].slots.Some?
    ensures FreeSlots(sys, s, k).Some?
    ensures FreeSlots(sys, s, k).value + |s.nodes[k].running| <= TotalSlots(sys, k)
  {
    var p := sys.subs[k].slots.value;
    CountBelowSize(s.holders[p], k);
    assert s.holders[p][k] == Running(sys, s, p, k);
  }

  ghost predicate NodeCommitted(total: nat, node: Node) {
    SlotsCoverPromises(total, node) && Committed(node) <= total + 1
  }

  ghost predicate CommitmentsInOrder(sys: System, s: State) {
    forall k | k in s.nodes && k in sys.subs && sys.subs[k].slots.Some? :: NodeCommitted(TotalSlots(sys, k), s.nodes[k])
  }

  lemma WorkerKeepsNodeCommitted(cfg: Dispatch.Config, spawning: bool, node: Node, free: nat, total: nat,
                                 e: WorkerEvent, eff: Effect)
    requires NodeCommitted(total, node) && free + |node.running| <= total
    requires WorkerStep(cfg, spawning, node, Some(free), total, e) == Some(eff)
    ensures NodeCommitted(total, eff.node)
    ensures node.held.None? && Committed(node) <= total ==> Committed(eff.node) <= total
  {
    WorkerKeepsSlotsCovered(cfg, spawning, node, free, total, e, eff);
    WorkerKeepsSoleCommitment(cfg, spawning, node, free, total, e, eff);
    if node.held.None? && Committed(node) <= total {
      WorkerKeepsTightCommitment(cfg, spawning, node, free, total, e, eff);
    }
  }

  lemma WorkerKeepsCommitments(sys: System, s: State, k: SubId, we: WorkerEvent, s': State)
    requires sys.Valid() && SlotsAccountedFor(sys, s) && Step(sys, s, WorkerActs(k, we)) == Some(s')
    requires k in sys.subs && k in s.nodes && sys.subs[k].slots.Some?
    requires NodeCommitted(TotalSlots(sys, k), s.nodes[k])
    ensures k in s'.nodes && NodeCommitted(TotalSlots(sys, k), s'.nodes[k])
    ensures s.nodes[k].held.None? && Committed(s.nodes[k]) <= TotalSlots(sys, k) ==>
              Committed(s'.nodes[k]) <= TotalSlots(sys, k)
  {
    var eff := WorkerEffect(sys, s, k, we, s');
    FreePlusOwnRunning(sys, s, k);
    WorkerKeepsNodeCommitted(sys.subs[k], k in sys.spawning, s.nodes[k], FreeSlots(sys, s, k).value,
                             TotalSlots(sys, k), we, eff);
  }

  lemma StepKeepsCommitmentsInOrder(sys: System, s: State, e: Event, s': State)
    requires sys.Valid() && SlotsAccountedFor(sys, s) && CommitmentsInOrder(sys, s)
    requires Step(sys, s, e) == Some(s')
    ensures CommitmentsInOrder(sys, s')
  {
    if e.WorkerActs? {
      var c := WorkerSlots(sys, s, e.k, e.we, s');
      if sys.subs[e.k].slots.Some? {
        WorkerKeepsCommitments(sys, s, e.k, e.we, s');
      }
    } else {
      assert s'.nodes == s.nodes;
    }
  }

  // ---- every reachable state -------------------------------------------

  ghost predicate InOrder(sys: System, s: State) {
    && AuctionsInOrder(sys, s)
    && NodesInOrder(sys, s)
    && NetVouched(sys, s)
    && SlotsAccountedFor(sys, s)
    && CommitmentsInOrder(sys, s)
  }

  lemma StepKeepsInOrder(sys: System, s: State, e: Event, s': State)
    requires sys.Valid() && InOrder(sys, s) && Step(sys, s, e) == Some(s')
    ensures InOrder(sys, s')
  {
    StepKeepsAuctionsInOrder(sys, s, e, s');
    StepKeepsNodesInOrder(sys, s, e, s');
    StepKeepsNetVouched(sys, s, e, s');
    StepKeepsSlotsAccountedFor(sys, s, e, s');
    StepKeepsCommitmentsInOrder(sys, s, e, s');
  }

  lemma {:induction false} RunsStayInOrder(sys: System, events: seq<Event>, s: State)
    requires sys.Valid() && Run(sys, events) == Some(s)
    ensures InOrder(sys, s)
  {
    if events != [] {
      var before := Run(sys, events[..|events| - 1]).value;
      RunsStayInOrder(sys, events[..|events| - 1], before);
      StepKeepsInOrder(sys, before, events[|events| - 1], s);
    }
  }

  lemma ReachableInOrder(sys: System, s: State)
    requires sys.Valid() && Reachable(sys, s)
    ensures InOrder(sys, s)
  {
    var events :| Run(sys, events) == Some(s);
    RunsStayInOrder(sys, events, s);
  }
}
