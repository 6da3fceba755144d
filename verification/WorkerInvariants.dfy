/** What every step of one worker keeps, whatever the network and the other nodes do. */
module WorkerInvariants {
  import opened Wrappers
  import opened Floats
  import opened Wire
  import opened Protocol
  import Dispatch
  import Pricing

  // ---- what a worker has put its name to -------------------------------

  /** A private node has `buyer` in its trusted set, or is `buyer`. */
  predicate Trusts(cfg: Dispatch.Config, buyer: Peer) {
    cfg.policy.enabled ==> buyer == cfg.peer || buyer in cfg.policy.trusted
  }

  /** A bid respects the operator's floor and the cap it was quoted against; without a listing it is the cap. */
  predicate Priced(cfg: Dispatch.Config, r: BidRecord) {
    && r.bid.price == r.terms.price
    && match cfg.pricing
       case None => r.terms.price == r.terms.cap
       case Some(p) =>
         && r.terms.price.Fin? && r.terms.cap.Fin?
         && 0.0 <= r.terms.price.v <= r.terms.cap.v
         && p.Floor() - (0.5 / Pricing.MICROS + Pricing.CAP_TOLERANCE) <= r.terms.price.v
         && (Pricing.WholeMicros(p.Floor()) ==> p.Floor() - Pricing.CAP_TOLERANCE <= r.terms.price.v)
         && (Pricing.WholeMicros(p.Floor()) && Pricing.WholeMicros(r.terms.cap.v) ==> p.Floor() <= r.terms.price.v)
  }

  /** A bid and the terms it is remembered by run out together, one minute after it was made. */
  predicate Timed(r: BidRecord) {
    r.bid.expiresMs == Some(r.terms.expiresMs) && r.terms.expiresMs == r.bid.publishedMs + Dispatch.BID_TTL_MS
  }

  predicate OwnBid(cfg: Dispatch.Config, r: BidRecord) {
    r.bid.bidder == cfg.peer && Priced(cfg, r) && Timed(r) && Trusts(cfg, r.terms.buyer)
  }

  ghost predicate BidsInOrder(cfg: Dispatch.Config, node: Node) {
    && (forall j | j in node.sub.open :: Trusts(cfg, node.sub.open[j].buyer))
    && (node.sub.mode.Publishing? ==> OwnBid(cfg, BidRecord(node.sub.mode.bid, node.sub.mode.pending)))
    && (forall r | r in node.bids :: OwnBid(cfg, r))
  }

  lemma WorkerKeepsBidsInOrder(cfg: Dispatch.Config, spawning: bool, node: Node, free: Option<nat>, total: nat,
                               e: WorkerEvent, eff: Effect)
    requires BidsInOrder(cfg, node) && WorkerStep(cfg, spawning, node, free, total, e) == Some(eff)
    ensures BidsInOrder(cfg, eff.node)
  {
    if e.HearOffer? {
      var offer, sur := e.msg.body.offer, Sense(cfg, node, free, total, e);
      var after := Dispatch.Decide(cfg, node.sub, e.msg, offer, sur);
      if cfg.pricing.Some? && cfg.queueCap.Some? {
        Pricing.QuoteWithinFloorAndCap(cfg.pricing.value, offer.maxPrice,
                                       Dispatch.QueueLoad(sur.queued, cfg.queueCap.value), node.sub.share);
      }
    }
  }

  /** An accept this worker may run: it names the worker, fits its workload, and its buyer really published it. */
  predicate Won(cfg: Dispatch.Config, net: set<Gossip>, a: JobAccept) {
    && a.winner == cfg.peer
    && a.workload == cfg.workload
    && Gossip(Some(a.buyer), JobTopic(cfg.workload), AcceptBody(a)) in net
    && Trusts(cfg, a.buyer)
  }

  ghost predicate WonWhatItForwards(cfg: Dispatch.Config, net: set<Gossip>, node: Node) {
    && (node.sub.mode.Sending? ==> Won(cfg, net, node.sub.mode.accept))
    && (forall a | a in node.forwarded :: Won(cfg, net, a))
  }

  lemma AcceptStepWins(cfg: Dispatch.Config, net: set<Gossip>, node: Node, msg: Gossip, now: nat, eff: Effect)
    requires BidsInOrder(cfg, node) && WonWhatItForwards(cfg, net, node) && msg in net
    requires AcceptStep(cfg, node, msg, now) == Some(eff)
    ensures WonWhatItForwards(cfg, net, eff.node)
  {
    assert msg == Gossip(msg.source, msg.topic, AcceptBody(msg.body.accept));
  }

  lemma WonMonotone(cfg: Dispatch.Config, net: set<Gossip>, net': set<Gossip>, node: Node)
    requires WonWhatItForwards(cfg, net, node) && net <= net'
    ensures WonWhatItForwards(cfg, net', node)
  {
  }

  lemma OthersWinNothing(cfg: Dispatch.Config, spawning: bool, node: Node, free: Option<nat>, total: nat,
                         e: WorkerEvent, eff: Effect)
    requires WorkerStep(cfg, spawning, node, free, total, e) == Some(eff) && !e.HearAccept?
    ensures eff.node.sub.mode.Sending? ==> node.sub.mode == eff.node.sub.mode
    ensures forall a | a in eff.node.forwarded :: a in node.forwarded || node.sub.mode == Dispatch.Sending(a)
  {
  }

  lemma WorkerKeepsWon(
    cfg: Dispatch.Config, spawning: bool, net: set<Gossip>, node: Node, free: Option<nat>, total: nat,
    e: WorkerEvent, eff: Effect)
    requires BidsInOrder(cfg, node) && WonWhatItForwards(cfg, net, node) && WorkerHears(e) <= net
    requires WorkerStep(cfg, spawning, node, free, total, e) == Some(eff)
    ensures WonWhatItForwards(cfg, net + Sent(eff.sent), eff.node)
  {
    if e.HearAccept? {
      AcceptStepWins(cfg, net, node, e.msg, e.acceptNow, eff);
    } else {
      OthersWinNothing(cfg, spawning, node, free, total, e, eff);
    }
    WonMonotone(cfg, net, net + Sent(eff.sent), eff.node);
  }

  // ---- every job was offered, and bid on as it is forwarded ------------

  /** `m` offers the job `r` bids on, and is an offer this worker could and was allowed to serve when it bid. */
  predicate Answers(cfg: Dispatch.Config, net: set<Gossip>, r: BidRecord, m: Gossip) {
    && m in net && m.topic == JobTopic(cfg.workload) && m.body.OfferBody?
    && var o := m.body.offer;
       && o.jobId == r.bid.jobId && o.workload == cfg.workload
       && r.terms.buyer == o.buyer && r.terms.spec == o.spec && r.terms.externalRef == o.externalRef
       && r.terms.cap == o.maxPrice
       && (forall c | c in o.requiredCapabilities :: c in cfg.tags)
       && r.bid.publishedMs - o.publishedMs <= 300_000 && r.bid.publishedMs <= o.deadlineMs
       && (o.externalRef.Some? ==> ValidExternalRef(o.externalRef.value))
       && (cfg.policy.enabled ==>
             m.source == Some(o.buyer) && (o.buyer == cfg.peer || o.buyer in cfg.policy.trusted))
  }

  ghost predicate Answered(cfg: Dispatch.Config, net: set<Gossip>, r: BidRecord) {
    exists m :: Answers(cfg, net, r, m)
  }

  /** `r` is a bid on the job of `a`, on the same terms and under a cap that covers its price. */
  predicate BidFor(r: BidRecord, a: JobAccept) {
    && r.bid.jobId == a.jobId
    && r.terms.buyer == a.buyer && r.terms.spec == a.spec && r.terms.externalRef == a.externalRef
    && a.price.Fin? && 0.0 <= a.price.v && Within(a.price.v, r.terms.cap)
  }

  ghost predicate BidOn(bids: seq<BidRecord>, a: JobAccept) {
    exists r :: r in bids && BidFor(r, a)
  }

  ghost predicate Remembered(bids: seq<BidRecord>, j: JobId, terms: Dispatch.OpenBid) {
    exists r :: r in bids && r.bid.jobId == j && r.terms == terms
  }

  ghost predicate OnRecord(cfg: Dispatch.Config, net: set<Gossip>, node: Node) {
    && (node.sub.mode.Publishing? ==> Answered(cfg, net, BidRecord(node.sub.mode.bid, node.sub.mode.pending)))
    && (forall r | r in node.bids :: Answered(cfg, net, r))
    && (forall j | j in node.sub.open :: Remembered(node.bids, j, node.sub.open[j]))
    && (node.sub.mode.Sending? ==> BidOn(node.bids, node.sub.mode.accept))
    && (forall a | a in node.forwarded :: BidOn(node.bids, a))
  }

  lemma AnsweredMonotone(cfg: Dispatch.Config, net: set<Gossip>, net': set<Gossip>, r: BidRecord)
    requires Answered(cfg, net, r) && net <= net'
    ensures Answered(cfg, net', r)
  {
    var m :| Answers(cfg, net, r, m);
    assert Answers(cfg, net', r, m);
  }

  lemma OnRecordMonotone(cfg: Dispatch.Config, net: set<Gossip>, net': set<Gossip>, node: Node)
    requires OnRecord(cfg, net, node) && net <= net'
    ensures OnRecord(cfg, net', node)
  {
    if node.sub.mode.Publishing? {
      AnsweredMonotone(cfg, net, net', BidRecord(node.sub.mode.bid, node.sub.mode.pending));
    }
    forall r | r in node.bids ensures Answered(cfg, net', r) {
      AnsweredMonotone(cfg, net, net', r);
    }
  }

  lemma OfferStepAnswers(cfg: Dispatch.Config, net: set<Gossip>, node: Node, free: Option<nat>, total: nat,
                         e: WorkerEvent, eff: Effect)
    requires e.HearOffer? && OfferStep(cfg, node, free, total, e) == Some(eff) && e.msg in net
    ensures eff.node == node.(sub := eff.node.sub) && !eff.node.sub.mode.Sending?
    ensures forall j | j in eff.node.sub.open :: j in node.sub.open && eff.node.sub.open[j] == node.sub.open[j]
    ensures eff.node.sub.mode.Publishing? ==>
              Answered(cfg, net, BidRecord(eff.node.sub.mode.bid, eff.node.sub.mode.pending))
  {
    var m := eff.node.sub.mode;
    if m.Publishing? { assert Answers(cfg, net, BidRecord(m.bid, m.pending), e.msg); }
  }

  lemma OfferKeepsRecord(cfg: Dispatch.Config, net: set<Gossip>, node: Node, free: Option<nat>, total: nat,
                         e: WorkerEvent, eff: Effect)
    requires OnRecord(cfg, net, node)
    requires e.HearOffer? && OfferStep(cfg, node, free, total, e) == Some(eff) && e.msg in net
    ensures OnRecord(cfg, net, eff.node)
  {
    OfferStepAnswers(cfg, net, node, free, total, e, eff);
  }

  lemma BidOnMore(bids: seq<BidRecord>, r: BidRecord, a: JobAccept)
    requires BidOn(bids, a)
    ensures BidOn(bids + [r], a)
  {
    var b :| b in bids && BidFor(b, a);
    assert b in bids + [r];
  }

  lemma RememberedMore(bids: seq<BidRecord>, r: BidRecord, j: JobId, terms: Dispatch.OpenBid)
    requires Remembered(bids, j, terms)
    ensures Remembered(bids + [r], j, terms)
  {
    var b :| b in bids && b.bid.jobId == j && b.terms == terms;
    assert b in bids + [r];
  }

  lemma PublishKeepsRecord(cfg: Dispatch.Config, net: set<Gossip>, node: Node, published: bool, eff: Effect)
    requires OnRecord(cfg, net, node) && PublishStep(cfg, node, published) == Some(eff)
    ensures OnRecord(cfg, net, eff.node)
  {
    var r := BidRecord(node.sub.mode.bid, node.sub.mode.pending);
    if published {
      assert eff.node.bids == node.bids + [r] && r in eff.node.bids;
      forall j | j in eff.node.sub.open ensures Remembered(eff.node.bids, j, eff.node.sub.open[j]) {
        if j != r.bid.jobId { RememberedMore(node.bids, r, j, node.sub.open[j]); }
      }
      forall a | a in node.forwarded ensures BidOn(eff.node.bids, a) {
        BidOnMore(node.bids, r, a);
      }
    }
  }

  lemma AcceptKeepsRecord(cfg: Dispatch.Config, net: set<Gossip>, node: Node, msg: Gossip, now: nat, eff: Effect)
    requires OnRecord(cfg, net, node) && AcceptStep(cfg, node, msg, now) == Some(eff)
    ensures OnRecord(cfg, net, eff.node)
  {
    if eff.node.sub.mode.Sending? {
      var a := msg.body.accept;
      var r :| r in node.bids && r.bid.jobId == a.jobId && r.terms == node.sub.open[a.jobId];
      assert BidFor(r, a);
    }
  }

  lemma RunnerKeepsRecord(cfg: Dispatch.Config, spawning: bool, net: set<Gossip>, node: Node, free: Option<nat>,
                          total: nat, e: WorkerEvent, eff: Effect)
    requires OnRecord(cfg, net, node) && WorkerStep(cfg, spawning, node, free, total, e) == Some(eff)
    requires e.QueueJob? || e.Receive? || e.Acquire? || e.Finish?
    ensures OnRecord(cfg, net, eff.node)
  {
  }

  lemma WorkerKeepsRecord(cfg: Dispatch.Config, spawning: bool, net: set<Gossip>, node: Node, free: Option<nat>,
                          total: nat, e: WorkerEvent, eff: Effect)
    requires OnRecord(cfg, net, node) && WorkerHears(e) <= net
    requires WorkerStep(cfg, spawning, node, free, total, e) == Some(eff)
    ensures OnRecord(cfg, net + Sent(eff.sent), eff.node)
  {
    match e {
      case HearOffer(_, _, _, _, _) => OfferKeepsRecord(cfg, net, node, free, total, e, eff);
      case PublishBid(published) => PublishKeepsRecord(cfg, net, node, published, eff);
      case HearAccept(msg, now) => AcceptKeepsRecord(cfg, net, node, msg, now, eff);
      case _ => RunnerKeepsRecord(cfg, spawning, net, node, free, total, e, eff);
    }
    OnRecordMonotone(cfg, net, net + Sent(eff.sent), eff.node);
  }

  // ---- conservation ----------------------------------------------------

  function Accepts(ran: seq<Ran>): seq<JobAccept> {
    if ran == [] then [] else Accepts(ran[..|ran| - 1]) + [ran[|ran| - 1].accept]
  }

  function HeldJobs(node: Node): multiset<JobAccept> {
    if node.held.Some? then multiset{node.held.value} else multiset{}
  }

  /** Every job handed to the runner is queued, received, running or done, and exactly once. */
  ghost predicate JobsConserved(node: Node) {
    multiset(node.forwarded) ==
      multiset(node.queue) + HeldJobs(node) + multiset(node.running) + multiset(Accepts(node.ran))
  }

  lemma RemoveFromMultiset<T>(s: seq<T>, i: nat)
    requires i < |s|
    ensures multiset(s) == multiset(Remove(s, i)) + multiset{s[i]}
  {
    assert s == s[..i] + [s[i]] + s[i + 1..];
  }

  lemma AcceptsAppend(ran: seq<Ran>, r: Ran)
    ensures Accepts(ran + [r]) == Accepts(ran) + [r.accept]
  {
    assert (ran + [r])[..|ran|] == ran;
  }

  /** The subscriber does not touch what the runner has. */
  lemma SubscriberLeavesJobsAlone(cfg: Dispatch.Config, spawning: bool, node: Node, free: Option<nat>, total: nat,
                                  e: WorkerEvent, eff: Effect)
    requires e.HearOffer? || e.HearAccept? || e.PublishBid?
    requires WorkerStep(cfg, spawning, node, free, total, e) == Some(eff)
    ensures eff.node.queue == node.queue && eff.node.held == node.held && eff.node.running == node.running
    ensures eff.node.forwarded == node.forwarded && eff.node.ran == node.ran
  {
  }

  lemma ReceiveConservesJobs(spawning: bool, node: Node, eff: Effect)
    requires JobsConserved(node) && ReceiveStep(spawning, node) == Some(eff)
    ensures JobsConserved(eff.node)
  {
    assert node.queue == [node.queue[0]] + node.queue[1..];
  }

  lemma FinishConservesJobs(cfg: Dispatch.Config, node: Node, e: WorkerEvent, eff: Effect)
    requires e.Finish? && JobsConserved(node) && FinishStep(cfg, node, e) == Some(eff)
    ensures JobsConserved(eff.node)
  {
    RemoveFromMultiset(node.running, e.i);
    AcceptsAppend(node.ran, Ran(node.running[e.i], e.status, e.outputHash));
  }

  lemma QueueConservesJobs(cfg: Dispatch.Config, node: Node, channelOpen: bool, eff: Effect)
    requires JobsConserved(node) && QueueStep(cfg, node, channelOpen) == Some(eff)
    ensures JobsConserved(eff.node)
  {
  }

  lemma AcquireConservesJobs(node: Node, free: Option<nat>, eff: Effect)
    requires JobsConserved(node) && AcquireStep(node, free) == Some(eff)
    ensures JobsConserved(eff.node)
  {
  }

  lemma WorkerConservesJobs(cfg: Dispatch.Config, spawning: bool, node: Node, free: Option<nat>, total: nat,
                            e: WorkerEvent, eff: Effect)
    requires JobsConserved(node) && WorkerStep(cfg, spawning, node, free, total, e) == Some(eff)
    ensures JobsConserved(eff.node)
  {
    match e
    case Receive => ReceiveConservesJobs(spawning, node, eff);
    case Finish(_, _, _, _, _, _) => FinishConservesJobs(cfg, node, e, eff);
    case QueueJob(channelOpen) => QueueConservesJobs(cfg, node, channelOpen, eff);
    case Acquire => AcquireConservesJobs(node, free, eff);
    case _ => SubscriberLeavesJobsAlone(cfg, spawning, node, free, total, e, eff);
  }

  /**
   * A worker forwards a job exactly when it queues the one it won and the runner's channel is open, and puts its name
   * to a message exactly when it gets a bid or a receipt out: the bid it had decided on, or the receipt of the job
   * that ended, with that job's id, buyer and reference, and the status and output of this run.
   */
  lemma ForwardsAndSignsExactlyWhen(cfg: Dispatch.Config, spawning: bool, node: Node, free: Option<nat>, total: nat,
                                    e: WorkerEvent, eff: Effect)
    requires WorkerStep(cfg, spawning, node, free, total, e) == Some(eff)
    ensures e == QueueJob(true) ==>
              node.sub.mode.Sending? && eff.node.forwarded == node.forwarded + [node.sub.mode.accept]
    ensures e != QueueJob(true) ==> eff.node.forwarded == node.forwarded
    ensures eff.sent.Some? <==> e == PublishBid(true) || (e.Finish? && e.receiptPublished)
    ensures e == PublishBid(true) ==>
              node.sub.mode.Publishing?
              && eff.sent == Some(Gossip(Some(cfg.peer), JobTopic(cfg.workload), BidBody(node.sub.mode.bid)))
    ensures e.Finish? && e.receiptPublished ==>
              e.i < |node.running|
              && var job := node.running[e.i];
                 var r := JobReceipt(job.jobId, cfg.peer, job.buyer, e.outputHash, e.status, e.completedMs,
                                     job.externalRef);
                 eff.sent == Some(Gossip(Some(cfg.peer), JobTopic(cfg.workload), ReceiptBody(r)))
  {
  }

  // ---- each forward consumes one bid -----------------------------------

  function BidsOn(bids: seq<BidRecord>, j: JobId): nat {
    if bids == [] then 0
    else BidsOn(bids[..|bids| - 1], j) + (if bids[|bids| - 1].bid.jobId == j then 1 else 0)
  }

  function ForwardsOf(forwarded: seq<JobAccept>, j: JobId): nat {
    if forwarded == [] then 0
    else ForwardsOf(forwarded[..|forwarded| - 1], j) + (if forwarded[|forwarded| - 1].jobId == j then 1 else 0)
  }

  lemma BidsOnAppend(bids: seq<BidRecord>, r: BidRecord, j: JobId)
    ensures BidsOn(bids + [r], j) == BidsOn(bids, j) + (if r.bid.jobId == j then 1 else 0)
  {
    assert (bids + [r])[..|bids|] == bids;
  }

  lemma ForwardsOfAppend(forwarded: seq<JobAccept>, a: JobAccept, j: JobId)
    ensures ForwardsOf(forwarded + [a], j) == ForwardsOf(forwarded, j) + (if a.jobId == j then 1 else 0)
  {
    assert (forwarded + [a])[..|forwarded|] == forwarded;
  }

  /** Jobs with id `j` this worker is committed to: forwarded, being forwarded, or still to be won. */
  function Commitments(node: Node, j: JobId): nat {
    ForwardsOf(node.forwarded, j)
    + (if node.sub.mode.Sending? && node.sub.mode.accept.jobId == j then 1 else 0)
    + (if j in node.sub.open then 1 else 0)
  }

  ghost predicate ForwardsPaidByBids(node: Node) {
    forall j :: Commitments(node, j) <= BidsOn(node.bids, j)
  }

  lemma PublishPaysForBid(cfg: Dispatch.Config, node: Node, published: bool, eff: Effect, j: JobId)
    requires PublishStep(cfg, node, published) == Some(eff) && Commitments(node, j) <= BidsOn(node.bids, j)
    ensures Commitments(eff.node, j) <= BidsOn(eff.node.bids, j)
  {
    BidsOnAppend(node.bids, BidRecord(node.sub.mode.bid, node.sub.mode.pending), j);
  }

  lemma QueueKeepsCommitments(cfg: Dispatch.Config, node: Node, channelOpen: bool, eff: Effect, j: JobId)
    requires QueueStep(cfg, node, channelOpen) == Some(eff)
    ensures Commitments(eff.node, j) <= Commitments(node, j) && eff.node.bids == node.bids
  {
    ForwardsOfAppend(node.forwarded, node.sub.mode.accept, j);
  }

  lemma HearingAddsNoCommitment(cfg: Dispatch.Config, spawning: bool, node: Node, free: Option<nat>, total: nat,
                                e: WorkerEvent, eff: Effect, j: JobId)
    requires e.HearOffer? || e.HearAccept?
    requires WorkerStep(cfg, spawning, node, free, total, e) == Some(eff)
    ensures Commitments(eff.node, j) <= Commitments(node, j) && eff.node.bids == node.bids
  {
  }

  lemma RunningAddsNoCommitment(cfg: Dispatch.Config, spawning: bool, node: Node, free: Option<nat>, total: nat,
                                e: WorkerEvent, eff: Effect)
    requires e.Receive? || e.Acquire? || e.Finish?
    requires WorkerStep(cfg, spawning, node, free, total, e) == Some(eff)
    ensures eff.node.sub == node.sub && eff.node.bids == node.bids && eff.node.forwarded == node.forwarded
  {
  }

  lemma WorkerKeepsForwardsPaid(cfg: Dispatch.Config, spawning: bool, node: Node, free: Option<nat>, total: nat,
                                e: WorkerEvent, eff: Effect)
    requires ForwardsPaidByBids(node) && WorkerStep(cfg, spawning, node, free, total, e) == Some(eff)
    ensures ForwardsPaidByBids(eff.node)
  {
    forall j ensures Commitments(eff.node, j) <= BidsOn(eff.node.bids, j) {
      assert Commitments(node, j) <= BidsOn(node.bids, j);
      match e
      case PublishBid(published) => PublishPaysForBid(cfg, node, published, eff, j);
      case QueueJob(channelOpen) => QueueKeepsCommitments(cfg, node, channelOpen, eff, j);
      case HearOffer(_, _, _, _, _) => HearingAddsNoCommitment(cfg, spawning, node, free, total, e, eff, j);
      case HearAccept(_, _) => HearingAddsNoCommitment(cfg, spawning, node, free, total, e, eff, j);
      case _ => RunningAddsNoCommitment(cfg, spawning, node, free, total, e, eff);
    }
  }

  // ---- capacity --------------------------------------------------------

  /** Jobs the worker could still be handed or is about to queue. */
  function Promised(node: Node): nat {
    |node.sub.open|
    + (if node.sub.mode.Publishing? then 1 else 0)
    + (if node.sub.mode.Sending? then 1 else 0)
  }

  /** Everything the worker has promised, queued, received and is running. */
  function Committed(node: Node): nat {
    Promised(node) + |node.queue| + |HeldJobs(node)| + |node.running|
  }

  lemma RetainShrinks(open: map<JobId, Dispatch.OpenBid>, now: nat)
    ensures |Dispatch.RetainLive(open, now)| <= |open|
  {
    var kept := Dispatch.RetainLive(open, now);
    assert kept.Keys <= open.Keys;
    SubsetSize(kept.Keys, open.Keys);
  }

  lemma {:induction false} SubsetSize<T>(a: set<T>, b: set<T>)
    requires a <= b
    ensures |a| <= |b|
  {
    if a != {} {
      var x :| x in a;
      SubsetSize(a - {x}, b - {x});
    }
  }

  lemma InsertSize<K, V>(m: map<K, V>, k: K, v: V)
    ensures |m[k := v]| <= |m| + 1
  {
    assert m[k := v].Keys == m.Keys + {k};
  }

  lemma RemoveSize<K, V>(m: map<K, V>, k: K)
    requires k in m
    ensures |m - {k}| == |m| - 1
  {
    assert (m - {k}).Keys == m.Keys - {k};
  }

  /** Open bids and queued jobs together fit the runner's queue. */
  ghost predicate QueueHasRoom(cfg: Dispatch.Config, node: Node) {
    Promised(node) + |node.queue| <= cfg.queueCap.GetOr(0)
  }

  /** An offer adds a promise only while the budget for the free slots and queue places has room for it. */
  lemma OfferStaysInBudget(
    cfg: Dispatch.Config, st: Dispatch.State, msg: Gossip, offer: JobOffer, sur: Dispatch.Surroundings)
    requires st.mode.Idle?
    ensures var next := Dispatch.Decide(cfg, st, msg, offer, sur);
            && |next.open| <= |st.open|
            && (next.mode.Publishing? ==>
                  && cfg.queueCap.Some?
                  && |next.open| + 1 + sur.queued <= cfg.queueCap.value
                  && (sur.freeSlots.Some? ==> |next.open| + 1 + sur.queued <= sur.freeSlots.value))
            && !next.mode.Sending?
  {
    RetainShrinks(st.open, sur.now);
  }

  /** An accept turns an open bid into at most one job on its way to the queue. */
  lemma AcceptAddsNoPromise(cfg: Dispatch.Config, st: Dispatch.State, msg: Gossip, accept: JobAccept, now: nat)
    requires st.mode.Idle?
    ensures var next := Dispatch.OnAccept(cfg, st, msg, accept, now);
            |next.open| + (if next.mode.Sending? then 1 else 0) <= |st.open| && !next.mode.Publishing?
  {
    if accept.jobId in st.open { RemoveSize(st.open, accept.jobId); }
  }

  lemma PublishAddsNoPromise(st: Dispatch.State, published: bool)
    requires st.mode.Publishing?
    ensures |Dispatch.AfterPublish(st, published).open| <= |st.open| + 1
  {
    InsertSize(st.open, st.mode.bid.jobId, st.mode.pending);
    InsertSize(map[], st.mode.bid.jobId, st.mode.pending);
  }

  lemma FinishAddsNoPromise(cfg: Dispatch.Config, node: Node, e: WorkerEvent, eff: Effect)
    requires e.Finish? && FinishStep(cfg, node, e) == Some(eff)
    ensures eff.node.sub == node.sub && eff.node.queue == node.queue && eff.node.held == node.held
    ensures |eff.node.running| == |node.running| - 1
  {
  }

  lemma QueueAddsNoPromise(cfg: Dispatch.Config, node: Node, channelOpen: bool, eff: Effect)
    requires QueueStep(cfg, node, channelOpen) == Some(eff)
    ensures Promised(eff.node) + |eff.node.queue| <= Promised(node) + |node.queue|
    ensures eff.node.held == node.held && eff.node.running == node.running
  {
  }

  lemma ReceiveAddsNoPromise(spawning: bool, node: Node, eff: Effect)
    requires ReceiveStep(spawning, node) == Some(eff)
    ensures eff.node.sub == node.sub && eff.node.running == node.running
    ensures |eff.node.queue| == |node.queue| - 1 && |HeldJobs(eff.node)| == |HeldJobs(node)| + 1
  {
  }

  lemma AcquireAddsNoPromise(node: Node, free: Option<nat>, eff: Effect)
    requires AcquireStep(node, free) == Some(eff)
    ensures eff.node.sub == node.sub && eff.node.queue == node.queue
    ensures |HeldJobs(eff.node)| + |eff.node.running| == |HeldJobs(node)| + |node.running|
  {
  }

  /** The runner's steps move jobs along without adding one. */
  lemma RunnerAddsNoPromise(cfg: Dispatch.Config, spawning: bool, node: Node, free: Option<nat>, total: nat,
                            e: WorkerEvent, eff: Effect)
    requires e.QueueJob? || e.Receive? || e.Acquire? || e.Finish?
    requires WorkerStep(cfg, spawning, node, free, total, e) == Some(eff)
    ensures Promised(eff.node) + |eff.node.queue| <= Promised(node) + |node.queue|
    ensures Committed(eff.node) <= Committed(node)
  {
    match e
    case Finish(_, _, _, _, _, _) => FinishAddsNoPromise(cfg, node, e, eff);
    case QueueJob(channelOpen) => QueueAddsNoPromise(cfg, node, channelOpen, eff);
    case Receive => ReceiveAddsNoPromise(spawning, node, eff);
    case Acquire => AcquireAddsNoPromise(node, free, eff);
  }

  /** The subscriber's steps other than taking on an offer add none either. */
  lemma SubscriberAddsNoPromise(cfg: Dispatch.Config, spawning: bool, node: Node, free: Option<nat>, total: nat,
                                e: WorkerEvent, eff: Effect)
    requires e.PublishBid? || e.HearAccept?
    requires WorkerStep(cfg, spawning, node, free, total, e) == Some(eff)
    ensures Promised(eff.node) <= Promised(node)
  {
    if e.PublishBid? {
      PublishAddsNoPromise(node.sub, e.published);
    } else {
      AcceptAddsNoPromise(cfg, node.sub, e.msg, e.msg.body.accept, e.acceptNow);
    }
  }

  lemma OfferPromises(cfg: Dispatch.Config, node: Node, free: Option<nat>, total: nat, e: WorkerEvent, eff: Effect)
    requires e.HearOffer? && OfferStep(cfg, node, free, total, e) == Some(eff)
    ensures Promised(eff.node) <= Promised(node)
         || (&& cfg.queueCap.Some?
             && Promised(eff.node) + |node.queue| <= cfg.queueCap.value
             && (free.Some? ==> Promised(eff.node) + |node.queue| <= free.value))
  {
    OfferStaysInBudget(cfg, node.sub, e.msg, e.msg.body.offer, Sense(cfg, node, free, total, e));
  }

  /** How one step moves the promises: only an offer adds one, and only within the budget. */
  lemma PromisesStep(cfg: Dispatch.Config, spawning: bool, node: Node, free: Option<nat>, total: nat,
                     e: WorkerEvent, eff: Effect)
    requires WorkerStep(cfg, spawning, node, free, total, e) == Some(eff)
    ensures (Promised(eff.node) + |eff.node.queue| <= Promised(node) + |node.queue|
        && Committed(eff.node) <= Committed(node))
         || (&& cfg.queueCap.Some?
             && eff.node.queue == node.queue && eff.node.running == node.running && eff.node.held == node.held
             && Promised(eff.node) + |node.queue| <= cfg.queueCap.value
             && (free.Some? ==> Promised(eff.node) + |node.queue| <= free.value))
  {
    if e.HearOffer? {
      SubscriberLeavesJobsAlone(cfg, spawning, node, free, total, e, eff);
      OfferPromises(cfg, node, free, total, e, eff);
    } else if e.PublishBid? || e.HearAccept? {
      SubscriberLeavesJobsAlone(cfg, spawning, node, free, total, e, eff);
      SubscriberAddsNoPromise(cfg, spawning, node, free, total, e, eff);
    } else {
      RunnerAddsNoPromise(cfg, spawning, node, free, total, e, eff);
    }
  }

  lemma WorkerKeepsQueueRoom(cfg: Dispatch.Config, spawning: bool, node: Node, free: Option<nat>, total: nat,
                             e: WorkerEvent, eff: Effect)
    requires QueueHasRoom(cfg, node) && WorkerStep(cfg, spawning, node, free, total, e) == Some(eff)
    ensures QueueHasRoom(cfg, eff.node)
  {
    PromisesStep(cfg, spawning, node, free, total, e, eff);
  }

  /** Open bids and queued jobs never outnumber the slots of the pool. */
  ghost predicate SlotsCoverPromises(total: nat, node: Node) {
    Promised(node) + |node.queue| <= total
  }

  lemma WorkerKeepsSlotsCovered(cfg: Dispatch.Config, spawning: bool, node: Node, free: nat, total: nat,
                                e: WorkerEvent, eff: Effect)
    requires SlotsCoverPromises(total, node) && free <= total
    requires WorkerStep(cfg, spawning, node, Some(free), total, e) == Some(eff)
    ensures SlotsCoverPromises(total, eff.node)
  {
    PromisesStep(cfg, spawning, node, Some(free), total, e, eff);
  }

  /** Only taking on an offer can raise what a worker is committed to, and only by bidding on it. */
  lemma OnlyABidCommits(cfg: Dispatch.Config, spawning: bool, node: Node, free: Option<nat>, total: nat,
                        e: WorkerEvent, eff: Effect)
    requires WorkerStep(cfg, spawning, node, free, total, e) == Some(eff)
    ensures Committed(eff.node) > Committed(node) ==> e.HearOffer? && eff.node.sub.mode.Publishing?
    ensures e.HearOffer? ==>
              && eff.node.queue == node.queue
              && eff.node.held == node.held
              && eff.node.running == node.running
  {
    if e.HearOffer? {
      SubscriberLeavesJobsAlone(cfg, spawning, node, free, total, e, eff);
      OfferStaysInBudget(cfg, node.sub, e.msg, e.msg.body.offer, Sense(cfg, node, free, total, e));
    } else if e.PublishBid? || e.HearAccept? {
      SubscriberLeavesJobsAlone(cfg, spawning, node, free, total, e, eff);
      SubscriberAddsNoPromise(cfg, spawning, node, free, total, e, eff);
    } else {
      RunnerAddsNoPromise(cfg, spawning, node, free, total, e, eff);
    }
  }

  /** The bid that takes a worker over its pool: one made while a received job waits for the last free slot. */
  predicate BidsPastTheSlots(total: nat, node: Node, e: WorkerEvent, node': Node) {
    && e.HearOffer? && node'.sub.mode.Publishing? && node.held.Some?
    && Promised(node') + |node'.queue| + |node'.running| == total
  }

  /** Nothing else does, and that bid always does. */
  lemma OvercommitsExactlyByABid(cfg: Dispatch.Config, spawning: bool, node: Node, free: nat, total: nat,
                                 e: WorkerEvent, eff: Effect)
    requires Committed(node) <= total && free + |node.running| <= total
    requires WorkerStep(cfg, spawning, node, Some(free), total, e) == Some(eff)
    ensures Committed(eff.node) > total <==> BidsPastTheSlots(total, node, e, eff.node)
  {
    OnlyABidCommits(cfg, spawning, node, Some(free), total, e, eff);
    PromisesStep(cfg, spawning, node, Some(free), total, e, eff);
  }

  /** A sequential runner has at most one job in its hands. */
  predicate OneInHand(node: Node) {
    |HeldJobs(node)| + |node.running| <= 1
  }

  lemma SequentialRunnerKeepsOneInHand(cfg: Dispatch.Config, node: Node, free: Option<nat>, total: nat,
                                       e: WorkerEvent, eff: Effect)
    requires OneInHand(node) && WorkerStep(cfg, false, node, free, total, e) == Some(eff)
    ensures OneInHand(eff.node)
  {
    match e
    case Receive => ReceiveAddsNoPromise(false, node, eff);
    case Acquire => AcquireAddsNoPromise(node, free, eff);
    case Finish(_, _, _, _, _, _) => FinishAddsNoPromise(cfg, node, e, eff);
    case QueueJob(channelOpen) => QueueAddsNoPromise(cfg, node, channelOpen, eff);
    case _ => SubscriberLeavesJobsAlone(cfg, false, node, free, total, e, eff);
  }

  /**
   * A workload alone on its pool of slots overcommits by at most the one job its runner has received and not
   * started.
   */
  lemma WorkerKeepsSoleCommitment(cfg: Dispatch.Config, spawning: bool, node: Node, free: nat, total: nat,
                                  e: WorkerEvent, eff: Effect)
    requires Committed(node) <= total + 1 && free + |node.running| <= total
    requires WorkerStep(cfg, spawning, node, Some(free), total, e) == Some(eff)
    ensures Committed(eff.node) <= total + 1
  {
    PromisesStep(cfg, spawning, node, Some(free), total, e, eff);
  }

  /** Between two jobs of the runner the bound is the pool itself. */
  lemma WorkerKeepsTightCommitment(cfg: Dispatch.Config, spawning: bool, node: Node, free: nat, total: nat,
                                   e: WorkerEvent, eff: Effect)
    requires node.held.None? && Committed(node) <= total && free + |node.running| <= total
    requires WorkerStep(cfg, spawning, node, Some(free), total, e) == Some(eff)
    ensures Committed(eff.node) <= total
  {
    PromisesStep(cfg, spawning, node, Some(free), total, e, eff);
  }
}
