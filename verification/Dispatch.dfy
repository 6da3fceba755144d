/**
 * The worker's subscriber loop (crates/c0mpute-core/src/dispatch.rs): bids on offers it has room
 * for, and hands the jobs it wins to the runner.
 */
module Dispatch {
  import opened Wrappers
  import opened Floats
  import opened Wire
  import Pricing
  import Private
  import Load

  const MAX_OFFER_AGE_MS := 300_000
  const MAX_OPEN_BIDS := 1024
  const BID_TTL_MS := 60_000
  const ACCEPT_GRACE_MS := 10_000

  // ---- open bids -------------------------------------------------------

  /** The terms of an outstanding bid, kept until its accept comes or its time is up. */
  datatype OpenBid = OpenBid(
    cap: F64,
    price: F64,
    buyer: Peer,
    spec: Option<Spec>,
    externalRef: Option<string>,
    expiresMs: nat)
  {
    /** The bid counts against the budget, and may be awarded, up to the grace period after its expiry. */
    predicate HoldsCapacity(now: nat) {
      now <= expiresMs + ACCEPT_GRACE_MS
    }

    /** Whether `accept` is one for this bid: same buyer, spec and reference, in time, inside the cap. */
    predicate Matches(accept: JobAccept, now: nat) {
      && accept.buyer == buyer
      && accept.spec == spec
      && accept.externalRef == externalRef
      && HoldsCapacity(now)
      && accept.price.IsFinite() && !accept.price.Lt(Fin(0.0)) && !accept.price.Gt(cap)
    }
  }

  // ---- capacity --------------------------------------------------------

  /** The room a workload has at one moment; a workload that draws on no slots has no `freeSlots`. */
  datatype Capacity = Capacity(queued: nat, queueFree: nat, freeSlots: Option<nat>, totalSlots: nat) {

    /** Every queued job will want a slot, and every further job a queue place: what both leave over. */
    function Budget(): nat {
      match freeSlots
      case Some(free) => Min(Max(free - queued, 0), queueFree)
      case None => queueFree
    }

    predicate CanBid(openBids: nat) {
      openBids < Budget()
    }

    function LoadFraction(queueFill: real): real {
      if freeSlots.Some? && totalSlots > 0 then
        Clamp01((Max(totalSlots - freeSlots.value, 0) + queued) as real / totalSlots as real)
      else Clamp01(queueFill)
    }
  }

  /** The used part of the runner's queue, between 0 and 1. */
  function QueueLoad(queued: nat, queueCap: nat): real {
    if queueCap == 0 then 0.0 else queued as real / queueCap as real
  }

  // ---- one subscriber --------------------------------------------------

  type SlotPool = string

  /** A workload's subscriber: `queueCap` is its runner channel's size, `slots` the compute slots it draws on. */
  datatype Config = Config(
    peer: Peer,
    workload: string,
    tags: seq<string>,
    queueCap: Option<nat>,
    slots: Option<SlotPool>,
    pricing: Option<Pricing.PricingConfig>,
    policy: Private.Policy)

  /** Where the loop stands: between messages, or inside the await that publishes a bid or queues a job. */
  datatype Mode =
    | Idle
    | Publishing(bid: JobBid, pending: OpenBid)
    | Sending(accept: JobAccept)

  datatype State = State(open: map<JobId, OpenBid>, share: real, mode: Mode)

  /** What the loop reads from its surroundings while it handles one offer. */
  datatype Surroundings = Surroundings(
    filterOk: bool,
    now: nat,
    bidNow: nat,
    queued: nat,
    freeSlots: Option<nat>,
    totalSlots: nat,
    recentMs: Option<nat>,
    benchScore: Option<U32>)

  /** The jobs whose bids have not run out, the grace period included. */
  function Unexpired(open: map<JobId, OpenBid>, now: nat): set<JobId> {
    set j | j in open && now - open[j].expiresMs <= 10_000
  }

  function RetainLive(open: map<JobId, OpenBid>, now: nat): map<JobId, OpenBid> {
    map j | j in open && open[j].HoldsCapacity(now) :: open[j]
  }

  lemma UnexpiredAreRetained(open: map<JobId, OpenBid>, now: nat)
    ensures RetainLive(open, now).Keys == Unexpired(open, now)
    ensures |RetainLive(open, now)| == |Unexpired(open, now)|
  {
    assert RetainLive(open, now).Keys == Unexpired(open, now);
  }

  function Room(queueCap: nat, sur: Surroundings): Capacity {
    Capacity(sur.queued, Max(queueCap - sur.queued, 0), sur.freeSlots, sur.totalSlots)
  }

  /** The price this subscriber bids on `offer`, if it bids. */
  function Price(cfg: Config, offer: JobOffer, load: real, share: real): Option<F64> {
    match cfg.pricing
    case None => Some(offer.maxPrice)
    case Some(p) =>
      match p.QuoteInMarket(offer.maxPrice, load, share)
      case Some(q) => Some(Fin(q))
      case None => None
  }

  predicate Eligible(cfg: Config, offer: JobOffer, now: nat) {
    && now <= offer.publishedMs + MAX_OFFER_AGE_MS
    && now <= offer.deadlineMs
    && (offer.externalRef.Some? ==> ValidExternalRef(offer.externalRef.value))
    && forall c | c in offer.requiredCapabilities :: c in cfg.tags
  }

  /** The bid `handle_offer` is about to publish, with the open bid it will be remembered by. */
  function PrepareBid(cfg: Config, queueCap: nat, share: real, offer: JobOffer, sur: Surroundings): Option<Mode> {
    var load := QueueLoad(sur.queued, queueCap);
    if !Eligible(cfg, offer, sur.bidNow) then None
    else
      match Price(cfg, offer, load, share)
      case None => None
      case Some(price) =>
        var expires := sur.bidNow + BID_TTL_MS;
        var eta := Load.EtaSeconds(sur.queued, sur.totalSlots, sur.recentMs);
        var bid := JobBid(offer.jobId, cfg.peer, price, eta, sur.bidNow, Some(expires), sur.benchScore,
                          Some(Fin(Room(queueCap, sur).LoadFraction(load))));
        Some(Publishing(bid, OpenBid(offer.maxPrice, price, offer.buyer, offer.spec, offer.externalRef, expires)))
  }

  predicate Considers(cfg: Config, msg: Gossip, offer: JobOffer, sur: Surroundings) {
    && offer.workload == cfg.workload
    && cfg.policy.Admits(msg, offer, cfg.peer)
    && sur.filterOk
    && cfg.queueCap.Some?
  }

  /** The loop's state when it has decided on `offer`, and before it has published anything. */
  function Decide(cfg: Config, st: State, msg: Gossip, offer: JobOffer, sur: Surroundings): State {
    if !Considers(cfg, msg, offer, sur) then st
    else
      var kept := st.(open := RetainLive(st.open, sur.now));
      if !Room(cfg.queueCap.value, sur).CanBid(|kept.open|) then kept
      else
        match PrepareBid(cfg, cfg.queueCap.value, kept.share, offer, sur)
        case None => kept
        case Some(m) => kept.(mode := m)
  }

  /** The reported load: the slots in use and the jobs waiting for one, out of all; the queue's fill without slots. */
  lemma LoadIsTheShareTaken(c: Capacity, fill: real)
    requires 0.0 <= fill <= 1.0
    ensures c.freeSlots.Some? && c.totalSlots > 0 ==>
              var taken := Max(c.totalSlots - c.freeSlots.value, 0) + c.queued;
              c.LoadFraction(fill) * c.totalSlots as real == Min(taken, c.totalSlots) as real
    ensures c.freeSlots.None? || c.totalSlots == 0 ==> c.LoadFraction(fill) == fill
  {
    if c.freeSlots.Some? && c.totalSlots > 0 {
      var taken, total := Max(c.totalSlots - c.freeSlots.value, 0) + c.queued, c.totalSlots;
      CutShare(taken as real, total as real, taken as real / total as real);
    }
  }

  lemma CutShare(taken: real, total: real, share: real)
    requires taken >= 0.0 && total > 0.0 && share == taken / total
    ensures Clamp01(share) * total == if taken < total then taken else total
  {
    assert share * total == taken;
    if taken >= total { assert (share - 1.0) * total >= 0.0; }
  }

  /** What a bid says, and by which terms it is remembered. */
  lemma BidSays(cfg: Config, st: State, msg: Gossip, offer: JobOffer, sur: Surroundings)
    requires st.mode.Idle? && Decide(cfg, st, msg, offer, sur).mode.Publishing? && cfg.queueCap.Some?
    ensures sur.queued < cfg.queueCap.value
    ensures var m, fill := Decide(cfg, st, msg, offer, sur).mode, sur.queued as real / cfg.queueCap.value as real;
            && m.bid.jobId == offer.jobId && m.bid.bidder == cfg.peer
            && (cfg.pricing.None? ==> m.bid.price == offer.maxPrice)
            && (cfg.pricing.Some? ==>
                  var q := cfg.pricing.value.QuoteInMarket(offer.maxPrice, fill, st.share);
                  q.Some? && m.bid.price == Fin(q.value))
            && m.bid.etaSeconds == Load.EtaSeconds(sur.queued, sur.totalSlots, sur.recentMs)
            && m.bid.publishedMs == sur.bidNow && m.bid.expiresMs == Some(sur.bidNow + 60_000)
            && m.bid.benchScore == sur.benchScore
            && m.bid.load == Some(Fin(Capacity(sur.queued, cfg.queueCap.value - sur.queued, sur.freeSlots,
                                               sur.totalSlots).LoadFraction(fill)))
            && m.pending == OpenBid(offer.maxPrice, m.bid.price, offer.buyer, offer.spec, offer.externalRef,
                                    sur.bidNow + 60_000)
  {
    var cap := cfg.queueCap.value;
    assert sur.queued < cap;
  }

  /** A bid that was published is remembered; one that failed to publish leaves nothing behind. */
  function AfterPublish(st: State, published: bool): State
    requires st.mode.Publishing?
  {
    if !published then st.(mode := Idle)
    else
      var open := if |st.open| >= MAX_OPEN_BIDS then map[] else st.open;
      st.(open := open[st.mode.bid.jobId := st.mode.pending], mode := Idle)
  }

  /** An accept consumes the open bid on its job, whether or not it then matches it. */
  function OnAccept(cfg: Config, st: State, msg: Gossip, accept: JobAccept, now: nat): State {
    if accept.workload != cfg.workload || !SourceMatchesClaim(msg, accept.buyer) || accept.jobId !in st.open then st
    else
      var bid, rest := st.open[accept.jobId], st.open - {accept.jobId};
      if !bid.Matches(accept, now) then st.(open := rest)
      else
        var won := accept.winner == cfg.peer;
        var share := Pricing.ObserveShare(st.share, Pricing.Outcome(bid.cap, bid.price, accept.price, won));
        State(rest, share, if won && cfg.queueCap.Some? then Sending(accept) else st.mode)
  }

  class Subscriber {
    const cfg: Config
    const market: Pricing.MarketLearner
    var openBids: map<JobId, OpenBid>

    constructor (cfg: Config)
      ensures this.cfg == cfg && fresh(market) && openBids == map[]
      ensures market.share == Pricing.DYNAMIC_IDLE_SHARE
    {
      this.cfg := cfg;
      this.openBids := map[];
      this.market := new Pricing.MarketLearner();
    }

    ghost function Current(mode: Mode): State
      reads this, market
    {
      State(openBids, market.share, mode)
    }

    /** Handles one offer; `published` is whether the network took the bid. Returns the bid it tried to publish. */
    method HandleOffer(msg: Gossip, offer: JobOffer, sur: Surroundings, published: bool) returns (bid: Option<JobBid>)
      modifies this`openBids
      ensures var decided := Decide(cfg, old(Current(Idle)), msg, offer, sur);
              && bid == (if decided.mode.Publishing? then Some(decided.mode.bid) else None)
              && Current(Idle) == if bid.Some? then AfterPublish(decided, published) else decided
      // it bids exactly on what it is asked for, may and can serve, has room for, and has a price for
      ensures bid.Some? <==>
                && offer.workload == cfg.workload
                && (cfg.policy.enabled ==>
                      && msg.source == Some(offer.buyer)
                      && (offer.buyer == cfg.peer || offer.buyer in cfg.policy.trusted))
                && sur.filterOk
                && cfg.queueCap.Some?
                && |Unexpired(old(openBids), sur.now)| + sur.queued < cfg.queueCap.value
                && (sur.freeSlots.Some? ==> |Unexpired(old(openBids), sur.now)| + sur.queued < sur.freeSlots.value)
                && sur.bidNow - offer.publishedMs <= 300_000
                && sur.bidNow <= offer.deadlineMs
                && (offer.externalRef.Some? ==>
                      && 1 <= |offer.externalRef.value| <= 128
                      && forall c | c in offer.externalRef.value :: 0x21 <= c as int <= 0x7E)
                && (forall c | c in offer.requiredCapabilities :: c in cfg.tags)
                && (cfg.pricing.Some? ==>
                      cfg.pricing.value.QuoteInMarket(
                        offer.maxPrice, sur.queued as real / cfg.queueCap.value as real, old(market.share)).Some?)
      // it remembers the bid if it went out, and forgets others only when they ran out or 1024 stand
      ensures bid.Some? && published ==> offer.jobId in openBids && openBids[offer.jobId].price == bid.value.price
      ensures forall j | j in openBids && !(bid.Some? && published && j == offer.jobId) ::
                j in old(openBids) && openBids[j] == old(openBids)[j]
      ensures |Unexpired(old(openBids), sur.now)| < 1024 ==> Unexpired(old(openBids), sur.now) <= openBids.Keys
      ensures bid.Some? && published && |Unexpired(old(openBids), sur.now)| >= 1024 ==> openBids.Keys == {offer.jobId}
    {
      if offer.workload != cfg.workload { return None; }
      if !cfg.policy.Admits(msg, offer, cfg.peer) { return None; }
      if !sur.filterOk { return None; }
      if cfg.queueCap.None? { return None; }
      UnexpiredAreRetained(openBids, sur.now);
      openBids := RetainLive(openBids, sur.now);
      if !Room(cfg.queueCap.value, sur).CanBid(|openBids|) { return None; }
      match PrepareBid(cfg, cfg.queueCap.value, market.share, offer, sur) {
        case None => return None;
        case Some(m) =>
          if published {
            if |openBids| >= MAX_OPEN_BIDS {
              openBids := map[];
            }
            openBids := openBids[offer.jobId := m.pending];
          }
          return Some(m.bid);
      }
    }

    /** Handles one accept; returns the job to hand to the runner when this node won it. */
    method HandleAccept(msg: Gossip, accept: JobAccept, now: nat) returns (job: Option<JobAccept>)
      modifies this`openBids, market
      ensures var next := OnAccept(cfg, old(Current(Idle)), msg, accept, now);
              && job == (if next.mode.Sending? then Some(next.mode.accept) else None)
              && Current(next.mode) == next
      // a job is returned exactly when its own buyer awards it to this node, as it was bid on, in time, inside the cap
      ensures job.Some? <==>
                && accept.workload == cfg.workload && msg.source == Some(accept.buyer)
                && accept.winner == cfg.peer && cfg.queueCap.Some?
                && accept.jobId in old(openBids)
                && var bid := old(openBids)[accept.jobId];
                   && accept.buyer == bid.buyer && accept.spec == bid.spec && accept.externalRef == bid.externalRef
                   && now <= bid.expiresMs + 10_000
                   && accept.price.Fin? && 0.0 <= accept.price.v && Within(accept.price.v, bid.cap)
      ensures job.Some? ==> job.value == accept
      // whoever won, the bid is spent
      ensures openBids == if accept.workload == cfg.workload && msg.source == Some(accept.buyer)
                          then old(openBids) - {accept.jobId} else old(openBids)
    {
      if accept.workload != cfg.workload { return None; }
      if !SourceMatchesClaim(msg, accept.buyer) { return None; }
      var won := accept.winner == cfg.peer;
      if accept.jobId !in openBids { return None; }
      var bid := openBids[accept.jobId];
      openBids := openBids - {accept.jobId};
      if !bid.Matches(accept, now) { return None; }
      market.Observe(bid.cap, bid.price, accept.price, won);
      if !won || cfg.queueCap.None? { return None; }
      return Some(accept);
    }
  }
}
