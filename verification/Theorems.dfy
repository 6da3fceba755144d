/** The auction protocol's guarantees, in every state any run can reach. */
module Theorems {
  import opened Wrappers
  import opened Floats
  import opened Wire
  import opened Protocol
  import opened WorkerInvariants
  import opened NetworkInvariants
  import Dispatch
  import Buyer
  import Load
  import Pricing
  import Routing

  // ---- agreement -------------------------------------------------------

  /** A correct buyer's accept is the one accept of the auction it opened under that job id. */
  lemma AcceptIsTheAward(sys: System, s: State, k: SubId, a: JobAccept)
    requires sys.Valid() && AuctionsInOrder(sys, s) && NetVouched(sys, s) && k in sys.subs && k in s.nodes
    requires Won(sys.subs[k], s.net, a) && a.buyer in sys.correct
    ensures a.jobId in s.auctions
    ensures var x := s.auctions[a.jobId];
            && x.buyer == a.buyer && x.award.Some? && x.award.value.accept == a
            && x.award.value.winner.bidder == k.peer && x.req.workload == k.workload
  {
    var m := Gossip(Some(a.buyer), JobTopic(k.workload), AcceptBody(a));
    assert m in s.net;
    assert Vouched(sys, s, a.buyer, m);
    JobTopicInjective(k.workload, s.auctions[a.jobId].req.workload);
    assert AuctionInOrder(sys, s.net, a.jobId, s.auctions[a.jobId]);
  }

  /** A bid a correct worker signed on this topic is one of the bids on record at that subscriber. */
  lemma BidIsOnRecord(sys: System, s: State, k: SubId, b: JobBid) returns (r: BidRecord)
    requires sys.Valid() && NetVouched(sys, s) && k in sys.subs && k in s.nodes
    requires Gossip(Some(k.peer), JobTopic(k.workload), BidBody(b)) in s.net
    ensures r in s.nodes[k].bids && r.bid == b
  {
    var m := Gossip(Some(k.peer), JobTopic(k.workload), BidBody(b));
    assert Vouched(sys, s, k.peer, m);
    var k', r' :| Serves(sys, k', k.peer, m.topic) && k' in s.nodes && r' in s.nodes[k'].bids && r'.bid == b;
    JobTopicInjective(k.workload, k'.workload);
    r := r';
  }

  /**
   * Agreement. Whatever a correct worker forwards in the name of a correct buyer, that buyer opened the
   * auction and awarded it to exactly this accept; the winning bid is one the worker itself published, it
   * passed the buyer's filters and was live when the window closed; spec and reference are the offer's; the
   * agreed price is that bid's; and a private worker trusts the buyer.
   */
  lemma Agreement(sys: System, s: State, k: SubId, a: JobAccept)
    requires sys.Valid() && Reachable(sys, s)
    requires k in s.nodes && a in s.nodes[k].forwarded && a.buyer in sys.correct
    ensures k in sys.subs && a.jobId in s.auctions
    ensures var x := s.auctions[a.jobId];
            && x.buyer == a.buyer
            && x.award.Some? && x.award.value.accept == a
            && a.spec == x.offer.spec && a.externalRef == x.offer.externalRef && a.workload == x.offer.workload
            && var win := x.award.value.winner;
               && win.bidder == k.peer
               && BidReceived(s.net, a.jobId, x, win)
               && win.IsLive(x.award.value.closedAt)
               && a.price == win.price
               && exists r :: r in s.nodes[k].bids && r.bid == win
    ensures Trusts(sys.subs[k], a.buyer)
  {
    ReachableInOrder(sys, s);
    ForwardedIsWon(sys, s, k, a);
    AcceptIsTheAward(sys, s, k, a);
    var x := s.auctions[a.jobId];
    AwardOfAuction(sys, s, a.jobId);
    var r := BidIsOnRecord(sys, s, k, x.award.value.winner);
  }

  lemma ForwardedIsWon(sys: System, s: State, k: SubId, a: JobAccept)
    requires sys.Valid() && NodesInOrder(sys, s) && k in s.nodes && a in s.nodes[k].forwarded
    ensures k in sys.subs && Won(sys.subs[k], s.net, a)
  {
    assert NodeInOrder(sys.subs[k], s.net, s.nodes[k]);
  }

  /** The winner of an award is a bid the buyer received, live at the close, and the accept is made out to it. */
  lemma AwardOfAuction(sys: System, s: State, j: JobId)
    requires AuctionsInOrder(sys, s) && j in s.auctions && s.auctions[j].award.Some?
    ensures var x, w := s.auctions[j], s.auctions[j].award.value;
            && BidReceived(s.net, j, x, w.winner) && w.winner.IsLive(w.closedAt) && OfferAsRequested(j, x)
            && w.accept == Buyer.MakeAccept(x.req, j, x.buyer, w.winner, w.accept.publishedMs)
  {
    assert AuctionInOrder(sys, s.net, j, s.auctions[j]);
    assert s.auctions[j].award.value.winner in s.auctions[j].bids;
  }

  /**
   * The bid a correct buyer awards is one no standing bid compares before. In the bids' own numbers: under the
   * cheapest policy none is cheaper; in smart routing an overloaded worker is chosen only if all are, and then a least
   * loaded one, and of the bids as loaded as the chosen one none has a better score bucket, none in its bucket a
   * shorter ETA, and none as fast a lower price.
   */
  lemma AwardIsBest(sys: System, s: State, j: JobId, b: JobBid)
    requires sys.Valid() && Reachable(sys, s)
    requires j in s.auctions && s.auctions[j].award.Some? && b in s.auctions[j].award.value.standing
    ensures var x, standing := s.auctions[j], s.auctions[j].award.value.standing;
            var w, deadline, best := x.award.value.winner, x.req.deadlineMs / 1000, Routing.BestBench(standing);
            && w.price.Fin? && b.price.Fin?
            && Routing.Compare(Routing.RuleFor(x.req.policy, deadline, standing), w, b) != Greater
            && (x.req.policy == Routing.Cheapest ==> w.price.v <= b.price.v)
            && (x.req.policy == Routing.Smart && Routing.IsOverloaded(w, deadline) ==>
                  Routing.IsOverloaded(b, deadline) && Routing.LoadOf(w) <= Routing.LoadOf(b))
            && (x.req.policy == Routing.Smart && Routing.AlikeInLoad(w, b, deadline) ==>
                  && Routing.BenchBucket(w, best) <= Routing.BenchBucket(b, best)
                  && (Routing.BenchBucket(w, best) == Routing.BenchBucket(b, best) ==>
                        && w.etaSeconds <= b.etaSeconds
                        && (w.etaSeconds == b.etaSeconds ==> w.price.v <= b.price.v)))
  {
    ReachableInOrder(sys, s);
    var x := s.auctions[j];
    AwardComparesBest(sys, s.net, j, x, b);
    var rule := Routing.RuleFor(x.req.policy, x.req.DeadlineSecs(), x.award.value.standing);
    Routing.AtLeastAsGoodExactlyWhen(rule, x.award.value.winner, b);
  }

  lemma AwardComparesBest(sys: System, net: set<Gossip>, j: JobId, x: Auction, b: JobBid)
    requires AuctionInOrder(sys, net, j, x) && x.award.Some? && b in x.award.value.standing
    ensures x.award.value.winner.price.Fin? && b.price.Fin?
    ensures Routing.Compare(Routing.RuleFor(x.req.policy, x.req.DeadlineSecs(), x.award.value.standing),
                            x.award.value.winner, b) != Greater
  {
    var w := x.award.value;
    assert w.winner in w.standing && w.winner in x.bids && b in x.bids;
    assert BidReceived(net, j, x, w.winner) && BidReceived(net, j, x, b);
  }

  /** What a correct buyer publishes says what was asked of it; its accept names the winner at the winner's price. */
  lemma AuctionSaysWhatWasAsked(sys: System, s: State, j: JobId)
    requires sys.Valid() && Reachable(sys, s) && j in s.auctions
    ensures var x, o := s.auctions[j], s.auctions[j].offer;
            && o == JobOffer(j, x.req.workload, x.buyer, Some(x.req.spec), x.req.requiredCapabilities, x.req.maxPrice,
                             o.publishedMs + x.req.deadlineMs, o.publishedMs, x.req.externalRef)
            && (o.externalRef.Some? ==>
                  && 1 <= |o.externalRef.value| <= 128
                  && forall c | c in o.externalRef.value :: 0x21 <= c as int <= 0x7E)
            && (x.award.Some? ==>
                  var w, a := x.award.value.winner, x.award.value.accept;
                  a == JobAccept(j, x.buyer, w.bidder, w.price, o.workload, o.spec, a.publishedMs, o.externalRef))
  {
    ReachableInOrder(sys, s);
    assert AuctionInOrder(sys, s.net, j, s.auctions[j]);
  }

  // ---- every job was offered and bid on --------------------------------

  /**
   * Whatever a correct worker forwards, for any buyer, correct or not: that buyer signed the accept; it names this
   * worker; and the worker had bid on the job, for this buyer, with this spec and reference, under a cap that covers
   * the agreed price.
   */
  lemma ForwardsWhatItBidOn(sys: System, s: State, k: SubId, a: JobAccept) returns (r: BidRecord)
    requires sys.Valid() && Reachable(sys, s) && k in s.nodes && a in s.nodes[k].forwarded
    ensures Gossip(Some(a.buyer), JobTopic(k.workload), AcceptBody(a)) in s.net
    ensures a.winner == k.peer && a.workload == k.workload
    ensures r in s.nodes[k].bids && r.bid.jobId == a.jobId && r.bid.bidder == k.peer
    ensures r.terms.buyer == a.buyer && r.terms.spec == a.spec && r.terms.externalRef == a.externalRef
    ensures a.price.Fin? && 0.0 <= a.price.v && Within(a.price.v, r.terms.cap)
  {
    ReachableInOrder(sys, s);
    assert NodeInOrder(sys.subs[k], s.net, s.nodes[k]);
    assert Won(sys.subs[k], s.net, a);
    r := ForwardOnRecord(sys.subs[k], s.net, s.nodes[k], a);
    assert OwnBid(sys.subs[k], r);
  }

  lemma ForwardOnRecord(cfg: Dispatch.Config, net: set<Gossip>, node: Node, a: JobAccept) returns (r: BidRecord)
    requires OnRecord(cfg, net, node) && a in node.forwarded
    ensures r in node.bids && BidFor(r, a)
  {
    assert BidOn(node.bids, a);
    r :| r in node.bids && BidFor(r, a);
  }

  /**
   * Whatever a correct worker bid on was offered to it: a message on its topic offered that job for that buyer, with
   * that spec, reference and cap; the worker has every capability the offer requires; the offer was at most five
   * minutes old and not past its deadline when the worker bid; and a private worker bid only for a buyer it trusts,
   * on an offer the buyer itself signed.
   */
  lemma BidsAnswerOffers(sys: System, s: State, k: SubId, r: BidRecord) returns (m: Gossip)
    requires sys.Valid() && Reachable(sys, s) && k in s.nodes && r in s.nodes[k].bids
    ensures k in sys.subs && m in s.net && m.topic == JobTopic(k.workload) && m.body.OfferBody?
    ensures var o, cfg := m.body.offer, sys.subs[k];
            && o.jobId == r.bid.jobId && o.workload == k.workload
            && o.buyer == r.terms.buyer && o.spec == r.terms.spec && o.externalRef == r.terms.externalRef
            && o.maxPrice == r.terms.cap
            && (forall c | c in o.requiredCapabilities :: c in cfg.tags)
            && r.bid.publishedMs - o.publishedMs <= 300_000 && r.bid.publishedMs <= o.deadlineMs
            && (cfg.policy.enabled ==>
                  m.source == Some(o.buyer) && (o.buyer == k.peer || o.buyer in cfg.policy.trusted))
  {
    ReachableInOrder(sys, s);
    assert NodeInOrder(sys.subs[k], s.net, s.nodes[k]);
    assert Answered(sys.subs[k], s.net, r);
    m :| Answers(sys.subs[k], s.net, r, m);
  }

  /** The bid was made on the offer of this very auction. */
  predicate BidOnOffer(r: BidRecord, x: Auction) {
    && r.terms.buyer == x.buyer && r.terms.spec == x.offer.spec && r.terms.externalRef == x.offer.externalRef
    && r.terms.cap == x.offer.maxPrice
  }

  lemma TimelyAcceptMatches(sys: System, s: State, k: SubId, j: JobId, r: BidRecord, now: nat)
    requires sys.Valid() && Reachable(sys, s)
    requires k in s.nodes && r in s.nodes[k].bids && j in s.auctions && s.auctions[j].award.Some?
    requires r.bid == s.auctions[j].award.value.winner && BidOnOffer(r, s.auctions[j])
    requires now <= s.auctions[j].award.value.closedAt + Dispatch.ACCEPT_GRACE_MS
    ensures k in sys.subs && s.auctions[j].award.value.accept.winner == sys.subs[k].peer
    ensures s.auctions[j].award.value.accept.jobId == j && r.terms.Matches(s.auctions[j].award.value.accept, now)
  {
    ReachableInOrder(sys, s);
    AwardOfAuction(sys, s, j);
    RecordIsOwnBid(sys, s, k, r);
  }

  lemma RecordIsOwnBid(sys: System, s: State, k: SubId, r: BidRecord)
    requires sys.Valid() && NodesInOrder(sys, s) && k in s.nodes && r in s.nodes[k].bids
    ensures k in sys.subs && OwnBid(sys.subs[k], r)
  {
    assert NodeInOrder(sys.subs[k], s.net, s.nodes[k]);
  }

  /** An idle subscriber with a runner takes up an accept for it exactly when an open bid stands that it matches. */
  lemma TakesUpExactlyWhen(cfg: Dispatch.Config, st: Dispatch.State, accept: JobAccept, now: nat)
    requires st.mode.Idle? && cfg.queueCap.Some? && accept.workload == cfg.workload && accept.winner == cfg.peer
    ensures var msg := Gossip(Some(accept.buyer), JobTopic(cfg.workload), AcceptBody(accept));
            var taken := Dispatch.OnAccept(cfg, st, msg, accept, now).mode == Dispatch.Sending(accept);
            taken <==> accept.jobId in st.open && st.open[accept.jobId].Matches(accept, now)
  {
  }

  /**
   * What the grace period buys. A correct buyer's accept, heard by the worker's clock within 10 seconds of the
   * buyer's closing time, matches the bid it awards, if the worker made that bid on this buyer's offer; so an idle
   * worker with a runner that still remembers that bid takes the job, and one that remembers none does not.
   */
  lemma TimelyAcceptIsHonoured(sys: System, s: State, k: SubId, j: JobId, r: BidRecord, now: nat)
    requires sys.Valid() && Reachable(sys, s)
    requires k in s.nodes && r in s.nodes[k].bids && j in s.auctions && s.auctions[j].award.Some?
    requires r.bid == s.auctions[j].award.value.winner && BidOnOffer(r, s.auctions[j])
    requires now <= s.auctions[j].award.value.closedAt + Dispatch.ACCEPT_GRACE_MS
    requires s.nodes[k].sub.mode.Idle? && k in sys.subs && sys.subs[k].queueCap.Some?
    requires s.auctions[j].award.value.accept.workload == k.workload
    ensures r.terms.Matches(s.auctions[j].award.value.accept, now)
    ensures var accept, open := s.auctions[j].award.value.accept, s.nodes[k].sub.open;
            var msg := Gossip(Some(accept.buyer), JobTopic(k.workload), AcceptBody(accept));
            var next := Dispatch.OnAccept(sys.subs[k], s.nodes[k].sub, msg, accept, now);
            && (next.mode == Dispatch.Sending(accept) <==> j in open && open[j].Matches(accept, now))
            && (j in open && open[j] == r.terms ==> next.mode == Dispatch.Sending(accept))
  {
    TimelyAcceptMatches(sys, s, k, j, r, now);
    TakesUpExactlyWhen(sys.subs[k], s.nodes[k].sub, s.auctions[j].award.value.accept, now);
  }

  // ---- at most one execution -------------------------------------------

  /** No two correct workers forward the same correct buyer's job. */
  lemma OneWorkerPerJob(sys: System, s: State, k1: SubId, a1: JobAccept, k2: SubId, a2: JobAccept)
    requires sys.Valid() && Reachable(sys, s)
    requires k1 in s.nodes && a1 in s.nodes[k1].forwarded && k2 in s.nodes && a2 in s.nodes[k2].forwarded
    requires a1.jobId == a2.jobId && a1.buyer == a2.buyer && a1.buyer in sys.correct
    ensures k1 == k2 && a1 == a2
  {
    ReachableInOrder(sys, s);
    assert NodeInOrder(sys.subs[k1], s.net, s.nodes[k1]) && NodeInOrder(sys.subs[k2], s.net, s.nodes[k2]);
    AcceptIsTheAward(sys, s, k1, a1);
    AcceptIsTheAward(sys, s, k2, a2);
  }

  /**
   * Each forward consumes one published bid, and each forwarded job is queued, received, running or
   * done exactly once; so a job is never run more often than it was bid on.
   */
  lemma ForwardsNeverExceedBids(sys: System, s: State, k: SubId, j: JobId)
    requires sys.Valid() && Reachable(sys, s) && k in s.nodes
    ensures ForwardsOf(s.nodes[k].forwarded, j) <= BidsOn(s.nodes[k].bids, j)
    ensures JobsConserved(s.nodes[k])
    ensures forall a ::
              multiset(Accepts(s.nodes[k].ran))[a] + multiset(s.nodes[k].running)[a]
              <= multiset(s.nodes[k].forwarded)[a]
  {
    ReachableInOrder(sys, s);
    NodeForwardsWithinBids(sys.subs[k], s.net, s.nodes[k], j);
  }

  lemma NodeForwardsWithinBids(cfg: Dispatch.Config, net: set<Gossip>, node: Node, j: JobId)
    requires NodeInOrder(cfg, net, node)
    ensures ForwardsOf(node.forwarded, j) <= BidsOn(node.bids, j) && JobsConserved(node)
    ensures forall a ::
              multiset(Accepts(node.ran))[a] + multiset(node.running)[a] <= multiset(node.forwarded)[a]
  {
    assert Commitments(node, j) <= BidsOn(node.bids, j);
  }

  lemma RanWasForwarded(node: Node, ran: Ran)
    requires JobsConserved(node) && ran in node.ran
    ensures ran.accept in node.forwarded
  {
    AcceptsContains(node.ran, ran);
    assert ran.accept in multiset(Accepts(node.ran));
    assert ran.accept in multiset(node.forwarded);
  }

  lemma {:induction false} AcceptsContains(rs: seq<Ran>, ran: Ran)
    requires ran in rs
    ensures ran.accept in Accepts(rs)
  {
    if ran != rs[|rs| - 1] { AcceptsContains(rs[..|rs| - 1], ran); }
  }

  /** The receipt a buyer took is vouched for by the winner, under the winner's own name. */
  lemma ReceiptIsVouched(sys: System, s: State, j: JobId)
    requires sys.Valid() && InOrder(sys, s)
    requires j in s.auctions && s.auctions[j].receipt.Some?
    requires s.auctions[j].award.Some? && s.auctions[j].award.value.winner.bidder in sys.correct
    ensures var x := s.auctions[j];
            var p := x.award.value.winner.bidder;
            Vouched(sys, s, p, Gossip(Some(p), JobTopic(x.req.workload), ReceiptBody(x.receipt.value)))
  {
    assert AuctionInOrder(sys, s.net, j, s.auctions[j]);
  }

  /** The run a correct winner's receipt reports. */
  lemma ReceiptReportsARun(sys: System, s: State, j: JobId) returns (k: SubId, ran: Ran)
    requires sys.Valid() && InOrder(sys, s)
    requires j in s.auctions && s.auctions[j].receipt.Some?
    requires s.auctions[j].award.Some? && s.auctions[j].award.value.winner.bidder in sys.correct
    ensures k == SubId(s.auctions[j].award.value.winner.bidder, s.auctions[j].req.workload)
    ensures k in sys.subs && k in s.nodes && ran in s.nodes[k].ran && Reports(ran, s.auctions[j].receipt.value)
  {
    var x := s.auctions[j];
    var r, p := x.receipt.value, x.award.value.winner.bidder;
    var m := Gossip(Some(p), JobTopic(x.req.workload), ReceiptBody(r));
    ReceiptIsVouched(sys, s, j);
    k, ran :| Serves(sys, k, p, m.topic) && k in s.nodes && ran in s.nodes[k].ran && Reports(ran, r);
    JobTopicInjective(k.workload, x.req.workload);
  }

  /** A job a worker ran is the award of an auction exactly when it was run for that auction's buyer. */
  lemma RunIsTheAwardExactlyWhen(sys: System, s: State, j: JobId, k: SubId, ran: Ran)
    requires sys.Valid() && InOrder(sys, s)
    requires j in s.auctions && s.auctions[j].award.Some? && k in s.nodes && ran in s.nodes[k].ran
        && ran.accept.jobId == j
    ensures ran.accept in s.nodes[k].forwarded
    ensures ran.accept.buyer == s.auctions[j].buyer <==> ran.accept == s.auctions[j].award.value.accept
  {
    RunWasForwarded(sys, s, k, ran);
    AwardOfAuction(sys, s, j);
    if ran.accept.buyer == s.auctions[j].buyer {
      BuyerIsCorrect(sys, s, j);
      AcceptIsTheAward(sys, s, k, ran.accept);
    }
  }

  lemma BuyerIsCorrect(sys: System, s: State, j: JobId)
    requires AuctionsInOrder(sys, s) && j in s.auctions
    ensures s.auctions[j].buyer in sys.correct
  {
    assert AuctionInOrder(sys, s.net, j, s.auctions[j]);
  }

  lemma RunWasForwarded(sys: System, s: State, k: SubId, ran: Ran)
    requires sys.Valid() && NodesInOrder(sys, s) && k in s.nodes && ran in s.nodes[k].ran
    ensures k in sys.subs && ran.accept in s.nodes[k].forwarded && Won(sys.subs[k], s.net, ran.accept)
  {
    assert NodeInOrder(sys.subs[k], s.net, s.nodes[k]);
    RanWasForwarded(s.nodes[k], ran);
  }

  /**
   * What a receipt from a correct winner is worth. The worker did forward a job under this id, ran it to
   * the end, and reports its status and output. It is this buyer's own job exactly when the receipt names
   * this buyer.
   */
  lemma ReceiptMeansTheWinnerRanTheJob(sys: System, s: State, j: JobId)
    requires sys.Valid() && Reachable(sys, s)
    requires j in s.auctions && s.auctions[j].receipt.Some?
    requires s.auctions[j].award.Some? && s.auctions[j].award.value.winner.bidder in sys.correct
    ensures var x := s.auctions[j];
            var k := SubId(x.award.value.winner.bidder, x.req.workload);
            && k in sys.subs && k in s.nodes
            && exists ran ::
                 && ran in s.nodes[k].ran && Reports(ran, x.receipt.value)
                 && ran.accept in s.nodes[k].forwarded && ran.accept.jobId == j
                 && (x.receipt.value.buyer == x.buyer <==> ran.accept == x.award.value.accept)
  {
    ReachableInOrder(sys, s);
    assert AuctionInOrder(sys, s.net, j, s.auctions[j]);
    var k, ran := ReceiptReportsARun(sys, s, j);
    RunIsTheAwardExactlyWhen(sys, s, j, k, ran);
  }

  // ---- prices ----------------------------------------------------------

  /**
   * No correct worker runs a correct buyer's job over that buyer's cap, or under its own floor by more than the
   * rounding: at most 1e-9 when the floor is a whole number of micro-dollars, and not at all when so is the cap the
   * winning bid was quoted against. That cap is the buyer's own when the bid was made on the buyer's offer; an offer
   * published by someone else in the buyer's name can carry another.
   */
  lemma PriceBetweenFloorAndCap(sys: System, s: State, k: SubId, a: JobAccept)
    requires sys.Valid() && Reachable(sys, s)
    requires k in s.nodes && a in s.nodes[k].forwarded && a.buyer in sys.correct
    ensures k in sys.subs && a.jobId in s.auctions
    ensures s.auctions[a.jobId].award.Some? && Buyer.PriceInCap(a.price, s.auctions[a.jobId].offer.maxPrice)
    ensures sys.subs[k].pricing.Some? ==>
              var floor := sys.subs[k].pricing.value.Floor();
              && floor - (0.5 / Pricing.MICROS + Pricing.CAP_TOLERANCE) <= a.price.v
              && (Pricing.WholeMicros(floor) ==> floor - Pricing.CAP_TOLERANCE <= a.price.v)
              && exists r :: r in s.nodes[k].bids && r.bid == s.auctions[a.jobId].award.value.winner && r.terms.cap.Fin?
                   && (Pricing.WholeMicros(floor) && Pricing.WholeMicros(r.terms.cap.v) ==> floor <= a.price.v)
  {
    Agreement(sys, s, k, a);
    ReachableInOrder(sys, s);
    var x := s.auctions[a.jobId];
    assert AuctionInOrder(sys, s.net, a.jobId, x);
    assert NodeInOrder(sys.subs[k], s.net, s.nodes[k]);
    var r :| r in s.nodes[k].bids && r.bid == x.award.value.winner;
    assert OwnBid(sys.subs[k], r);
  }

  // ---- capacity --------------------------------------------------------

  /** A subscriber never waits for a place in its runner's queue. */
  lemma ForwardingNeverWaits(sys: System, s: State, k: SubId)
    requires sys.Valid() && Reachable(sys, s) && k in s.nodes
    ensures k in sys.subs
    ensures |s.nodes[k].sub.open| + |s.nodes[k].queue| <= sys.subs[k].queueCap.GetOr(0)
    ensures s.nodes[k].sub.mode.Sending? ==>
              sys.subs[k].queueCap.Some? && |s.nodes[k].queue| < sys.subs[k].queueCap.value
  {
    ReachableInOrder(sys, s);
    assert NodeInOrder(sys.subs[k], s.net, s.nodes[k]);
  }

  /** With a queue of at most 1024 places the open bids are never reset when one is remembered. */
  lemma OpenBidsAreNeverReset(sys: System, s: State, k: SubId)
    requires sys.Valid() && Reachable(sys, s) && k in s.nodes
    requires k in sys.subs ==> sys.subs[k].queueCap.GetOr(0) <= Dispatch.MAX_OPEN_BIDS
    requires s.nodes[k].sub.mode.Publishing?
    ensures |s.nodes[k].sub.open| < Dispatch.MAX_OPEN_BIDS
    ensures Dispatch.AfterPublish(s.nodes[k].sub, true).open
         == s.nodes[k].sub.open[s.nodes[k].sub.mode.bid.jobId := s.nodes[k].sub.mode.pending]
  {
    ReachableInOrder(sys, s);
    NodeHasRoom(sys, s, k);
  }

  lemma NodeHasRoom(sys: System, s: State, k: SubId)
    requires sys.Valid() && NodesInOrder(sys, s) && k in s.nodes
    ensures k in sys.subs && QueueHasRoom(sys.subs[k], s.nodes[k])
  {
    assert NodeInOrder(sys.subs[k], s.net, s.nodes[k]);
  }

  /**
   * A workload's open bids and queued jobs fit the slots of its pool, and with the job its runner has
   * received and those it runs they exceed the pool by at most one.
   */
  lemma SlotsAreNotOvercommitted(sys: System, s: State, k: SubId)
    requires sys.Valid() && Reachable(sys, s)
    requires k in s.nodes && k in sys.subs && sys.subs[k].slots.Some?
    ensures var node, total := s.nodes[k], sys.pools[sys.subs[k].slots.value];
            && |node.sub.open| + |node.queue| <= total
            && |node.sub.open| + |node.queue| + |HeldJobs(node)| + |node.running| <= total + 1
            && |node.running| <= total
  {
    ReachableInOrder(sys, s);
    assert NodeCommitted(TotalSlots(sys, k), s.nodes[k]);
    FreePlusOwnRunning(sys, s, k);
  }

  /**
   * What takes a workload over its pool. While it is within it, an event of the network takes it over if and only
   * if its worker bids on an offer while a received job has not got its slot, and the bid commits all the slots
   * that are left.
   */
  lemma OvercommitsExactlyWhen(sys: System, s: State, e: Event, s': State, k: SubId)
    requires sys.Valid() && Reachable(sys, s) && Step(sys, s, e) == Some(s')
    requires k in s.nodes && k in sys.subs && sys.subs[k].slots.Some? && Committed(s.nodes[k]) <= TotalSlots(sys, k)
    ensures k in s'.nodes
    ensures Committed(s'.nodes[k]) > TotalSlots(sys, k) <==>
              e.WorkerActs? && e.k == k && BidsPastTheSlots(TotalSlots(sys, k), s.nodes[k], e.we, s'.nodes[k])
  {
    if e.WorkerActs? && e.k == k {
      ReachableInOrder(sys, s);
      FreePlusOwnRunning(sys, s, k);
      var eff := WorkerEffect(sys, s, k, e.we, s');
      OvercommitsExactlyByABid(sys.subs[k], k in sys.spawning, s.nodes[k], FreeSlots(sys, s, k).value,
                               TotalSlots(sys, k), e.we, eff);
    } else if e.WorkerActs? {
      var eff := WorkerEffect(sys, s, e.k, e.we, s');
    }
  }

  lemma {:induction false} SequentialRunsKeepOneInHand(sys: System, events: seq<Event>, s: State, k: SubId)
    requires sys.Valid() && Run(sys, events) == Some(s) && k in s.nodes && k !in sys.spawning
    ensures OneInHand(s.nodes[k])
  {
    if events != [] {
      var before, e := Run(sys, events[..|events| - 1]).value, events[|events| - 1];
      if e.WorkerActs? {
        var eff := WorkerEffect(sys, before, e.k, e.we, s);
        SequentialRunsKeepOneInHand(sys, events[..|events| - 1], before, k);
        if e.k == k {
          SequentialRunnerKeepsOneInHand(sys.subs[k], before.nodes[k], FreeSlots(sys, before, k), TotalSlots(sys, k),
              e.we, eff);
        }
      } else {
        assert s.nodes == before.nodes;
        SequentialRunsKeepOneInHand(sys, events[..|events| - 1], before, k);
      }
    }
  }

  /** A runner that finishes each job before it receives the next is committed to one job more than its queue holds. */
  lemma SequentialRunnerCommitment(sys: System, s: State, k: SubId)
    requires sys.Valid() && Reachable(sys, s) && k in s.nodes && k !in sys.spawning
    ensures k in sys.subs && Committed(s.nodes[k]) <= sys.subs[k].queueCap.GetOr(0) + 1
  {
    ReachableInOrder(sys, s);
    assert NodeInOrder(sys.subs[k], s.net, s.nodes[k]);
    var events :| Run(sys, events) == Some(s);
    SequentialRunsKeepOneInHand(sys, events, s, k);
  }

  /** The jobs running on a node's pool, over all its workloads, never want more CPU threads than there are. */
  lemma RunningJobsFitTheCpus(sys: System, s: State, p: Dispatch.SlotPool, capacity: real, threads: nat)
    requires sys.Valid() && Reachable(sys, s) && p in sys.pools
    requires threads > 0 && sys.pools[p] == Load.MaxConcurrentCpuJobs(capacity, threads)
    ensures p in s.holders
    ensures forall k :: s.holders[p][k] == Running(sys, s, p, k)
    ensures (|s.holders[p]| * threads) as real <= MaxReal(threads as real, capacity)
  {
    ReachableInOrder(sys, s);
    Load.SlotsFitTheCpus(capacity, threads, |s.holders[p]|);
  }

  /** Runs in which a runner that receives a job starts it before anything else happens. */
  datatype Move = Any(e: Event) | Start(k: SubId)

  predicate Prompt(m: Move) {
    m.Start? || !(m.e.WorkerActs? && (m.e.we.Receive? || m.e.we.Acquire?))
  }

  function Expand(moves: seq<Move>): seq<Event> {
    if moves == [] then []
    else
      var m := moves[|moves| - 1];
      Expand(moves[..|moves| - 1])
      + if m.Any? then [m.e] else [WorkerActs(m.k, Receive), WorkerActs(m.k, Acquire)]
  }

  predicate NodeTight(total: nat, node: Node) {
    node.held.None? && Committed(node) <= total
  }

  ghost predicate Tight(sys: System, s: State) {
    forall k | k in s.nodes && k in sys.subs && sys.subs[k].slots.Some? :: NodeTight(TotalSlots(sys, k), s.nodes[k])
  }

  lemma HeldStaysEmpty(cfg: Dispatch.Config, spawning: bool, node: Node, free: Option<nat>, total: nat,
                       e: WorkerEvent, eff: Effect)
    requires WorkerStep(cfg, spawning, node, free, total, e) == Some(eff) && node.held.None? && !e.Receive?
    ensures eff.node.held.None?
  {
  }

  lemma WorkerKeepsTight(sys: System, s: State, k: SubId, we: WorkerEvent, s': State)
    requires sys.Valid() && SlotsAccountedFor(sys, s) && CommitmentsInOrder(sys, s)
    requires Step(sys, s, WorkerActs(k, we)) == Some(s') && !we.Receive?
    requires k in sys.subs && k in s.nodes && sys.subs[k].slots.Some? && NodeTight(TotalSlots(sys, k), s.nodes[k])
    ensures k in s'.nodes && NodeTight(TotalSlots(sys, k), s'.nodes[k])
  {
    WorkerKeepsCommitments(sys, s, k, we, s');
    var eff := WorkerEffect(sys, s, k, we, s');
    HeldStaysEmpty(sys.subs[k], k in sys.spawning, s.nodes[k], FreeSlots(sys, s, k), TotalSlots(sys, k), we, eff);
  }

  lemma TightElsewhere(sys: System, s: State, k: SubId, s': State)
    requires Tight(sys, s) && k in s.nodes && s'.nodes.Keys == s.nodes.Keys
    requires forall k' | k' in s.nodes && k' != k :: s'.nodes[k'] == s.nodes[k']
    requires k in sys.subs && (sys.subs[k].slots.Some? ==> NodeTight(TotalSlots(sys, k), s'.nodes[k]))
    ensures Tight(sys, s')
  {
  }

  lemma StepKeepsTight(sys: System, s: State, e: Event, s': State)
    requires sys.Valid() && SlotsAccountedFor(sys, s) && CommitmentsInOrder(sys, s) && Tight(sys, s)
    requires Step(sys, s, e) == Some(s') && !(e.WorkerActs? && e.we.Receive?)
    ensures Tight(sys, s')
  {
    if e.WorkerActs? {
      var eff := WorkerEffect(sys, s, e.k, e.we, s');
      if sys.subs[e.k].slots.Some? {
        WorkerKeepsTight(sys, s, e.k, e.we, s');
      }
      TightElsewhere(sys, s, e.k, s');
    } else {
      assert s'.nodes == s.nodes;
    }
  }

  lemma ReceiveThenAcquire(spawning: bool, node: Node, free: Option<nat>, first: Effect, second: Effect, total: nat)
    requires ReceiveStep(spawning, node) == Some(first) && AcquireStep(first.node, free) == Some(second)
    requires NodeTight(total, node)
    ensures NodeTight(total, second.node)
  {
  }

  /** Receiving and starting a job in one go moves it, and adds nothing. */
  lemma StartKeepsTight(sys: System, s: State, k: SubId, mid: State, s': State)
    requires Tight(sys, s)
    requires Step(sys, s, WorkerActs(k, Receive)) == Some(mid) && Step(sys, mid, WorkerActs(k, Acquire)) == Some(s')
    ensures Tight(sys, s')
  {
    var first := WorkerEffect(sys, s, k, Receive, mid);
    var second := WorkerEffect(sys, mid, k, Acquire, s');
    if sys.subs[k].slots.Some? {
      ReceiveThenAcquire(k in sys.spawning, s.nodes[k], FreeSlots(sys, mid, k), first, second, TotalSlots(sys, k));
    }
    TightElsewhere(sys, s, k, s');
  }

  lemma LastStep(sys: System, events: seq<Event>, e: Event, s: State) returns (before: State)
    requires Run(sys, events + [e]) == Some(s)
    ensures Run(sys, events) == Some(before) && Step(sys, before, e) == Some(s)
  {
    assert (events + [e])[..|events|] == events;
    before := Run(sys, events).value;
  }

  lemma MoveKeepsTight(sys: System, events: seq<Event>, m: Move, s: State) returns (before: State)
    requires sys.Valid() && Prompt(m)
    requires Run(sys, events + (if m.Any? then [m.e] else [WorkerActs(m.k, Receive), WorkerActs(m.k, Acquire)]))
        == Some(s)
    ensures Run(sys, events) == Some(before)
    ensures Tight(sys, before) ==> Tight(sys, s)
  {
    match m
    case Any(e) =>
      before := LastStep(sys, events, e, s);
      RunsStayInOrder(sys, events, before);
      if Tight(sys, before) { StepKeepsTight(sys, before, e, s); }
    case Start(k) =>
      var first, second := WorkerActs(k, Receive), WorkerActs(k, Acquire);
      assert events + [first, second] == (events + [first]) + [second];
      var mid := LastStep(sys, events + [first], second, s);
      before := LastStep(sys, events, first, mid);
      if Tight(sys, before) { StartKeepsTight(sys, before, k, mid, s); }
  }

  lemma {:induction false} PromptRunsStayTight(sys: System, moves: seq<Move>, s: State)
    requires sys.Valid() && (forall m | m in moves :: Prompt(m)) && Run(sys, Expand(moves)) == Some(s)
    ensures Tight(sys, s)
  {
    if moves != [] {
      var front, m := moves[..|moves| - 1], moves[|moves| - 1];
      assert m in moves;
      var before := MoveKeepsTight(sys, Expand(front), m, s);
      PromptRunsStayTight(sys, front, before);
    }
  }

  /** Then a workload's open bids, queued and running jobs never exceed the slots of its pool. */
  lemma PromptRunnersNeverOvercommit(sys: System, moves: seq<Move>, s: State, k: SubId)
    requires sys.Valid() && (forall m | m in moves :: Prompt(m)) && Run(sys, Expand(moves)) == Some(s)
    requires k in s.nodes && k in sys.subs && sys.subs[k].slots.Some?
    ensures sys.subs[k].slots.value in sys.pools
    ensures |s.nodes[k].sub.open| + |s.nodes[k].queue| + |s.nodes[k].running| <= sys.pools[sys.subs[k].slots.value]
  {
    PromptRunsStayTight(sys, moves, s);
  }
}
