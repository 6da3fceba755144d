/** The buyer of the network model and the buyer's own code are the same: one auction, step by step or whole. */
module AuctionSteps {
  import opened Wrappers
  import opened Wire
  import opened Protocol
  import Buyer
  import Routing

  /** The auction after one event; an event that cannot happen leaves it as it is. */
  function After(j: JobId, a: Auction, e: BuyerEvent): Auction {
    match BuyerStep(j, a, e)
    case Some((next, _)) => next
    case None => a
  }

  function HearBids(j: JobId, a: Auction, inbox: seq<Buyer.Delivery>): Auction {
    if inbox == [] then a else
      var last := inbox[|inbox| - 1];
      After(j, HearBids(j, a, inbox[..|inbox| - 1]), HearBid(last.msg, last.now))
  }

  function HearReceipts(j: JobId, a: Auction, inbox: seq<Gossip>): Auction
    decreases |inbox|
  {
    if inbox == [] then a else HearReceipts(j, After(j, a, HearReceipt(inbox[0])), inbox[1..])
  }

  /** An auction whose offer went out, taken through its bid window, its award and its receipt window. */
  function Play(us: Peer, req: Buyer.Request, w: Buyer.Weather, tick: nat): Auction {
    var start := Auction(us, req, Buyer.MakeOffer(req, w.jobId, us, w.offerNow), true, [], None, None);
    var heard := HearBids(w.jobId, start, w.bidWindow);
    var closed := After(w.jobId, heard, CloseWindow(w.closeNow, tick, w.acceptNow, w.acceptPublished));
    HearReceipts(w.jobId, closed, w.receiptWindow)
  }

  lemma {:induction false} HearBidsCollects(j: JobId, a: Auction, inbox: seq<Buyer.Delivery>)
    requires a.open && a.bids == []
    ensures HearBids(j, a, inbox) == a.(bids := Buyer.Collect(a.req, j, a.buyer, inbox))
  {
    if inbox != [] { HearBidsCollects(j, a, inbox[..|inbox| - 1]); }
  }

  lemma {:induction false} LaterReceiptsAreIgnored(j: JobId, a: Auction, inbox: seq<Gossip>)
    requires a.award.None? || a.receipt.Some?
    ensures HearReceipts(j, a, inbox) == a
    decreases |inbox|
  {
    if inbox != [] { LaterReceiptsAreIgnored(j, a, inbox[1..]); }
  }

  lemma {:induction false} HearReceiptsTakesTheFirst(j: JobId, a: Auction, inbox: seq<Gossip>)
    requires a.award.Some? && a.receipt.None?
    ensures HearReceipts(j, a, inbox)
         == a.(receipt := Buyer.FirstReceipt(a.req, j, a.award.value.winner.bidder, inbox))
  {
    if inbox != [] {
      if Buyer.ReceiptCounts(a.req, j, a.award.value.winner.bidder, inbox[0]) {
        LaterReceiptsAreIgnored(j, After(j, a, HearReceipt(inbox[0])), inbox[1..]);
      } else {
        HearReceiptsTakesTheFirst(j, a, inbox[1..]);
      }
    }
  }

  lemma ClosingAwards(us: Peer, req: Buyer.Request, w: Buyer.Weather, tick: nat, a: Auction)
    requires a.open && a.req == req && a.buyer == us && a.award.None?
        && a.bids == Buyer.Collect(req, w.jobId, us, w.bidWindow)
    ensures var closed := After(w.jobId, a, CloseWindow(w.closeNow, tick, w.acceptNow, w.acceptPublished));
            var standing := Buyer.Standing(us, req, w);
            && Routing.FinitePrices(standing)
            && (closed.award.Some? <==> standing != [] && w.acceptPublished)
            && closed.receipt == a.receipt && closed.req == req
            && (closed.award.Some? ==>
                  closed.award.value.winner == Routing.Winner(req.policy, req.DeadlineSecs(), standing, tick))
  {
    Buyer.StandingPricesAreFinite(us, req, w);
  }

  /**
   * Playing the steps ends in a receipt exactly when the whole auction succeeds, with the same winner and
   * the same receipt, whatever the network and the clocks do.
   */
  lemma StepsRunTheAuction(us: Peer, req: Buyer.Request, w: Buyer.Weather, tick: nat)
    requires req.ValidRef() && w.offerPublished
    ensures var x, result := Play(us, req, w, tick), Buyer.RunAuction(us, req, w, tick);
            && (result.Ok? <==> x.award.Some? && x.receipt.Some?)
            && (result.Ok? ==> result.value == Buyer.Outcome(w.jobId, x.award.value.winner, x.receipt.value,
                req.externalRef))
            && (result == Err(Buyer.NoReceipt) <==> x.award.Some? && x.receipt.None?)
  {
    var start := Auction(us, req, Buyer.MakeOffer(req, w.jobId, us, w.offerNow), true, [], None, None);
    HearBidsCollects(w.jobId, start, w.bidWindow);
    var heard := HearBids(w.jobId, start, w.bidWindow);
    ClosingAwards(us, req, w, tick, heard);
    var closed := After(w.jobId, heard, CloseWindow(w.closeNow, tick, w.acceptNow, w.acceptPublished));
    if closed.award.Some? {
      HearReceiptsTakesTheFirst(w.jobId, closed, w.receiptWindow);
    } else {
      LaterReceiptsAreIgnored(w.jobId, closed, w.receiptWindow);
    }
  }
}
