/**
 * The buyer's side of an auction (crates/c0mpute-core/src/buyer.rs): publish an offer, collect
 * bids for a window, award one, wait for that worker's receipt.
 */
module Buyer {
  import opened Wrappers
  import opened Floats
  import opened Wire
  import Routing

  datatype Request = Request(
    workload: string,
    spec: Spec,
    requiredCapabilities: seq<string>,
    maxPrice: F64,
    deadlineMs: nat,
    allowed: seq<Peer>,
    excluded: seq<Peer>,
    externalRef: Option<string>,
    policy: Routing.SelectionPolicy)
  {
    predicate ValidRef() {
      externalRef.None? || ValidExternalRef(externalRef.value)
    }

    /** The deadline in whole seconds, which ranking compares ETAs with. */
    function DeadlineSecs(): nat {
      deadlineMs / 1000
    }
  }

  /** An empty allowlist admits everyone. */
  predicate AllowedBy(list: seq<Peer>, p: Peer) {
    list == [] || p in list
  }

  // ---- the steps of one auction ----------------------------------------

  function MakeOffer(req: Request, jobId: JobId, us: Peer, now: nat): JobOffer {
    JobOffer(jobId, req.workload, us, Some(req.spec), req.requiredCapabilities, req.maxPrice,
             now + req.deadlineMs, now, req.externalRef)
  }

  predicate PriceInCap(price: F64, cap: F64) {
    price.IsFinite() && !price.Lt(Fin(0.0)) && !price.Gt(cap)
  }

  /** Every check a bid has to pass before it is remembered. */
  predicate BidCounts(req: Request, jobId: JobId, us: Peer, msg: Gossip, now: nat) {
    && msg.topic == JobTopic(req.workload)
    && msg.body.BidBody?
    && var bid := msg.body.bid;
       && bid.jobId == jobId
       && bid.bidder != us
       && AllowedBy(req.allowed, bid.bidder)
       && bid.bidder !in req.excluded
       && PriceInCap(bid.price, req.maxPrice)
       && bid.IsLive(now)
       && SourceMatchesClaim(msg, bid.bidder)
  }

  /** A message, and the buyer's clock when it was handled. */
  datatype Delivery = Delivery(msg: Gossip, now: nat)

  function Collect(req: Request, jobId: JobId, us: Peer, inbox: seq<Delivery>): (bids: seq<JobBid>)
    ensures forall b | b in bids ::
              exists d :: d in inbox && d.msg.body == BidBody(b) && BidCounts(req, jobId, us, d.msg, d.now)
  {
    if inbox == [] then []
    else
      var last := inbox[|inbox| - 1];
      var front := Collect(req, jobId, us, inbox[..|inbox| - 1]);
      if BidCounts(req, jobId, us, last.msg, last.now) then front + [last.msg.body.bid] else front
  }

  /**
   * A message adds a bid exactly when it is a bid on this very job, from someone else, signed by its bidder, who is
   * allowed and not excluded, at a price from 0 to the cap, and not run out; and then it adds that bid at the end.
   */
  lemma CollectTakesExactly(req: Request, jobId: JobId, us: Peer, inbox: seq<Delivery>, d: Delivery)
    ensures Collect(req, jobId, us, inbox + [d]) == Collect(req, jobId, us, inbox) +
              if && d.msg.topic == "c0mpute/jobs/" + req.workload
                 && d.msg.body.BidBody?
                 && var bid := d.msg.body.bid;
                    && bid.jobId == jobId
                    && bid.bidder != us && d.msg.source == Some(bid.bidder)
                    && (req.allowed == [] || bid.bidder in req.allowed) && bid.bidder !in req.excluded
                    && bid.price.Fin? && 0.0 <= bid.price.v && Within(bid.price.v, req.maxPrice)
                    && (bid.expiresMs.Some? ==> d.now < bid.expiresMs.value)
              then [d.msg.body.bid] else []
  {
    assert (inbox + [d])[..|inbox|] == inbox;
  }

  function RetainLive(bids: seq<JobBid>, now: nat): (live: seq<JobBid>)
    ensures forall b :: b in live <==> b in bids && b.IsLive(now)
  {
    if bids == [] then []
    else if bids[0].IsLive(now) then [bids[0]] + RetainLive(bids[1..], now)
    else RetainLive(bids[1..], now)
  }

  /** Keeping the live bids changes neither their order nor how often each occurs. */
  lemma {:induction false} RetainLiveKeepsOrder(bids: seq<JobBid>, bid: JobBid, more: seq<JobBid>, now: nat)
    ensures RetainLive(bids + [bid] + more, now)
         == RetainLive(bids, now) + (if bid.IsLive(now) then [bid] else []) + RetainLive(more, now)
  {
    var all := bids + [bid] + more;
    if bids == [] {
      assert all[0] == bid && all[1..] == more;
    } else {
      RetainLiveKeepsOrder(bids[1..], bid, more, now);
      assert all[0] == bids[0] && all[1..] == bids[1..] + [bid] + more;
    }
  }

  function MakeAccept(req: Request, jobId: JobId, us: Peer, winner: JobBid, now: nat): JobAccept {
    JobAccept(jobId, us, winner.bidder, winner.price, req.workload, Some(req.spec), now, req.externalRef)
  }

  /** A receipt's reference must be ours when it carries one. */
  predicate ReceiptRefMatches(ours: Option<string>, theirs: Option<string>) {
    theirs.None? || theirs == ours
  }

  predicate ReceiptCounts(req: Request, jobId: JobId, winner: Peer, msg: Gossip) {
    && msg.topic == JobTopic(req.workload)
    && msg.body.ReceiptBody?
    && var r := msg.body.receipt;
       && r.jobId == jobId
       && r.worker == winner
       && SourceMatchesClaim(msg, winner)
       && ReceiptRefMatches(req.externalRef, r.externalRef)
  }

  function FirstReceipt(req: Request, jobId: JobId, winner: Peer, inbox: seq<Gossip>): (r: Option<JobReceipt>)
    ensures r.Some? ==> exists m :: m in inbox && m.body == ReceiptBody(r.value) && ReceiptCounts(req, jobId, winner, m)
    ensures r.None? ==> forall m | m in inbox :: !ReceiptCounts(req, jobId, winner, m)
  {
    if inbox == [] then None
    else if ReceiptCounts(req, jobId, winner, inbox[0]) then
      assert inbox[0] in inbox;
      Some(inbox[0].body.receipt)
    else FirstReceipt(req, jobId, winner, inbox[1..])
  }

  /**
   * The receipt taken is the first that names this job and the winner, is signed by the winner, and carries the
   * buyer's reference or none.
   */
  lemma {:induction false} FirstReceiptIsTaken(
    req: Request, jobId: JobId, winner: Peer, before: seq<Gossip>, m: Gossip, after: seq<Gossip>)
    requires FirstReceipt(req, jobId, winner, before) == None
    ensures FirstReceipt(req, jobId, winner, before + [m] + after) ==
              if && m.topic == "c0mpute/jobs/" + req.workload
                 && m.body.ReceiptBody?
                 && var r := m.body.receipt;
                    && r.jobId == jobId
                    && r.worker == winner && m.source == Some(winner)
                    && (r.externalRef.Some? ==> r.externalRef == req.externalRef)
              then Some(m.body.receipt)
              else FirstReceipt(req, jobId, winner, after)
  {
    var all := before + [m] + after;
    if before == [] {
      assert all[0] == m && all[1..] == after;
    } else {
      assert all[0] == before[0] && all[1..] == before[1..] + [m] + after;
      FirstReceiptIsTaken(req, jobId, winner, before[1..], m, after);
    }
  }

  // ---- a whole auction -------------------------------------------------

  datatype Failure = BadExternalRef | NotPublished | NoBids | NoReceipt

  datatype Outcome = Outcome(jobId: JobId, acceptedBid: JobBid, receipt: JobReceipt, externalRef: Option<string>)

  /** What the network and the clock do to one auction. */
  datatype Weather = Weather(
    jobId: JobId,
    offerNow: nat,
    offerPublished: bool,
    bidWindow: seq<Delivery>,
    closeNow: nat,
    acceptNow: nat,
    acceptPublished: bool,
    receiptWindow: seq<Gossip>)

  /** The bids still standing when the window closes. */
  function Standing(us: Peer, req: Request, w: Weather): seq<JobBid> {
    RetainLive(Collect(req, w.jobId, us, w.bidWindow), w.closeNow)
  }

  lemma StandingPricesAreFinite(us: Peer, req: Request, w: Weather)
    ensures Routing.FinitePrices(Standing(us, req, w))
  {
  }

  lemma StandingBidsPassedEveryFilter(us: Peer, req: Request, w: Weather)
    ensures forall b | b in Standing(us, req, w) ::
              && b.IsLive(w.closeNow)
              && exists d :: d in w.bidWindow && d.msg.body == BidBody(b) && BidCounts(req, w.jobId, us, d.msg, d.now)
  {
  }

  /** From the winner on: the accept is published, and its receipt awaited. */
  function Settle(req: Request, w: Weather, winner: JobBid): Result<Outcome, Failure> {
    if !w.acceptPublished then Err(NotPublished)
    else
      match FirstReceipt(req, w.jobId, winner.bidder, w.receiptWindow)
      case None => Err(NoReceipt)
      case Some(r) => Ok(Outcome(w.jobId, winner, r, req.externalRef))
  }

  /** From the close of the window on, with the bids that are still standing. */
  function AfterWindow(req: Request, w: Weather, standing: seq<JobBid>, tick: nat): Result<Outcome, Failure>
    requires Routing.FinitePrices(standing)
  {
    if standing == [] then Err(NoBids)
    else Settle(req, w, Routing.Winner(req.policy, req.DeadlineSecs(), standing, tick))
  }

  function RunAuction(us: Peer, req: Request, w: Weather, tick: nat): Result<Outcome, Failure> {
    if !req.ValidRef() then Err(BadExternalRef)
    else if !w.offerPublished then Err(NotPublished)
    else OnceOffered(us, req, w, tick).0
  }

  /** The tie counter after choosing among `bids`: only a real tie draws a tick. */
  function CounterAfter(req: Request, bids: seq<JobBid>, tick: nat): nat
    requires Routing.FinitePrices(bids)
  {
    if Routing.Tied(req.policy, req.DeadlineSecs(), bids) > 1 then (tick + 1) % Routing.COUNTER_MODULUS else tick
  }

  /** What an auction leaves behind once its offer is out: its result, and the tie counter. */
  function OnceOffered(us: Peer, req: Request, w: Weather, tick: nat): (Result<Outcome, Failure>, nat) {
    StandingPricesAreFinite(us, req, w);
    var standing := Standing(us, req, w);
    (AfterWindow(req, w, standing, tick), CounterAfter(req, standing, tick))
  }

  /** The process-wide counter that rotates exact ties. */
  class TieCounter {
    var next: nat

    constructor ()
      ensures next == 0
    {
      next := 0;
    }

    method FetchAdd() returns (was: nat)
      modifies this
      ensures was == old(next) && next == (old(next) + 1) % Routing.COUNTER_MODULUS
    {
      was := next;
      next := (next + 1) % Routing.COUNTER_MODULUS;
    }
  }

  method CollectBids(req: Request, jobId: JobId, us: Peer, inbox: seq<Delivery>) returns (bids: seq<JobBid>)
    ensures bids == Collect(req, jobId, us, inbox)
  {
    bids := [];
    for i := 0 to |inbox|
      invariant bids == Collect(req, jobId, us, inbox[..i])
    {
      assert inbox[..i + 1][..i] == inbox[..i];
      var msg := inbox[i].msg;
      if msg.topic != JobTopic(req.workload) || !msg.body.BidBody? { continue; }
      var bid := msg.body.bid;
      if bid.jobId != jobId || bid.bidder == us { continue; }
      if req.allowed != [] && bid.bidder !in req.allowed { continue; }
      if bid.bidder in req.excluded { continue; }
      if !bid.price.IsFinite() || bid.price.Lt(Fin(0.0)) || bid.price.Gt(req.maxPrice) { continue; }
      if !bid.IsLive(inbox[i].now) { continue; }
      if !SourceMatchesClaim(msg, bid.bidder) { continue; }
      bids := bids + [bid];
    }
    assert inbox[..|inbox|] == inbox;
  }

  method RankBids(bids: seq<JobBid>, policy: Routing.SelectionPolicy, deadline: nat)
    returns (order: array<JobBid>, tied: nat)
    ensures fresh(order) && order[..] == Routing.Ranked(policy, deadline, bids)
    ensures tied == Routing.Tied(policy, deadline, bids)
  {
    order := new JobBid[|bids|](i requires 0 <= i < |bids| => bids[i]);
    assert order[..] == bids;
    tied := Routing.Rank(order, policy, deadline);
  }

  /** Ranks the bids in place, rotates the tied ones, and takes the first. */
  method PickWinner(bids: seq<JobBid>, policy: Routing.SelectionPolicy, deadline: nat, counter: TieCounter)
    returns (winner: JobBid)
    requires bids != [] && Routing.FinitePrices(bids)
    modifies counter
    ensures winner == Routing.Winner(policy, deadline, bids, old(counter.next))
    ensures counter.next == if Routing.Tied(policy, deadline, bids) > 1
                            then (old(counter.next) + 1) % Routing.COUNTER_MODULUS else old(counter.next)
  {
    WinnerIsAtTheOffset(policy, deadline, bids, counter.next);
    var order, tied := RankBids(bids, policy, deadline);
    var offset := 0;
    if tied > 1 {
      var tick := counter.FetchAdd();
      offset := tick % tied;
    }
    winner := (order[offset..tied] + order[..offset])[0];
  }

  lemma WinnerIsAtTheOffset(policy: Routing.SelectionPolicy, deadline: nat, bids: seq<JobBid>, tick: nat)
    requires bids != [] && Routing.FinitePrices(bids)
    ensures var order, tied := Routing.Ranked(policy, deadline, bids), Routing.Tied(policy, deadline, bids);
            var offset := if tied > 1 then tick % tied else 0;
            && 0 <= offset < tied <= |order|
            && Routing.Winner(policy, deadline, bids, tick) == order[offset]
  {
    Routing.RankIsSortedAndCountsTies(policy, deadline, bids);
  }

  method AwaitReceipt(req: Request, jobId: JobId, winner: Peer, inbox: seq<Gossip>) returns (r: Option<JobReceipt>)
    ensures r == FirstReceipt(req, jobId, winner, inbox)
  {
    for i := 0 to |inbox|
      invariant FirstReceipt(req, jobId, winner, inbox) == FirstReceipt(req, jobId, winner, inbox[i..])
    {
      var msg := inbox[i];
      assert inbox[i..][1..] == inbox[i + 1..];
      if msg.topic == JobTopic(req.workload) && msg.body.ReceiptBody? {
        var receipt := msg.body.receipt;
        if receipt.jobId == jobId && receipt.worker == winner {
          if !SourceMatchesClaim(msg, receipt.worker) { continue; }
          if !ReceiptRefMatches(req.externalRef, receipt.externalRef) { continue; }
          return Some(receipt);
        }
      }
    }
    return None;
  }

  method SettleWith(req: Request, w: Weather, winner: JobBid) returns (result: Result<Outcome, Failure>)
    ensures result == Settle(req, w, winner)
  {
    if !w.acceptPublished { return Err(NotPublished); }
    var receipt := AwaitReceipt(req, w.jobId, winner.bidder, w.receiptWindow);
    result := if receipt.None? then Err(NoReceipt) else Ok(Outcome(w.jobId, winner, receipt.value, req.externalRef));
  }

  method CloseWindow(req: Request, w: Weather, bids: seq<JobBid>, counter: TieCounter)
    returns (result: Result<Outcome, Failure>)
    requires Routing.FinitePrices(bids)
    modifies counter
    ensures result == AfterWindow(req, w, bids, old(counter.next))
    ensures counter.next == CounterAfter(req, bids, old(counter.next))
  {
    if bids == [] { return Err(NoBids); }
    var winner := PickWinner(bids, req.policy, req.DeadlineSecs(), counter);
    result := SettleWith(req, w, winner);
  }

  /** Collects the bids of the window, and drops those that expired while it was open. */
  method GatherBids(us: Peer, req: Request, w: Weather) returns (bids: seq<JobBid>)
    ensures bids == Standing(us, req, w)
  {
    bids := CollectBids(req, w.jobId, us, w.bidWindow);
    bids := RetainLive(bids, w.closeNow);
  }

  method AuctionOnceOffered(us: Peer, req: Request, w: Weather, counter: TieCounter)
    returns (result: Result<Outcome, Failure>)
    modifies counter
    ensures (result, counter.next) == OnceOffered(us, req, w, old(counter.next))
  {
    StandingPricesAreFinite(us, req, w);
    var bids := GatherBids(us, req, w);
    result := CloseWindow(req, w, bids, counter);
  }

  /** The whole auction as the buyer runs it. */
  method Auction(us: Peer, req: Request, w: Weather, counter: TieCounter) returns (result: Result<Outcome, Failure>)
    modifies counter
    ensures result == RunAuction(us, req, w, old(counter.next))
    ensures counter.next == if req.ValidRef() && w.offerPublished
                            then CounterAfter(req, Standing(us, req, w), old(counter.next)) else old(counter.next)
  {
    if !req.ValidRef() { return Err(BadExternalRef); }
    if !w.offerPublished { return Err(NotPublished); }
    result := AuctionOnceOffered(us, req, w, counter);
  }

  /**
   * How an auction ends, in the order it goes wrong: a malformed reference, an offer that is not published, no
   * standing bid, an accept that is not published, no receipt; and otherwise with the best bid and its receipt.
   */
  lemma AuctionEnds(us: Peer, req: Request, w: Weather, tick: nat)
    ensures Routing.FinitePrices(Standing(us, req, w))
    ensures var result, standing := RunAuction(us, req, w, tick), Standing(us, req, w);
            if req.externalRef.Some? && !(&& 1 <= |req.externalRef.value| <= 128
                                          && forall c | c in req.externalRef.value :: 0x21 <= c as int <= 0x7E) then
              result == Err(BadExternalRef)
            else if !w.offerPublished then result == Err(NotPublished)
            else if standing == [] then result == Err(NoBids)
            else if !w.acceptPublished then result == Err(NotPublished)
            else
              var winner := Routing.Winner(req.policy, req.deadlineMs / 1000, standing, tick);
              var receipt := FirstReceipt(req, w.jobId, winner.bidder, w.receiptWindow);
              result == if receipt.None? then Err(NoReceipt)
                        else Ok(Outcome(w.jobId, winner, receipt.value, req.externalRef))
  {
    StandingPricesAreFinite(us, req, w);
  }

  /**
   * A winner passed every filter: it is an authenticated bid on this job from another, allowed, not
   * excluded peer, inside the cap, live when the window closed; no standing bid compares before it;
   * and the receipt is that worker's own.
   */
  lemma WinnerPassedEveryFilter(us: Peer, req: Request, w: Weather, tick: nat)
    ensures var result := RunAuction(us, req, w, tick);
            result.Ok? ==>
              var win := result.value.acceptedBid;
              && win.bidder != us && (req.allowed == [] || win.bidder in req.allowed) && win.bidder !in req.excluded
              && win.price.Fin? && 0.0 <= win.price.v && Within(win.price.v, req.maxPrice)
              && win.IsLive(w.closeNow)
              && (exists d :: d in w.bidWindow && d.msg.body == BidBody(win) && d.msg.source == Some(win.bidder))
              && (forall b | b in Standing(us, req, w) ::
                    Routing.Compare(Routing.RuleFor(req.policy, req.DeadlineSecs(), Standing(us, req, w)), win, b)
                      != Greater)
              && (exists m :: m in w.receiptWindow && m.source == Some(win.bidder)
                              && m.body == ReceiptBody(result.value.receipt))
              && result.value.receipt.jobId == w.jobId
  {
    var result := RunAuction(us, req, w, tick);
    if result.Ok? {
      StandingBidsPassedEveryFilter(us, req, w);
      Routing.WinnerIsMinimal(req.policy, req.DeadlineSecs(), Standing(us, req, w), tick);
      var win := result.value.acceptedBid;
      assert win in Standing(us, req, w);
      var d :| d in w.bidWindow && d.msg.body == BidBody(win) && BidCounts(req, w.jobId, us, d.msg, d.now);
      assert d.msg.source == Some(win.bidder);
      var m :| m in w.receiptWindow && m.body == ReceiptBody(result.value.receipt)
               && ReceiptCounts(req, w.jobId, win.bidder, m);
      assert m.source == Some(win.bidder);
    }
  }
}
