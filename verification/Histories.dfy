/** What a node's share, job-time average and order of jobs come to, as functions of the run that led there. */
module Histories {
  import opened Wrappers
  import opened Floats
  import opened Wire
  import opened Protocol
  import opened WorkerInvariants
  import opened NetworkInvariants
  import Dispatch
  import Load
  import Pricing
  import Theorems

  // ---- what the market taught ------------------------------------------

  /** `a` settles an auction the node bid in as `bid`: on its terms, inside its cap, before it ran out for good. */
  predicate Settles(bid: Dispatch.OpenBid, a: JobAccept, now: nat) {
    && a.buyer == bid.buyer && a.spec == bid.spec && a.externalRef == bid.externalRef
    && now - bid.expiresMs <= 10_000
    && a.price.Fin? && 0.0 <= a.price.v && Within(a.price.v, bid.cap)
  }

  /** The outcome that node `k` hears of in event `e`, if it is one of an auction it bid in. */
  function Lesson(s: State, k: SubId, e: Event): seq<Pricing.Outcome> {
    if e.WorkerActs? && e.k == k && k in s.nodes && e.we.HearAccept? && e.we.msg.body.AcceptBody? then
      var a, open := e.we.msg.body.accept, s.nodes[k].sub.open;
      if a.workload == k.workload && e.we.msg.source == Some(a.buyer)
         && a.jobId in open && Settles(open[a.jobId], a, e.we.acceptNow) then
        var bid := open[a.jobId];
        [Pricing.Outcome(bid.cap, bid.price, a.price, a.winner == k.peer)]
      else []
    else []
  }

  /** All outcomes node `k` heard of in a run, in order. */
  function Lessons(sys: System, events: seq<Event>, k: SubId): seq<Pricing.Outcome> {
    if events == [] then []
    else
      var front := events[..|events| - 1];
      match Run(sys, front)
      case None => []
      case Some(s) => Lessons(sys, front, k) + Lesson(s, k, events[|events| - 1])
  }

  lemma StepTeaches(cfg: Dispatch.Config, spawning: bool, s: State, k: SubId, free: Option<nat>, total: nat,
                    e: Event, eff: Effect)
    requires e.WorkerActs? && e.k == k && k in s.nodes && cfg.peer == k.peer && cfg.workload == k.workload
    requires WorkerStep(cfg, spawning, s.nodes[k], free, total, e.we) == Some(eff)
    ensures eff.node.sub.share == Pricing.Learn(s.nodes[k].sub.share, Lesson(s, k, e))
  {
    var lesson := Lesson(s, k, e);
    if lesson != [] {
      assert lesson == [lesson[0]] && lesson[..0] == [];
    }
  }

  lemma LearnAppend(share: real, history: seq<Pricing.Outcome>, more: seq<Pricing.Outcome>)
    requires |more| <= 1
    ensures Pricing.Learn(share, history + more) == Pricing.Learn(Pricing.Learn(share, history), more)
  {
    if more == [] {
      assert history + more == history;
    } else {
      assert (history + more)[..|history|] == history && more[..0] == [];
    }
  }

  lemma NextShare(sys: System, events: seq<Event>, before: State, s: State, k: SubId)
    requires sys.Valid() && events != [] && Run(sys, events[..|events| - 1]) == Some(before)
    requires Step(sys, before, events[|events| - 1]) == Some(s) && k in s.nodes && k in before.nodes
    requires before.nodes[k].sub.share == Pricing.Learn(0.6, Lessons(sys, events[..|events| - 1], k))
    ensures s.nodes[k].sub.share == Pricing.Learn(0.6, Lessons(sys, events, k))
  {
    var front, e := events[..|events| - 1], events[|events| - 1];
    LearnAppend(0.6, Lessons(sys, front, k), Lesson(before, k, e));
    if e.WorkerActs? && e.k == k {
      var eff := WorkerEffect(sys, before, k, e.we, s);
      StepTeaches(sys.subs[k], k in sys.spawning, before, k, FreeSlots(sys, before, k), TotalSlots(sys, k), e, eff);
    } else {
      OthersLeaveNodeAlone(sys, before, e, s, k);
    }
  }

  /**
   * A node's share is what the outcomes it heard of teach, starting from 0.6: those of the auctions it bid in,
   * told by their own buyers, on the terms it bid on, in time and inside the cap, and no others. So it stays in [0, 1].
   */
  lemma {:induction false} ShareIsLearned(sys: System, events: seq<Event>, s: State, k: SubId)
    requires sys.Valid() && Run(sys, events) == Some(s) && k in s.nodes
    ensures s.nodes[k].sub.share == Pricing.Learn(0.6, Lessons(sys, events, k))
    ensures 0.0 <= s.nodes[k].sub.share <= 1.0
  {
    if events != [] {
      var before := Run(sys, events[..|events| - 1]).value;
      NodesStay(sys, before, events[|events| - 1], s, k);
      ShareIsLearned(sys, events[..|events| - 1], before, k);
      NextShare(sys, events, before, s, k);
    }
    Pricing.ShareStaysInUnit(0.6, Lessons(sys, events, k));
  }

  lemma NodesStay(sys: System, s: State, e: Event, s': State, k: SubId)
    requires Step(sys, s, e) == Some(s') && k in s'.nodes
    ensures k in s.nodes
  {
    if e.WorkerActs? { var eff := WorkerEffect(sys, s, e.k, e.we, s'); }
  }

  // ---- how long jobs took ----------------------------------------------

  /** In `e` node `k` completes a job; jobs that fail or time out tell nothing. */
  predicate Completes(e: Event, k: SubId) {
    e.WorkerActs? && e.k == k && e.we.Finish? && e.we.status == Completed
  }

  function TimeOf(e: Event, k: SubId): seq<nat> {
    if Completes(e, k) then [e.we.tookMs] else []
  }

  /** The times of the jobs that node `k` completed, in the order they ended. */
  function JobTimes(events: seq<Event>, k: SubId): seq<nat> {
    if events == [] then [] else JobTimes(events[..|events| - 1], k) + TimeOf(events[|events| - 1], k)
  }

  lemma AverageOfMore(times: seq<nat>, more: seq<nat>)
    requires |more| <= 1
    ensures Load.Average(times + more)
         == if more == [] then Load.Average(times) else Load.RecordMs(Load.Average(times), more[0])
  {
    if more == [] {
      assert times + more == times;
    } else {
      assert (times + more)[..|times|] == times;
    }
  }

  lemma WorkerRecordsTime(cfg: Dispatch.Config, spawning: bool, node: Node, free: Option<nat>, total: nat,
                          e: WorkerEvent, eff: Effect)
    requires WorkerStep(cfg, spawning, node, free, total, e) == Some(eff)
    ensures eff.node.averageMs == if e.Finish? && e.status == Completed then Load.RecordMs(node.averageMs, e.tookMs)
                                  else node.averageMs
  {
  }

  lemma StepRecordsTime(sys: System, before: State, e: Event, s: State, k: SubId)
    requires Step(sys, before, e) == Some(s) && k in s.nodes && k in before.nodes
    ensures s.nodes[k].averageMs == if Completes(e, k) then Load.RecordMs(before.nodes[k].averageMs, e.we.tookMs)
                                    else before.nodes[k].averageMs
  {
    if e.WorkerActs? && e.k == k {
      var eff := WorkerEffect(sys, before, k, e.we, s);
      WorkerRecordsTime(sys.subs[k], k in sys.spawning, before.nodes[k], FreeSlots(sys, before, k), TotalSlots(sys, k),
                        e.we, eff);
    } else {
      OthersLeaveNodeAlone(sys, before, e, s, k);
    }
  }

  /** The average a node quotes its ETA from is that of the jobs it completed, and of nothing that failed. */
  lemma {:induction false} AverageIsOfCompletedJobs(sys: System, events: seq<Event>, s: State, k: SubId)
    requires Run(sys, events) == Some(s) && k in s.nodes
    ensures s.nodes[k].averageMs == Load.Average(JobTimes(events, k))
  {
    if events != [] {
      var front, e := events[..|events| - 1], events[|events| - 1];
      var before := Run(sys, front).value;
      NodesStay(sys, before, e, s, k);
      AverageIsOfCompletedJobs(sys, front, before, k);
      StepRecordsTime(sys, before, e, s, k);
      AverageOfMore(JobTimes(front, k), TimeOf(e, k));
    }
  }

  /**
   * What a bid quotes is how its node stands: an ETA for the jobs queued now, on all slots of its pool, at the average
   * of the jobs completed so far (none is known to a node without slots); and, on a listing, a price for the fill of
   * its queue at the share it has learned.
   */
  lemma BidsQuoteTheNode(sys: System, events: seq<Event>, before: State, s: State, k: SubId, e: Event)
    requires sys.Valid() && Run(sys, events) == Some(before) && Step(sys, before, e) == Some(s)
    requires e.WorkerActs? && e.k == k && e.we.HearOffer? && k in s.nodes && s.nodes[k].sub.mode.Publishing?
    ensures k in sys.subs && k in before.nodes && sys.subs[k].queueCap.Some?
    ensures |before.nodes[k].queue| < sys.subs[k].queueCap.value
    ensures var bid, queued := s.nodes[k].sub.mode.bid, |before.nodes[k].queue|;
            var average := Load.Average(JobTimes(events, k));
            && bid.etaSeconds == Load.EtaSeconds(queued, TotalSlots(sys, k),
                                                 if sys.subs[k].slots.Some? && average > 0 then Some(average) else None)
            && (sys.subs[k].pricing.Some? ==>
                  var quote := sys.subs[k].pricing.value.QuoteInMarket(
                    e.we.msg.body.offer.maxPrice, queued as real / sys.subs[k].queueCap.value as real,
                    Pricing.Learn(0.6, Lessons(sys, events, k)));
                  quote.Some? && bid.price == Fin(quote.value))
  {
    var eff := WorkerEffect(sys, before, k, e.we, s);
    ShareIsLearned(sys, events, before, k);
    AverageIsOfCompletedJobs(sys, events, before, k);
    OfferQuotes(sys.subs[k], before.nodes[k], FreeSlots(sys, before, k), TotalSlots(sys, k), e.we, eff);
  }

  lemma OfferQuotes(cfg: Dispatch.Config, node: Node, free: Option<nat>, total: nat, we: WorkerEvent, eff: Effect)
    requires we.HearOffer? && OfferStep(cfg, node, free, total, we) == Some(eff) && eff.node.sub.mode.Publishing?
    ensures cfg.queueCap.Some? && |node.queue| < cfg.queueCap.value
    ensures var bid, queued := eff.node.sub.mode.bid, |node.queue|;
            && bid.etaSeconds == Load.EtaSeconds(queued, total, if cfg.slots.Some? && node.averageMs > 0
                                                                then Some(node.averageMs) else None)
            && (cfg.pricing.Some? ==>
                  var quote := cfg.pricing.value.QuoteInMarket(
                    we.msg.body.offer.maxPrice, queued as real / cfg.queueCap.value as real, node.sub.share);
                  quote.Some? && bid.price == Fin(quote.value))
  {
    Dispatch.BidSays(cfg, node.sub, we.msg, we.msg.body.offer, Sense(cfg, node, free, total, we));
  }

  // ---- in which order jobs run -----------------------------------------

  function Held(node: Node): seq<JobAccept> {
    if node.held.Some? then [node.held.value] else []
  }

  /** The jobs done, running, received and queued, one after the other, are the jobs forwarded, in that order. */
  ghost predicate InOrderOfForwarding(node: Node) {
    node.forwarded == Accepts(node.ran) + node.running + Held(node) + node.queue
  }

  lemma FinishKeepsOrder(cfg: Dispatch.Config, node: Node, e: WorkerEvent, eff: Effect)
    requires e.Finish? && FinishStep(cfg, node, e) == Some(eff)
    requires InOrderOfForwarding(node) && OneInHand(node)
    ensures InOrderOfForwarding(eff.node)
  {
    var ran := Ran(node.running[e.i], e.status, e.outputHash);
    AcceptsAppend(node.ran, ran);
    assert node.running == [ran.accept] && Remove(node.running, e.i) == [];
    assert Accepts(node.ran) + [ran.accept] + Held(node) + node.queue
        == Accepts(node.ran + [ran]) + [] + Held(node) + node.queue;
  }

  lemma ReceiveKeepsOrder(node: Node, eff: Effect)
    requires ReceiveStep(false, node) == Some(eff) && InOrderOfForwarding(node)
    ensures InOrderOfForwarding(eff.node)
  {
    assert node.queue == [node.queue[0]] + node.queue[1..];
    assert Accepts(node.ran) + [] + [] + node.queue == Accepts(node.ran) + [] + [node.queue[0]] + node.queue[1..];
  }

  lemma AcquireKeepsOrder(node: Node, free: Option<nat>, eff: Effect)
    requires AcquireStep(node, free) == Some(eff) && InOrderOfForwarding(node)
    ensures InOrderOfForwarding(eff.node)
  {
    assert node.running + [node.held.value] + node.queue == node.running + [node.held.value] + [] + node.queue;
    assert Accepts(node.ran) + node.running + [node.held.value] + node.queue
        == Accepts(node.ran) + (node.running + [node.held.value]) + [] + node.queue;
  }

  lemma QueueKeepsOrder(cfg: Dispatch.Config, node: Node, channelOpen: bool, eff: Effect)
    requires QueueStep(cfg, node, channelOpen) == Some(eff) && InOrderOfForwarding(node)
    ensures InOrderOfForwarding(eff.node)
  {
  }

  lemma WorkerKeepsOrder(cfg: Dispatch.Config, node: Node, free: Option<nat>, total: nat, e: WorkerEvent, eff: Effect)
    requires WorkerStep(cfg, false, node, free, total, e) == Some(eff)
    requires InOrderOfForwarding(node) && OneInHand(node)
    ensures InOrderOfForwarding(eff.node)
  {
    match e
    case Receive => ReceiveKeepsOrder(node, eff);
    case Acquire => AcquireKeepsOrder(node, free, eff);
    case Finish(_, _, _, _, _, _) => FinishKeepsOrder(cfg, node, e, eff);
    case QueueJob(channelOpen) => QueueKeepsOrder(cfg, node, channelOpen, eff);
    case _ => SubscriberLeavesJobsAlone(cfg, false, node, free, total, e, eff);
  }

  /** A runner that takes one job at a time runs the jobs it won in the order it won them, and skips none. */
  lemma {:induction false} SequentialRunnerKeepsOrder(sys: System, events: seq<Event>, s: State, k: SubId)
    requires sys.Valid() && Run(sys, events) == Some(s) && k in s.nodes && k !in sys.spawning
    ensures s.nodes[k].forwarded
         == Accepts(s.nodes[k].ran) + s.nodes[k].running + Held(s.nodes[k]) + s.nodes[k].queue
  {
    if events != [] {
      var front, e := events[..|events| - 1], events[|events| - 1];
      var before := Run(sys, front).value;
      NodesStay(sys, before, e, s, k);
      SequentialRunnerKeepsOrder(sys, front, before, k);
      if e.WorkerActs? && e.k == k {
        var eff := WorkerEffect(sys, before, k, e.we, s);
        Theorems.SequentialRunsKeepOneInHand(sys, front, before, k);
        WorkerKeepsOrder(sys.subs[k], before.nodes[k], FreeSlots(sys, before, k), TotalSlots(sys, k), e.we, eff);
      } else {
        OthersLeaveNodeAlone(sys, before, e, s, k);
      }
    }
  }
}
