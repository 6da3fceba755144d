/**
 * Runs that show where the protocol's guarantees stop: how often one worker can run a job, whose
 * job a receipt is for, and how far a worker's commitments can exceed its slots.
 */
module Witnesses {
  import opened Wrappers
  import opened Floats
  import opened Wire
  import opened Protocol
  import opened WorkerInvariants
  import opened NetworkInvariants
  import Dispatch
  import Buyer
  import Private
  import Routing
  import Theorems

  // ---- building runs ---------------------------------------------------

  lemma Extend(sys: System, s: State, e: Event, s': State)
    requires Reachable(sys, s) && Step(sys, s, e) == Some(s')
    ensures Reachable(sys, s')
  {
    var events :| Run(sys, events) == Some(s);
    assert (events + [e])[..|events|] == events;
    assert Run(sys, events + [e]) == Some(s');
  }

  lemma Start(sys: System)
    ensures Reachable(sys, Initially(sys))
  {
    assert Run(sys, []) == Some(Initially(sys));
  }

  lemma OthersSay(sys: System, s: State, m: Gossip) returns (s': State)
    requires Reachable(sys, s) && !(m.source.Some? && m.source.value in sys.correct)
    ensures Reachable(sys, s') && s' == s.(net := s.net + {m})
  {
    s' := s.(net := s.net + {m});
    Extend(sys, s, OthersPublish(m), s');
  }

  lemma NothingExpiresAtTimeZero(open: map<JobId, Dispatch.OpenBid>)
    ensures Dispatch.RetainLive(open, 0) == open
  {
  }

  /** A public worker without a listing, whose jobs need no capabilities. */
  predicate Plain(cfg: Dispatch.Config) {
    cfg.pricing.None? && !cfg.policy.enabled && cfg.queueCap.Some?
  }

  predicate HasRoom(sys: System, s: State, k: SubId)
    requires k in sys.subs && k in s.nodes && sys.subs[k].queueCap.Some?
  {
    var queued := |s.nodes[k].queue|;
    Dispatch.Capacity(queued, Max(sys.subs[k].queueCap.value - queued, 0), FreeSlots(sys, s, k), TotalSlots(sys, k))
      .CanBid(|s.nodes[k].sub.open|)
  }

  function Terms(o: JobOffer): Dispatch.OpenBid {
    Dispatch.OpenBid(o.maxPrice, o.maxPrice, o.buyer, o.spec, o.externalRef, Dispatch.BID_TTL_MS)
  }

  /** A plain worker with room hears an offer at time 0, bids the cap, and remembers the bid. */
  lemma BidsOnOffer(sys: System, s: State, k: SubId, m: Gossip) returns (s': State, b: JobBid)
    requires Reachable(sys, s) && k in sys.subs && k in s.nodes && m in s.net
    requires Plain(sys.subs[k]) && sys.subs[k].workload == k.workload && sys.subs[k].peer == k.peer
    requires m.topic == JobTopic(k.workload) && m.body.OfferBody? && m.body.offer.workload == k.workload
    requires m.body.offer.requiredCapabilities == [] && m.body.offer.externalRef == None
    requires s.nodes[k].sub.mode == Dispatch.Idle && HasRoom(sys, s, k)
    requires |s.nodes[k].sub.open| < Dispatch.MAX_OPEN_BIDS
    ensures Reachable(sys, s')
    ensures b.jobId == m.body.offer.jobId && b.bidder == k.peer && b.price == m.body.offer.maxPrice
    ensures b.expiresMs == Some(Dispatch.BID_TTL_MS)
    ensures var node, o := s.nodes[k], m.body.offer;
            s' == s.(net := s.net + {Gossip(Some(k.peer), JobTopic(k.workload), BidBody(b))},
                     nodes := s.nodes[k := node.(sub := node.sub.(open := node.sub.open[o.jobId := Terms(o)]),
                                                 bids := node.bids + [BidRecord(b, Terms(o))])])
  {
    var mid;
    mid, b := HearsOffer(sys, s, k, m);
    s' := PublishesBid(sys, mid, k, b, Terms(m.body.offer));
    assert s'.nodes == s.nodes[k := s'.nodes[k]];
  }

  /** The subscriber has decided to bid, and is about to publish. */
  lemma HearsOffer(sys: System, s: State, k: SubId, m: Gossip) returns (s': State, b: JobBid)
    requires Reachable(sys, s) && k in sys.subs && k in s.nodes && m in s.net
    requires Plain(sys.subs[k]) && sys.subs[k].workload == k.workload && sys.subs[k].peer == k.peer
    requires m.topic == JobTopic(k.workload) && m.body.OfferBody? && m.body.offer.workload == k.workload
    requires m.body.offer.requiredCapabilities == [] && m.body.offer.externalRef == None
    requires s.nodes[k].sub.mode == Dispatch.Idle && HasRoom(sys, s, k)
    ensures Reachable(sys, s')
    ensures b.jobId == m.body.offer.jobId && b.bidder == k.peer && b.price == m.body.offer.maxPrice
    ensures b.expiresMs == Some(Dispatch.BID_TTL_MS)
    ensures var node := s.nodes[k];
            s' == s.(nodes := s.nodes[k := node.(sub := node.sub.(mode := Dispatch.Publishing(b,
                Terms(m.body.offer))))])
  {
    var cfg, node, o := sys.subs[k], s.nodes[k], m.body.offer;
    var hear := HearOffer(m, true, 0, 0, None);
    NothingExpiresAtTimeZero(node.sub.open);
    var sur := Sense(cfg, node, FreeSlots(sys, s, k), TotalSlots(sys, k), hear);
    var prepared := Dispatch.PrepareBid(cfg, cfg.queueCap.value, node.sub.share, o, sur);
    b := prepared.value.bid;
    assert prepared == Some(Dispatch.Publishing(b, Terms(o)));
    assert Dispatch.Decide(cfg, node.sub, m, o, sur) == node.sub.(mode := Dispatch.Publishing(b, Terms(o)));
    s' := s.(nodes := s.nodes[k := node.(sub := node.sub.(mode := Dispatch.Publishing(b, Terms(o))))]);
    assert s.net + Sent(None) == s.net;
    Extend(sys, s, WorkerActs(k, hear), s');
  }

  lemma PublishesBid(sys: System, s: State, k: SubId, b: JobBid, terms: Dispatch.OpenBid) returns (s': State)
    requires Reachable(sys, s) && k in sys.subs && k in s.nodes
    requires sys.subs[k].workload == k.workload && sys.subs[k].peer == k.peer
    requires s.nodes[k].sub.mode == Dispatch.Publishing(b, terms) && |s.nodes[k].sub.open| < Dispatch.MAX_OPEN_BIDS
    ensures Reachable(sys, s')
    ensures var node := s.nodes[k];
            s' == s.(net := s.net + {Gossip(Some(k.peer), JobTopic(k.workload), BidBody(b))},
                     nodes := s.nodes[k := node.(sub := node.sub.(open := node.sub.open[b.jobId := terms],
                         mode := Dispatch.Idle),
                                                 bids := node.bids + [BidRecord(b, terms)])])
  {
    var node := s.nodes[k];
    s' := s.(net := s.net + {Gossip(Some(k.peer), JobTopic(k.workload), BidBody(b))},
             nodes := s.nodes[k := node.(sub := node.sub.(open := node.sub.open[b.jobId := terms],
                 mode := Dispatch.Idle),
                                         bids := node.bids + [BidRecord(b, terms)])]);
    Extend(sys, s, WorkerActs(k, PublishBid(true)), s');
  }

  /** The effect of winning a job on the node: the open bid is consumed and the job queued. */
  predicate WonJob(node: Node, node': Node, a: JobAccept) {
    && node'.sub.open == node.sub.open - {a.jobId} && node'.sub.mode == Dispatch.Idle
    && node'.queue == node.queue + [a] && node'.forwarded == node.forwarded + [a]
    && node'.held == node.held && node'.running == node.running
    && node'.bids == node.bids && node'.ran == node.ran
  }

  /** The worker hears a matching accept that names it, and queues the job. */
  lemma WinsJobAt(sys: System, s: State, k: SubId, m: Gossip, now: nat) returns (mid: State, s': State)
    requires Reachable(sys, s) && k in sys.subs && k in s.nodes && m in s.net
    requires sys.subs[k].queueCap.Some? && sys.subs[k].workload == k.workload && sys.subs[k].peer == k.peer
    requires m.topic == JobTopic(k.workload) && m.body.AcceptBody?
    requires var a := m.body.accept;
             && m.source == Some(a.buyer) && a.workload == k.workload && a.winner == k.peer
             && a.jobId in s.nodes[k].sub.open && s.nodes[k].sub.open[a.jobId].Matches(a, now)
    requires s.nodes[k].sub.mode == Dispatch.Idle && |s.nodes[k].queue| < sys.subs[k].queueCap.value
    ensures Step(sys, s, WorkerActs(k, HearAccept(m, now))) == Some(mid)
    ensures Step(sys, mid, WorkerActs(k, QueueJob(true))) == Some(s') && Reachable(sys, s')
    ensures s'.net == s.net && s'.auctions == s.auctions && s'.holders == s.holders
    ensures s'.nodes.Keys == s.nodes.Keys && WonJob(s.nodes[k], s'.nodes[k], m.body.accept)
  {
    var cfg, node, a := sys.subs[k], s.nodes[k], m.body.accept;
    var sub := Dispatch.OnAccept(cfg, node.sub, m, a, now);
    assert sub.mode == Dispatch.Sending(a);
    mid := s.(nodes := s.nodes[k := node.(sub := sub)]);
    assert s.net + Sent(None) == s.net;
    Extend(sys, s, WorkerActs(k, HearAccept(m, now)), mid);
    var node' := node.(sub := sub.(mode := Dispatch.Idle), queue := node.queue + [a],
        forwarded := node.forwarded + [a]);
    s' := s.(nodes := s.nodes[k := node']);
    assert s'.nodes == mid.nodes[k := node'];
    Extend(sys, mid, WorkerActs(k, QueueJob(true)), s');
  }

  lemma WinsJob(sys: System, s: State, k: SubId, m: Gossip) returns (s': State)
    requires Reachable(sys, s) && k in sys.subs && k in s.nodes && m in s.net
    requires sys.subs[k].queueCap.Some? && sys.subs[k].workload == k.workload && sys.subs[k].peer == k.peer
    requires m.topic == JobTopic(k.workload) && m.body.AcceptBody?
    requires var a := m.body.accept;
             && m.source == Some(a.buyer) && a.workload == k.workload && a.winner == k.peer
             && a.jobId in s.nodes[k].sub.open && s.nodes[k].sub.open[a.jobId].Matches(a, 0)
    requires s.nodes[k].sub.mode == Dispatch.Idle && |s.nodes[k].queue| < sys.subs[k].queueCap.value
    ensures Reachable(sys, s') && s'.net == s.net && s'.auctions == s.auctions && s'.holders == s.holders
    ensures s'.nodes.Keys == s.nodes.Keys && WonJob(s.nodes[k], s'.nodes[k], m.body.accept)
  {
    var mid;
    mid, s' := WinsJobAt(sys, s, k, m, 0);
  }

  /** A correct buyer opens an auction at time 0 and its offer is published. */
  lemma Opens(sys: System, s: State, j: JobId, h: Peer, req: Buyer.Request) returns (s': State)
    requires Reachable(sys, s) && h in sys.correct && j !in s.auctions && req.ValidRef()
    ensures Reachable(sys, s')
    ensures var offer := Buyer.MakeOffer(req, j, h, 0);
            s' == s.(auctions := s.auctions[j := Auction(h, req, offer, true, [], None, None)],
                     net := s.net + {Gossip(Some(h), JobTopic(req.workload), OfferBody(offer))})
  {
    var offer := Buyer.MakeOffer(req, j, h, 0);
    s' := s.(auctions := s.auctions[j := Auction(h, req, offer, true, [], None, None)],
             net := s.net + {Gossip(Some(h), JobTopic(req.workload), OfferBody(offer))});
    Extend(sys, s, OpenAuction(j, h, req, 0, true), s');
  }

  /** The buyer takes the first bid and awards it when its window closes, both at time 0. */
  lemma Awards(sys: System, s: State, j: JobId, m: Gossip) returns (s': State, a: JobAccept)
    requires Reachable(sys, s) && j in s.auctions && m in s.net
    requires var x := s.auctions[j];
             x.open && x.bids == [] && x.award.None? && Buyer.BidCounts(x.req, j, x.buyer, m, 0)
    ensures Reachable(sys, s') && s'.nodes == s.nodes && s'.holders == s.holders
    ensures var x, b := s.auctions[j], m.body.bid;
            && a == Buyer.MakeAccept(x.req, j, x.buyer, b, 0)
            && s'.auctions == s.auctions[j := x.(open := false, bids := [b], award := Some(Award(b, [b], 0, a)))]
            && s'.net == s.net + {Gossip(Some(x.buyer), JobTopic(x.req.workload), AcceptBody(a))}
  {
    var x, b := s.auctions[j], m.body.bid;
    var mid := s.(auctions := s.auctions[j := x.(bids := [b])]);
    assert s.net + Sent(None) == s.net && x.bids + [b] == [b];
    Extend(sys, s, BuyerActs(j, HearBid(m, 0)), mid);
    s', a := Closes(sys, mid, j, b);
    assert s'.auctions == s.auctions[j := s'.auctions[j]];
  }

  lemma Closes(sys: System, s: State, j: JobId, b: JobBid) returns (s': State, a: JobAccept)
    requires Reachable(sys, s) && j in s.auctions && s.auctions[j].open && s.auctions[j].bids == [b]
    requires b.IsLive(0) && b.price.IsFinite()
    ensures Reachable(sys, s') && s'.nodes == s.nodes && s'.holders == s.holders
    ensures var x := s.auctions[j];
            && a == Buyer.MakeAccept(x.req, j, x.buyer, b, 0)
            && s'.auctions == s.auctions[j := x.(open := false, award := Some(Award(b, [b], 0, a)))]
            && s'.net == s.net + {Gossip(Some(x.buyer), JobTopic(x.req.workload), AcceptBody(a))}
  {
    var x := s.auctions[j];
    assert Buyer.RetainLive([b], 0) == [b];
    var w := Routing.Winner(x.req.policy, x.req.DeadlineSecs(), [b], 0);
    assert w == b;
    a := Buyer.MakeAccept(x.req, j, x.buyer, b, 0);
    s' := s.(auctions := s.auctions[j := x.(open := false, award := Some(Award(b, [b], 0, a)))],
             net := s.net + {Gossip(Some(x.buyer), JobTopic(x.req.workload), AcceptBody(a))});
    Extend(sys, s, BuyerActs(j, CloseWindow(0, 0, 0, true)), s');
  }

  /** The first queued job has run to a completed end; nothing else has changed but the average job time. */
  predicate RanTheFirst(node: Node, node': Node)
    requires node.queue != []
  {
    && node'.sub == node.sub && node'.queue == node.queue[1..] && node'.held == None && node'.running == []
    && node'.bids == node.bids && node'.forwarded == node.forwarded
    && node'.ran == node.ran + [Ran(node.queue[0], Completed, None)]
  }

  /** The runner takes the next queued job, runs it to a completed end, and its receipt goes out. */
  lemma RunsNextJob(sys: System, s: State, k: SubId) returns (s': State, r: JobReceipt)
    requires Reachable(sys, s) && k in sys.subs && k in s.nodes && sys.subs[k].slots.None?
    requires s.nodes[k].queue != [] && s.nodes[k].held.None? && s.nodes[k].running == [] && sys.subs[k].peer == k.peer
    requires sys.subs[k].workload == k.workload
    ensures Reachable(sys, s') && s'.auctions == s.auctions && s'.nodes.Keys == s.nodes.Keys
    ensures var a := s.nodes[k].queue[0];
            && r == MakeReceipt(k.peer, Ran(a, Completed, None), 0)
            && s'.net == s.net + {Gossip(Some(k.peer), JobTopic(k.workload), ReceiptBody(r))}
            && RanTheFirst(s.nodes[k], s'.nodes[k])
  {
    var a := s.nodes[k].queue[0];
    var s1 := ReceivesJob(sys, s, k);
    var s2 := StartsJob(sys, s1, k);
    s', r := FinishesJob(sys, s2, k);
  }

  lemma ReceivesJob(sys: System, s: State, k: SubId) returns (s': State)
    requires Reachable(sys, s) && k in sys.subs && k in s.nodes
    requires s.nodes[k].queue != [] && s.nodes[k].held.None? && s.nodes[k].running == []
    ensures Reachable(sys, s')
    ensures var node := s.nodes[k];
            s' == s.(nodes := s.nodes[k := node.(held := Some(node.queue[0]), queue := node.queue[1..])])
  {
    var node := s.nodes[k];
    s' := s.(nodes := s.nodes[k := node.(held := Some(node.queue[0]), queue := node.queue[1..])]);
    assert s.net + Sent(None) == s.net;
    Extend(sys, s, WorkerActs(k, Receive), s');
  }

  lemma StartsJob(sys: System, s: State, k: SubId) returns (s': State)
    requires Reachable(sys, s) && k in sys.subs && k in s.nodes && sys.subs[k].slots.None?
    requires s.nodes[k].held.Some? && s.nodes[k].running == []
    ensures Reachable(sys, s')
    ensures var node := s.nodes[k];
            s' == s.(nodes := s.nodes[k := node.(held := None, running := [node.held.value])])
  {
    var node := s.nodes[k];
    s' := s.(nodes := s.nodes[k := node.(held := None, running := [node.held.value])]);
    assert s.net + Sent(None) == s.net && node.running + [node.held.value] == [node.held.value];
    Extend(sys, s, WorkerActs(k, Acquire), s');
  }

  lemma FinishesJob(sys: System, s: State, k: SubId) returns (s': State, r: JobReceipt)
    requires Reachable(sys, s) && k in sys.subs && k in s.nodes && sys.subs[k].slots.None?
    requires |s.nodes[k].running| == 1 && sys.subs[k].peer == k.peer && sys.subs[k].workload == k.workload
    ensures Reachable(sys, s') && s'.auctions == s.auctions && s'.nodes.Keys == s.nodes.Keys
    ensures var a := s.nodes[k].running[0];
            && r == MakeReceipt(k.peer, Ran(a, Completed, None), 0)
            && s'.net == s.net + {Gossip(Some(k.peer), JobTopic(k.workload), ReceiptBody(r))}
            && s'.nodes[k] == s.nodes[k].(running := [], averageMs := s'.nodes[k].averageMs,
                                          ran := s.nodes[k].ran + [Ran(a, Completed, None)])
  {
    r := MakeReceipt(k.peer, Ran(s.nodes[k].running[0], Completed, None), 0);
    var finish := Finish(0, Completed, None, 0, 0, true);
    var eff := FinishStep(sys.subs[k], s.nodes[k], finish).value;
    s' := s.(nodes := s.nodes[k := eff.node],
             net := s.net + {Gossip(Some(k.peer), JobTopic(k.workload), ReceiptBody(r))});
    Extend(sys, s, WorkerActs(k, finish), s');
  }

  // ---- the runs --------------------------------------------------------

  const JOB := Buyer.Request("stt", "audio", [], Fin(1.0), 0, [], [], None, Routing.Cheapest)

  /** A correct buyer `h`, and a correct public worker that serves `JOB`'s workload with a queue of some size. */
  ghost predicate Fits(sys: System, k: SubId, h: Peer, other: Peer) {
    && sys.Valid()
    && h in sys.correct && other !in sys.correct && h != k.peer
    && k in sys.subs && k.workload == JOB.workload
    && Plain(sys.subs[k]) && sys.subs[k].queueCap.value > 0
  }

  /** Such a system with a queue and a pool of any size, with slot accounting or without it. */
  lemma SmallSystemFits(queueCap: nat, slots: nat, slotted: bool) returns (sys: System)
    requires queueCap > 0
    ensures Fits(sys, SubId("w", "stt"), "h", "b")
    ensures var cfg := sys.subs[SubId("w", "stt")];
            && cfg.queueCap == Some(queueCap)
            && if slotted then cfg.slots == Some("cpu") && "cpu" in sys.pools
              && sys.pools["cpu"] == slots else cfg.slots == None
  {
    var k := SubId("w", "stt");
    var pool := if slotted then Some("cpu") else None;
    sys := System({"h", "w"},
                  map[k := Dispatch.Config("w", "stt", [], Some(queueCap), pool, None, Private.Policy(false, {}))],
                  map["cpu" := slots], {});
  }

  function OfferFrom(h: Peer, j: JobId): Gossip {
    Gossip(Some(h), JobTopic(JOB.workload), OfferBody(Buyer.MakeOffer(JOB, j, h, 0)))
  }

  function AcceptFrom(h: Peer, j: JobId, b: JobBid): Gossip {
    Gossip(Some(h), JobTopic(JOB.workload), AcceptBody(Buyer.MakeAccept(JOB, j, h, b, 0)))
  }

  /** `h` opened an auction, worker `k` bid, and `h` awarded it; the accept is under way. */
  lemma AwardedNotDelivered(sys: System, k: SubId, h: Peer, other: Peer, j: JobId) returns (s: State, b: JobBid)
    requires Fits(sys, k, h, other) && sys.subs[k].slots.None?
    ensures Reachable(sys, s) && s.auctions.Keys == {j} && k in s.nodes
    ensures var x := s.auctions[j];
            x.buyer == h && x.req == JOB && x.receipt.None? && b.jobId == j && b.bidder == k.peer
                && b.price == JOB.maxPrice
            && x.award == Some(Award(b, [b], 0, Buyer.MakeAccept(JOB, j, h, b, 0)))
    ensures OfferFrom(h, j) in s.net && AcceptFrom(h, j, b) in s.net
    ensures s.nodes[k].sub.open == map[j := Terms(OfferFrom(h, j).body.offer)] && s.nodes[k].sub.mode == Dispatch.Idle
    ensures s.nodes[k].queue == [] && s.nodes[k].held == None && s.nodes[k].running == []
    ensures s.nodes[k].forwarded == [] && s.nodes[k].bids == [BidRecord(b, Terms(OfferFrom(h, j).body.offer))]
  {
    Start(sys);
    var s0 := Initially(sys);
    var s1 := Opens(sys, s0, j, h, JOB);
    assert s1.nodes == s0.nodes;
    var s2, b' := BidsOnOffer(sys, s1, k, OfferFrom(h, j));
    b := b';
    var m := Gossip(Some(k.peer), JobTopic(JOB.workload), BidBody(b));
    assert Buyer.BidCounts(JOB, j, h, m, 0);
    var a;
    s, a := Awards(sys, s2, j, m);
  }

  // ---- one job, many runs ----------------------------------------------

  /** The worker has forwarded and run this job `n` times on `n` bids, and has nothing left to do. */
  predicate Rested(s: State, k: SubId, j: JobId, a: JobAccept, n: nat) {
    && k in s.nodes
    && s.nodes[k].sub.open == map[] && s.nodes[k].sub.mode == Dispatch.Idle
    && s.nodes[k].queue == [] && s.nodes[k].held == None && s.nodes[k].running == []
    && Ready(s.nodes[k], j, a, n, n)
  }

  /** `n` forwards of one accept, and `bids` bids on its job. */
  predicate Ready(node: Node, j: JobId, a: JobAccept, n: nat, bids: nat) {
    && |node.forwarded| == n && (forall i | 0 <= i < n :: node.forwarded[i] == a)
    && ForwardsOf(node.forwarded, j) == n && BidsOn(node.bids, j) == bids
  }

  /** The worker hears the accept of its open bid, and runs the job. */
  lemma WinsAndRuns(sys: System, s: State, k: SubId, j: JobId, m: Gossip, n: nat) returns (s': State)
    requires Reachable(sys, s) && k in sys.subs && k in s.nodes && m in s.net
    requires Plain(sys.subs[k]) && sys.subs[k].workload == k.workload && sys.subs[k].peer == k.peer
    requires sys.subs[k].slots.None? && sys.subs[k].queueCap.value > 0
    requires m.topic == JobTopic(k.workload) && m.body.AcceptBody?
    requires var a := m.body.accept;
             && m.source == Some(a.buyer) && a.workload == k.workload && a.winner == k.peer && a.jobId == j
             && s.nodes[k].sub.open.Keys == {j} && s.nodes[k].sub.open[j].Matches(a, 0)
    requires s.nodes[k].sub.mode == Dispatch.Idle
    requires s.nodes[k].queue == [] && s.nodes[k].held == None && s.nodes[k].running == []
    requires Ready(s.nodes[k], j, m.body.accept, n, n + 1)
    ensures Reachable(sys, s') && s.net <= s'.net && Rested(s', k, j, m.body.accept, n + 1)
  {
    var a := m.body.accept;
    var mid := WinsJob(sys, s, k, m);
    assert mid.nodes[k].queue == [a] && mid.nodes[k].sub.open == map[];
    ForwardsOfAppend(s.nodes[k].forwarded, a, j);
    var r;
    s', r := RunsNextJob(sys, mid, k);
    assert mid.nodes[k].queue[1..] == [];
  }

  lemma BidsAgain(sys: System, s: State, k: SubId, h: Peer, j: JobId, a: JobAccept, n: nat) returns (s': State)
    requires sys.Valid() && k in sys.subs && k.workload == JOB.workload
    requires Plain(sys.subs[k]) && sys.subs[k].queueCap.value > 0 && sys.subs[k].slots.None?
    requires Reachable(sys, s) && OfferFrom(h, j) in s.net && Rested(s, k, j, a, n)
    ensures Reachable(sys, s') && s.net <= s'.net && k in s'.nodes
    ensures s'.nodes[k].sub.open == map[j := Terms(OfferFrom(h, j).body.offer)] && s'.nodes[k].sub.mode == Dispatch.Idle
    ensures s'.nodes[k].queue == [] && s'.nodes[k].held == None && s'.nodes[k].running == []
    ensures Ready(s'.nodes[k], j, a, n, n + 1)
  {
    assert HasRoom(sys, s, k);
    var b;
    s', b := BidsOnOffer(sys, s, k, OfferFrom(h, j));
    BidsOnAppend(s.nodes[k].bids, BidRecord(b, Terms(OfferFrom(h, j).body.offer)), j);
  }

  /**
   * The offer and the accept of one job, each delivered `n` times in turn: the worker is awarded once and forwards
   * the job `n` times on `n` bids. So the number of bids is the exact bound on the forwards, for every number.
   */
  lemma {:induction false} RedeliveryForwardsAJobAsOftenAsItIsBidOn(
    sys: System, k: SubId, h: Peer, other: Peer, j: JobId, n: nat)
    returns (s: State, b: JobBid, a: JobAccept)
    requires Fits(sys, k, h, other) && sys.subs[k].slots.None? && n > 0
    ensures Reachable(sys, s) && k in s.nodes && a == Buyer.MakeAccept(JOB, j, h, b, 0)
    ensures Rested(s, k, j, a, n) && b.bidder == k.peer && b.price == JOB.maxPrice
    ensures OfferFrom(h, j) in s.net && AcceptFrom(h, j, b) in s.net
  {
    if n == 1 {
      var s1;
      s1, b := AwardedNotDelivered(sys, k, h, other, j);
      a := Buyer.MakeAccept(JOB, j, h, b, 0);
      CountOne(BidRecord(b, Terms(OfferFrom(h, j).body.offer)), j);
      s := WinsAndRuns(sys, s1, k, j, AcceptFrom(h, j, b), 0);
    } else {
      var s1;
      s1, b, a := RedeliveryForwardsAJobAsOftenAsItIsBidOn(sys, k, h, other, j, n - 1);
      var s2 := BidsAgain(sys, s1, k, h, j, a, n - 1);
      s := WinsAndRuns(sys, s2, k, j, AcceptFrom(h, j, b), n - 1);
    }
  }

  lemma CountOne(r: BidRecord, j: JobId)
    requires r.bid.jobId == j
    ensures BidsOn([r], j) == 1
  {
    assert [] + [r] == [r];
    BidsOnAppend([], r, j);
  }

  /** With two deliveries of each message, a job runs twice on one worker. */
  lemma DuplicatedMessagesForwardAJobTwice(
    sys: System, k: SubId, h: Peer, other: Peer, j: JobId)
    returns (s: State, a: JobAccept)
    requires Fits(sys, k, h, other) && sys.subs[k].slots.None?
    ensures Reachable(sys, s) && k in s.nodes && a.buyer == h && a.jobId == j
    ensures s.nodes[k].forwarded == [a, a] && BidsOn(s.nodes[k].bids, j) == 2
  {
    var b;
    s, b, a := RedeliveryForwardsAJobAsOftenAsItIsBidOn(sys, k, h, other, j, 2);
  }

  /** Hearing this accept at `now` and queueing the job adds one forward of it. */
  ghost predicate ForwardsOn(sys: System, s: State, k: SubId, a: JobAccept, now: nat) {
    exists m: Gossip, mid: State, s': State :: ForwardsVia(sys, s, k, a, now, m, mid, s')
  }

  predicate ForwardsVia(sys: System, s: State, k: SubId, a: JobAccept, now: nat, m: Gossip, mid: State, s': State) {
    && m.body == AcceptBody(a)
    && Step(sys, s, WorkerActs(k, HearAccept(m, now))) == Some(mid)
    && Step(sys, mid, WorkerActs(k, QueueJob(true))) == Some(s')
    && k in s.nodes && k in s'.nodes && s'.nodes[k].forwarded == s.nodes[k].forwarded + [a]
  }

  /** An open bid on the job of this accept stands, and the accept matches it. */
  predicate StandsFor(node: Node, a: JobAccept, now: nat) {
    a.jobId in node.sub.open && node.sub.open[a.jobId].Matches(a, now)
  }

  lemma HearingForwards(sys: System, s: State, k: SubId, a: JobAccept, now: nat, m: Gossip, mid: State, s': State)
    requires k in s.nodes && s.nodes[k].sub.mode.Idle? && ForwardsVia(sys, s, k, a, now, m, mid, s')
    ensures StandsFor(s.nodes[k], a, now)
  {
    var eff := WorkerEffect(sys, s, k, HearAccept(m, now), mid);
    var eff' := WorkerEffect(sys, mid, k, QueueJob(true), s');
    assert mid.nodes[k].sub.mode.Sending?;
  }

  /**
   * When a job that was already forwarded is forwarded once more: from every reachable state in which the
   * subscriber is idle, hearing the same accept again forwards the job if and only if an open bid on it stands
   * (so it has bid on it again) and the accept matches that bid in time.
   */
  lemma ForwardsAgainExactlyWhen(sys: System, s: State, k: SubId, a: JobAccept, now: nat)
    requires sys.Valid() && Reachable(sys, s)
    requires k in s.nodes && s.nodes[k].sub.mode.Idle? && a in s.nodes[k].forwarded
    ensures ForwardsOn(sys, s, k, a, now) <==> StandsFor(s.nodes[k], a, now)
  {
    if ForwardsOn(sys, s, k, a, now) {
      var m, mid, s' :| ForwardsVia(sys, s, k, a, now, m, mid, s');
      HearingForwards(sys, s, k, a, now, m, mid, s');
    }
    if StandsFor(s.nodes[k], a, now) {
      var s' := ForwardsOnceMore(sys, s, k, a, now);
    }
  }

  /** The accept of a forwarded job is still in the network, and an open bid on it keeps a place in the queue. */
  lemma PlaceForOneMore(sys: System, s: State, k: SubId, a: JobAccept) returns (m: Gossip)
    requires sys.Valid() && Reachable(sys, s)
    requires k in s.nodes && a in s.nodes[k].forwarded && a.jobId in s.nodes[k].sub.open
    ensures k in sys.subs && sys.subs[k].workload == k.workload && sys.subs[k].peer == k.peer
    ensures m == Gossip(Some(a.buyer), JobTopic(k.workload), AcceptBody(a)) && m in s.net
    ensures a.workload == k.workload && a.winner == k.peer
    ensures sys.subs[k].queueCap.Some? && |s.nodes[k].queue| < sys.subs[k].queueCap.value
  {
    ReachableInOrder(sys, s);
    assert NodeInOrder(sys.subs[k], s.net, s.nodes[k]);
    assert Won(sys.subs[k], s.net, a);
    RemoveSize(s.nodes[k].sub.open, a.jobId);
    m := Gossip(Some(a.buyer), JobTopic(k.workload), AcceptBody(a));
  }

  lemma ForwardsOnceMore(sys: System, s: State, k: SubId, a: JobAccept, now: nat) returns (s': State)
    requires sys.Valid() && Reachable(sys, s)
    requires k in s.nodes && s.nodes[k].sub.mode.Idle? && a in s.nodes[k].forwarded && StandsFor(s.nodes[k], a, now)
    ensures Reachable(sys, s') && ForwardsOn(sys, s, k, a, now)
    ensures k in s'.nodes && s'.nodes[k].forwarded == s.nodes[k].forwarded + [a]
  {
    var m := PlaceForOneMore(sys, s, k, a);
    var mid;
    mid, s' := WinsJobAt(sys, s, k, m, now);
    assert ForwardsVia(sys, s, k, a, now, m, mid, s');
  }

  // ---- whose job a receipt is for --------------------------------------

  /**
   * Two buyers use one job id. The worker that `h` awarded hears the other buyer's offer and accept
   * instead of `h`'s accept, runs that job, and `h` takes its completed receipt as the job's own.
   */
  lemma CompletedReceiptCanBeForAnotherBuyer(sys: System, k: SubId, h: Peer, other: Peer, j: JobId) returns (s: State)
    requires Fits(sys, k, h, other) && sys.subs[k].slots.None? && sys.subs[k].queueCap.value > 1
    ensures Reachable(sys, s) && j in s.auctions && k in s.nodes
    ensures var x := s.auctions[j];
            && x.buyer == h && x.award.Some? && x.award.value.winner.bidder == k.peer && k.peer in sys.correct
            && x.receipt.Some? && x.receipt.value.status == Completed
            && x.award.value.accept !in s.nodes[k].forwarded
            && x.receipt.value.buyer == other
  {
    var s1, b := AwardedNotDelivered(sys, k, h, other, j);
    var s2 := OthersSay(sys, s1, OfferFrom(other, j));
    var s3, b2 := BidsOnOffer(sys, s2, k, OfferFrom(other, j));
    var s4 := OthersSay(sys, s3, AcceptFrom(other, j, b2));
    var s5 := WinsJob(sys, s4, k, AcceptFrom(other, j, b2));
    var s6, r := RunsNextJob(sys, s5, k);
    s := TakesReceipt(sys, s6, j, Gossip(Some(k.peer), JobTopic(JOB.workload), ReceiptBody(r)));
  }

  lemma TakesReceipt(sys: System, s: State, j: JobId, m: Gossip) returns (s': State)
    requires Reachable(sys, s) && j in s.auctions && m in s.net
    requires var x := s.auctions[j];
             x.award.Some? && x.receipt.None? && Buyer.ReceiptCounts(x.req, j, x.award.value.winner.bidder, m)
    ensures Reachable(sys, s') && s'.nodes == s.nodes
    ensures s'.auctions == s.auctions[j := s.auctions[j].(receipt := Some(m.body.receipt))]
  {
    s' := s.(auctions := s.auctions[j := s.auctions[j].(receipt := Some(m.body.receipt))]);
    assert s.net + Sent(None) == s.net;
    Extend(sys, s, BuyerActs(j, HearReceipt(m)), s');
  }

  // ---- one job over the slots ------------------------------------------

  /** The runner holds a job it has not started, and `n` more wait in the queue. */
  predicate Waiting(s: State, k: SubId, n: nat) {
    && k in s.nodes
    && s.nodes[k].sub.open == map[] && s.nodes[k].sub.mode == Dispatch.Idle
    && |s.nodes[k].queue| == n && s.nodes[k].held.Some? && s.nodes[k].running == []
  }

  ghost predicate AllFree(s: State, p: Dispatch.SlotPool) {
    p in s.holders && s.holders[p] == multiset{}
  }

  /** Another buyer's offer on job `j` is heard and its accept follows: one more job in the queue. */
  lemma OneMoreQueued(sys: System, s: State, k: SubId, other: Peer, j: JobId) returns (s': State)
    requires Reachable(sys, s) && sys.Valid() && other !in sys.correct
    requires k in sys.subs && k.workload == JOB.workload && Plain(sys.subs[k]) && k in s.nodes
    requires s.nodes[k].sub.open == map[] && s.nodes[k].sub.mode == Dispatch.Idle && HasRoom(sys, s, k)
    requires |s.nodes[k].queue| < sys.subs[k].queueCap.value
    ensures Reachable(sys, s') && s'.holders == s.holders && k in s'.nodes
    ensures s'.nodes[k].sub.open == map[] && s'.nodes[k].sub.mode == Dispatch.Idle
    ensures |s'.nodes[k].queue| == |s.nodes[k].queue| + 1
    ensures s'.nodes[k].held == s.nodes[k].held && s'.nodes[k].running == s.nodes[k].running
  {
    var s1 := OthersSay(sys, s, OfferFrom(other, j));
    var s2, b := BidsOnOffer(sys, s1, k, OfferFrom(other, j));
    var s3 := OthersSay(sys, s2, AcceptFrom(other, j, b));
    s' := WinsJob(sys, s3, k, AcceptFrom(other, j, b));
    assert s3.nodes[k].sub.open - {j} == map[];
  }

  /** With all slots free, there is room for as many jobs as the pool and the queue both have places for. */
  lemma RoomWhileSlotsAreFree(sys: System, s: State, k: SubId, p: Dispatch.SlotPool)
    requires k in sys.subs && k in s.nodes && Plain(sys.subs[k]) && sys.subs[k].slots == Some(p) && p in sys.pools
    requires AllFree(s, p) && s.nodes[k].sub.open == map[]
    requires |s.nodes[k].queue| < sys.pools[p] && |s.nodes[k].queue| < sys.subs[k].queueCap.value
    ensures HasRoom(sys, s, k)
  {
    assert FreeSlots(sys, s, k) == Some(sys.pools[p]);
  }

  lemma HoldsOne(sys: System, k: SubId, h: Peer, other: Peer, p: Dispatch.SlotPool) returns (s: State)
    requires Fits(sys, k, h, other) && sys.subs[k].slots == Some(p) && sys.pools[p] > 0
    ensures Reachable(sys, s) && Waiting(s, k, 0) && AllFree(s, p)
  {
    Start(sys);
    var s0 := Initially(sys);
    RoomWhileSlotsAreFree(sys, s0, k, p);
    var s1 := OneMoreQueued(sys, s0, k, other, "held");
    s := ReceivesJob(sys, s1, k);
  }

  lemma {:induction false} QueuesMore(
    sys: System, k: SubId, h: Peer, other: Peer, p: Dispatch.SlotPool, n: nat)
    returns (s: State)
    requires Fits(sys, k, h, other) && sys.subs[k].slots == Some(p) && sys.pools[p] > 0
    requires n <= sys.pools[p] && n <= sys.subs[k].queueCap.value
    ensures Reachable(sys, s) && Waiting(s, k, n) && AllFree(s, p)
  {
    if n == 0 {
      s := HoldsOne(sys, k, h, other, p);
    } else {
      var s1 := QueuesMore(sys, k, h, other, p, n - 1);
      RoomWhileSlotsAreFree(sys, s1, k, p);
      s := OneMoreQueued(sys, s1, k, other, "queued");
    }
  }

  /**
   * A worker whose runner has received a job and not started it can fill the whole pool besides, if its queue
   * is as long.
   */
  lemma OneJobOverTheSlots(sys: System, k: SubId, h: Peer, other: Peer, p: Dispatch.SlotPool) returns (s: State)
    requires Fits(sys, k, h, other) && sys.subs[k].slots == Some(p) && 0 < sys.pools[p] <= sys.subs[k].queueCap.value
    ensures Reachable(sys, s) && k in s.nodes && Committed(s.nodes[k]) == sys.pools[p] + 1
  {
    s := QueuesMore(sys, k, h, other, p, sys.pools[p]);
  }

  /** Some run commits the worker to more than its pool. */
  ghost predicate CanOvercommit(sys: System, k: SubId, p: Dispatch.SlotPool)
    requires p in sys.pools
  {
    exists s :: Reachable(sys, s) && k in s.nodes && Committed(s.nodes[k]) > sys.pools[p]
  }

  /** Exactly the pools that a sequential runner's queue can fill are ever overcommitted, and then by one. */
  lemma OvercommitsExactlyThePoolsTheQueueCanFill(sys: System, k: SubId, h: Peer, other: Peer, p: Dispatch.SlotPool)
    requires Fits(sys, k, h, other) && sys.subs[k].slots == Some(p) && sys.pools[p] > 0 && k !in sys.spawning
    ensures CanOvercommit(sys, k, p) <==> sys.pools[p] <= sys.subs[k].queueCap.value
  {
    if sys.pools[p] <= sys.subs[k].queueCap.value {
      var s := OneJobOverTheSlots(sys, k, h, other, p);
    }
    if CanOvercommit(sys, k, p) {
      var s :| Reachable(sys, s) && k in s.nodes && Committed(s.nodes[k]) > sys.pools[p];
      Theorems.SequentialRunnerCommitment(sys, s, k);
    }
  }
}
