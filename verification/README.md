# c0mpute: a verified model of the job auction and its neighbours

A c0mpute node sells compute over a gossip network. A buyer publishes an offer, collects bids for a
window, ranks them, publishes one accept and waits for one receipt. Each worker runs, per workload, a
subscriber with a map of open bids, a learned market share, a bounded queue to its runner, and compute
slots that several workloads of the node share. This project models that protocol and proves what it
guarantees over every run; it then does the same for the parallel benchmark kernels and for the
algorithms around them that have exact specifications.

## How it is put together

- `Wire`, `Routing`, `Pricing`, `Private`, `Load`, `Dispatch` and `Buyer` follow the source files. Code
  that updates state in place is a class or a method with loops (`Dispatch.Subscriber`,
  `Pricing.MarketLearner`, `Load.WorkerLoad`, `Private.PrivateConfig`, `Routing.Rank`, `Buyer.Auction`),
  proved against a function; the functions are what the protocol steps with.
- `Protocol` is the network: any number of buyers and workers. Peers in `System.correct` run the code;
  all others publish anything, but only under their own name. Messages are never removed from the
  network and are heard any number of times in any order, or never, which covers loss, duplication and
  reordering. Every node has its own clock: each event carries the time its node reads. The subscriber
  is suspended while it publishes a bid or queues a job, and its runner moves on meanwhile.
- `WorkerInvariants` and `NetworkInvariants` show what every step keeps; `Theorems` draws the
  conclusions; `Witnesses` exhibits runs that show where they stop. `AuctionSteps` proves that the
  event-driven buyer of `Protocol` and the loops of `Buyer` are the same auction.
- `Histories` ties what a node has learned, how long its jobs take and the order it runs them in to the
  run that led there.
- `WorkPool` is the shared counter of the benchmark; `FibKernel`, `MatmulKernel` and `HashKernel` let any
  thread move next until all have stopped, so their contracts hold for every interleaving, and they
  end. `MatmulKernel` takes addition and multiplication as parameters: the result is the same sum in the
  same order whatever they round.
- `CivilDate`, `Text`, `Chunker` (with `Pieces`, what it proves about words), `EventStream`, `Durability`, `GatewayUtil`, `JobsGateway`,
  `SpeechGateway` and `JobTracker` are one component each.

Amounts, shares, loads and probabilities are exact reals; prices and caps off the wire may also be
infinite or not a number. JSON bodies are tagged messages, hashes and JSON parsing are parameters.

## Where the code promises less than it seems

Each of these is proved, with the exact condition.

- **A job can run more than once on one worker.** An offer delivered again after its accept makes the
  worker bid again, and the accept delivered again then matches. A job already forwarded is forwarded
  again if and only if a new open bid on it stands that the accept matches in time
  (`ForwardsAgainExactlyWhen`). The runs never exceed the bids (`ForwardsNeverExceedBids`), and for every
  n some run has n of both (`RedeliveryForwardsAJobAsOftenAsItIsBidOn`).
- **A receipt is not tied to its buyer.** The buyer checks job id, worker and reference, not the buyer
  the receipt names. It is for the buyer's own job if and only if it names the buyer
  (`ReceiptMeansTheWinnerRanTheJob`, `CompletedReceiptCanBeForAnotherBuyer`).
- **A workload can be one job over its slots.** The comment on `Capacity::budget` says "without
  overbooking"; between receiving a job and acquiring its slot the job is counted nowhere. A bid in that
  moment is what takes a workload over, if and only if it commits all that is left
  (`OvercommitsExactlyWhen`); for a runner that takes one job at a time this happens exactly to pools no
  larger than its queue (`OvercommitsExactlyThePoolsTheQueueCanFill`), and it is never more than one job
  (`SlotsAreNotOvercommitted`).
- **Tie rotation is not fair across a counter wrap**, unless the number of tied bids divides 2^64
  (`RotationIsFair`).
- **`deny` misses entries with stray white space**, because it compares raw entries while the policy
  trims them (`DeniedBuyerStillTrustedExactlyWhen`, `DenyMissesAPaddedEntry`).
- **A cap that is not a whole number of micro-dollars can silence a full node** whose floor it clears: it
  does exactly when the larger of cap and floor rounds to more than the cap plus 1e-9
  (`DynamicAlwaysQuotesExactlyWhen`, `DynamicQuotesExactlyWhenFloorFits`; half a micro-dollar is one,
  `FractionalCapCanSilenceAFullNode`).
- **A price that is not a number would break the bid order** (`NaNBreaksTransitivity`), on all others it is
  sound (`CompareIsTotalPreorder`); the buyer's finite-price check is what the ranking rests on.
- **Timestamps keep their 20 characters only up to the year 9999**
  (`TextHasRfc3339ShapeUpToYear9999`).
- **The completion tally keeps late arrivals with early times** until they reach its front
  (`EvictionIsExact`).

## Model

| member | source | states |
|---|---|---|
| `Theorems.Agreement` | `node/crates/c0mpute-core/src/dispatch.rs:227-274` | In every reachable state: a job a correct worker forwards in a correct buyer's name was awarded by that buyer, in the auction it opened under that id, by exactly this accept; the winner is an authenticated bid this worker published, past the buyer's filters and live at the close; spec and reference are the offer's, the price is that bid's, and a private worker trusts the buyer |
| `Theorems.AwardIsBest` | `node/crates/c0mpute-core/src/buyer.rs:263-290` | In every reachable state no bid that stood when the window closed ranks before the one awarded. In the bids' own numbers: under the cheapest policy none is cheaper; in smart routing an overloaded worker is awarded only if all are, and then a least loaded one; of the bids as loaded as the winner none has a better score bucket, none in its bucket a shorter ETA, and none as fast a lower price |
| `Theorems.AuctionSaysWhatWasAsked` | `node/crates/c0mpute-core/src/buyer.rs:185-199` | A correct buyer's offer says exactly what was requested, deadline and capabilities included, under a well-formed reference if any, and its accept names the winner at the winner's price, with the offer's spec and reference |
| `Theorems.ForwardsWhatItBidOn` | `node/crates/c0mpute-core/src/dispatch.rs:296-318` | Whatever a correct worker forwards, for any buyer, correct or not, that buyer signed an accept that names this worker, and the worker had bid on that job for that buyer with the same spec and reference, under a cap that covers the agreed price |
| `Theorems.BidsAnswerOffers` | `node/crates/c0mpute-core/src/dispatch.rs:436-465` | Every bid on a correct worker's record answers an offer in the network of that job, buyer, spec, reference and cap, whose required capabilities the worker has, which was at most five minutes old and not past its deadline when it bid, and, for a private worker, which a trusted buyer signed itself |
| `Theorems.TimelyAcceptIsHonoured` | `node/crates/c0mpute-core/src/dispatch.rs:50-54` | A correct buyer's accept heard within 10 seconds of its closing time, by the worker's clock, matches the bid it awards, if that bid was made on this buyer's offer; an idle subscriber with a runner then takes the job if its open bid under that id is still this one, and takes it exactly when an open bid under that id stands that the accept matches |
| `Theorems.OneWorkerPerJob` | `node/crates/c0mpute-core/src/buyer.rs:303-313` | No two correct workers (or workloads of one) ever forward the same correct buyer's job, and it is forwarded under one accept only |
| `Theorems.ForwardsNeverExceedBids` | `node/crates/c0mpute-core/src/dispatch.rs:239-272` | A worker forwards a job id at most as often as it published bids on it; every forwarded job is queued, received, running or done exactly once |
| `Theorems.ReceiptMeansTheWinnerRanTheJob` | `node/crates/c0mpute-core/src/buyer.rs:318-363` | A receipt taken from a correct winner means that it forwarded and ran a job under this id with this status and output; it is the buyer's own award exactly when the receipt names the buyer |
| `Theorems.PriceBetweenFloorAndCap` | `node/crates/c0mpute-core/src/dispatch.rs:470-480` | No correct worker forwards a correct buyer's job over that buyer's cap. Its own floor is missed by 0.5e-6 + 1e-9 at most, by 1e-9 on a whole micro-dollar floor, and not at all when the cap the winning bid was quoted against is a whole number of micro-dollars too; that cap is the buyer's own only if the bid was made on the buyer's offer, not on one forged in its name |
| `Theorems.ForwardingNeverWaits` | `node/crates/c0mpute-core/src/dispatch.rs:270-272` | Open bids plus queued jobs never exceed the runner channel's capacity, so a won job always finds a free place |
| `Theorems.OpenBidsAreNeverReset` | `node/crates/c0mpute-core/src/dispatch.rs:210-212` | With a channel of at most 1024 places the branch that clears all open bids is never taken |
| `Theorems.SlotsAreNotOvercommitted` | `node/crates/c0mpute-core/src/dispatch.rs:179-190` | Per workload, open bids plus queued jobs fit the slot pool; with the received and the running jobs they exceed it by at most one |
| `Theorems.OvercommitsExactlyWhen` | `node/crates/c0mpute-core/src/runner.rs:173-176` | While a workload is within its pool, an event takes its open bids, queued, received and running jobs over it if and only if its worker bids on an offer while a received job has not got its slot and the bid commits all the slots that are left |
| `Theorems.SequentialRunnerCommitment` | `node/crates/c0mpute-core/src/runner.rs:165-192` | A runner that finishes a job before it receives the next is never committed to more than its queue and one job |
| `Theorems.PromptRunnersNeverOvercommit` | `node/crates/c0mpute-core/src/runner.rs:173-176` | If receiving a job and acquiring its slot were one step, open bids, queued and running jobs would never exceed the pool |
| `Theorems.RunningJobsFitTheCpus` | `node/crates/c0mpute-core/src/supervisor.rs:125-141` | Over all workloads of a node, each held slot is one running job, and running jobs times threads per job stay within the larger of one job's threads and the CPU capacity |
| `Histories.ShareIsLearned` | `node/crates/c0mpute-core/src/dispatch.rs:239-248` | After every run a node's share is what the outcomes it heard of teach from 0.6 on, namely those of auctions it bid in, told by their own buyers, on its terms, in time and inside the cap, and no others; so it stays in [0, 1] |
| `Histories.AverageIsOfCompletedJobs` | `node/crates/c0mpute-core/src/runner.rs:178-190` | After every run a node's job-time average is that of the jobs it completed, in order, and of nothing that failed |
| `Histories.BidsQuoteTheNode` | `node/crates/c0mpute-core/src/dispatch.rs:179-206` | After every run a bid quotes the ETA for the jobs queued now, on all slots of the pool, at the average of the jobs completed so far, and on a listing the price for the fill of the queue at the share learned so far |
| `Histories.SequentialRunnerKeepsOrder` | `node/crates/c0mpute-core/src/runner.rs:171-192` | A runner that takes one job at a time runs the jobs it won in the order it won them and skips none: done, running, received and queued jobs, one after the other, are the jobs forwarded |
| `NetworkInvariants.ReachableInOrder` | `node/crates/c0mpute-core/src/dispatch.rs:144-275` | The network-wide invariant (auctions, records, vouched messages, slots, commitments) holds in every state any run reaches |
| `NetworkInvariants.StepKeepsAuctionsInOrder` | `node/crates/c0mpute-core/src/buyer.rs:207-313` | Every event keeps each auction's bids authenticated and filtered, its award live, best-ranked and published |
| `NetworkInvariants.StepKeepsNetVouched` | `node/crates/c0mpute-core/src/buyer.rs:392-403` | Whatever is in the network in a correct peer's name is that peer's own offer, bid, accept or receipt |
| `NetworkInvariants.StepKeepsSlotsAccountedFor` | `node/crates/c0mpute-core/src/runner.rs:173-176` | Every event keeps each slot pool held by exactly the running jobs of its workloads, never overdrawn |
| `WorkerInvariants.WorkerConservesJobs` | `node/crates/c0mpute-core/src/runner.rs:173-192` | No step of a worker loses or doubles a job between forwarding and receipt |
| `WorkerInvariants.WorkerKeepsForwardsPaid` | `node/crates/c0mpute-core/src/dispatch.rs:239-248` | No step of a worker makes its forwards and open bids on a job id outnumber the bids it published on it |
| `WorkerInvariants.ForwardsAndSignsExactlyWhen` | `node/crates/c0mpute-core/src/dispatch.rs:270-272` | A worker forwards a job exactly when it queues the one it won and the runner still listens; it signs a message exactly when a bid or a receipt goes out, and the receipt names the job that ended, its buyer and reference, and the status and output of this run |
| `Witnesses.RedeliveryForwardsAJobAsOftenAsItIsBidOn` | `node/crates/c0mpute-core/src/dispatch.rs:208-224` | For every n there is a run, on a worker without a slot pool, in which an offer and its accept are delivered n times in turn and the one award is forwarded n times on n bids: the bound of ForwardsNeverExceedBids is exact for every number |
| `Witnesses.ForwardsAgainExactlyWhen` | `node/crates/c0mpute-core/src/dispatch.rs:239-272` | In every reachable state with an idle subscriber, hearing the accept of an already forwarded job forwards it once more if and only if an open bid on that job stands and the accept matches it in time |
| `Witnesses.CompletedReceiptCanBeForAnotherBuyer` | `node/crates/c0mpute-core/src/buyer.rs:318-353` | A reachable run in which a correct buyer takes a correct winner's completed receipt for another buyer's job with the same id |
| `Witnesses.OneJobOverTheSlots` | `node/crates/c0mpute-core/src/runner.rs:173-176` | For every pool the queue can fill there is a run that exceeds it by one commitment, so the bound of SlotsAreNotOvercommitted is tight |
| `Witnesses.OvercommitsExactlyThePoolsTheQueueCanFill` | `node/crates/c0mpute-core/src/runner.rs:165-192` | A runner that takes one job at a time can be driven over its slot pool if and only if the pool is no larger than its queue |
| `AuctionSteps.StepsRunTheAuction` | `node/crates/c0mpute-core/src/buyer.rs:167-370` | The event-by-event buyer of the network model ends in a receipt exactly when the whole auction succeeds, with the same winner and receipt |
| `Dispatch.Subscriber.HandleOffer` | `node/crates/c0mpute-core/src/dispatch.rs:159-226` | The in-place offer handling reaches the state the network model steps to. It bids if and only if the offer is of its workload, admitted by the policy and the filter, at most 300 000 ms old, before its deadline, with no or a well-formed reference and capabilities the worker has, while the bids that have not run out and the queued jobs leave a place in the queue and a slot, and the listing has a price; it remembers the bid only if it was published |
| `Dispatch.Subscriber.HandleAccept` | `node/crates/c0mpute-core/src/dispatch.rs:227-274` | The in-place accept handling reaches the state the network model steps to. It returns the job if and only if the job's own buyer awards it to this node with the spec and reference it bid on, at a price from 0 to the cap, at most 10 seconds after the bid ran out; the open bid is spent whoever won |
| `Dispatch.BidSays` | `node/crates/c0mpute-core/src/dispatch.rs:468-493` | A bid names the job and the worker, runs out after 60 seconds, carries the ETA, the score and the reported load, and costs the cap or, on a listing, the quote at the queue's fill and the learned share; it is remembered by the offer's terms |
| `Dispatch.LoadIsTheShareTaken` | `node/crates/c0mpute-core/src/dispatch.rs:382-394` | The reported load times the slots is the slots in use plus the jobs queued for one, at most all; without slots it is the fill of the queue |
| `Load.EtaCoversTheRounds` | `node/crates/c0mpute-core/src/dispatch.rs:400-415` | The ETA is the least whole number of seconds, from one to a day, that covers the rounds in which the queue drains a pool at a time, this job's own included, each as long as the measured average or a minute |
| `Load.EtaMonotone` | `node/crates/c0mpute-core/src/dispatch.rs:408-415` | A longer queue never shortens the ETA, more slots never lengthen it |
| `Buyer.Auction` | `node/crates/c0mpute-core/src/buyer.rs:167-370` | The whole auction with its loops and its tie counter computes the functional auction, and advances the counter exactly when two or more bids tie |
| `Buyer.CloseWindow` | `node/crates/c0mpute-core/src/buyer.rs:263-313` | From the live bids on: no bids, or the specified winner and what came of its accept and receipt; the tie counter moves exactly when two or more bids tie |
| `Buyer.WinnerPassedEveryFilter` | `node/crates/c0mpute-core/src/buyer.rs:213-243` | A successful auction's winner is an authenticated, allowed, not excluded, live bid inside the cap that no standing bid ranks before; the receipt is that worker's own |
| `Buyer.CollectBids` | `node/crates/c0mpute-core/src/buyer.rs:207-261` | The collecting loop with its early exits computes the collection, in order |
| `Buyer.CollectTakesExactly` | `node/crates/c0mpute-core/src/buyer.rs:207-243` | One more message adds its bid, at the end, if and only if it is a bid on this very job, on the workload's topic, signed by its bidder, who is someone else, allowed and not excluded, at a price from 0 to the cap, and not run out |
| `Buyer.PickWinner` | `node/crates/c0mpute-core/src/buyer.rs:285-290` | Sorting in place, rotating the tied bids by the counter and taking the first yields the specified winner |
| `Buyer.AwaitReceipt` | `node/crates/c0mpute-core/src/buyer.rs:318-353` | The waiting loop returns the first receipt that counts, or none |
| `Buyer.FirstReceiptIsTaken` | `node/crates/c0mpute-core/src/buyer.rs:318-353` | Among any messages the receipt taken is the first on the topic that names this job and the winner, is signed by the winner, and carries the buyer's reference or none |
| `Buyer.AuctionEnds` | `node/crates/c0mpute-core/src/buyer.rs:167-370` | An auction fails for the first of: a malformed reference, an offer not published, no standing bid, an accept not published, no receipt; otherwise it returns the best bid, its receipt and the caller's reference |
| `Buyer.RetainLiveKeepsOrder` | `node/crates/c0mpute-core/src/buyer.rs:407-409` | Wherever a bid stands, it is kept once if it is live and dropped if not, and the bids before and after it keep their places |
| `Routing.CompareIsTotalPreorder` | `node/crates/c0mpute-core/src/routing.rs:87-105` | On all prices that are numbers, infinite ones included, the bid order is reflexive, flips with its arguments, total and transitive, under both policies |
| `Routing.NaNBreaksTransitivity` | `node/crates/c0mpute-core/src/routing.rs:82-84` | For every rule: a price that is not a number ties with all prices, and transitivity fails; no such bid is ever ranked, because the buyer drops it before |
| `Routing.Rank` | `node/crates/c0mpute-core/src/routing.rs:109-121` | Ranking in place yields the stable sort and the length of the tied front |
| `Routing.RankIsSortedAndCountsTies` | `node/crates/c0mpute-core/src/routing.rs:109-121` | The ranking is a sorted permutation, and the count is exactly the bids no worse than every other |
| `Routing.StableSortIsUnique` | `node/crates/c0mpute-core/src/routing.rs:111-114` | Any two sorted arrangements that keep ties in order are equal, so the library's sort and the model's agree |
| `Routing.SortedIsStable` | `node/crates/c0mpute-core/src/routing.rs:111-114` | Tied bids keep the order they arrived in |
| `Routing.WinnerIsMinimal` | `node/crates/c0mpute-core/src/buyer.rs:285-290` | Whatever the rotation, no bid ranks before the winner |
| `Routing.AtLeastAsGoodExactlyWhen` | `node/crates/c0mpute-core/src/routing.rs:87-105` | Field by field, when a bid is at least as good as another: by price alone; or by having room, at equal room by score bucket (if both are overloaded, by load before that), at equal buckets by ETA, and at equal ETA by price |
| `Routing.WinnerLeads` | `node/crates/c0mpute-core/src/routing.rs:1-18` | No bid is cheaper than the winner of the cheapest policy; in smart routing, of the bids as loaded as the winner none has a better bucket, none in its bucket a shorter ETA, none as fast a lower price |
| `Routing.EarlierBidRanksFirst` | `node/crates/c0mpute-core/src/routing.rs:111-114` | Of bids that differ in nothing the policy looks at, the ranking puts the one published first in front |
| `Routing.SmartRoutingGuarantee` | `node/crates/c0mpute-core/src/routing.rs:87-105` | The winner is overloaded only if all bids are, and then least loaded; otherwise its score is within a factor below 1.1 of every benchmarked bid that is not overloaded |
| `Routing.BucketAntitone` | `node/crates/c0mpute-core/src/routing.rs:67-75` | A better score never lands in a worse bucket; unusable scores alone get the last bucket |
| `Routing.Steps` | `node/crates/c0mpute-core/src/routing.rs:67-75` | The bucket number k satisfies 1.1^k <= ratio < 1.1^(k+1) |
| `Routing.BucketCountsTenPercentSteps` | `node/crates/c0mpute-core/src/routing.rs:65-75` | A score in bucket k is at least k and less than k + 1 steps of 10% away from the best |
| `Routing.RotationIsFair` | `node/crates/c0mpute-core/src/buyer.rs:285-290` | Over t consecutive ties of t bids each position wins once if and only if the counter does not wrap in between or t divides 2^64 |
| `StableSort.SortInPlace` | `node/crates/c0mpute-core/src/routing.rs:109-121` | Insertion in place sorts the slice as the functional stable sort does |
| `StableSort.SortedPermutes` | `node/crates/c0mpute-core/src/routing.rs:109-121` | Sorting permutes |
| `Pricing.QuoteWithinFloorAndCap` | `node/crates/c0mpute-core/src/pricing.rs:115-131` | In both modes every quote is at most the cap and at least the floor on whole micro-dollar amounts; otherwise the floor is missed by at most 0.5e-6 + 1e-9 |
| `Pricing.FixedQuotesExactlyWhen` | `node/crates/c0mpute-core/src/pricing.rs:115-131` | A fixed node quotes, at every load and share, if and only if its price (without one, the cap), raised to the floor and rounded to micro-dollars, is at most the cap plus 1e-9, and then that amount or the cap, whichever is less; on whole micro-dollars the price itself exactly when it fits |
| `Pricing.DynamicAsks` | `node/crates/c0mpute-core/src/pricing.rs:115-131` | A dynamic node asks its share of the cap when idle, the whole cap when full, in proportion in between, and never less than its floor |
| `Pricing.DynamicAlwaysQuotesExactlyWhen` | `node/crates/c0mpute-core/src/pricing.rs:115-131` | For every cap and floor: no load and no share silences a dynamic node if and only if the larger of cap and floor, rounded to micro-dollars, is at most the cap plus 1e-9 |
| `Pricing.DynamicQuotesExactlyWhenFloorFits` | `node/crates/c0mpute-core/src/pricing.rs:115-131` | For every cap and floor: a dynamic node quotes exactly when its floor fits, at every load and share, if and only if rounding the larger of cap and floor fits under the cap exactly when the floor does; on whole micro-dollar amounts it always does |
| `Pricing.FractionalCapCanSilenceAFullNode` | `node/crates/c0mpute-core/src/pricing.rs:115-131` | An instance that fails both conditions: a cap of half a micro-dollar clears a zero floor, and a full node stays silent |
| `Pricing.QuoteRisesWithLoadAndShare` | `node/crates/c0mpute-core/src/pricing.rs:115-131` | More load or a higher learned share never lowers a quote, and never turns silence into one |
| `Pricing.LosingUndercutsNextTime` | `node/crates/c0mpute-core/src/pricing.rs:47-60` | After losing to a whole micro-dollars, the next idle quote at that cap is at most a, and below it exactly when a >= 26 |
| `Pricing.OutcomeTeaches` | `node/crates/c0mpute-core/src/pricing.rs:47-60` | A win moves the share a twentieth of its way to 1; losing to a cheaper bid sets the share to 98% of what won; a lost tie and an outcome with an amount that is no number, or no cap, change nothing |
| `Pricing.ShareStaysInUnit` | `node/crates/c0mpute-core/src/pricing.rs:47-60` | The learned share stays in [0, 1] over every history of outcomes |
| `Pricing.WinsCloseTheGap` | `node/crates/c0mpute-core/src/pricing.rs:47-60` | n wins in a row leave exactly 0.95^n of the gap between the share and the cap |
| `Pricing.MarketLearner.Observe` | `node/crates/c0mpute-core/src/pricing.rs:47-60` | The share is updated in place as one step of the history function, stays in [0, 1], and a win never lowers it |
| `Private.AllowedBuyerIsAdmitted` | `node/crates/c0mpute-core/src/private.rs:105-113` | An allowed buyer is admitted exactly when the offer's signed publisher is that buyer |
| `Private.AdmitsExactlyWhen` | `node/crates/c0mpute-core/src/private.rs:78-113` | A public node admits every offer; a private one exactly those their buyers signed themselves whose buyer is the node, one of its machine's identities, or listed up to white space |
| `Private.DeniedBuyerStillTrustedExactlyWhen` | `node/crates/c0mpute-core/src/private.rs:59-63` | After a deny the peer is still trusted exactly when it is a local identity or also listed with stray white space |
| `Private.DenyMissesAPaddedEntry` | `node/crates/c0mpute-core/src/private.rs:59-63` | An instance: with one entry that starts with a space, denying that buyer leaves the list as it is and the buyer trusted |
| `Private.DenyUndoesAllow` | `node/crates/c0mpute-core/src/private.rs:49-63` | Denying a newly allowed buyer restores the list |
| `Private.PrivateConfig.Allow` | `node/crates/c0mpute-core/src/private.rs:49-57` | The trimmed peer is added unless already listed, and the answer says which |
| `Private.PrivateConfig.Deny` | `node/crates/c0mpute-core/src/private.rs:59-63` | Every listing of the trimmed peer goes, the others stay in order, and the answer says whether there was one |
| `Text.TrimKeepsInk` | `node/crates/c0mpute-core/src/private.rs:49-63` | Trimming removes white space only |
| `Load.SlotsFitTheCpus` | `node/crates/c0mpute-core/src/resources.rs:13-40` | As many jobs as there are slots never want more threads than the CPU capacity, one job excepted |
| `Load.TwoJobsExactlyWhenTheyFit` | `node/crates/c0mpute-core/src/resources.rs:13-40` | Unless configured a job gets the least number of threads that is half the CPUs; two jobs run at once if and only if their threads fit the CPUs, otherwise one |
| `Load.AverageBetweenSamples` | `node/crates/c0mpute-core/src/runner.rs:85-96` | The moving average lies between the smallest and largest sample of any history and never returns to 0 |
| `Load.SteadyJobsSettleTheAverage` | `node/crates/c0mpute-core/src/runner.rs:85-96` | Under a constant sample s the average enters [s-3, s] within its distance in jobs, and stays |
| `Load.WorkerLoad.RecordJob` | `node/crates/c0mpute-core/src/runner.rs:85-96` | The average is updated in place as one step of the history function: 0.7 of the old and 0.3 of the sample, rounded down; it is at least 1 and lies between the two |
| `CivilDate.DatesFollowTheCalendar` | `node/crates/c0mpute-core/src/status_aggregator.rs:687-706` | For every day number the result is a valid date (section 5.7 and Appendix C of RFC 3339), day 0 is 1970-01-01, and the next day number is the calendar's next day |
| `CivilDate.DatesIncrease` | `node/crates/c0mpute-core/src/status_aggregator.rs:687-706` | Later day numbers give strictly later dates, so the conversion is injective |
| `CivilDate.BothCopiesAgree` | `node/crates/c0mpute-bench/src/lib.rs:621-645` | The arithmetic of the status page, written out in full, agrees with the benchmark's on every millisecond |
| `CivilDate.TimeOfDay` | `node/crates/c0mpute-bench/src/lib.rs:621-645` | The clock fields are a valid time that gives back the second of the day |
| `CivilDate.TimestampsIncrease` | `node/crates/c0mpute-bench/src/lib.rs:621-645` | A later second has a later timestamp |
| `CivilDate.TextHasRfc3339ShapeUpToYear9999` | `node/crates/c0mpute-core/src/status_aggregator.rs:705-706` | The text has the 20-character shape if and only if the year is at most 9999 |
| `CivilDate.TextReadsBack` | `node/crates/c0mpute-core/src/status_aggregator.rs:705-706` | Up to the year 9999 the text of every second reads back, field by field and mark by mark (section 5.6 of RFC 3339), as its date and time of day |
| `WorkPool.Pool.Claim` | `node/crates/c0mpute-bench/src/lib.rs:263-312` | One fetch-and-add hands the next index to exactly this thread, or stops it, and the remaining work shrinks |
| `WorkPool.Pool.ClaimsAreDistinct` | `node/crates/c0mpute-bench/src/lib.rs:325-366` | No index is in two threads' hands |
| `FibKernel.FibRec` | `node/crates/c0mpute-bench/src/lib.rs:253-259` | Returns fib(n) and adds its node visits to the counter |
| `FibKernel.FibSerialValue` | `node/crates/c0mpute-bench/src/lib.rs:242-250` | The loop computes fib(n) |
| `FibKernel.VisitsClosedForm` | `node/crates/c0mpute-bench/src/lib.rs:253-259` | The node count of the naive recursion is one less than twice fib(n+1) |
| `FibKernel.Fork` | `node/crates/c0mpute-bench/src/lib.rs:271-285` | Expanding any number of levels keeps the sum of fib over the leaves, and visits above plus below the cut; no leaf is larger than n |
| `FibKernel.RunThreads` | `node/crates/c0mpute-bench/src/lib.rs:287-310` | For every interleaving the threads' sums and visit counts add up to those of all leaves, and the run ends |
| `FibKernel.FibForked` | `node/crates/c0mpute-bench/src/lib.rs:263-312` | For every n, depth, thread count and interleaving: exactly fib(n) and the serial node count |
| `FibKernel.FibParallel` | `node/crates/c0mpute-bench/src/lib.rs:263-312` | The same with the depth the kernel picks |
| `FibKernel.SplitFeedsTheThreads` | `node/crates/c0mpute-bench/src/lib.rs:264-266` | The depth is the least that makes 64 leaves a thread, but no deeper than the tree goes and at least one |
| `MatmulKernel.MatmulParallel` | `node/crates/c0mpute-bench/src/lib.rs:325-366` | For every interleaving, cell by cell: each cell is the in-order row-by-column sum, under any addition and multiplication |
| `MatmulKernel.ProductWithIdentity` | `node/crates/c0mpute-bench/src/lib.rs:325-366` | A product with the identity matrix on either side is the other matrix |
| `MatmulKernel.Transpose` | `node/crates/c0mpute-bench/src/lib.rs:326-331` | The transposed copy holds b[i,j] at [j,i] |
| `MatmulKernel.RowsAreDisjoint` | `node/crates/c0mpute-bench/src/lib.rs:345-349` | Two cells of the flat array coincide only if row and column do, so claimed rows never overlap |
| `HashKernel.HashParallel` | `node/crates/c0mpute-bench/src/lib.rs:386-415` | The result is the serial hash of the buffer in chunks of 1 048 576 bytes, independent of interleaving and thread count |
| `HashKernel.HashChunks` | `node/crates/c0mpute-bench/src/lib.rs:391-409` | For every interleaving slot i ends with the digest of chunk i |
| `HashKernel.ChunksCoverTheBuffer` | `node/crates/c0mpute-bench/src/lib.rs:386-389` | The chunks concatenate to the buffer and all but the last are full |
| `JobTracker.InFlightIsTheHistory` | `node/crates/c0mpute-core/src/status_aggregator.rs:181-222` | After any history a job is in flight exactly when an accept of it was neither replaced, receipted nor aged out since, and what is kept is that accept's |
| `JobTracker.TallyIsTheHistory` | `node/crates/c0mpute-core/src/status_aggregator.rs:191-231` | After any history every completion in the tally is that of a completed receipt, with the workload of the accept that stood open and the time since it, or unknown without one; a receipt adds one entry if its job was completed and none otherwise; eviction keeps those of the last day, and drops what is older from the front |
| `JobTracker.EvictionIsExact` | `node/crates/c0mpute-core/src/status_aggregator.rs:224-231` | Eviction drops stale completions from the front only and keeps every fresh one; what is left is all fresh if and only if the stale ones arrived first |
| `JobTracker.LateArrivalOutlivesTheWindow` | `node/crates/c0mpute-core/src/status_aggregator.rs:224-231` | A late arrival with an early time stays in the tally |
| `JobTracker.JobState.OnReceipt` | `node/crates/c0mpute-core/src/status_aggregator.rs:193-214` | Any receipt ends the job; only a completed one is counted, with a latency only if the accept was seen and not later |
| `JobTracker.JobState.Evict` | `node/crates/c0mpute-core/src/status_aggregator.rs:217-232` | Keeps exactly the recent jobs in flight and pops the stale front of the tally |
| `Chunker.ChunkForStreaming` | `node/crates/c0mpute-core/src/speech_session.rs:426-461` | The chunks hold the text's words in order, and a word is cut only after a comma of a sentence over the limit; each chunk is trimmed, not empty, and within max(limit, 40) bytes or one word; a sentence that fits is never cut, and starts a new chunk only if it did not fit behind the short sentence before it |
| `Chunker.SplitSentences` | `node/crates/c0mpute-core/src/speech_session.rs:463-483` | Every word is kept whole and in order, no sentence holds an inner boundary, and each but the last ends with a full stop |
| `Chunker.SplitLong` | `node/crates/c0mpute-core/src/speech_session.rs:485-531` | The words are those of the sentence's comma pieces, in order and whole; every piece fits or is one word; every clause that fits stays whole |
| `Chunker.CommaPiecesCutAtCommas` | `node/crates/c0mpute-core/src/speech_session.rs:489-509` | The comma pieces concatenate to the sentence; each but the last ends with a comma, and no comma stands elsewhere in a piece |
| `Chunker.JoinCommaPieces` | `node/crates/c0mpute-core/src/speech_session.rs:485-509` | Clauses are joined as far as the limit allows: the first clause of each piece would not have fitted behind the piece before |
| `Chunker.BreakBetweenWords` | `node/crates/c0mpute-core/src/speech_session.rs:511-530` | The parts hold the piece's words, whole and in order; each fits the limit or is one word, and is full: the next part's first word would not have fitted behind it |
| `Pieces.WordsKeepInk` | `node/crates/c0mpute-core/src/speech_session.rs:516-517` | Splitting into words drops white space and nothing else |
| `Pieces.WordsAppend` | `node/crates/c0mpute-core/src/speech_session.rs:516-517` | Text cut at white space has the words of its two sides, in order |
| `EventStream.Complete` | `node/crates/c0mpute-cli/src/ai_chat.rs:215-244` | For every cutting into chunks the printed answer and the reason to stop are those of the whole body, and reading stops at the first chunk that completes a stopping line |
| `EventStream.AnswerIsWhatTheLinesPrint` | `node/crates/c0mpute-cli/src/ai_chat.rs:221-241` | The answer of a body is what its lines print, in order: the contents of their data fields, and nothing for lines without the field or with data to ignore |
| `EventStream.AnswerEnds` | `node/crates/c0mpute-cli/src/ai_chat.rs:224-241` | The done marker ends the answer, an error event ends it with its message, both keep what was printed before, and without either it ends with the body |
| `EventStream.EveryLineCarriesDataOrNot` | `node/crates/c0mpute-cli/src/ai_chat.rs:224-224` | Every line carries exactly one piece of data, or has no data field, so the two results above cover every body |
| `EventStream.DrainLines` | `node/crates/c0mpute-cli/src/ai_chat.rs:221-241` | Draining the buffer leaves no complete line and resumes exactly where the whole-body reading would, whatever follows |
| `EventStream.DoneLineStops` | `node/crates/c0mpute-cli/src/ai_chat.rs:222-228` | The done marker stops the reader whatever white space surrounds it and its field name |
| `EventStream.UnterminatedLineIsIgnored` | `node/crates/c0mpute-cli/src/ai_chat.rs:222-224` | What follows the last line feed changes nothing |
| `Durability.SumIsProbability` | `scripts/storage-durability-sim.py:33-35` | The binomial sum is the chance that fewer than k of n independent hosts are up, computed host by host |
| `Durability.UnreadableOrReadable` | `scripts/storage-durability-sim.py:33-35` | The sum and its upper tail add to 1, and the sum lies in [0, 1] |
| `Durability.NeedingMoreHurts` | `scripts/storage-durability-sim.py:33-35` | Non-decreasing in k |
| `Durability.ExtraShardsHelp` | `scripts/storage-durability-sim.py:33-35` | Non-increasing in n; adding shards that are all needed never helps |
| `Durability.BetterHostsHelp` | `scripts/storage-durability-sim.py:33-35` | Non-increasing in the availability of a host |
| `Durability.CombIsFactorialRatio` | `scripts/storage-durability-sim.py:35-35` | Pascal's rule gives the factorial formula |
| `GatewayUtil.ConstantTimeEq` | `node/crates/c0mpute-core/src/gateway_util.rs:13-20` | True exactly for equal inputs, although the shorter one is padded with zeros |
| `GatewayUtil.FetchVerified` | `node/crates/c0mpute-core/src/gateway_util.rs:57-114` | The phased loop computes the specified fetch and ends within the budget and one pause |
| `GatewayUtil.FetchedIsVerified` | `node/crates/c0mpute-core/src/gateway_util.rs:73-79` | Whatever route they came by, returned bytes hash to the requested hash and respect the size cap |
| `GatewayUtil.FetchEnds` | `node/crates/c0mpute-core/src/gateway_util.rs:57-114` | A fetch succeeds if and only if hash and provider can be read and the bytes delivered have that hash and a permitted size; it times out exactly when nothing is delivered to a readable request |
| `GatewayUtil.FirstAnswerCounts` | `node/crates/c0mpute-core/src/gateway_util.rs:81-102` | The worker is heard if it delivers within 3 seconds, otherwise the DHT if it delivers within 12 more, inside the budget |
| `GatewayUtil.DeliveredWasAnswered` | `node/crates/c0mpute-core/src/gateway_util.rs:81-113` | What is delivered is an answer of the network, and arrived inside the budget |
| `GatewayUtil.ReachableWorkerDelivers` | `node/crates/c0mpute-core/src/gateway_util.rs:81-113` | A worker that starts answering early enough in the budget is always reached by one of the phases |
| `JobsGateway.RequestOnlyNarrows` | `node/crates/c0mpute-core/src/jobs_gateway.rs:283-312` | An accepted list admits exactly who both the operator and the request admit, and it is accepted exactly when it is short, well-formed and inside the operator's |
| `JobsGateway.ServedIsAllowed` | `node/crates/c0mpute-core/src/jobs_gateway.rs:343-360` | What the bridge serves was awarded inside both allowlists and the price cap |
| `JobsGateway.ServedIsVerified` | `node/crates/c0mpute-core/src/jobs_gateway.rs:362-396` | And its bytes hash to the output hash of a completed receipt the winner itself published |
| `JobsGateway.DeliverEnds` | `node/crates/c0mpute-core/src/jobs_gateway.rs:343-396` | An award is served if and only if its receipt is of a completed job with an output that can be fetched within the remaining time and 20 seconds and is a result; a fetch that timed out is a timeout, all else the worker's failure |
| `JobsGateway.RequestEnds` | `node/crates/c0mpute-core/src/jobs_gateway.rs:314-396` | A refused allowlist is a bad request, a chosen worker that never reports a timeout, any other failed auction no service, and an award ends as it is delivered |
| `SpeechGateway.RunSpeechJob` | `node/crates/c0mpute-core/src/speech_gateway.rs:460-527` | At most three pairwise distinct workers are tried; returned bytes are verified; an error is the last worker's, or no worker at all |
| `SpeechGateway.TryOnceIsSound` | `node/crates/c0mpute-core/src/speech_gateway.rs:470-510` | An attempt never awards a worker that already failed, and delivers only a valid result that hashes to that worker's own receipt |
| `SpeechGateway.AwardEnds` | `node/crates/c0mpute-core/src/speech_gateway.rs:483-507` | An award is usable if and only if its receipt is of a completed job with an output that can be fetched within 20 seconds and is a valid result; otherwise the first of these reasons is the error |
| `SpeechGateway.TryOnceEnds` | `node/crates/c0mpute-core/src/speech_gateway.rs:470-527` | An attempt has no award exactly when the auction without the failed workers fails, delivers exactly when its award is usable, and is otherwise wasted on its winner |
| `SpeechGateway.TriedWorkersAreDistinct` | `node/crates/c0mpute-core/src/speech_gateway.rs:512-524` | Growing exclusions make the tried workers pairwise distinct |
| `Wire.JobTopicInjective` | `node/crates/c0mpute-net/src/topics.rs:19-21` | Workloads have distinct topics |

## Left out

- Liveness: that an open bid is still there when its accept arrives, or that a receipt ever does. The code
  drops a bid on any accept that does not match, so only safety is stated.
- Job ids: a buyer opens each auction under an id no correct buyer has used before. The code draws random
  UUIDs, whose collisions are not modelled; Agreement and OneWorkerPerJob rest on this. Ids are not kept
  from peers that do not run the code.
- No node-wide claim across workloads that share slots beyond running jobs: each workload checks the
  free slots for itself.
- DIDs, `spec_hash`, signatures inside receipts, and the accept-notify channel of the buyer: carried or
  reported, never checked by the modelled code.
- Message-type guessing by structural parsing: bodies are tagged. A payload that parses as two types is
  not modelled.
- Lagging receivers and gossip deduplication: a message is heard any number of times or not at all,
  which covers both.
- `private::install` while a node runs: a node's policy is fixed.
- Buyer timeouts are not events: an auction whose window never closes, or that hears no receipt, simply
  stays as it is.
- Buyers read the tie counter as an arbitrary number in `Protocol`; `Buyer.PickWinner` models it as the
  process-wide counter.
- Float rounding in prices, averages over `f32` loads, and `ln` in the benchmark bucket: exact reals and
  exact powers of 11/10.
- Load.WorkerLoad.RecordJob: does not model `u64` overflow of the weighted sum, which needs a job of
  more than 50 million years.
- FibKernel.FibParallel: does not model `u64` overflow; every intermediate sum is at most a final one,
  and the workloads use n <= 36.
- MatmulKernel.MatmulParallel: the inner product of one cell is one step, its write another of the same
  thread; the threads share nothing else.
- EventStream.Complete: chunks are cut at character boundaries; a chunk that ends inside a character is
  replaced lossily by the code and is outside the claim.
- GatewayUtil.FetchVerified: the clock advances only while a request or a pause lasts; requests are
  answered as a function of route and start time.
- GatewayUtil.ConstantTimeEq: states the result, not the running time.
- Durability: `nines`, expansion, repair amplification and the tables are one expression each.
- Pricing: `validate` and the public listing; amounts in the configuration are finite.
- Slot pools: the CPU capacity and the configured thread count are parameters; cgroup and CUDA discovery
  are not modelled.
- The registry of capability ads, the HTTP servers, sessions of warm workers, plugins, the CLI and the
  web pages.
- The benchmark's thread ladder and report: they would add easy members only.
