/** The jobs bridge (crates/c0mpute-core/src/jobs_gateway.rs): who may serve a request, and what it returns. */
module JobsGateway {
  import opened Wrappers
  import opened Floats
  import opened Wire
  import opened GatewayUtil
  import Buyer

  const MAX_ALLOW_PEERS := 64
  const MAX_FETCH_BUDGET := 20_000

  datatype ApiError = BadRequest | Unavailable | GatewayTimeout | WorkerFailed

  /** A request may name its own workers, all of them out of the operator's list if there is one. */
  function EffectiveAllowPeers(global: seq<Peer>, requested: Option<seq<Peer>>, isPeer: string -> bool)
    : Result<seq<Peer>, ApiError>
  {
    var wanted := requested.GetOr([]);
    if |wanted| > MAX_ALLOW_PEERS then Err(BadRequest)
    else if exists p :: p in wanted && !isPeer(p) then Err(BadRequest)
    else if wanted == [] then Ok(global)
    else if global != [] && exists p :: p in wanted && p !in global then Err(BadRequest)
    else Ok(wanted)
  }

  /** A list the bridge accepts admits exactly who both lists admit; empty means everyone. */
  lemma RequestOnlyNarrows(global: seq<Peer>, requested: Option<seq<Peer>>, isPeer: string -> bool)
    ensures var result := EffectiveAllowPeers(global, requested, isPeer);
            var wanted := requested.GetOr([]);
            && (result.Ok? ==> forall p: Peer ::
                  Buyer.AllowedBy(result.value, p) <==> Buyer.AllowedBy(global, p) && Buyer.AllowedBy(wanted, p))
            && (result.Ok? <==> |wanted| <= 64
                                && forall p | p in wanted :: isPeer(p) && Buyer.AllowedBy(global, p))
  {
  }

  datatype Served = Served(jobId: JobId, worker: Peer, price: F64, outputHash: string, result: seq<Byte>)

  /** From an award to the verified result. */
  function Deliver<H(==)>(
    outcome: Buyer.Outcome, codec: Codec<H>, net: Net, maxBytes: nat, remaining: nat, isResult: seq<Byte> -> bool)
    : Result<Served, ApiError>
  {
    var receipt, worker := outcome.receipt, outcome.acceptedBid.bidder;
    if receipt.status != Completed || receipt.outputHash.None? then Err(WorkerFailed)
    else
      match Fetch(codec, receipt.outputHash.value, worker, maxBytes, Min(remaining, MAX_FETCH_BUDGET), net)
      case Err(Invalid) => Err(WorkerFailed)
      case Err(TimedOut) => Err(GatewayTimeout)
      case Ok(bytes) =>
        if !isResult(bytes) then Err(WorkerFailed)
        else Ok(Served(outcome.jobId, worker, outcome.acceptedBid.price, receipt.outputHash.value, bytes))
  }

  /** One request through the bridge, from its allowlist to the verified result. */
  function RunJob<H(==)>(
    us: Peer, req: Buyer.Request, global: seq<Peer>, requested: Option<seq<Peer>>, weather: Buyer.Weather, tick: nat,
    codec: Codec<H>, net: Net, maxBytes: nat, remaining: nat, isResult: seq<Byte> -> bool): Result<Served, ApiError>
  {
    match EffectiveAllowPeers(global, requested, codec.isPeer)
    case Err(e) => Err(e)
    case Ok(allowed) =>
      match Buyer.RunAuction(us, req.(allowed := allowed), weather, tick)
      case Err(NoReceipt) => Err(GatewayTimeout)
      case Err(_) => Err(Unavailable)
      case Ok(outcome) => Deliver(outcome, codec, net, maxBytes, remaining, isResult)
  }

  /** A served request went through every step. */
  lemma ServedSteps<H>(
    us: Peer, req: Buyer.Request, global: seq<Peer>, requested: Option<seq<Peer>>, weather: Buyer.Weather, tick: nat,
    codec: Codec<H>, net: Net, maxBytes: nat, remaining: nat, isResult: seq<Byte> -> bool)
    returns (allowed: seq<Peer>, outcome: Buyer.Outcome)
    requires RunJob(us, req, global, requested, weather, tick, codec, net, maxBytes, remaining, isResult).Ok?
    ensures EffectiveAllowPeers(global, requested, codec.isPeer) == Ok(allowed)
    ensures Buyer.RunAuction(us, req.(allowed := allowed), weather, tick) == Ok(outcome)
    ensures RunJob(us, req, global, requested, weather, tick, codec, net, maxBytes, remaining, isResult)
         == Deliver(outcome, codec, net, maxBytes, remaining, isResult)
  {
    allowed := EffectiveAllowPeers(global, requested, codec.isPeer).value;
    outcome := Buyer.RunAuction(us, req.(allowed := allowed), weather, tick).value;
  }

  lemma DeliveredIsVerified<H>(
    outcome: Buyer.Outcome, codec: Codec<H>, net: Net, maxBytes: nat, remaining: nat, isResult: seq<Byte> -> bool)
    ensures var result := Deliver(outcome, codec, net, maxBytes, remaining, isResult);
            result.Ok? ==>
              var s := result.value;
              && s.jobId == outcome.jobId && s.worker == outcome.acceptedBid.bidder
                && s.price == outcome.acceptedBid.price
              && outcome.receipt.status == Completed && outcome.receipt.outputHash == Some(s.outputHash)
              && codec.fromHex(s.outputHash) == Some(codec.of(s.result)) && |s.result| <= maxBytes && isResult(s.result)
  {
    if outcome.receipt.outputHash.Some? {
      FetchedIsVerified(codec, outcome.receipt.outputHash.value, outcome.acceptedBid.bidder, maxBytes,
                        Min(remaining, MAX_FETCH_BUDGET), net);
    }
  }

  /**
   * How an award ends: served exactly when the receipt is of a completed job with an output, the output can be
   * fetched within what is left of the request's time and 20 seconds, and it is a result. A fetch that timed out is a
   * timeout, all else the worker's failure.
   */
  lemma DeliverEnds<H>(
    outcome: Buyer.Outcome, codec: Codec<H>, net: Net, maxBytes: nat, remaining: nat, isResult: seq<Byte> -> bool)
    ensures var result := Deliver(outcome, codec, net, maxBytes, remaining, isResult);
            var reported := outcome.receipt.status == Completed && outcome.receipt.outputHash.Some?;
            var hash, worker := outcome.receipt.outputHash.GetOr(""), outcome.acceptedBid.bidder;
            var fetched := Fetch(codec, hash, worker, maxBytes, if remaining < 20_000 then remaining else 20_000, net);
            && (result.Ok? <==> reported && fetched.Ok? && isResult(fetched.value))
            && (result.Ok? ==>
                  result.value == Served(outcome.jobId, worker, outcome.acceptedBid.price, hash, fetched.value))
            && (result.Err? ==>
                  result.error == if reported && fetched == Err(TimedOut) then GatewayTimeout else WorkerFailed)
  {
  }

  /**
   * How a request ends: a refused allowlist is a bad request, a failed auction a timeout if a worker was chosen and
   * never reported and no service otherwise; and an award ends as it is delivered.
   */
  lemma RequestEnds<H>(
    us: Peer, req: Buyer.Request, global: seq<Peer>, requested: Option<seq<Peer>>, weather: Buyer.Weather, tick: nat,
    codec: Codec<H>, net: Net, maxBytes: nat, remaining: nat, isResult: seq<Byte> -> bool)
    ensures var result := RunJob(us, req, global, requested, weather, tick, codec, net, maxBytes, remaining, isResult);
            var allowed := EffectiveAllowPeers(global, requested, codec.isPeer);
            && (allowed.Err? ==> result == Err(BadRequest))
            && (allowed.Ok? ==>
                  var auction := Buyer.RunAuction(us, req.(allowed := allowed.value), weather, tick);
                  && (auction.Err? ==>
                        result == Err(if auction.error == Buyer.NoReceipt then GatewayTimeout else Unavailable))
                  && (auction.Ok? ==>
                        result == Deliver(auction.value, codec, net, maxBytes, remaining, isResult)))
  {
  }

  /** What the bridge serves was awarded inside the operator's allowlist and the request's, and inside the price cap. */
  lemma ServedIsAllowed<H>(
    us: Peer, req: Buyer.Request, global: seq<Peer>, requested: Option<seq<Peer>>, weather: Buyer.Weather, tick: nat,
    codec: Codec<H>, net: Net, maxBytes: nat, remaining: nat, isResult: seq<Byte> -> bool)
    ensures var result := RunJob(us, req, global, requested, weather, tick, codec, net, maxBytes, remaining, isResult);
            result.Ok? ==>
              && Buyer.AllowedBy(global, result.value.worker)
                && Buyer.AllowedBy(requested.GetOr([]), result.value.worker)
              && result.value.worker !in req.excluded && Buyer.PriceInCap(result.value.price, req.maxPrice)
  {
    if RunJob(us, req, global, requested, weather, tick, codec, net, maxBytes, remaining, isResult).Ok? {
      var allowed, outcome :=
        ServedSteps(us, req, global, requested, weather, tick, codec, net, maxBytes, remaining, isResult);
      DeliveredIsVerified(outcome, codec, net, maxBytes, remaining, isResult);
      RequestOnlyNarrows(global, requested, codec.isPeer);
      Buyer.WinnerPassedEveryFilter(us, req.(allowed := allowed), weather, tick);
    }
  }

  /** And its bytes hash to the output hash in a completed receipt that the winner itself published. */
  lemma ServedIsVerified<H>(
    us: Peer, req: Buyer.Request, global: seq<Peer>, requested: Option<seq<Peer>>, weather: Buyer.Weather, tick: nat,
    codec: Codec<H>, net: Net, maxBytes: nat, remaining: nat, isResult: seq<Byte> -> bool)
    ensures var result := RunJob(us, req, global, requested, weather, tick, codec, net, maxBytes, remaining, isResult);
            result.Ok? ==>
              var s := result.value;
              && codec.fromHex(s.outputHash) == Some(codec.of(s.result)) && |s.result| <= maxBytes && isResult(s.result)
              && exists m, receipt :: m in weather.receiptWindow && m.source == Some(s.worker)
                   && m.body == ReceiptBody(receipt) && receipt.jobId == s.jobId == weather.jobId
                   && receipt.status == Completed && receipt.outputHash == Some(s.outputHash)
  {
    if RunJob(us, req, global, requested, weather, tick, codec, net, maxBytes, remaining, isResult).Ok? {
      var allowed, outcome :=
        ServedSteps(us, req, global, requested, weather, tick, codec, net, maxBytes, remaining, isResult);
      DeliveredIsVerified(outcome, codec, net, maxBytes, remaining, isResult);
      Buyer.WinnerPassedEveryFilter(us, req.(allowed := allowed), weather, tick);
    }
  }
}
