/** The speech bridge (crates/c0mpute-core/src/speech_gateway.rs): one job, up to three workers. */
module SpeechGateway {
  import opened Wrappers
  import opened Wire
  import opened GatewayUtil
  import Buyer

  const MAX_SPEECH_WORKER_ATTEMPTS := 3
  const FETCH_BUDGET := 20_000

  datatype SpeechError = NoWorker | JobFailed | NoResult | InvalidResult | BadFetch | FetchTimedOut

  const RIFF: seq<Byte> := [0x52, 0x49, 0x46, 0x46]
  const WAVE: seq<Byte> := [0x57, 0x41, 0x56, 0x45]

  /** What a result must look like; `isObject` reads JSON. */
  predicate ValidSpeechResult(workload: string, bytes: seq<Byte>, isObject: seq<Byte> -> bool) {
    if workload == "tts.synthesize" then |bytes| >= 44 && bytes[..4] == RIFF && bytes[8..12] == WAVE
    else if workload == "stt.transcribe" then isObject(bytes)
    else true
  }

  /** The parts of a speech job that stay the same over its attempts. */
  datatype Job<!H(==)> = Job(
    us: Peer, request: Buyer.Request, codec: Codec<H>, maxBytes: nat, isObject: seq<Byte> -> bool)
  {
    /** The auction of an attempt leaves out the workers that already failed. */
    function Excluding(workers: seq<Peer>): Buyer.Request {
      request.(excluded := workers)
    }
  }

  /** What one attempt meets: the auction's messages and clocks, and the network of the fetch. */
  datatype Luck = Luck(weather: Buyer.Weather, net: Net)

  function FetchResult<H(==)>(job: Job<H>, hash: string, worker: Peer, net: Net): Result<seq<Byte>, SpeechError> {
    match Fetch(job.codec, hash, worker, job.maxBytes, FETCH_BUDGET, net)
    case Ok(bytes) => Ok(bytes)
    case Err(Invalid) => Err(BadFetch)
    case Err(TimedOut) => Err(FetchTimedOut)
  }

  /** Whether an award ends in usable bytes. */
  function Usable<H(==)>(job: Job<H>, outcome: Buyer.Outcome, net: Net): Result<seq<Byte>, SpeechError> {
    var receipt := outcome.receipt;
    if receipt.status != Completed then Err(JobFailed)
    else if receipt.outputHash.None? then Err(NoResult)
    else
      match FetchResult(job, receipt.outputHash.value, outcome.acceptedBid.bidder, net)
      case Err(e) => Err(e)
      case Ok(bytes) => if ValidSpeechResult(job.request.workload, bytes, job.isObject) then Ok(bytes)
        else Err(InvalidResult)
  }

  /** How one attempt ends: no award, an award that came to nothing, or usable bytes. */
  datatype Attempt = NoAward | Wasted(worker: Peer, error: SpeechError)
      | Delivered(outcome: Buyer.Outcome, bytes: seq<Byte>)

  /** One attempt with the workers `before` left out; `tick` is the tie counter it finds. */
  function TryOnce<H(==)>(job: Job<H>, luck: Luck, before: seq<Peer>, tick: nat): Attempt {
    match Buyer.RunAuction(job.us, job.Excluding(before), luck.weather, tick)
    case Err(_) => NoAward
    case Ok(outcome) =>
      match Usable(job, outcome, luck.net)
      case Ok(bytes) => Attempt.Delivered(outcome, bytes)
      case Err(e) => Wasted(outcome.acceptedBid.bidder, e)
  }

  /** A receipt that was delivered in this window, published by its own worker. */
  ghost predicate PublishedBy(window: seq<Gossip>, worker: Peer, receipt: JobReceipt) {
    exists m :: m in window && m.source == Some(worker) && m.body == ReceiptBody(receipt)
  }

  /**
   * What a caller may rely on: the bytes come from a worker that had not failed this job before, under
   * the bid ceiling; they are a valid result, and hash to the output hash in a completed receipt that
   * this worker published.
   */
  ghost predicate Verified<H>(job: Job<H>, luck: Luck, before: seq<Peer>, outcome: Buyer.Outcome, bytes: seq<Byte>) {
    var worker, receipt := outcome.acceptedBid.bidder, outcome.receipt;
    && worker !in before && Buyer.PriceInCap(outcome.acceptedBid.price, job.request.maxPrice)
    && receipt.status == Completed && receipt.outputHash.Some?
    && job.codec.fromHex(receipt.outputHash.value) == Some(job.codec.of(bytes)) && |bytes| <= job.maxBytes
    && ValidSpeechResult(job.request.workload, bytes, job.isObject)
    && PublishedBy(luck.weather.receiptWindow, worker, receipt)
  }

  /** A worker that is left out is not awarded again, and what is delivered is verified. */
  lemma TryOnceIsSound<H>(job: Job<H>, luck: Luck, before: seq<Peer>, tick: nat)
    ensures var attempt := TryOnce(job, luck, before, tick);
            && (attempt.Wasted? ==> attempt.worker !in before)
            && (attempt.Delivered? ==> Verified(job, luck, before, attempt.outcome, attempt.bytes))
  {
    WinnerIsNew(job, luck, before, tick);
    var auction := Buyer.RunAuction(job.us, job.Excluding(before), luck.weather, tick);
    if auction.Ok? { UsableIsVerified(job, auction.value, luck.net); }
  }

  /** Speech is a RIFF/WAVE file of 44 bytes or more, a transcript a JSON object; other results are not looked at. */
  lemma ValidResults(workload: string, bytes: seq<Byte>, isObject: seq<Byte> -> bool)
    ensures workload == "tts.synthesize" ==>
              (ValidSpeechResult(workload, bytes, isObject) <==>
                 && |bytes| >= 44
                 && bytes[0] == 0x52 && bytes[1] == 0x49 && bytes[2] == 0x46 && bytes[3] == 0x46
                 && bytes[8] == 0x57 && bytes[9] == 0x41 && bytes[10] == 0x56 && bytes[11] == 0x45)
    ensures workload == "stt.transcribe" ==> (ValidSpeechResult(workload, bytes, isObject) <==> isObject(bytes))
    ensures workload != "tts.synthesize" && workload != "stt.transcribe" ==>
              ValidSpeechResult(workload, bytes, isObject)
  {
    if |bytes| >= 44 {
      var head, mark := bytes[..4], bytes[8..12];
      assert head == RIFF <==> head[0] == 0x52 && head[1] == 0x49 && head[2] == 0x46 && head[3] == 0x46;
      assert mark == WAVE <==> mark[0] == 0x57 && mark[1] == 0x41 && mark[2] == 0x56 && mark[3] == 0x45;
    }
  }

  /**
   * How an award ends: in the bytes exactly when its receipt is of a completed job and names an output, which can be
   * fetched within 20 seconds and is a valid result; otherwise for the first of the reasons that holds.
   */
  lemma AwardEnds<H>(job: Job<H>, outcome: Buyer.Outcome, net: Net)
    ensures var usable, receipt := Usable(job, outcome, net), outcome.receipt;
            var hash, worker := receipt.outputHash.GetOr(""), outcome.acceptedBid.bidder;
            var fetched := Fetch(job.codec, hash, worker, job.maxBytes, 20_000, net);
            if receipt.status != Completed then usable == Err(JobFailed)
            else if receipt.outputHash.None? then usable == Err(NoResult)
            else if fetched == Err(TimedOut) then usable == Err(FetchTimedOut)
            else if fetched == Err(Invalid) then usable == Err(BadFetch)
            else usable == if ValidSpeechResult(job.request.workload, fetched.value, job.isObject)
                           then Ok(fetched.value) else Err(InvalidResult)
  {
  }

  /**
   * How an attempt ends: without an award exactly when the auction fails that leaves out the failed workers and them
   * alone; with the bytes exactly when it succeeds and its award ends in them; and otherwise wasted on its winner.
   */
  lemma TryOnceEnds<H>(job: Job<H>, luck: Luck, before: seq<Peer>, tick: nat)
    ensures var attempt := TryOnce(job, luck, before, tick);
            var auction := Buyer.RunAuction(job.us, job.request.(excluded := before), luck.weather, tick);
            && (attempt.NoAward? <==> auction.Err?)
            && (auction.Ok? ==>
                  var usable := Usable(job, auction.value, luck.net);
                  attempt == if usable.Ok? then Attempt.Delivered(auction.value, usable.value)
                             else Wasted(auction.value.acceptedBid.bidder, usable.error))
  {
  }

  lemma WinnerIsNew<H>(job: Job<H>, luck: Luck, before: seq<Peer>, tick: nat)
    ensures var auction := Buyer.RunAuction(job.us, job.Excluding(before), luck.weather, tick);
            auction.Ok? ==>
              var worker := auction.value.acceptedBid.bidder;
              && worker !in before && Buyer.PriceInCap(auction.value.acceptedBid.price, job.request.maxPrice)
              && PublishedBy(luck.weather.receiptWindow, worker, auction.value.receipt)
  {
    Buyer.WinnerPassedEveryFilter(job.us, job.Excluding(before), luck.weather, tick);
  }

  lemma UsableIsVerified<H>(job: Job<H>, outcome: Buyer.Outcome, net: Net)
    ensures var result := Usable(job, outcome, net);
            result.Ok? ==>
              && outcome.receipt.status == Completed && outcome.receipt.outputHash.Some?
              && job.codec.fromHex(outcome.receipt.outputHash.value) == Some(job.codec.of(result.value))
              && |result.value| <= job.maxBytes
              && ValidSpeechResult(job.request.workload, result.value, job.isObject)
  {
  }

  /** One attempt that ended without usable bytes, and the tie counter it found. */
  datatype Try = Try(worker: Peer, tick: nat, error: SpeechError)

  function WorkersOf(tries: seq<Try>): (workers: seq<Peer>)
    ensures |workers| == |tries|
  {
    if tries == [] then [] else WorkersOf(tries[..|tries| - 1]) + [tries[|tries| - 1].worker]
  }

  /** Attempt after attempt failed, each leaving out the workers of the ones before. */
  predicate AllFailed<H(==)>(job: Job<H>, luck: seq<Luck>, tries: seq<Try>)
    requires |tries| <= |luck|
  {
    tries == [] ||
    var front, last := tries[..|tries| - 1], tries[|tries| - 1];
    AllFailed(job, luck, front) && TryOnce(job, luck[|front|], WorkersOf(front), last.tick)
        == Wasted(last.worker, last.error)
  }

  ghost predicate Distinct(workers: seq<Peer>) {
    forall i, j | 0 <= i < j < |workers| :: workers[i] != workers[j]
  }

  /** So no worker is tried twice. */
  lemma {:induction false} TriedWorkersAreDistinct<H>(job: Job<H>, luck: seq<Luck>, tries: seq<Try>)
    requires |tries| <= |luck| && AllFailed(job, luck, tries)
    ensures Distinct(WorkersOf(tries))
  {
    if tries != [] {
      var front := tries[..|tries| - 1];
      TriedWorkersAreDistinct(job, luck, front);
      TryOnceIsSound(job, luck[|front|], WorkersOf(front), tries[|front|].tick);
    }
  }

  function LastError(tries: seq<Try>): SpeechError {
    if tries == [] then NoWorker else tries[|tries| - 1].error
  }

  /** Runs the job on one worker after another; `luck[i]` is what attempt `i` meets. */
  method RunSpeechJob<H(==)>(job: Job<H>, luck: seq<Luck>, counter: Buyer.TieCounter)
    returns (result: Result<(Buyer.Outcome, seq<Byte>), SpeechError>, tries: seq<Try>)
    requires |luck| == MAX_SPEECH_WORKER_ATTEMPTS
    modifies counter
    ensures |tries| <= 3 && AllFailed(job, luck, tries) && Distinct(WorkersOf(tries))
    ensures result.Ok? ==>
              && |tries| < 3
              && Verified(job, luck[|tries|], WorkersOf(tries), result.value.0, result.value.1)
              && exists tick :: TryOnce(job, luck[|tries|], WorkersOf(tries), tick)
                                == Attempt.Delivered(result.value.0, result.value.1)
    ensures result.Err? ==> result.error == LastError(tries)
    ensures result.Err? && |tries| < 3 ==>
              exists tick :: TryOnce(job, luck[|tries|], WorkersOf(tries), tick) == NoAward
  {
    var excluded: seq<Peer> := [];
    var lastError: Option<SpeechError> := None;
    tries := [];
    for attempt := 0 to MAX_SPEECH_WORKER_ATTEMPTS
      invariant |tries| == attempt && excluded == WorkersOf(tries) && AllFailed(job, luck, tries)
      invariant lastError == if tries == [] then None else Some(LastError(tries))
    {
      TriedWorkersAreDistinct(job, luck, tries);
      var tick := counter.next;
      TryOnceIsSound(job, luck[attempt], excluded, tick);
      var auction := Buyer.Auction(job.us, job.Excluding(excluded), luck[attempt].weather, counter);
      if auction.Err? {
        assert TryOnce(job, luck[attempt], WorkersOf(tries), tick) == NoAward;
        return Err(lastError.GetOr(NoWorker)), tries;
      }
      var usable := Usable(job, auction.value, luck[attempt].net);
      if usable.Ok? {
        assert TryOnce(job, luck[attempt], WorkersOf(tries), tick) == Attempt.Delivered(auction.value, usable.value);
        return Ok((auction.value, usable.value)), tries;
      }
      var failed := Try(auction.value.acceptedBid.bidder, tick, usable.error);
      assert (tries + [failed])[..attempt] == tries;
      excluded := excluded + [failed.worker];
      lastError := Some(usable.error);
      tries := tries + [failed];
    }
    TriedWorkersAreDistinct(job, luck, tries);
    result := Err(lastError.GetOr(NoWorker));
  }
}
