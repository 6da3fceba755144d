/**
 * What both bridges use: comparing secrets and fetching results (crates/c0mpute-core/src/gateway_util.rs).
 * Times are in milliseconds.
 */
module GatewayUtil {
  import opened Wrappers
  import opened Wire

  // ---- comparing secrets -----------------------------------------------

  function At(s: seq<Byte>, i: nat): Byte {
    if i < |s| then s[i] else 0
  }

  /** Exclusive or of two machine words, bit by bit from the lowest. */
  function Xor(x: nat, y: nat): nat
    decreases x, y
  {
    if x == 0 && y == 0 then 0 else 2 * Xor(x / 2, y / 2) + (if x % 2 == y % 2 then 0 else 1)
  }

  function Or(x: nat, y: nat): nat
    decreases x, y
  {
    if x == 0 && y == 0 then 0 else 2 * Or(x / 2, y / 2) + (if x % 2 == 0 && y % 2 == 0 then 0 else 1)
  }

  lemma {:induction false} XorIsZero(x: nat, y: nat)
    ensures Xor(x, y) == 0 <==> x == y
    decreases x, y
  {
    if x != 0 || y != 0 {
      XorIsZero(x / 2, y / 2);
      assert x == 2 * (x / 2) + x % 2 && y == 2 * (y / 2) + y % 2;
    }
  }

  lemma {:induction false} OrIsZero(x: nat, y: nat)
    ensures Or(x, y) == 0 <==> x == 0 && y == 0
    decreases x, y
  {
    if x != 0 || y != 0 {
      OrIsZero(x / 2, y / 2);
      assert x == 2 * (x / 2) + x % 2 && y == 2 * (y / 2) + y % 2;
    }
  }

  ghost predicate SamePrefix(a: seq<Byte>, b: seq<Byte>, n: nat) {
    |a| == |b| && forall k | 0 <= k < n :: At(a, k) == At(b, k)
  }

  lemma SamePrefixIsEqual(a: seq<Byte>, b: seq<Byte>, n: nat)
    requires n >= |a|
    ensures SamePrefix(a, b, n) <==> a == b
  {
    if SamePrefix(a, b, n) {
      assert forall k | 0 <= k < |a| :: a[k] == At(a, k) == At(b, k) == b[k];
    }
  }

  lemma NextByte(a: seq<Byte>, b: seq<Byte>, i: nat)
    ensures SamePrefix(a, b, i + 1) <==> SamePrefix(a, b, i) && Xor(At(a, i), At(b, i)) == 0
  {
    XorIsZero(At(a, i), At(b, i));
  }

  /** Reads both inputs to the end whatever they hold, padding the shorter with zeros. */
  method ConstantTimeEq(a: seq<Byte>, b: seq<Byte>) returns (equal: bool)
    ensures equal <==> a == b
  {
    var difference := Xor(|a|, |b|);
    XorIsZero(|a|, |b|);
    var longest: nat := Max(|a|, |b|);
    for i := 0 to longest
      invariant difference == 0 <==> SamePrefix(a, b, i)
    {
      NextByte(a, b, i);
      OrIsZero(difference, Xor(At(a, i), At(b, i)));
      difference := Or(difference, Xor(At(a, i), At(b, i)));
    }
    SamePrefixIsEqual(a, b, longest);
    equal := difference == 0;
  }

  // ---- fetching a worker's result --------------------------------------

  /** Reading a hash and a peer id, and hashing bytes. */
  datatype Codec<!H(==)> = Codec(fromHex: string -> Option<H>, of: seq<Byte> -> H, isPeer: string -> bool)

  datatype Route = FromPeer | FromDht

  /** What a request comes back with, and after how long. */
  datatype Answer = Answer(latency: nat, data: Option<seq<Byte>>)

  /** What a request got before it was given up, and when that was. */
  datatype Landing = Landing(at: nat, data: Option<seq<Byte>>)

  datatype FetchError = Invalid | TimedOut

  const DIRECT_PATIENCE := 3_000
  const DHT_PATIENCE := 12_000
  const RETRY_PATIENCE := 2_000
  const RETRY_PAUSE := 250

  /** The network seen from one fetch: the answer to a request on a route, started at a time. */
  type Net = (Route, nat) -> Answer

  function Request(net: Net, route: Route, start: nat, patience: nat, deadline: nat): (l: Landing)
    requires start <= deadline
    ensures start <= l.at <= deadline
  {
    var giveUp: nat := Min(start + patience, deadline);
    var answer := net(route, start);
    if start + answer.latency <= giveUp then Landing(start + answer.latency, answer.data) else Landing(giveUp, None)
  }

  /** Direct requests, a pause apart, until one delivers or the deadline has passed. */
  function Retries(net: Net, now: nat, deadline: nat): Landing
    decreases deadline - now
  {
    if now >= deadline then Landing(now, None) else
      var l := Request(net, FromPeer, now, RETRY_PATIENCE, deadline);
      if l.data.Some? then l else Retries(net, l.at + RETRY_PAUSE, deadline)
  }

  /** First the worker is asked, then the DHT, then the worker over and over; the first bytes to arrive count. */
  function Delivered(net: Net, budget: nat): Landing {
    var direct := Request(net, FromPeer, 0, DIRECT_PATIENCE, budget);
    if direct.data.Some? then direct else
      var dht := Request(net, FromDht, direct.at, DHT_PATIENCE, budget);
      if dht.data.Some? then dht else Retries(net, dht.at, budget)
  }

  function Validate<H(==)>(codec: Codec<H>, hash: H, maxBytes: nat, data: seq<Byte>): Result<seq<Byte>, FetchError> {
    if codec.of(data) == hash && |data| <= maxBytes then Ok(data) else Err(Invalid)
  }

  function Fetch<H(==)>(codec: Codec<H>, hash: string, provider: Peer, maxBytes: nat, budget: nat, net: Net)
    : Result<seq<Byte>, FetchError>
  {
    if codec.fromHex(hash).None? || !codec.isPeer(provider) then Err(Invalid)
    else if Delivered(net, budget).data.None? then Err(TimedOut)
    else Validate(codec, codec.fromHex(hash).value, maxBytes, Delivered(net, budget).data.value)
  }

  method FetchVerified<H(==)>(codec: Codec<H>, hash: string, provider: Peer, maxBytes: nat, budget: nat, net: Net)
    returns (result: Result<seq<Byte>, FetchError>, now: nat)
    ensures result == Fetch(codec, hash, provider, maxBytes, budget, net)
    ensures now <= budget + RETRY_PAUSE
  {
    now := 0;
    var expected := codec.fromHex(hash);
    if expected.None? { return Err(Invalid), now; }
    if !codec.isPeer(provider) { return Err(Invalid), now; }
    var landing := Request(net, FromPeer, now, DIRECT_PATIENCE, budget);
    now := landing.at;
    if landing.data.Some? { return Validate(codec, expected.value, maxBytes, landing.data.value), now; }
    landing := Request(net, FromDht, now, DHT_PATIENCE, budget);
    now := landing.at;
    if landing.data.Some? { return Validate(codec, expected.value, maxBytes, landing.data.value), now; }
    while now < budget
      invariant now <= budget + RETRY_PAUSE && Delivered(net, budget) == Retries(net, now, budget)
      decreases budget - now
    {
      landing := Request(net, FromPeer, now, RETRY_PATIENCE, budget);
      if landing.data.Some? { return Validate(codec, expected.value, maxBytes, landing.data.value), landing.at; }
      now := landing.at + RETRY_PAUSE;
    }
    result := Err(TimedOut);
  }

  /** Whatever route they came by, returned bytes hash to the receipt's hash and are within the size cap. */
  lemma FetchedIsVerified<H>(codec: Codec<H>, hash: string, provider: Peer, maxBytes: nat, budget: nat, net: Net)
    ensures var result := Fetch(codec, hash, provider, maxBytes, budget, net);
            && (result.Ok? ==> codec.fromHex(hash) == Some(codec.of(result.value)) && |result.value| <= maxBytes)
            && (result == Err(TimedOut) ==> Delivered(net, budget).data.None?)
  {
  }

  /**
   * How a fetch ends: with the bytes delivered if hash and provider can be read and the bytes have that hash and a
   * permitted size; timed out if they can be read and nothing was delivered; and as invalid in all other cases.
   */
  lemma FetchEnds<H>(codec: Codec<H>, hash: string, provider: Peer, maxBytes: nat, budget: nat, net: Net)
    ensures var result, data := Fetch(codec, hash, provider, maxBytes, budget, net), Delivered(net, budget).data;
            && (forall bytes :: result == Ok(bytes) <==>
                  && data == Some(bytes) && codec.isPeer(provider)
                  && codec.fromHex(hash) == Some(codec.of(bytes)) && |bytes| <= maxBytes)
            && (result == Err(TimedOut) <==> data.None? && codec.isPeer(provider) && codec.fromHex(hash).Some?)
  {
  }

  /**
   * The worker is heard if it delivers within 3 seconds; if it does not, the DHT is heard if it delivers within 12
   * seconds of when the worker was given up; all this inside the budget. What is delivered is what was answered.
   */
  lemma FirstAnswerCounts(net: Net, budget: nat)
    ensures var direct := net(FromPeer, 0);
            var inTime := direct.latency <= Min(3_000, budget);
            var left := Min(direct.latency, Min(3_000, budget));
            var dht := net(FromDht, left);
            && (inTime && direct.data.Some? ==> Delivered(net, budget) == Landing(direct.latency, direct.data))
            && (!(inTime && direct.data.Some?) && dht.data.Some? && dht.latency <= Min(12_000, budget - left) ==>
                  Delivered(net, budget) == Landing(left + dht.latency, dht.data))
  {
  }

  /** Nothing is delivered that the network did not answer, and nothing after the budget is spent. */
  lemma {:induction false} RetriesAreAnswers(net: Net, now: nat, deadline: nat)
    ensures var l := Retries(net, now, deadline);
            l.data.Some? ==> l.at <= deadline && exists start :: Brings(net, FromPeer, start, l)
    decreases deadline - now
  {
    if now < deadline {
      var l := Request(net, FromPeer, now, RETRY_PATIENCE, deadline);
      if l.data.Some? {
        assert Brings(net, FromPeer, now, l);
      } else {
        RetriesAreAnswers(net, l.at + RETRY_PAUSE, deadline);
      }
    }
  }

  /** A request on `route` from `start` lands as `l`. */
  predicate Brings(net: Net, route: Route, start: nat, l: Landing) {
    net(route, start).data == l.data && start + net(route, start).latency == l.at
  }

  lemma DeliveredWasAnswered(net: Net, budget: nat)
    ensures var l := Delivered(net, budget);
            l.data.Some? ==> l.at <= budget && exists route, start :: Brings(net, route, start, l)
  {
    var l := Delivered(net, budget);
    var direct := Request(net, FromPeer, 0, DIRECT_PATIENCE, budget);
    if direct.data.Some? {
      assert Brings(net, FromPeer, 0, l);
    } else {
      var dht := Request(net, FromDht, direct.at, DHT_PATIENCE, budget);
      if dht.data.Some? {
        assert Brings(net, FromDht, direct.at, l);
      } else {
        RetriesAreAnswers(net, dht.at, budget);
        if l.data.Some? { var start :| Brings(net, FromPeer, start, l); }
      }
    }
  }

  /** From `from` on, the worker answers direct requests, each within `latency`. */
  ghost predicate Reachable(net: Net, from: nat, latency: nat) {
    forall start: nat | start >= from :: Answers(net, start, latency)
  }

  predicate Answers(net: Net, start: nat, latency: nat) {
    net(FromPeer, start).latency <= latency && net(FromPeer, start).data.Some?
  }

  lemma {:induction false} RetriesReach(net: Net, from: nat, latency: nat, now: nat, deadline: nat)
    requires Reachable(net, from, latency) && latency <= RETRY_PATIENCE
    requires Max(now, from + RETRY_PATIENCE + RETRY_PAUSE) + latency < deadline
    ensures Retries(net, now, deadline).data.Some?
    decreases deadline - now
  {
    if now >= from {
      assert Answers(net, now, latency);
    } else {
      var l := Request(net, FromPeer, now, RETRY_PATIENCE, deadline);
      if l.data.None? { RetriesReach(net, from, latency, l.at + RETRY_PAUSE, deadline); }
    }
  }

  /**
   * A worker that becomes reachable early enough is reached: the retries leave no gap longer than one
   * request and one pause.
   */
  lemma ReachableWorkerDelivers(net: Net, from: nat, latency: nat, budget: nat)
    requires Reachable(net, from, latency) && latency <= 2_000
    requires Max(15_000, from + 2_250) + latency < budget
    ensures Delivered(net, budget).data.Some?
  {
    var direct := Request(net, FromPeer, 0, DIRECT_PATIENCE, budget);
    if direct.data.None? {
      var dht := Request(net, FromDht, direct.at, DHT_PATIENCE, budget);
      if dht.data.None? { RetriesReach(net, from, latency, dht.at, budget); }
    }
  }
}
