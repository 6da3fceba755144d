/**
 * The gossip messages of the job auction (crates/c0mpute-net/src/topics.rs).
 * A JSON payload is a tagged `Body`; a job spec is an opaque string.
 */
module Wire {
  import opened Wrappers
  import opened Floats

  type Peer = string
  type JobId = string
  type Spec = string
  type U32 = x: int | 0 <= x < 0x1_0000_0000

  const MAX_EXTERNAL_REF_LEN := 128

  datatype JobStatus = Completed | Failed | Timeout

  datatype JobOffer = JobOffer(
    jobId: JobId,
    workload: string,
    buyer: Peer,
    spec: Option<Spec>,
    requiredCapabilities: seq<string>,
    maxPrice: F64,
    deadlineMs: nat,
    publishedMs: nat,
    externalRef: Option<string>)

  datatype JobBid = JobBid(
    jobId: JobId,
    bidder: Peer,
    price: F64,
    etaSeconds: nat,
    publishedMs: nat,
    expiresMs: Option<nat>,
    benchScore: Option<U32>,
    load: Option<F64>)
  {
    /** A bid without an expiry never lapses; one with an expiry lapses at it. */
    predicate IsLive(now: nat) {
      expiresMs.None? || now < expiresMs.value
    }
  }

  datatype JobAccept = JobAccept(
    jobId: JobId,
    buyer: Peer,
    winner: Peer,
    price: F64,
    workload: string,
    spec: Option<Spec>,
    publishedMs: nat,
    externalRef: Option<string>)

  datatype JobReceipt = JobReceipt(
    jobId: JobId,
    worker: Peer,
    buyer: Peer,
    outputHash: Option<string>,
    status: JobStatus,
    completedMs: nat,
    externalRef: Option<string>)

  datatype Body =
    | OfferBody(offer: JobOffer)
    | BidBody(bid: JobBid)
    | AcceptBody(accept: JobAccept)
    | ReceiptBody(receipt: JobReceipt)

  /** A delivered message. `source` is the signed publisher; `body` is whatever it claimed. */
  datatype Gossip = Gossip(source: Option<Peer>, topic: string, body: Body)

  function JobTopic(workload: string): string {
    "c0mpute/jobs/" + workload
  }

  lemma JobTopicInjective(a: string, b: string)
    requires JobTopic(a) == JobTopic(b)
    ensures a == b
  {
    assert JobTopic(a)[13..] == a && JobTopic(b)[13..] == b;
  }

  /** Gossip vouches for a body's author only if the body names the publisher. */
  predicate SourceMatchesClaim(msg: Gossip, claimed: Peer) {
    msg.source == Some(claimed)
  }

  predicate ValidExternalRef(r: string) {
    0 < |r| <= MAX_EXTERNAL_REF_LEN && forall c | c in r :: '!' <= c <= '~'
  }
}
