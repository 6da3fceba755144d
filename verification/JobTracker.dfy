/**
 * The status aggregator's view of the auction (crates/c0mpute-core/src/status_aggregator.rs): jobs
 * in flight and recent completions, followed from the accepts and receipts it overhears.
 */
module JobTracker {
  import opened Wrappers
  import opened Wire

  const MAX_IN_FLIGHT_AGE := 3_600_000
  const COMPLETED_WINDOW := 86_400_000

  datatype InFlight = InFlight(workload: string, acceptedMs: nat)

  datatype Completion = Completion(workload: string, completedMs: nat, latencyMs: Option<nat>)

  function Since(now: nat, time: nat): nat {
    Max(now - time, 0)
  }

  class JobState {
    var inFlight: map<JobId, InFlight>
    var completed: seq<Completion>

    constructor ()
      ensures inFlight == map[] && completed == []
    {
      inFlight, completed := map[], [];
    }

    method OnAccept(a: JobAccept)
      modifies this`inFlight
      ensures inFlight == Accepted(old(inFlight), a)
    {
      inFlight := inFlight[a.jobId := InFlight(a.workload, a.publishedMs)];
    }

    method OnReceipt(r: JobReceipt)
      modifies this
      ensures inFlight == old(inFlight) - {r.jobId}
      ensures completed == old(completed) + Counted(old(inFlight), r)
    {
      var started := if r.jobId in inFlight then Some(inFlight[r.jobId]) else None;
      inFlight := inFlight - {r.jobId};
      if r.status != JobStatus.Completed { return; }
      var latency := if started.Some? && r.completedMs >= started.value.acceptedMs
                     then Some(r.completedMs - started.value.acceptedMs) else None;
      var workload := if started.Some? then started.value.workload else "unknown";
      completed := completed + [Completion(workload, r.completedMs, latency)];
    }

    /** Drops stale jobs, and completions from the front for as long as they are outside the window. */
    method Evict(now: nat)
      modifies this
      ensures inFlight == Recent(old(inFlight), now)
      ensures completed == WithoutStaleFront(old(completed), Since(now, COMPLETED_WINDOW))
    {
      inFlight := map id | id in inFlight && Since(now, inFlight[id].acceptedMs) <= MAX_IN_FLIGHT_AGE :: inFlight[id];
      var cutoff := Since(now, COMPLETED_WINDOW);
      while completed != [] && completed[0].completedMs < cutoff
        invariant WithoutStaleFront(completed, cutoff) == WithoutStaleFront(old(completed), cutoff)
        invariant inFlight == Recent(old(inFlight), now)
        decreases |completed|
      {
        completed := completed[1..];
      }
    }
  }

  function Accepted(jobs: map<JobId, InFlight>, a: JobAccept): map<JobId, InFlight> {
    jobs[a.jobId := InFlight(a.workload, a.publishedMs)]
  }

  /** What a receipt adds to the tally: nothing unless the job completed. */
  function Counted(jobs: map<JobId, InFlight>, r: JobReceipt): seq<Completion> {
    if r.status != JobStatus.Completed then []
    else if r.jobId !in jobs then [Completion("unknown", r.completedMs, None)]
    else
      var started := jobs[r.jobId];
      var latency := if r.completedMs < started.acceptedMs then None else Some(r.completedMs - started.acceptedMs);
      [Completion(started.workload, r.completedMs, latency)]
  }

  function Recent(jobs: map<JobId, InFlight>, now: nat): map<JobId, InFlight> {
    map id | id in jobs && Since(now, jobs[id].acceptedMs) <= MAX_IN_FLIGHT_AGE :: jobs[id]
  }

  function WithoutStaleFront(completed: seq<Completion>, cutoff: nat): seq<Completion> {
    if completed != [] && completed[0].completedMs < cutoff then WithoutStaleFront(completed[1..], cutoff)
      else completed
  }

  // ---- histories -------------------------------------------------------

  datatype Event = AcceptHeard(accept: JobAccept) | ReceiptHeard(receipt: JobReceipt) | EvictionAt(now: nat)

  /** The jobs in flight after a history of calls. */
  function Tracked(history: seq<Event>): map<JobId, InFlight> {
    if history == [] then map[] else
      var before := Tracked(history[..|history| - 1]);
      match history[|history| - 1]
      case AcceptHeard(a) => Accepted(before, a)
      case ReceiptHeard(r) => before - {r.jobId}
      case EvictionAt(now) => Recent(before, now)
  }

  /** This event leaves a job accepted at `acceptedMs` as it is. */
  predicate Leaves(e: Event, id: JobId, acceptedMs: nat) {
    match e
    case AcceptHeard(a) => a.jobId != id
    case ReceiptHeard(r) => r.jobId != id
    case EvictionAt(now) => now - acceptedMs <= 3_600_000
  }

  /** The `i`th call was an accept of this job, and nothing since has replaced, finished or aged it. */
  predicate OpenSince(history: seq<Event>, id: JobId, i: nat) {
    && i < |history| && history[i].AcceptHeard? && history[i].accept.jobId == id
    && forall j | i < j < |history| :: Leaves(history[j], id, history[i].accept.publishedMs)
  }

  lemma OpenSinceFront(history: seq<Event>, id: JobId, i: nat)
    requires history != [] && i < |history| - 1
    ensures OpenSince(history, id, i) <==>
              && OpenSince(history[..|history| - 1], id, i)
              && Leaves(history[|history| - 1], id, history[i].accept.publishedMs)
  {
    var front := history[..|history| - 1];
    if OpenSince(front, id, i) && Leaves(history[|history| - 1], id, history[i].accept.publishedMs) {
      forall j | i < j < |history|
        ensures Leaves(history[j], id, history[i].accept.publishedMs)
      {
        assert j < |front| ==> front[j] == history[j];
      }
    }
    if OpenSince(history, id, i) {
      assert forall j | i < j < |front| :: front[j] == history[j];
    }
  }

  /**
   * A job is in flight exactly when some accept of it is still open, and what is kept is that accept's.
   */
  lemma {:induction false} InFlightIsTheHistory(history: seq<Event>, id: JobId)
    ensures id in Tracked(history) <==> exists i: nat :: OpenSince(history, id, i)
    ensures forall i: nat | OpenSince(history, id, i) :: id in Tracked(history)
              && Tracked(history)[id] == InFlight(history[i].accept.workload, history[i].accept.publishedMs)
  {
    if history != [] {
      var front, e := history[..|history| - 1], history[|history| - 1];
      InFlightIsTheHistory(front, id);
      forall i: nat | i < |front|
        ensures OpenSince(history, id, i) <==> OpenSince(front, id, i) && Leaves(e, id, history[i].accept.publishedMs)
      {
        OpenSinceFront(history, id, i);
      }
      if e.AcceptHeard? && e.accept.jobId == id {
        assert OpenSince(history, id, |front|);
      } else if id in Tracked(history) {
        var i: nat :| OpenSince(front, id, i);
        assert OpenSince(history, id, i);
      }
    }
  }

  /** The completions in the tally after a history of calls. */
  function Tallied(history: seq<Event>): seq<Completion> {
    if history == [] then [] else
      var front := history[..|history| - 1];
      match history[|history| - 1]
      case AcceptHeard(_) => Tallied(front)
      case ReceiptHeard(r) => Tallied(front) + Counted(Tracked(front), r)
      case EvictionAt(now) => WithoutStaleFront(Tallied(front), Since(now, COMPLETED_WINDOW))
  }

  /**
   * `c` is what the `i`th call, a receipt of a completed job, has to say: when it was completed and, if an accept of
   * it stood open, its workload and the time since, as long as that is not negative.
   */
  ghost predicate CountedAt(history: seq<Event>, i: nat, c: Completion) {
    && i < |history| && history[i].ReceiptHeard? && history[i].receipt.status == Completed
    && var r := history[i].receipt;
       && c.completedMs == r.completedMs
       && (forall j: nat | OpenSince(history[..i], r.jobId, j) ::
             var a := history[j].accept;
             && c.workload == a.workload
             && c.latencyMs == if a.publishedMs <= r.completedMs then Some(r.completedMs - a.publishedMs) else None)
       && ((forall j: nat :: !OpenSince(history[..i], r.jobId, j)) ==> c.workload == "unknown" && c.latencyMs == None)
  }

  lemma CountedOnArrival(front: seq<Event>, r: JobReceipt, c: Completion)
    requires r.status == Completed
    ensures [c] == Counted(Tracked(front), r) ==> CountedAt(front + [ReceiptHeard(r)], |front|, c)
    ensures |Counted(Tracked(front), r)| == 1
  {
    InFlightIsTheHistory(front, r.jobId);
    var history := front + [ReceiptHeard(r)];
    assert history[..|front|] == front;
    assert forall j: nat | j < |front| :: history[j] == front[j];
  }

  lemma CountedBefore(front: seq<Event>, e: Event, i: nat, c: Completion)
    requires CountedAt(front, i, c)
    ensures CountedAt(front + [e], i, c)
  {
    assert (front + [e])[..i] == front[..i];
    assert forall j: nat | j < |front| :: (front + [e])[j] == front[j];
  }

  /**
   * Every completion in the tally was counted at a receipt of a completed job. A receipt adds one entry if its job
   * was completed and none if it failed, in the order they come in; eviction keeps those of the last
   * day, and one older than that at the front goes.
   */
  lemma {:induction false} TallyIsTheHistory(history: seq<Event>)
    ensures forall c | c in Tallied(history) :: exists i :: CountedAt(history, i, c)
    ensures forall r :: AddsOne(history, r)
    ensures forall now: nat, c | c in Tallied(history) && now - c.completedMs <= 86_400_000 ::
              c in Tallied(history + [EvictionAt(now)])
    ensures forall now: nat :: FrontIsRecent(Tallied(history + [EvictionAt(now)]), now)
  {
    if history != [] {
      var front, e := history[..|history| - 1], history[|history| - 1];
      assert history == front + [e];
      TallyIsTheHistory(front);
      forall c | c in Tallied(history) ensures exists i :: CountedAt(history, i, c) {
        NextTally(front, e, c);
      }
    }
    forall r ensures AddsOne(history, r) {
      ReceiptAddsOne(history, r);
    }
    forall now: nat, c | c in Tallied(history) && now - c.completedMs <= 86_400_000
      ensures c in Tallied(history + [EvictionAt(now)])
    {
      RecentStays(history, now, c);
    }
    forall now: nat ensures FrontIsRecent(Tallied(history + [EvictionAt(now)]), now) {
      OldFrontGoes(history, now);
    }
  }

  predicate FrontIsRecent(completed: seq<Completion>, now: nat) {
    completed != [] ==> now - completed[0].completedMs <= 86_400_000
  }

  lemma OldFrontGoes(history: seq<Event>, now: nat)
    ensures FrontIsRecent(Tallied(history + [EvictionAt(now)]), now)
  {
    assert (history + [EvictionAt(now)])[..|history|] == history;
    FrontIsFresh(Tallied(history), Since(now, COMPLETED_WINDOW));
  }

  lemma {:induction false} FrontIsFresh(completed: seq<Completion>, cutoff: nat)
    ensures var kept := WithoutStaleFront(completed, cutoff); kept != [] ==> kept[0].completedMs >= cutoff
  {
    if completed != [] && completed[0].completedMs < cutoff { FrontIsFresh(completed[1..], cutoff); }
  }

  /** A receipt adds one entry at the end if its job was completed, and none otherwise. */
  predicate AddsOne(history: seq<Event>, r: JobReceipt) {
    && Tallied(history) <= Tallied(history + [ReceiptHeard(r)])
    && |Tallied(history + [ReceiptHeard(r)])| == |Tallied(history)| + (if r.status == Completed then 1 else 0)
  }

  lemma ReceiptAddsOne(history: seq<Event>, r: JobReceipt)
    ensures AddsOne(history, r)
  {
    assert (history + [ReceiptHeard(r)])[..|history|] == history;
  }

  lemma RecentStays(history: seq<Event>, now: nat, c: Completion)
    requires c in Tallied(history) && now - c.completedMs <= 86_400_000
    ensures c in Tallied(history + [EvictionAt(now)])
  {
    assert (history + [EvictionAt(now)])[..|history|] == history;
    var cutoff := Since(now, COMPLETED_WINDOW);
    var n := EvictionDropsStale(Tallied(history), cutoff);
    var i :| 0 <= i < |Tallied(history)| && Tallied(history)[i] == c;
    assert i >= n && Tallied(history)[n..][i - n] == c;
  }

  lemma NextTally(front: seq<Event>, e: Event, c: Completion)
    requires forall d | d in Tallied(front) :: exists i :: CountedAt(front, i, d)
    requires c in Tallied(front + [e])
    ensures exists i :: CountedAt(front + [e], i, c)
  {
    assert (front + [e])[..|front|] == front;
    if e.EvictionAt? { var n := EvictionDropsStale(Tallied(front), Since(e.now, COMPLETED_WINDOW)); }
    if c in Tallied(front) {
      var i :| CountedAt(front, i, c);
      CountedBefore(front, e, i, c);
    } else {
      CountedOnArrival(front, e.receipt, c);
      assert CountedAt(front + [e], |front|, c);
    }
  }

  // ---- the completion window -------------------------------------------

  /** Every stale completion arrived before every fresh one. */
  predicate StaleFirst(completed: seq<Completion>, cutoff: nat) {
    forall i, j | 0 <= i < j < |completed| && completed[j].completedMs < cutoff :: completed[i].completedMs < cutoff
  }

  predicate AllFresh(completed: seq<Completion>, cutoff: nat) {
    forall i | 0 <= i < |completed| :: completed[i].completedMs >= cutoff
  }

  /** Eviction drops a prefix, and only stale completions. */
  lemma {:induction false} EvictionDropsStale(completed: seq<Completion>, cutoff: nat) returns (n: nat)
    ensures n <= |completed| && WithoutStaleFront(completed, cutoff) == completed[n..]
    ensures forall i | 0 <= i < n :: completed[i].completedMs < cutoff
  {
    if completed != [] && completed[0].completedMs < cutoff {
      n := EvictionDropsStale(completed[1..], cutoff);
      n := n + 1;
      assert forall i | 0 < i < n :: completed[i] == completed[1..][i - 1];
    } else {
      n := 0;
    }
  }

  lemma {:induction false} EvictionLeavesNoStaleWhen(completed: seq<Completion>, cutoff: nat)
    ensures AllFresh(WithoutStaleFront(completed, cutoff), cutoff) <==> StaleFirst(completed, cutoff)
  {
    if completed != [] && completed[0].completedMs < cutoff {
      EvictionLeavesNoStaleWhen(completed[1..], cutoff);
      StaleFirstTail(completed, cutoff);
    } else if completed != [] {
      FreshFirst(completed, cutoff);
    }
  }

  lemma FreshFirst(completed: seq<Completion>, cutoff: nat)
    requires completed != [] && completed[0].completedMs >= cutoff
    ensures AllFresh(completed, cutoff) <==> StaleFirst(completed, cutoff)
  {
    if StaleFirst(completed, cutoff) {
      assert forall j | 0 < j < |completed| :: completed[j].completedMs < cutoff ==> completed[0].completedMs < cutoff;
    }
  }

  /** Eviction keeps every fresh completion, and leaves no stale one exactly when the stale ones came first. */
  lemma EvictionIsExact(completed: seq<Completion>, cutoff: nat)
    ensures var kept := WithoutStaleFront(completed, cutoff);
            && |kept| <= |completed| && kept == completed[|completed| - |kept|..]
            && (forall i | 0 <= i < |completed| - |kept| :: completed[i].completedMs < cutoff)
            && (AllFresh(kept, cutoff) <==> StaleFirst(completed, cutoff))
  {
    var n := EvictionDropsStale(completed, cutoff);
    EvictionLeavesNoStaleWhen(completed, cutoff);
  }

  lemma StaleFirstTail(completed: seq<Completion>, cutoff: nat)
    requires completed != [] && completed[0].completedMs < cutoff
    ensures StaleFirst(completed, cutoff) <==> StaleFirst(completed[1..], cutoff)
  {
    var tail := completed[1..];
    assert forall i | 0 < i < |completed| :: completed[i] == tail[i - 1];
    if StaleFirst(completed, cutoff) {
      forall i, j | 0 <= i < j < |tail| && tail[j].completedMs < cutoff
        ensures tail[i].completedMs < cutoff
      {
        assert completed[j + 1] == tail[j] && completed[i + 1] == tail[i];
      }
    }
  }

  /** Receipts carry their workers' times: a late arrival with an early time stays in the tally. */
  lemma LateArrivalOutlivesTheWindow()
    ensures exists completed, cutoff :: !AllFresh(WithoutStaleFront(completed, cutoff), cutoff)
  {
    var completed := [Completion("tts", 2, None), Completion("tts", 0, None)];
    assert WithoutStaleFront(completed, 1) == completed;
    assert !AllFresh(completed, 1) by { assert completed[1].completedMs < 1; }
  }
}
