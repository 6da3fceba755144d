/**
 * What a node can run at once (crates/c0mpute-core/src/resources.rs) and how long its jobs
 * take (`WorkerLoad` in runner.rs, `eta_seconds` in dispatch.rs).
 */
module Load {
  import opened Wrappers
  import opened Floats
  import opened Arithmetic

  // ---- compute slots ---------------------------------------------------

  const CPU_SHARE := 0.5

  /** Threads per job: the configured number, or half the CPUs rounded up. */
  function CpuThreadsPerJob(capacity: real, configured: Option<nat>): (threads: nat)
    ensures threads > 0
  {
    match configured
    case Some(n) => if n > 0 then n else Max(Ceil(capacity * CPU_SHARE), 1)
    case None => Max(Ceil(capacity * CPU_SHARE), 1)
  }

  function MaxConcurrentCpuJobs(capacity: real, threads: nat): nat
    requires threads > 0
  {
    Max(1, Min((capacity / threads as real).Floor, 2))
  }

  /** The slots never oversubscribe the CPUs: one job may, several together may not. */
  lemma SlotsFitTheCpus(capacity: real, threads: nat, running: nat)
    requires threads > 0
    requires running <= MaxConcurrentCpuJobs(capacity, threads)
    ensures (running * threads) as real <= MaxReal(threads as real, capacity)
  {
    var t, r := threads as real, running as real;
    if running > 1 {
      assert r <= capacity / t;
      assert r * t <= capacity / t * t == capacity;
    } else {
      assert running * threads <= threads;
    }
  }

  /**
   * A job takes the configured threads, or the least number that is half the CPUs; two jobs run at once exactly
   * when both fit, and otherwise one does.
   */
  lemma TwoJobsExactlyWhenTheyFit(capacity: real, configured: Option<nat>)
    ensures var threads := CpuThreadsPerJob(capacity, configured);
            && (configured.GetOr(0) > 0 ==> threads == configured.value)
            && (configured.GetOr(0) == 0 ==>
                  capacity <= (2 * threads) as real && (threads > 1 ==> (2 * (threads - 1)) as real < capacity))
            && MaxConcurrentCpuJobs(capacity, threads) == if (2 * threads) as real <= capacity then 2 else 1
  {
    var threads := CpuThreadsPerJob(capacity, configured);
    TwoFit(capacity, threads as real, capacity / threads as real);
  }

  lemma TwoFit(capacity: real, threads: real, quotient: real)
    requires threads > 0.0 && quotient == capacity / threads
    ensures 2.0 <= quotient <==> 2.0 * threads <= capacity
  {
    assert quotient * threads == capacity;
    if quotient >= 2.0 { assert (quotient - 2.0) * threads >= 0.0; }
    if quotient < 2.0 { assert (2.0 - quotient) * threads > 0.0; }
  }

  // ---- job times -------------------------------------------------------

  function Sample(tookMs: nat): (ms: nat)
    ensures ms >= 1
  {
    Max(tookMs, 1)
  }

  /** The moving average in milliseconds after one more job; 0 is "no job yet". */
  function RecordMs(average: nat, tookMs: nat): nat {
    if average == 0 then Sample(tookMs) else (average * 7 + Sample(tookMs) * 3) / 10
  }

  function Average(history: seq<nat>): nat {
    if history == [] then 0 else RecordMs(Average(history[..|history| - 1]), history[|history| - 1])
  }

  class WorkerLoad {
    const totalSlots: nat
    var recentJobMs: nat

    constructor (totalSlots: nat)
      ensures this.totalSlots == Max(totalSlots, 1) && recentJobMs == 0
    {
      this.totalSlots := Max(totalSlots, 1);
      recentJobMs := 0;
    }

    method RecordJob(tookMs: nat)
      modifies this`recentJobMs
      ensures recentJobMs == RecordMs(old(recentJobMs), tookMs)
      ensures recentJobMs >= 1
      ensures old(recentJobMs) > 0 ==>
                && Min(old(recentJobMs), Sample(tookMs)) <= recentJobMs <= Max(old(recentJobMs), Sample(tookMs))
                && 0 <= 7 * old(recentJobMs) + 3 * Max(tookMs, 1) - 10 * recentJobMs < 10
      ensures old(recentJobMs) == 0 ==> recentJobMs == Max(tookMs, 1)
    {
      var ms := Max(tookMs, 1);
      recentJobMs := if recentJobMs == 0 then ms else (recentJobMs * 7 + ms * 3) / 10;
    }

    method RecentJobDuration() returns (ms: Option<nat>)
      ensures ms == if recentJobMs == 0 then None else Some(recentJobMs)
    {
      ms := if recentJobMs == 0 then None else Some(recentJobMs);
    }
  }

  /** The average lies between the smallest and the largest sample, so it never returns to 0. */
  lemma {:induction false} AverageBetweenSamples(history: seq<nat>, lo: nat, hi: nat)
    requires history != []
    requires forall took | took in history :: lo <= Sample(took) <= hi
    ensures lo <= Average(history) <= hi
    ensures Average(history) >= 1
  {
    var front := history[..|history| - 1];
    assert history[|history| - 1] in history;
    if front != [] {
      AverageBetweenSamples(front, lo, hi);
    }
  }

  /** The average after `n` more jobs that all take `tookMs`. */
  function Steady(average: nat, tookMs: nat, n: nat): nat {
    if n == 0 then average else RecordMs(Steady(average, tookMs, n - 1), tookMs)
  }

  function Distance(x: nat, y: nat): nat {
    if x < y then y - x else x - y
  }

  lemma RecordApproaches(x: nat, s: nat)
    requires s >= 1
    ensures s - 3 <= x <= s && x > 0 ==> RecordMs(x, s) == x
    ensures !(s - 3 <= x <= s) ==>
              && Distance(RecordMs(x, s), s) < Distance(x, s)
              && (x > s ==> RecordMs(x, s) >= s) && (x < s ==> RecordMs(x, s) <= s)
  {
  }

  /** Jobs that keep taking `s` ms pull the average into `[s - 3, s]`, where it stays. */
  lemma {:induction false} SteadyJobsSettleTheAverage(average: nat, s: nat, n: nat)
    requires s >= 1
    ensures n >= Distance(average, s) && (average > 0 || n > 0) ==> s - 3 <= Steady(average, s, n) <= s
    ensures s - 3 <= Steady(average, s, n) <= s || Distance(Steady(average, s, n), s) + n <= Distance(average, s)
  {
    if n > 0 {
      SteadyJobsSettleTheAverage(average, s, n - 1);
      RecordApproaches(Steady(average, s, n - 1), s);
    }
  }

  // ---- ETA -------------------------------------------------------------

  const DEFAULT_ETA_SECS := 60
  const MAX_ETA_SECS := 24 * 60 * 60

  /** Seconds one job takes: the measured average, or the default before any job. */
  function PerJobSeconds(recentMs: Option<nat>): (s: real)
    ensures s > 0.0
  {
    match recentMs
    case Some(ms) => if ms > 0 then ms as real / 1000.0 else DEFAULT_ETA_SECS as real
    case None => DEFAULT_ETA_SECS as real
  }

  /** How many rounds of jobs until a job queued now is done, its own included. */
  function Waves(queued: nat, totalSlots: nat): nat {
    queued / Max(totalSlots, 1) + 1
  }

  function UnclampedEta(perJob: real, waves: nat): int {
    Ceil(perJob * waves as real)
  }

  function EtaSeconds(queued: nat, totalSlots: nat, recentMs: Option<nat>): (eta: nat)
    ensures 1 <= eta <= MAX_ETA_SECS
  {
    Max(1, Min(UnclampedEta(PerJobSeconds(recentMs), Waves(queued, totalSlots)), MAX_ETA_SECS))
  }

  /** The rounds until a job is done that has `ahead` jobs before it, `slots` of which leave the queue at a time. */
  function Rounds(ahead: nat, slots: nat): nat
    requires slots > 0
  {
    if ahead < slots then 1 else 1 + Rounds(ahead - slots, slots)
  }

  lemma {:induction false} WavesAreRounds(ahead: nat, slots: nat)
    requires slots > 0
    ensures Rounds(ahead, slots) == ahead / slots + 1
  {
    if ahead >= slots {
      WavesAreRounds(ahead - slots, slots);
      NextQuotient(ahead, slots);
    }
  }

  lemma NextQuotient(x: nat, d: nat)
    requires 0 < d <= x
    ensures x / d == (x - d) / d + 1
  {
    DivMod(x - d, d);
    DivIs(x, d, (x - d) / d + 1);
  }

  lemma CeilIsLeast(x: real)
    ensures x <= Ceil(x) as real < x + 1.0
  {
  }

  /**
   * The ETA is the least whole number of seconds, from one second to a day, that covers the rounds before this
   * job is done, each as long as the measured average, or a minute before any job was measured.
   */
  lemma EtaCoversTheRounds(queued: nat, totalSlots: nat, recentMs: Option<nat>)
    ensures var eta := EtaSeconds(queued, totalSlots, recentMs);
            var jobMs := if recentMs.GetOr(0) > 0 then recentMs.value else 60_000;
            var neededMs := jobMs * Rounds(queued, Max(totalSlots, 1));
            && 1 <= eta <= 86_400
            && (eta < 86_400 ==> neededMs <= 1000 * eta)
            && (eta > 1 ==> 1000 * (eta - 1) < neededMs)
  {
    var jobMs := if recentMs.GetOr(0) > 0 then recentMs.value else 60_000;
    var rounds := Rounds(queued, Max(totalSlots, 1));
    WavesAreRounds(queued, Max(totalSlots, 1));
    ClampedEta(PerJobSeconds(recentMs), jobMs, rounds);
  }

  lemma ClampedEta(seconds: real, ms: nat, rounds: nat)
    requires seconds * 1000.0 == ms as real
    ensures var eta, needed := Max(1, Min(UnclampedEta(seconds, rounds), MAX_ETA_SECS)), ms * rounds;
            && (eta < 86_400 ==> needed <= 1000 * eta)
            && (eta > 1 ==> 1000 * (eta - 1) < needed)
  {
    var total := seconds * rounds as real;
    MsOfSeconds(seconds, ms, rounds);
    CeilIsLeast(total);
    CeilInMs(total, Ceil(total), ms * rounds);
  }

  lemma CeilInMs(seconds: real, ceil: int, ms: nat)
    requires seconds * 1000.0 == ms as real && seconds <= ceil as real < seconds + 1.0
    ensures 1000 * (ceil - 1) < ms <= 1000 * ceil
  {
  }

  lemma MsOfSeconds(seconds: real, ms: nat, rounds: nat)
    requires seconds * 1000.0 == ms as real
    ensures seconds * rounds as real * 1000.0 == (ms * rounds) as real
  {
    assert seconds * rounds as real * 1000.0 == seconds * 1000.0 * rounds as real;
  }

  /** A longer queue never shortens the ETA and more slots never lengthen it. */
  lemma EtaMonotone(q1: nat, q2: nat, slots1: nat, slots2: nat, recentMs: Option<nat>)
    requires q1 <= q2 && slots2 <= slots1
    ensures EtaSeconds(q1, slots1, recentMs) <= EtaSeconds(q2, slots2, recentMs)
  {
    QuotientMonotone(q1, q2, Max(slots2, 1), Max(slots1, 1));
    UnclampedEtaMonotone(PerJobSeconds(recentMs), Waves(q1, slots1), Waves(q2, slots2));
  }

  lemma UnclampedEtaMonotone(perJob: real, w1: nat, w2: nat)
    requires perJob > 0.0 && w1 <= w2
    ensures UnclampedEta(perJob, w1) <= UnclampedEta(perJob, w2)
  {
    assert perJob * w1 as real <= perJob * w2 as real;
  }

  lemma QuotientMonotone(x: nat, y: nat, low: nat, high: nat)
    requires x <= y && 0 < low <= high
    ensures x / high <= y / low
  {
    var a, b := x / high, y / low;
    assert a * high <= x && y < (b + 1) * low;
    ProductMonotone(a, b + 1, high, low);
  }

  lemma ProductMonotone(a: nat, b: nat, h: nat, l: nat)
    requires l <= h
    ensures a >= b ==> a * h >= b * l
  {
    if a >= b {
      assert a * h - b * l == (a - b) * h + b * (h - l);
    }
  }
}
