/** The binomial durability model of the storage tiers (scripts/storage-durability-sim.py), over exact reals. */
module Durability {
  import opened Floats

  // ---- binomial coefficients -------------------------------------------

  function Comb(n: nat, k: nat): nat {
    if k == 0 then 1 else if n == 0 then 0 else Comb(n - 1, k - 1) + Comb(n - 1, k)
  }

  lemma {:induction false} CombAboveIsZero(n: nat, k: nat)
    requires k > n
    ensures Comb(n, k) == 0
  {
    if n > 0 {
      CombAboveIsZero(n - 1, k - 1);
      CombAboveIsZero(n - 1, k);
    }
  }

  function Factorial(n: nat): nat {
    if n == 0 then 1 else n * Factorial(n - 1)
  }

  lemma Regroup(a: nat, b: nat, k: nat, m: nat, f: nat, g: nat, total: nat)
    requires a * f * (m * g) == total && b * (k * f) * g == total
    ensures (a + b) * (k * f) * (m * g) == (k + m) * total
  {
    assert a * (k * f) * (m * g) == k * (a * f * (m * g));
    assert b * (k * f) * (m * g) == m * (b * (k * f) * g);
    assert (a + b) * (k * f) * (m * g) == a * (k * f) * (m * g) + b * (k * f) * (m * g);
  }

  /** Pascal's rule gives `math.comb`: the factorial formula. */
  lemma {:induction false} CombIsFactorialRatio(n: nat, k: nat)
    requires k <= n
    ensures Comb(n, k) * Factorial(k) * Factorial(n - k) == Factorial(n)
  {
    if 0 < k < n {
      CombIsFactorialRatio(n - 1, k - 1);
      CombIsFactorialRatio(n - 1, k);
      var m := n - k;
      Regroup(Comb(n - 1, k - 1), Comb(n - 1, k), k, m, Factorial(k - 1), Factorial(m - 1), Factorial(n - 1));
      assert Factorial(k) == k * Factorial(k - 1) && Factorial(m) == m * Factorial(m - 1);
    } else if 0 < k {
      CombIsFactorialRatio(n - 1, k - 1);
      CombAboveIsZero(n - 1, n);
      assert Comb(n, n) == Comb(n - 1, n - 1);
      assert Factorial(0) == 1 && Factorial(n) == n * Factorial(n - 1);
      assert Comb(n, n) * (n * Factorial(n - 1)) == n * (Comb(n - 1, n - 1) * Factorial(n - 1));
    }
  }

  // ---- the model -------------------------------------------------------

  /** Exactly `i` of `n` shards are available; `p` is the chance of one being up, `q` of its being down. */
  function Term(n: nat, i: nat, p: real, q: real): real {
    if i > n then 0.0 else Comb(n, i) as real * Pow(p, i) * Pow(q, n - i)
  }

  function Terms(p: real, q: real): (nat, nat) -> real {
    (n: nat, i: nat) => Term(n, i, p, q)
  }

  function SumBelow(term: (nat, nat) -> real, n: nat, k: nat): real {
    if k == 0 then 0.0 else SumBelow(term, n, k - 1) + term(n, k - 1)
  }

  function SumFrom(term: (nat, nat) -> real, n: nat, k: nat): real
    decreases n + 1 - k
  {
    if k > n then 0.0 else term(n, k) + SumFrom(term, n, k + 1)
  }

  /** Fewer than `k` of `n` shards are available: the object cannot be read. */
  function PUnreadable(n: nat, k: nat, p: real): real {
    SumBelow(Terms(p, 1.0 - p), n, k)
  }

  /** The upper tail: `k` or more shards are available. */
  function PReadable(n: nat, k: nat, p: real): real {
    SumFrom(Terms(p, 1.0 - p), n, k)
  }

  /** One host: what follows if it is up and what follows if it is down, weighted by the chances. */
  function Host(p: real, q: real): (real, real) -> real {
    (up: real, down: real) => p * up + q * down
  }

  /** The chance that fewer than `k` of `n` hosts are up, host by host: the definition the sum stands for. */
  function FewerUp(host: (real, real) -> real, n: nat, k: nat): real {
    if k == 0 then 0.0
    else if n == 0 then 1.0
    else host(FewerUp(host, n - 1, k - 1), FewerUp(host, n - 1, k))
  }

  // ---- one shard more --------------------------------------------------

  lemma Product(a: real, b: real, c: real)
    ensures a * b * c == a * (b * c) == b * (a * c)
  {
  }

  lemma Times(p: real, a: real, b: real, sum: real)
    requires sum == a + b
    ensures p * sum == p * a + p * b
  {
  }

  lemma SplitTerm(a: real, b: real, p: real, q: real, x: real, y: real)
    ensures (a + b) * (p * x) * (q * y) == p * (a * x * (q * y)) + q * (b * (p * x) * y)
  {
    Product(a, p, x);
    Product(p, a * x, q * y);
    Product(b * (p * x), q, y);
    Product(q, b * (p * x), y);
  }

  lemma TermIs(n: nat, i: nat, p: real, q: real, c: real, x: real, y: real)
    requires i <= n && c == Comb(n, i) as real && x == Pow(p, i) && y == Pow(q, n - i)
    ensures Term(n, i, p, q) == c * x * y
  {
  }

  lemma TermInside(n: nat, i: nat, p: real, q: real)
    requires i < n
    ensures Term(n + 1, i + 1, p, q) == p * Term(n, i, p, q) + q * Term(n, i + 1, p, q)
  {
    var a, b, x, y := Comb(n, i) as real, Comb(n, i + 1) as real, Pow(p, i), Pow(q, n - i - 1);
    TermIs(n, i, p, q, a, x, q * y);
    TermIs(n, i + 1, p, q, b, p * x, y);
    TermIs(n + 1, i + 1, p, q, a + b, p * x, q * y);
    SplitTerm(a, b, p, q, x, y);
  }

  lemma TermAtTheTop(n: nat, p: real, q: real)
    ensures Term(n + 1, n + 1, p, q) == p * Term(n, n, p, q) && Term(n, n + 1, p, q) == 0.0
  {
    var a, x := Comb(n, n) as real, Pow(p, n);
    CombAboveIsZero(n, n + 1);
    assert Comb(n + 1, n + 1) == Comb(n, n);
    TermIs(n, n, p, q, a, x, 1.0);
    TermIs(n + 1, n + 1, p, q, a, p * x, 1.0);
    Product(a, p, x);
  }

  lemma FirstTerm(n: nat, p: real, q: real)
    ensures Term(n + 1, 0, p, q) == q * Term(n, 0, p, q)
  {
    TermIs(n, 0, p, q, 1.0, 1.0, Pow(q, n));
    TermIs(n + 1, 0, p, q, 1.0, 1.0, q * Pow(q, n));
  }

  /** Pascal's rule for a family of terms, and where each row starts. */
  predicate Pascal(term: (nat, nat) -> real, p: real, q: real, n: nat, i: nat) {
    term(n + 1, i + 1) == p * term(n, i) + q * term(n, i + 1) && term(n + 1, 0) == q * term(n, 0)
  }

  lemma TermsArePascal(p: real, q: real, n: nat, i: nat)
    ensures Pascal(Terms(p, q), p, q, n, i)
  {
    FirstTerm(n, p, q);
    if i < n {
      TermInside(n, i, p, q);
    } else if i == n {
      TermAtTheTop(n, p, q);
    }
  }

  lemma AddUp(p: real, q: real, a: real, b: real, c: real, d: real, ac: real, bd: real)
    requires ac == a + c && bd == b + d
    ensures (p * a + q * b) + (p * c + q * d) == p * ac + q * bd
  {
    Times(p, a, c, ac);
    Times(q, b, d, bd);
  }

  lemma {:induction false} OneShardMore(term: (nat, nat) -> real, p: real, q: real, n: nat, k: nat)
    requires forall m: nat, i: nat :: Pascal(term, p, q, m, i)
    ensures SumBelow(term, n + 1, k + 1) == p * SumBelow(term, n, k) + q * SumBelow(term, n, k + 1)
  {
    if k == 0 {
      assert Pascal(term, p, q, n, 0);
      assert SumBelow(term, n + 1, 0) == SumBelow(term, n, 0) == 0.0;
    } else {
      OneShardMore(term, p, q, n, k - 1);
      assert Pascal(term, p, q, n, k - 1);
      AddUp(p, q, SumBelow(term, n, k - 1), SumBelow(term, n, k), term(n, k - 1), term(n, k),
            SumBelow(term, n, k), SumBelow(term, n, k + 1));
    }
  }

  lemma HostMixes(p: real, q: real, up: real, down: real)
    ensures Host(p, q)(up, down) == p * up + q * down
  {
  }

  lemma {:induction false} NoShards(term: (nat, nat) -> real, k: nat)
    requires k > 0 && term(0, 0) == 1.0 && forall i: nat | i > 0 :: term(0, i) == 0.0
    ensures SumBelow(term, 0, k) == 1.0
  {
    if k > 1 {
      NoShards(term, k - 1);
    } else {
      assert SumBelow(term, 0, 0) == 0.0;
    }
  }

  /** One host more mixes the two sums it can lead to. */
  predicate Grows(term: (nat, nat) -> real, host: (real, real) -> real, n: nat, k: nat) {
    SumBelow(term, n + 1, k + 1) == host(SumBelow(term, n, k), SumBelow(term, n, k + 1))
  }

  lemma {:induction false} SumIsFewerUp(term: (nat, nat) -> real, host: (real, real) -> real, n: nat, k: nat)
    requires forall m: nat, i: nat :: Grows(term, host, m, i)
    requires term(0, 0) == 1.0 && forall i: nat | i > 0 :: term(0, i) == 0.0
    ensures SumBelow(term, n, k) == FewerUp(host, n, k)
    decreases n, k
  {
    if k > 0 {
      if n == 0 {
        NoShards(term, k);
      } else {
        assert Grows(term, host, n - 1, k - 1);
        SumIsFewerUp(term, host, n - 1, k - 1);
        SumIsFewerUp(term, host, n - 1, k);
      }
    }
  }

  lemma AllTermsArePascal(p: real, q: real)
    ensures forall m: nat, i: nat :: Pascal(Terms(p, q), p, q, m, i)
  {
    forall m: nat, i: nat
      ensures Pascal(Terms(p, q), p, q, m, i)
    {
      TermsArePascal(p, q, m, i);
    }
  }

  lemma TermsGrow(p: real, q: real, n: nat, k: nat)
    ensures Grows(Terms(p, q), Host(p, q), n, k)
  {
    AllTermsArePascal(p, q);
    PascalGrows(Terms(p, q), p, q, n, k);
  }

  lemma PascalGrows(term: (nat, nat) -> real, p: real, q: real, n: nat, k: nat)
    requires forall m: nat, i: nat :: Pascal(term, p, q, m, i)
    ensures Grows(term, Host(p, q), n, k)
  {
    OneShardMore(term, p, q, n, k);
    HostMixes(p, q, SumBelow(term, n, k), SumBelow(term, n, k + 1));
  }

  /** The sum is the probability that fewer than `k` of `n` independent hosts are up. */
  lemma SumIsProbability(n: nat, k: nat, p: real)
    ensures PUnreadable(n, k, p) == FewerUp(Host(p, 1.0 - p), n, k)
  {
    var q := 1.0 - p;
    forall m: nat, i: nat
      ensures Grows(Terms(p, q), Host(p, q), m, i)
    {
      TermsGrow(p, q, m, i);
    }
    TermIs(0, 0, p, q, 1.0, 1.0, 1.0);
    SumIsFewerUp(Terms(p, q), Host(p, q), n, k);
  }

  // ---- bounds and monotonicity -----------------------------------------

  predicate Probability(p: real) {
    0.0 <= p <= 1.0
  }

  predicate Idle(host: (real, real) -> real, a: real) {
    host(a, a) == a
  }

  predicate Ordered(host: (real, real) -> real, a: real, b: real, c: real, d: real) {
    a <= c && b <= d ==> host(a, b) <= host(c, d)
  }

  /** A host that makes no difference makes none, and better prospects are never worth less. */
  ghost predicate Averages(host: (real, real) -> real) {
    && (forall a: real :: Idle(host, a))
    && (forall a: real, b: real, c: real, d: real :: Ordered(host, a, b, c, d))
  }

  lemma Scale(p: real, a: real, b: real)
    requires p >= 0.0 && a <= b
    ensures p * a <= p * b
  {
  }

  lemma HostIsIdle(p: real, q: real, a: real)
    requires p + q == 1.0
    ensures Idle(Host(p, q), a)
  {
    HostMixes(p, q, a, a);
    Times(a, p, q, 1.0);
  }

  lemma HostIsOrdered(p: real, q: real, a: real, b: real, c: real, d: real)
    requires p >= 0.0 && q >= 0.0
    ensures Ordered(Host(p, q), a, b, c, d)
  {
    HostMixes(p, q, a, b);
    HostMixes(p, q, c, d);
    if a <= c && b <= d {
      Scale(p, a, c);
      Scale(q, b, d);
    }
  }

  lemma HostAverages(p: real, q: real)
    requires p >= 0.0 && q >= 0.0 && p + q == 1.0
    ensures Averages(Host(p, q))
  {
    var host := Host(p, q);
    forall a: real
      ensures Idle(host, a)
    {
      HostIsIdle(p, q, a);
    }
    forall a: real, b: real, c: real, d: real
      ensures Ordered(host, a, b, c, d)
    {
      HostIsOrdered(p, q, a, b, c, d);
    }
  }

  /** More weight on the smaller of two values can only lower the average. */
  lemma BetterHostWeighsLess(p: real, q: real, r: real, s: real, a: real, b: real)
    requires p + q == 1.0 && r + s == 1.0 && p <= r && a <= b
    ensures Host(r, s)(a, b) <= Host(p, q)(a, b)
  {
    HostMixes(p, q, a, b);
    HostMixes(r, s, a, b);
    Scale(r - p, a, b);
    Times(a, p, r - p, r);
    Times(b, s, r - p, q);
  }

  /** With every shard allowed to be missing, the event is certain. */
  lemma {:induction false} AllMissingIsCertain(host: (real, real) -> real, n: nat, k: nat)
    requires k > n && Idle(host, 1.0)
    ensures FewerUp(host, n, k) == 1.0
  {
    if n > 0 {
      AllMissingIsCertain(host, n - 1, k - 1);
      AllMissingIsCertain(host, n - 1, k);
    }
  }

  lemma {:induction false} FewerUpIsProbability(host: (real, real) -> real, n: nat, k: nat)
    requires Averages(host)
    ensures Probability(FewerUp(host, n, k))
  {
    if k > 0 && n > 0 {
      FewerUpIsProbability(host, n - 1, k - 1);
      FewerUpIsProbability(host, n - 1, k);
      var a, b := FewerUp(host, n - 1, k - 1), FewerUp(host, n - 1, k);
      assert Idle(host, 0.0) && Idle(host, 1.0) && Ordered(host, 0.0, 0.0, a, b) && Ordered(host, a, b, 1.0, 1.0);
    }
  }

  lemma {:induction false} MoreNeededFails(host: (real, real) -> real, n: nat, k: nat)
    requires Averages(host)
    ensures FewerUp(host, n, k) <= FewerUp(host, n, k + 1)
  {
    if k == 0 {
      FewerUpIsProbability(host, n, 1);
    } else if n > 0 {
      MoreNeededFails(host, n - 1, k - 1);
      MoreNeededFails(host, n - 1, k);
      assert Ordered(host, FewerUp(host, n - 1, k - 1), FewerUp(host, n - 1, k),
                     FewerUp(host, n - 1, k), FewerUp(host, n - 1, k + 1));
    }
  }

  lemma {:induction false} BetterHostsFailLess(p: real, q: real, r: real, s: real, n: nat, k: nat)
    requires p + q == 1.0 && r + s == 1.0 && p <= r && Averages(Host(p, q)) && Averages(Host(r, s))
    ensures FewerUp(Host(r, s), n, k) <= FewerUp(Host(p, q), n, k)
  {
    if k > 0 && n > 0 {
      BetterHostsFailLess(p, q, r, s, n - 1, k - 1);
      BetterHostsFailLess(p, q, r, s, n - 1, k);
      MoreNeededFails(Host(p, q), n - 1, k - 1);
      var a, b := FewerUp(Host(p, q), n - 1, k - 1), FewerUp(Host(p, q), n - 1, k);
      assert Ordered(Host(r, s), FewerUp(Host(r, s), n - 1, k - 1), FewerUp(Host(r, s), n - 1, k), a, b);
      BetterHostWeighsLess(p, q, r, s, a, b);
    }
  }

  lemma OneMoreHelps(host: (real, real) -> real, n: nat, k: nat)
    requires Averages(host)
    ensures FewerUp(host, n + 1, k) <= FewerUp(host, n, k) <= FewerUp(host, n + 1, k + 1)
  {
    var b := FewerUp(host, n, k);
    MoreNeededFails(host, n, k);
    assert Idle(host, b) && Ordered(host, b, b, b, FewerUp(host, n, k + 1));
    if k > 0 {
      MoreNeededFails(host, n, k - 1);
      assert Ordered(host, FewerUp(host, n, k - 1), b, b, b);
    }
  }

  lemma {:induction false} SumAndTail(term: (nat, nat) -> real, n: nat, k: nat)
    requires k <= n + 1
    ensures SumBelow(term, n, k) + SumFrom(term, n, k) == SumBelow(term, n, n + 1)
    decreases n + 1 - k
  {
    if k <= n { SumAndTail(term, n, k + 1); }
  }

  // ---- what the tables of the script rest on ---------------------------

  /** The sum and its upper tail are all there is, and the sum is a probability. */
  lemma UnreadableOrReadable(n: nat, k: nat, p: real)
    requires k <= n + 1
    ensures PUnreadable(n, k, p) + PReadable(n, k, p) == 1.0
    ensures Probability(p) ==> 0.0 <= PUnreadable(n, k, p) <= 1.0
  {
    SumAndTail(Terms(p, 1.0 - p), n, k);
    SumIsProbability(n, n + 1, p);
    HostIsIdle(p, 1.0 - p, 1.0);
    AllMissingIsCertain(Host(p, 1.0 - p), n, n + 1);
    SumIsProbability(n, k, p);
    if Probability(p) {
      HostAverages(p, 1.0 - p);
      FewerUpIsProbability(Host(p, 1.0 - p), n, k);
    }
  }

  /** Needing more shards never helps. */
  lemma {:induction false} NeedingMoreHurts(n: nat, k: nat, l: nat, p: real)
    requires Probability(p) && k <= l
    ensures PUnreadable(n, k, p) <= PUnreadable(n, l, p)
  {
    if k < l {
      NeedingMoreHurts(n, k, l - 1, p);
      SumIsProbability(n, l - 1, p);
      SumIsProbability(n, l, p);
      HostAverages(p, 1.0 - p);
      MoreNeededFails(Host(p, 1.0 - p), n, l - 1);
    }
  }

  lemma ExtraShardHelps(n: nat, k: nat, p: real)
    requires Probability(p)
    ensures PUnreadable(n + 1, k, p) <= PUnreadable(n, k, p) <= PUnreadable(n + 1, k + 1, p)
  {
    SumIsProbability(n, k, p);
    SumIsProbability(n + 1, k, p);
    SumIsProbability(n + 1, k + 1, p);
    HostAverages(p, 1.0 - p);
    OneMoreHelps(Host(p, 1.0 - p), n, k);
  }

  /** Extra shards never hurt; having to have all of the extra ones never helps. */
  lemma {:induction false} ExtraShardsHelp(n: nat, m: nat, k: nat, p: real)
    requires Probability(p) && n <= m
    ensures PUnreadable(m, k, p) <= PUnreadable(n, k, p) <= PUnreadable(m, k + (m - n), p)
  {
    if n < m {
      ExtraShardsHelp(n, m - 1, k, p);
      ExtraShardHelps(m - 1, k, p);
      ExtraShardHelps(m - 1, k + (m - 1 - n), p);
    }
  }

  /** Better hosts never hurt. */
  lemma BetterHostsHelp(n: nat, k: nat, p: real, r: real)
    requires Probability(p) && Probability(r) && p <= r
    ensures PUnreadable(n, k, r) <= PUnreadable(n, k, p)
  {
    SumIsProbability(n, k, p);
    SumIsProbability(n, k, r);
    HostAverages(p, 1.0 - p);
    HostAverages(r, 1.0 - r);
    BetterHostsFailLess(p, 1.0 - p, r, 1.0 - r, n, k);
  }
}
