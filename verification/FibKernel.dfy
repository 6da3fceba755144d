/** The `fib` benchmark: a tree forked to some depth, its leaves pulled off a shared counter. */
module FibKernel {
  import opened Wrappers
  import opened WorkPool

  function Fib(n: nat): nat {
    if n < 2 then n else Fib(n - 1) + Fib(n - 2)
  }

  /** Nodes of the naive recursion tree. */
  function Visits(n: nat): nat {
    if n < 2 then 1 else 1 + Visits(n - 1) + Visits(n - 2)
  }

  /** The node count has a closed form: one less than twice the next Fibonacci number. */
  lemma {:induction false} VisitsClosedForm(n: nat)
    ensures Visits(n) + 1 == 2 * Fib(n + 1)
  {
    if n >= 2 {
      VisitsClosedForm(n - 1);
      VisitsClosedForm(n - 2);
    }
  }

  method FibSerialValue(n: nat) returns (value: nat)
    ensures value == Fib(n)
  {
    var a, b := 0, 1;
    for i := 0 to n
      invariant a == Fib(i) && b == Fib(i + 1)
    {
      var t := a + b;
      a := b;
      b := t;
    }
    value := a;
  }

  /** Naive recursive fib that counts the nodes it visits on top of `before`. */
  method FibRec(n: nat, before: nat) returns (value: nat, visits: nat)
    ensures value == Fib(n) && visits == before + Visits(n)
  {
    visits := before + 1;
    if n < 2 { return n, visits; }
    var x, y;
    x, visits := FibRec(n - 1, visits);
    y, visits := FibRec(n - 2, visits);
    value := x + y;
  }

  function Fibs(): nat -> nat { Fib }

  function VisitCounts(): nat -> nat { Visits }

  /** What one leaf becomes, and how many inner nodes that adds. */
  function Children(m: nat): seq<nat> {
    if m < 2 then [m] else [m - 1, m - 2]
  }

  lemma ChildrenKeep(next: seq<nat>, m: nat)
    ensures Sum(next + Children(m), Fibs()) == Sum(next, Fibs()) + Fib(m)
    ensures Sum(next + Children(m), VisitCounts()) + (if m < 2 then 0 else 1) == Sum(next, VisitCounts()) + Visits(m)
  {
    if m < 2 {
      SumPush(next, m, Fibs());
      SumPush(next, m, VisitCounts());
    } else {
      var left: nat, right: nat := m - 1, m - 2;
      SumPush(next, left, Fibs());
      SumPush(next, left, VisitCounts());
      SumPush(next + [left], right, Fibs());
      SumPush(next + [left], right, VisitCounts());
      assert next + Children(m) == next + [left] + [right];
    }
  }

  /** The leaves `next` and the `forked` nodes above them account for all of `done`. */
  ghost predicate Accounted(done: seq<nat>, next: seq<nat>, forked: nat, n: nat) {
    && Sum(next, Fibs()) == Sum(done, Fibs())
    && Sum(next, VisitCounts()) + forked == Sum(done, VisitCounts())
    && forall m | m in next :: m <= n
  }

  lemma ForkLeaf(leaves: seq<nat>, i: nat, next: seq<nat>, forked: nat, n: nat)
    requires i < |leaves| && leaves[i] <= n && Accounted(leaves[..i], next, forked, n)
    ensures Accounted(leaves[..i + 1], next + Children(leaves[i]), forked + (if leaves[i] < 2 then 0 else 1), n)
  {
    SumPrefix(leaves, i, Fibs());
    SumPrefix(leaves, i, VisitCounts());
    ChildrenKeep(next, leaves[i]);
  }

  /** One level of the fork: every leaf of size 2 or more becomes its two subproblems. */
  method ForkLevel(leaves: seq<nat>, ghost n: nat) returns (next: seq<nat>, forked: nat)
    requires forall m | m in leaves :: m <= n
    ensures Accounted(leaves, next, forked, n)
  {
    next, forked := [], 0;
    for i := 0 to |leaves|
      invariant Accounted(leaves[..i], next, forked, n)
    {
      var m := leaves[i];
      assert m in leaves;
      ForkLeaf(leaves, i, next, forked, n);
      if m < 2 {
        next := next + [m];
      } else {
        forked := forked + 1;
        next := next + [m - 1, m - 2];
      }
    }
    assert leaves[..|leaves|] == leaves;
  }

  /** The leaves of the tree forked to depth `split`, and the inner nodes above them. */
  method Fork(n: nat, split: nat) returns (leaves: seq<nat>, top: nat)
    ensures Sum(leaves, Fibs()) == Fib(n)
    ensures Sum(leaves, VisitCounts()) + top == Visits(n)
    ensures forall m | m in leaves :: m <= n
  {
    leaves, top := [n], 0;
    assert [n][..0] == [];
    for level := 0 to split
      invariant Sum(leaves, Fibs()) == Fib(n)
      invariant Sum(leaves, VisitCounts()) + top == Visits(n)
      invariant forall m | m in leaves :: m <= n
    {
      var forked;
      leaves, forked := ForkLevel(leaves, n);
      top := top + forked;
    }
  }

  /** The smallest `k` with `x <= 2^k`: `log2().ceil()` of a whole number. */
  function CeilLog2(x: nat): nat
    requires x > 0
  {
    if x == 1 then 0 else 1 + CeilLog2((x + 1) / 2)
  }

  function Split(n: nat, threads: nat): nat {
    Max(Min(CeilLog2(Max(threads, 1) * 64), Max(n - 1, 0)), 1)
  }

  function TwoTo(k: nat): nat {
    if k == 0 then 1 else 2 * TwoTo(k - 1)
  }

  lemma {:induction false} CeilLog2IsLeast(x: nat)
    requires x > 0
    ensures x <= TwoTo(CeilLog2(x))
    ensures forall k: nat | x <= TwoTo(k) :: CeilLog2(x) <= k
  {
    if x > 1 {
      CeilLog2IsLeast((x + 1) / 2);
      forall k: nat | x <= TwoTo(k) ensures CeilLog2(x) <= k {
        assert k > 0 && TwoTo(k) == 2 * TwoTo(k - 1);
        assert (x + 1) / 2 <= TwoTo(k - 1);
      }
    }
  }

  /**
   * The depth the kernel picks: the least with 64 leaves a thread if every split doubles them, but no deeper than
   * the tree goes, and at least one.
   */
  lemma SplitFeedsTheThreads(n: nat, threads: nat)
    ensures var split, wanted := Split(n, threads), 64 * Max(threads, 1);
            && 1 <= split
            && (split < n - 1 ==> wanted <= TwoTo(split))
            && (split > 1 ==> split <= n - 1)
            && (forall k: nat | 1 <= k && wanted <= TwoTo(k) :: split <= k)
  {
    CeilLog2IsLeast(64 * Max(threads, 1));
  }

  /** What the item a thread holds is worth. */
  function Worth(leaves: seq<nat>, f: nat -> nat): Option<nat> -> nat {
    (c: Option<nat>) => if c.Some? && c.value < |leaves| then f(leaves[c.value]) else 0
  }

  function Plain(): nat -> nat {
    (x: nat) => x
  }

  /** Finished, claimed and unclaimed leaves together are worth all the leaves. */
  ghost predicate Conserved(leaves: seq<nat>, f: nat -> nat, done: seq<nat>, claims: seq<Option<nat>>, next: nat) {
    Sum(done, Plain()) + Sum(claims, Worth(leaves, f)) + Sum(leaves[Min(next, |leaves|)..], f) == Sum(leaves, f)
  }

  lemma ClaimConserves(leaves: seq<nat>, f: nat -> nat, done: seq<nat>, claims: seq<Option<nat>>, next: nat, t: nat)
    requires Conserved(leaves, f, done, claims, next) && t < |claims| && claims[t].None?
    ensures next < |leaves| ==> Conserved(leaves, f, done, claims[t := Some(next)], next + 1)
    ensures next >= |leaves| ==> Conserved(leaves, f, done, claims, next + 1)
  {
    if next < |leaves| {
      SumUpdate(claims, Worth(leaves, f), t, Some(next));
      assert leaves[next..] == [leaves[next]] + leaves[next + 1..];
      SumAppend([leaves[next]], leaves[next + 1..], f);
      assert [leaves[next]][..0] == [];
    }
  }

  lemma FinishConserves(
    leaves: seq<nat>, f: nat -> nat, done: seq<nat>, claims: seq<Option<nat>>, next: nat, t: nat, total: nat)
    requires Conserved(leaves, f, done, claims, next) && t < |claims| == |done|
    requires claims[t].Some? && claims[t].value < |leaves| && total == done[t] + f(leaves[claims[t].value])
    ensures Conserved(leaves, f, done[t := total], claims[t := None], next)
  {
    SumUpdate(claims, Worth(leaves, f), t, None);
    SumUpdate(done, Plain(), t, total);
  }

  /** When every thread has stopped, what they finished is everything. */
  lemma StoppedMeansFinished(leaves: seq<nat>, f: nat -> nat, done: seq<nat>, claims: seq<Option<nat>>, next: nat)
    requires Conserved(leaves, f, done, claims, next) && next >= |leaves|
    requires forall t | 0 <= t < |claims| :: claims[t].None?
    ensures Sum(done, Plain()) == Sum(leaves, f)
  {
    SumOfZeros(claims, Worth(leaves, f));
    assert leaves[Min(next, |leaves|)..] == [];
  }

  function Zeros(n: nat): seq<nat> {
    seq<nat>(n, _ => 0)
  }

  lemma StartConserves(leaves: seq<nat>, f: nat -> nat, threads: nat)
    ensures Conserved(leaves, f, Zeros(threads), NoClaims(threads), 0)
  {
    SumOfZeros<nat>(Zeros(threads), Plain());
    SumOfZeros(NoClaims(threads), Worth(leaves, f));
    assert leaves[0..] == leaves;
  }

  /** Both results at once: the values and the node counts. */
  ghost predicate Kept(leaves: seq<nat>, sums: seq<nat>, visits: seq<nat>, claims: seq<Option<nat>>, next: nat) {
    && Conserved(leaves, Fibs(), sums, claims, next)
    && Conserved(leaves, VisitCounts(), visits, claims, next)
  }

  lemma FinishKeeps(
    leaves: seq<nat>, sums: seq<nat>, visits: seq<nat>, claims: seq<Option<nat>>, next: nat, t: nat, sum: nat,
    visited: nat)
    requires Kept(leaves, sums, visits, claims, next) && t < |claims| == |sums| == |visits|
    requires claims[t].Some? && claims[t].value < |leaves|
    requires sum == sums[t] + Fib(leaves[claims[t].value]) && visited == visits[t] + Visits(leaves[claims[t].value])
    ensures Kept(leaves, sums[t := sum], visits[t := visited], claims[t := None], next)
  {
    FinishConserves(leaves, Fibs(), sums, claims, next, t, sum);
    FinishConserves(leaves, VisitCounts(), visits, claims, next, t, visited);
  }

  /** Thread `t` works off the leaf it holds. */
  method WorkOff(leaves: seq<nat>, pool: Pool, t: nat, sums: seq<nat>, visits: seq<nat>)
    returns (newSums: seq<nat>, newVisits: seq<nat>)
    requires pool.Valid() && pool.size == |leaves| && pool.threads == |sums| == |visits|
    requires t < pool.threads && pool.claims[t].Some?
    requires Kept(leaves, sums, visits, pool.claims, pool.next)
    modifies pool
    ensures pool.Valid() && pool.Left() < old(pool.Left()) && |newSums| == |newVisits| == pool.threads
    ensures Kept(leaves, newSums, newVisits, pool.claims, pool.next)
  {
    var leaf := leaves[pool.claims[t].value];
    var value, visited := FibRec(leaf, visits[t]);
    var sum: nat := sums[t] + value;
    FinishKeeps(leaves, sums, visits, pool.claims, pool.next, t, sum, visited);
    newSums, newVisits := sums[t := sum], visits[t := visited];
    pool.Release(t);
  }

  /** Thread `t` asks for its next leaf. */
  method AskForLeaf(leaves: seq<nat>, pool: Pool, t: nat, ghost sums: seq<nat>, ghost visits: seq<nat>)
    requires pool.Valid() && pool.size == |leaves| && t < pool.threads
    requires pool.claims[t].None? && !pool.stopped[t] && Kept(leaves, sums, visits, pool.claims, pool.next)
    modifies pool
    ensures pool.Valid() && pool.Left() < old(pool.Left()) && Kept(leaves, sums, visits, pool.claims, pool.next)
  {
    ClaimConserves(leaves, Fibs(), sums, pool.claims, pool.next, t);
    ClaimConserves(leaves, VisitCounts(), visits, pool.claims, pool.next, t);
    pool.Claim(t);
  }

  /**
   * All the threads of one run, in any interleaving: in each round any thread that has not stopped
   * claims its next leaf, or works off the leaf it holds. Returns what each thread summed up.
   */
  method RunThreads(leaves: seq<nat>, threads: nat) returns (sums: seq<nat>, visits: seq<nat>)
    requires threads > 0
    ensures Sum(sums, Plain()) == Sum(leaves, Fibs())
    ensures Sum(visits, Plain()) == Sum(leaves, VisitCounts())
  {
    var pool := new Pool(|leaves|, threads);
    sums, visits := Zeros(threads), Zeros(threads);
    StartConserves(leaves, Fibs(), threads);
    StartConserves(leaves, VisitCounts(), threads);
    while exists t :: 0 <= t < threads && !pool.stopped[t]
      invariant fresh(pool) && pool.Valid() && pool.size == |leaves| && pool.threads == threads == |sums| == |visits|
      invariant Kept(leaves, sums, visits, pool.claims, pool.next)
      decreases pool.Left()
    {
      var t :| 0 <= t < threads && !pool.stopped[t];
      if pool.claims[t].None? {
        AskForLeaf(leaves, pool, t, sums, visits);
      } else {
        sums, visits := WorkOff(leaves, pool, t, sums, visits);
      }
    }
    assert pool.stopped[0] && forall t | 0 <= t < threads :: pool.stopped[t];
    StoppedMeansFinished(leaves, Fibs(), sums, pool.claims, pool.next);
    StoppedMeansFinished(leaves, VisitCounts(), visits, pool.claims, pool.next);
  }

  method Total(s: seq<nat>) returns (total: nat)
    ensures total == Sum(s, Plain())
  {
    total := 0;
    for i := 0 to |s|
      invariant total == Sum(s[..i], Plain())
    {
      assert s[..i + 1][..i] == s[..i];
      total := total + s[i];
    }
    assert s[..|s|] == s;
  }

  /** For every depth, thread count and interleaving: the value and the node count of the serial recursion. */
  method FibForked(n: nat, split: nat, threads: nat) returns (value: nat, visits: nat)
    ensures value == Fib(n) && visits == Visits(n)
  {
    var leaves, top := Fork(n, split);
    var sums, counts := RunThreads(leaves, Max(threads, 1));
    value := Total(sums);
    var below := Total(counts);
    visits := below + top;
  }

  method FibParallel(n: nat, threads: nat) returns (value: nat, visits: nat)
    ensures value == Fib(n) && visits == Visits(n)
  {
    value, visits := FibForked(n, Split(n, threads), threads);
  }
}
