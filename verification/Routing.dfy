/**
 * The ranking of bids (crates/c0mpute-core/src/routing.rs): the bid order,
 * the stable sort that ranks with it, and what the top of the ranking means.
 */
module Routing {
  import opened Wrappers
  import opened Floats
  import opened Wire
  import StableSort
  import opened Arithmetic

  const OVERLOAD_THRESHOLD := 0.85
  const BENCH_BUCKET_RATIO := 1.1
  /** `i64::MAX`, the bucket of a bid without a usable benchmark score. */
  const UNRANKED := 0x7FFF_FFFF_FFFF_FFFF

  datatype SelectionPolicy = Smart | Cheapest

  // ---- the bid order ---------------------------------------------------

  function LoadOf(bid: JobBid): real {
    match bid.load
    case Some(Fin(l)) => Clamp01(l)
    case _ => 0.0
  }

  predicate IsOverloaded(bid: JobBid, deadline: nat) {
    LoadOf(bid) >= OVERLOAD_THRESHOLD || bid.etaSeconds > deadline
  }

  /** `floor(ln(ratio) / ln(1.1))`: how many whole 10% steps fit into `ratio`. */
  function Steps(ratio: real): (k: nat)
    requires ratio >= 1.0
    ensures Pow(1.1, k) <= ratio < Pow(1.1, k + 1)
    ensures k <= (ratio * 10.0).Floor
    decreases (ratio * 10.0).Floor
  {
    if ratio < BENCH_BUCKET_RATIO then
      assert Pow(BENCH_BUCKET_RATIO, 1) == BENCH_BUCKET_RATIO * Pow(BENCH_BUCKET_RATIO, 0);
      0
    else
      assert ratio / BENCH_BUCKET_RATIO * 10.0 <= ratio * 10.0 - 1.0;
      1 + Steps(ratio / BENCH_BUCKET_RATIO)
  }

  predicate Benchmarked(bid: JobBid, best: U32) {
    bid.benchScore.Some? && bid.benchScore.value > 0 && best > 0
  }

  function Ratio(score: U32, best: U32): (r: real)
    requires score > 0
    ensures r >= 1.0
  {
    MaxReal(best as real / score as real, 1.0)
  }

  function BenchBucket(bid: JobBid, best: U32): int {
    if Benchmarked(bid, best) then Steps(Ratio(bid.benchScore.value, best)) else UNRANKED
  }

  function BestBench(bids: seq<JobBid>): (best: U32)
    ensures forall b | b in bids && b.benchScore.Some? :: b.benchScore.value <= best
    ensures best == 0 || exists b | b in bids :: b.benchScore == Some(best)
  {
    if bids == [] then 0
    else
      var rest := BestBench(bids[1..]);
      match bids[0].benchScore
      case Some(s) => if rest < s then assert bids[0] in bids; s else rest
      case None => rest
  }

  function PriceCmp(a: JobBid, b: JobBid): Ordering {
    PartialCmpOrEqual(a.price, b.price)
  }

  /** What one auction ranks with: its policy, its deadline and the best score among its bids. */
  datatype Rule = Rule(policy: SelectionPolicy, deadline: nat, best: U32)

  function Compare(rule: Rule, a: JobBid, b: JobBid): Ordering {
    match rule.policy
    case Cheapest => PriceCmp(a, b)
    case Smart =>
      var oa, ob := IsOverloaded(a, rule.deadline), IsOverloaded(b, rule.deadline);
      CmpInt(if oa then 1 else 0, if ob then 1 else 0)
      .Then(if oa && ob then PartialCmpOrEqual(Fin(LoadOf(a)), Fin(LoadOf(b))) else Equal)
      .Then(CmpInt(BenchBucket(a, rule.best), BenchBucket(b, rule.best)))
      .Then(CmpInt(a.etaSeconds, b.etaSeconds))
      .Then(PriceCmp(a, b))
  }

  /** The sort key: `Compare`, then the earlier bid. */
  function Before(rule: Rule, a: JobBid, b: JobBid): Ordering {
    Compare(rule, a, b).Then(CmpInt(a.publishedMs, b.publishedMs))
  }

  predicate FinitePrices(bids: seq<JobBid>) {
    forall b | b in bids :: b.price.IsFinite()
  }

  /** What the comparisons among three bids have to do with each other in a total preorder. */
  predicate Consistent(ab: Ordering, ba: Ordering, bc: Ordering, ac: Ordering) {
    && (ab == Less <==> ba == Greater) && (ab == Equal <==> ba == Equal)
    && (ab != Greater && bc != Greater ==> ac != Greater)
    && (ab == Less && bc != Greater ==> ac == Less) && (ab != Greater && bc == Less ==> ac == Less)
    && (ab == Equal ==> ac == bc)
  }

  lemma ThenStaysConsistent(
    ab: Ordering, ba: Ordering, bc: Ordering, ac: Ordering, ab': Ordering, ba': Ordering, bc': Ordering, ac': Ordering)
    requires Consistent(ab, ba, bc, ac) && Consistent(ab', ba', bc', ac')
    ensures Consistent(ab.Then(ab'), ba.Then(ba'), bc.Then(bc'), ac.Then(ac'))
  {
  }

  lemma NumbersAreConsistent(x: F64, y: F64, z: F64)
    requires !x.NaN? && !y.NaN? && !z.NaN?
    ensures Consistent(PartialCmpOrEqual(x, y), PartialCmpOrEqual(y, x), PartialCmpOrEqual(y, z),
        PartialCmpOrEqual(x, z))
  {
  }

  lemma IntsAreConsistent(x: int, y: int, z: int)
    ensures Consistent(CmpInt(x, y), CmpInt(y, x), CmpInt(y, z), CmpInt(x, z))
  {
  }

  /** The overload key: free before overloaded, and among overloaded ones the less loaded. */
  function OverloadCmp(rule: Rule, a: JobBid, b: JobBid): Ordering {
    var oa, ob := IsOverloaded(a, rule.deadline), IsOverloaded(b, rule.deadline);
    CmpInt(if oa then 1 else 0, if ob then 1 else 0)
    .Then(if oa && ob then PartialCmpOrEqual(Fin(LoadOf(a)), Fin(LoadOf(b))) else Equal)
  }

  lemma OverloadIsConsistent(rule: Rule, a: JobBid, b: JobBid, c: JobBid)
    ensures Consistent(OverloadCmp(rule, a, b), OverloadCmp(rule, b, a), OverloadCmp(rule, b, c), OverloadCmp(rule,
        a, c))
  {
    NumbersAreConsistent(Fin(LoadOf(a)), Fin(LoadOf(b)), Fin(LoadOf(c)));
  }

  function SmartTail(rule: Rule, a: JobBid, b: JobBid): Ordering {
    CmpInt(BenchBucket(a, rule.best), BenchBucket(b, rule.best))
    .Then(CmpInt(a.etaSeconds, b.etaSeconds))
    .Then(PriceCmp(a, b))
  }

  lemma SmartTailIsConsistent(rule: Rule, a: JobBid, b: JobBid, c: JobBid)
    requires !a.price.NaN? && !b.price.NaN? && !c.price.NaN?
    ensures Consistent(SmartTail(rule, a, b), SmartTail(rule, b, a), SmartTail(rule, b, c), SmartTail(rule, a, c))
  {
    var x, y, z := BenchBucket(a, rule.best), BenchBucket(b, rule.best), BenchBucket(c, rule.best);
    IntsAreConsistent(x, y, z);
    IntsAreConsistent(a.etaSeconds, b.etaSeconds, c.etaSeconds);
    NumbersAreConsistent(a.price, b.price, c.price);
    ThenStaysConsistent(
      CmpInt(x, y), CmpInt(y, x), CmpInt(y, z), CmpInt(x, z),
      CmpInt(a.etaSeconds, b.etaSeconds), CmpInt(b.etaSeconds, a.etaSeconds),
      CmpInt(b.etaSeconds, c.etaSeconds), CmpInt(a.etaSeconds, c.etaSeconds));
    ThenStaysConsistent(
      CmpInt(x, y).Then(CmpInt(a.etaSeconds, b.etaSeconds)), CmpInt(y, x).Then(CmpInt(b.etaSeconds, a.etaSeconds)),
      CmpInt(y, z).Then(CmpInt(b.etaSeconds, c.etaSeconds)), CmpInt(x, z).Then(CmpInt(a.etaSeconds, c.etaSeconds)),
      PriceCmp(a, b), PriceCmp(b, a), PriceCmp(b, c), PriceCmp(a, c));
  }

  lemma SmartIs(rule: Rule, a: JobBid, b: JobBid)
    requires rule.policy == Smart
    ensures Compare(rule, a, b) == OverloadCmp(rule, a, b).Then(SmartTail(rule, a, b))
  {
  }

  lemma CompareIsConsistent(rule: Rule, a: JobBid, b: JobBid, c: JobBid)
    requires !a.price.NaN? && !b.price.NaN? && !c.price.NaN?
    ensures Consistent(Compare(rule, a, b), Compare(rule, b, a), Compare(rule, b, c), Compare(rule, a, c))
  {
    match rule.policy
    case Cheapest => NumbersAreConsistent(a.price, b.price, c.price);
    case Smart =>
      OverloadIsConsistent(rule, a, b, c);
      SmartTailIsConsistent(rule, a, b, c);
      SmartIs(rule, a, b);
      SmartIs(rule, b, a);
      SmartIs(rule, b, c);
      SmartIs(rule, a, c);
      ThenStaysConsistent(
        OverloadCmp(rule, a, b), OverloadCmp(rule, b, a), OverloadCmp(rule, b, c), OverloadCmp(rule, a, c),
        SmartTail(rule, a, b), SmartTail(rule, b, a), SmartTail(rule, b, c), SmartTail(rule, a, c));
  }

  /** On all prices that are numbers `Compare` is reflexive, flips with its arguments, and is transitive. */
  lemma CompareIsTotalPreorder(rule: Rule, a: JobBid, b: JobBid, c: JobBid)
    requires !a.price.NaN? && !b.price.NaN? && !c.price.NaN?
    ensures Compare(rule, a, a) == Equal
    ensures Compare(rule, a, b) == Less <==> Compare(rule, b, a) == Greater
    ensures Compare(rule, a, b) != Greater && Compare(rule, b, c) != Greater ==> Compare(rule, a, c) != Greater
    ensures Compare(rule, a, b) == Equal ==> Compare(rule, a, c) == Compare(rule, b, c)
  {
    CompareIsConsistent(rule, a, b, c);
  }

  lemma BeforeIsTotalPreorder(rule: Rule, a: JobBid, b: JobBid, c: JobBid)
    requires a.price.IsFinite() && b.price.IsFinite() && c.price.IsFinite()
    ensures Before(rule, a, a) == Equal
    ensures Before(rule, a, b) == Less <==> Before(rule, b, a) == Greater
    ensures Before(rule, a, b) != Greater && Before(rule, b, c) != Greater ==> Before(rule, a, c) != Greater
  {
    CompareIsTotalPreorder(rule, a, b, c);
    CompareIsTotalPreorder(rule, b, c, a);
    CompareIsTotalPreorder(rule, c, a, b);
  }

  /**
   * A price that is not a number ties with every price, so under either policy the order is lost. No such bid is
   * ever ranked: `Buyer.BidCounts` drops it before.
   */
  lemma NaNBreaksTransitivity(rule: Rule, bid: JobBid)
    ensures var dear, unpriced, cheap := bid.(price := Fin(2.0)), bid.(price := NaN), bid.(price := Fin(1.0));
            && Compare(rule, dear, unpriced) == Equal
            && Compare(rule, unpriced, cheap) == Equal
            && Compare(rule, dear, cheap) == Greater
  {
    var dear, unpriced, cheap := bid.(price := Fin(2.0)), bid.(price := NaN), bid.(price := Fin(1.0));
    assert LoadOf(dear) == LoadOf(unpriced) == LoadOf(cheap);
    assert BenchBucket(dear, rule.best) == BenchBucket(unpriced, rule.best) == BenchBucket(cheap, rule.best);
  }

  // ---- the stable sort -------------------------------------------------

  ghost predicate IsSorted(rule: Rule, s: seq<JobBid>) {
    forall i, j | 0 <= i < j < |s| :: Before(rule, s[i], s[j]) != Greater
  }

  /** The bids of `s` that tie with `x` under `Before`, in their order. */
  function TiedWith(rule: Rule, x: JobBid, s: seq<JobBid>): seq<JobBid> {
    if s == [] then []
    else if Before(rule, s[0], x) == Equal then [s[0]] + TiedWith(rule, x, s[1..])
    else TiedWith(rule, x, s[1..])
  }

  function StrictlyBefore(rule: Rule): (JobBid, JobBid) -> bool {
    (a, b) => Before(rule, a, b) == Less
  }

  function Insert(rule: Rule, s: seq<JobBid>, x: JobBid): seq<JobBid> {
    StableSort.Insert(StrictlyBefore(rule), s, x)
  }

  function Sorted(rule: Rule, s: seq<JobBid>): (r: seq<JobBid>)
    ensures multiset(r) == multiset(s) && |r| == |s|
  {
    StableSort.SortedPermutes(StrictlyBefore(rule), s);
    StableSort.Sorted(StrictlyBefore(rule), s)
  }

  lemma SameMembers(s: seq<JobBid>, t: seq<JobBid>)
    requires multiset(s) == multiset(t)
    ensures forall b :: b in s <==> b in t
  {
    forall b ensures b in s <==> b in t {
      assert b in s <==> b in multiset(s);
      assert b in t <==> b in multiset(t);
    }
  }

  lemma {:induction false} InsertSorted(rule: Rule, s: seq<JobBid>, x: JobBid)
    requires FinitePrices(s) && x.price.IsFinite()
    requires IsSorted(rule, s)
    ensures IsSorted(rule, Insert(rule, s, x))
    ensures forall b | b in Insert(rule, s, x) :: b in s || b == x
  {
    if s != [] {
      var last, front := s[|s| - 1], s[..|s| - 1];
      if Before(rule, x, last) == Less {
        InsertSorted(rule, front, x);
        forall b | b in Insert(rule, front, x) ensures Before(rule, b, last) != Greater {
          if b != x {
            var i :| 0 <= i < |front| && front[i] == b;
          }
        }
      } else {
        forall b | b in s ensures Before(rule, b, x) != Greater {
          var i :| 0 <= i < |s| && s[i] == b;
          BeforeIsTotalPreorder(rule, b, last, x);
          BeforeIsTotalPreorder(rule, last, x, b);
          BeforeIsTotalPreorder(rule, last, last, last);
        }
      }
    }
  }

  lemma {:induction false} SortedIsSorted(rule: Rule, s: seq<JobBid>)
    requires FinitePrices(s)
    ensures IsSorted(rule, Sorted(rule, s)) && FinitePrices(Sorted(rule, s))
  {
    if s != [] {
      SortedIsSorted(rule, s[..|s| - 1]);
      InsertSorted(rule, Sorted(rule, s[..|s| - 1]), s[|s| - 1]);
    }
    SameMembers(s, Sorted(rule, s));
  }

  lemma {:induction false} TiedWithAppend(rule: Rule, x: JobBid, s: seq<JobBid>, t: seq<JobBid>)
    ensures TiedWith(rule, x, s + t) == TiedWith(rule, x, s) + TiedWith(rule, x, t)
  {
    if s == [] {
      assert s + t == t;
    } else {
      TiedWithAppend(rule, x, s[1..], t);
      assert (s + t)[1..] == s[1..] + t;
    }
  }

  /** A bid strictly before another cannot tie with the same third bid. */
  lemma StrictlyBeforeNotTied(rule: Rule, x: JobBid, y: JobBid, z: JobBid)
    requires x.price.IsFinite() && y.price.IsFinite() && z.price.IsFinite()
    requires Before(rule, x, z) == Less
    ensures TiedWith(rule, y, [x]) == [] || TiedWith(rule, y, [z]) == []
  {
    BeforeIsTotalPreorder(rule, x, z, x);
    BeforeIsTotalPreorder(rule, x, y, x);
    BeforeIsTotalPreorder(rule, y, x, y);
    BeforeIsTotalPreorder(rule, z, y, x);
  }

  lemma {:induction false} InsertStable(rule: Rule, s: seq<JobBid>, x: JobBid, y: JobBid)
    requires FinitePrices(s) && x.price.IsFinite() && y.price.IsFinite()
    ensures TiedWith(rule, y, Insert(rule, s, x)) == TiedWith(rule, y, s) + TiedWith(rule, y, [x])
  {
    if s != [] && Before(rule, x, s[|s| - 1]) == Less {
      var last, front := s[|s| - 1], s[..|s| - 1];
      var tx, tl := TiedWith(rule, y, [x]), TiedWith(rule, y, [last]);
      calc {
        TiedWith(rule, y, Insert(rule, s, x));
        { TiedWithAppend(rule, y, Insert(rule, front, x), [last]); }
        TiedWith(rule, y, Insert(rule, front, x)) + tl;
        { InsertStable(rule, front, x, y); }
        TiedWith(rule, y, front) + tx + tl;
        { StrictlyBeforeNotTied(rule, x, y, last); }
        TiedWith(rule, y, front) + tl + tx;
        { TiedWithAppend(rule, y, front, [last]); assert s == front + [last]; }
        TiedWith(rule, y, s) + tx;
      }
    } else {
      TiedWithAppend(rule, y, s, [x]);
    }
  }

  /** Bids that tie keep the order they arrived in. */
  lemma {:induction false} SortedIsStable(rule: Rule, s: seq<JobBid>, y: JobBid)
    requires FinitePrices(s) && y.price.IsFinite()
    ensures TiedWith(rule, y, Sorted(rule, s)) == TiedWith(rule, y, s)
  {
    if s != [] {
      var last, front := s[|s| - 1], s[..|s| - 1];
      assert s == front + [last];
      SortedIsStable(rule, front, y);
      SortedIsSorted(rule, front);
      InsertStable(rule, Sorted(rule, front), last, y);
      TiedWithAppend(rule, y, front, [last]);
    }
  }

  lemma {:induction false} TiedWithMember(rule: Rule, x: JobBid, s: seq<JobBid>)
    ensures forall b | b in TiedWith(rule, x, s) :: b in s && Before(rule, b, x) == Equal
    ensures x in s && x.price.IsFinite() ==> TiedWith(rule, x, s) != []
  {
    if s != [] {
      TiedWithMember(rule, x, s[1..]);
      if x.price.IsFinite() { BeforeIsTotalPreorder(rule, x, x, x); }
    }
  }

  /**
   * A sorted arrangement that keeps ties in order is unique, so every stable sort
   * (the library's merge sort, or the insertion sort below) returns the same slice.
   */
  lemma {:induction false} StableSortIsUnique(rule: Rule, u: seq<JobBid>, v: seq<JobBid>)
    requires FinitePrices(u) && FinitePrices(v)
    requires IsSorted(rule, u) && IsSorted(rule, v)
    requires forall y: JobBid | y.price.IsFinite() :: TiedWith(rule, y, u) == TiedWith(rule, y, v)
    ensures u == v
  {
    if u == [] {
      if v != [] { TiedWithMember(rule, v[0], v); }
    } else if v == [] {
      TiedWithMember(rule, u[0], u);
    } else {
      TiedWithMember(rule, u[0], u);
      TiedWithMember(rule, u[0], v);
      TiedWithMember(rule, v[0], v);
      TiedWithMember(rule, v[0], u);
      FirstBeforeAll(rule, u);
      FirstBeforeAll(rule, v);
      var b := TiedWith(rule, u[0], v)[0];
      var c := TiedWith(rule, v[0], u)[0];
      BeforeIsTotalPreorder(rule, v[0], b, u[0]);
      BeforeIsTotalPreorder(rule, u[0], c, v[0]);
      assert Before(rule, v[0], u[0]) == Equal;
      BeforeIsTotalPreorder(rule, u[0], u[0], u[0]);
      assert TiedWith(rule, u[0], u)[0] == u[0];
      assert TiedWith(rule, u[0], v)[0] == v[0];
      forall y: JobBid | y.price.IsFinite()
        ensures TiedWith(rule, y, u[1..]) == TiedWith(rule, y, v[1..])
      {
        var tu, tv := TiedWith(rule, y, u), TiedWith(rule, y, v);
        if Before(rule, u[0], y) == Equal {
          assert tu[1..] == TiedWith(rule, y, u[1..]) && tv[1..] == TiedWith(rule, y, v[1..]);
        }
      }
      StableSortIsUnique(rule, u[1..], v[1..]);
    }
  }

  lemma FirstBeforeAll(rule: Rule, s: seq<JobBid>)
    requires s != [] && FinitePrices(s) && IsSorted(rule, s)
    ensures forall b | b in s :: Before(rule, s[0], b) != Greater && Compare(rule, s[0], b) != Greater
  {
    forall b | b in s ensures Before(rule, s[0], b) != Greater && Compare(rule, s[0], b) != Greater {
      var i :| 0 <= i < |s| && s[i] == b;
      BeforeIsTotalPreorder(rule, s[0], s[0], s[0]);
      CompareIsTotalPreorder(rule, b, s[0], b);
    }
  }

  // ---- ranking in place ------------------------------------------------

  function RuleFor(policy: SelectionPolicy, deadline: nat, bids: seq<JobBid>): Rule {
    Rule(policy, deadline, BestBench(bids))
  }

  function Ranked(policy: SelectionPolicy, deadline: nat, bids: seq<JobBid>): seq<JobBid> {
    Sorted(RuleFor(policy, deadline, bids), bids)
  }

  /** How many bids at the front compare equal to `top`. */
  function EqualPrefix(rule: Rule, s: seq<JobBid>, top: JobBid): nat {
    if s == [] || Compare(rule, s[0], top) != Equal then 0
    else 1 + EqualPrefix(rule, s[1..], top)
  }

  function Tied(policy: SelectionPolicy, deadline: nat, bids: seq<JobBid>): nat {
    var s := Ranked(policy, deadline, bids);
    if s == [] then 0 else EqualPrefix(RuleFor(policy, deadline, bids), s, s[0])
  }

  /** How many bids from the front compare equal to the first. */
  method CountTied(rule: Rule, bids: seq<JobBid>) returns (tied: nat)
    requires bids != []
    ensures tied == EqualPrefix(rule, bids, bids[0])
  {
    tied := 0;
    while tied < |bids| && Compare(rule, bids[tied], bids[0]) == Equal
      invariant 0 <= tied <= |bids|
      invariant EqualPrefix(rule, bids, bids[0]) == tied + EqualPrefix(rule, bids[tied..], bids[0])
    {
      assert bids[tied..][1..] == bids[tied + 1..];
      tied := tied + 1;
    }
  }

  /** Ranks the bids where they are; the result is how many tie with the winner. */
  method Rank(bids: array<JobBid>, policy: SelectionPolicy, deadline: nat) returns (tied: nat)
    modifies bids
    ensures bids[..] == Ranked(policy, deadline, old(bids[..]))
    ensures tied == Tied(policy, deadline, old(bids[..]))
  {
    var rule := RuleFor(policy, deadline, bids[..]);
    StableSort.SortInPlace(StrictlyBefore(rule), bids);
    if bids.Length == 0 { return 0; }
    tied := CountTied(rule, bids[..]);
  }

  lemma {:induction false} EqualPrefixExact(rule: Rule, s: seq<JobBid>, top: JobBid)
    requires FinitePrices(s) && top.price.IsFinite() && IsSorted(rule, s)
    requires forall b | b in s :: Compare(rule, top, b) != Greater
    ensures EqualPrefix(rule, s, top) <= |s|
    ensures forall i | 0 <= i < |s| :: i < EqualPrefix(rule, s, top) <==> Compare(rule, s[i], top) == Equal
  {
    if s != [] {
      EqualPrefixExact(rule, s[1..], top);
      FirstBeforeAll(rule, s);
      forall i | 0 <= i < |s| ensures i < EqualPrefix(rule, s, top) <==> Compare(rule, s[i], top) == Equal {
        assert s[i] in s && s[0] in s;
        if i > 0 { assert s[i] == s[1..][i - 1]; }
        CompareIsTotalPreorder(rule, s[0], s[i], top);
        CompareIsTotalPreorder(rule, top, s[0], top);
      }
    }
  }

  /**
   * The ranking is a sorted permutation, and the returned count is exactly the number
   * of bids that tie with the best: those positions and no others.
   */
  lemma RankIsSortedAndCountsTies(policy: SelectionPolicy, deadline: nat, bids: seq<JobBid>)
    requires FinitePrices(bids)
    ensures var s, rule := Ranked(policy, deadline, bids), RuleFor(policy, deadline, bids);
            && multiset(s) == multiset(bids)
            && IsSorted(rule, s)
            && Tied(policy, deadline, bids) <= |s|
            && (bids != [] ==> Tied(policy, deadline, bids) > 0)
            && forall i, b | 0 <= i < |s| && b in bids ::
                 && (i < Tied(policy, deadline, bids) ==> Compare(rule, s[i], b) != Greater)
                 && (i >= Tied(policy, deadline, bids) ==> Compare(rule, s[0], s[i]) == Less)
  {
    var s, rule := Ranked(policy, deadline, bids), RuleFor(policy, deadline, bids);
    SortedIsSorted(rule, bids);
    SameMembers(s, bids);
    if s != [] {
      FirstBeforeAll(rule, s);
      CompareIsTotalPreorder(rule, s[0], s[0], s[0]);
      EqualPrefixExact(rule, s, s[0]);
      forall i, b | 0 <= i < |s| && b in bids
        ensures i < Tied(policy, deadline, bids) ==> Compare(rule, s[i], b) != Greater
        ensures i >= Tied(policy, deadline, bids) ==> Compare(rule, s[0], s[i]) == Less
      {
        assert s[i] in s;
        CompareIsTotalPreorder(rule, s[i], s[0], b);
        CompareIsTotalPreorder(rule, s[0], s[i], b);
      }
    }
  }

  // ---- the winner ------------------------------------------------------

  /** The bid at the front after the tied ones were rotated left by `tick % tied`. */
  function Winner(policy: SelectionPolicy, deadline: nat, bids: seq<JobBid>, tick: nat): (w: JobBid)
    requires bids != [] && FinitePrices(bids)
    ensures w in bids
  {
    RankIsSortedAndCountsTies(policy, deadline, bids);
    var s, tied := Ranked(policy, deadline, bids), Tied(policy, deadline, bids);
    SameMembers(s, bids);
    s[tick % tied]
  }

  /** Whatever the rotation, no bid compares before the winner. */
  lemma WinnerIsMinimal(policy: SelectionPolicy, deadline: nat, bids: seq<JobBid>, tick: nat)
    requires bids != [] && FinitePrices(bids)
    ensures forall b | b in bids ::
              Compare(RuleFor(policy, deadline, bids), Winner(policy, deadline, bids, tick), b) != Greater
  {
    RankIsSortedAndCountsTies(policy, deadline, bids);
  }

  lemma {:induction false} PowMonotone(base: real, j: nat, k: nat)
    requires base >= 1.0 && j <= k
    ensures Pow(base, j) <= Pow(base, k)
  {
    if j < k {
      PowMonotone(base, j, k - 1);
      PowPositive(base, k - 1);
    }
  }

  lemma StepsMonotone(a: real, b: real)
    requires 1.0 <= a <= b
    ensures Steps(a) <= Steps(b)
  {
    if Steps(b) < Steps(a) {
      PowMonotone(BENCH_BUCKET_RATIO, Steps(b) + 1, Steps(a));
    }
  }

  lemma QuotientAntitone(low: real, high: real, b: real)
    requires 0.0 < low <= high && b >= 0.0
    ensures b / high <= b / low
  {
    var q := b / high;
    assert q * high == b && q >= 0.0;
    assert q * low <= b;
    assert b / low * low == b;
    if b / low < q { ScaleUpStrict(b / low, q, low); }
  }

  /** A better score never lands in a worse bucket, and no score at all is the worst bucket. */
  lemma BucketAntitone(a: JobBid, b: JobBid, best: U32)
    requires Benchmarked(b, best)
    requires a.benchScore.Some? ==> a.benchScore.value <= b.benchScore.value
    ensures BenchBucket(b, best) <= BenchBucket(a, best)
    ensures BenchBucket(b, best) < UNRANKED
    ensures BenchBucket(a, best) == UNRANKED <==> !Benchmarked(a, best)
  {
    BucketBelowUnranked(b, best);
    if Benchmarked(a, best) {
      BucketBelowUnranked(a, best);
      QuotientAntitone(a.benchScore.value as real, b.benchScore.value as real, best as real);
      StepsMonotone(Ratio(b.benchScore.value, best), Ratio(a.benchScore.value, best));
    }
  }

  lemma BucketBelowUnranked(a: JobBid, best: U32)
    requires Benchmarked(a, best)
    ensures BenchBucket(a, best) < UNRANKED
  {
    var s, t := a.benchScore.value as real, best as real;
    assert t / s * s == t;
    if t / s > t { assert t / s * s >= t / s; }
  }

  /** Scores in one bucket are less than 10% apart. */
  lemma SameBucketWithinTenPercent(a: JobBid, b: JobBid, best: U32)
    requires Benchmarked(a, best) && Benchmarked(b, best)
    requires a.benchScore.value <= best && b.benchScore.value <= best
    requires BenchBucket(a, best) == BenchBucket(b, best)
    ensures b.benchScore.value as real < BENCH_BUCKET_RATIO * a.benchScore.value as real
  {
    var s, t, m := a.benchScore.value as real, b.benchScore.value as real, best as real;
    var k := Steps(Ratio(a.benchScore.value, best));
    PowPositive(BENCH_BUCKET_RATIO, k);
    AtLeastOne(m, s);
    AtLeastOne(m, t);
    BucketEdges(Pow(BENCH_BUCKET_RATIO, k), m, s, t);
  }

  /** Two scores whose distance from `m` lies in one bucket `[p, 1.1 p)` differ by less than a factor 1.1. */
  lemma BucketEdges(p: real, m: real, s: real, t: real)
    requires p > 0.0 && s > 0.0 && t > 0.0
    requires p <= m / t && m / s < BENCH_BUCKET_RATIO * p
    ensures t < BENCH_BUCKET_RATIO * s
  {
    ScaleUp(p, m / t, t);
    ScaleUpStrict(m / s, BENCH_BUCKET_RATIO * p, s);
    assert p * t <= m < p * (BENCH_BUCKET_RATIO * s);
    if t >= BENCH_BUCKET_RATIO * s { ScaleUp(BENCH_BUCKET_RATIO * s, t, p); }
  }

  lemma AtLeastOne(m: real, s: real)
    requires 0.0 < s <= m
    ensures m / s >= 1.0
  {
  }

  lemma ScaleUp(x: real, y: real, z: real)
    requires x <= y && z > 0.0
    ensures x * z <= y * z
  {
  }

  lemma ScaleUpStrict(x: real, y: real, z: real)
    requires x < y && z > 0.0
    ensures x * z < y * z
  {
  }

  // ---- what the winner leads in ----------------------------------------

  /** A reported load counts if it is a number, cut to [0, 1]; one that is missing or no number counts as idle. */
  lemma LoadIsTheReport(bid: JobBid)
    ensures 0.0 <= LoadOf(bid) <= 1.0
    ensures bid.load.Some? && bid.load.value.Fin? ==>
              var l := bid.load.value.v;
              && (l <= 0.0 ==> LoadOf(bid) == 0.0)
              && (0.0 <= l <= 1.0 ==> LoadOf(bid) == l)
              && (1.0 <= l ==> LoadOf(bid) == 1.0)
    ensures bid.load.None? || !bid.load.value.Fin? ==> LoadOf(bid) == 0.0
  {
  }

  /** Overloaded is who reports a load of 85% or more, or cannot be done by the deadline. */
  lemma OverloadedExactlyWhen(bid: JobBid, deadline: nat)
    ensures IsOverloaded(bid, deadline) <==>
              || (bid.load.Some? && bid.load.value.Fin? && bid.load.value.v >= 0.85)
              || bid.etaSeconds > deadline
  {
  }

  /** Bucket `k` holds the scores from which the best is at least `k` and less than `k + 1` steps of 10% away. */
  lemma BucketCountsTenPercentSteps(bid: JobBid, best: U32)
    requires bid.benchScore.Some? && 0 < bid.benchScore.value <= best
    ensures var k, score := BenchBucket(bid, best), bid.benchScore.value as real;
            0 <= k && Pow(1.1, k) * score <= best as real < Pow(1.1, k + 1) * score
  {
    var score, top := bid.benchScore.value as real, best as real;
    var k := Steps(Ratio(bid.benchScore.value, best));
    AtLeastOne(top, score);
    RatioEdges(Pow(1.1, k), Pow(1.1, k + 1), top, score);
  }

  lemma RatioEdges(p: real, q: real, top: real, score: real)
    requires score > 0.0 && p <= top / score < q
    ensures p * score <= top < q * score
  {
    assert top / score * score == top;
    ScaleUp(p, top / score, score);
    ScaleUpStrict(top / score, q, score);
  }

  /** As loaded as each other: both have room, or both are overloaded to the same degree. */
  predicate AlikeInLoad(a: JobBid, b: JobBid, deadline: nat) {
    && IsOverloaded(a, deadline) == IsOverloaded(b, deadline)
    && (IsOverloaded(a, deadline) ==> LoadOf(a) == LoadOf(b))
  }

  /**
   * When a bid is at least as good as another, field by field. By price alone: if it is no dearer. In smart
   * routing: if it has room and the other has not; if both are overloaded and it is less so; and if they are alike
   * in that, by score bucket, at equal buckets by speed, and at equal speed by price.
   */
  lemma AtLeastAsGoodExactlyWhen(rule: Rule, a: JobBid, b: JobBid)
    requires a.price.Fin? && b.price.Fin?
    ensures rule.policy == Cheapest ==> (Compare(rule, a, b) != Greater <==> a.price.v <= b.price.v)
    ensures rule.policy == Smart && !AlikeInLoad(a, b, rule.deadline) ==>
              (Compare(rule, a, b) != Greater <==>
                 IsOverloaded(b, rule.deadline) && (IsOverloaded(a, rule.deadline) ==> LoadOf(a) <= LoadOf(b)))
    ensures rule.policy == Smart && AlikeInLoad(a, b, rule.deadline) ==>
              var k, l := BenchBucket(a, rule.best), BenchBucket(b, rule.best);
              (Compare(rule, a, b) != Greater <==>
                 k < l || (k == l && (a.etaSeconds < b.etaSeconds
                                      || (a.etaSeconds == b.etaSeconds && a.price.v <= b.price.v))))
  {
  }

  /**
   * What the winner leads in, in the bids' own numbers. The cheapest policy: no bid is cheaper. Smart routing: of
   * the bids as loaded as the winner none has a better bucket, none in its bucket is faster, and none as fast is
   * cheaper.
   */
  lemma WinnerLeads(policy: SelectionPolicy, deadline: nat, bids: seq<JobBid>, tick: nat, b: JobBid)
    requires bids != [] && FinitePrices(bids) && b in bids
    ensures var w, best := Winner(policy, deadline, bids, tick), BestBench(bids);
            && (policy == Cheapest ==> w.price.v <= b.price.v)
            && (policy == Smart && IsOverloaded(w, deadline) ==> IsOverloaded(b, deadline) && LoadOf(w) <= LoadOf(b))
            && (policy == Smart && AlikeInLoad(w, b, deadline) ==>
                  && BenchBucket(w, best) <= BenchBucket(b, best)
                  && (BenchBucket(w, best) == BenchBucket(b, best) ==>
                        && w.etaSeconds <= b.etaSeconds
                        && (w.etaSeconds == b.etaSeconds ==> w.price.v <= b.price.v)))
  {
    WinnerIsMinimal(policy, deadline, bids, tick);
    AtLeastAsGoodExactlyWhen(RuleFor(policy, deadline, bids), Winner(policy, deadline, bids, tick), b);
  }

  /** Of bids that differ in nothing the policy looks at, the ranking puts the one published first in front. */
  lemma EarlierBidRanksFirst(policy: SelectionPolicy, deadline: nat, bids: seq<JobBid>, i: nat, j: nat)
    requires FinitePrices(bids) && i < j < |Ranked(policy, deadline, bids)|
    ensures var a, b := Ranked(policy, deadline, bids)[i], Ranked(policy, deadline, bids)[j];
            && a.price == b.price
            && (policy == Smart ==>
                  && a.etaSeconds == b.etaSeconds && a.benchScore == b.benchScore && a.load == b.load)
            ==> a.publishedMs <= b.publishedMs
  {
    var rule, s := RuleFor(policy, deadline, bids), Ranked(policy, deadline, bids);
    SortedIsSorted(rule, bids);
    assert Before(rule, s[i], s[j]) != Greater;
  }

  /**
   * What smart routing promises. The winner is overloaded only if every bid is, and then it is a
   * least loaded one. Otherwise it is less than a factor 1.1 below every benchmarked bid that is
   * not overloaded, although buckets are measured from the best of all bids.
   */
  lemma SmartRoutingGuarantee(deadline: nat, bids: seq<JobBid>, tick: nat)
    requires bids != [] && FinitePrices(bids)
    ensures var w := Winner(Smart, deadline, bids, tick);
            && (IsOverloaded(w, deadline) <==> forall b | b in bids :: IsOverloaded(b, deadline))
            && (IsOverloaded(w, deadline) ==> forall b | b in bids :: LoadOf(w) <= LoadOf(b))
            && (!IsOverloaded(w, deadline) ==>
                  forall b | b in bids && !IsOverloaded(b, deadline) && b.benchScore.Some? && b.benchScore.value > 0 ::
                    && w.benchScore.Some?
                    && b.benchScore.value as real < 1.1 * w.benchScore.value as real)
  {
    var w, rule := Winner(Smart, deadline, bids, tick), RuleFor(Smart, deadline, bids);
    WinnerIsMinimal(Smart, deadline, bids, tick);
    if !IsOverloaded(w, deadline) {
      forall b | b in bids && !IsOverloaded(b, deadline) && b.benchScore.Some? && b.benchScore.value > 0
        ensures w.benchScore.Some? && b.benchScore.value as real < BENCH_BUCKET_RATIO * w.benchScore.value as real
      {
        assert Compare(rule, w, b) != Greater;
        assert BenchBucket(w, rule.best) <= BenchBucket(b, rule.best);
        BucketBelowUnranked(b, rule.best);
        assert Benchmarked(w, rule.best);
        if w.benchScore.value < b.benchScore.value {
          BucketAntitone(w, b, rule.best);
          SameBucketWithinTenPercent(w, b, rule.best);
        }
      }
    }
  }

  // ---- rotation --------------------------------------------------------

  /** Counter values wrap at the width of `usize`. */
  const COUNTER_MODULUS := 0x1_0000_0000_0000_0000

  /** The counter after `i` more increments, reduced to an offset among `t` tied bids. */
  function Offset(modulus: nat, start: nat, i: nat, t: nat): nat
    requires t > 0 && modulus > 0
  {
    (start + i) % modulus % t
  }

  ghost predicate EachPositionOnce(modulus: nat, start: nat, t: nat)
    requires t > 0 && modulus > 0
  {
    forall i, j | 0 <= i < j < t :: Offset(modulus, start, i, t) != Offset(modulus, start, j, t)
  }

  /**
   * Over `t` consecutive ties of `t` bids each tied position wins exactly once, if and only if
   * the counter does not wrap inside the series or `t` divides the counter's range.
   */
  lemma RotationIsFair(start: nat, t: nat)
    requires 0 < t < COUNTER_MODULUS && start < COUNTER_MODULUS
    ensures EachPositionOnce(COUNTER_MODULUS, start, t) <==>
              start + t <= 0x1_0000_0000_0000_0000 || 0x1_0000_0000_0000_0000 % t == 0
  {
    RotationAcrossAnyWidth(COUNTER_MODULUS, start, t);
  }

  lemma RotationAcrossAnyWidth(modulus: nat, start: nat, t: nat)
    requires 0 < t < modulus && start < modulus
    ensures EachPositionOnce(modulus, start, t) <==> start + t <= modulus || modulus % t == 0
  {
    if start + t <= modulus || modulus % t == 0 {
      forall i, j | 0 <= i < j < t ensures Offset(modulus, start, i, t) != Offset(modulus, start, j, t) {
        UnwrappedOffset(modulus, start, i, t);
        UnwrappedOffset(modulus, start, j, t);
        if (start + i) % t == (start + j) % t { ModEqual(start + i, start + j, t); }
      }
    } else {
      var i, j := RepeatedPosition(modulus, start, t);
    }
  }

  /** Two ties of the series that rotate by the same offset. */
  lemma RepeatedPosition(modulus: nat, start: nat, t: nat) returns (i: nat, j: nat)
    requires 0 < t < modulus && start < modulus < start + t && modulus % t != 0
    ensures i < j < t && Offset(modulus, start, i, t) == Offset(modulus, start, j, t)
  {
    var m, rho := modulus - start, modulus % t;
    DivMod(modulus, t);
    // either the first offset comes up again `rho` ties later, after the wrap,
    // or offset 0 comes up `rho` ties before the wrap and right after it
    i, j := if rho >= m then 0 else m - rho, if rho >= m then rho else m;
    var r := if rho >= m then rho - m else 0;
    OffsetIs(modulus, start, i, t, 0, start + i, modulus / t, r);
    OffsetIs(modulus, start, j, t, 1, r, 0, r);
  }

  lemma OffsetIs(modulus: nat, start: nat, i: nat, t: nat, p: nat, x: nat, q: nat, r: nat)
    requires 0 < t && x < modulus && start + i == modulus * p + x
    requires r < t && x == t * q + r
    ensures Offset(modulus, start, i, t) == r
  {
    ModUnique(start + i, p, x, modulus);
    ModUnique(x, q, r, t);
  }

  lemma UnwrappedOffset(modulus: nat, start: nat, i: nat, t: nat)
    requires 0 < t < modulus && start < modulus && i < t
    requires start + t <= modulus || modulus % t == 0
    ensures Offset(modulus, start, i, t) == (start + i) % t
  {
    if start + i < modulus {
      ModUnique(start + i, 0, start + i, modulus);
    } else {
      var x := start + i - modulus;
      ModUnique(start + i, 1, x, modulus);
      DivMod(modulus, t);
      DivMod(x, t);
      Distribute(t, modulus / t, x / t);
      ModUnique(start + i, modulus / t + x / t, x % t, t);
    }
  }
}
