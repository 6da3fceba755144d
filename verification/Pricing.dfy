/**
 * Quotes, and what auctions teach about them (crates/c0mpute-core/src/pricing.rs). Amounts are exact
 * reals in USD; amounts that come off the wire may also be non-finite.
 */
module Pricing {
  import opened Wrappers
  import opened Floats

  const DYNAMIC_IDLE_SHARE := 0.6
  const UNDERCUT := 0.02
  const WIN_PROBE := 0.05
  const MICROS := 1000000.0
  const CAP_TOLERANCE := 0.000000001

  // ---- what the market cleared at --------------------------------------

  /** An auction this node bid in: the job's cap, our bid, the agreed price, and who won. */
  datatype Outcome = Outcome(cap: F64, ourBid: F64, agreed: F64, won: bool)

  function ObserveShare(share: real, o: Outcome): real {
    if !(o.cap.Fin? && o.cap.v > 0.0 && o.agreed.Fin? && o.ourBid.Fin?) then share
    else if o.won then MinReal(share + (1.0 - share) * WIN_PROBE, 1.0)
    else if o.agreed.v < o.ourBid.v then Clamp01(o.agreed.v / o.cap.v * (1.0 - UNDERCUT))
    else share
  }

  /** The learner's share after a whole history of outcomes. */
  function Learn(share: real, history: seq<Outcome>): real {
    if history == [] then share else ObserveShare(Learn(share, history[..|history| - 1]), history[|history| - 1])
  }

  class MarketLearner {
    var share: real

    constructor ()
      ensures share == DYNAMIC_IDLE_SHARE
    {
      share := DYNAMIC_IDLE_SHARE;
    }

    method Observe(cap: F64, ourBid: F64, agreed: F64, won: bool)
      modifies this
      ensures share == ObserveShare(old(share), Outcome(cap, ourBid, agreed, won))
      ensures 0.0 <= old(share) <= 1.0 ==> 0.0 <= share <= 1.0 && (won ==> old(share) <= share)
    {
      if !(cap.Fin? && cap.v > 0.0 && agreed.Fin? && ourBid.Fin?) {
        return;
      }
      if won {
        share := MinReal(share + (1.0 - share) * WIN_PROBE, 1.0);
      } else if agreed.v < ourBid.v {
        share := Clamp01(agreed.v / cap.v * (1.0 - UNDERCUT));
      }
    }
  }

  lemma {:induction false} ShareStaysInUnit(share: real, history: seq<Outcome>)
    requires 0.0 <= share <= 1.0
    ensures 0.0 <= Learn(share, history) <= 1.0
  {
    if history != [] {
      ShareStaysInUnit(share, history[..|history| - 1]);
    }
  }

  /**
   * What one outcome teaches: a win moves the share a twentieth of its way to 1; losing to a cheaper bid sets the share
   * to 98% of what won; losing otherwise, and any outcome with an amount that is no number or no cap, teaches nothing.
   */
  lemma OutcomeTeaches(share: real, o: Outcome)
    requires 0.0 <= share <= 1.0
    ensures var counts := o.cap.Fin? && o.cap.v > 0.0 && o.agreed.Fin? && o.ourBid.Fin?;
            var next := ObserveShare(share, o);
            && (counts && o.won ==> 20.0 * (1.0 - next) == 19.0 * (1.0 - share))
            && (counts && !o.won && o.agreed.v < o.ourBid.v && 0.0 <= o.agreed.v <= o.cap.v ==>
                  next * o.cap.v == 0.98 * o.agreed.v)
            && (!counts || (!o.won && o.ourBid.v <= o.agreed.v) ==> next == share)
  {
    if o.cap.Fin? && o.cap.v > 0.0 && o.agreed.Fin? && 0.0 <= o.agreed.v <= o.cap.v {
      var part := o.agreed.v / o.cap.v;
      FractionOfCap(o.agreed.v, o.cap.v);
      assert part * o.cap.v == o.agreed.v;
      assert part * (1.0 - UNDERCUT) * o.cap.v == 0.98 * (part * o.cap.v);
    }
  }

  predicate Win(o: Outcome) {
    o.won && o.cap.Fin? && o.cap.v > 0.0 && o.agreed.Fin? && o.ourBid.Fin?
  }

  /** The share after `n` wins in a row. */
  function AfterWins(share: real, n: nat): real {
    if n == 0 then share else
      var before := AfterWins(share, n - 1);
      before + (1.0 - before) * WIN_PROBE
  }

  lemma {:induction false} WinsLearn(share: real, history: seq<Outcome>)
    requires 0.0 <= share <= 1.0 && forall o | o in history :: Win(o)
    ensures Learn(share, history) == AfterWins(share, |history|) <= 1.0
  {
    if history != [] {
      WinsLearn(share, history[..|history| - 1]);
      assert history[|history| - 1] in history;
    }
  }

  lemma {:induction false} GapAfterWins(share: real, n: nat)
    ensures 1.0 - AfterWins(share, n) == Pow(1.0 - WIN_PROBE, n) * (1.0 - share)
  {
    if n > 0 {
      GapAfterWins(share, n - 1);
      Regroup(1.0 - WIN_PROBE, Pow(1.0 - WIN_PROBE, n - 1), 1.0 - share);
    }
  }

  lemma Regroup(x: real, y: real, z: real)
    ensures x * (y * z) == x * y * z
  {
  }

  /** A winning streak of length `n` leaves `0.95^n` of the gap between the share and the cap. */
  lemma WinsCloseTheGap(share: real, history: seq<Outcome>) returns (gap: real)
    requires 0.0 <= share <= 1.0 && forall o | o in history :: Win(o)
    ensures gap == 1.0 - Learn(share, history)
    ensures gap == Pow(0.95, |history|) * (1.0 - share)
  {
    gap := 1.0 - AfterWins(share, |history|);
    WinsLearn(share, history);
    GapAfterWins(share, |history|);
  }

  // ---- quoting ---------------------------------------------------------

  /** The learned share, pushed toward the whole cap as the queue fills. */
  function BusyShare(load: real, share: real): (r: real)
    ensures 0.0 <= r <= 1.0
  {
    var base, l := Clamp01(share), Clamp01(load);
    GapFraction(base, l);
    base + (1.0 - base) * l
  }

  lemma GapFraction(base: real, l: real)
    requires 0.0 <= base <= 1.0 && 0.0 <= l <= 1.0
    ensures 0.0 <= (1.0 - base) * l <= 1.0 - base
  {
  }

  datatype PricingMode = Dynamic | Fixed

  datatype PricingConfig = PricingConfig(mode: PricingMode, minUsd: real, fixedUsd: Option<real>) {

    function Floor(): real {
      MaxReal(minUsd, 0.0)
    }

    /** Before rounding: the fixed price, or a share of the cap. */
    function PriceAt(maxUsd: real, share: real): real {
      match mode
      case Fixed => MaxReal(fixedUsd.GetOr(maxUsd), Floor())
      case Dynamic => MaxReal(maxUsd * share, Floor())
    }

    /** In dynamic mode the share is the learned one, pushed up by the queue load. */
    function RawPrice(maxUsd: real, load: real, share: real): real {
      PriceAt(maxUsd, BusyShare(load, share))
    }

    /** What to bid under the cap `maxUsd`, or nothing. */
    function QuoteInMarket(maxUsd: F64, load: real, share: real): Option<real> {
      if !maxUsd.Fin? || maxUsd.v < 0.0 then None
      else
        var price := RoundToMicros(RawPrice(maxUsd.v, load, share));
        if price <= maxUsd.v + CAP_TOLERANCE then Some(MinReal(price, maxUsd.v)) else None
    }
  }

  function RoundToMicros(x: real): real {
    Round(x * MICROS) as real / MICROS
  }

  /** A whole number of micro-dollars. */
  predicate WholeMicros(x: real) {
    (x * MICROS).Floor as real == x * MICROS
  }

  lemma RoundNear(x: real)
    ensures x - 0.5 <= Round(x) as real <= x + 0.5
  {
  }

  lemma RoundOfWhole(n: int)
    ensures Round(n as real) == n
  {
  }

  lemma RoundMonotone(x: real, y: real)
    requires x <= y
    ensures Round(x) <= Round(y)
  {
  }

  lemma RoundToMicrosNear(x: real)
    ensures x - 0.5 / MICROS <= RoundToMicros(x) <= x + 0.5 / MICROS
    ensures WholeMicros(x) ==> RoundToMicros(x) == x
    ensures WholeMicros(RoundToMicros(x))
  {
    RoundNear(x * MICROS);
    RoundOfWhole((x * MICROS).Floor);
  }

  lemma RoundToMicrosMonotone(x: real, y: real)
    requires x <= y
    ensures RoundToMicros(x) <= RoundToMicros(y)
  {
    RoundMonotone(x * MICROS, y * MICROS);
  }

  /** Whole micro-dollar amounts are a whole micro-dollar apart. */
  lemma WholeMicrosApart(x: real, y: real)
    requires WholeMicros(x) && WholeMicros(y) && x < y
    ensures x + 1.0 / MICROS <= y
  {
    var m, n := (x * MICROS).Floor, (y * MICROS).Floor;
    assert m < n;
  }

  /**
   * Every quote lies between the operator's floor and the buyer's cap when both are whole
   * micro-dollars; otherwise the floor can be missed by rounding, and by no more than that.
   */
  lemma QuoteWithinFloorAndCap(cfg: PricingConfig, maxUsd: F64, load: real, share: real)
    ensures var q := cfg.QuoteInMarket(maxUsd, load, share);
            q.Some? ==>
              && maxUsd.Fin?
              && 0.0 <= q.value <= maxUsd.v
              && cfg.Floor() - (0.5 / MICROS + CAP_TOLERANCE) <= q.value
              && (WholeMicros(cfg.Floor()) ==> cfg.Floor() - CAP_TOLERANCE <= q.value)
              && (WholeMicros(cfg.Floor()) && WholeMicros(maxUsd.v) ==> cfg.Floor() <= q.value)
  {
    if maxUsd.Fin? && maxUsd.v >= 0.0 {
      var raw, floor := cfg.RawPrice(maxUsd.v, load, share), cfg.Floor();
      RoundToMicrosNear(raw);
      RoundToMicrosNear(floor);
      RoundToMicrosMonotone(floor, raw);
      RoundToMicrosMonotone(0.0, raw);
      if WholeMicros(maxUsd.v) && RoundToMicros(raw) > maxUsd.v {
        WholeMicrosApart(maxUsd.v, RoundToMicros(raw));
      }
    }
  }

  lemma Scale(c: real, x: real, y: real)
    requires c >= 0.0 && x <= y
    ensures c * x <= c * y
  {
  }

  /** A cap that a dynamic node under this floor answers with a quote however full it is and whatever it learned. */
  ghost predicate AlwaysQuotes(cfg: PricingConfig, cap: real) {
    forall load: real, share: real :: cfg.QuoteInMarket(Fin(cap), load, share).Some?
  }

  /** At this cap the node quotes exactly when its floor fits under it, at every load and share. */
  ghost predicate QuotesByFloor(cfg: PricingConfig, cap: real) {
    forall load: real, share: real :: cfg.QuoteInMarket(Fin(cap), load, share).Some? <==> cfg.Floor() <= cap
  }

  /** The dearest price a dynamic node can arrive at, rounded, is one it may ask. */
  predicate TopPriceFits(cfg: PricingConfig, cap: real) {
    RoundToMicros(MaxReal(cap, cfg.Floor())) <= cap + CAP_TOLERANCE
  }

  lemma RawPriceAtMost(cfg: PricingConfig, cap: real, load: real, share: real)
    requires cfg.mode.Dynamic? && cap >= 0.0
    ensures cfg.Floor() <= cfg.RawPrice(cap, load, share) <= MaxReal(cap, cfg.Floor())
  {
    var busy := BusyShare(load, share);
    Scale(cap, busy, 1.0);
    PriceAtMost(cfg, cap, busy, cap * busy);
  }

  lemma PriceAtMost(cfg: PricingConfig, cap: real, busy: real, wanted: real)
    requires cfg.mode.Dynamic? && wanted == cap * busy && wanted <= cap
    ensures cfg.Floor() <= cfg.PriceAt(cap, busy) <= MaxReal(cap, cfg.Floor())
  {
  }

  lemma FullNodeAsksTheTopPrice(cfg: PricingConfig, cap: real)
    requires cfg.mode.Dynamic? && cap >= 0.0
    ensures cfg.RawPrice(cap, 1.0, 1.0) == MaxReal(cap, cfg.Floor())
    ensures cfg.QuoteInMarket(Fin(cap), 1.0, 1.0).Some? <==> TopPriceFits(cfg, cap)
  {
    assert BusyShare(1.0, 1.0) == 1.0;
  }

  lemma TopPriceFitsAll(cfg: PricingConfig, cap: real, load: real, share: real)
    requires cfg.mode.Dynamic? && cap >= 0.0 && TopPriceFits(cfg, cap)
    ensures cfg.QuoteInMarket(Fin(cap), load, share).Some?
  {
    RawPriceAtMost(cfg, cap, load, share);
    RoundToMicrosMonotone(cfg.RawPrice(cap, load, share), MaxReal(cap, cfg.Floor()));
  }

  /**
   * For every cap and floor: nothing can silence a dynamic node if and only if its top price rounds to one it
   * may ask.
   */
  lemma DynamicAlwaysQuotesExactlyWhen(cfg: PricingConfig, cap: real)
    requires cfg.mode.Dynamic? && cap >= 0.0
    ensures AlwaysQuotes(cfg, cap) <==> TopPriceFits(cfg, cap)
  {
    FullNodeAsksTheTopPrice(cfg, cap);
    if TopPriceFits(cfg, cap) {
      forall load: real, share: real
        ensures cfg.QuoteInMarket(Fin(cap), load, share).Some?
      {
        TopPriceFitsAll(cfg, cap, load, share);
      }
    } else {
      assert cfg.QuoteInMarket(Fin(cap), 1.0, 1.0).None?;
    }
  }

  lemma FloorOverCap(cfg: PricingConfig, cap: real, load: real, share: real)
    requires cfg.mode.Dynamic? && 0.0 <= cap < cfg.Floor()
    ensures cfg.QuoteInMarket(Fin(cap), load, share).Some? <==> TopPriceFits(cfg, cap)
  {
    RawPriceAtMost(cfg, cap, load, share);
  }

  /**
   * For every cap and floor: a dynamic node quotes exactly when its floor fits, at every load and share, if and
   * only if rounding the larger of the two agrees with comparing them. On whole micro-dollars it always does.
   */
  lemma DynamicQuotesExactlyWhenFloorFits(cfg: PricingConfig, cap: real)
    requires cfg.mode.Dynamic? && cap >= 0.0
    ensures QuotesByFloor(cfg, cap) <==> (TopPriceFits(cfg, cap) <==> cfg.Floor() <= cap)
    ensures WholeMicros(cfg.Floor()) && WholeMicros(cap) ==> QuotesByFloor(cfg, cap)
  {
    FullNodeAsksTheTopPrice(cfg, cap);
    if TopPriceFits(cfg, cap) <==> cfg.Floor() <= cap {
      forall load: real, share: real
        ensures cfg.QuoteInMarket(Fin(cap), load, share).Some? <==> cfg.Floor() <= cap
      {
        if cfg.Floor() <= cap {
          TopPriceFitsAll(cfg, cap, load, share);
        } else {
          FloorOverCap(cfg, cap, load, share);
        }
      }
    } else {
      assert cfg.QuoteInMarket(Fin(cap), 1.0, 1.0).Some? <==> TopPriceFits(cfg, cap);
    }
    WholeAmountsCompare(cfg, cap);
  }

  lemma WholeAmountsCompare(cfg: PricingConfig, cap: real)
    ensures WholeMicros(cfg.Floor()) && WholeMicros(cap) ==> (TopPriceFits(cfg, cap) <==> cfg.Floor() <= cap)
  {
    var top := MaxReal(cap, cfg.Floor());
    RoundToMicrosNear(top);
    if WholeMicros(cfg.Floor()) && WholeMicros(cap) && cap < cfg.Floor() {
      WholeMicrosApart(cap, cfg.Floor());
    }
  }

  /** A cap of half a micro-dollar: it clears a zero floor, and a full node rounds its price over it. */
  lemma FractionalCapCanSilenceAFullNode()
    ensures var cfg := PricingConfig(Dynamic, 0.0, None);
            && cfg.Floor() <= 0.0000005
            && !TopPriceFits(cfg, 0.0000005)
            && cfg.QuoteInMarket(Fin(0.0000005), 1.0, DYNAMIC_IDLE_SHARE) == None
            && !AlwaysQuotes(cfg, 0.0000005) && !QuotesByFloor(cfg, 0.0000005)
  {
    var cfg := PricingConfig(Dynamic, 0.0, None);
    assert Round(0.5) == 1;
    assert cfg.RawPrice(0.0000005, 1.0, DYNAMIC_IDLE_SHARE) == 0.0000005;
    DynamicAlwaysQuotesExactlyWhen(cfg, 0.0000005);
    DynamicQuotesExactlyWhenFloorFits(cfg, 0.0000005);
  }

  // ---- what is asked ---------------------------------------------------

  /** The quote is the amount asked, rounded to the nearest micro-dollar, halves up. */
  lemma RoundsToTheNearestMicro(x: real)
    requires x >= 0.0
    ensures (RoundToMicros(x) * 1000000.0).Floor as real == RoundToMicros(x) * 1000000.0
    ensures RoundToMicros(x) - 0.0000005 <= x < RoundToMicros(x) + 0.0000005
  {
    RoundToMicrosNear(x);
    RoundHalfUp(x * MICROS);
  }

  lemma RoundHalfUp(x: real)
    requires x >= 0.0
    ensures x < Round(x) as real + 0.5
  {
  }

  /** What a node that asks `amount` under the cap makes of it, for every amount. */
  predicate QuotesAmount(quote: Option<real>, amount: real, cap: real) {
    && (quote.Some? <==> RoundToMicros(amount) <= cap + 0.000000001)
    && (quote.Some? ==> quote.value == if cap < RoundToMicros(amount) then cap else RoundToMicros(amount))
  }

  lemma WholeAmountIsQuotedAsIs(quote: Option<real>, amount: real, cap: real)
    requires QuotesAmount(quote, amount, cap) && WholeMicros(amount) && WholeMicros(cap)
    ensures quote == if amount <= cap then Some(amount) else None
  {
    RoundToMicrosNear(amount);
    if cap < amount { WholeMicrosApart(cap, amount); }
  }

  /** What a fixed listing asks: its price (without one, the cap), raised to the floor. */
  function FixedAmount(cfg: PricingConfig, cap: real): (amount: real)
    ensures amount >= cfg.minUsd && amount >= 0.0
    ensures var price := if cfg.fixedUsd.Some? then cfg.fixedUsd.value else cap;
            amount >= price && (amount == price || amount == cfg.minUsd || amount == 0.0)
  {
    var price := if cfg.fixedUsd.Some? then cfg.fixedUsd.value else cap;
    if price >= cfg.minUsd && price >= 0.0 then price else if cfg.minUsd >= 0.0 then cfg.minUsd else 0.0
  }

  /**
   * A fixed node asks its price, however full it is and whatever it learned: it quotes exactly when that price,
   * raised to the floor and rounded to micro-dollars, fits under the cap. On whole micro-dollars the quote is the
   * price itself.
   */
  lemma FixedQuotesExactlyWhen(cfg: PricingConfig, cap: real, load: real, share: real)
    requires cfg.mode.Fixed? && cap >= 0.0
    ensures var quote, amount := cfg.QuoteInMarket(Fin(cap), load, share), FixedAmount(cfg, cap);
            && QuotesAmount(quote, amount, cap)
            && (WholeMicros(amount) && WholeMicros(cap) ==> quote == if amount <= cap then Some(amount) else None)
  {
    var amount := FixedAmount(cfg, cap);
    assert cfg.RawPrice(cap, load, share) == amount;
    if WholeMicros(amount) && WholeMicros(cap) {
      WholeAmountIsQuotedAsIs(cfg.QuoteInMarket(Fin(cap), load, share), amount, cap);
    }
  }

  /**
   * A dynamic node asks its share of the cap (`idle`) when it is idle, the whole cap when its queue is full, in
   * proportion in between, and never less than its floor.
   */
  lemma DynamicAsks(cfg: PricingConfig, cap: real, load: real, share: real, idle: real, wanted: real)
    requires cfg.mode.Dynamic? && cap >= 0.0 && 0.0 <= load <= 1.0 && 0.0 <= share <= 1.0
    requires idle == cap * share && wanted == idle + load * (cap - idle)
    ensures var least := if cfg.minUsd > 0.0 then cfg.minUsd else 0.0;
            QuotesAmount(cfg.QuoteInMarket(Fin(cap), load, share), if wanted < least then least else wanted, cap)
  {
    BusyShareOfCap(cap, load, share, idle, wanted);
    AskedFor(cfg, cap, load, share, wanted);
  }

  lemma BusyShareOfCap(cap: real, load: real, share: real, idle: real, wanted: real)
    requires 0.0 <= load <= 1.0 && 0.0 <= share <= 1.0
    requires idle == cap * share && wanted == idle + load * (cap - idle)
    ensures cap * BusyShare(load, share) == wanted
  {
    ShareOfCap(cap, share, load);
  }

  lemma AskedFor(cfg: PricingConfig, cap: real, load: real, share: real, wanted: real)
    requires cfg.mode.Dynamic? && cap >= 0.0 && cap * BusyShare(load, share) == wanted
    ensures var least := if cfg.minUsd > 0.0 then cfg.minUsd else 0.0;
            QuotesAmount(cfg.QuoteInMarket(Fin(cap), load, share), if wanted < least then least else wanted, cap)
  {
  }

  lemma ShareOfCap(cap: real, share: real, load: real)
    ensures cap * (share + (1.0 - share) * load) == cap * share + load * (cap - cap * share)
  {
    assert cap * ((1.0 - share) * load) == load * (cap - cap * share);
  }

  /** Load and share count as if cut to [0, 1], and a cap that is negative or no number gets no quote. */
  lemma OddInputsAreCut(cfg: PricingConfig, cap: F64, load: real, share: real)
    ensures cfg.QuoteInMarket(cap, load, share) == cfg.QuoteInMarket(cap, Clamp01(load), Clamp01(share))
    ensures !cap.Fin? || cap.v < 0.0 ==> cfg.QuoteInMarket(cap, load, share) == None
  {
    assert BusyShare(load, share) == BusyShare(Clamp01(load), Clamp01(share));
  }

  /** A fuller queue or a higher learned share never lowers the quote. */
  lemma QuoteRisesWithLoadAndShare(cfg: PricingConfig, maxUsd: F64, l1: real, l2: real, s1: real, s2: real)
    requires l1 <= l2 && s1 <= s2
    ensures var q1, q2 := cfg.QuoteInMarket(maxUsd, l1, s1), cfg.QuoteInMarket(maxUsd, l2, s2);
            && (q1.Some? && q2.Some? ==> q1.value <= q2.value)
            && (q2.Some? ==> q1.Some?)
  {
    if maxUsd.Fin? && maxUsd.v >= 0.0 {
      RawPriceMonotone(cfg, maxUsd.v, l1, l2, s1, s2);
      RoundToMicrosMonotone(cfg.RawPrice(maxUsd.v, l1, s1), cfg.RawPrice(maxUsd.v, l2, s2));
    }
  }

  lemma RawPriceMonotone(cfg: PricingConfig, maxUsd: real, l1: real, l2: real, s1: real, s2: real)
    requires l1 <= l2 && s1 <= s2 && maxUsd >= 0.0
    ensures cfg.RawPrice(maxUsd, l1, s1) <= cfg.RawPrice(maxUsd, l2, s2)
  {
    BusyShareMonotone(l1, l2, s1, s2);
    PriceAtMonotone(cfg, maxUsd, BusyShare(l1, s1), BusyShare(l2, s2));
  }

  lemma PriceAtMonotone(cfg: PricingConfig, maxUsd: real, x: real, y: real)
    requires x <= y && maxUsd >= 0.0
    ensures cfg.PriceAt(maxUsd, x) <= cfg.PriceAt(maxUsd, y)
  {
    Scale(maxUsd, x, y);
  }

  lemma ClampMonotone(x: real, y: real)
    requires x <= y
    ensures Clamp01(x) <= Clamp01(y)
  {
  }

  lemma BusyShareMonotone(l1: real, l2: real, s1: real, s2: real)
    requires l1 <= l2 && s1 <= s2
    ensures BusyShare(l1, s1) <= BusyShare(l2, s2)
  {
    ClampMonotone(s1, s2);
    ClampMonotone(l1, l2);
    ShareMonotone(Clamp01(s1), Clamp01(s2), Clamp01(l1), Clamp01(l2));
  }

  lemma ShareMonotone(b1: real, b2: real, c1: real, c2: real)
    requires 0.0 <= b1 <= b2 <= 1.0 && 0.0 <= c1 <= c2 <= 1.0
    ensures b1 + (1.0 - b1) * c1 <= b2 + (1.0 - b2) * c2
  {
    Scale(1.0 - b2, c1, c2);
    Scale(1.0 - c1, b1, b2);
    assert b1 + (1.0 - b1) * c1 == (1.0 - c1) * b1 + c1;
    assert b2 + (1.0 - b2) * c1 == (1.0 - c1) * b2 + c1;
  }

  /**
   * Losing to a cheaper bid of `a` whole micro-dollars: the next idle quote at the same cap,
   * with no floor, is at most that price, and lower exactly when it was at least 26 micro-dollars.
   */
  lemma LosingUndercutsNextTime(share: real, cap: real, ourBid: real, a: nat, cfg: PricingConfig)
    requires cap > 0.0 && a as real / MICROS <= cap && a as real / MICROS < ourBid
    requires cfg.mode.Dynamic? && cfg.Floor() == 0.0
    ensures var agreed := a as real / MICROS;
            var learned := ObserveShare(share, Outcome(Fin(cap), Fin(ourBid), Fin(agreed), false));
            var q := cfg.QuoteInMarket(Fin(cap), 0.0, learned);
            && q.Some?
            && q.value <= agreed
            && (q.value < agreed <==> a >= 26)
  {
    var agreed := a as real / MICROS;
    var learned := LosingLearns(share, cap, ourBid, agreed, cfg);
    assert cfg.RawPrice(cap, 0.0, learned) * MICROS == a as real * (1.0 - UNDERCUT);
    RoundUndercut(a);
  }

  lemma LosingLearns(share: real, cap: real, ourBid: real, agreed: real, cfg: PricingConfig) returns (learned: real)
    requires cap > 0.0 && 0.0 <= agreed <= cap && agreed < ourBid
    requires cfg.mode.Dynamic? && cfg.Floor() == 0.0
    ensures learned == ObserveShare(share, Outcome(Fin(cap), Fin(ourBid), Fin(agreed), false))
    ensures cfg.RawPrice(cap, 0.0, learned) == agreed * (1.0 - UNDERCUT)
  {
    learned := ObserveShare(share, Outcome(Fin(cap), Fin(ourBid), Fin(agreed), false));
    FractionOfCap(agreed, cap);
    assert learned == agreed / cap * (1.0 - UNDERCUT);
    assert cap * learned == agreed * (1.0 - UNDERCUT) by { assert agreed / cap * cap == agreed; }
  }

  lemma FractionOfCap(x: real, cap: real)
    requires cap > 0.0 && 0.0 <= x <= cap
    ensures 0.0 <= x / cap <= 1.0
  {
  }

  lemma RoundUndercut(a: nat)
    ensures Round(a as real * (1.0 - UNDERCUT)) <= a
    ensures Round(a as real * (1.0 - UNDERCUT)) < a <==> a >= 26
  {
  }
}
