/** What fees, spread and slippage do to a round trip. */
module CostLaws {
  import opened Decimals
  import opened Trades

  predicate Accepted(input: RoundTripInput) {
    ValidInput(Normalized(input))
  }

  function Trip(input: RoundTripInput): RoundTrip
    requires Accepted(input)
  {
    EvaluateRoundTrip(input).value
  }

  // ---------------------------------------------------------------- a trip is two fills

  function EntryFill(input: RoundTripInput): FillInput {
    FillInput(input.direction, Entry, input.entryTime, input.entryMid, input.quantity, input.entryLiquidity,
              input.costs)
  }

  function ExitFill(input: RoundTripInput): FillInput {
    FillInput(input.direction, Exit, input.exitTime, input.exitMid, input.quantity, input.exitLiquidity, input.costs)
  }

  /** A round trip is accepted exactly when both of its fills are, on their own, and the exit is later than the
      entry; its two legs are these fills. */
  lemma TripIsTwoFills(input: RoundTripInput)
    ensures EvaluateRoundTrip(input).Ok? <==>
      EvaluateFill(EntryFill(input)).Ok? && EvaluateFill(ExitFill(input)).Ok? && input.entryTime < input.exitTime
    ensures EvaluateRoundTrip(input).Ok? ==>
      && EvaluateRoundTrip(input).value.entry == EvaluateFill(EntryFill(input)).value
      && EvaluateRoundTrip(input).value.exit == EvaluateFill(ExitFill(input)).value
  {
    hide Mul, Quo, BpsRatio, ImpactBPS, ApplyPriceImpact;
  }

  /** A trip is accepted exactly with a direction, with liquidity roles that are known or left open, with an exit
      after the entry, with positive prices and quantity, and with costs that are not negative and whose impact is
      below 10000 basis points. */
  lemma TripAcceptedIff(input: RoundTripInput)
    ensures EvaluateRoundTrip(input).Ok? <==>
      && (input.direction == Long || input.direction == Short)
      && input.entryLiquidity != OtherLiquidity && input.exitLiquidity != OtherLiquidity
      && input.entryTime != 0 && input.exitTime != 0 && input.entryTime < input.exitTime
      && input.entryMid > 0.0 && input.exitMid > 0.0 && input.quantity > 0.0
      && input.costs.makerFee >= 0.0 && input.costs.takerFee >= 0.0
      && input.costs.spread >= 0.0 && input.costs.slippage >= 0.0 && input.costs.factor > 0.0
      && Quo(input.costs.spread, 2.0) + input.costs.slippage * input.costs.factor < 10000.0
  {
    hide Quo, BpsRatio, ApplyPriceImpact;
  }

  /** One leg of a trip: the price after impact, the notional, and the fee at the rate of its liquidity role,
      which is the taker's unless it is a maker. */
  predicate LegHolds(leg: Fill, time: int, mid: real, factor: real, maker: bool, input: RoundTripInput) {
    var rate := if maker then input.costs.makerFee else input.costs.takerFee;
    && leg.time == time && leg.midPrice == mid && leg.quantity == input.quantity
    && leg.executedPrice == mid * factor
    && leg.notional == leg.executedPrice * input.quantity
    && leg.feeBPS == rate && leg.fee == leg.notional * Quo(rate, 10000.0)
    && leg.spreadBPS == Quo(input.costs.spread, 2.0)
    && leg.slippageBPS == input.costs.slippage * input.costs.factor
  }

  /** The ratio by which a price moves against the trader. */
  function ImpactRatio(c: CostModel): real {
    Quo(Quo(c.spread, 2.0) + Mul(c.slippage, c.factor), 10000.0)
  }

  lemma ImpactIs(c: CostModel)
    ensures BpsRatio(ImpactBPS(c)) == ImpactRatio(c)
  {
    hide Quo, Mul;
  }

  lemma LegIs(input: RoundTripInput, time: int, mid: real, liquidity: Liquidity, entry: bool)
    requires input.direction.Long? || input.direction.Short?
    ensures var up := input.direction.Long? == entry;
      LegHolds(ExecutableFill(input.direction, time, mid, input.quantity, OrTaker(liquidity), input.costs, entry),
               time, mid, if up then 1.0 + ImpactRatio(input.costs) else 1.0 - ImpactRatio(input.costs),
               liquidity == Maker, input)
  {
    ImpactIs(input.costs);
    hide Quo, ImpactRatio, ImpactBPS;
  }

  /** Every field of an evaluated trip: the buying leg pays the impact on top of the mid price, the selling leg has
      it taken off. */
  lemma TripByValue(input: RoundTripInput)
    requires EvaluateRoundTrip(input).Ok?
    ensures var trip := EvaluateRoundTrip(input).value;
      var (more, less) := (1.0 + ImpactRatio(input.costs), 1.0 - ImpactRatio(input.costs));
      var (entry, exit) := (trip.entry, trip.exit);
      && trip.direction == input.direction
      && LegHolds(entry, input.entryTime, input.entryMid, if input.direction == Long then more else less,
                  input.entryLiquidity == Maker, input)
      && LegHolds(exit, input.exitTime, input.exitMid, if input.direction == Long then less else more,
                  input.exitLiquidity == Maker, input)
      && trip.grossPnL
           == (if input.direction == Long then exit.executedPrice - entry.executedPrice
               else entry.executedPrice - exit.executedPrice) * input.quantity
      && trip.fees == entry.fee + exit.fee && trip.netPnL == trip.grossPnL - trip.fees
      && trip.returnRate == if entry.notional != 0.0 then Quo(trip.netPnL, entry.notional) else 0.0
  {
    hide Quo, ImpactRatio, LegHolds, ExecutableFill, ImpactBPS;
    LegIs(input, input.entryTime, input.entryMid, input.entryLiquidity, true);
    LegIs(input, input.exitTime, input.exitMid, input.exitLiquidity, false);
  }

  // ---------------------------------------------------------------- the numbers behind a trip

  /** All that the profit of a trip depends on: mid prices, quantity, impact ratio and the two fee ratios. */
  datatype Terms = Terms(
    long: bool, entryMid: real, exitMid: real, quantity: real, impact: real, entryFee: real, exitFee: real)

  function TermsOf(input: RoundTripInput): Terms {
    Terms(input.direction.Long?, input.entryMid, input.exitMid, input.quantity, BpsRatio(ImpactBPS(input.costs)),
          BpsRatio(FeeBPS(input.costs, input.entryLiquidity)), BpsRatio(FeeBPS(input.costs, input.exitLiquidity)))
  }

  predicate Sane(t: Terms) {
    && 0.0 < t.entryMid && 0.0 < t.exitMid && 0.0 < t.quantity
    && 0.0 <= t.impact <= 1.0 && 0.0 <= t.entryFee && 0.0 <= t.exitFee
  }

  function EntryPrice(t: Terms): real {
    Mul(t.entryMid, if t.long then 1.0 + t.impact else 1.0 - t.impact)
  }

  function ExitPrice(t: Terms): real {
    Mul(t.exitMid, if t.long then 1.0 - t.impact else 1.0 + t.impact)
  }

  function Gross(t: Terms): real {
    Mul(if t.long then ExitPrice(t) - EntryPrice(t) else EntryPrice(t) - ExitPrice(t), t.quantity)
  }

  function Fees(t: Terms): real {
    Mul(Mul(EntryPrice(t), t.quantity), t.entryFee) + Mul(Mul(ExitPrice(t), t.quantity), t.exitFee)
  }

  lemma TripOfTerms(input: RoundTripInput)
    requires Accepted(input)
    ensures var (trip, t) := (Trip(input), TermsOf(input));
      && trip.direction == input.direction && trip.entry.quantity == trip.exit.quantity == input.quantity
      && trip.entry.executedPrice == EntryPrice(t) && trip.exit.executedPrice == ExitPrice(t)
      && trip.grossPnL == Gross(t) && trip.fees == Fees(t) && trip.netPnL == Gross(t) - Fees(t)
  {
    hide Mul, BpsRatio, ImpactBPS, Quo;
  }

  lemma BpsRatioRange(value: real)
    ensures 0.0 <= value ==> 0.0 <= BpsRatio(value)
    ensures value <= BPS ==> BpsRatio(value) <= 1.0
  {
    Round16Fixes(0);
    Round16Fixes(SCALE);
    if 0.0 <= value {
      Round16Mono(0.0, value / BPS);
    }
    if value <= BPS {
      Round16Mono(value / BPS, 1.0);
    }
  }

  lemma BpsRatioMono(x: real, y: real)
    requires x <= y
    ensures BpsRatio(x) <= BpsRatio(y)
  {
    QuoMono(x, y, BPS);
  }

  lemma HalfSpreadMono(x: real, y: real)
    requires x <= y
    ensures Quo(x, 2.0) <= Quo(y, 2.0)
    ensures 0.0 <= x ==> 0.0 <= Quo(x, 2.0)
  {
    QuoMono(x, y, 2.0);
    Round16Fixes(0);
    if 0.0 <= x {
      QuoMono(0.0, x, 2.0);
    }
  }

  lemma MulNonNegative(x: real, y: real)
    requires 0.0 <= x && 0.0 <= y
    ensures 0.0 <= Mul(x, y)
    ensures 0.0 < x && 0.0 < y ==> 0.0 < Mul(x, y)
  {
  }

  lemma ImpactNonNegative(costs: CostModel)
    requires ValidCosts(costs)
    ensures 0.0 <= ImpactBPS(costs) < BPS
  {
    HalfSpreadMono(costs.spread, costs.spread);
    MulNonNegative(costs.slippage, costs.factor);
    hide Quo, Mul;
  }

  lemma TermsAreSane(input: RoundTripInput)
    requires Accepted(input)
    ensures Sane(TermsOf(input))
  {
    hide BpsRatio, ImpactBPS;
    ImpactNonNegative(input.costs);
    BpsRatioRange(ImpactBPS(input.costs));
    BpsRatioRange(FeeBPS(input.costs, input.entryLiquidity));
    BpsRatioRange(FeeBPS(input.costs, input.exitLiquidity));
  }

  // ---------------------------------------------------------------- gross and net against the frictionless trip

  /** The profit at mid prices without any cost. */
  function Frictionless(t: Terms): real {
    Mul(if t.long then t.exitMid - t.entryMid else t.entryMid - t.exitMid, t.quantity)
  }

  lemma GrossAlgebra(bought: real, sold: real, q: real, r: real)
    ensures Mul(Mul(sold, 1.0 - r) - Mul(bought, 1.0 + r), q)
         == Mul(sold - bought, q) - Mul(Mul(q, r), bought + sold)
  {
    assert sold * (1.0 - r) - bought * (1.0 + r) == (sold - bought) - r * (bought + sold);
    assert ((sold - bought) - r * (bought + sold)) * q == (sold - bought) * q - (r * (bought + sold)) * q;
    assert (r * (bought + sold)) * q == (q * r) * (bought + sold);
  }

  lemma GrossOfTerms(t: Terms)
    ensures Gross(t) == Frictionless(t) - Mul(Mul(t.quantity, t.impact), t.entryMid + t.exitMid)
  {
    if t.long {
      GrossAlgebra(t.entryMid, t.exitMid, t.quantity, t.impact);
    } else {
      GrossAlgebra(t.exitMid, t.entryMid, t.quantity, t.impact);
    }
    hide Mul;
  }

  lemma PricesNonNegative(t: Terms)
    requires Sane(t)
    ensures 0.0 <= EntryPrice(t) && 0.0 <= ExitPrice(t)
    ensures (0.0 < EntryPrice(t) && 0.0 < ExitPrice(t)) <==> t.impact < 1.0
  {
    var (a, b, r) := (t.entryMid, t.exitMid, t.impact);
    MulNonNegative(a, 1.0 + r);
    MulNonNegative(a, 1.0 - r);
    MulNonNegative(b, 1.0 + r);
    MulNonNegative(b, 1.0 - r);
    assert Mul(a, 0.0) == 0.0 && Mul(b, 0.0) == 0.0;
    hide Mul;
  }

  lemma FeesNonNegative(t: Terms)
    requires Sane(t)
    ensures 0.0 <= Fees(t)
  {
    PricesNonNegative(t);
    hide Mul, EntryPrice, ExitPrice;
    MulNonNegative(EntryPrice(t), t.quantity);
    MulNonNegative(ExitPrice(t), t.quantity);
    MulNonNegative(Mul(EntryPrice(t), t.quantity), t.entryFee);
    MulNonNegative(Mul(ExitPrice(t), t.quantity), t.exitFee);
  }

  lemma CostOrder(t: Terms)
    requires Sane(t)
    ensures Gross(t) - Fees(t) <= Gross(t) <= Frictionless(t)
  {
    GrossOfTerms(t);
    FeesNonNegative(t);
    hide Mul, Gross, Fees, Frictionless;
    MulNonNegative(t.quantity, t.impact);
    MulNonNegative(Mul(t.quantity, t.impact), t.entryMid + t.exitMid);
  }

  /** The gross profit is the frictionless profit less the impact on both legs, the net profit is less again,
      and neither ever exceeds the frictionless profit. */
  lemma CostsNeverPay(input: RoundTripInput)
    requires Accepted(input)
    ensures var (trip, t) := (Trip(input), TermsOf(input));
      && trip.grossPnL == Frictionless(t)
           - Mul(Mul(input.quantity, BpsRatio(ImpactBPS(input.costs))), input.entryMid + input.exitMid)
      && trip.netPnL <= trip.grossPnL <= Frictionless(t)
  {
    TripOfTerms(input);
    TermsAreSane(input);
    GrossOfTerms(TermsOf(input));
    CostOrder(TermsOf(input));
    hide Mul, BpsRatio, ImpactBPS, Gross, Fees, Frictionless, EvaluateRoundTrip, Sane;
  }

  lemma FrictionlessHedge(t: Terms)
    ensures Frictionless(t.(long := true)) + Frictionless(t.(long := false)) == 0.0
  {
  }

  /** Being long and short at once on the same terms never nets a profit. */
  lemma HedgeNeverPays(input: RoundTripInput)
    requires Accepted(input.(direction := Long))
    ensures Accepted(input.(direction := Short))
    ensures Trip(input.(direction := Long)).netPnL + Trip(input.(direction := Short)).netPnL <= 0.0
  {
    hide Mul, Gross, Fees, Frictionless, ImpactBPS, BpsRatio, EvaluateRoundTrip;
    CostsNeverPay(input.(direction := Long));
    CostsNeverPay(input.(direction := Short));
    FrictionlessHedge(TermsOf(input));
    assert TermsOf(input.(direction := Long)) == TermsOf(input).(long := true);
    assert TermsOf(input.(direction := Short)) == TermsOf(input).(long := false);
  }

  // ---------------------------------------------------------------- fees

  lemma MulMonoRight(x: real, y: real, z: real)
    requires 0.0 <= x && y <= z
    ensures Mul(x, y) <= Mul(x, z)
  {
  }

  lemma FeesMono(t: Terms, entryFee: real, exitFee: real)
    requires Sane(t) && t.entryFee <= entryFee && t.exitFee <= exitFee
    ensures Gross(t.(entryFee := entryFee, exitFee := exitFee)) == Gross(t)
    ensures Fees(t) <= Fees(t.(entryFee := entryFee, exitFee := exitFee))
  {
    PricesNonNegative(t);
    var u := t.(entryFee := entryFee, exitFee := exitFee);
    assert EntryPrice(u) == EntryPrice(t) && ExitPrice(u) == ExitPrice(t);
    hide Mul, EntryPrice, ExitPrice;
    MulNonNegative(EntryPrice(t), t.quantity);
    MulNonNegative(ExitPrice(t), t.quantity);
    MulMonoRight(Mul(EntryPrice(t), t.quantity), t.entryFee, entryFee);
    MulMonoRight(Mul(ExitPrice(t), t.quantity), t.exitFee, exitFee);
  }

  function WithFees(input: RoundTripInput, maker: real, taker: real): RoundTripInput {
    input.(costs := input.costs.(makerFee := maker, takerFee := taker))
  }

  /** Higher fee rates never raise the net profit. */
  lemma NetNonIncreasingInFees(input: RoundTripInput, maker: real, taker: real)
    requires Accepted(input) && input.costs.makerFee <= maker && input.costs.takerFee <= taker
    ensures Accepted(WithFees(input, maker, taker))
    ensures Trip(WithFees(input, maker, taker)).netPnL <= Trip(input).netPnL
  {
    var dearer := WithFees(input, maker, taker);
    assert ImpactBPS(dearer.costs) == ImpactBPS(input.costs);
    BpsRatioMono(FeeBPS(input.costs, input.entryLiquidity), FeeBPS(dearer.costs, input.entryLiquidity));
    BpsRatioMono(FeeBPS(input.costs, input.exitLiquidity), FeeBPS(dearer.costs, input.exitLiquidity));
    hide Mul, BpsRatio, ImpactBPS, Gross, Fees, EvaluateRoundTrip, Sane;
    TermsAreSane(input);
    TripOfTerms(input);
    TripOfTerms(dearer);
    var t, u := TermsOf(input), TermsOf(dearer);
    assert u == t.(entryFee := u.entryFee, exitFee := u.exitFee);
    FeesMono(t, u.entryFee, u.exitFee);
  }

  // ---------------------------------------------------------------- spread and slippage

  /** What one unit of impact takes from one unit of quantity: the buying leg costs more, fee included, and the
      selling leg brings less, fee deducted. */
  function Exposure(t: Terms): real {
    if t.long then Mul(t.entryMid, 1.0 + t.entryFee) + Mul(t.exitMid, 1.0 - t.exitFee)
    else Mul(t.entryMid, 1.0 - t.entryFee) + Mul(t.exitMid, 1.0 + t.exitFee)
  }

  function NetWithoutImpact(t: Terms): real {
    Mul(t.quantity, if t.long then Mul(t.exitMid, 1.0 - t.exitFee) - Mul(t.entryMid, 1.0 + t.entryFee)
                    else Mul(t.entryMid, 1.0 - t.entryFee) - Mul(t.exitMid, 1.0 + t.exitFee))
  }

  lemma LegAlgebra(mid: real, q: real, r: real, fee: real)
    ensures var paid := Mul(mid, 1.0 + r);
      Mul(paid, q) + Mul(Mul(paid, q), fee) == Mul(q, Mul(mid, 1.0 + fee)) + Mul(Mul(q, r), Mul(mid, 1.0 + fee))
    ensures var got := Mul(mid, 1.0 - r);
      Mul(got, q) - Mul(Mul(got, q), fee) == Mul(q, Mul(mid, 1.0 - fee)) - Mul(Mul(q, r), Mul(mid, 1.0 - fee))
  {
    var qa, qra := q * mid, (q * r) * mid;
    assert mid * (1.0 + r) * q == qa + qra && mid * (1.0 - r) * q == qa - qra;
    assert (qa + qra) * fee == qa * fee + qra * fee && (qa - qra) * fee == qa * fee - qra * fee;
    assert q * (mid * (1.0 + fee)) == qa + qa * fee && q * (mid * (1.0 - fee)) == qa - qa * fee;
    assert (q * r) * (mid * (1.0 + fee)) == qra + qra * fee && (q * r) * (mid * (1.0 - fee)) == qra - qra * fee;
  }

  lemma MulDistributes(x: real, y: real, z: real)
    ensures Mul(x, y + z) == Mul(x, y) + Mul(x, z) && Mul(x, y - z) == Mul(x, y) - Mul(x, z)
    ensures Mul(y - z, x) == Mul(y, x) - Mul(z, x)
  {
  }

  /** The net profit is a linear function of the impact ratio. */
  lemma NetIsLinearInImpact(t: Terms)
    ensures Gross(t) - Fees(t) == NetWithoutImpact(t) - Mul(Mul(t.quantity, t.impact), Exposure(t))
  {
    hide Mul;
    var (a, b, q, r, f, g) := (t.entryMid, t.exitMid, t.quantity, t.impact, t.entryFee, t.exitFee);
    LegAlgebra(a, q, r, f);
    LegAlgebra(b, q, r, g);
    if t.long {
      MulDistributes(q, ExitPrice(t), EntryPrice(t));
      MulDistributes(q, Mul(b, 1.0 - g), Mul(a, 1.0 + f));
      MulDistributes(Mul(q, r), Mul(a, 1.0 + f), Mul(b, 1.0 - g));
    } else {
      MulDistributes(q, EntryPrice(t), ExitPrice(t));
      MulDistributes(q, Mul(a, 1.0 - f), Mul(b, 1.0 + g));
      MulDistributes(Mul(q, r), Mul(a, 1.0 - f), Mul(b, 1.0 + g));
    }
  }

  lemma CompareLinear(base: real, q: real, r: real, s: real, x: real)
    requires 0.0 < q && r < s
    ensures base - Mul(Mul(q, s), x) <= base - Mul(Mul(q, r), x) <==> 0.0 <= x
  {
    var step := q * (s - r);
    assert 0.0 < step;
    assert (q * s) * x - (q * r) * x == step * x;
    RealMulMono(0.0, x, step);
    RealMulMono(x, 0.0, step);
  }

  /** The same trip with another spread and slippage. */
  function WithImpact(input: RoundTripInput, spread: real, slippage: real): RoundTripInput {
    input.(costs := input.costs.(spread := spread, slippage := slippage))
  }

  lemma ImpactTerms(input: RoundTripInput, spread: real, slippage: real)
    ensures var (t, u) := (TermsOf(input), TermsOf(WithImpact(input, spread, slippage)));
      u == t.(impact := u.impact) && Exposure(u) == Exposure(t) && NetWithoutImpact(u) == NetWithoutImpact(t)
  {
    hide Mul, BpsRatio, ImpactBPS;
  }

  /** A trip with a higher impact ratio nets no more, exactly when its exposure to impact is not negative. */
  lemma ImpactNeverHelpsIff(input: RoundTripInput, spread: real, slippage: real)
    requires Accepted(input) && Accepted(WithImpact(input, spread, slippage))
    requires TermsOf(input).impact < TermsOf(WithImpact(input, spread, slippage)).impact
    ensures Trip(WithImpact(input, spread, slippage)).netPnL <= Trip(input).netPnL <==> 0.0 <= Exposure(TermsOf(input))
  {
    var rougher := WithImpact(input, spread, slippage);
    var t, u := TermsOf(input), TermsOf(rougher);
    assert t.quantity > 0.0;
    ImpactTerms(input, spread, slippage);
    hide Mul, TermsOf, Gross, Fees, Exposure, NetWithoutImpact, EvaluateRoundTrip;
    TripOfTerms(input);
    TripOfTerms(rougher);
    NetIsLinearInImpact(t);
    NetIsLinearInImpact(u);
    CompareLinear(NetWithoutImpact(t), t.quantity, t.impact, u.impact, Exposure(t));
  }

  lemma MulMonoLeft(x: real, y: real, z: real)
    requires 0.0 <= z && x <= y
    ensures Mul(x, z) <= Mul(y, z)
  {
  }

  lemma ImpactMono(input: RoundTripInput, spread: real, slippage: real)
    requires Accepted(input) && input.costs.spread <= spread && input.costs.slippage <= slippage
    ensures TermsOf(input).impact <= TermsOf(WithImpact(input, spread, slippage)).impact
  {
    hide Quo, Mul, BpsRatio;
    var costs := input.costs;
    HalfSpreadMono(costs.spread, spread);
    MulMonoLeft(costs.slippage, slippage, costs.factor);
    BpsRatioMono(ImpactBPS(costs), ImpactBPS(WithImpact(input, spread, slippage).costs));
  }

  /** The fee ratio of the leg that sells. */
  function SellingFee(t: Terms): real {
    if t.long then t.exitFee else t.entryFee
  }

  function AtPrices(input: RoundTripInput, entryMid: real, exitMid: real): RoundTripInput {
    input.(entryMid := entryMid, exitMid := exitMid)
  }

  /** The wider spread and slippage do not raise the net profit. */
  predicate NeverHelps(input: RoundTripInput, spread: real, slippage: real) {
    && Accepted(input) && Accepted(WithImpact(input, spread, slippage))
    && Trip(WithImpact(input, spread, slippage)).netPnL <= Trip(input).netPnL
  }

  lemma ExposureOfLegs(t: Terms, bought: real, sold: real, buyFee: real)
    requires bought == (if t.long then t.entryMid else t.exitMid) && sold == (if t.long then t.exitMid else t.entryMid)
    requires buyFee == if t.long then t.entryFee else t.exitFee
    ensures Exposure(t) == Mul(bought, 1.0 + buyFee) + Mul(sold, 1.0 - SellingFee(t))
  {
    hide Mul;
  }

  /** Selling at a high enough whole price outweighs the buying leg once the selling fee is above 100%. */
  lemma NegativeExposure(buyFee: real, sellFee: real) returns (sold: int)
    requires 0.0 <= buyFee && 1.0 < sellFee
    ensures 0 < sold && Mul(1.0, 1.0 + buyFee) + Mul(sold as real, 1.0 - sellFee) < 0.0
  {
    var rate := sellFee - 1.0;
    var ratio := (1.0 + buyFee) / rate;
    assert ratio * rate == 1.0 + buyFee;
    RatioMono(0.0, 1.0 + buyFee, rate);
    sold := ratio.Floor + 1;
    var price := sold as real;
    assert ratio < price;
    AboveProduct(ratio, price, rate, 1.0 + buyFee);
    assert price * (1.0 - sellFee) == -(price * rate);
  }

  lemma AboveProduct(x: real, y: real, e: real, n: real)
    requires 0.0 < e && x < y && x * e == n
    ensures n < y * e
  {
    RealMulMono(x, y, e);
  }

  lemma ImpactAtPrices(input: RoundTripInput, spread: real, slippage: real, entryMid: real, exitMid: real)
    requires Accepted(input) && Accepted(WithImpact(input, spread, slippage)) && 0.0 < entryMid && 0.0 < exitMid
    requires TermsOf(input).impact < TermsOf(WithImpact(input, spread, slippage)).impact
    ensures var moved := AtPrices(input, entryMid, exitMid);
      && TermsOf(moved) == TermsOf(input).(entryMid := entryMid, exitMid := exitMid) && Accepted(moved)
      && (NeverHelps(moved, spread, slippage) <==> 0.0 <= Exposure(TermsOf(moved)))
  {
    hide Mul, BpsRatio, ImpactBPS, Exposure, EvaluateRoundTrip;
    ImpactNeverHelpsIff(AtPrices(input, entryMid, exitMid), spread, slippage);
  }

  /** More impact never raises the net profit, at whatever prices the trip is made, exactly when the fee of the
      selling leg is at most 100%. */
  lemma ImpactNeverHelpsAtAnyPriceIff(input: RoundTripInput, spread: real, slippage: real)
    requires Accepted(input) && Accepted(WithImpact(input, spread, slippage))
    requires TermsOf(input).impact < TermsOf(WithImpact(input, spread, slippage)).impact
    ensures (forall a, b | 0.0 < a && 0.0 < b :: NeverHelps(AtPrices(input, a, b), spread, slippage))
       <==> SellingFee(TermsOf(input)) <= 1.0
  {
    var t := TermsOf(input);
    var buyFee := if t.long then t.entryFee else t.exitFee;
    TermsAreSane(input);
    hide Mul, TermsOf, Accepted, NeverHelps, AtPrices, Exposure;
    if SellingFee(t) <= 1.0 {
      forall a, b | 0.0 < a && 0.0 < b ensures NeverHelps(AtPrices(input, a, b), spread, slippage) {
        ImpactAtPrices(input, spread, slippage, a, b);
        var (bought, sold) := if t.long then (a, b) else (b, a);
        ExposureOfLegs(t.(entryMid := a, exitMid := b), bought, sold, buyFee);
        MulNonNegative(bought, 1.0 + buyFee);
        MulNonNegative(sold, 1.0 - SellingFee(t));
      }
    } else {
      var whole := NegativeExposure(buyFee, SellingFee(t));
      var sold := whole as real;
      var (a, b) := if t.long then (1.0, sold) else (sold, 1.0);
      ImpactAtPrices(input, spread, slippage, a, b);
      ExposureOfLegs(t.(entryMid := a, exitMid := b), 1.0, sold, buyFee);
      assert !NeverHelps(AtPrices(input, a, b), spread, slippage);
    }
  }

  /** With a fee of at most 100% on the selling leg, a wider spread or more slippage never raises the net
      profit. */
  lemma NetNonIncreasingInImpact(input: RoundTripInput, spread: real, slippage: real)
    requires Accepted(input) && Accepted(WithImpact(input, spread, slippage))
    requires input.costs.spread <= spread && input.costs.slippage <= slippage
    requires SellingFee(TermsOf(input)) <= 1.0
    ensures Trip(WithImpact(input, spread, slippage)).netPnL <= Trip(input).netPnL
  {
    var rougher := WithImpact(input, spread, slippage);
    ImpactMono(input, spread, slippage);
    ImpactTerms(input, spread, slippage);
    assert 0.0 < input.entryMid && 0.0 < input.exitMid;
    hide TermsOf, Gross, Fees, EvaluateRoundTrip, Accepted;
    if TermsOf(input).impact < TermsOf(rougher).impact {
      ImpactNeverHelpsAtAnyPriceIff(input, spread, slippage);
      assert AtPrices(input, input.entryMid, input.exitMid) == input;
    } else {
      TripOfTerms(input);
      TripOfTerms(rougher);
    }
  }

  /** Fee rates of at most 100% are enough for that. */
  lemma WholeFeesAreEnough(input: RoundTripInput)
    requires Accepted(input) && input.costs.makerFee <= BPS && input.costs.takerFee <= BPS
    ensures SellingFee(TermsOf(input)) <= 1.0
  {
    BpsRatioRange(FeeBPS(input.costs, input.entryLiquidity));
    BpsRatioRange(FeeBPS(input.costs, input.exitLiquidity));
    hide BpsRatio, ImpactBPS;
  }

  // ---------------------------------------------------------------- the journal accepts the result

  /** The impact from which on its ratio rounds to one. */
  const CRITICAL_BPS: real := 9999.9999999999995

  lemma BpsRatioBelowOne(value: real)
    requires 0.0 <= value
    ensures BpsRatio(value) < 1.0 <==> value < CRITICAL_BPS
  {
    var x := value / BPS * UNITS;
    assert x == value * 1000000000000.0;
    assert CRITICAL_BPS * 1000000000000.0 == UNITS - 0.5;
    assert BpsRatio(value) == RoundReal(x) as real / UNITS;
    assert RoundReal(x) == (x + 0.5).Floor;
    assert BpsRatio(value) < 1.0 <==> (x + 0.5).Floor < SCALE;
  }

  /** The journal accepts an evaluated trip exactly when its impact stays below 9999.9999999999995 basis
      points. From there up to 10000, which the cost validation still lets through, the ratio rounds to one
      and the selling leg executes at a price of zero. */
  lemma JournalAcceptsIff(input: RoundTripInput)
    requires Accepted(input)
    ensures ValidRoundTrip(Trip(input)) <==> ImpactBPS(input.costs) < CRITICAL_BPS
  {
    var t := TermsOf(input);
    ImpactNonNegative(input.costs);
    BpsRatioBelowOne(ImpactBPS(input.costs));
    TermsAreSane(input);
    TripOfTerms(input);
    hide Mul, BpsRatio, ImpactBPS, Gross, Fees, EntryPrice, ExitPrice, EvaluateRoundTrip;
    PricesNonNegative(t);
    FeesNonNegative(t);
  }

  function OnTerms(exitMid: real, fee: real, spread: real): RoundTripInput {
    RoundTripInput(Long, 1, 2, 1.0, exitMid, 1.0, Taker, Taker, CostModel(fee, fee, spread, 0.0, 1.0))
  }

  /** A spread that the cost validation accepts and with which the selling leg executes at zero. */
  lemma ZeroPriceIsAccepted()
    ensures var input := OnTerms(1.0, 0.0, 19999.999999999999);
      && Accepted(input) && Trip(input).exit.executedPrice == 0.0 && !ValidRoundTrip(Trip(input))
  {
    var input := OnTerms(1.0, 0.0, 19999.999999999999);
    Round16Fixes(99_999_999_999_999_995_000);
    assert ImpactBPS(input.costs) == CRITICAL_BPS;
    JournalAcceptsIff(input);
    BpsRatioBelowOne(CRITICAL_BPS);
    BpsRatioRange(CRITICAL_BPS);
    TripOfTerms(input);
  }

  lemma QuoIs(x: real, d: real, k: int)
    requires d != 0.0 && x == (k as real / UNITS) * d
    ensures Quo(x, d) == k as real / UNITS
  {
    RatioIs(x, d, k as real / UNITS);
    Round16Fixes(k);
  }

  lemma DearRatios()
    ensures Quo(0.0, 2.0) == 0.0 && Quo(100.0, 2.0) == 50.0
    ensures BpsRatio(0.0) == 0.0 && BpsRatio(50.0) == 0.005 && BpsRatio(30000.0) == 3.0
  {
    hide Quo;
    QuoIs(0.0, 2.0, 0);
    QuoIs(100.0, 2.0, 50 * SCALE);
    QuoIs(0.0, BPS, 0);
    QuoIs(50.0, BPS, 50_000_000_000_000);
    QuoIs(30000.0, BPS, 3 * SCALE);
  }

  lemma DearTerms()
    ensures TermsOf(OnTerms(3.0, 30000.0, 0.0)) == Terms(true, 1.0, 3.0, 1.0, 0.0, 3.0, 3.0)
    ensures TermsOf(OnTerms(3.0, 30000.0, 100.0)) == Terms(true, 1.0, 3.0, 1.0, 0.005, 3.0, 3.0)
    ensures Accepted(OnTerms(3.0, 30000.0, 0.0)) && Accepted(OnTerms(3.0, 30000.0, 100.0))
  {
    DearRatios();
    hide Quo, BpsRatio;
  }

  /** With fees of 300% a trip that sells at three times its entry price nets more with a spread of 100 basis
      points than with none: the lower selling price saves more fee than it costs. */
  lemma DearFeesRewardImpact()
    ensures Accepted(OnTerms(3.0, 30000.0, 0.0)) && Accepted(OnTerms(3.0, 30000.0, 100.0))
    ensures Trip(OnTerms(3.0, 30000.0, 0.0)).netPnL < Trip(OnTerms(3.0, 30000.0, 100.0)).netPnL
  {
    var input := OnTerms(3.0, 30000.0, 0.0);
    DearTerms();
    assert WithImpact(input, 100.0, 0.0) == OnTerms(3.0, 30000.0, 100.0);
    assert Exposure(Terms(true, 1.0, 3.0, 1.0, 0.0, 3.0, 3.0)) == -2.0;
    hide TermsOf, Accepted, Trip, Exposure;
    ImpactNeverHelpsIff(input, 100.0, 0.0);
  }
}
