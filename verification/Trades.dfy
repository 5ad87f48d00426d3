/** Simulated round trips with fees, spread and slippage. Amounts are decimals, every quotient is rounded. */
module Trades {
  import opened Decimals
  import opened Wrappers

  const BPS: real := 10000.0

  datatype Direction = Long | Short | OtherDirection
  datatype Liquidity = Unset | Maker | Taker | OtherLiquidity

  datatype CostModel = CostModel(makerFee: real, takerFee: real, spread: real, slippage: real, factor: real)

  datatype RoundTripInput = RoundTripInput(
    direction: Direction, entryTime: int, exitTime: int, entryMid: real, exitMid: real, quantity: real,
    entryLiquidity: Liquidity, exitLiquidity: Liquidity, costs: CostModel)

  datatype FillRole = Entry | Exit | OtherRole

  datatype FillInput = FillInput(
    direction: Direction, role: FillRole, time: int, midPrice: real, quantity: real, liquidity: Liquidity,
    costs: CostModel)

  datatype Fill = Fill(
    time: int, midPrice: real, executedPrice: real, quantity: real, notional: real, fee: real,
    feeBPS: real, spreadBPS: real, slippageBPS: real)

  datatype RoundTrip = RoundTrip(
    direction: Direction, entry: Fill, exit: Fill, grossPnL: real, fees: real, netPnL: real, returnRate: real)

  /** Half the spread plus the conservative slippage, in basis points. */
  function ImpactBPS(costs: CostModel): real {
    Quo(costs.spread, 2.0) + Mul(costs.slippage, costs.factor)
  }

  predicate ValidCosts(costs: CostModel) {
    && 0.0 <= costs.makerFee && 0.0 <= costs.takerFee && 0.0 <= costs.spread && 0.0 <= costs.slippage
    && 0.0 < costs.factor
    && ImpactBPS(costs) < BPS
  }

  /** A fill without a liquidity role takes liquidity. */
  function OrTaker(liquidity: Liquidity): Liquidity {
    if liquidity.Unset? then Taker else liquidity
  }

  function Normalized(input: RoundTripInput): RoundTripInput {
    input.(entryLiquidity := OrTaker(input.entryLiquidity), exitLiquidity := OrTaker(input.exitLiquidity))
  }

  predicate ValidFillInput(input: FillInput) {
    && !input.direction.OtherDirection? && !input.role.OtherRole?
    && (input.liquidity.Maker? || input.liquidity.Taker?)
    && input.time != 0 && 0.0 < input.midPrice && 0.0 < input.quantity
    && ValidCosts(input.costs)
  }

  predicate ValidInput(input: RoundTripInput) {
    && !input.direction.OtherDirection?
    && (input.entryLiquidity.Maker? || input.entryLiquidity.Taker?)
    && (input.exitLiquidity.Maker? || input.exitLiquidity.Taker?)
    && input.entryTime != 0 && input.exitTime != 0 && input.entryTime < input.exitTime
    && 0.0 < input.entryMid && 0.0 < input.exitMid && 0.0 < input.quantity
    && ValidCosts(input.costs)
  }

  function BpsRatio(value: real): real {
    Quo(value, BPS)
  }

  function FeeBPS(costs: CostModel, liquidity: Liquidity): real {
    if liquidity.Maker? then costs.makerFee else costs.takerFee
  }

  /** A buyer pays more than the mid price and a seller gets less. */
  function ApplyPriceImpact(direction: Direction, midPrice: real, impactBPS: real, entry: bool): real {
    var ratio := BpsRatio(impactBPS);
    match direction
    case Long => if entry then Mul(midPrice, 1.0 + ratio) else Mul(midPrice, 1.0 - ratio)
    case Short => if entry then Mul(midPrice, 1.0 - ratio) else Mul(midPrice, 1.0 + ratio)
    case OtherDirection => midPrice
  }

  function ExecutableFill(direction: Direction, time: int, midPrice: real, quantity: real, liquidity: Liquidity,
                          costs: CostModel, entry: bool): Fill {
    var price := ApplyPriceImpact(direction, midPrice, ImpactBPS(costs), entry);
    var notional := Mul(price, quantity);
    var feeBPS := FeeBPS(costs, liquidity);
    Fill(time, midPrice, price, quantity, notional, Mul(notional, BpsRatio(feeBPS)), feeBPS,
         Quo(costs.spread, 2.0), Mul(costs.slippage, costs.factor))
  }

  function EvaluateFill(raw: FillInput): Result<Fill, ()> {
    var input := raw.(liquidity := OrTaker(raw.liquidity));
    if !ValidFillInput(input) then Err(())
    else Ok(ExecutableFill(input.direction, input.time, input.midPrice, input.quantity, input.liquidity, input.costs,
                           input.role.Entry?))
  }

  function GrossPnL(direction: Direction, entryPrice: real, exitPrice: real, quantity: real): real {
    match direction
    case Long => Mul(exitPrice - entryPrice, quantity)
    case Short => Mul(entryPrice - exitPrice, quantity)
    case OtherDirection => 0.0
  }

  function EvaluateRoundTrip(raw: RoundTripInput): Result<RoundTrip, ()> {
    var input := Normalized(raw);
    if !ValidInput(input) then Err(())
    else
      var entry := ExecutableFill(input.direction, input.entryTime, input.entryMid, input.quantity,
                                  input.entryLiquidity, input.costs, true);
      var exit := ExecutableFill(input.direction, input.exitTime, input.exitMid, input.quantity,
                                 input.exitLiquidity, input.costs, false);
      var gross := GrossPnL(input.direction, entry.executedPrice, exit.executedPrice, input.quantity);
      var fees := entry.fee + exit.fee;
      var net := gross - fees;
      Ok(RoundTrip(input.direction, entry, exit, gross, fees, net,
                   if entry.notional != 0.0 then Quo(net, entry.notional) else 0.0))
  }

  /** What a journal accepts as a round trip. */
  predicate ValidRoundTrip(trade: RoundTrip) {
    && !trade.direction.OtherDirection?
    && 0.0 < trade.entry.executedPrice && 0.0 < trade.exit.executedPrice
    && 0.0 < trade.entry.quantity && 0.0 < trade.exit.quantity
    && trade.entry.quantity == trade.exit.quantity
    && 0.0 <= trade.fees
    && trade.netPnL == trade.grossPnL - trade.fees
  }
}

