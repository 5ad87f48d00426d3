module Wrappers {
  datatype Option<+T> = None | Some(value: T)

  datatype Result<+T, +E> = Ok(value: T) | Err(error: E)
}

/** Closed market candles. Prices are whole numbers of parts of a unit of 10^-16, of a grain that is given where
    it matters. */
module Candles {
  import opened Times
  import opened Wrappers

  datatype Series = Series(exchange: string, category: string, symbol: string, interval: string)

  datatype Candle = Candle(
    series: Series, openTime: int, closeTime: int,
    open: int, high: int, low: int, close: int, closed: bool)

  function IntervalDuration(interval: string): Option<int> {
    match interval
    case "1" => Some(MINUTE)
    case "1m" => Some(MINUTE)
    case "3" => Some(3 * MINUTE)
    case "3m" => Some(3 * MINUTE)
    case "5" => Some(5 * MINUTE)
    case "5m" => Some(5 * MINUTE)
    case "15" => Some(15 * MINUTE)
    case "15m" => Some(15 * MINUTE)
    case "30" => Some(30 * MINUTE)
    case "30m" => Some(30 * MINUTE)
    case "60" => Some(HOUR)
    case "1h" => Some(HOUR)
    case "120" => Some(2 * HOUR)
    case "2h" => Some(2 * HOUR)
    case "240" => Some(4 * HOUR)
    case "4h" => Some(4 * HOUR)
    case "360" => Some(6 * HOUR)
    case "6h" => Some(6 * HOUR)
    case "720" => Some(12 * HOUR)
    case "12h" => Some(12 * HOUR)
    case "d" => Some(24 * HOUR)
    case "1d" => Some(24 * HOUR)
    case _ => None
  }

  /** The close lies in the candle's range. All that the indicator laws need of a candle. */
  predicate CloseInRange(c: Candle) {
    c.low <= c.close <= c.high
  }

  predicate ValidCandle(c: Candle) {
    && c.series.exchange != "" && c.series.category != "" && c.series.symbol != ""
    && IntervalDuration(c.series.interval).Some?
    && c.openTime != 0 && c.closeTime != 0
    && c.closeTime == c.openTime + IntervalDuration(c.series.interval).value
    && 0 < c.open && 0 < c.high && 0 < c.low && 0 < c.close
    && c.low <= c.open <= c.high
    && CloseInRange(c)
  }

  /** The candle opens where its predecessor closed. */
  predicate Follows(previous: Candle, current: Candle) {
    previous.openTime < current.openTime && current.openTime == previous.closeTime
  }

  /** The candles every feature calculation accepts: valid, of one series, closed and contiguous. */
  predicate Contiguous(cs: seq<Candle>) {
    && (forall i | 0 <= i < |cs| :: ValidCandle(cs[i]) && cs[i].series == cs[0].series && cs[i].closed)
    && (forall i | 0 < i < |cs| :: Follows(cs[i - 1], cs[i]))
  }
}
