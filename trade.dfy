/** The normalised trade record (one closed round-trip position). */
module Trades {
  import opened JsValues

  /**
   * A calendar day as the feed writes it: year, ZERO-BASED month, day of month.
   * It is the grouping key of the daily view.
   */
  datatype Day = Day(year: nat, month0: nat, day: nat)

  datatype Clock = Clock(hour: nat, minute: nat, second: nat)

  /** A timestamp: a day and a time of day. */
  datatype Stamp = Stamp(day: Day, clock: Clock)

  /**
   * A trade. `symbol` and the three free-text fields hold the cell exactly as the
   * normaliser stored it (the source assigns the raw cell value); the numeric
   * fields hold the result of `Number(...)` on their cell.
   */
  datatype Trade = Trade(
    id: nat,
    symbol: Cell,
    date: Day,
    timeOfEntry: Stamp,
    timeOfExit: Stamp,
    buys: Number,
    sells: Number,
    net: Number,
    averageBuyPrice: Number,
    averageSellPrice: Number,
    totalBuyPrice: Number,
    totalSoldPrice: Number,
    netTotal: Number,
    realizedPnLPercent: Number,
    realizedPnL: Number,
    commission: Number,
    netInclCommission: Number,
    whatHappenedBeforeEnter: Cell,
    whatHappenedAfterExit: Cell,
    comment: Cell,
    onWork: bool)
}
