/** What every component shares: the fixed-point scale, the sides of a trade, and the signal. */
module Core {

  /** Prices, quantities and profits are integers at this scale. */
  const PRICE_SCALE: int := 100_000_000

  /** The basis points in a whole. */
  const BPS: int := 10_000

  datatype Side = Buy | Sell

  datatype Direction = BuyCexSellDex | BuyDexSellCex

  /** `base` and `quote` are the two halves of the traded pair; `expiry` is a clock reading. */
  datatype Signal = Signal(
    signalId: string, base: string, quote: string, direction: Direction,
    cexPrice: int, dexPrice: int, size: int,
    expectedGrossPnl: int, expectedFees: int, expectedNetPnl: int,
    expiry: int, inventoryOk: bool, withinLimits: bool)
}
