/** Record types shared by the exchange connectors and the order book estimator
    (src/exchanges/mod.rs). A `Decimal` is modelled as an exact `int`. */
module Exchanges {

  datatype Option<T> = None | Some(value: T)

  /** Rust's `u64`, `u32` and `i64`. */
  type U64 = x: int | 0 <= x < 0x1_0000_0000_0000_0000
  type U32 = x: int | 0 <= x < 0x1_0000_0000
  type I64 = x: int | -0x8000_0000_0000_0000 <= x < 0x8000_0000_0000_0000

  /** `x as i64` for a `u64`: the same 64 bits read as two's complement. */
  function AsI64(x: U64): (r: I64)
    ensures (r - x) % 0x1_0000_0000_0000_0000 == 0
    ensures r >= 0 <==> x < 0x8000_0000_0000_0000
  {
    if x < 0x8000_0000_0000_0000 then x else x - 0x1_0000_0000_0000_0000
  }

  /** One `[price, quantity]` entry of a snapshot or an update. */
  datatype Level = Level(price: int, qty: int)

  /** A full book: `last_update_id` and the bid and ask levels in wire order. */
  datatype OrderBookSnapshot = OrderBookSnapshot(lastUpdateId: U64, bids: seq<Level>, asks: seq<Level>)

  /** An incremental depth update. `capitalU` and `smallU` are the first and the
      final update id the event covers; `pu` is the final id of the previous event. */
  datatype DepthUpdate = DepthUpdate(
    eventTime: U64,
    transactionTime: U64,
    symbol: string,
    capitalU: U64,
    smallU: U64,
    pu: I64,
    bids: seq<Level>,
    asks: seq<Level>)

  /** What a connector delivers (also what the application forwards to its UI loop). */
  datatype ExchangeMessage = Snapshot(snapshot: OrderBookSnapshot) | Update(update: DepthUpdate)

  datatype ExchangeType = Binance | Hyperliquid
}
