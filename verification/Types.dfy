/** The value types the engine, the reference oracle and the journal share. */
module Types {

  const TWO32: nat := 0x1_0000_0000

  type OrderId = x: nat | x < 0x1_0000_0000_0000_0000
  type Price = x: int | -0x8000_0000_0000_0000 <= x < 0x8000_0000_0000_0000
  type Qty = x: nat | x < 0x1_0000_0000
  type Account = x: nat | x < 0x1_0000_0000
  type Index = x: nat | x < 0x1_0000_0000

  /** The index that points nowhere. */
  const NIL: Index := 0xFFFF_FFFF

  datatype Option<+T> = None | Some(value: T)

  datatype Side = Buy | Sell {
    function Opposite(): Side {
      if Buy? then Sell else Buy
    }
  }

  datatype TimeInForce = GTC | IOC | FOK

  datatype Kind = Limit | Market | Cancel | Modify

  /** One input to the book. Which fields matter depends on the kind. */
  datatype Command = Command(
    kind: Kind, id: OrderId, side: Side, tif: TimeInForce, price: Price, qty: Qty, account: Account)

  /** A resting order as a snapshot shows it. */
  datatype Resting = Resting(
    side: Side, price: Price, id: OrderId, qty: Qty, account: Account, seqNo: nat)

  datatype Trade = Trade(
    maker: OrderId, taker: OrderId, price: Price, qty: Qty, tradeId: nat, seqNo: nat)

  /** What one command did: its flags and the trades it made. */
  datatype Outcome = Outcome(
    ok: bool, restingQty: Qty, stp: bool, exhausted: bool, trades: seq<Trade>)

  const REJECTED := Outcome(false, 0, false, false, [])

  /** Two values of one kind, one for each side of the book. */
  datatype BySide<T> = BySide(bids: T, asks: T) {
    function On(side: Side): T {
      if side.Buy? then bids else asks
    }

    function With(side: Side, value: T): BySide<T> {
      if side.Buy? then BySide(value, asks) else BySide(bids, value)
    }
  }

  /** True if price a is better than price b for orders resting on this side. */
  predicate Better(side: Side, a: Price, b: Price) {
    if side.Buy? then a > b else a < b
  }

  /** 32-bit wrap-around. */
  function Wrap(n: nat): (r: Qty)
  {
    n % TWO32
  }

  function Min(a: Qty, b: Qty): Qty {
    if a <= b then a else b
  }

  function Power2(k: nat): nat {
    if k == 0 then 1 else 2 * Power2(k - 1)
  }
}
