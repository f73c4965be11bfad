/** The value types every module shares: sides, order types and states, and the record of one order. */
module CoreTypes {
  const U64: int := 0x1_0000_0000_0000_0000

  datatype Side = Buy | Sell {
    function Opposite(): Side {
      if Buy? then Sell else Buy
    }
  }

  datatype OrderType = Limit | Market

  datatype OrderState = New | PartiallyFilled | Filled | Cancelled

  datatype Option<+T> = None | Some(value: T)

  /** The fields of one order, without the links that thread it through a price level. */
  datatype OrderRec = OrderRec(
    id: nat,
    user: nat,
    side: Side,
    kind: OrderType,
    price: int,
    qty: int,
    rem: int,
    ts: nat,
    state: OrderState)
  {
    /** The state that the quantity and the remainder call for; an untouched order is looked for first. */
    function Restated(): OrderRec {
      this.(state := if rem == qty then New else if rem == 0 then Filled else PartiallyFilled)
    }
  }

  function Min(a: int, b: int): int {
    if a <= b then a else b
  }
}
