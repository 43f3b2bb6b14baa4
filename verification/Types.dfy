/** Wire-level values shared by every part of the exchange (src/types.rs).

    Integers are unbounded `nat`s; wherever the 64-bit width changes the outcome (checked and
    saturating arithmetic) the width is written out with `U64_MAX`. */
module Types {

  const U64_MAX: nat := 0xFFFF_FFFF_FFFF_FFFF
  const U32_MAX: nat := 0xFFFF_FFFF
  const NULL_IDX: nat := 0xFFFF_FFFF
  const NUM_SYMBOLS: nat := 3

  datatype Option<+T> = None | Some(value: T)

  datatype RejectReason = InvalidOrder | InsufficientFunds | OrderNotFound | Unauthorized | EngineFull

  datatype Result<+T> = Ok(value: T) | Err(error: RejectReason)

  datatype OrderType = Limit | Market | Cancel | Deposit

  datatype Order = Order(
    id: nat,
    price: nat,
    qty: nat,
    userId: nat,
    clientOrderId: nat,
    side: nat,       // 0 = buy, 1 = sell
    orderType: nat,  // 0 = limit, 1 = market, 2 = cancel, 3 = deposit
    symbolId: nat,
    magic: nat,
    padding: (nat, nat))
  {
    // An unknown order-type byte is treated as a limit order everywhere.
    function Kind(): OrderType {
      if orderType == 1 then Market
      else if orderType == 2 then Cancel
      else if orderType == 3 then Deposit
      else Limit
    }

    predicate IsSell() { side == 1 }
  }

  datatype Trade = Trade(
    matchId: nat,
    makerOrderId: nat,
    takerOrderId: nat,
    makerClientOrderId: nat,
    takerClientOrderId: nat,
    makerUserId: nat,
    takerUserId: nat,
    makerClientId: nat,
    takerClientId: nat,
    buyerId: nat,
    sellerId: nat,
    makerSide: nat,
    symbolId: nat,
    price: nat,
    qty: nat)

  datatype ExecutionReport = ExecutionReport(executedQty: nat, remainingQty: nat, stpTriggered: bool)

  datatype MarketDepthLevel = MarketDepthLevel(price: nat, totalQty: nat, orderCount: nat)

  function Min(a: nat, b: nat): nat { if a <= b then a else b }

  function Max(a: nat, b: nat): nat { if a >= b then a else b }

  // u64::saturating_sub and u64::saturating_mul.
  function SatSub(a: nat, b: nat): nat { if a <= b then 0 else a - b }

  function SatMul(a: nat, b: nat): nat { Min(a * b, U64_MAX) }
}
