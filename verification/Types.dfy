// The plain records the server, the engine and the client exchange, with the
// machine widths the C++ structs give their fields.
module Types {

  type Byte = n: int | 0 <= n < 0x100
  type Int8 = n: int | -0x80 <= n < 0x80
  type Uint32 = n: int | 0 <= n < 0x1_0000_0000
  type Uint64 = n: int | 0 <= n < 0x1_0000_0000_0000_0000

  const UINT64_LIMIT: int := 0x1_0000_0000_0000_0000

  /** 2^bits */
  function Pow2(bits: nat): (p: nat)
    ensures p > 0
  {
    if bits == 0 then 1 else 2 * Pow2(bits - 1)
  }

  function Least(a: int, b: int): int {
    if a < b then a else b
  }

  datatype Option<+T> = None | Some(value: T)

  /** A mantissa and a decimal exponent: mantissa * 10^exponent. */
  datatype Decimal = Decimal(mantissa: Uint32, exponent: Int8)

  type Price = Decimal
  type Quantity = Decimal

  datatype Trade = Trade(
    symbolId: Uint32,
    createdAt: Uint64,
    tradeId: Uint64,
    price: Price,
    quantity: Quantity,
    takerSide: Byte)

  datatype Query = Query(
    symbolId: Uint32,
    startTime: Uint64,
    endTime: Uint64,
    resolution: Uint64,
    metrics: bv64)

  type Bytes = seq<Byte>
}
