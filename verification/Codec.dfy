// The answer bytes: five-byte decimals, one record of them per window.
module Codec {
  import opened Types
  import opened Summaries

  /** The native little-endian image of a uint32_t. */
  function LittleEndian(n: Uint32): (bs: Bytes)
    ensures |bs| == 4
  {
    [n % 0x100, n / 0x100 % 0x100, n / 0x100 / 0x100 % 0x100, n / 0x100 / 0x100 / 0x100]
  }

  function FromLittleEndian(bs: Bytes): (n: Uint32)
    requires |bs| == 4
  {
    var b0: int, b1: int, b2: int, b3: int := bs[0], bs[1], bs[2], bs[3];
    b0 + 0x100 * (b1 + 0x100 * (b2 + 0x100 * b3))
  }

  lemma DigitAndRest(b: Byte, rest: nat)
    ensures (b + 0x100 * rest) % 0x100 == b
    ensures (b + 0x100 * rest) / 0x100 == rest
  {
  }

  lemma LittleEndianRoundTrip(n: Uint32, bs: Bytes)
    requires |bs| == 4
    ensures FromLittleEndian(LittleEndian(n)) == n
    ensures LittleEndian(FromLittleEndian(bs)) == bs
  {
    var n2: nat := bs[3];
    var n1: nat := bs[2] + 0x100 * n2;
    var n0: nat := bs[1] + 0x100 * n1;
    DigitAndRest(bs[2], n2);
    DigitAndRest(bs[1], n1);
    DigitAndRest(bs[0], n0);
  }

  lemma LittleEndianPlaces(n: Uint32)
    ensures var bs := LittleEndian(n);
            n == bs[0] as int + 0x100 * bs[1] as int + 0x1_0000 * bs[2] as int + 0x100_0000 * bs[3] as int
  {
    LittleEndianRoundTrip(n, [0, 0, 0, 0]);
  }

  /** An int8_t stored in a char, and back. */
  function ToByte(e: Int8): Byte {
    if e < 0 then e + 0x100 else e
  }

  function ToInt8(b: Byte): Int8 {
    if b < 0x80 then b else b - 0x100
  }

  function EncodeDecimal(d: Decimal): (bs: Bytes)
    ensures |bs| == 5
  {
    LittleEndian(d.mantissa) + [ToByte(d.exponent)]
  }

  function DecodeDecimal(bs: Bytes): Decimal
    requires |bs| == 5
  {
    Decimal(FromLittleEndian(bs[..4]), ToInt8(bs[4]))
  }

  /** Every decimal survives its five bytes, and every five bytes are some decimal's. */
  lemma DecimalRoundTrip(d: Decimal, bs: Bytes)
    requires |bs| == 5
    ensures DecodeDecimal(EncodeDecimal(d)) == d
    ensures EncodeDecimal(DecodeDecimal(bs)) == bs
  {
    assert EncodeDecimal(d)[..4] == LittleEndian(d.mantissa);
    LittleEndianRoundTrip(d.mantissa, bs[..4]);
    assert bs == bs[..4] + [bs[4]];
  }

  /** Which five bytes: the mantissa by place value, low byte first, and the exponent modulo 256. */
  lemma DecimalBytes(d: Decimal)
    ensures var bs := EncodeDecimal(d);
            && d.mantissa == bs[0] as int + 0x100 * bs[1] as int + 0x1_0000 * bs[2] as int + 0x100_0000 * bs[3] as int
            && (bs[4] - d.exponent) % 256 == 0
  {
    LittleEndianPlaces(d.mantissa);
  }

  /** 1 << i */
  function Bit(i: nat): bv8
    requires i < 8
  {
    match i
    case 0 => 1
    case 1 => 2
    case 2 => 4
    case 3 => 8
    case 4 => 16
    case 5 => 32
    case 6 => 64
    case _ => 128
  }

  predicate Chosen(chooser: bv8, i: nat)
    requires i < 8
  {
    chooser & Bit(i) != 0
  }

  lemma ChosenIsBit(chooser: bv8, i: nat)
    requires i < 8
    ensures Chosen(chooser, i) <==> chooser & ((1 as bv8) << i) != 0
  {
    assert Bit(i) == (1 as bv8) << i;
  }

  /** Some bit that runs a metric function is set. */
  predicate AnyMetric(chooser: bv8) {
    Chosen(chooser, 0) || Chosen(chooser, 1) || Chosen(chooser, 2)
  }

  /** The bytes that metric i adds to a window's record. */
  function Section(chooser: bv8, s: Summary, i: nat): Bytes
    requires i < 8
  {
    if !Chosen(chooser, i) then []
    else match i
      case 0 => EncodeDecimal(s.minPrice) + EncodeDecimal(s.maxPrice)
      case 1 => EncodeDecimal(s.mean)
      case 2 => EncodeDecimal(s.total)
      case _ => []
  }

  function SectionsBelow(chooser: bv8, s: Summary, i: nat): Bytes
    requires i <= 8
  {
    if i == 0 then [] else SectionsBelow(chooser, s, i - 1) + Section(chooser, s, i - 1)
  }

  /** One window's record: the chosen figures in a fixed order. */
  function EncodeRecord(chooser: bv8, s: Summary): Bytes {
    Section(chooser, s, 0) + Section(chooser, s, 1) + Section(chooser, s, 2)
  }

  /** The record length, 10*b0 + 5*b1 + 5*b2. */
  function Stride(chooser: bv8): nat {
    (if Chosen(chooser, 0) then 10 else 0)
    + (if Chosen(chooser, 1) then 5 else 0)
    + (if Chosen(chooser, 2) then 5 else 0)
  }

  lemma RecordParts(chooser: bv8, s: Summary)
    ensures SectionsBelow(chooser, s, 8) == EncodeRecord(chooser, s)
    ensures |EncodeRecord(chooser, s)| == Stride(chooser)
  {
    hide EncodeDecimal;
    var three := SectionsBelow(chooser, s, 3);
    assert three == Section(chooser, s, 0) + Section(chooser, s, 1) + Section(chooser, s, 2) by {
      assert SectionsBelow(chooser, s, 1) == Section(chooser, s, 0);
      assert SectionsBelow(chooser, s, 2) == Section(chooser, s, 0) + Section(chooser, s, 1);
    }
    assert SectionsBelow(chooser, s, 4) == three;
    assert SectionsBelow(chooser, s, 5) == three;
    assert SectionsBelow(chooser, s, 6) == three;
    assert SectionsBelow(chooser, s, 7) == three;
    assert SectionsBelow(chooser, s, 8) == three;
  }

  /** Where each figure sits in a record, and how long it is. */
  lemma RecordLayout(mask: bv8, s: Summary)
    ensures var record := EncodeRecord(mask, s);
            var mean := if Chosen(mask, 0) then 10 else 0;
            var total := mean + (if Chosen(mask, 1) then 5 else 0);
            && |record| == Stride(mask) == total + (if Chosen(mask, 2) then 5 else 0)
            && (Chosen(mask, 0) ==> record[0..5] == EncodeDecimal(s.minPrice))
            && (Chosen(mask, 0) ==> record[5..10] == EncodeDecimal(s.maxPrice))
            && (Chosen(mask, 1) ==> record[mean..mean + 5] == EncodeDecimal(s.mean))
            && (Chosen(mask, 2) ==> record[total..total + 5] == EncodeDecimal(s.total))
  {
    hide EncodeDecimal;
  }

  /** The records of all windows, one after the other. */
  function EncodeAll(chooser: bv8, ss: seq<Summary>): Bytes {
    if ss == [] then [] else EncodeRecord(chooser, ss[0]) + EncodeAll(chooser, ss[1..])
  }

  lemma Associate(a: Bytes, b: Bytes, c: Bytes)
    ensures a + (b + c) == (a + b) + c
  {
  }

  lemma {:induction false} EncodeAllConcat(chooser: bv8, a: seq<Summary>, b: seq<Summary>)
    ensures EncodeAll(chooser, a + b) == EncodeAll(chooser, a) + EncodeAll(chooser, b)
  {
    if a == [] {
      assert a + b == b;
    } else {
      EncodeAllConcat(chooser, a[1..], b);
      assert (a + b)[1..] == a[1..] + b;
      Associate(EncodeRecord(chooser, a[0]), EncodeAll(chooser, a[1..]), EncodeAll(chooser, b));
    }
  }

  lemma {:induction false} EncodeAllLength(chooser: bv8, ss: seq<Summary>)
    ensures |EncodeAll(chooser, ss)| == |ss| * Stride(chooser)
  {
    if ss != [] {
      RecordParts(chooser, ss[0]);
      EncodeAllLength(chooser, ss[1..]);
      assert |ss| * Stride(chooser) == (|ss| - 1) * Stride(chooser) + Stride(chooser);
    }
  }

  lemma SliceOfTail(head: Bytes, rest: Bytes, i: nat, j: nat)
    requires i <= j <= |rest|
    ensures (head + rest)[|head| + i..|head| + j] == rest[i..j]
  {
  }

  /** Record j sits at j strides from the start. */
  lemma {:induction false} EncodeAllAt(chooser: bv8, ss: seq<Summary>, j: nat)
    requires j < |ss|
    ensures 0 <= j * Stride(chooser) <= j * Stride(chooser) + Stride(chooser) <= |EncodeAll(chooser, ss)|
    ensures EncodeAll(chooser, ss)[j * Stride(chooser)..j * Stride(chooser) + Stride(chooser)]
         == EncodeRecord(chooser, ss[j])
  {
    hide EncodeRecord;
    var s := Stride(chooser);
    RecordParts(chooser, ss[0]);
    if j > 0 {
      EncodeAllAt(chooser, ss[1..], j - 1);
      assert j * s == (j - 1) * s + s;
      var head, rest := EncodeRecord(chooser, ss[0]), EncodeAll(chooser, ss[1..]);
      SliceOfTail(head, rest, (j - 1) * s, (j - 1) * s + s);
    } else {
      assert j * s == 0;
    }
  }
}
