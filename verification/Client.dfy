// The client: the count-prefixed frame reader and the decoder of result sets.
module Client {
  import opened Types
  import opened Codec

  // ---------------------------------------------------------------------
  // Frames

  const INT32_LIMIT: int := 0x8000_0000
  const UINT32_LIMIT: int := 0x1_0000_0000

  /** The int32_t count of a payload, as four bytes. */
  function CountBytes(size: nat): (bs: Bytes)
    ensures |bs| == 4
  {
    LittleEndian(size % UINT32_LIMIT)
  }

  /** What send_result puts on the wire for one payload. */
  function Frame(payload: Bytes): (bs: Bytes)
    ensures |bs| == 4 + |payload|
  {
    CountBytes(|payload|) + payload
  }

  /** Four bytes read as an int32_t. */
  function SignedCount(bs: Bytes): (n: int)
    requires |bs| == 4
  {
    var n := FromLittleEndian(bs);
    if n < INT32_LIMIT then n else n - UINT32_LIMIT
  }

  datatype Received = Output(bytes: Bytes) | NoCount | BadCount

  function Zeros(n: nat): (bs: Bytes)
    ensures |bs| == n
    ensures forall i :: 0 <= i < n ==> bs[i] == 0
  {
    seq(n, i => 0)
  }

  /** read_struct on a connection that carries these bytes and is then closed. */
  function ReadFrame(stream: Bytes): Received {
    if |stream| < 4 then NoCount
    else
      var count := SignedCount(stream[..4]);
      if count < 0 then BadCount
      else if count <= |stream| - 4 then Output(stream[4..4 + count])
      else Output(stream[4..] + Zeros(count - (|stream| - 4)))
  }

  /**
   * The element loop of read_struct. Every recv takes one byte; at the end of the
   * stream it returns 0, which is not treated as an error and leaves the element zero.
   */
  method ReadStruct(stream: Bytes) returns (r: Received)
    ensures r == ReadFrame(stream)
  {
    if |stream| < 4 {
      return NoCount;
    }
    var count := SignedCount(stream[..4]);
    if count < 0 {
      return BadCount;
    }
    var output: Bytes := Zeros(count);
    var i := 0;
    while i < count
      invariant 0 <= i <= count == |output|
      invariant forall j :: 0 <= j < count ==>
                  output[j] == if j < i && 4 + j < |stream| then stream[4 + j] else 0
    {
      if 4 + i < |stream| {
        output := output[i := stream[4 + i]];
      }
      i := i + 1;
    }
    r := Output(output);
  }

  lemma CountRoundTrip(size: nat)
    ensures SignedCount(CountBytes(size)) == size <==> size < INT32_LIMIT
  {
    LittleEndianRoundTrip(size % UINT32_LIMIT, [0, 0, 0, 0]);
  }

  /** The bytes of a count, by place value, low byte first. */
  lemma CountPlaces(size: nat)
    ensures var bs := CountBytes(size);
            bs[0] as int + 0x100 * bs[1] as int + 0x1_0000 * bs[2] as int + 0x100_0000 * bs[3] as int
              == size % 0x1_0000_0000
  {
    LittleEndianPlaces(size % UINT32_LIMIT);
  }

  /**
   * What is read from any bytes before a close: nothing without a count, an error when its top
   * bit is set, and else as many bytes as it says, those that did not come being zero.
   */
  lemma ReadFrameExactly(stream: Bytes)
    ensures ReadFrame(stream) == NoCount <==> |stream| < 4
    ensures ReadFrame(stream) == BadCount <==> |stream| >= 4 && stream[3] >= 0x80
    ensures |stream| >= 4 && stream[3] < 0x80 ==>
              var r := ReadFrame(stream);
              && r.Output?
              && |r.bytes| == stream[0] as int + 0x100 * stream[1] as int + 0x1_0000 * stream[2] as int
                              + 0x100_0000 * stream[3] as int
              && forall i :: 0 <= i < |r.bytes| ==> r.bytes[i] == if 4 + i < |stream| then stream[4 + i] else 0
  {
    if |stream| >= 4 {
      assert stream[..4][0] == stream[0] && stream[..4][1] == stream[1];
      assert stream[..4][2] == stream[2] && stream[..4][3] == stream[3];
    }
  }

  /** A frame reads back as its payload, whatever follows it, exactly below 2^31 bytes. */
  lemma FrameRoundTrip(payload: Bytes, rest: Bytes)
    ensures ReadFrame(Frame(payload) + rest) == Output(payload) <==> |payload| < 0x8000_0000
  {
    var stream := Frame(payload) + rest;
    assert stream[..4] == CountBytes(|payload|);
    assert stream[4..4 + |payload|] == payload;
    CountRoundTrip(|payload|);
  }

  /** Cut off by a close, a frame reads as its received part padded with zeros. */
  lemma TruncatedFrame(payload: Bytes, k: nat)
    requires k <= |payload| < INT32_LIMIT
    ensures ReadFrame(Frame(payload)[..4 + k]) == Output(payload[..k] + Zeros(|payload| - k))
    ensures ReadFrame(Frame(payload)[..4 + k]) == Output(payload)
       <==> forall i :: k <= i < |payload| ==> payload[i] == 0
  {
    var stream := Frame(payload)[..4 + k];
    assert stream[..4] == CountBytes(|payload|);
    assert stream[4..] == payload[..k];
    CountRoundTrip(|payload|);
    assert payload[..k] + Zeros(0) == payload[..k];
    var padded := payload[..k] + Zeros(|payload| - k);
    assert forall i :: k <= i < |payload| ==> padded[i] == 0;
    if forall i :: k <= i < |payload| ==> payload[i] == 0 {
      assert padded == payload;
    }
  }

  // ---------------------------------------------------------------------
  // Result sets

  /** The figures printed for one set. */
  datatype ClientSet = ClientSet(prices: Option<(Price, Price)>, mean: Option<Price>, total: Option<Quantity>)

  /** PastEnd stands for a read beyond the last byte of the answer. */
  datatype Decoded = Sets(sets: seq<ClientSet>) | PastEnd

  function DecimalAt(output: Bytes, pos: nat): Decimal
    requires pos + 5 <= |output|
  {
    DecodeDecimal(output[pos..pos + 5])
  }

  function MeanOffset(mask: bv8): nat {
    if Chosen(mask, 0) then 10 else 0
  }

  function TotalOffset(mask: bv8): nat {
    MeanOffset(mask) + (if Chosen(mask, 1) then 5 else 0)
  }

  /** The set whose record starts at base. */
  function SetAt(mask: bv8, output: Bytes, base: nat): ClientSet
    requires base + Stride(mask) <= |output|
  {
    ClientSet(
      if Chosen(mask, 0) then Some((DecimalAt(output, base), DecimalAt(output, base + 5))) else None,
      if Chosen(mask, 1) then Some(DecimalAt(output, base + MeanOffset(mask))) else None,
      if Chosen(mask, 2) then Some(DecimalAt(output, base + TotalOffset(mask))) else None)
  }

  /** The fixed set length the client assumes. */
  const SET_SIZE: nat := 20

  function NumSets(size: nat): nat {
    (size + SET_SIZE - 1) / SET_SIZE
  }

  function DecodeSets(mask: bv8, output: Bytes, n: nat): Decoded {
    if n == 0 then Sets([])
    else
      var base := (n - 1) * SET_SIZE;
      match DecodeSets(mask, output, n - 1)
      case PastEnd => PastEnd
      case Sets(ss) =>
        if base + Stride(mask) > |output| then PastEnd else Sets(ss + [SetAt(mask, output, base)])
  }

  function DecodeOutput(mask: bv8, output: Bytes): Decoded {
    DecodeSets(mask, output, NumSets(|output|))
  }

  method DecodeOneSet(mask: bv8, output: Bytes, base: nat) returns (r: Option<ClientSet>)
    requires base <= |output|
    ensures r == if base + Stride(mask) > |output| then None else Some(SetAt(mask, output, base))
  {
    hide DecimalAt;
    var prices: Option<(Price, Price)> := None;
    var mean: Option<Price> := None;
    var total: Option<Quantity> := None;
    var index: nat := 0;
    for i := 0 to 8
      invariant base + index <= |output|
      invariant i == 0 ==> index == 0
      invariant i == 1 ==> index == MeanOffset(mask)
      invariant i == 2 ==> index == TotalOffset(mask)
      invariant i >= 3 ==> index == Stride(mask)
      invariant prices == if i > 0 && Chosen(mask, 0)
                          then Some((DecimalAt(output, base), DecimalAt(output, base + 5))) else None
      invariant mean == if i > 1 && Chosen(mask, 1)
                        then Some(DecimalAt(output, base + MeanOffset(mask))) else None
      invariant total == if i > 2 && Chosen(mask, 2)
                         then Some(DecimalAt(output, base + TotalOffset(mask))) else None
    {
      if Chosen(mask, i) {
        match i
        case 0 =>
          if base + index + 10 > |output| {
            return None;
          }
          prices := Some((DecimalAt(output, base + index), DecimalAt(output, base + index + 5)));
          index := index + 10;
        case 1 =>
          if base + index + 5 > |output| {
            return None;
          }
          mean := Some(DecimalAt(output, base + index));
          index := index + 5;
        case 2 =>
          if base + index + 5 > |output| {
            return None;
          }
          total := Some(DecimalAt(output, base + index));
          index := index + 5;
        case _ =>
      }
    }
    r := Some(ClientSet(prices, mean, total));
  }

  lemma {:induction false} PastEndStays(mask: bv8, output: Bytes, k: nat, n: nat)
    requires k <= n && DecodeSets(mask, output, k) == PastEnd
    ensures DecodeSets(mask, output, n) == PastEnd
    decreases n
  {
    if k < n {
      PastEndStays(mask, output, k, n - 1);
    }
  }

  /** The set loop of the client's main: base and index walk over the answer. */
  method DecodeAnswer(mask: bv8, output: Bytes) returns (r: Decoded)
    ensures r == DecodeOutput(mask, output)
  {
    var sets: seq<ClientSet> := [];
    var numSets := (|output| + SET_SIZE - 1) / SET_SIZE;
    for set_ := 0 to numSets
      invariant DecodeSets(mask, output, set_) == Sets(sets)
    {
      var base := set_ * SET_SIZE;
      var one := DecodeOneSet(mask, output, base);
      if one.None? {
        PastEndStays(mask, output, set_ + 1, numSets);
        return PastEnd;
      }
      sets := sets + [one.value];
    }
    r := Sets(sets);
  }

  lemma {:induction false} DecodedUpTo(mask: bv8, output: Bytes, n: nat, sets: seq<ClientSet>)
    ensures DecodeSets(mask, output, n) == Sets(sets) <==>
              && |sets| == n
              && forall k :: 0 <= k < n ==>
                   20 * k + Stride(mask) <= |output| && sets[k] == SetAt(mask, output, 20 * k)
  {
    hide SetAt, Stride;
    if n > 0 {
      if |sets| == n {
        DecodedUpTo(mask, output, n - 1, sets[..n - 1]);
        assert sets == sets[..n - 1] + [sets[n - 1]];
      }
      match DecodeSets(mask, output, n - 1) {
        case PastEnd =>
        case Sets(ss) =>
          DecodedUpTo(mask, output, n - 1, ss);
      }
    }
  }

  /** What the client prints of any answer: one set for every 20 bytes begun, read from there. */
  lemma DecodedExactly(mask: bv8, output: Bytes, sets: seq<ClientSet>)
    ensures DecodeOutput(mask, output) == Sets(sets) <==>
              && |sets| == (|output| + 19) / 20
              && forall k :: 0 <= k < |sets| ==>
                   20 * k + Stride(mask) <= |output| && sets[k] == SetAt(mask, output, 20 * k)
  {
    DecodedUpTo(mask, output, NumSets(|output|), sets);
  }
}
