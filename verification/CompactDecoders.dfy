/** The whole-array decoder of the compact codec, its agreement with the scalar bit
    reader, and the round trip through either. */
module CompactDecoders {
  import opened TokenSeqs
  import opened Results
  import opened BitStrings
  import opened BitPacking
  import opened CompactCodec

  /** Four zero bytes let every five-byte gather near the end stay in range. */
  function Padded(raw: seq<int>): (p: seq<int>)
    requires IsBytes(raw)
    ensures IsBytes(p) && |p| == |raw| + 4
  {
    raw + [0, 0, 0, 0]
  }

  /** The five gathered bytes as one 40-bit number, most significant first. */
  function Chunk(b: seq<int>): nat
    requires IsBytes(b) && |b| == 5
  {
    b[0] * Pow2(32) + b[1] * Pow2(24) + b[2] * Pow2(16) + b[3] * Pow2(8) + b[4] * Pow2(0)
  }

  function WindowValue(padded: seq<int>, bitPos: nat, width: nat): nat
    requires IsBytes(padded) && bitPos / 8 + 5 <= |padded| && width + bitPos % 8 <= 40
  {
    BitField(Chunk(padded[bitPos / 8..bitPos / 8 + 5]), 40 - width - bitPos % 8, width)
  }

  /** The top five bits of the first byte, and the size its bottom three bits select. */
  function FirstWidth(first: int): nat
    requires 0 <= first < 256
  {
    first / 8 + 2
  }

  function FirstLengthBits(first: int): nat
    requires 0 <= first < 256
  {
    (first % 8 + 1) * 4
  }

  function BytesFor(bits: nat): nat { (bits + 7) / 8 }

  function VecDecode(raw: seq<int>): Result<seq<nat>>
    requires IsBytes(raw)
  {
    if |raw| < 2 then Err("corrupted input - header incomplete")
    else
      var width := FirstWidth(raw[0]);
      // A five-bit field plus two is always between 2 and 33: the decoder's own test
      // of that range cannot fail.
      var lenBits := FirstLengthBits(raw[0]);
      if |raw| < 1 + BytesFor(lenBits) then Err("corrupted input - length field incomplete")
      else
        var n := RawCount(raw, lenBits);
        if n == 0 then Ok([]) else Gathered(Padded(raw), n, 8 + lenBits, width)
  }

  /** The length, left-aligned in the bytes that its field touches. */
  function RawCount(raw: seq<int>, lenBits: nat): nat
    requires IsBytes(raw) && |raw| >= 1 + BytesFor(lenBits)
  {
    var lenBytes := BytesFor(lenBits);
    BitField(FromBytes(raw[1..1 + lenBytes]), 8 * lenBytes - lenBits, lenBits)
  }

  /** Value i read through the window at bit `start + i * width`, for all values at once. */
  function Gathered(padded: seq<int>, n: nat, start: nat, width: nat): Result<seq<nat>>
    requires IsBytes(padded) && width <= 33
  {
    if exists i: nat :: i < n && !InRange(padded, start, width, i) then Err("index out of bounds")
    else Ok(seq(n, i requires 0 <= i < n =>
      assert InRange(padded, start, width, i);
      WindowValue(padded, start + i * width, width)))
  }

  /** All five bytes that value i is gathered from exist. */
  predicate InRange(padded: seq<int>, start: nat, width: nat, i: nat) {
    (start + i * width) / 8 + 5 <= |padded|
  }

  lemma Windows()
    ensures Pow2(0) == 1 && Pow2(8) == 256 && Pow2(16) == 65536 && Pow2(24) == 16777216 && Pow2(32) == 4294967296
  {
    assert Pow2(4) == 16;
    assert Pow2(12) == 4096;
    assert Pow2(20) == 1048576;
    assert Pow2(28) == 268435456;
  }

  lemma ChunkIsVal(b: seq<int>)
    requires IsBytes(b) && |b| == 5
    ensures Chunk(b) == ValOf(ByteBits(b))
  {
    FromBytesIsVal(b);
    Windows();
    assert b[..4][..3] == b[..3] && b[..3][..2] == b[..2] && b[..2][..1] == b[..1] && b[..1][..0] == [];
    assert FromBytes(b[..0]) == 0;
    assert FromBytes(b[..1]) == b[0];
    assert FromBytes(b[..2]) == b[0] * 256 + b[1];
    assert FromBytes(b[..3]) == (b[0] * 256 + b[1]) * 256 + b[2];
    assert FromBytes(b[..4]) == ((b[0] * 256 + b[1]) * 256 + b[2]) * 256 + b[3];
  }

  /** Shifting and masking the 40-bit number reads any value that ends inside it. */
  lemma ChunkReads(window: seq<int>, off: nat, width: nat)
    requires IsBytes(window) && |window| == 5 && width + off <= 40
    ensures BitField(Chunk(window), 40 - width - off, width) == ValOf(ByteBits(window)[off..off + width])
  {
    hide ValOf, ByteBits, Pow2, Chunk, BitField;
    ChunkIsVal(window);
    ReadAt(ByteBits(window), off, width);
    assert 40 - width - off == 40 - off - width;
  }

  /** The five-byte window holds the whole value. */
  lemma WindowReads(padded: seq<int>, bitPos: nat, width: nat)
    requires IsBytes(padded) && bitPos / 8 + 5 <= |padded| && width <= 33
    ensures width + bitPos % 8 <= 40
    ensures bitPos + width <= 8 * |padded|
    ensures WindowValue(padded, bitPos, width) == ValOf(ByteBits(padded)[bitPos..bitPos + width])
  {
    hide ValOf, ByteBits, Pow2, Chunk, BitField;
    var byte, off := bitPos / 8, bitPos % 8;
    assert bitPos == 8 * byte + off && off < 8;
    WindowSlice(padded, byte, off, width);
  }

  lemma WindowSlice(padded: seq<int>, byte: nat, off: nat, width: nat)
    requires IsBytes(padded) && byte + 5 <= |padded| && width + off <= 40
    ensures BitField(Chunk(padded[byte..byte + 5]), 40 - width - off, width)
            == ValOf(ByteBits(padded)[8 * byte + off..8 * byte + off + width])
  {
    hide ValOf, ByteBits, Pow2, Chunk, BitField;
    var window := padded[byte..byte + 5];
    ChunkReads(window, off, width);
    ByteBitsSlice(padded, byte, byte + 5);
    SliceOfSlice(ByteBits(padded), 8 * byte, 8 * (byte + 5), off, off + width);
  }

  /** The header fields read from bytes are those read from bits. */
  lemma HeaderAgrees(raw: seq<int>)
    requires IsBytes(raw) && |raw| >= 1
    ensures FirstWidth(raw[0]) == WidthIn(ByteBits(raw)) <= 33
    ensures FirstLengthBits(raw[0]) == LengthBitsIn(ByteBits(raw))
  {
    hide WidthIn, LengthBitsIn;
    HeaderIs(raw);
  }

  lemma CountAgrees(raw: seq<int>, lenBits: nat)
    requires IsBytes(raw) && |raw| >= 1 + BytesFor(lenBits)
    ensures 8 + lenBits <= |ByteBits(raw)|
    ensures RawCount(raw, lenBits) == ValOf(ByteBits(raw)[8..8 + lenBits])
  {
    hide ValOf, ByteBits, Pow2, FromBytes, BytesFor, BitField;
    FieldBytes(|raw|, lenBits);
    var lenBytes := BytesFor(lenBits);
    ByteBitsSlice(raw, 1, 1 + lenBytes);
    var field := raw[1..1 + lenBytes];
    FromBytesIsVal(field);
    ReadAt(ByteBits(field), 0, lenBits);
    SliceOfSlice(ByteBits(raw), 8, 8 * (1 + lenBytes), 0, lenBits);
  }

  /** The last value starts inside the bytes, whether or not it also ends there. */
  predicate LastStartsInside(raw: seq<int>)
    requires IsBytes(raw)
  {
    var bits := ByteBits(raw);
    HeaderComplete(bits) && (CountIn(bits) == 0 || StartOf(bits, CountIn(bits) - 1) < |bits|)
  }

  lemma PaddedBits(raw: seq<int>)
    requires IsBytes(raw)
    ensures |ByteBits(Padded(raw))| == |ByteBits(raw)| + 32
    ensures ByteBits(Padded(raw))[..|ByteBits(raw)|] == ByteBits(raw)
  {
    ByteBitsAppend(raw, [0, 0, 0, 0]);
  }

  /** What the whole-array decoder accepts and reads: value i is the `width` bits at its
      position, zero bits standing in for missing ones behind the end. */
  lemma VecReads(raw: seq<int>)
    requires IsBytes(raw)
    ensures VecDecode(raw).Ok? <==> LastStartsInside(raw)
    ensures VecDecode(raw).Ok? ==> HeaderComplete(ByteBits(raw)) && |VecDecode(raw).value| == CountIn(ByteBits(raw))
    ensures VecDecode(raw).Ok? ==> forall i: nat :: i < CountIn(ByteBits(raw)) ==> VecReadsAt(raw, i)
  {
    hide ValOf, ByteBits, VecDecode, Gathered, LengthBitsIn, CountIn, WidthIn;
    VecDispatch(raw);
    var bits := ByteBits(raw);
    if HeaderComplete(bits) && CountIn(bits) > 0 {
      GatherReads(raw, CountIn(bits), 8 + LengthBitsIn(bits), WidthIn(bits));
      if VecDecode(raw).Ok? {
        forall i: nat | i < CountIn(bits)
          ensures VecReadsAt(raw, i)
        {
          assert GatheredAt(raw, CountIn(bits), 8 + LengthBitsIn(bits), WidthIn(bits), i);
        }
      }
    }
  }

  ghost predicate VecReadsAt(raw: seq<int>, i: nat)
    requires IsBytes(raw) && VecDecode(raw).Ok?
  {
    && HeaderComplete(ByteBits(raw)) && i < |VecDecode(raw).value|
    && var at := StartOf(ByteBits(raw), i);
       && at + WidthIn(ByteBits(raw)) <= |ByteBits(Padded(raw))|
       && VecDecode(raw).value[i] == ValOf(ByteBits(Padded(raw))[at..at + WidthIn(ByteBits(raw))])
  }

  /** The five bytes at a bit exist exactly when the bit itself does. */
  lemma WindowExists(raw: seq<int>, at: nat)
    requires IsBytes(raw)
    ensures at / 8 + 5 <= |raw| + 4 <==> at < 8 * |raw|
  {
  }

  /** All windows exist exactly when the last one does. */
  lemma LastWindow(raw: seq<int>, start: nat, width: nat, n: nat)
    requires IsBytes(raw) && n > 0
    ensures (forall i: nat :: i < n ==> InRange(Padded(raw), start, width, i))
            <==> start + (n - 1) * width < 8 * |raw|
  {
    forall i: nat | i < n
      ensures start + (n - 1) * width < 8 * |raw| ==> InRange(Padded(raw), start, width, i)
    {
      MulMono(i, n - 1, width);
      WindowExists(raw, start + i * width);
    }
    WindowExists(raw, start + (n - 1) * width);
    assert InRange(Padded(raw), start, width, n - 1) <==> start + (n - 1) * width < 8 * |raw|;
  }

  /** Gathering succeeds exactly when the last value starts inside the bytes. */
  lemma GatherReads(raw: seq<int>, n: nat, start: nat, width: nat)
    requires IsBytes(raw) && n > 0 && width <= 33
    ensures Gathered(Padded(raw), n, start, width).Ok? <==> start + (n - 1) * width < 8 * |raw|
    ensures Gathered(Padded(raw), n, start, width).Ok? ==>
      |Gathered(Padded(raw), n, start, width).value| == n
      && forall i: nat :: i < n ==> GatheredAt(raw, n, start, width, i)
  {
    LastWindow(raw, start, width, n);
    hide ValOf, ByteBits, Pow2, BitField, WindowValue, InRange, GatheredAt;
    if Gathered(Padded(raw), n, start, width).Ok? {
      forall i: nat | i < n
        ensures GatheredAt(raw, n, start, width, i)
      {
        GatherOne(raw, n, start, width, i);
      }
    }
  }

  lemma GatherOne(raw: seq<int>, n: nat, start: nat, width: nat, i: nat)
    requires IsBytes(raw) && width <= 33 && i < n
    requires Gathered(Padded(raw), n, start, width).Ok?
    ensures GatheredAt(raw, n, start, width, i)
  {
    hide ValOf, ByteBits, Pow2, BitField, WindowValue;
    assert InRange(Padded(raw), start, width, i);
    WindowReads(Padded(raw), start + i * width, width);
  }

  ghost predicate GatheredAt(raw: seq<int>, n: nat, start: nat, width: nat, i: nat)
    requires IsBytes(raw) && width <= 33
    requires Gathered(Padded(raw), n, start, width).Ok? && i < n
  {
    var at := start + i * width;
    && at + width <= 8 * (|raw| + 4)
    && Gathered(Padded(raw), n, start, width).value[i] == ValOf(ByteBits(Padded(raw))[at..at + width])
  }

  /** Enough bits for the length field is enough bytes for it. */
  lemma FieldBytes(n: nat, lenBits: nat)
    ensures n >= 1 + BytesFor(lenBits) <==> 8 * n >= 8 + lenBits
    ensures lenBits <= 8 * BytesFor(lenBits)
  {
  }

  /** The header fields the whole-array decoder reads. */
  lemma VecHeader(raw: seq<int>)
    requires IsBytes(raw) && |raw| >= 1
    ensures WidthIn(ByteBits(raw)) == FirstWidth(raw[0]) <= 33
    ensures LengthBitsIn(ByteBits(raw)) == FirstLengthBits(raw[0])
    ensures HeaderComplete(ByteBits(raw)) <==> |raw| >= 1 + BytesFor(FirstLengthBits(raw[0]))
    ensures HeaderComplete(ByteBits(raw)) ==> CountIn(ByteBits(raw)) == RawCount(raw, FirstLengthBits(raw[0]))
  {
    hide ValOf, ByteBits, WidthIn, RawCount, LengthBitsIn, FirstWidth, FirstLengthBits, BytesFor;
    HeaderAgrees(raw);
    var lenBits := FirstLengthBits(raw[0]);
    FieldBytes(|raw|, lenBits);
    if |raw| >= 1 + BytesFor(lenBits) {
      CountAgrees(raw, lenBits);
    }
  }

  /** What the whole-array decoder does with its header. */
  lemma VecDispatch(raw: seq<int>)
    requires IsBytes(raw)
    ensures VecDecode(raw).Ok? ==> HeaderComplete(ByteBits(raw))
    ensures HeaderComplete(ByteBits(raw)) ==> WidthIn(ByteBits(raw)) <= 33
    ensures HeaderComplete(ByteBits(raw)) ==>
      var bits := ByteBits(raw);
      VecDecode(raw) == if CountIn(bits) == 0 then Ok([])
                        else Gathered(Padded(raw), CountIn(bits), 8 + LengthBitsIn(bits), WidthIn(bits))
  {
    hide ValOf, ByteBits, Pow2, FromBytes, Gathered, WidthIn, LengthBitsIn, CountIn, RawCount;
    hide FirstWidth, FirstLengthBits, BytesFor;
    if |raw| >= 1 {
      VecHeader(raw);
      AtLeastOneByte(FirstLengthBits(raw[0]), raw[0]);
    }
  }

  lemma AtLeastOneByte(lenBits: nat, first: int)
    requires 0 <= first < 256 && lenBits == FirstLengthBits(first)
    ensures BytesFor(lenBits) >= 1
  {
  }

  /** The bytes end inside the last value. */
  predicate CutInLastValue(bits: seq<bool>) {
    && HeaderComplete(bits) && CountIn(bits) > 0
    && StartOf(bits, CountIn(bits) - 1) < |bits| < StartOf(bits, CountIn(bits))
  }

  /** Both decoders return the same array or both refuse. The scalar decoder returns
      `Decoded` exactly on complete input. */
  predicate DecodersAgreeOn(raw: seq<int>)
    requires IsBytes(raw)
  {
    && (VecDecode(raw).Ok? <==> Complete(ByteBits(raw)))
    && (Complete(ByteBits(raw)) ==> VecDecode(raw).value == Decoded(ByteBits(raw)))
  }

  /** The decoders agree on every byte string except those cut inside their last value:
      there only the whole-array decoder answers, reading the missing bits as zeros. */
  lemma DecodersAgree(raw: seq<int>)
    requires IsBytes(raw)
    ensures DecodersAgreeOn(raw) <==> !CutInLastValue(ByteBits(raw))
    ensures CutInLastValue(ByteBits(raw)) ==> VecDecode(raw).Ok?
  {
    hide ValOf, ByteBits, VecDecode, Decoded, VecReadsAt;
    var bits := ByteBits(raw);
    VecReads(raw);
    if Complete(bits) {
      CompleteStartsInside(raw);
      forall i: nat | i < CountIn(bits)
        ensures VecDecode(raw).value[i] == Decoded(bits)[i]
      {
        assert VecReadsAt(raw, i);
        CompleteValue(raw, i);
      }
      assert VecDecode(raw).value == Decoded(bits);
    }
  }

  lemma CompleteStartsInside(raw: seq<int>)
    requires IsBytes(raw) && Complete(ByteBits(raw))
    ensures LastStartsInside(raw)
  {
    if CountIn(ByteBits(raw)) > 0 {
      StartMono(ByteBits(raw), CountIn(ByteBits(raw)) - 1, CountIn(ByteBits(raw)) - 1);
    }
  }

  lemma CompleteValue(raw: seq<int>, i: nat)
    requires IsBytes(raw) && VecDecode(raw).Ok? && Complete(ByteBits(raw)) && i < CountIn(ByteBits(raw))
    requires VecReadsAt(raw, i)
    ensures VecDecode(raw).value[i] == Decoded(ByteBits(raw))[i]
  {
    hide ValOf, ByteBits, VecDecode;
    var bits := ByteBits(raw);
    PaddedBits(raw);
    StartMono(bits, i + 1, CountIn(bits));
    StartMono(bits, i, i);
    SliceOfSlice(ByteBits(Padded(raw)), 0, |bits|, StartOf(bits, i), StartOf(bits, i) + WidthIn(bits));
    assert ByteBits(Padded(raw))[0..|bits|] == bits;
  }

  // ---- round trip ----

  /** A slice of a middle part. */
  lemma InMiddle<T>(a: seq<T>, b: seq<T>, c: seq<T>, lo: nat, hi: nat)
    requires lo <= hi <= |b|
    ensures (a + b + c)[|a| + lo..|a| + hi] == b[lo..hi]
  {
  }

  lemma FieldBounds(i: nat, n: nat, width: nat)
    requires i < n
    ensures i * width + width == (i + 1) * width <= n * width == (n - 1) * width + width
  {
    MulMono(i + 1, n, width);
  }

  lemma {:induction false} ValueBitsAt(values: seq<nat>, width: nat, i: nat)
    requires i < |values|
    ensures (i + 1) * width == i * width + width <= |ValueBits(values, width)|
    ensures ValueBits(values, width)[i * width..(i + 1) * width] == BitsOf(values[i], width)
  {
    hide BitsOf, ValueBits;
    var init, last := values[..|values| - 1], BitsOf(values[|values| - 1], width);
    var lo, hi := i * width, (i + 1) * width;
    FieldBounds(i, |values|, width);
    SplitLast(values);
    ValueBitsSnoc(init, values[|values| - 1], width);
    if i == |init| {
      InMiddle(ValueBits(init, width), last, [], 0, width);
      assert ValueBits(init, width) + last + [] == ValueBits(values, width);
    } else {
      ValueBitsAt(init, width, i);
      InMiddle([], ValueBits(init, width), last, lo, hi);
      assert [] + ValueBits(init, width) == ValueBits(init, width);
    }
  }

  function HeaderBits(width: nat, lengthBits: nat, n: nat): (bits: seq<bool>)
    requires 2 <= width && 4 <= lengthBits
    ensures |bits| == 8 + lengthBits
  {
    BitsOf(width - 2, 5) + BitsOf(lengthBits / 4 - 1, 3) + BitsOf(n, lengthBits)
  }

  lemma HeaderStream(width: nat, lengthBits: nat, n: nat)
    requires 2 <= width && 4 <= lengthBits
    ensures PrefixBits(Header(width, lengthBits, n)) == HeaderBits(width, lengthBits, n)
  {
    hide BitsOf;
    var h := Header(width, lengthBits, n);
    assert h[..2][..1] == h[..1] && h[..1][..0] == [];
    assert PrefixBits(h[..0]) == [];
    assert PrefixBits(h[..1]) == BitsOf(width - 2, 5);
    assert PrefixBits(h[..2]) == BitsOf(width - 2, 5) + BitsOf(lengthBits / 4 - 1, 3);
    assert h[..3] == h;
  }

  /** Any bit string that starts with a header says what the header says. */
  lemma HeaderReads(width: nat, lengthBits: nat, n: nat, rest: seq<bool>)
    requires 2 <= width <= 33 && 4 <= lengthBits <= 32 && lengthBits % 4 == 0 && n < Pow2(lengthBits)
    ensures var bits := HeaderBits(width, lengthBits, n) + rest;
      && HeaderComplete(bits) && WidthIn(bits) == width && LengthBitsIn(bits) == lengthBits && CountIn(bits) == n
  {
    hide BitsOf, ValOf, Pow2;
    Pow2Small();
    ValOfBits(width - 2, 5);
    ValOfBits(lengthBits / 4 - 1, 3);
    ValOfBits(n, lengthBits);
    var bits := HeaderBits(width, lengthBits, n) + rest;
    assert bits[..5] == BitsOf(width - 2, 5);
    assert bits[5..8] == BitsOf(lengthBits / 4 - 1, 3);
    assert LengthBitsIn(bits) == lengthBits;
    assert bits[8..8 + lengthBits] == BitsOf(n, lengthBits);
  }

  lemma StreamValue(width: nat, lengthBits: nat, values: seq<nat>, pad: seq<bool>, i: nat)
    requires 2 <= width <= 33 && 4 <= lengthBits <= 32 && i < |values| && ValuesFit(values, width)
    ensures var bits, at := HeaderBits(width, lengthBits, |values|) + ValueBits(values, width) + pad,
                            8 + lengthBits + i * width;
      at + width <= |bits| && ValOf(bits[at..at + width]) == values[i]
  {
    hide BitsOf, ValOf, Pow2, ValueBits, HeaderBits;
    var h, v := HeaderBits(width, lengthBits, |values|), ValueBits(values, width);
    ValueBitsAt(values, width, i);
    InMiddle(h, v, pad, i * width, (i + 1) * width);
    ValOfBits(values[i], width);
  }

  /** Decoding what was encoded gives the array back, through either decoder. */
  lemma RoundTrip(values: seq<nat>, width: nat, lengthBits: nat)
    requires Encodable(values) && IsLeastWidth(width, values) && IsLeastLengthField(lengthBits, |values|)
    ensures var raw := Packed(StreamBits(Header(width, lengthBits, |values|), values, width));
      && IsBytes(raw) && Complete(ByteBits(raw)) && Decoded(ByteBits(raw)) == values
      && VecDecode(raw) == Ok(values)
  {
    hide BitsOf, ValOf, Pow2, ValueBits, Packed, ByteBits, VecDecode, HeaderBits, CutInLastValue;
    LeastWidthsDecide(values, width, lengthBits);
    HeaderStream(width, lengthBits, |values|);
    var h, v := HeaderBits(width, lengthBits, |values|), ValueBits(values, width);
    var raw := Packed(h + v);
    PackedBits(h + v);
    var pad := Zeros(8 * |raw| - |h + v|);
    var bits := ByteBits(raw);
    AppendAssoc(h, v, pad);
    HeaderReads(width, lengthBits, |values|, v + pad);
    assert StartOf(bits, |values|) == |h| + |v|;
    forall i | 0 <= i < |values|
      ensures Decoded(bits)[i] == values[i]
    {
      StreamValue(width, lengthBits, values, pad, i);
    }
    assert Decoded(bits) == values;
    NotCut(bits);
    DecodersAgree(raw);
  }

  /** What the encoder writes, as a number: header, length and values back to back in the
      fewest bytes that hold them, with zero bits behind. */
  lemma EncodedExactly(values: seq<nat>, width: nat, lengthBits: nat)
    requires Encodable(values) && IsLeastWidth(width, values) && IsLeastLengthField(lengthBits, |values|)
    ensures var raw := Packed(StreamBits(Header(width, lengthBits, |values|), values, width));
      && IsBytes(raw) && Encodes(raw, values)
      && raw[0] == (width - 2) * 8 + lengthBits / 4 - 1
      && |raw| == (8 + lengthBits + |values| * width + 7) / 8
      && FromBytes(raw) % Pow2(8 * |raw| - (8 + lengthBits + |values| * width)) == 0
  {
    hide BitsOf, ValOf, Pow2, ValueBits, Packed, ByteBits, VecDecode, HeaderBits, Encodes, Decoded, Complete;
    RoundTrip(values, width, lengthBits);
    var raw := Packed(StreamBits(Header(width, lengthBits, |values|), values, width));
    EncodesExactly(raw, values);
    HeaderStream(width, lengthBits, |values|);
    var stream := HeaderBits(width, lengthBits, |values|) + ValueBits(values, width);
    PackedBits(stream);
    FirstByteWritten(values, width, lengthBits);
    ZerosBehind(stream, 8 * |raw| - |stream|);
    FromBytesIsVal(raw);
  }

  lemma ZerosBehind(bits: seq<bool>, n: nat)
    ensures ValOf(bits + Zeros(n)) % Pow2(n) == 0
  {
    hide ValOf, Pow2;
    ValAppend(bits, Zeros(n));
    ValOfZeros(n);
    DivModOf(ValOf(bits), Pow2(n), 0);
  }

  lemma FirstByteWritten(values: seq<nat>, width: nat, lengthBits: nat)
    requires Encodable(values) && IsLeastWidth(width, values) && IsLeastLengthField(lengthBits, |values|)
    ensures var raw := Packed(StreamBits(Header(width, lengthBits, |values|), values, width));
      raw != [] && raw[0] == (width - 2) * 8 + lengthBits / 4 - 1
  {
    hide BitsOf, ValOf, Pow2, ValueBits, Packed, ByteBits, HeaderBits;
    LeastWidthsDecide(values, width, lengthBits);
    HeaderStream(width, lengthBits, |values|);
    var h, v := HeaderBits(width, lengthBits, |values|), ValueBits(values, width);
    var raw := Packed(h + v);
    PackedBits(h + v);
    AppendAssoc(h, v, Zeros(8 * |raw| - |h + v|));
    HeaderReads(width, lengthBits, |values|, v + Zeros(8 * |raw| - |h + v|));
    HeaderAgrees(raw);
  }

  lemma NotCut(bits: seq<bool>)
    requires Complete(bits)
    ensures !CutInLastValue(bits)
  {
  }

  lemma Pow2Of4()
    ensures Pow2(4) == 16
  {
    assert Pow2(2) == 4;
  }

  lemma TwoBytes(a: int, b: int)
    requires 0 <= a < 256 && 0 <= b < 256
    ensures ByteBits([a, b]) == BitsOf(a, 8) + BitsOf(b, 8)
  {
    assert ByteBits([]) == [];
    hide BitsOf, ByteBits;
    ByteBitsSnoc([], a);
    ByteBitsSnoc([a], b);
    assert [] + [a] == [a] && [a] + [b] == [a, b];
  }

  lemma CutBits()
    ensures IsBytes([24, 16]) && ByteBits([24, 16]) == HeaderBits(5, 4, 1) + Zeros(4)
  {
    hide BitsOf, ValOf, Pow2, ByteBits;
    Pow2Small();
    Pow2Of4();
    TwoBytes(24, 16);
    BitsAppend(3, 5, 0, 3);
    BitsAppend(1, 4, 0, 4);
    ValOfZeros(4);
    BitsOfVal(Zeros(4));
    AppendAssoc(BitsOf(24, 8), BitsOf(1, 4), Zeros(4));
  }

  /** An array of one five-bit value cut to two bytes: refused by the bit reader,
      accepted by the whole-array decoder. */
  lemma CutInputIsAccepted()
    ensures IsBytes([24, 16]) && CutInLastValue(ByteBits([24, 16])) && VecDecode([24, 16]).Ok?
  {
    hide BitsOf, ValOf, Pow2, ByteBits, VecDecode, HeaderBits;
    Pow2Of4();
    CutBits();
    HeaderReads(5, 4, 1, Zeros(4));
    DecodersAgree([24, 16]);
  }
}
