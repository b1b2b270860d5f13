/** The compact array codec: five bits of width, three bits selecting the size of the
    length field, the length, and the values back to back. The Base64 text around the
    bytes is taken as the identity. */
module CompactCodec {
  import opened TokenSeqs
  import opened Results
  import opened BitStrings
  import opened BitPacking

  // ---- encoding ----

  /** `ceil(log2(v + 1))`: the number of bits needed to store v. */
  function BitsNeeded(v: nat): nat {
    if v == 0 then 0 else 1 + BitsNeeded(v / 2)
  }

  lemma {:induction false} NeededIsLeast(v: nat, k: nat)
    ensures v < Pow2(k) <==> BitsNeeded(v) <= k
  {
    if v == 0 || k == 0 {
    } else {
      NeededIsLeast(v / 2, k - 1);
    }
  }

  /** The least width of at least two bits that holds every value. */
  ghost predicate IsLeastWidth(width: nat, values: seq<nat>) {
    && 2 <= width
    && ValuesFit(values, width)
    && forall w: nat :: 2 <= w < width ==> !ValuesFit(values, w)
  }

  /** The least multiple of four bits that holds the length. */
  ghost predicate IsLeastLengthField(lengthBits: nat, n: nat) {
    && 4 <= lengthBits && lengthBits % 4 == 0
    && n < Pow2(lengthBits)
    && forall b: nat :: 4 <= b < lengthBits && b % 4 == 0 ==> n >= Pow2(b)
  }

  function Header(width: nat, lengthBits: nat, n: nat): seq<Field>
    requires 2 <= width && 4 <= lengthBits
  {
    [Field(width - 2, 5), Field(lengthBits / 4 - 1, 3), Field(n, lengthBits)]
  }

  predicate Encodable(values: seq<nat>) {
    ValuesFit(values, 33) && |values| < Pow2(32)
  }

  method MaxOf(values: seq<nat>) returns (m: nat)
    requires values != []
    ensures m in values && forall i :: 0 <= i < |values| ==> values[i] <= m
  {
    m := values[0];
    for k := 1 to |values|
      invariant m in values && forall i :: 0 <= i < k ==> values[i] <= m
    {
      if values[k] > m {
        m := values[k];
      }
    }
  }

  lemma MaxDecides(values: seq<nat>, m: nat, w: nat)
    requires m in values && forall i :: 0 <= i < |values| ==> values[i] <= m
    ensures ValuesFit(values, w) <==> BitsNeeded(m) <= w
  {
    NeededIsLeast(m, w);
  }

  method WidthFor(values: seq<nat>) returns (width: nat)
    ensures IsLeastWidth(width, values)
  {
    if |values| == 0 {
      return 2;
    }
    var maxVal := MaxOf(values);
    forall w: nat
      ensures ValuesFit(values, w) <==> BitsNeeded(maxVal) <= w
    {
      MaxDecides(values, maxVal, w);
    }
    return Max(2, BitsNeeded(maxVal));
  }

  method LengthBitsFor(n: nat) returns (lengthBits: nat)
    ensures IsLeastLengthField(lengthBits, n)
  {
    var needed := Max(1, BitsNeeded(n));
    lengthBits := 4;
    while lengthBits < needed
      invariant 4 <= lengthBits && lengthBits % 4 == 0
      invariant forall b: nat :: 4 <= b < lengthBits && b % 4 == 0 ==> n >= Pow2(b)
      decreases needed - lengthBits
    {
      NeededIsLeast(n, lengthBits);
      lengthBits := lengthBits + 4;
    }
    NeededIsLeast(n, lengthBits);
  }

  /** The array fits the format exactly when the least widths do. */
  lemma LeastWidthsDecide(values: seq<nat>, width: nat, lengthBits: nat)
    requires IsLeastWidth(width, values) && IsLeastLengthField(lengthBits, |values|)
    ensures Encodable(values) <==> width <= 33 && lengthBits <= 32
  {
    hide Pow2;
    if width <= 33 {
      FitWider(values, width, 33);
    }
    if lengthBits <= 32 {
      Pow2Mono(lengthBits, 32);
    }
  }

  lemma FitWider(values: seq<nat>, w: nat, wider: nat)
    requires ValuesFit(values, w) && w <= wider
    ensures ValuesFit(values, wider)
  {
    Pow2Mono(w, wider);
  }

  method NdarrayToBytes(values: seq<nat>) returns (r: Result<seq<int>>, ghost width: nat, ghost lengthBits: nat)
    ensures IsLeastWidth(width, values) && IsLeastLengthField(lengthBits, |values|)
    ensures r.Ok? <==> Encodable(values)
    ensures r.Ok? ==> width <= 33 && lengthBits <= 32
    ensures r.Ok? ==> r.value == Packed(StreamBits(Header(width, lengthBits, |values|), values, width))
  {
    hide Pow2, Packed, StreamBits;
    var bits := WidthFor(values);
    var fieldBits := LengthBitsFor(|values|);
    width, lengthBits := bits, fieldBits;
    LeastWidthsDecide(values, width, lengthBits);
    if bits > 33 {
      return Err("bit-width >33 not supported by 5-bit header"), width, lengthBits;
    }
    if fieldBits > 32 {
      return Err("array too long for 32-bit length header"), width, lengthBits;
    }
    var prefix := Header(bits, fieldBits, |values|);
    HeaderFits(bits, fieldBits, |values|);
    r := PackBitsVec(values, bits, prefix);
  }

  lemma HeaderFits(width: nat, lengthBits: nat, n: nat)
    requires 2 <= width <= 33 && 4 <= lengthBits <= 32 && n < Pow2(lengthBits)
    ensures FitAll(Header(width, lengthBits, n))
  {
    assert Pow2(3) == 8 && Pow2(5) == 32;
  }

  // ---- what a byte string encodes ----

  function WidthIn(bits: seq<bool>): nat
    requires |bits| >= 8
  {
    ValOf(bits[..5]) + 2
  }

  function LengthBitsIn(bits: seq<bool>): nat
    requires |bits| >= 8
  {
    (ValOf(bits[5..8]) + 1) * 4
  }

  predicate HeaderComplete(bits: seq<bool>) {
    |bits| >= 8 && |bits| >= 8 + LengthBitsIn(bits)
  }

  function CountIn(bits: seq<bool>): nat
    requires HeaderComplete(bits)
  {
    ValOf(bits[8..8 + LengthBitsIn(bits)])
  }

  /** The bit at which value i starts. */
  function StartOf(bits: seq<bool>, i: nat): nat
    requires HeaderComplete(bits)
  {
    8 + LengthBitsIn(bits) + i * WidthIn(bits)
  }

  predicate Complete(bits: seq<bool>) {
    HeaderComplete(bits) && StartOf(bits, CountIn(bits)) <= |bits|
  }

  lemma StartMono(bits: seq<bool>, i: nat, j: nat)
    requires HeaderComplete(bits) && i <= j
    ensures StartOf(bits, i) <= StartOf(bits, j)
    ensures StartOf(bits, i + 1) == StartOf(bits, i) + WidthIn(bits)
  {
    MulMono(i, j, WidthIn(bits));
  }

  function ValueAt(bits: seq<bool>, i: nat): nat
    requires HeaderComplete(bits) && StartOf(bits, i) + WidthIn(bits) <= |bits|
  {
    ValOf(bits[StartOf(bits, i)..StartOf(bits, i) + WidthIn(bits)])
  }

  /** The array a bit string encodes. */
  function Decoded(bits: seq<bool>): (values: seq<nat>)
    requires Complete(bits)
    ensures |values| == CountIn(bits)
  {
    seq(CountIn(bits), i requires 0 <= i < CountIn(bits) =>
      StartMono(bits, i + 1, CountIn(bits)); StartMono(bits, i, i); ValueAt(bits, i))
  }

  // ---- the format, as a number ----

  /** The bytes, read as one number from the front: five bits of width, three bits for the
      size of the length field, the length, and the values, each at its place. */
  ghost predicate Encodes(data: seq<int>, values: seq<nat>)
    requires IsBytes(data)
  {
    && data != []
    && var number, total, width, lengthBits := FromBytes(data), 8 * |data|, data[0] / 8 + 2, (data[0] % 8 + 1) * 4;
       && 8 + lengthBits + |values| * width <= total
       && |values| == number / Pow2(total - 8 - lengthBits) % Pow2(lengthBits)
       && forall i :: 0 <= i < |values| ==> IsField(values[i], number, total - 8 - lengthBits, width, i)
  }

  /** Field i behind a header, of all fields of one width from the front of `rest` bits. */
  ghost predicate IsField(value: nat, number: nat, rest: nat, width: nat, i: nat) {
    (i + 1) * width <= rest && value == number / Pow2(rest - (i + 1) * width) % Pow2(width)
  }

  lemma HeaderIs(data: seq<int>)
    requires IsBytes(data) && data != []
    ensures WidthIn(ByteBits(data)) == data[0] / 8 + 2 && LengthBitsIn(ByteBits(data)) == (data[0] % 8 + 1) * 4
  {
    hide ValOf, ByteBits;
    ByteBitsSlice(data, 0, 1);
    assert data[0..1] == [data[0]];
    SliceOfSlice(ByteBits(data), 0, 8, 0, 5);
    SliceOfSlice(ByteBits(data), 0, 8, 5, 8);
    FirstByte(data[0]);
  }

  lemma FirstByte(b: int)
    requires 0 <= b < 256
    ensures b / 8 == ValOf(ByteBits([b])[0..5]) < 32 && b % 8 == ValOf(ByteBits([b])[5..8])
  {
    Pow2Small();
    FromBytesOne(b);
    hide ValOf, ByteBits, Pow2, FromBytes;
    var bits := ByteBits([b]);
    FromBytesIsVal([b]);
    SplitAt(bits, 5);
    ValAppend(bits[..5], bits[5..]);
    ValBound(bits[5..]);
    ValBound(bits[..5]);
    DivModOf(ValOf(bits[..5]), 8, ValOf(bits[5..]));
    assert bits[0..5] == bits[..5] && bits[5..8] == bits[5..];
  }

  lemma FromBytesOne(b: int)
    requires 0 <= b < 256
    ensures FromBytes([b]) == b
  {
    assert [b][..0] == [];
  }

  lemma Pow2Small()
    ensures Pow2(3) == 8 && Pow2(5) == 32
  {
    assert Pow2(1) == 2;
  }

  lemma CountIs(data: seq<int>)
    requires IsBytes(data) && data != [] && HeaderComplete(ByteBits(data))
    ensures var lengthBits := LengthBitsIn(ByteBits(data));
      CountIn(ByteBits(data)) == FromBytes(data) / Pow2(8 * |data| - 8 - lengthBits) % Pow2(lengthBits)
  {
    hide ValOf, ByteBits, FromBytes, Pow2;
    ReadAt(ByteBits(data), 8, LengthBitsIn(ByteBits(data)));
    FromBytesIsVal(data);
  }

  lemma FieldIs(data: seq<int>, i: nat)
    requires IsBytes(data) && data != [] && HeaderComplete(ByteBits(data)) && StartOf(ByteBits(data), i + 1) <= 8 * |data|
    ensures StartOf(ByteBits(data), i) + WidthIn(ByteBits(data)) == StartOf(ByteBits(data), i + 1)
    ensures IsField(ValueAt(ByteBits(data), i), FromBytes(data), 8 * |data| - 8 - LengthBitsIn(ByteBits(data)),
                    WidthIn(ByteBits(data)), i)
  {
    hide ValOf, ByteBits, FromBytes, Pow2;
    var bits := ByteBits(data);
    StartMono(bits, i, i);
    ReadAt(bits, StartOf(bits, i), WidthIn(bits));
    FromBytesIsVal(data);
  }

  /** The bytes encode exactly the values their bits spell out. */
  lemma EncodesExactly(data: seq<int>, values: seq<nat>)
    requires IsBytes(data)
    ensures Encodes(data, values) <==> Complete(ByteBits(data)) && values == Decoded(ByteBits(data))
  {
    hide ValOf, ByteBits, FromBytes, Pow2, ValueAt, IsField;
    var bits := ByteBits(data);
    if data != [] {
      HeaderIs(data);
      if HeaderComplete(bits) {
        CountIs(data);
        if Complete(bits) {
          forall i | 0 <= i < CountIn(bits)
            ensures IsField(Decoded(bits)[i], FromBytes(data), 8 * |data| - 8 - LengthBitsIn(bits), WidthIn(bits), i)
          {
            StartMono(bits, i + 1, CountIn(bits));
            FieldIs(data, i);
          }
          if Encodes(data, values) {
            forall i | 0 <= i < |values|
              ensures values[i] == Decoded(bits)[i]
            {
              OneField(values[i], Decoded(bits)[i], FromBytes(data), 8 * |data| - 8 - LengthBitsIn(bits), WidthIn(bits), i);
            }
          }
        }
      }
    }
  }

  lemma OneField(v: nat, w: nat, number: nat, rest: nat, width: nat, i: nat)
    requires IsField(v, number, rest, width, i) && IsField(w, number, rest, width, i)
    ensures v == w
  {
  }

  // ---- scalar decoder ----

  class BitReader {
    const stream: nat
    const total: nat
    var pos: nat
    ghost const bits: seq<bool>

    ghost predicate Valid()
      reads this
    {
      stream == ValOf(bits) && total == |bits| && pos <= total
    }

    constructor (data: seq<int>)
      requires IsBytes(data)
      ensures Valid() && pos == 0 && bits == ByteBits(data)
    {
      stream := FromBytes(data);
      total := |data| * 8;
      pos := 0;
      bits := ByteBits(data);
      FromBytesIsVal(data);
    }

    /** The next n bits as a number; reading past the end is refused and consumes nothing. */
    method Read(n: nat) returns (r: Result<nat>)
      requires Valid()
      modifies this
      ensures Valid()
      ensures r.Ok? <==> old(pos) + n <= |bits|
      ensures r.Ok? ==> r.value == ValOf(bits[old(pos)..old(pos) + n]) && pos == old(pos) + n
      ensures r.Err? ==> pos == old(pos)
    {
      if pos + n > total {
        return Err("Ran out of bits");
      }
      var shift := total - pos - n;
      ReadAt(bits, pos, n);
      var val := BitField(stream, shift, n);
      pos := pos + n;
      return Ok(val);
    }
  }

  method BytesToNdarray(data: seq<int>) returns (r: Result<seq<nat>>)
    requires IsBytes(data)
    ensures r.Ok? <==> Complete(ByteBits(data))
    ensures r.Ok? ==> r.value == Decoded(ByteBits(data))
    ensures r.Ok? ==> Encodes(data, r.value)
    ensures r.Err? ==> forall values :: !Encodes(data, values)
  {
    hide ValOf, ByteBits, Encodes;
    forall values
      ensures Encodes(data, values) <==> Complete(ByteBits(data)) && values == Decoded(ByteBits(data))
    {
      EncodesExactly(data, values);
    }
    var reader := new BitReader(data);
    ghost var bits := ByteBits(data);
    var code := reader.Read(5);
    if code.Err? {
      return Err(code.error);
    }
    assert bits[0..5] == bits[..5];
    var width := code.value + 2;
    var selector := reader.Read(3);
    if selector.Err? {
      return Err("Ran out of bits");
    }
    var lengthBits := (selector.value + 1) * 4;
    var n := reader.Read(lengthBits);
    if n.Err? {
      return Err(n.error);
    }
    var out: seq<nat> := [];
    assert StartOf(bits, 0) == 8 + lengthBits;
    for i := 0 to n.value
      invariant HeaderComplete(bits) && |out| == i
      invariant reader.Valid() && reader.bits == bits && reader.pos == StartOf(bits, i)
      invariant forall j :: 0 <= j < i ==> StartOf(bits, j) + WidthIn(bits) <= |bits| && out[j] == ValueAt(bits, j)
    {
      StartMono(bits, i + 1, n.value);
      StartMono(bits, i, i);
      var v := reader.Read(width);
      if v.Err? {
        return Err(v.error);
      }
      out := out + [v.value];
    }
    return Ok(out);
  }
}
