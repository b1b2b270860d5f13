/** The two bit packers: one builds the whole bit stream and folds it into bytes, the
    other streams through a carry buffer. */
module BitPacking {
  import opened TokenSeqs
  import opened Results
  import opened BitStrings

  /** A header field and the number of bits it is written in. */
  datatype Field = Field(value: nat, width: nat)

  predicate FitsField(f: Field) { f.value < Pow2(f.width) }

  predicate FitAll(prefix: seq<Field>) {
    forall i :: 0 <= i < |prefix| ==> FitsField(prefix[i])
  }

  predicate ValuesFit(values: seq<nat>, width: nat) {
    forall i :: 0 <= i < |values| ==> values[i] < Pow2(width)
  }

  function PrefixBits(prefix: seq<Field>): seq<bool> {
    if prefix == [] then []
    else
      var f := prefix[|prefix| - 1];
      PrefixBits(prefix[..|prefix| - 1]) + BitsOf(f.value, f.width)
  }

  function ValueBits(values: seq<nat>, width: nat): (bits: seq<bool>)
    ensures |bits| == |values| * width
  {
    if values == [] then []
    else
      assert (|values| - 1) * width + width == |values| * width;
      ValueBits(values[..|values| - 1], width) + BitsOf(values[|values| - 1], width)
  }

  function StreamBits(prefix: seq<Field>, values: seq<nat>, width: nat): seq<bool> {
    PrefixBits(prefix) + ValueBits(values, width)
  }

  lemma PrefixBitsSnoc(prefix: seq<Field>, f: Field)
    ensures PrefixBits(prefix + [f]) == PrefixBits(prefix) + BitsOf(f.value, f.width)
  {
    assert (prefix + [f])[..|prefix|] == prefix;
  }

  lemma ValueBitsSnoc(values: seq<nat>, v: nat, width: nat)
    ensures ValueBits(values + [v], width) == ValueBits(values, width) + BitsOf(v, width)
  {
    assert (values + [v])[..|values|] == values;
  }

  // ---- whole-array packer ----

  /** One row of the bit matrix: the value shifted right by each position, masked to one bit. */
  function MatrixRow(v: nat, width: nat): seq<bool> {
    seq(width, j requires 0 <= j < width => v / Pow2(width - 1 - j) % 2 == 1)
  }

  lemma DivDiv(v: nat, d: nat)
    requires d > 0
    ensures v / 2 / d == v / (2 * d)
  {
    var q, r := v / (2 * d), v % (2 * d);
    assert v == q * (2 * d) + r;
    assert v / 2 == q * d + r / 2;
    DivModOf(q, d, r / 2);
  }

  lemma RowBit(v: nat, n: nat)
    ensures v / Pow2(n + 1) == v / 2 / Pow2(n)
  {
    DivDiv(v, Pow2(n));
  }

  lemma {:induction false} MatrixRowIsBits(v: nat, width: nat)
    ensures MatrixRow(v, width) == BitsOf(v, width)
  {
    if width == 0 {
    } else {
      MatrixRowIsBits(v / 2, width - 1);
      MatrixRowStep(v, width - 1);
    }
  }

  lemma MatrixRowStep(v: nat, n: nat)
    ensures MatrixRow(v, n + 1) == MatrixRow(v / 2, n) + [v % 2 == 1]
  {
    assert Pow2(0) == 1;
    hide Pow2;
    var row, shorter := MatrixRow(v, n + 1), MatrixRow(v / 2, n);
    forall j | 0 <= j < n
      ensures row[j] == shorter[j]
    {
      RowBit(v, n - 1 - j);
    }
    assert row[n] == (v / Pow2(0) % 2 == 1);
  }

  /** The bits of a value in a longer field end with its bits in a shorter one. */
  lemma {:induction false} LowBits(v: nat, m: nat, n: nat)
    ensures BitsOf(v, m + n)[m..] == BitsOf(v, n)
  {
    if n == 0 {
    } else {
      LowBits(v / 2, m, n - 1);
    }
  }

  method PackBitsVec(values: seq<nat>, width: nat, prefix: seq<Field>) returns (r: Result<seq<int>>)
    ensures r.Ok? <==> forall i :: 0 <= i < |prefix| ==> prefix[i].value < Pow2(prefix[i].width)
    ensures r.Ok? ==> r.value == Packed(StreamBits(prefix, values, width))
  {
    hide BitsOf, PrefixBits, ValueBits, Packed, Pow2, MatrixRow;
    var pVal: nat, pBits: nat := 0, 0;
    assert PrefixBits([]) == [] && Pow2(0) == 1 && BitsOf(0, 0) == [] by { EmptyStreams(width); }
    for k := 0 to |prefix|
      invariant forall i :: 0 <= i < k ==> FitsField(prefix[i])
      invariant pVal < Pow2(pBits)
      invariant BitsOf(pVal, pBits) == PrefixBits(prefix[..k])
    {
      var f := prefix[k];
      if f.value >= Pow2(f.width) {
        return Err("value will not fit");
      }
      BitsAppend(pVal, pBits, f.value, f.width);
      TakeNext(prefix, k);
      PrefixBitsSnoc(prefix[..k], f);
      pVal, pBits := pVal * Pow2(f.width) + f.value, pBits + f.width;
    }
    assert prefix[..|prefix|] == prefix;
    var pBytes := (pBits + 7) / 8;
    var unpacked := BitsOf(pVal, 8 * pBytes);
    LowBits(pVal, 8 * pBytes - pBits, pBits);
    var prefixStream := unpacked[8 * pBytes - pBits..];
    var payload: seq<bool> := [];
    assert ValueBits([], width) == [] by { EmptyStreams(width); }
    for k := 0 to |values|
      invariant payload == ValueBits(values[..k], width)
    {
      MatrixRowIsBits(values[k], width);
      TakeNext(values, k);
      ValueBitsSnoc(values[..k], values[k], width);
      payload := payload + MatrixRow(values[k], width);
    }
    assert values[..|values|] == values;
    return Ok(Packed(prefixStream + payload));
  }

  lemma EmptyStreams(width: nat)
    ensures PrefixBits([]) == [] && ValueBits([], width) == []
    ensures Pow2(0) == 1 && BitsOf(0, 0) == [] && ByteBits([]) == [] && Packed([]) == []
  {
  }

  // ---- streaming packer ----

  /** Bitwise or. */
  function Or(a: nat, b: nat): nat {
    if a == 0 && b == 0 then 0 else 2 * Or(a / 2, b / 2) + if a % 2 == 1 || b % 2 == 1 then 1 else 0
  }

  function OrBits(a: seq<bool>, b: seq<bool>): (bits: seq<bool>)
    requires |a| == |b|
    ensures |bits| == |a|
  {
    seq(|a|, i requires 0 <= i < |a| => a[i] || b[i])
  }

  lemma {:induction false} OrBitwise(a: nat, b: nat, n: nat)
    ensures BitsOf(Or(a, b), n) == OrBits(BitsOf(a, n), BitsOf(b, n))
  {
    if n == 0 {
    } else {
      OrBitwise(a / 2, b / 2, n - 1);
      assert Or(a, b) / 2 == Or(a / 2, b / 2);
      assert Or(a, b) % 2 == 1 <==> a % 2 == 1 || b % 2 == 1;
    }
  }

  /** What a value has above its low `n` bits. */
  function Above(v: nat, n: nat): nat {
    QuotientIsNat(v, Pow2(n));
    v / Pow2(n)
  }

  lemma QuotientIsNat(v: nat, d: nat)
    requires d > 0
    ensures v / d >= 0
  {
  }

  /** The bits in a field are those above its low part and those of the low part. */
  lemma {:induction false} BitsSplit(v: nat, m: nat, n: nat)
    ensures BitsOf(v, m + n) == BitsOf(Above(v, n), m) + BitsOf(v, n)
  {
    if n == 0 {
      assert Above(v, 0) == v;
    } else {
      BitsSplit(v / 2, m, n - 1);
      AboveHalf(v, n - 1);
      hide Pow2, Above;
      AppendAssoc(BitsOf(Above(v, n), m), BitsOf(v / 2, n - 1), [v % 2 == 1]);
    }
  }

  lemma AboveHalf(v: nat, n: nat)
    ensures Above(v, n + 1) == Above(v / 2, n)
  {
    RowBit(v, n);
  }

  /** Only the low bits of a value show in its field. */
  lemma {:induction false} BitsMasked(v: nat, n: nat)
    ensures BitsOf(v % Pow2(n), n) == BitsOf(v, n)
  {
    if n == 0 {
    } else {
      BitsMasked(v / 2, n - 1);
      MaskHalved(v, Pow2(n - 1));
    }
  }

  lemma MaskHalved(v: nat, d: nat)
    requires d > 0
    ensures v % (2 * d) / 2 == v / 2 % d && v % (2 * d) % 2 == v % 2
  {
    var q, r := v / (2 * d), v % (2 * d);
    assert v == q * (2 * d) + r;
    assert q * (2 * d) == 2 * (q * d);
    assert v / 2 == q * d + r / 2;
    DivModOf(q, d, r / 2);
  }

  lemma {:induction false} BitsOfZero(n: nat)
    ensures BitsOf(0, n) == Zeros(n)
  {
    if n == 0 {
    } else {
      BitsOfZero(n - 1);
    }
  }

  lemma BitsShifted(v: nat, m: nat, n: nat)
    ensures BitsOf(v * Pow2(n), m + n) == BitsOf(v, m) + Zeros(n)
  {
    hide BitsOf, Pow2;
    DivModOf(v, Pow2(n), 0);
    assert Above(v * Pow2(n), n) == v;
    BitsSplit(v * Pow2(n), m, n);
    BitsMasked(v * Pow2(n), n);
    BitsOfZero(n);
  }

  /** The bits after one more write: what a value has above its field is mixed into the
      bits of the byte that is not finished yet, and lost beyond that. */
  function Spilled(bits: seq<bool>, v: nat, n: nat): (r: seq<bool>)
    ensures |r| == |bits| + n
  {
    var pending := |bits| % 8;
    bits[..|bits| - pending] + OrBits(bits[|bits| - pending..], BitsOf(Above(v, n), pending)) + BitsOf(v, n)
  }

  function AllSpilled(prefix: seq<Field>, values: seq<nat>, width: nat): seq<bool> {
    if values == [] then PrefixBits(prefix)
    else Spilled(AllSpilled(prefix, values[..|values| - 1], width), values[|values| - 1], width)
  }

  /** Every bit above the field falls on a bit that is set already, or on none. */
  predicate Harmless(bits: seq<bool>, v: nat, n: nat) {
    var pending := |bits| % 8;
    forall j :: 0 <= j < pending && BitsOf(Above(v, n), pending)[j] ==> bits[|bits| - pending + j]
  }

  predicate NoneSpills(prefix: seq<Field>, values: seq<nat>, width: nat) {
    forall k :: 0 <= k < |values| ==> Harmless(StreamBits(prefix, values[..k], width), values[k], width)
  }

  lemma FitIsHarmless(bits: seq<bool>, v: nat, n: nat)
    requires v < Pow2(n)
    ensures Harmless(bits, v, n) && Spilled(bits, v, n) == bits + BitsOf(v, n)
  {
    hide BitsOf, Pow2;
    assert Above(v, n) == 0 by { DivModOf(0, Pow2(n), v); }
    BitsOfZero(|bits| % 8);
    HarmlessExactly(bits, v, n);
  }

  lemma HarmlessExactly(bits: seq<bool>, v: nat, n: nat)
    ensures Spilled(bits, v, n) == bits + BitsOf(v, n) <==> Harmless(bits, v, n)
    ensures forall j :: 0 <= j < |bits| && bits[j] ==> Spilled(bits, v, n)[j]
  {
    hide BitsOf, Above;
    var pending, r := |bits| % 8, Spilled(bits, v, n);
    var lo, spill := |bits| - pending, BitsOf(Above(v, n), pending);
    assert forall j :: 0 <= j < lo ==> r[j] == bits[j];
    assert forall j :: lo <= j < |bits| ==> r[j] == (bits[j] || spill[j - lo]);
    assert r[|bits|..] == BitsOf(v, n);
    if r == bits + BitsOf(v, n) {
      forall j | 0 <= j < pending && spill[j]
        ensures bits[lo + j]
      {
        assert r[lo + j] == (bits + BitsOf(v, n))[lo + j] == bits[lo + j];
      }
    }
    if Harmless(bits, v, n) {
      assert forall j :: 0 <= j < |bits| ==> r[j] == bits[j];
    }
  }

  /** The carry buffer's bits are those of the plain stream, and more; none more exactly
      when no value does harm. */
  lemma {:induction false} SpillsExactly(prefix: seq<Field>, values: seq<nat>, width: nat)
    ensures var s, t := AllSpilled(prefix, values, width), StreamBits(prefix, values, width);
      && |s| == |t| && (forall j :: 0 <= j < |t| && t[j] ==> s[j])
      && (s == t <==> NoneSpills(prefix, values, width))
  {
    if values == [] {
      assert PrefixBits(prefix) + [] == PrefixBits(prefix);
    } else {
      var init, v := values[..|values| - 1], values[|values| - 1];
      SpillsExactly(prefix, init, width);
      SpillsNext(prefix, values, width);
      var s, t := AllSpilled(prefix, init, width), StreamBits(prefix, init, width);
      hide Spilled, BitsOf, Harmless;
      AppendAssoc(PrefixBits(prefix), ValueBits(init, width), BitsOf(v, width));
      StepExactly(s, t, v, width);
    }
  }

  lemma SpillsNext(prefix: seq<Field>, values: seq<nat>, width: nat)
    requires values != []
    ensures var init, v := values[..|values| - 1], values[|values| - 1];
      NoneSpills(prefix, values, width)
      <==> NoneSpills(prefix, init, width) && Harmless(StreamBits(prefix, init, width), v, width)
  {
    hide StreamBits, Harmless;
    var init := values[..|values| - 1];
    assert forall k :: 0 <= k < |init| ==> init[..k] == values[..k] && init[k] == values[k];
  }

  lemma StepExactly(s: seq<bool>, t: seq<bool>, v: nat, n: nat)
    requires |s| == |t| && forall j :: 0 <= j < |t| && t[j] ==> s[j]
    ensures var s', t' := Spilled(s, v, n), t + BitsOf(v, n);
      && |s'| == |t'| && (forall j :: 0 <= j < |t'| && t'[j] ==> s'[j])
      && (s' == t' <==> s == t && Harmless(t, v, n))
  {
    HarmlessExactly(s, v, n);
    var s', t' := Spilled(s, v, n), t + BitsOf(v, n);
    assert s'[|s|..] == BitsOf(v, n);
    hide Spilled, BitsOf, Harmless;
    forall j | 0 <= j < |t'| && t'[j]
      ensures s'[j]
    {
      if j >= |t| {
        assert s'[j] == s'[|s|..][j - |s|];
      }
    }
    if s' == t' {
      forall j | 0 <= j < |s|
        ensures s[j] == t[j]
      {
        assert s'[j] == t'[j] == t[j];
      }
    }
  }

  /** The two packers give the same bytes exactly when no value does harm. */
  lemma PackersAgree(prefix: seq<Field>, values: seq<nat>, width: nat)
    ensures Packed(AllSpilled(prefix, values, width)) == Packed(StreamBits(prefix, values, width))
      <==> NoneSpills(prefix, values, width)
    ensures ValuesFit(values, width) ==> NoneSpills(prefix, values, width)
  {
    hide Packed, AllSpilled, StreamBits, Harmless, ByteBits, BitsOf, Pow2, Spilled;
    var s, t := AllSpilled(prefix, values, width), StreamBits(prefix, values, width);
    SpillsExactly(prefix, values, width);
    PackedBits(s);
    PackedBits(t);
    if Packed(s) == Packed(t) {
      var n := 8 * |Packed(s)| - |s|;
      assert (s + Zeros(n))[..|s|] == s && (t + Zeros(n))[..|s|] == t;
    }
    if ValuesFit(values, width) {
      forall k | 0 <= k < |values|
        ensures Harmless(StreamBits(prefix, values[..k], width), values[k], width)
      {
        FitIsHarmless(StreamBits(prefix, values[..k], width), values[k], width);
      }
    }
  }

  /** Appends `n` bits to the carry buffer and flushes whole bytes. */
  method WriteBits(buf0: nat, bufBits0: nat, out0: seq<int>, val: nat, n: nat)
    returns (buf: nat, bufBits: nat, out: seq<int>)
    requires IsBytes(out0) && bufBits0 < 8
    ensures IsBytes(out) && bufBits < 8
    ensures ByteBits(out) + BitsOf(buf, bufBits) == Spilled(ByteBits(out0) + BitsOf(buf0, bufBits0), val, n)
  {
    hide BitsOf, ByteBits, Pow2, Or, Spilled, Above;
    buf, bufBits, out := Or(buf0 * Pow2(n), val), bufBits0 + n, out0;
    CarriedBits(ByteBits(out0), buf0, bufBits0, val, n);
    while bufBits >= 8
      invariant IsBytes(out)
      invariant ByteBits(out) + BitsOf(buf, bufBits) == Spilled(ByteBits(out0) + BitsOf(buf0, bufBits0), val, n)
      decreases bufBits
    {
      var shift := bufBits - 8;
      var byte := Above(buf, shift) % 256;
      SplitByte(buf, shift);
      ByteBitsSnoc(out, byte);
      AppendAssoc(ByteBits(out), BitsOf(byte, 8), BitsOf(buf % Pow2(shift), shift));
      out := out + [byte];
      bufBits := bufBits - 8;
      buf := buf % Pow2(bufBits);
    }
  }

  /** Shifting the carry buffer and mixing in a value. */
  lemma CarriedBits(whole: seq<bool>, buf: nat, bufBits: nat, val: nat, n: nat)
    requires bufBits < 8 && |whole| % 8 == 0
    ensures whole + BitsOf(Or(buf * Pow2(n), val), bufBits + n) == Spilled(whole + BitsOf(buf, bufBits), val, n)
  {
    hide BitsOf, Pow2, Or, Above;
    var pending := BitsOf(buf, bufBits);
    OrBitwise(buf * Pow2(n), val, bufBits + n);
    BitsShifted(buf, bufBits, n);
    BitsSplit(val, bufBits, n);
    var spill, low := BitsOf(Above(val, n), bufBits), BitsOf(val, n);
    assert OrBits(pending + Zeros(n), spill + low) == OrBits(pending, spill) + low;
    assert |whole + pending| % 8 == bufBits;
    assert (whole + pending)[..|whole|] == whole && (whole + pending)[|whole|..] == pending;
    AppendAssoc(whole, OrBits(pending, spill), low);
  }

  /** The top byte and the rest of a carry buffer. */
  lemma SplitByte(buf: nat, shift: nat)
    ensures BitsOf(buf, shift + 8) == BitsOf(Above(buf, shift) % 256, 8) + BitsOf(buf % Pow2(shift), shift)
  {
    hide BitsOf, Pow2, Above;
    Pow2Of8();
    BitsSplit(buf, 8, shift);
    BitsMasked(Above(buf, shift), 8);
    BitsMasked(buf, shift);
  }

  method PackBitsStreaming(values: seq<nat>, width: nat, prefix: seq<Field>) returns (r: Result<seq<int>>)
    ensures r.Ok? <==> forall i :: 0 <= i < |prefix| ==> prefix[i].value < Pow2(prefix[i].width)
    ensures r.Ok? ==> r.value == Packed(AllSpilled(prefix, values, width))
    ensures r.Ok? ==> (r.value == Packed(StreamBits(prefix, values, width)) <==> NoneSpills(prefix, values, width))
  {
    hide BitsOf, PrefixBits, ValueBits, Packed, Pow2, ByteBits, Spilled, AllSpilled, NoneSpills;
    var buf: nat, bufBits: nat, out: seq<int> := 0, 0, [];
    EmptyStreams(width);
    for k := 0 to |prefix|
      invariant forall i :: 0 <= i < k ==> FitsField(prefix[i])
      invariant IsBytes(out) && bufBits < 8
      invariant ByteBits(out) + BitsOf(buf, bufBits) == PrefixBits(prefix[..k])
    {
      if prefix[k].value >= Pow2(prefix[k].width) {
        return Err("value will not fit");
      }
      TakeNext(prefix, k);
      PrefixBitsSnoc(prefix[..k], prefix[k]);
      FitIsHarmless(PrefixBits(prefix[..k]), prefix[k].value, prefix[k].width);
      buf, bufBits, out := WriteBits(buf, bufBits, out, prefix[k].value, prefix[k].width);
    }
    assert prefix[..|prefix|] == prefix;
    SpilledNone(prefix, values, width);
    for k := 0 to |values|
      invariant IsBytes(out) && bufBits < 8
      invariant ByteBits(out) + BitsOf(buf, bufBits) == AllSpilled(prefix, values[..k], width)
    {
      SpilledMore(prefix, values, width, k);
      buf, bufBits, out := WriteBits(buf, bufBits, out, values[k], width);
    }
    assert values[..|values|] == values;
    PackersAgree(prefix, values, width);
    PackedBytesFirst(out, BitsOf(buf, bufBits));
    PackedTail(buf, bufBits);
    if bufBits != 0 {
      out := out + [buf * Pow2(8 - bufBits) % 256];
    } else {
      assert out + [] == out;
    }
    return Ok(out);
  }

  lemma SpilledNone(prefix: seq<Field>, values: seq<nat>, width: nat)
    ensures AllSpilled(prefix, values[..0], width) == PrefixBits(prefix)
  {
  }

  lemma SpilledMore(prefix: seq<Field>, values: seq<nat>, width: nat, k: nat)
    requires k < |values|
    ensures AllSpilled(prefix, values[..k + 1], width) == Spilled(AllSpilled(prefix, values[..k], width), values[k], width)
  {
    assert values[..k + 1][..k] == values[..k];
  }

  /** A value wider than its field that sets a bit before it: the two packers differ. */
  lemma WideValueSpills()
    ensures AllSpilled([], [0, 2], 1) == [true, false] && StreamBits([], [0, 2], 1) == [false, false]
    ensures !NoneSpills([], [0, 2], 1)
  {
    assert Pow2(1) == 2 && Above(2, 1) == 1;
    var values: seq<nat> := [0, 2];
    assert values[..1] == [0] && values[..1][..0] == [];
    assert BitsOf(0, 1) == [false] && BitsOf(2, 1) == [false] && BitsOf(1, 1) == [true];
    assert AllSpilled([], [0], 1) == [false] && ValueBits([0], 1) == [false];
    assert values[1] == 2 && AllSpilled([], values, 1) == Spilled([false], 2, 1) == [true, false];
    SpillsExactly([], values, 1);
  }

  /** The bits left in the carry buffer are one byte, padded with zeros on the right. */
  lemma PackedTail(buf: nat, bufBits: nat)
    requires bufBits < 8
    ensures Packed(BitsOf(buf, bufBits)) == if bufBits == 0 then [] else [buf * Pow2(8 - bufBits) % 256]
  {
    hide ValOf, Pow2, BitsOf;
    if bufBits > 0 {
      var x := buf * Pow2(8 - bufBits);
      Pow2Of8();
      BitsShifted(buf, bufBits, 8 - bufBits);
      BitsMasked(x, 8);
      ValOfBits(x % 256, 8);
      assert Packed(BitsOf(buf, bufBits)) == [ValOf(BitsOf(buf, bufBits) + Zeros(8 - bufBits))];
    }
  }
}
