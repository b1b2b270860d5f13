/** Bit strings, most significant bit first, their values, and bytes. */
module BitStrings {
  import opened TokenSeqs

  function Pow2(n: nat): (p: nat)
    ensures p > 0
  {
    if n == 0 then 1 else 2 * Pow2(n - 1)
  }

  function ValOf(bits: seq<bool>): nat {
    if bits == [] then 0 else 2 * ValOf(bits[..|bits| - 1]) + if bits[|bits| - 1] then 1 else 0
  }

  /** The `n` low bits of `v`. */
  function BitsOf(v: nat, n: nat): (bits: seq<bool>)
    ensures |bits| == n
  {
    if n == 0 then [] else BitsOf(v / 2, n - 1) + [v % 2 == 1]
  }

  predicate IsBytes(bytes: seq<int>) {
    forall i :: 0 <= i < |bytes| ==> 0 <= bytes[i] < 256
  }

  function ByteBits(bytes: seq<int>): (bits: seq<bool>)
    requires IsBytes(bytes)
    ensures |bits| == 8 * |bytes|
  {
    if bytes == [] then [] else ByteBits(bytes[..|bytes| - 1]) + BitsOf(bytes[|bytes| - 1], 8)
  }

  function Zeros(n: nat): (z: seq<bool>)
    ensures |z| == n
  {
    seq(n, _ => false)
  }

  /** `np.packbits`: bytes of eight bits each, the last one padded with zero bits. */
  function Packed(bits: seq<bool>): (bytes: seq<int>)
    ensures |bytes| == (|bits| + 7) / 8
    decreases |bits|
  {
    if bits == [] then []
    else if |bits| <= 8 then [ValOf(bits + Zeros(8 - |bits|))]
    else [ValOf(bits[..8])] + Packed(bits[8..])
  }

  // ---- arithmetic ----

  lemma DivModOf(x: nat, d: nat, r: nat)
    requires r < d
    ensures (x * d + r) / d == x && (x * d + r) % d == r
  {
    var q, m := (x * d + r) / d, (x * d + r) % d;
    assert q * d + m == x * d + r;
    if q < x {
      assert (q + 1) * d <= x * d by { MulMono(q + 1, x, d); }
    } else if q > x {
      assert (x + 1) * d <= q * d by { MulMono(x + 1, q, d); }
    }
  }

  lemma MulMono(a: nat, b: nat, d: nat)
    requires a <= b
    ensures a * d <= b * d
  {
  }

  lemma {:induction false} Pow2Add(a: nat, b: nat)
    ensures Pow2(a + b) == Pow2(a) * Pow2(b)
  {
    if b == 0 {
    } else {
      Pow2Add(a, b - 1);
      assert 2 * (Pow2(a) * Pow2(b - 1)) == Pow2(a) * (2 * Pow2(b - 1));
    }
  }

  lemma {:induction false} Pow2Mono(a: nat, b: nat)
    requires a <= b
    ensures Pow2(a) <= Pow2(b)
  {
    if a == b {
    } else {
      Pow2Mono(a, b - 1);
    }
  }

  // ---- values ----

  lemma ValSnoc(bits: seq<bool>, b: bool)
    ensures ValOf(bits + [b]) == 2 * ValOf(bits) + if b then 1 else 0
  {
    assert (bits + [b])[..|bits|] == bits;
  }

  lemma {:induction false} ValBound(bits: seq<bool>)
    ensures ValOf(bits) < Pow2(|bits|)
  {
    if bits == [] {
    } else {
      ValBound(bits[..|bits| - 1]);
    }
  }

  lemma DoubleScaled(v: nat, p: nat, w: nat, x: nat)
    ensures 2 * (v * p + w) + x == v * (2 * p) + (2 * w + x)
  {
  }

  lemma {:induction false} ValAppend(a: seq<bool>, b: seq<bool>)
    ensures ValOf(a + b) == ValOf(a) * Pow2(|b|) + ValOf(b)
  {
    if b == [] {
      assert a + b == a;
    } else {
      var init, last := b[..|b| - 1], b[|b| - 1];
      ValAppend(a, init);
      Doubled(|init|);
      hide ValOf, Pow2;
      SplitLast(b);
      AppendAssoc(a, init, [last]);
      ValSnoc(a + init, last);
      ValSnoc(init, last);
      DoubleScaled(ValOf(a), Pow2(|init|), ValOf(init), if last then 1 else 0);
    }
  }

  lemma Doubled(n: nat)
    ensures Pow2(n + 1) == 2 * Pow2(n)
  {
  }

  /** Shifting right and masking reads a middle part of a bit string. */
  lemma ReadMiddle(a: seq<bool>, b: seq<bool>, c: seq<bool>)
    ensures ValOf(a + b + c) / Pow2(|c|) % Pow2(|b|) == ValOf(b)
  {
    ValAppend(a + b, c);
    ValBound(c);
    DivModOf(ValOf(a + b), Pow2(|c|), ValOf(c));
    ValAppend(a, b);
    ValBound(b);
    DivModOf(ValOf(a), Pow2(|b|), ValOf(b));
  }

  /** `n` bits of v, after dropping the lowest `drop` bits. */
  function BitField(v: nat, drop: nat, n: nat): nat {
    v / Pow2(drop) % Pow2(n)
  }

  lemma ReadAt(bits: seq<bool>, pos: nat, n: nat)
    requires pos + n <= |bits|
    ensures BitField(ValOf(bits), |bits| - pos - n, n) == ValOf(bits[pos..pos + n])
  {
    hide ValOf, Pow2;
    var a, b, c := bits[..pos], bits[pos..pos + n], bits[pos + n..];
    assert bits == a + b + c;
    ReadMiddle(a, b, c);
  }

  lemma {:induction false} ValOfBits(v: nat, n: nat)
    requires v < Pow2(n)
    ensures ValOf(BitsOf(v, n)) == v
  {
    if n == 0 {
    } else {
      ValOfBits(v / 2, n - 1);
      ValSnoc(BitsOf(v / 2, n - 1), v % 2 == 1);
    }
  }

  lemma {:induction false} BitsOfVal(bits: seq<bool>)
    ensures BitsOf(ValOf(bits), |bits|) == bits
  {
    if bits == [] {
    } else {
      BitsOfVal(bits[..|bits| - 1]);
      SplitLast(bits);
    }
  }

  /** Appending a value's bits is shifting and adding. */
  lemma BitsAppend(a: nat, m: nat, b: nat, n: nat)
    requires a < Pow2(m) && b < Pow2(n)
    ensures a * Pow2(n) + b < Pow2(m + n)
    ensures BitsOf(a * Pow2(n) + b, m + n) == BitsOf(a, m) + BitsOf(b, n)
  {
    hide ValOf, BitsOf, Pow2;
    ValAppend(BitsOf(a, m), BitsOf(b, n));
    ValOfBits(a, m);
    ValOfBits(b, n);
    ValBound(BitsOf(a, m) + BitsOf(b, n));
    BitsOfVal(BitsOf(a, m) + BitsOf(b, n));
  }

  lemma {:induction false} ValOfZeros(n: nat)
    ensures ValOf(Zeros(n)) == 0
  {
    if n == 0 {
    } else {
      ValOfZeros(n - 1);
      assert Zeros(n)[..n - 1] == Zeros(n - 1);
    }
  }

  // ---- bytes ----

  lemma ByteBitsSnoc(bytes: seq<int>, b: int)
    requires IsBytes(bytes) && 0 <= b < 256
    ensures ByteBits(bytes + [b]) == ByteBits(bytes) + BitsOf(b, 8)
  {
    assert (bytes + [b])[..|bytes|] == bytes;
  }

  lemma {:induction false} ByteBitsAppend(a: seq<int>, b: seq<int>)
    requires IsBytes(a) && IsBytes(b)
    ensures ByteBits(a + b) == ByteBits(a) + ByteBits(b)
  {
    if b == [] {
      assert a + b == a;
    } else {
      var init, last := b[..|b| - 1], b[|b| - 1];
      SplitLast(b);
      AppendAssoc(a, init, [last]);
      ByteBitsSnoc(a + init, last);
      ByteBitsSnoc(init, last);
      ByteBitsAppend(a, init);
      AppendAssoc(ByteBits(a), ByteBits(init), BitsOf(last, 8));
    }
  }

  /** Bytes of a contiguous range own a contiguous range of the bits. */
  lemma BytesOfParts(a: seq<int>, b: seq<int>, c: seq<int>)
    requires IsBytes(a + b + c)
    ensures IsBytes(a) && IsBytes(b) && IsBytes(c) && IsBytes(a + b)
  {
    var all := a + b + c;
    assert forall i :: 0 <= i < |a| ==> a[i] == all[i];
    assert forall i :: 0 <= i < |b| ==> b[i] == all[|a| + i];
    assert forall i :: 0 <= i < |c| ==> c[i] == all[|a| + |b| + i];
  }

  lemma ByteBitsMiddle(a: seq<int>, b: seq<int>, c: seq<int>)
    requires IsBytes(a + b + c) && IsBytes(b)
    ensures ByteBits(a + b + c)[8 * |a|..8 * |a| + 8 * |b|] == ByteBits(b)
  {
    hide ByteBits, IsBytes;
    BytesOfParts(a, b, c);
    ByteBitsAppend(a + b, c);
    ByteBitsAppend(a, b);
    MiddleSlice(ByteBits(a), ByteBits(b), ByteBits(c));
  }

  lemma ByteBitsSlice(bytes: seq<int>, lo: nat, hi: nat)
    requires IsBytes(bytes) && lo <= hi <= |bytes|
    ensures ByteBits(bytes)[8 * lo..8 * hi] == ByteBits(bytes[lo..hi])
  {
    hide ByteBits, IsBytes;
    ThreeParts(bytes, lo, hi);
    BytesOfParts(bytes[..lo], bytes[lo..hi], bytes[hi..]);
    ByteBitsMiddle(bytes[..lo], bytes[lo..hi], bytes[hi..]);
    assert 8 * lo + 8 * |bytes[lo..hi]| == 8 * hi;
  }

  lemma ThreeParts(s: seq<int>, lo: nat, hi: nat)
    requires lo <= hi <= |s|
    ensures s == s[..lo] + s[lo..hi] + s[hi..]
  {
  }

  /** `int.from_bytes(bytes, "big")`. */
  function FromBytes(bytes: seq<int>): nat
    requires IsBytes(bytes)
  {
    if bytes == [] then 0 else FromBytes(bytes[..|bytes| - 1]) * 256 + bytes[|bytes| - 1]
  }

  lemma Pow2Of8()
    ensures Pow2(8) == 256
  {
    assert Pow2(4) == 16;
  }

  lemma {:induction false} FromBytesIsVal(bytes: seq<int>)
    requires IsBytes(bytes)
    ensures FromBytes(bytes) == ValOf(ByteBits(bytes))
  {
    if bytes == [] {
    } else {
      var init, last := bytes[..|bytes| - 1], bytes[|bytes| - 1];
      FromBytesIsVal(init);
      Pow2Of8();
      ValAppend(ByteBits(init), BitsOf(last, 8));
      ValOfBits(last, 8);
    }
  }

  lemma {:induction false} PackedAreBytes(bits: seq<bool>)
    ensures IsBytes(Packed(bits))
    decreases |bits|
  {
    Pow2Of8();
    if bits == [] {
    } else if |bits| <= 8 {
      ValBound(bits + Zeros(8 - |bits|));
    } else {
      ValBound(bits[..8]);
      PackedAreBytes(bits[8..]);
    }
  }

  /** The bits of the packed bytes are the packed bits and zero padding. */
  lemma {:induction false} PackedBits(bits: seq<bool>)
    ensures IsBytes(Packed(bits))
    ensures ByteBits(Packed(bits)) == bits + Zeros(8 * |Packed(bits)| - |bits|)
    decreases |bits|
  {
    PackedAreBytes(bits);
    if bits == [] {
    } else if |bits| <= 8 {
      PackedOne(bits);
    } else {
      hide Packed, ByteBits, ValOf;
      PackedAreBytes(bits[8..]);
      PackedBits(bits[8..]);
      OneByte(bits[..8]);
      PackedFirst(bits[..8], bits[8..]);
      ByteBitsAppend([ValOf(bits[..8])], Packed(bits[8..]));
      SplitAt(bits, 8);
      AppendAssoc(bits[..8], bits[8..], Zeros(8 * |Packed(bits[8..])| - |bits[8..]|));
    }
  }

  lemma PackedOne(bits: seq<bool>)
    requires 0 < |bits| <= 8
    ensures IsBytes(Packed(bits)) && ByteBits(Packed(bits)) == bits + Zeros(8 * |Packed(bits)| - |bits|)
  {
    hide ByteBits, ValOf;
    OneByte(bits + Zeros(8 - |bits|));
  }

  lemma OneByte(bits: seq<bool>)
    requires |bits| == 8
    ensures 0 <= ValOf(bits) < 256
    ensures ByteBits([ValOf(bits)]) == bits
  {
    Pow2Of8();
    ValBound(bits);
    BitsOfVal(bits);
    ByteBitsSnoc([], ValOf(bits));
    assert [] + [ValOf(bits)] == [ValOf(bits)];
    assert ByteBits([]) + bits == bits;
  }

  /** Whole bytes in front of a bit string are packed as themselves. */
  lemma {:induction false} PackedBytesFirst(bytes: seq<int>, rest: seq<bool>)
    requires IsBytes(bytes)
    ensures Packed(ByteBits(bytes) + rest) == bytes + Packed(rest)
    decreases |bytes|
  {
    if bytes == [] {
      assert ByteBits(bytes) + rest == rest;
    } else {
      var b, more := bytes[0], bytes[1..];
      assert bytes == [b] + more;
      ByteBitsAppend([b], more);
      ByteBitsSnoc([], b);
      assert [] + [b] == [b] && ByteBits([]) + BitsOf(b, 8) == BitsOf(b, 8);
      PackedBytesFirst(more, rest);
      Pow2Of8();
      ValOfBits(b, 8);
      PackedFirst(BitsOf(b, 8), ByteBits(more) + rest);
      AppendAssoc(BitsOf(b, 8), ByteBits(more), rest);
      AppendAssoc([b], more, Packed(rest));
    }
  }

  lemma PackedFirst(head: seq<bool>, rest: seq<bool>)
    requires |head| == 8
    ensures Packed(head + rest) == [ValOf(head)] + Packed(rest)
  {
    if rest == [] {
      assert head + rest == head && head + Zeros(0) == head;
    } else {
      assert (head + rest)[..8] == head && (head + rest)[8..] == rest;
    }
  }
}
