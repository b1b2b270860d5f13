/** The v2 inline-digit encoding: a vocabulary id, then payload bytes as digit ids; and
    the minimum-width packing of integers into payload bytes. */
module InlineDigits {
  import opened TokenSeqs
  import opened Results
  import opened BitStrings
  import opened CompactCodec
  import opened Reconstruction

  /** A decoded token: its type id and its payload. */
  datatype Item = Item(typeId: nat, payload: seq<nat>)

  predicate AreDigits(s: seq<nat>) {
    forall i :: 0 <= i < |s| ==> s[i] < RESERVED_DIGIT_COUNT
  }

  predicate IsItem(t: Item) {
    t.typeId >= RESERVED_DIGIT_COUNT && AreDigits(t.payload)
  }

  function Encoded(t: Item): seq<nat> {
    [t.typeId] + t.payload
  }

  method EncodeInlineDigits(typeId: nat, payload: seq<nat>) returns (r: Result<seq<nat>>)
    ensures r.Ok? <==> typeId >= RESERVED_DIGIT_COUNT
    ensures r.Ok? ==> r.value == Encoded(Item(typeId, payload))
  {
    if typeId < RESERVED_DIGIT_COUNT {
      return Err("type_token_id must be >= 256");
    }
    return Ok([typeId] + payload);
  }

  /** The digits at the front of a stream. */
  function LeadingDigits(s: seq<nat>): (d: seq<nat>)
    ensures d <= s && AreDigits(d)
    ensures |d| < |s| ==> s[|d|] >= RESERVED_DIGIT_COUNT
  {
    if s == [] || s[0] >= RESERVED_DIGIT_COUNT then [] else [s[0]] + LeadingDigits(s[1..])
  }

  function Decoded(ids: seq<nat>): Result<Item> {
    if ids == [] || ids[0] < RESERVED_DIGIT_COUNT then Err("no type token")
    else Ok(Item(ids[0], LeadingDigits(ids[1..])))
  }

  method DecodeInlineDigits(ids: seq<nat>) returns (r: Result<Item>)
    ensures r == Decoded(ids)
  {
    if |ids| < 1 {
      return Err("no type token");
    }
    var typeId := ids[0];
    if typeId < RESERVED_DIGIT_COUNT {
      return Err("no type token");
    }
    var rest := ids[1..];
    var payload: seq<nat> := [];
    for i := 0 to |rest|
      invariant payload == rest[..i] && AreDigits(payload)
    {
      if rest[i] >= RESERVED_DIGIT_COUNT {
        LeadingDigitsAre(rest, i);
        return Ok(Item(typeId, payload));
      }
      payload := payload + [rest[i]];
    }
    LeadingDigitsAre(rest, |rest|);
    return Ok(Item(typeId, payload));
  }

  lemma {:induction false} LeadingDigitsAre(s: seq<nat>, n: nat)
    requires n <= |s| && AreDigits(s[..n]) && (n < |s| ==> s[n] >= RESERVED_DIGIT_COUNT)
    ensures LeadingDigits(s) == s[..n]
  {
    if n == 0 {
    } else {
      var head, tail := s[..n], s[1..][..n - 1];
      assert head == [s[0]] + tail;
      forall i | 0 <= i < |tail|
        ensures tail[i] < RESERVED_DIGIT_COUNT
      {
        assert tail[i] == head[i + 1];
      }
      assert head[0] == s[0];
      LeadingDigitsAre(s[1..], n - 1);
    }
  }

  // ---- streams ----

  function Stream(items: seq<Item>): seq<nat> {
    if items == [] then [] else Encoded(items[0]) + Stream(items[1..])
  }

  /** Decoding token after token until the stream is used up. */
  function DecodedAll(ids: seq<nat>): Result<seq<Item>>
    decreases |ids|
  {
    if ids == [] then Ok([])
    else
      var first := Decoded(ids);
      if first.Err? then Err(first.error)
      else
        var rest := DecodedAll(ids[1 + |first.value.payload|..]);
        if rest.Err? then rest else Ok([first.value] + rest.value)
  }

  predicate AreItems(items: seq<Item>) {
    forall i :: 0 <= i < |items| ==> IsItem(items[i])
  }

  /** The metatoken of a decoded token, its type looked up by its type id. */
  function AsTok(t: Item, typeOf: int -> int): Tok {
    Tok(typeOf(t.typeId), Encoded(t))
  }

  function AsToks(items: seq<Item>, typeOf: int -> int): seq<Tok> {
    seq(|items|, i requires 0 <= i < |items| => AsTok(items[i], typeOf))
  }

  lemma ItemsAreTyped(items: seq<Item>, typeOf: int -> int)
    requires AreItems(items)
    ensures TypedBy(AsToks(items, typeOf), typeOf)
  {
    forall i | 0 <= i < |items|
      ensures IsV2(AsToks(items, typeOf)[i])
    {
      assert IsItem(items[i]);
    }
  }

  /** The stream of decoded tokens is the id stream of their metatokens. */
  lemma {:induction false} StreamIsIds(items: seq<Item>, typeOf: int -> int)
    ensures Ids(AsToks(items, typeOf)) == Stream(items)
    decreases |items|
  {
    hide Ids;
    IdsEmpty();
    if items == [] {
    } else {
      var first, rest := AsTok(items[0], typeOf), AsToks(items[1..], typeOf);
      StreamIsIds(items[1..], typeOf);
      assert AsToks(items, typeOf) == [first] + rest;
      IdsAppend([first], rest);
      IdsSnoc([], first);
      assert [] + [first] == [first] && [] + first.ids == first.ids;
    }
  }

  /** So both readers of a stream find the same token starts. */
  lemma StartsAgree(items: seq<Item>, typeOf: int -> int)
    requires AreItems(items)
    ensures Boundaries(Stream(items)) == StartsOf(AsToks(items, typeOf))
  {
    StreamIsIds(items, typeOf);
    ItemsAreTyped(items, typeOf);
    BoundariesAreStarts(AsToks(items, typeOf));
  }

  /** A stream of tokens is empty or begins with a type id. */
  lemma StreamHead(items: seq<Item>)
    requires AreItems(items)
    ensures Stream(items) == [] || Stream(items)[0] >= RESERVED_DIGIT_COUNT
  {
    if items != [] {
      assert IsItem(items[0]);
    }
  }

  lemma DecodedFirst(t: Item, rest: seq<nat>)
    requires IsItem(t) && (rest == [] || rest[0] >= RESERVED_DIGIT_COUNT)
    ensures Decoded(Encoded(t) + rest) == Ok(t)
  {
    var ids := Encoded(t) + rest;
    assert ids[1..] == t.payload + rest;
    assert (t.payload + rest)[..|t.payload|] == t.payload;
    LeadingDigitsAre(t.payload + rest, |t.payload|);
  }

  /** Any sequence of tokens is recovered from its stream. */
  lemma {:induction false} DecodeStream(items: seq<Item>)
    requires AreItems(items)
    ensures DecodedAll(Stream(items)) == Ok(items)
    decreases |items|
  {
    if items == [] {
    } else {
      var t, rest := items[0], Stream(items[1..]);
      assert AreItems(items[1..]);
      StreamHead(items[1..]);
      DecodedFirst(t, rest);
      assert Stream(items)[1 + |t.payload|..] == rest;
      DecodeStream(items[1..]);
      assert [t] + items[1..] == items;
    }
  }

  /** Conversely every stream that begins with a type id is the stream of its tokens: the
      encoding is one-to-one. */
  lemma {:induction false} StreamOfDecoded(ids: seq<nat>)
    ensures DecodedAll(ids).Ok? <==> ids == [] || ids[0] >= RESERVED_DIGIT_COUNT
    ensures DecodedAll(ids).Ok? ==> AreItems(DecodedAll(ids).value) && Stream(DecodedAll(ids).value) == ids
    decreases |ids|
  {
    if ids == [] || ids[0] < RESERVED_DIGIT_COUNT {
    } else {
      var t := Decoded(ids).value;
      var rest := ids[1 + |t.payload|..];
      FirstAndRest(ids);
      StreamOfDecoded(rest);
      var items := DecodedAll(rest).value;
      assert ([t] + items)[1..] == items;
    }
  }

  lemma FirstAndRest(ids: seq<nat>)
    requires ids != [] && ids[0] >= RESERVED_DIGIT_COUNT
    ensures var t := Decoded(ids).value;
      && 1 + |t.payload| <= |ids| && IsItem(t)
      && ids == Encoded(t) + ids[1 + |t.payload|..]
      && (1 + |t.payload| < |ids| ==> ids[1 + |t.payload|] >= RESERVED_DIGIT_COUNT)
  {
    var t := Decoded(ids).value;
    SplitAt(ids[1..], |t.payload|);
    assert ids[1..][|t.payload|..] == ids[1 + |t.payload|..];
    assert [ids[0]] + ids[1..] == ids;
    assert 1 + |t.payload| < |ids| ==> ids[1..][|t.payload|] == ids[1 + |t.payload|];
  }

  // ---- integers as payloads ----

  /** `value.to_bytes(width, "big")`. */
  function ToBytes(value: nat, width: nat): (bytes: seq<int>)
    ensures |bytes| == width && IsBytes(bytes)
  {
    if width == 0 then [] else ToBytes(value / 256, width - 1) + [value % 256]
  }

  function Reversed(s: seq<int>): (r: seq<int>)
    ensures |r| == |s|
  {
    seq(|s|, i requires 0 <= i < |s| => s[|s| - 1 - i])
  }

  /** `int.from_bytes(bytes, "little")`: the first byte weighs one. */
  function FromLittle(bytes: seq<int>): nat
    requires IsBytes(bytes)
  {
    if bytes == [] then 0 else bytes[0] + 256 * FromLittle(bytes[1..])
  }

  /** Read from the other end the bytes have the same value. */
  lemma {:induction false} FromReversed(bytes: seq<int>)
    requires IsBytes(bytes)
    ensures IsBytes(Reversed(bytes)) && FromLittle(Reversed(bytes)) == FromBytes(bytes)
  {
    if bytes == [] {
    } else {
      var init := bytes[..|bytes| - 1];
      FromReversed(init);
      assert Reversed(bytes)[1..] == Reversed(init);
    }
  }

  method IntToMinimumBytes(value: int, bigEndian: bool) returns (r: Result<seq<int>>)
    ensures r.Ok? <==> value >= 0
    ensures r.Ok? ==> IsBytes(r.value) && r.value != []
    ensures r.Ok? ==> (if bigEndian then FromBytes(r.value) else FromLittle(r.value)) == value
    ensures r.Ok? ==> forall bytes :: IsBytes(bytes) && bytes != [] && FromBytes(bytes) == value ==> |r.value| <= |bytes|
  {
    if value < 0 {
      return Err("int_to_minimum_bytes requires non-negative value");
    }
    var width := Max(1, (BitsNeeded(value) + 7) / 8);
    var bytes := ToBytes(value, width);
    NeededIsLeast(value, 8 * width);
    FromToBytes(value, width);
    FromReversed(bytes);
    forall b | IsBytes(b) && b != [] && FromBytes(b) == value
      ensures width <= |b|
    {
      FromBytesBound(b);
      NeededIsLeast(value, 8 * |b|);
    }
    return Ok(if bigEndian then bytes else Reversed(bytes));
  }

  method BytesToInt(payload: seq<int>, bigEndian: bool) returns (r: Result<nat>)
    requires IsBytes(payload)
    ensures r.Ok? <==> payload != []
    ensures r.Ok? ==> r.value == if bigEndian then FromBytes(payload) else FromLittle(payload)
  {
    if |payload| == 0 {
      return Err("bytes_to_int requires at least one byte");
    }
    FromReversed(Reversed(payload));
    ReversedTwice(payload);
    return Ok(FromBytes(if bigEndian then payload else Reversed(payload)));
  }

  lemma ReversedTwice(s: seq<int>)
    ensures Reversed(Reversed(s)) == s
    ensures IsBytes(s) ==> IsBytes(Reversed(s))
  {
  }

  lemma Pow2By8(width: nat)
    requires width > 0
    ensures Pow2(8 * width) == 256 * Pow2(8 * (width - 1))
  {
    Pow2Of8();
    Pow2Add(8, 8 * (width - 1));
  }

  lemma DivBelow(value: nat, p: nat)
    requires value < 256 * p
    ensures value / 256 < p
  {
  }

  lemma {:induction false} FromToBytes(value: nat, width: nat)
    requires value < Pow2(8 * width)
    ensures FromBytes(ToBytes(value, width)) == value
  {
    if width == 0 {
    } else {
      Pow2By8(width);
      DivBelow(value, Pow2(8 * (width - 1)));
      FromToBytes(value / 256, width - 1);
      var init := ToBytes(value / 256, width - 1);
      assert (init + [value % 256])[..|init|] == init;
    }
  }

  lemma {:induction false} FromBytesBound(bytes: seq<int>)
    requires IsBytes(bytes)
    ensures FromBytes(bytes) < Pow2(8 * |bytes|)
  {
    FromBytesIsVal(bytes);
    ValBound(ByteBits(bytes));
  }
}
