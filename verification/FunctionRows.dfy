/** From nested tokens to the three encoded columns of a written row, and back. */
module FunctionRows {
  import opened TokenSeqs
  import opened Results
  import opened TokenStore
  import opened LeasedBuffer
  import opened FlatLayout
  import opened Reconstruction
  import opened BufferProducer
  import Codec = CompactCodec
  import Decoders = CompactDecoders
  import Packing = BitPacking
  import Bits = BitStrings

  /** The encoded token ids, block run lengths and instruction run lengths. */
  datatype Row = Row(tokens: seq<int>, blockRuns: seq<int>, insnRuns: seq<int>)

  predicate AreNats(s: seq<int>) {
    forall i :: 0 <= i < |s| ==> s[i] >= 0
  }

  function Nats(s: seq<int>): seq<nat>
    requires AreNats(s)
  {
    seq(|s|, i requires 0 <= i < |s| => s[i])
  }

  function Ints(s: seq<nat>): seq<int> {
    seq(|s|, i requires 0 <= i < |s| => s[i])
  }

  /** These bytes are what encoding the array yields. */
  ghost predicate IsEncoding(bytes: seq<int>, values: seq<int>) {
    && AreNats(values) && Codec.Encodable(Nats(values))
    && exists width: nat, lengthBits: nat ::
         && Codec.IsLeastWidth(width, Nats(values)) && Codec.IsLeastLengthField(lengthBits, |values|)
         && bytes == Bits.Packed(Packing.StreamBits(Codec.Header(width, lengthBits, |values|), Nats(values), width))
  }

  lemma EncodingDecodes(bytes: seq<int>, values: seq<int>)
    requires IsEncoding(bytes, values)
    ensures Bits.IsBytes(bytes) && Decoders.VecDecode(bytes).Ok? && Ints(Decoders.VecDecode(bytes).value) == values
  {
    hide Bits.Packed, Packing.StreamBits, Codec.Encodable, Decoders.VecDecode;
    var width: nat, lengthBits: nat :|
      && Codec.IsLeastWidth(width, Nats(values)) && Codec.IsLeastLengthField(lengthBits, |values|)
      && bytes == Bits.Packed(Packing.StreamBits(Codec.Header(width, lengthBits, |values|), Nats(values), width));
    Decoders.RoundTrip(Nats(values), width, lengthBits);
    assert Ints(Nats(values)) == values;
  }

  method EncodeColumn(values: seq<int>) returns (r: Result<seq<int>>)
    requires AreNats(values)
    ensures r.Ok? <==> Codec.Encodable(Nats(values))
    ensures r.Ok? ==> IsEncoding(r.value, values)
  {
    hide Bits.Packed, Packing.StreamBits, Codec.Encodable;
    ghost var width, lengthBits;
    r, width, lengthBits := Codec.NdarrayToBytes(Nats(values));
    assert |Nats(values)| == |values|;
  }

  /** The values of every column fit 33 bits and the columns are not too long. */
  predicate RowFits(blocks: seq<Block>)
    requires AreNats(Ids(AllToks(blocks)))
  {
    && Codec.Encodable(Nats(Ids(AllToks(blocks))))
    && AreNats(BlockIdCounts(blocks)) && Codec.Encodable(Nats(BlockIdCounts(blocks)))
    && AreNats(IdCounts(Concat(blocks))) && Codec.Encodable(Nats(IdCounts(Concat(blocks))))
  }

  ghost predicate IsRowOf(row: Row, blocks: seq<Block>) {
    && IsEncoding(row.tokens, Ids(AllToks(blocks)))
    && IsEncoding(row.blockRuns, BlockIdCounts(blocks))
    && IsEncoding(row.insnRuns, IdCounts(Concat(blocks)))
  }

  lemma CountsAreNats(blocks: seq<Block>)
    ensures AreNats(BlockIdCounts(blocks)) && AreNats(IdCounts(Concat(blocks)))
  {
  }

  lemma CoreIsSolid(f: FunctionTokenList)
    requires f.Core()
    ensures Solid(f.state.blocks)
  {
  }

  /** The columns of the function that the buffer holds. */
  method WriteRow(f: FunctionTokenList) returns (r: Result<Row>)
    requires f.Core() && AreNats(Ids(AllToks(f.state.blocks)))
    ensures r.Ok? <==> RowFits(f.state.blocks)
    ensures r.Ok? ==> IsRowOf(r.value, f.state.blocks)
  {
    hide IsEncoding, Codec.Encodable, Ids, Concat, FlatOf, BlockIdCounts, IdCounts, Store.Valid;
    CoreIsSolid(f);
    hide FunctionTokenList.Core;
    CountsAreNats(f.state.blocks);
    var used := f.GetUsedArrays();
    var tokens, blockRuns, insnRuns := BuildVocabTokenizeAndIndex(used.flat, f.state.blocks);
    var tokenColumn := EncodeColumn(tokens);
    if tokenColumn.Err? {
      return Err(tokenColumn.error);
    }
    var blockColumn := EncodeColumn(blockRuns);
    if blockColumn.Err? {
      return Err(blockColumn.error);
    }
    var insnColumn := EncodeColumn(insnRuns);
    if insnColumn.Err? {
      return Err(insnColumn.error);
    }
    return Ok(Row(tokenColumn.value, blockColumn.value, insnColumn.value));
  }

  /** `tokens.astype(np.uint16)`. */
  function Narrowed(tokens: seq<int>): seq<int> {
    seq(|tokens|, i requires 0 <= i < |tokens| => tokens[i] % 65536)
  }

  predicate FitSixteenBits(tokens: seq<int>) {
    forall i :: 0 <= i < |tokens| ==> tokens[i] < 65536
  }

  /** A record read from a row, without remapping its ids to another vocabulary, and the
      list rebuilt from it under a v2 vocabulary. */
  function Loaded(row: Row, typeOf: int -> int): Result<Used>
    requires Bits.IsBytes(row.tokens) && Bits.IsBytes(row.blockRuns) && Bits.IsBytes(row.insnRuns)
  {
    var blockRuns := Decoders.VecDecode(row.blockRuns);
    var insnRuns := Decoders.VecDecode(row.insnRuns);
    var tokens := Decoders.VecDecode(row.tokens);
    if tokens.Err? then Err(tokens.error)
    else if blockRuns.Err? then Err(blockRuns.error)
    else if insnRuns.Err? then Err(insnRuns.error)
    else Ok(Reconstruct(Narrowed(Ints(tokens.value)), Ints(blockRuns.value), Ints(insnRuns.value), typeOf))
  }

  lemma NarrowedSame(tokens: seq<int>)
    requires AreNats(tokens)
    ensures Narrowed(tokens) == tokens <==> FitSixteenBits(tokens)
  {
    if Narrowed(tokens) == tokens {
      forall i | 0 <= i < |tokens|
        ensures tokens[i] < 65536
      {
        assert Narrowed(tokens)[i] == tokens[i] % 65536;
      }
    }
  }

  lemma LoadedIds(tokens: seq<int>, blockIdx: seq<int>, insnIdx: seq<int>, typeOf: int -> int)
    ensures Reconstruct(tokens, blockIdx, insnIdx, typeOf).flat.ids == tokens
  {
  }

  /** Loading a written row rebuilds every number of the list that was written, if and only
      if every id fits the sixteen bits the reader keeps. */
  lemma RowLoads(row: Row, blocks: seq<Block>, typeOf: int -> int)
    requires IsRowOf(row, blocks) && Solid(blocks) && TypedBy(AllToks(blocks), typeOf)
    ensures Bits.IsBytes(row.tokens) && Bits.IsBytes(row.blockRuns) && Bits.IsBytes(row.insnRuns)
    ensures Loaded(row, typeOf) == Ok(RebuiltFrom(blocks)) <==> FitSixteenBits(Ids(AllToks(blocks)))
  {
    hide IsEncoding, Ids, Concat, FlatOf, BlockIdCounts, IdCounts, Reconstruct, Decoders.VecDecode, Narrowed, FitSixteenBits;
    var tokens := Ids(AllToks(blocks));
    EncodingDecodes(row.tokens, tokens);
    EncodingDecodes(row.blockRuns, BlockIdCounts(blocks));
    EncodingDecodes(row.insnRuns, IdCounts(Concat(blocks)));
    assert AreNats(tokens) by { EncodedAreNats(row.tokens, tokens); }
    NarrowedSame(tokens);
    ReconstructInverts(blocks, typeOf);
    LoadedIds(Narrowed(tokens), BlockIdCounts(blocks), IdCounts(Concat(blocks)), typeOf);
    assert RebuiltFrom(blocks).flat.ids == tokens by { RebuiltIds(blocks); }
  }

  /** The first id that does not fit: it comes back as digit 0 and no longer starts a
      metatoken. */
  lemma WideIdIsNarrowed()
    ensures var blocks := [[[Tok(0, [65536])]]];
      && Solid(blocks) && Ids(AllToks(blocks)) == [65536] && !FitSixteenBits([65536])
      && Narrowed([65536]) == [0] && Boundaries(Narrowed([65536])) == []
  {
    var insn := [Tok(0, [65536])];
    ConcatSnoc<Insn>([], [insn]);
    ConcatSnoc([], insn);
    assert [] + [[insn]] == [[insn]] && [] + [insn] == [insn];
    IdsSnoc([], Tok(0, [65536]));
    assert [] + insn == insn;
    IdsEmpty();
    assert [65536][0] >= 65536;
    assert Narrowed([65536]) == [0];
    assert AtLeast256([0])[..0] == [] && Boundaries([0]) == [];
  }

  lemma EncodedAreNats(bytes: seq<int>, values: seq<int>)
    requires IsEncoding(bytes, values)
    ensures AreNats(values)
  {
    hide Codec.Encodable;
  }

  lemma RebuiltIds(blocks: seq<Block>)
    ensures RebuiltFrom(blocks).flat.ids == Ids(AllToks(blocks))
  {
  }

  /** Metatokens of the v2 format occupy ids, so every instruction is readable. */
  lemma TypedHasIds(blocks: seq<Block>, typeOf: int -> int)
    requires Solid(blocks) && TypedBy(AllToks(blocks), typeOf)
    ensures forall b :: b in blocks ==> HasIds(b)
  {
    hide Concat, Ids;
    forall k | 0 <= k < |blocks|
      ensures HasIds(blocks[k])
    {
      BlockTyped(blocks, typeOf, k);
      assert blocks[k] in blocks;
      InsnHasIds(blocks[k]);
      forall i | i in blocks[k]
        ensures Ids(i) != []
      {
        var j :| 0 <= j < |blocks[k]| && blocks[k][j] == i;
        assert IdCounts(blocks[k])[j] == |Ids(i)|;
      }
    }
  }

  lemma BlockTyped(blocks: seq<Block>, typeOf: int -> int, k: nat)
    requires k < |blocks| && TypedBy(AllToks(blocks), typeOf)
    ensures AllV2(Concat(blocks[k]))
  {
    hide Concat;
    ConcatMiddle(blocks, k);
    var p, b, rest := Concat(blocks[..k]), blocks[k], Concat(blocks[k + 1..]);
    ConcatAppend(p + b, rest);
    ConcatAppend(p, b);
    var all := AllToks(blocks);
    forall i | 0 <= i < |Concat(b)|
      ensures IsV2(Concat(b)[i])
    {
      assert all[|Concat(p)| + i] == Concat(b)[i];
    }
  }

  /** Reads a row back block by block, instruction by instruction, token by token; labels
      and addresses are placeholders. */
  method ReadRow(row: Row, typeOf: int -> int, ghost blocks: seq<Block>) returns (r: Result<Nested>)
    requires IsRowOf(row, blocks) && Solid(blocks) && TypedBy(AllToks(blocks), typeOf)
    requires FitSixteenBits(Ids(AllToks(blocks)))
    ensures r.Ok? && r.value.blocks == blocks
    ensures r.value.addrs == seq(|blocks|, _ => NO_ADDRESS)
  {
    hide IsEncoding, Concat, FlatOf, HasIds, TypedBy, Loaded, Ids, FitSixteenBits;
    RowLoads(row, blocks, typeOf);
    TypedHasIds(blocks, typeOf);
    var list := Loaded(row, typeOf);
    r := ReadNested(list.value, blocks);
  }

  /** A function that is filled into the reused buffer, written and read back has exactly
      the tokens it was given, nested as given, whatever the buffer held before. */
  method Persist(f: FunctionTokenList, spec: seq<BlockSpec>, typeOf: int -> int) returns (r: Result<Nested>)
    requires f.Shaped()
    requires var tokens := AllToks(NestedToks(KeptBlocks(spec)));
      TypedBy(tokens, typeOf) && AreNats(Ids(tokens)) && FitSixteenBits(Ids(tokens))
    modifies f, f.store.tokenIds, f.store.typeIds, f.store.startLookup, f.store.insnMetaRuns, f.store.insnIdxRuns
    modifies f.store.insnStrs, f.store.blockInsnRuns, f.store.blockMetaRuns, f.store.blockAddrs
    ensures r.Ok? <==> RowFits(NestedToks(KeptBlocks(spec)))
    ensures r.Ok? ==> r.value.blocks == NestedToks(KeptBlocks(spec))
  {
    hide IsRowOf, Concat, Ids, TypedBy, RowFits, NestedToks, KeptBlocks, Store.Valid, FunctionTokenList.Core, FitSixteenBits;
    FillFunction(f, spec);
    var row := WriteRow(f);
    if row.Err? {
      return Err(row.error);
    }
    CoreIsSolid(f);
    r := ReadRow(row.value, typeOf, NestedToks(KeptBlocks(spec)));
  }
}
