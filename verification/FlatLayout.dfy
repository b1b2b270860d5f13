/** The used arrays of a function's token list as one value, and reading the nested
    tokens back from it block by block, instruction by instruction, token by token. */
module FlatLayout {
  import opened TokenSeqs
  import opened Results
  import opened BufferState

  /** Token level, instruction level and block level arrays, each cut to its used part. */
  datatype Flat = Flat(
    ids: seq<int>, types: seq<int>, ends: seq<int>,
    insnMeta: seq<int>, insnIdx: seq<int>,
    blockInsn: seq<int>, blockMeta: seq<int>)

  /** All used arrays: the numbers, the instructions' labels and the blocks' addresses. */
  datatype Used = Used(flat: Flat, insnStrs: seq<Label>, blockAddrs: seq<Label>)

  /** The views a block or an instruction list is given when it is read back. */
  datatype BlockSlice = BlockSlice(
    ids: seq<int>, types: seq<int>, ends: seq<int>, insnMeta: seq<int>, insnIdx: seq<int>, insnStrs: seq<Label>)

  datatype InsnSlice = InsnSlice(ids: seq<int>, types: seq<int>, ends: seq<int>, insnStr: seq<Label>)

  function FlatOf(blocks: seq<Block>): Flat {
    var insns := Concat(blocks);
    var toks := Concat(insns);
    Flat(Ids(toks), Types(toks), Ends(toks), MetaCounts(insns), IdCounts(insns),
         InsnCounts(blocks), BlockMetaCounts(blocks))
  }

  /** The committed parts of the axes make up the flat layout. */
  lemma FlatParts(s: State)
    ensures FlatOf(s.blocks) == Flat(
      Ids(CommittedToks(s)), Types(CommittedToks(s)), Ends(CommittedToks(s)),
      MetaCounts(CommittedInsns(s)), IdCounts(CommittedInsns(s)),
      InsnCounts(s.blocks), BlockMetaCounts(s.blocks))
    ensures |Types(CommittedToks(s))| == |Ends(CommittedToks(s))| == |CommittedToks(s)|
    ensures |MetaCounts(CommittedInsns(s))| == |IdCounts(CommittedInsns(s))| == |CommittedInsns(s)|
    ensures |InsnCounts(s.blocks)| == |BlockMetaCounts(s.blocks)| == |s.blocks|
  {
  }

  function BlockSliceOf(block: Block, labels: seq<Label>): BlockSlice {
    var toks := Concat(block);
    BlockSlice(Ids(toks), Types(toks), Ends(toks), MetaCounts(block), IdCounts(block), labels)
  }

  function InsnSliceOf(insn: Insn, str: Label): InsnSlice {
    InsnSlice(Ids(insn), Types(insn), Ends(insn), [str])
  }

  /** The labels of block k, when every instruction of the function has one. */
  function LabelsOfBlock(blocks: seq<Block>, labels: seq<Label>, k: nat): (r: seq<Label>)
    requires k < |blocks| && |labels| == |Concat(blocks)|
    ensures |r| == |blocks[k]|
  {
    ConcatMiddle(blocks, k);
    labels[|Concat(blocks[..k])|..|Concat(blocks[..k])| + |blocks[k]|]
  }

  /** Every instruction occupies at least one token id. */
  predicate HasIds(block: Block) {
    forall i :: i in block ==> Ids(i) != []
  }

  lemma ShiftBack(s: seq<int>, k: int)
    ensures Shift(Shift(s, k), -k) == s
  {
  }

  /** A middle part of a token stream owns a contiguous range of every array. */
  lemma MiddlePart(p: seq<Tok>, x: seq<Tok>, rest: seq<Tok>)
    ensures var all, at := p + x + rest, |Ids(p)|;
      && at + |Ids(x)| <= |Ids(all)|
      && Ids(all)[at..at + |Ids(x)|] == Ids(x)
      && Types(all)[|p|..|p| + |x|] == Types(x)
      && Ends(all)[|p|..|p| + |x|] == Shift(Ends(x), at)
      && (p != [] ==> Ends(all)[|p| - 1] == at)
      && (x != [] ==> Ends(all)[|p| + |x| - 1] == at + |Ids(x)|)
  {
    IdsAppend(p + x, rest);
    IdsAppend(p, x);
    TypesAppend(p + x, rest);
    TypesAppend(p, x);
    EndsAppend(p + x, rest);
    EndsAppend(p, x);
    if p != [] { EndsLast(p); }
    if x != [] { EndsLast(x); }
  }

  lemma ConcatMiddle<T>(ss: seq<seq<T>>, k: nat)
    requires k < |ss|
    ensures Concat(ss) == Concat(ss[..k]) + ss[k] + Concat(ss[k + 1..])
    ensures Concat(ss[..k + 1]) == Concat(ss[..k]) + ss[k]
  {
    hide Concat;
    TakeNext(ss, k);
    ConcatSnoc(ss[..k], ss[k]);
    SplitAt(ss, k + 1);
    ConcatAppend(ss[..k + 1], ss[k + 1..]);
  }

  /** What block k owns of the function's arrays. */
  lemma BlockPart(blocks: seq<Block>, k: nat)
    requires k < |blocks|
    ensures var f, p, i := FlatOf(blocks), Concat(Concat(blocks[..k])), Concat(blocks[..k]);
      var b := BlockSliceOf(blocks[k], []);
      && |p| + |b.types| <= |f.types| == |f.ends| && |i| + |b.insnMeta| <= |f.insnMeta| == |f.insnIdx|
      && |Ids(p)| + |b.ids| <= |f.ids|
      && f.ids[|Ids(p)|..|Ids(p)| + |b.ids|] == b.ids
      && f.types[|p|..|p| + |b.types|] == b.types
      && f.ends[|p|..|p| + |b.types|] == Shift(b.ends, |Ids(p)|)
      && f.insnMeta[|i|..|i| + |b.insnMeta|] == b.insnMeta
      && f.insnIdx[|i|..|i| + |b.insnMeta|] == b.insnIdx
      && (p != [] ==> f.ends[|p| - 1] == |Ids(p)|)
      && (b.types != [] ==> f.ends[|p| + |b.types| - 1] == |Ids(p)| + |b.ids|)
      && Concat(Concat(blocks[..k + 1])) == p + Concat(blocks[k])
      && Concat(blocks[..k + 1]) == i + blocks[k]
  {
    hide Concat, Ids, Types, Ends, MetaCounts, IdCounts, Shift;
    var i, b, rest := Concat(blocks[..k]), blocks[k], Concat(blocks[k + 1..]);
    ConcatMiddle(blocks, k);
    ConcatAppend(i + b, rest);
    ConcatAppend(i, b);
    MiddlePart(Concat(i), Concat(b), Concat(rest));
    CountsAppend(i + b, rest);
    CountsAppend(i, b);
    CountSizes(i);
    CountSizes(b);
    MiddleSlice(MetaCounts(i), MetaCounts(b), MetaCounts(rest));
    MiddleSlice(IdCounts(i), IdCounts(b), IdCounts(rest));
    CountSizes(Concat(blocks));
    RowSizes(Concat(b));
    RowSizes(AllToks(blocks));
  }

  lemma CountSizes(insns: seq<Insn>)
    ensures |MetaCounts(insns)| == |IdCounts(insns)| == |insns|
  {
  }

  lemma RowSizes(ts: seq<Tok>)
    ensures |Types(ts)| == |Ends(ts)| == |ts|
  {
  }

  /** What instruction k owns of its block's arrays. */
  lemma InsnPart(block: Block, k: nat)
    requires k < |block|
    ensures var f, p := BlockSliceOf(block, []), Concat(block[..k]);
      var x := InsnSliceOf(block[k], Unset);
      && |p| + |x.types| <= |f.types| && |Ids(p)| + |x.ids| <= |f.ids|
      && f.insnMeta[k] == |x.types| && f.insnIdx[k] == |x.ids|
      && f.ids[|Ids(p)|..|Ids(p)| + |x.ids|] == x.ids
      && f.types[|p|..|p| + |x.types|] == x.types
      && f.ends[|p|..|p| + |x.types|] == Shift(x.ends, |Ids(p)|)
      && (p != [] ==> f.ends[|p| - 1] == |Ids(p)|)
      && Concat(block[..k + 1]) == p + block[k]
      && Ids(Concat(block[..k + 1])) == Ids(p) + x.ids
  {
    hide Concat, Ids, Types, Ends, Shift;
    ConcatMiddle(block, k);
    IdsAppend(Concat(block[..k]), block[k]);
    RowSizes(block[k]);
    RowSizes(Concat(block));
    MiddlePart(Concat(block[..k]), block[k], Concat(block[k + 1..]));
  }

  /** What metatoken k owns of its instruction's arrays. */
  lemma TokPart(insn: Insn, k: nat)
    requires k < |insn|
    ensures var f, at := InsnSliceOf(insn, Unset), |Ids(insn[..k])|;
      && at + |insn[k].ids| <= |f.ids|
      && f.types[k] == insn[k].ttype
      && (k > 0 ==> f.ends[k - 1] == at)
      && f.ends[k] == at + |insn[k].ids|
      && f.ids[at..at + |insn[k].ids|] == insn[k].ids
      && (k == |insn| - 1 ==> |f.ids| == at + |insn[k].ids|)
  {
    var p, x, rest := insn[..k], [insn[k]], insn[k + 1..];
    assert insn == p + x + rest;
    MiddlePart(p, x, rest);
    IdsSnoc([], insn[k]);
    assert [] + x == x && Ids([]) == [];
    if k == |insn| - 1 {
      assert insn == p + x;
      IdsAppend(p, x);
    }
  }

  lemma BlockRuns(blocks: seq<Block>, k: nat)
    requires k < |blocks|
    ensures |FlatOf(blocks).blockInsn| == |FlatOf(blocks).blockMeta| == |blocks|
    ensures FlatOf(blocks).blockInsn[k] == |blocks[k]| && FlatOf(blocks).blockMeta[k] == |Concat(blocks[k])|
  {
  }

  /** Yields each block's views, with ends relative to the block. */
  method IterBlocks(u: Used, ghost blocks: seq<Block>) returns (views: seq<BlockSlice>)
    requires u.flat == FlatOf(blocks) && |u.insnStrs| == |Concat(blocks)| && Solid(blocks)
    ensures |views| == |blocks|
    ensures forall k :: 0 <= k < |blocks| ==> views[k] == BlockSliceOf(blocks[k], LabelsOfBlock(blocks, u.insnStrs, k))
  {
    hide Concat, Ids, Types, Ends, MetaCounts, IdCounts, Shift;
    views := [];
    ConcatEmpty<Insn>();
    ConcatEmpty<Tok>();
    var f := u.flat;
    var tokenLast, insnLast := 0, 0;
    for k := 0 to |f.blockInsn|
      invariant |views| == k
      invariant forall j :: 0 <= j < k ==> views[j] == BlockSliceOf(blocks[j], LabelsOfBlock(blocks, u.insnStrs, j))
      invariant tokenLast == |Concat(Concat(blocks[..k]))| && insnLast == |Concat(blocks[..k])|
    {
      var tokenLen, insnLen := f.blockMeta[k], f.blockInsn[k];
      BlockPart(blocks, k);
      SolidHasToks(blocks[k]);
      BlockRuns(blocks, k);
      RowSizes(Concat(blocks[k]));
      CountSizes(blocks[k]);
      CountSizes(Concat(blocks));
      var tokenStart := if tokenLast > 0 then f.ends[tokenLast - 1] else 0;
      IdsEmpty();
      assert tokenStart == |Ids(Concat(Concat(blocks[..k])))|;
      var tokenEnd := f.ends[tokenLast + tokenLen - 1];
      ShiftBack(BlockSliceOf(blocks[k], []).ends, tokenStart);
      views := views + [BlockSlice(
        f.ids[tokenStart..tokenEnd],
        f.types[tokenLast..tokenLast + tokenLen],
        Shift(f.ends[tokenLast..tokenLast + tokenLen], -tokenStart),
        f.insnMeta[insnLast..insnLast + insnLen],
        f.insnIdx[insnLast..insnLast + insnLen],
        u.insnStrs[insnLast..insnLast + insnLen])];
      tokenLast := tokenLast + tokenLen;
      insnLast := insnLast + insnLen;
    }
  }

  /** Yields each instruction's views, with ends relative to the instruction; an
      instruction without token ids is refused. */
  method IterInsn(f: BlockSlice, ghost block: Block) returns (r: Result<seq<InsnSlice>>)
    requires f == BlockSliceOf(block, f.insnStrs) && |f.insnStrs| == |block| && SolidBlock(block)
    ensures r.Ok? <==> HasIds(block)
    ensures r.Ok? ==> |r.value| == |block|
    ensures r.Ok? ==> forall k :: 0 <= k < |block| ==> r.value[k] == InsnSliceOf(block[k], f.insnStrs[k])
  {
    hide Concat, Ids, Types, Ends, Shift;
    ConcatEmpty<Tok>();
    IdsEmpty();
    var views: seq<InsnSlice> := [];
    var idxLast, tokenLast := 0, 0;
    for k := 0 to |f.insnMeta|
      invariant |views| == k
      invariant forall j :: 0 <= j < k ==> views[j] == InsnSliceOf(block[j], f.insnStrs[j]) && Ids(block[j]) != []
      invariant tokenLast == |Concat(block[..k])| && idxLast == |Ids(Concat(block[..k]))|
    {
      InsnPart(block, k);
      RowSizes(block[k]);
      RowSizes(Concat(block));
      var idxLen, tokenLen := f.insnIdx[k], f.insnMeta[k];
      if idxLen == 0 || tokenLen == 0 {
        assert block[k] in block;
        return Err("Invalid token length");
      }
      var tokenIds := f.ids[idxLast..idxLast + idxLen];
      var before := if tokenLast > 0 then f.ends[tokenLast - 1] else 0;
      assert before == idxLast;
      ShiftBack(InsnSliceOf(block[k], Unset).ends, before);
      views := views + [InsnSlice(
        tokenIds,
        f.types[tokenLast..tokenLast + tokenLen],
        Shift(f.ends[tokenLast..tokenLast + tokenLen], -before),
        f.insnStrs[k..k + 1])];
      idxLast := idxLast + idxLen;
      tokenLast := tokenLast + tokenLen;
    }
    return Ok(views);
  }

  /** Token `index` of an instruction; out-of-range indices are refused. */
  method GetRawTokenAt(f: InsnSlice, index: int, ghost insn: Insn) returns (r: Result<Tok>)
    requires f.insnStr != [] && f == InsnSliceOf(insn, f.insnStr[0])
    ensures r == if 0 <= index < |insn| then Ok(insn[index]) else Err("Token index out of bounds")
  {
    RowSizes(insn);
    if index < 0 || index >= |f.types| {
      return Err("Token index out of bounds");
    }
    TokPart(insn, index);
    IdsEmpty();
    assert index == 0 ==> insn[..index] == [];
    var startPos := if index > 0 then f.ends[index - 1] else 0;
    var endPos := if index == |f.types| - 1 then |f.ids| else f.ends[index];
    return Ok(Tok(f.types[index], f.ids[startPos..endPos]));
  }

  /** All raw tokens of an instruction, in order. */
  method IterRawTokens(f: InsnSlice, ghost insn: Insn) returns (ts: seq<Tok>)
    requires f.insnStr != [] && f == InsnSliceOf(insn, f.insnStr[0])
    ensures ts == insn
  {
    RowSizes(insn);
    ts := [];
    for k := 0 to |f.types|
      invariant ts == insn[..k]
    {
      var t := GetRawTokenAt(f, k, insn);
      ts := ts + [t.value];
      TakeNext(insn, k);
    }
    assert insn[..|insn|] == insn;
  }

  /** What reading a function back gives: its nested metatokens, each block's labels and
      each block's address. */
  datatype Nested = Nested(blocks: seq<Block>, labels: seq<seq<Label>>, addrs: seq<Label>)

  /** The labels of a function, split by block. */
  function LabelsByBlock(blocks: seq<Block>, labels: seq<Label>): seq<seq<Label>>
    requires |labels| == |Concat(blocks)|
  {
    seq(|blocks|, k requires 0 <= k < |blocks| => LabelsOfBlock(blocks, labels, k))
  }

  /** Splitting the labels by block loses none and keeps their order. */
  lemma {:induction false} LabelsJoined(blocks: seq<Block>, labels: seq<Label>, k: nat)
    requires |labels| == |Concat(blocks)| && k <= |blocks|
    ensures |Concat(blocks[..k])| <= |labels|
    ensures Concat(LabelsByBlock(blocks, labels)[..k]) == labels[..|Concat(blocks[..k])|]
  {
    if k == 0 {
      assert blocks[..0] == [];
    } else {
      LabelsJoined(blocks, labels, k - 1);
      ConcatMiddle(blocks, k - 1);
      var all := LabelsByBlock(blocks, labels);
      TakeNext(all, k - 1);
      ConcatSnoc(all[..k - 1], all[k - 1]);
      var n := |Concat(blocks[..k - 1])|;
      assert labels[..n] + labels[n..n + |blocks[k - 1]|] == labels[..n + |blocks[k - 1]|];
    }
  }

  /** Reading a function back by blocks, instructions and raw tokens gives the nested
      tokens its arrays encode, with the labels in their blocks. */
  method ReadNested(u: Used, ghost blocks: seq<Block>) returns (r: Result<Nested>)
    requires u.flat == FlatOf(blocks) && |u.insnStrs| == |Concat(blocks)| && Solid(blocks)
    ensures r.Ok? <==> forall b :: b in blocks ==> HasIds(b)
    ensures r.Ok? ==> r.value == Nested(blocks, LabelsByBlock(blocks, u.insnStrs), u.blockAddrs)
  {
    hide FlatOf, HasIds, Concat, Ids, Types, Ends, MetaCounts, IdCounts;
    var views := IterBlocks(u, blocks);
    hide LabelsOfBlock;
    ghost var byBlock := LabelsByBlock(blocks, u.insnStrs);
    var out: seq<Block>, labels: seq<seq<Label>> := [], [];
    for k := 0 to |views|
      invariant out == blocks[..k] && labels == byBlock[..k]
      invariant forall j :: 0 <= j < k ==> HasIds(blocks[j])
    {
      var insns := IterInsn(views[k], blocks[k]);
      if insns.Err? {
        assert blocks[k] in blocks;
        return Err(insns.error);
      }
      var b, strs := ReadInsns(insns.value, blocks[k], byBlock[k]);
      out, labels := out + [b], labels + [strs];
      TakeNext(blocks, k);
      TakeNext(byBlock, k);
    }
    assert blocks[..|blocks|] == blocks && byBlock[..|blocks|] == byBlock;
    return Ok(Nested(out, labels, u.blockAddrs));
  }

  /** One block's instructions with their labels. */
  method ReadInsns(views: seq<InsnSlice>, ghost block: Block, ghost labels: seq<Label>)
    returns (b: Block, strs: seq<Label>)
    requires |views| == |block| == |labels|
    requires forall m :: 0 <= m < |block| ==> views[m] == InsnSliceOf(block[m], labels[m])
    ensures b == block && strs == labels
  {
    hide Ids, Types, Ends;
    b, strs := [], [];
    for m := 0 to |views|
      invariant b == block[..m] && strs == labels[..m]
    {
      var ts := IterRawTokens(views[m], block[m]);
      b, strs := b + [ts], strs + views[m].insnStr;
    }
  }
}
