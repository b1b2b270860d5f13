/** Flattening a function's nested tokens to token ids with block and instruction run
    lengths, and rebuilding every array of the token list from those three. */
module Reconstruction {
  import opened TokenSeqs
  import opened RunLengths
  import opened Results
  import opened Masks
  import opened BufferState
  import opened FlatLayout
  import Literals = LiteralSegments

  /** A v2 metatoken: a vocabulary id, then digit ids only. */
  predicate IsV2(t: Tok) {
    && t.ids != []
    && t.ids[0] >= RESERVED_DIGIT_COUNT
    && forall i :: 1 <= i < |t.ids| ==> t.ids[i] < RESERVED_DIGIT_COUNT
  }

  predicate AllV2(ts: seq<Tok>) {
    forall i :: 0 <= i < |ts| ==> IsV2(ts[i])
  }

  /** Token ids per block. */
  function BlockIdCounts(blocks: seq<Block>): seq<int> {
    seq(|blocks|, i requires 0 <= i < |blocks| => |Ids(Concat(blocks[i]))|)
  }

  // ---- flattening ----

  /** `np.add.reduceat(a, starts)`. */
  function AddReduceAt(a: seq<int>, starts: seq<int>): (r: seq<int>)
    requires forall i :: 0 <= i < |starts| ==> 0 <= starts[i] < |a|
  {
    seq(|starts|, i requires 0 <= i < |starts| =>
      if i + 1 == |starts| then Sum(a[starts[i]..])
      else if starts[i] < starts[i + 1] then Sum(a[starts[i]..starts[i + 1]])
      else a[starts[i]])
  }

  /** Where each block's instructions start. */
  function SplitStarts(blockInsn: seq<int>): seq<int>
    requires blockInsn != []
  {
    CumSum([0] + blockInsn[..|blockInsn| - 1])
  }

  lemma SplitStartsAre(blocks: seq<Block>, k: nat)
    requires k < |blocks|
    ensures |SplitStarts(InsnCounts(blocks))| == |blocks|
    ensures SplitStarts(InsnCounts(blocks))[k] == |Concat(blocks[..k])|
  {
    hide Concat, Sum;
    var counts := [0] + InsnCounts(blocks)[..|blocks| - 1];
    assert counts[..k + 1] == [0] + Sizes(blocks[..k]);
    SumAppend([0], Sizes(blocks[..k]));
    SumSnoc([], 0);
    assert [] + [0] == [0] && Sum([]) == 0 by { SumEmpty(); }
    SumOfSizes(blocks[..k]);
  }

  /** Instruction run lengths of a block sum to the block's token ids. */
  lemma {:induction false} SumOfIdCounts(b: Block)
    ensures Sum(IdCounts(b)) == |Ids(Concat(b))|
  {
    if b != [] {
      var init, last := b[..|b| - 1], b[|b| - 1];
      SumOfIdCounts(init);
      IdsAppend(Concat(init), last);
      assert IdCounts(b) == IdCounts(init) + [|Ids(last)|];
      SumSnoc(IdCounts(init), |Ids(last)|);
    } else {
      IdsEmpty();
    }
  }

  lemma BlockRunIs(blocks: seq<Block>, k: nat)
    requires k < |blocks|
    ensures var a, lo := IdCounts(Concat(blocks)), |Concat(blocks[..k])|;
      && lo + |blocks[k]| == |Concat(blocks[..k + 1])| <= |a|
      && Sum(a[lo..lo + |blocks[k]|]) == |Ids(Concat(blocks[k]))|
  {
    ConcatMiddle(blocks, k);
    var p, b, rest := Concat(blocks[..k]), blocks[k], Concat(blocks[k + 1..]);
    CountsAppend(p + b, rest);
    CountsAppend(p, b);
    MiddleSlice(IdCounts(p), IdCounts(b), IdCounts(rest));
    SumOfIdCounts(b);
  }

  /** Block k's instruction runs start at its split point and end at the next one. */
  ghost predicate BlockRun(insnIdx: seq<int>, starts: seq<int>, blocks: seq<Block>, k: nat) {
    && k < |starts| == |blocks|
    && blocks[k] != []
    && 0 <= starts[k] == |Concat(blocks[..k])|
    && starts[k] + |blocks[k]| <= |insnIdx|
    && (k + 1 < |blocks| ==> starts[k + 1] == starts[k] + |blocks[k]|)
    && (k + 1 == |blocks| ==> |insnIdx| == starts[k] + |blocks[k]|)
    && Sum(insnIdx[starts[k]..starts[k] + |blocks[k]|]) == |Ids(Concat(blocks[k]))|
  }

  lemma BlockRunHolds(blocks: seq<Block>, k: nat)
    requires k < |blocks| && Solid(blocks)
    ensures BlockRun(IdCounts(Concat(blocks)), SplitStarts(InsnCounts(blocks)), blocks, k)
  {
    hide Concat, Ids, Sum, SplitStarts, IdCounts, Solid;
    BlockSolid(blocks, k);
    SplitStartsAre(blocks, k);
    BlockRunIs(blocks, k);
    if k + 1 < |blocks| {
      SplitStartsAre(blocks, k + 1);
    } else {
      assert blocks[..k + 1] == blocks;
      CountSizes(Concat(blocks));
    }
  }

  lemma BlockSolid(blocks: seq<Block>, k: nat)
    requires k < |blocks| && Solid(blocks)
    ensures blocks[k] != []
  {
    assert blocks[k] in blocks;
  }

  /** Summing instruction runs between the split points gives the block runs. */
  lemma ReducedRuns(blocks: seq<Block>)
    requires blocks != [] && Solid(blocks)
    ensures var a, starts := IdCounts(Concat(blocks)), SplitStarts(InsnCounts(blocks));
      && (forall i :: 0 <= i < |starts| ==> 0 <= starts[i] < |a|)
      && AddReduceAt(a, starts) == BlockIdCounts(blocks)
  {
    hide Concat, Ids, Sum, SplitStarts, IdCounts;
    var a, starts := IdCounts(Concat(blocks)), SplitStarts(InsnCounts(blocks));
    BlockRunHolds(blocks, 0);
    forall k | 0 <= k < |starts|
      ensures 0 <= starts[k] < |a|
    {
      BlockRunHolds(blocks, k);
    }
    hide BlockRun, AddReduceAt, BlockIdCounts;
    SameLengths(a, starts, blocks);
    var r := AddReduceAt(a, starts);
    forall k | 0 <= k < |blocks|
      ensures r[k] == BlockIdCounts(blocks)[k]
    {
      BlockRunHolds(blocks, k);
      ReducedAt(a, starts, blocks, k);
    }
  }

  lemma SameLengths(a: seq<int>, starts: seq<int>, blocks: seq<Block>)
    requires forall i :: 0 <= i < |starts| ==> 0 <= starts[i] < |a|
    ensures |AddReduceAt(a, starts)| == |starts| && |BlockIdCounts(blocks)| == |blocks|
  {
  }

  lemma ReducedAt(a: seq<int>, starts: seq<int>, blocks: seq<Block>, k: nat)
    requires BlockRun(a, starts, blocks, k)
    requires forall i :: 0 <= i < |starts| ==> 0 <= starts[i] < |a|
    ensures AddReduceAt(a, starts)[k] == BlockIdCounts(blocks)[k]
  {
    hide Concat, Ids, Sum;
    if k + 1 == |blocks| {
      assert a[starts[k]..] == a[starts[k]..starts[k] + |blocks[k]|];
    }
  }

  /** The three arrays that are written out for a function. */
  method BuildVocabTokenizeAndIndex(f: Flat, ghost blocks: seq<Block>)
    returns (tokens: seq<int>, blockIdx: seq<int>, insnIdx: seq<int>)
    requires f == FlatOf(blocks) && Solid(blocks)
    ensures tokens == Ids(AllToks(blocks))
    ensures blockIdx == BlockIdCounts(blocks)
    ensures insnIdx == IdCounts(Concat(blocks))
  {
    hide Concat, Ids, Sum, Types, Ends, SplitStarts;
    RowSizes(AllToks(blocks));
    NoBlocks(blocks);
    if |f.types| == 0 {
      return [], [], [];
    }
    ReducedRuns(blocks);
    var starts := SplitStarts(f.blockInsn);
    blockIdx := AddReduceAt(f.insnIdx, starts);
    return f.ids, blockIdx, f.insnIdx;
  }

  /** A list without metatokens has no blocks. */
  lemma NoBlocks(blocks: seq<Block>)
    requires Solid(blocks)
    ensures AllToks(blocks) == [] <==> blocks == []
    ensures blocks == [] ==> Ids(AllToks(blocks)) == [] && IdCounts(Concat(blocks)) == []
  {
    if blocks != [] {
      var last := blocks[|blocks| - 1];
      assert last in blocks;
      SolidHasToks(last);
      ConcatAppend(Concat(blocks[..|blocks| - 1]), last);
    } else {
      IdsEmpty();
    }
  }

  // ---- rebuilding ----

  /** `tokens >= 256`. */
  function AtLeast256(tokens: seq<int>): seq<bool> {
    seq(|tokens|, i requires 0 <= i < |tokens| => tokens[i] >= RESERVED_DIGIT_COUNT)
  }

  /** `np.flatnonzero(tokens >= 256)`. */
  function Boundaries(tokens: seq<int>): (at: seq<int>)
    ensures forall i :: 0 <= i < |at| ==> 0 <= at[i] < |tokens|
  {
    Positions(AtLeast256(tokens))
  }

  /** Gaps between successive boundaries; the last gap runs to the end of the stream. */
  function Gaps(at: seq<int>, end: int): seq<int> {
    seq(|at|, i requires 0 <= i < |at| => if i + 1 < |at| then at[i + 1] - at[i] else end - at[i])
  }

  function Typed(first: seq<int>, typeOf: int -> int): seq<int> {
    seq(|first|, i requires 0 <= i < |first| => typeOf(first[i]))
  }

  const NOT_AVAILABLE := Text("n/a")
  const NO_ADDRESS := Number(-0xDEADBEEF)

  /** The list with these metatoken run lengths and representative ids; labels and block
      addresses are not stored and become placeholders. */
  function Rebuilt(tokens: seq<int>, runs: seq<int>, first: seq<int>, blockIdx: seq<int>, insnIdx: seq<int>,
                   typeOf: int -> int): Used
  {
    Used(Flat(tokens, Typed(first, typeOf), CumSum(runs),
              CbRle(insnIdx, runs), insnIdx, CbRle(blockIdx, insnIdx), CbRle(blockIdx, runs)),
         seq(|CbRle(insnIdx, runs)|, _ => NOT_AVAILABLE), seq(|blockIdx|, _ => NO_ADDRESS))
  }

  /** Rebuilding under a v2 vocabulary: ids of 256 and more start a metatoken. */
  function Reconstruct(tokens: seq<int>, blockIdx: seq<int>, insnIdx: seq<int>, typeOf: int -> int): Used {
    var at := Boundaries(tokens);
    Rebuilt(tokens, Gaps(at, |tokens|), Gather(tokens, at), blockIdx, insnIdx, typeOf)
  }

  /** Rebuilding under a v1 vocabulary: literal segments are metatokens, and so is every
      other id. */
  function ReconstructV1(tokens: seq<int>, blockIdx: seq<int>, insnIdx: seq<int>, typeOf: int -> int,
                         starts: set<int>, ends: set<int>): Result<Used>
  {
    var found := Literals.ArrayForm(tokens, starts, ends);
    if found.Err? then Err(found.error)
    else Ok(Rebuilt(tokens, found.value.0, found.value.1, blockIdx, insnIdx, typeOf))
  }

  /** Token ids per metatoken. */
  function Lengths(ts: seq<Tok>): seq<int> {
    seq(|ts|, i requires 0 <= i < |ts| => |ts[i].ids|)
  }

  function StartsOf(ts: seq<Tok>): seq<int> {
    seq(|ts|, i requires 0 <= i < |ts| => |Ids(ts[..i])|)
  }

  lemma BoundariesDigits(a: seq<int>, digits: seq<int>)
    requires forall i :: 0 <= i < |digits| ==> digits[i] < RESERVED_DIGIT_COUNT
    ensures Boundaries(a + digits) == Boundaries(a)
  {
    hide Positions;
    assert AtLeast256(a + digits) == AtLeast256(a) + AtLeast256(digits);
    PositionsAppend(AtLeast256(a), AtLeast256(digits));
    PositionsNone(AtLeast256(digits));
  }

  lemma BoundariesSnoc(a: seq<int>, id: int)
    requires id >= RESERVED_DIGIT_COUNT
    ensures Boundaries(a + [id]) == Boundaries(a) + [|a|]
  {
    assert AtLeast256(a + [id])[..|a|] == AtLeast256(a);
  }

  /** In a v2 stream the ids of 256 and more are exactly where metatokens start. */
  lemma {:induction false} BoundariesAreStarts(ts: seq<Tok>)
    requires AllV2(ts)
    ensures Boundaries(Ids(ts)) == StartsOf(ts)
  {
    if ts == [] {
      IdsEmpty();
    } else {
      var init, t := ts[..|ts| - 1], ts[|ts| - 1];
      assert AllV2(init) && IsV2(t);
      BoundariesAreStarts(init);
      SplitLast(ts);
      IdsSnoc(init, t);
      var head := Ids(init) + [t.ids[0]];
      AppendAssoc(Ids(init), [t.ids[0]], t.ids[1..]);
      assert [t.ids[0]] + t.ids[1..] == t.ids;
      BoundariesDigits(head, t.ids[1..]);
      BoundariesSnoc(Ids(init), t.ids[0]);
      assert StartsOf(ts) == StartsOf(init) + [|Ids(init)|] by {
        forall i | 0 <= i < |ts|
          ensures StartsOf(ts)[i] == (StartsOf(init) + [|Ids(init)|])[i]
        {
          assert i < |init| ==> ts[..i] == init[..i];
        }
      }
    }
  }

  lemma StartStep(ts: seq<Tok>, k: nat)
    requires k < |ts|
    ensures |Ids(ts[..k + 1])| == |Ids(ts[..k])| + |ts[k].ids|
    ensures k + 1 == |ts| ==> |Ids(ts)| == |Ids(ts[..k])| + |ts[k].ids|
    ensures |ts[k].ids| > 0 ==> |Ids(ts[..k])| < |Ids(ts)| && Ids(ts)[|Ids(ts[..k])|] == ts[k].ids[0]
  {
    TakeNext(ts, k);
    IdsSnoc(ts[..k], ts[k]);
    SplitAt(ts, k + 1);
    IdsAppend(ts[..k + 1], ts[k + 1..]);
    if k + 1 == |ts| {
      assert ts[..k + 1] == ts;
    }
  }

  lemma GapsAreLengths(ts: seq<Tok>)
    ensures Gaps(StartsOf(ts), |Ids(ts)|) == Lengths(ts)
  {
    hide Ids;
    forall k | 0 <= k < |ts|
      ensures Gaps(StartsOf(ts), |Ids(ts)|)[k] == Lengths(ts)[k]
    {
      StartStep(ts, k);
    }
  }

  lemma {:induction false} SumOfLengths(ts: seq<Tok>)
    ensures Sum(Lengths(ts)) == |Ids(ts)|
  {
    if ts == [] {
      IdsEmpty();
    } else {
      var init, t := ts[..|ts| - 1], ts[|ts| - 1];
      SumOfLengths(init);
      SplitLast(ts);
      IdsSnoc(init, t);
      assert Lengths(ts) == Lengths(init) + [|t.ids|];
      SumSnoc(Lengths(init), |t.ids|);
    }
  }

  lemma {:induction false} CumSumIsEnds(ts: seq<Tok>)
    ensures CumSum(Lengths(ts)) == Ends(ts)
  {
    if ts == [] {
    } else {
      var init, t := ts[..|ts| - 1], ts[|ts| - 1];
      CumSumIsEnds(init);
      SumOfLengths(ts);
      assert Lengths(ts)[..|ts|] == Lengths(ts);
      assert CumSum(Lengths(ts)) == CumSum(Lengths(init)) + [Sum(Lengths(ts))] by {
        forall i | 0 <= i < |init|
          ensures CumSum(Lengths(ts))[i] == CumSum(Lengths(init))[i]
        {
          assert Lengths(ts)[..i + 1] == Lengths(init)[..i + 1];
        }
      }
    }
  }

  /** Lengths of grouped metatokens, group by group. */
  function GroupLengths(groups: seq<seq<Tok>>): seq<seq<int>> {
    seq(|groups|, i requires 0 <= i < |groups| => Lengths(groups[i]))
  }

  lemma {:induction false} ConcatLengths(groups: seq<seq<Tok>>)
    ensures Concat(GroupLengths(groups)) == Lengths(Concat(groups))
  {
    if groups == [] {
    } else {
      var init, last := groups[..|groups| - 1], groups[|groups| - 1];
      ConcatLengths(init);
      assert GroupLengths(groups) == GroupLengths(init) + [Lengths(last)];
      ConcatSnoc(GroupLengths(init), Lengths(last));
    }
  }

  /** Every metatoken occupies at least one token id. */
  predicate NoneEmpty(ts: seq<Tok>) {
    forall i :: 0 <= i < |ts| ==> ts[i].ids != []
  }

  /** The count of metatokens per group follows from the token ids per group. */
  lemma MetaRunsFound(groups: seq<seq<Tok>>)
    requires NoneEmpty(Concat(groups))
    ensures CbRle(IdCounts(groups), Lengths(Concat(groups))) == MetaCounts(groups)
  {
    hide Concat, Ids, Sum, CbRle;
    var g := GroupLengths(groups);
    ConcatLengths(groups);
    assert Positive(Concat(g));
    CbRleExact(g);
    forall i | 0 <= i < |groups|
      ensures Sums(g)[i] == IdCounts(groups)[i] && Sizes(g)[i] == MetaCounts(groups)[i]
    {
      SumOfLengths(groups[i]);
    }
    assert Sums(g) == IdCounts(groups) && Sizes(g) == MetaCounts(groups);
  }

  function BlockToks(blocks: seq<Block>): seq<seq<Tok>> {
    seq(|blocks|, i requires 0 <= i < |blocks| => Concat(blocks[i]))
  }

  lemma {:induction false} ConcatBlockToks(blocks: seq<Block>)
    ensures Concat(BlockToks(blocks)) == AllToks(blocks)
  {
    if blocks == [] {
    } else {
      var init, last := blocks[..|blocks| - 1], blocks[|blocks| - 1];
      ConcatBlockToks(init);
      assert BlockToks(blocks) == BlockToks(init) + [Concat(last)];
      ConcatSnoc(BlockToks(init), Concat(last));
      ConcatAppend(Concat(init), last);
    }
  }

  function BlockInsnIds(blocks: seq<Block>): seq<seq<int>> {
    seq(|blocks|, i requires 0 <= i < |blocks| => IdCounts(blocks[i]))
  }

  lemma {:induction false} ConcatBlockInsnIds(blocks: seq<Block>)
    ensures Concat(BlockInsnIds(blocks)) == IdCounts(Concat(blocks))
  {
    if blocks == [] {
    } else {
      var init, last := blocks[..|blocks| - 1], blocks[|blocks| - 1];
      ConcatBlockInsnIds(init);
      assert BlockInsnIds(blocks) == BlockInsnIds(init) + [IdCounts(last)];
      ConcatSnoc(BlockInsnIds(init), IdCounts(last));
      CountsAppend(Concat(init), last);
    }
  }

  lemma InsnHasIds(insns: seq<Insn>)
    requires NoneEmpty(Concat(insns)) && forall i :: i in insns ==> i != []
    ensures Positive(IdCounts(insns))
  {
    forall k | 0 <= k < |insns|
      ensures |Ids(insns[k])| > 0
    {
      assert insns[k] in insns;
      ConcatMiddle(insns, k);
      var t := insns[k][|insns[k]| - 1];
      assert t == Concat(insns)[|Concat(insns[..k])| + |insns[k]| - 1];
      SplitLast(insns[k]);
      IdsSnoc(insns[k][..|insns[k]| - 1], t);
    }
  }

  lemma SolidInsns(blocks: seq<Block>)
    requires Solid(blocks)
    ensures forall i :: i in Concat(blocks) ==> i != []
  {
    if blocks == [] {
    } else {
      SolidInsns(blocks[..|blocks| - 1]);
      assert blocks[|blocks| - 1] in blocks;
    }
  }

  /** Instructions per block follow from the token ids per block and per instruction. */
  lemma InsnRunsFound(blocks: seq<Block>)
    requires Solid(blocks) && NoneEmpty(AllToks(blocks))
    ensures CbRle(BlockIdCounts(blocks), IdCounts(Concat(blocks))) == InsnCounts(blocks)
  {
    hide Concat, Ids, Sum, CbRle;
    var g := BlockInsnIds(blocks);
    ConcatBlockInsnIds(blocks);
    SolidInsns(blocks);
    InsnHasIds(Concat(blocks));
    CbRleExact(g);
    forall i | 0 <= i < |blocks|
      ensures Sums(g)[i] == BlockIdCounts(blocks)[i] && Sizes(g)[i] == InsnCounts(blocks)[i]
    {
      SumOfIdCounts(blocks[i]);
    }
    assert Sums(g) == BlockIdCounts(blocks) && Sizes(g) == InsnCounts(blocks);
  }

  /** From the right run lengths and representative ids every number of the list comes
      back, and every slot of the placeholders. */
  lemma RebuiltInverts(blocks: seq<Block>, first: seq<int>, typeOf: int -> int)
    requires Solid(blocks) && NoneEmpty(AllToks(blocks)) && Typed(first, typeOf) == Types(AllToks(blocks))
    ensures Rebuilt(Ids(AllToks(blocks)), Lengths(AllToks(blocks)), first, BlockIdCounts(blocks), IdCounts(Concat(blocks)), typeOf)
            == RebuiltFrom(blocks)
  {
    hide Concat, Ids, Sum, CbRle, Ends, Typed;
    var ts := AllToks(blocks);
    CumSumIsEnds(ts);
    MetaRunsFound(Concat(blocks));
    InsnRunsFound(blocks);
    ConcatBlockToks(blocks);
    MetaRunsFound(BlockToks(blocks));
    assert IdCounts(BlockToks(blocks)) == BlockIdCounts(blocks);
    assert MetaCounts(BlockToks(blocks)) == BlockMetaCounts(blocks);
  }

  /** What is rebuilt of a function. */
  function RebuiltFrom(blocks: seq<Block>): Used {
    Used(FlatOf(blocks), seq(|Concat(blocks)|, _ => NOT_AVAILABLE), seq(|blocks|, _ => NO_ADDRESS))
  }

  // ---- v2 ----

  predicate TypedBy(ts: seq<Tok>, typeOf: int -> int) {
    forall i :: 0 <= i < |ts| ==> IsV2(ts[i]) && ts[i].ttype == typeOf(ts[i].ids[0])
  }

  /** Labels and addresses are not stored. */
  lemma Placeholders(blocks: seq<Block>)
    ensures RebuiltFrom(blocks).insnStrs == seq(|Concat(blocks)|, _ => Text("n/a"))
    ensures RebuiltFrom(blocks).blockAddrs == seq(|blocks|, _ => Number(-0xDEADBEEF))
  {
  }

  /** Rebuilding from the three flattened arrays gives back every number of the list. */
  lemma ReconstructInverts(blocks: seq<Block>, typeOf: int -> int)
    requires Solid(blocks) && TypedBy(AllToks(blocks), typeOf)
    ensures Reconstruct(Ids(AllToks(blocks)), BlockIdCounts(blocks), IdCounts(Concat(blocks)), typeOf) == RebuiltFrom(blocks)
    ensures RebuiltFrom(blocks).insnStrs == seq(|Concat(blocks)|, _ => Text("n/a"))
    ensures RebuiltFrom(blocks).blockAddrs == seq(|blocks|, _ => Number(-0xDEADBEEF))
  {
    Placeholders(blocks);
    hide Concat, Ids, Sum, CbRle, Boundaries, Ends, Rebuilt, RebuiltFrom;
    var ts := AllToks(blocks);
    BoundariesAreStarts(ts);
    GapsAreLengths(ts);
    var first := Gather(Ids(ts), Boundaries(Ids(ts)));
    forall k | 0 <= k < |ts|
      ensures first[k] == ts[k].ids[0]
    {
      StartStep(ts, k);
    }
    assert Typed(first, typeOf) == Types(ts);
    RebuiltInverts(blocks, first, typeOf);
  }

  // ---- v1 ----

  /** Metatokens of the v1 format: each is one plain id or one whole literal segment. */
  predicate AreItems(ts: seq<Tok>, items: seq<Literals.Item>, starts: set<int>, ends: set<int>, typeOf: int -> int) {
    && |items| == |ts| && Literals.ItemsOk(items, starts, ends)
    && forall i :: 0 <= i < |ts| ==> ts[i].ids == Literals.IdsOf(items[i]) && ts[i].ttype == typeOf(Literals.RepOf(items[i]))
  }

  lemma {:induction false} ItemStream(ts: seq<Tok>, items: seq<Literals.Item>)
    requires |items| == |ts| && forall i :: 0 <= i < |ts| ==> ts[i].ids == Literals.IdsOf(items[i])
    ensures Ids(ts) == Literals.Render(items)
  {
    if ts == [] {
      IdsEmpty();
    } else {
      var init, t := ts[..|ts| - 1], ts[|ts| - 1];
      ItemStream(init, items[..|ts| - 1]);
      SplitLast(ts);
      IdsSnoc(init, t);
    }
  }

  lemma {:induction false} CumSumInjective(a: seq<int>, b: seq<int>)
    requires CumSum(a) == CumSum(b)
    ensures a == b
  {
    assert |CumSum(a)| == |a| && |CumSum(b)| == |b|;
    if a == [] {
    } else {
      var n := |a| - 1;
      assert CumSum(a)[..n] == CumSum(a[..n]) by { CumSumPrefix(a, n); }
      assert CumSum(b)[..n] == CumSum(b[..n]) by { CumSumPrefix(b, n); }
      CumSumInjective(a[..n], b[..n]);
      assert a[..n + 1] == a && b[..n + 1] == b;
      assert CumSum(a)[n] == Sum(a) && CumSum(b)[n] == Sum(b);
    }
  }

  lemma CumSumPrefix(a: seq<int>, n: nat)
    requires n <= |a|
    ensures CumSum(a)[..n] == CumSum(a[..n])
  {
    forall i | 0 <= i < n
      ensures CumSum(a)[i] == CumSum(a[..n])[i]
    {
      assert a[..n][..i + 1] == a[..i + 1];
    }
  }

  /** Under the v1 rule too, exactly as long as every literal segment has at most 255 ids. */
  lemma ReconstructV1Inverts(blocks: seq<Block>, items: seq<Literals.Item>, starts: set<int>, ends: set<int>, typeOf: int -> int)
    requires Solid(blocks) && AreItems(AllToks(blocks), items, starts, ends, typeOf)
    ensures var r := ReconstructV1(Ids(AllToks(blocks)), BlockIdCounts(blocks), IdCounts(Concat(blocks)), typeOf, starts, ends);
      r.Ok? && (r == Ok(RebuiltFrom(blocks)) <==> Literals.AllShort(items))
  {
    hide Concat, Ids, Sum, CbRle, Ends, Literals.ArrayForm, Literals.AllShort, CumSum;
    var ts := AllToks(blocks);
    ItemStream(ts, items);
    Literals.RenderedArrays(items, starts, ends);
    var found := Literals.ArrayForm(Ids(ts), starts, ends).value;
    assert Literals.RunsOf(items) == Lengths(ts);
    assert Typed(found.1, typeOf) == Types(ts);
    CumSumIsEnds(ts);
    if Literals.AllShort(items) {
      RebuiltInverts(blocks, found.1, typeOf);
    } else if CumSum(found.0) == CumSum(Lengths(ts)) {
      CumSumInjective(found.0, Lengths(ts));
    }
  }
}
