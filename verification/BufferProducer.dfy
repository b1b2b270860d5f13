/** Filling the reused buffer with one function's blocks, and reading it back. */
module BufferProducer {
  import opened TokenSeqs
  import opened BufferState
  import opened TokenStore
  import opened LeasedBuffer
  import opened FlatLayout
  import opened Results

  /** What a provider yields: labelled instructions of an addressed block. */
  datatype InsnSpec = InsnSpec(caption: Label, toks: seq<Tok>)
  datatype BlockSpec = BlockSpec(addr: Label, insns: seq<InsnSpec>)

  /** The instructions that are kept: those with at least one metatoken. */
  function KeptInsns(insns: seq<InsnSpec>): seq<InsnSpec> {
    if insns == [] then []
    else
      var init, last := KeptInsns(insns[..|insns| - 1]), insns[|insns| - 1];
      if last.toks == [] then init else init + [last]
  }

  /** The blocks that are kept, holding kept instructions only. */
  function KeptBlocks(spec: seq<BlockSpec>): seq<BlockSpec> {
    if spec == [] then []
    else
      var init, last := KeptBlocks(spec[..|spec| - 1]), spec[|spec| - 1];
      if KeptInsns(last.insns) == [] then init else init + [BlockSpec(last.addr, KeptInsns(last.insns))]
  }

  function Toks(insns: seq<InsnSpec>): seq<Insn> {
    seq(|insns|, i requires 0 <= i < |insns| => insns[i].toks)
  }

  function Captions(insns: seq<InsnSpec>): seq<Label> {
    seq(|insns|, i requires 0 <= i < |insns| => insns[i].caption)
  }

  function NestedToks(spec: seq<BlockSpec>): seq<Block> {
    seq(|spec|, i requires 0 <= i < |spec| => Toks(spec[i].insns))
  }

  function NestedCaptions(spec: seq<BlockSpec>): seq<seq<Label>> {
    seq(|spec|, i requires 0 <= i < |spec| => Captions(spec[i].insns))
  }

  function Addrs(spec: seq<BlockSpec>): seq<Label> {
    seq(|spec|, i requires 0 <= i < |spec| => spec[i].addr)
  }

  /** The buffer holds exactly these blocks, instructions, labels and addresses. */
  function Holding(spec: seq<BlockSpec>): State {
    State(NestedToks(spec), Concat(NestedCaptions(spec)), Addrs(spec), NoBlock)
  }

  function HoldingOpen(spec: seq<BlockSpec>, insns: seq<InsnSpec>): State {
    Holding(spec).(open := ABlock(Toks(insns), Captions(insns), NoInsn))
  }

  lemma {:induction false} KeptHaveToks(insns: seq<InsnSpec>)
    ensures forall i :: i in KeptInsns(insns) ==> i.toks != []
  {
    if insns == [] {
    } else {
      KeptHaveToks(insns[..|insns| - 1]);
    }
  }

  lemma InsnStep(spec: seq<BlockSpec>, insns: seq<InsnSpec>, k: nat)
    requires k < |insns|
    ensures InsnAppended(HoldingOpen(spec, KeptInsns(insns[..k])), insns[k].caption, insns[k].toks)
            == HoldingOpen(spec, KeptInsns(insns[..k + 1]))
  {
    TakeNext(insns, k);
    assert insns[..k + 1][..k] == insns[..k];
    var kept := KeptInsns(insns[..k]);
    assert Toks(kept + [insns[k]]) == Toks(kept) + [insns[k].toks];
    assert Captions(kept + [insns[k]]) == Captions(kept) + [insns[k].caption];
  }

  lemma BlockStep(spec: seq<BlockSpec>, k: nat)
    requires k < |spec|
    ensures BlockAdded(HoldingOpen(KeptBlocks(spec[..k]), KeptInsns(spec[k].insns)), spec[k].addr)
            == Holding(KeptBlocks(spec[..k + 1]))
  {
    TakeNext(spec, k);
    assert spec[..k + 1][..k] == spec[..k];
    var kept, insns := KeptBlocks(spec[..k]), KeptInsns(spec[k].insns);
    KeptHaveToks(spec[k].insns);
    if insns != [] {
      assert Toks(insns)[|insns| - 1] != [] by { assert insns[|insns| - 1] in insns; }
      var added := BlockSpec(spec[k].addr, insns);
      assert NestedToks(kept + [added]) == NestedToks(kept) + [Toks(insns)];
      assert NestedCaptions(kept + [added]) == NestedCaptions(kept) + [Captions(insns)];
      ConcatSnoc(NestedCaptions(kept), Captions(insns));
      assert Addrs(kept + [added]) == Addrs(kept) + [spec[k].addr];
    }
  }

  /** Refills the buffer for the next function, whatever it held before. */
  method FillFunction(f: FunctionTokenList, spec: seq<BlockSpec>)
    requires f.Shaped()
    modifies f, f.store.tokenIds, f.store.typeIds, f.store.startLookup, f.store.insnMetaRuns, f.store.insnIdxRuns
    modifies f.store.insnStrs, f.store.blockInsnRuns, f.store.blockMetaRuns, f.store.blockAddrs
    ensures f.Valid() && f.viewChild == null
    ensures f.state == Holding(KeptBlocks(spec))
    ensures old(f.store).GrowsTo(f.store)
  {
    hide Holding, HoldingOpen, KeptBlocks, KeptInsns, BlockAdded, InsnAppended, Store.Valid, FunctionTokenList.Core;
    hide CommittedToks, CommittedInsns, BlockToks, OpenInsns, Ids, OpenToks;
    f.Reset();
    assert f.state == Holding(KeptBlocks(spec[..0])) by { NothingHeld(spec); }
    for k := 0 to |spec|
      invariant f.Valid() && f.viewChild == null
      invariant f.state == Holding(KeptBlocks(spec[..k]))
      invariant old(f.store).GrowsTo(f.store)
    {
      FillBlock(f, spec[k], spec[..k]);
      BlockStep(spec, k);
    }
    assert spec[..|spec|] == spec;
  }

  lemma NothingHeld(spec: seq<BlockSpec>)
    ensures EMPTY == Holding(KeptBlocks(spec[..0]))
  {
  }

  lemma Leased(spec: seq<BlockSpec>, insns: seq<InsnSpec>)
    ensures BlockViewed(Holding(spec)) == HoldingOpen(spec, KeptInsns(insns[..0]))
  {
    assert KeptInsns(insns[..0]) == [] && Toks([]) == [] && Captions([]) == [];
  }

  method FillBlock(f: FunctionTokenList, b: BlockSpec, ghost done: seq<BlockSpec>)
    requires f.Valid() && f.viewChild == null && f.state == Holding(KeptBlocks(done))
    modifies f, f.store.tokenIds, f.store.typeIds, f.store.startLookup, f.store.insnMetaRuns, f.store.insnIdxRuns
    modifies f.store.insnStrs, f.store.blockInsnRuns, f.store.blockMetaRuns, f.store.blockAddrs
    ensures f.Valid() && f.viewChild == null
    ensures f.state == BlockAdded(HoldingOpen(KeptBlocks(done), KeptInsns(b.insns)), b.addr)
    ensures old(f.store).GrowsTo(f.store)
  {
    hide KeptBlocks, KeptInsns, BlockAdded, InsnAppended, Store.Valid, FunctionTokenList.Core;
    hide CommittedToks, CommittedInsns, BlockToks, OpenInsns, Ids, OpenToks;
    ghost var spec := KeptBlocks(done);
    var status, view := f.View();
    Leased(spec, b.insns);
    for k := 0 to |b.insns|
      invariant view != null && fresh(view) && view.viewParent == f
      invariant view.Live() && view.viewChild == null
      invariant f.state == HoldingOpen(spec, KeptInsns(b.insns[..k]))
      invariant old(f.store).GrowsTo(f.store)
    {
      InsnStep(spec, b.insns, k);
      status := view.AppendAsInsn(b.insns[k].caption, b.insns[k].toks);
    }
    assert b.insns[..|b.insns|] == b.insns;
    status := f.AddBlock(view, b.addr);
  }

  /** Reading the buffer back yields exactly the nested tokens, labels and addresses it
      holds. */
  method ReadBack(f: FunctionTokenList) returns (r: Result<Nested>)
    requires f.Core()
    ensures WellFormed(f.state)
    ensures r.Ok? <==> forall b :: b in f.state.blocks ==> HasIds(b)
    ensures r.Ok? ==> r.value == Nested(f.state.blocks, LabelsByBlock(f.state.blocks, f.state.labels), f.state.addrs)
  {
    hide FlatOf, HasIds, LabelsByBlock;
    f.IsWellFormed();
    hide FunctionTokenList.Core;
    var used := f.GetUsedArrays();
    r := ReadNested(used, f.state.blocks);
  }

  /** For a producer's buffer these are the labels of each kept instruction. */
  lemma {:induction false} HeldLabels(spec: seq<BlockSpec>)
    ensures |Concat(NestedCaptions(spec))| == |Concat(NestedToks(spec))|
    ensures LabelsByBlock(NestedToks(spec), Concat(NestedCaptions(spec))) == NestedCaptions(spec)
  {
    CaptionsMatch(spec);
    var blocks, labels := NestedToks(spec), NestedCaptions(spec);
    forall k | 0 <= k < |spec|
      ensures LabelsOfBlock(blocks, Concat(labels), k) == labels[k]
    {
      CaptionsMatch(spec[..k]);
      assert blocks[..k] == NestedToks(spec[..k]) && labels[..k] == NestedCaptions(spec[..k]);
      ConcatMiddle(labels, k);
      MiddleSlice(Concat(labels[..k]), labels[k], Concat(labels[k + 1..]));
    }
  }

  lemma {:induction false} CaptionsMatch(spec: seq<BlockSpec>)
    ensures |Concat(NestedCaptions(spec))| == |Concat(NestedToks(spec))|
  {
    if spec == [] {
    } else {
      var init, last := spec[..|spec| - 1], spec[|spec| - 1];
      CaptionsMatch(init);
      assert NestedCaptions(spec) == NestedCaptions(init) + [Captions(last.insns)];
      assert NestedToks(spec) == NestedToks(init) + [Toks(last.insns)];
      ConcatSnoc(NestedCaptions(init), Captions(last.insns));
      ConcatSnoc(NestedToks(init), Toks(last.insns));
    }
  }
}
