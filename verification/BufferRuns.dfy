/** Whole runs of buffer operations: what every run keeps, what a reset forgets, and
    which tokens a run can lose. */
module BufferRuns {
  import opened TokenSeqs
  import opened Results
  import opened BufferState
  import opened TokenStore
  import opened LeasedBuffer
  import opened FlatLayout
  import opened BufferProducer

  datatype Op = Reset | ViewBlock | ViewInsn(caption: Label) | Append(tok: Tok) | AddInsn | AddBlock(addr: Label)

  /** One call on the live lists; a refused call changes nothing. */
  function Step(s: State, op: Op): State {
    match op
    case Reset => EMPTY
    case ViewBlock => if s.open.NoBlock? then BlockViewed(s) else s
    case ViewInsn(caption) => if s.open.ABlock? && s.open.insn.NoInsn? then InsnViewed(s, caption) else s
    case Append(t) => if InsnIsOpen(s) then Appended(s, t) else s
    case AddInsn => if InsnIsOpen(s) then InsnAdded(s) else s
    case AddBlock(addr) => if s.open.ABlock? then BlockAdded(s, addr) else s
  }

  function Run(s: State, ops: seq<Op>): State {
    if ops == [] then s else Step(Run(s, ops[..|ops| - 1]), ops[|ops| - 1])
  }

  /** Every metatoken the buffer holds, committed or still leased. */
  function Held(s: State): seq<Tok> {
    CommittedToks(s) + BlockToks(s) + OpenToks(s)
  }

  /** The metatokens accepted since the last reset, after one more call. */
  function AcceptedBy(before: seq<Tok>, s: State, op: Op): seq<Tok> {
    match op
    case Reset => []
    case Append(t) => if InsnIsOpen(s) then before + [t] else before
    case _ => before
  }

  function Accepted(s: State, ops: seq<Op>): seq<Tok> {
    if ops == [] then []
    else
      var init := ops[..|ops| - 1];
      AcceptedBy(Accepted(s, init), Run(s, init), ops[|ops| - 1])
  }

  /** How many of them were in an instruction that was still open when its block was
      added, after one more call. */
  function LostBy(before: nat, s: State, op: Op): nat {
    match op
    case Reset => 0
    case AddBlock(_) => before + |OpenToks(s)|
    case _ => before
  }

  function Lost(s: State, ops: seq<Op>): nat {
    if ops == [] then 0
    else
      var init := ops[..|ops| - 1];
      LostBy(Lost(s, init), Run(s, init), ops[|ops| - 1])
  }

  lemma StepKeepsWellFormed(s: State, op: Op)
    requires WellFormed(s)
    ensures WellFormed(Step(s, op))
  {
    match op
    case Reset => EmptyAxes(EMPTY);
    case ViewBlock => if s.open.NoBlock? { BlockViewedAxes(s); }
    case ViewInsn(caption) => if s.open.ABlock? && s.open.insn.NoInsn? { InsnViewedAxes(s, caption); }
    case Append(t) => if InsnIsOpen(s) { AppendedParts(s, t); }
    case AddInsn =>
      if InsnIsOpen(s) {
        if OpenToks(s) == [] { InsnDroppedAxes(s); } else { InsnAddedParts(s); }
      }
    case AddBlock(addr) =>
      if s.open.ABlock? {
        if BlockToks(s) == [] { BlockDroppedAxes(s, addr); } else { BlockAddedParts(s, addr); }
      }
  }

  /** No run ever commits an empty instruction or an empty block. */
  lemma {:induction false} RunKeepsWellFormed(s: State, ops: seq<Op>)
    requires WellFormed(s)
    ensures WellFormed(Run(s, ops))
  {
    if ops == [] {
    } else {
      RunKeepsWellFormed(s, ops[..|ops| - 1]);
      StepKeepsWellFormed(Run(s, ops[..|ops| - 1]), ops[|ops| - 1]);
    }
  }

  /** Nothing from before the last reset is left. */
  lemma {:induction false} ResetForgets(s: State, before: seq<Op>, after: seq<Op>)
    ensures Run(s, before + [Reset] + after) == Run(EMPTY, after)
  {
    var ops := before + [Reset] + after;
    if after == [] {
      assert ops[|ops| - 1] == Reset;
    } else {
      var init := after[..|after| - 1];
      ResetForgets(s, before, init);
      assert ops[..|ops| - 1] == before + [Reset] + init;
    }
  }

  lemma StepHeld(s: State, op: Op)
    requires WellFormed(s)
    ensures Held(Step(s, op)) ==
            match op
            case Reset => []
            case Append(t) => if InsnIsOpen(s) then Held(s) + [t] else Held(s)
            case AddBlock(_) => if s.open.ABlock? then CommittedToks(s) + BlockToks(s) else Held(s)
            case _ => Held(s)
  {
    hide CommittedToks, BlockToks;
    match op
    case Reset => assert Held(EMPTY) == [] by { NothingHeld(); }
    case ViewBlock =>
      if s.open.NoBlock? {
        BlockViewedAxes(s);
        assert BlockToks(s) == [] by { NoBlockToks(s); }
      }
    case ViewInsn(caption) => if s.open.ABlock? && s.open.insn.NoInsn? { InsnViewedAxes(s, caption); }
    case Append(t) => if InsnIsOpen(s) { AppendedParts(s, t); }
    case AddInsn =>
      if InsnIsOpen(s) {
        if OpenToks(s) == [] { InsnDroppedAxes(s); } else { InsnAddedParts(s); }
      }
    case AddBlock(addr) =>
      if s.open.ABlock? {
        if BlockToks(s) == [] { BlockDroppedAxes(s, addr); } else { BlockAddedParts(s, addr); }
      }
  }

  lemma NothingHeld()
    ensures Held(EMPTY) == []
  {
    assert CommittedInsns(EMPTY) == [];
  }

  lemma NoBlockToks(s: State)
    requires s.open.NoBlock?
    ensures BlockToks(s) == []
  {
  }

  /** Conservation over every run: what was accepted is held or was lost with an
      instruction that was never added. */
  lemma {:induction false} Conservation(ops: seq<Op>)
    ensures |Held(Run(EMPTY, ops))| + Lost(EMPTY, ops) == |Accepted(EMPTY, ops)|
    ensures Lost(EMPTY, ops) == 0 ==> Held(Run(EMPTY, ops)) == Accepted(EMPTY, ops)
  {
    NothingHeld();
    if ops == [] {
    } else {
      var init, op := ops[..|ops| - 1], ops[|ops| - 1];
      Conservation(init);
      assert WellFormed(EMPTY);
      RunKeepsWellFormed(EMPTY, init);
      StepHeld(Run(EMPTY, init), op);
    }
  }

  /** The buffer holds exactly the accepted metatokens, in order, if and only if no
      block was added while one of its instructions still held metatokens. */
  lemma HeldIsAccepted(ops: seq<Op>)
    ensures Held(Run(EMPTY, ops)) == Accepted(EMPTY, ops) <==> Lost(EMPTY, ops) == 0
  {
    Conservation(ops);
  }

  /** Adding a block whose instruction was never added: one metatoken is lost. */
  lemma LosesOpenInsn(t: Tok)
    ensures var ops := [ViewBlock, ViewInsn(Unset), Append(t), AddBlock(Unset)];
      && Lost(EMPTY, ops) == 1 && Accepted(EMPTY, ops) == [t] && Held(Run(EMPTY, ops)) == []
  {
    hide Run, Accepted, Lost;
    var leased := ABlock([], [], AnInsn(Unset, [t]));
    var a: seq<Op> := [ViewBlock];
    var b := a + [ViewInsn(Unset)];
    var c := b + [Append(t)];
    NoOps();
    RunSnoc([], ViewBlock);
    assert [] + [ViewBlock] == a;
    RunSnoc(a, ViewInsn(Unset));
    RunSnoc(b, Append(t));
    assert [] + [t] == [t];
    assert Run(EMPTY, c) == EMPTY.(open := leased);
    RunSnoc(c, AddBlock(Unset));
    assert [ViewBlock, ViewInsn(Unset), Append(t), AddBlock(Unset)] == c + [AddBlock(Unset)];
    NothingHeld();
  }

  lemma NoOps()
    ensures Run(EMPTY, []) == EMPTY && Accepted(EMPTY, []) == [] && Lost(EMPTY, []) == 0
  {
  }

  /** All three for one more call. */
  lemma RunSnoc(ops: seq<Op>, op: Op)
    ensures Run(EMPTY, ops + [op]) == Step(Run(EMPTY, ops), op)
    ensures Accepted(EMPTY, ops + [op]) == AcceptedBy(Accepted(EMPTY, ops), Run(EMPTY, ops), op)
    ensures Lost(EMPTY, ops + [op]) == LostBy(Lost(EMPTY, ops), Run(EMPTY, ops), op)
  {
    assert (ops + [op])[..|ops|] == ops;
  }

  // ---- runs on the lists themselves ----

  /** One call on the list that is leased at its level; without one there is no list to
      call. A second lease is really asked for, and refused. */
  method Call(f: FunctionTokenList, op: Op)
    requires f.Valid()
    modifies f, f.store.tokenIds, f.store.typeIds, f.store.startLookup, f.store.insnMetaRuns, f.store.insnIdxRuns
    modifies f.store.insnStrs, f.store.blockInsnRuns, f.store.blockMetaRuns, f.store.blockAddrs
    modifies (if f.viewChild == null then {} else {f.viewChild})
    modifies (if f.viewChild == null || f.viewChild.viewChild == null then {} else {f.viewChild.viewChild})
    ensures f.Valid() && f.state == Step(old(f.state), op)
    ensures old(f.store).GrowsTo(f.store)
    ensures f.viewChild != null ==> f.viewChild == old(f.viewChild) || fresh(f.viewChild)
    ensures f.viewChild != null && f.viewChild.viewChild != null ==>
      f.viewChild.viewChild == old(if f.viewChild == null then null else f.viewChild.viewChild) || fresh(f.viewChild.viewChild)
  {
    hide Store.Valid, FunctionTokenList.Core, BlockAdded, InsnAdded, Appended;
    var status;
    match op
    case Reset =>
      f.HasShape();
      f.Reset();
    case ViewBlock =>
      var view;
      status, view := f.View();
    case ViewInsn(caption) =>
      if f.viewChild != null {
        var insn;
        status, insn := f.viewChild.View(caption);
      }
    case Append(t) =>
      if f.viewChild != null && f.viewChild.viewChild != null {
        status := f.viewChild.viewChild.Append(t);
      }
    case AddInsn =>
      if f.viewChild != null && f.viewChild.viewChild != null {
        status := f.viewChild.AddInsn(f.viewChild.viewChild);
      }
    case AddBlock(addr) =>
      if f.viewChild != null {
        status := f.AddBlock(f.viewChild, addr);
      }
  }

  /** Any run of calls, whatever the list held before: the arrays and counters carry
      exactly the state of the run. */
  method Execute(f: FunctionTokenList, ops: seq<Op>)
    requires f.Shaped()
    modifies f, f.store.tokenIds, f.store.typeIds, f.store.startLookup, f.store.insnMetaRuns, f.store.insnIdxRuns
    modifies f.store.insnStrs, f.store.blockInsnRuns, f.store.blockMetaRuns, f.store.blockAddrs
    ensures f.Valid() && f.state == Run(EMPTY, ops)
    ensures old(f.store).GrowsTo(f.store)
  {
    hide Run, Step, Store.Valid, FunctionTokenList.Core, FunctionTokenList.Valid;
    f.Reset();
    NoOps();
    assert ops[..0] == [];
    for k := 0 to |ops|
      invariant f.Valid() && f.state == Run(EMPTY, ops[..k])
      invariant old(f.store).GrowsTo(f.store)
      invariant f.viewChild != null ==> fresh(f.viewChild)
      invariant f.viewChild != null && f.viewChild.viewChild != null ==> fresh(f.viewChild.viewChild)
    {
      Call(f, ops[k]);
      TakeNext(ops, k);
      RunSnoc(ops[..k], ops[k]);
    }
    assert ops[..|ops|] == ops;
  }

  /** Reading the buffer back after any run yields what the run committed, nested as it was
      appended; it is refused exactly when a committed instruction occupies no token id. */
  method ExecuteAndRead(f: FunctionTokenList, ops: seq<Op>) returns (r: Result<Nested>)
    requires f.Shaped()
    modifies f, f.store.tokenIds, f.store.typeIds, f.store.startLookup, f.store.insnMetaRuns, f.store.insnIdxRuns
    modifies f.store.insnStrs, f.store.blockInsnRuns, f.store.blockMetaRuns, f.store.blockAddrs
    ensures var s := Run(EMPTY, ops);
      && WellFormed(s)
      && (r.Ok? <==> forall b :: b in s.blocks ==> HasIds(b))
      && (r.Ok? ==> r.value == Nested(s.blocks, LabelsByBlock(s.blocks, s.labels), s.addrs))
  {
    hide Run, HasIds, LabelsByBlock, FunctionTokenList.Core;
    Execute(f, ops);
    r := ReadBack(f);
  }

  /** Adding the same filled list twice: the second call is accepted and counts a block
      that was never filled, so the list no longer carries what was added. */
  method AddTwice(f: FunctionTokenList, caption: Label, t: Tok, addr: Label) returns (status: Status)
    requires f.Valid() && f.viewChild == null && f.blockCount + 1 < f.store.blockAddrs.Length
    modifies f, f.store.tokenIds, f.store.typeIds, f.store.startLookup, f.store.insnMetaRuns, f.store.insnIdxRuns
    modifies f.store.insnStrs, f.store.blockInsnRuns, f.store.blockMetaRuns, f.store.blockAddrs
    ensures status.Done? && !f.Valid()
    ensures |f.state.blocks| == old(f.blockCount) + 1 && f.blockCount == old(f.blockCount) + 2
  {
    hide Store.Valid, BlockAdded, InsnAppended, AppendedAll;
    f.Counters();
    ghost var s := f.state;
    var block;
    status, block := f.View();
    status := block.AppendAsInsn(caption, [t]);
    OneInsn(BlockViewed(s), caption, t, addr);
    status := f.AddBlock(block, addr);
    f.Counters();
    status := f.AddBlock(block, addr);
  }

  lemma OneInsn(s: State, caption: Label, t: Tok, addr: Label)
    requires s.open == ABlock([], [], NoInsn)
    ensures var r := InsnAppended(s, caption, [t]);
      && r.open.ABlock? && |BlockToks(r)| == 1
      && |BlockAdded(r, addr).blocks| == |s.blocks| + 1
  {
    assert [] + [[t]] == [[t]];
    ConcatSnoc([], [t]);
    assert [] + [t] == [t];
  }

  // ---- a producer's run ----

  function AppendOps(ts: seq<Tok>): seq<Op> {
    seq(|ts|, i requires 0 <= i < |ts| => Append(ts[i]))
  }

  function InsnOps(insns: seq<InsnSpec>): seq<Op> {
    if insns == [] then []
    else
      var last := insns[|insns| - 1];
      InsnOps(insns[..|insns| - 1]) + ([ViewInsn(last.caption)] + AppendOps(last.toks) + [AddInsn])
  }

  function BlockOps(spec: seq<BlockSpec>): seq<Op> {
    if spec == [] then []
    else
      var last := spec[|spec| - 1];
      BlockOps(spec[..|spec| - 1]) + ([ViewBlock] + InsnOps(last.insns) + [AddBlock(last.addr)])
  }

  lemma {:induction false} RunAppend(s: State, a: seq<Op>, b: seq<Op>)
    ensures Run(s, a + b) == Run(Run(s, a), b)
  {
    if b == [] {
      assert a + b == a;
    } else {
      var init := b[..|b| - 1];
      RunAppend(s, a, init);
      assert (a + b)[..|a + b| - 1] == a + init;
    }
  }

  lemma RunOne(s: State, op: Op)
    ensures Run(s, [op]) == Step(s, op)
  {
    assert [op][..0] == [];
  }

  lemma {:induction false} RunAppendOps(s: State, ts: seq<Tok>)
    requires InsnIsOpen(s)
    ensures Run(s, AppendOps(ts)) == AppendedAll(s, ts)
  {
    if ts == [] {
      assert s.open.insn.toks + ts == s.open.insn.toks;
    } else {
      var init, t := ts[..|ts| - 1], ts[|ts| - 1];
      RunAppendOps(s, init);
      assert AppendOps(ts)[..|ts| - 1] == AppendOps(init);
      SplitLast(ts);
      AppendAssoc(s.open.insn.toks, init, [t]);
    }
  }

  lemma RunInsnOps(s: State, x: InsnSpec)
    requires s.open.ABlock? && s.open.insn.NoInsn?
    ensures Run(s, [ViewInsn(x.caption)] + AppendOps(x.toks) + [AddInsn]) == InsnAppended(s, x.caption, x.toks)
  {
    hide Run;
    RunAppend(s, [ViewInsn(x.caption)] + AppendOps(x.toks), [AddInsn]);
    RunAppend(s, [ViewInsn(x.caption)], AppendOps(x.toks));
    RunOne(s, ViewInsn(x.caption));
    RunAppendOps(InsnViewed(s, x.caption), x.toks);
    RunOne(AppendedAll(InsnViewed(s, x.caption), x.toks), AddInsn);
    InsnAppendedByParts(s, x.caption, x.toks);
  }

  lemma {:induction false} RunAllInsnOps(spec: seq<BlockSpec>, insns: seq<InsnSpec>)
    ensures Run(HoldingOpen(spec, []), InsnOps(insns)) == HoldingOpen(spec, KeptInsns(insns))
  {
    hide HoldingOpen, KeptInsns, InsnAppended;
    if insns == [] {
      assert KeptInsns(insns) == [] by { KeptNone(); }
    } else {
      var init, x := insns[..|insns| - 1], insns[|insns| - 1];
      RunAllInsnOps(spec, init);
      RunAppend(HoldingOpen(spec, []), InsnOps(init), [ViewInsn(x.caption)] + AppendOps(x.toks) + [AddInsn]);
      IsOpen(spec, KeptInsns(init));
      RunInsnOps(HoldingOpen(spec, KeptInsns(init)), x);
      InsnStep(spec, insns, |init|);
      assert insns[..|insns|] == insns;
    }
  }

  lemma KeptNone()
    ensures KeptInsns([]) == []
  {
  }

  lemma IsOpen(spec: seq<BlockSpec>, insns: seq<InsnSpec>)
    ensures HoldingOpen(spec, insns).open.ABlock? && HoldingOpen(spec, insns).open.insn.NoInsn?
  {
  }

  /** The run a producer makes leaves its blocks, instructions and metatokens nested as
      they were appended, without the empty ones. */
  lemma {:induction false} ProducerRunNests(spec: seq<BlockSpec>)
    ensures Run(EMPTY, BlockOps(spec)) == Holding(KeptBlocks(spec))
  {
    if spec == [] {
      NothingHeldByProducer();
    } else {
      var init, b := spec[..|spec| - 1], spec[|spec| - 1];
      ProducerRunNests(init);
      ProducerRunStep(spec, init, b);
    }
  }

  lemma NothingHeldByProducer()
    ensures EMPTY == Holding(KeptBlocks([]))
  {
  }

  lemma ProducerRunStep(spec: seq<BlockSpec>, init: seq<BlockSpec>, b: BlockSpec)
    requires spec == init + [b] && Run(EMPTY, BlockOps(init)) == Holding(KeptBlocks(init))
    ensures Run(EMPTY, BlockOps(spec)) == Holding(KeptBlocks(spec))
  {
    hide Run, Holding, HoldingOpen, KeptInsns, KeptBlocks, InsnOps, BlockAdded;
    var s := Holding(KeptBlocks(init));
    assert spec[..|spec| - 1] == init;
    RunAppend(EMPTY, BlockOps(init), [ViewBlock] + InsnOps(b.insns) + [AddBlock(b.addr)]);
    RunAppend(s, [ViewBlock] + InsnOps(b.insns), [AddBlock(b.addr)]);
    RunAppend(s, [ViewBlock], InsnOps(b.insns));
    RunOne(s, ViewBlock);
    ClosedThenOpened(KeptBlocks(init));
    RunAllInsnOps(KeptBlocks(init), b.insns);
    RunOne(HoldingOpen(KeptBlocks(init), KeptInsns(b.insns)), AddBlock(b.addr));
    IsOpen(KeptBlocks(init), KeptInsns(b.insns));
    BlockStep(spec, |init|);
    assert spec[..|init|] == init && spec[..|spec|] == spec;
  }

  lemma ClosedThenOpened(spec: seq<BlockSpec>)
    ensures Holding(spec).open.NoBlock? && BlockViewed(Holding(spec)) == HoldingOpen(spec, [])
  {
    assert Toks([]) == [] && Captions([]) == [];
  }
}
