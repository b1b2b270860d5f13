/** Runs in which a call names any list leased since the last reset, also one whose lease
    has ended: which calls are safe, and that the buffer stays valid over all of them. */
module LeaseRuns {
  import opened TokenSeqs
  import opened Results
  import opened BufferState
  import opened TokenStore
  import opened LeasedBuffer
  import B = BufferRuns

  /** Lists are named by the order in which they were leased. */
  datatype Op =
    | Reset
    | ViewBlock
    | ViewInsn(block: nat, caption: Label)
    | Append(insn: nat, tok: Tok)
    | AddInsn(block: nat, insn: nat)
    | AddBlock(block: nat, addr: Label)

  /** A block list: its metatokens and the instruction list it has leased. */
  datatype BlockInfo = BlockInfo(types: nat, insn: Option<nat>)

  datatype InsnInfo = InsnInfo(parent: nat, types: nat, readonly: bool, released: bool)

  /** What the buffer carries, every list leased since the last reset, and the block list
      that holds the lease. */
  datatype Machine = Machine(state: State, blocks: seq<BlockInfo>, insns: seq<InsnInfo>, live: Option<nat>)

  const START := Machine(EMPTY, [], [], None)

  /** Every name is that of a list. */
  predicate Named(m: Machine) {
    && (m.live.Some? ==> m.live.value < |m.blocks|)
    && (forall k :: 0 <= k < |m.insns| ==> m.insns[k].parent < |m.blocks|)
  }

  predicate Exists(m: Machine, op: Op) {
    match op
    case ViewInsn(b, _) => b < |m.blocks|
    case Append(i, _) => i < |m.insns|
    case AddInsn(b, i) => b < |m.blocks| && i < |m.insns|
    case AddBlock(b, _) => b < |m.blocks|
    case _ => true
  }

  /** The instruction list's block is leased, and leases it. */
  predicate IsLive(m: Machine, i: nat)
    requires Named(m) && i < |m.insns|
  {
    m.live == Some(m.insns[i].parent) && m.blocks[m.insns[i].parent].insn == Some(i)
  }

  predicate HasLease(m: Machine, i: nat)
    requires Named(m) && i < |m.insns|
  {
    m.live.Some? && m.blocks[m.insns[i].parent].insn.Some?
  }

  /** A call that keeps the buffer valid. A list whose lease has ended may still be added
      while it is empty, and an ended instruction list may be appended to, and added, where
      that is refused. A filled block list may not be added again, and an instruction list
      that ended without being committed may not be written while another one is leased. */
  predicate Safe(m: Machine, op: Op)
    requires Named(m) && Exists(m, op)
  {
    match op
    case Reset => true
    case ViewBlock => true
    case ViewInsn(b, _) => m.live == Some(b)
    case Append(i, _) => m.insns[i].readonly || !HasLease(m, i) || IsLive(m, i)
    case AddInsn(b, i) =>
      && m.live == Some(b)
      && (m.insns[i].types == 0 || m.insns[i].released
          || (if m.insns[i].parent == b then m.blocks[b].insn.None? || IsLive(m, i) else m.blocks[b].insn.Some?))
    case AddBlock(b, _) => m.live == Some(b) || m.blocks[b].types == 0
  }

  /** What a call does. */
  function Step(m: Machine, op: Op): (r: Machine)
    requires Named(m) && Exists(m, op)
    ensures Named(r)
  {
    match op
    case Reset => START
    case ViewBlock =>
      if m.live.Some? then m
      else Machine(B.Step(m.state, B.ViewBlock), m.blocks + [BlockInfo(0, None)], m.insns, Some(|m.blocks|))
    case ViewInsn(b, caption) =>
      if m.live != Some(b) || m.blocks[b].insn.Some? then m
      else Machine(B.Step(m.state, B.ViewInsn(caption)), m.blocks[b := m.blocks[b].(insn := Some(|m.insns|))],
                   m.insns + [InsnInfo(b, 0, false, false)], m.live)
    case Append(i, t) =>
      if !IsLive(m, i) then m
      else m.(state := B.Step(m.state, B.Append(t)), insns := m.insns[i := m.insns[i].(types := m.insns[i].types + 1)])
    case AddInsn(b, i) =>
      var x := m.insns[i];
      if m.live != Some(b) || x.parent != b || (x.types != 0 && !IsLive(m, i)) then m
      else Machine(if IsLive(m, i) then B.Step(m.state, B.AddInsn) else InsnClosed(m.state),
                   m.blocks[b := BlockInfo(m.blocks[b].types + x.types, None)],
                   m.insns[i := x.(readonly := true, released := x.released || x.types != 0)], m.live)
    case AddBlock(b, addr) =>
      m.(state := if m.live == Some(b) then B.Step(m.state, B.AddBlock(addr)) else BlockClosed(m.state), live := None)
  }

  function RunOf(ops: seq<Op>): (m: Machine)
    ensures Named(m)
  {
    if ops == [] then START
    else
      var init := RunOf(ops[..|ops| - 1]);
      if Exists(init, ops[|ops| - 1]) then Step(init, ops[|ops| - 1]) else init
  }

  /** Every call of the run names an existing list and is safe. */
  predicate SafeRun(ops: seq<Op>) {
    ops == []
    || (var init, op := ops[..|ops| - 1], ops[|ops| - 1];
        SafeRun(init) && Exists(RunOf(init), op) && Safe(RunOf(init), op))
  }

  // ---- the lists themselves ----

  ghost predicate BlockLinked(f: FunctionTokenList, b: BlockTokenList, insns: seq<InsnTokenList>, x: BlockInfo)
    reads b
  {
    && b.viewParent == f && b.lastIndex == x.types
    && (x.insn.None? ==> b.viewChild == null)
    && (x.insn.Some? ==> x.insn.value < |insns| && b.viewChild == insns[x.insn.value])
  }

  ghost predicate InsnLinked(blocks: seq<BlockTokenList>, i: InsnTokenList, x: InsnInfo)
    reads i
  {
    && x.parent < |blocks| && i.viewParent == blocks[x.parent]
    && i.lastIndex == x.types && i.readonly == x.readonly && i.lookupReleased == x.released
  }

  predicate AllDifferent<T(==)>(s: seq<T>) {
    forall j, k :: 0 <= j < k < |s| ==> s[j] != s[k]
  }

  /** The lists are those of the machine, in every field the machine speaks of. */
  ghost predicate ListsLinked(f: FunctionTokenList, blocks: seq<BlockTokenList>, insns: seq<InsnTokenList>, m: Machine)
    reads f, blocks, insns
  {
    && Named(m) && |blocks| == |m.blocks| && |insns| == |m.insns|
    && AllDifferent(blocks) && AllDifferent(insns)
    && (m.live.None? ==> f.viewChild == null)
    && (m.live.Some? ==> f.viewChild == blocks[m.live.value])
    && (forall k :: 0 <= k < |blocks| ==> BlockLinked(f, blocks[k], insns, m.blocks[k]))
    && (forall k :: 0 <= k < |insns| ==> InsnLinked(blocks, insns[k], m.insns[k]))
  }

  ghost predicate Linked(f: FunctionTokenList, blocks: seq<BlockTokenList>, insns: seq<InsnTokenList>, m: Machine)
    reads f, blocks, insns, f.viewChild, if f.viewChild == null then null else f.viewChild.viewChild
    reads f.store.tokenIds, f.store.typeIds, f.store.startLookup, f.store.insnMetaRuns, f.store.insnIdxRuns, f.store.insnStrs
    reads f.store.blockInsnRuns, f.store.blockMetaRuns, f.store.blockAddrs
  {
    f.Valid() && f.state == m.state && ListsLinked(f, blocks, insns, m)
  }

  lemma LinkedParts(f: FunctionTokenList, blocks: seq<BlockTokenList>, insns: seq<InsnTokenList>, m: Machine, i: nat)
    requires Linked(f, blocks, insns, m) && i < |insns|
    ensures |m.insns| == |insns| && |m.blocks| == |blocks| && m.insns[i].parent < |blocks|
    ensures insns[i].viewParent == blocks[m.insns[i].parent] && insns[i].viewParent.viewParent == f
    ensures insns[i].HasLease() <==> HasLease(m, i)
    ensures IsLive(m, i) ==> insns[i].IsLive()
    ensures insns[i].readonly == m.insns[i].readonly
  {
    hide Store.Valid, FunctionTokenList.Core;
    var p := m.insns[i].parent;
    assert BlockLinked(f, blocks[p], insns, m.blocks[p]);
    assert InsnLinked(blocks, insns[i], m.insns[i]);
  }

  lemma LiveParts(f: FunctionTokenList, blocks: seq<BlockTokenList>, insns: seq<InsnTokenList>, m: Machine)
    requires Linked(f, blocks, insns, m)
    ensures m.live.None? <==> f.viewChild == null
    ensures m.live.None? <==> m.state.open.NoBlock?
    ensures m.live.Some? ==> m.live.value < |blocks| && blocks[m.live.value].Live()
    ensures m.live.Some? ==> (m.blocks[m.live.value].insn.None? <==> m.state.open.insn.NoInsn?)
  {
    hide Store.Valid, FunctionTokenList.Core;
    if m.live.Some? {
      assert BlockLinked(f, blocks[m.live.value], insns, m.blocks[m.live.value]);
    }
  }

  method CallViewBlock(f: FunctionTokenList, blocks: seq<BlockTokenList>, ghost insns: seq<InsnTokenList>, ghost m: Machine)
    returns (after: seq<BlockTokenList>)
    requires Linked(f, blocks, insns, m)
    modifies f
    ensures Linked(f, after, insns, Step(m, ViewBlock)) && f.store == old(f.store)
    ensures forall b :: b in after ==> b in blocks || fresh(b)
  {
    hide Store.Valid, FunctionTokenList.Core;
    LiveParts(f, blocks, insns, m);
    ghost var r := Step(m, ViewBlock);
    var status, view := f.View();
    after := blocks;
    if view != null {
      after := blocks + [view];
      assert BlockToks(r.state) == [];
    }
    forall k | 0 <= k < |blocks|
      ensures BlockLinked(f, blocks[k], insns, m.blocks[k]) && blocks[k] != view
    {
    }
    forall k | 0 <= k < |insns|
      ensures InsnLinked(after, insns[k], m.insns[k])
    {
      assert InsnLinked(blocks, insns[k], m.insns[k]);
    }
  }

  method CallViewInsn(f: FunctionTokenList, ghost blocks: seq<BlockTokenList>, insns: seq<InsnTokenList>, ghost m: Machine,
                      block: BlockTokenList, ghost b: nat, caption: Label)
    returns (after: seq<InsnTokenList>)
    requires Linked(f, blocks, insns, m) && b < |blocks| && block == blocks[b] && Safe(m, ViewInsn(b, caption))
    modifies f`state, block`viewChild, f.store.insnStrs
    ensures Linked(f, blocks, after, Step(m, ViewInsn(b, caption))) && f.store == old(f.store)
    ensures forall i :: i in after ==> i in insns || fresh(i)
  {
    hide Store.Valid, FunctionTokenList.Core;
    LiveParts(f, blocks, insns, m);
    assert BlockLinked(f, block, insns, m.blocks[b]);
    ghost var r := Step(m, ViewInsn(b, caption));
    var status, insn := block.View(caption);
    after := insns;
    if insn != null {
      after := insns + [insn];
    }
    forall k | 0 <= k < |blocks|
      ensures BlockLinked(f, blocks[k], after, r.blocks[k])
    {
    }
    forall k | 0 <= k < |insns|
      ensures InsnLinked(blocks, insns[k], m.insns[k]) && insns[k] != insn
    {
    }
  }

  method CallAppend(f: FunctionTokenList, ghost blocks: seq<BlockTokenList>, ghost insns: seq<InsnTokenList>, ghost m: Machine,
                    insn: InsnTokenList, ghost i: nat, t: Tok)
    requires Linked(f, blocks, insns, m) && i < |insns| && insn == insns[i] && Safe(m, Append(i, t))
    modifies insn`lastIndex, insn`view, insn.viewParent`view, f`store, f`state
    modifies f.store.tokenIds, f.store.typeIds, f.store.startLookup
    ensures Linked(f, blocks, insns, Step(m, Append(i, t))) && old(f.store).GrowsTo(f.store)
  {
    hide Store.Valid, FunctionTokenList.Core;
    LinkedParts(f, blocks, insns, m, i);
    ghost var r := Step(m, Append(i, t));
    var status := insn.Append(t);
    forall k | 0 <= k < |blocks|
      ensures BlockLinked(f, blocks[k], insns, r.blocks[k])
    {
    }
    forall k | 0 <= k < |insns|
      ensures InsnLinked(blocks, insns[k], r.insns[k])
    {
    }
  }

  /** How many metatokens the block list counts after an instruction's lease has ended. */
  lemma TypesAfter(s: State)
    requires WellFormed(s) && s.open.ABlock?
    ensures |BlockToks(InsnClosed(s))| == |BlockToks(s)|
    ensures InsnIsOpen(s) ==> |BlockToks(InsnAdded(s))| == |BlockToks(s)| + |OpenToks(s)|
  {
    if InsnIsOpen(s) {
      if OpenToks(s) == [] { InsnDroppedAxes(s); } else { InsnAddedParts(s); }
    }
  }

  /** What the machine says of the instruction list that is to be added. */
  lemma AddedInsn(f: FunctionTokenList, blocks: seq<BlockTokenList>, insns: seq<InsnTokenList>, m: Machine, b: nat, i: nat)
    requires Linked(f, blocks, insns, m) && b < |blocks| && i < |insns| && m.live == Some(b)
    ensures |m.blocks| == |blocks| && |m.insns| == |insns|
    ensures blocks[b].Live() && blocks[b].viewParent == f
    ensures insns[i].viewParent == blocks[b] <==> m.insns[i].parent == b
    ensures insns[i] == blocks[b].viewChild <==> IsLive(m, i)
    ensures blocks[b].viewChild == null <==> m.blocks[b].insn.None?
    ensures IsLive(m, i) ==> InsnIsOpen(m.state) && |OpenToks(m.state)| == m.insns[i].types && m.insns[i].parent == b
    ensures blocks[b].lastIndex == m.blocks[b].types == |BlockToks(m.state)| && m.state.open.ABlock?
    ensures insns[i].lastIndex == m.insns[i].types && insns[i].lookupReleased == m.insns[i].released
    ensures insns[i].readonly == m.insns[i].readonly
    ensures WellFormed(m.state) && AllDifferent(blocks) && AllDifferent(insns)
    ensures m.insns[i].parent < |blocks| && insns[i].viewParent == blocks[m.insns[i].parent]
    ensures m.blocks[b].insn.Some? ==> m.blocks[b].insn.value < |insns| && blocks[b].viewChild == insns[m.blocks[b].insn.value]
  {
    hide Store.Valid, FunctionTokenList.Core, BlockToks, WellFormed;
    assert BlockLinked(f, blocks[b], insns, m.blocks[b]);
    assert InsnLinked(blocks, insns[i], m.insns[i]);
    f.IsWellFormed();
    if m.blocks[b].insn.Some? {
      var v := m.blocks[b].insn.value;
      assert InsnLinked(blocks, insns[v], m.insns[v]);
    }
  }

  method CallAddInsn(f: FunctionTokenList, ghost blocks: seq<BlockTokenList>, ghost insns: seq<InsnTokenList>, ghost m: Machine,
                     block: BlockTokenList, ghost b: nat, insn: InsnTokenList, ghost i: nat)
    requires Linked(f, blocks, insns, m) && b < |blocks| && i < |insns| && block == blocks[b] && insn == insns[i]
    requires Safe(m, AddInsn(b, i))
    modifies f`state, block`lastIndex, block`insnCount, block`viewChild, insn`readonly, insn`lookupReleased
    modifies f.store.startLookup, f.store.insnMetaRuns, f.store.insnIdxRuns
    ensures Linked(f, blocks, insns, Step(m, AddInsn(b, i))) && f.store == old(f.store)
  {
    hide Store.Valid, FunctionTokenList.Core, BlockToks, OpenToks, InsnAdded, WellFormed, BlockLinked, InsnLinked;
    ghost var r := Step(m, AddInsn(b, i));
    AddedInsn(f, blocks, insns, m, b, i);
    TypesAfter(m.state);
    var status := block.AddInsn(insn);
    assert f.Valid() && f.state == r.state;
    assert block.lastIndex == |BlockToks(f.state)|;
    forall k | 0 <= k < |blocks|
      ensures BlockLinked(f, blocks[k], insns, r.blocks[k])
    {
      if k == b {
        IsBlockLinked(f, block, insns, r.blocks[b]);
      } else {
        assert BlockLinked(f, blocks[k], insns, m.blocks[k]);
      }
    }
    forall k | 0 <= k < |insns|
      ensures InsnLinked(blocks, insns[k], r.insns[k])
    {
      if k == i {
        IsInsnLinked(blocks, insn, r.insns[i]);
      } else {
        assert InsnLinked(blocks, insns[k], m.insns[k]);
      }
    }
  }

  lemma IsBlockLinked(f: FunctionTokenList, b: BlockTokenList, insns: seq<InsnTokenList>, x: BlockInfo)
    requires b.viewParent == f && b.lastIndex == x.types
    requires x.insn.None? ==> b.viewChild == null
    requires x.insn.Some? ==> x.insn.value < |insns| && b.viewChild == insns[x.insn.value]
    ensures BlockLinked(f, b, insns, x)
  {
  }

  lemma IsInsnLinked(blocks: seq<BlockTokenList>, i: InsnTokenList, x: InsnInfo)
    requires x.parent < |blocks| && i.viewParent == blocks[x.parent]
    requires i.lastIndex == x.types && i.readonly == x.readonly && i.lookupReleased == x.released
    ensures InsnLinked(blocks, i, x)
  {
  }

  method CallAddBlock(f: FunctionTokenList, ghost blocks: seq<BlockTokenList>, ghost insns: seq<InsnTokenList>, ghost m: Machine,
                      block: BlockTokenList, ghost b: nat, addr: Label)
    requires Linked(f, blocks, insns, m) && b < |blocks| && block == blocks[b] && Safe(m, AddBlock(b, addr))
    modifies f, block`readonly
    modifies f.store.startLookup, f.store.blockInsnRuns, f.store.blockMetaRuns, f.store.blockAddrs
    ensures Linked(f, blocks, insns, Step(m, AddBlock(b, addr))) && f.store == old(f.store)
  {
    hide Store.Valid, FunctionTokenList.Core;
    LiveParts(f, blocks, insns, m);
    assert BlockLinked(f, block, insns, m.blocks[b]);
    var status := f.AddBlock(block, addr);
    forall k | 0 <= k < |blocks|
      ensures BlockLinked(f, blocks[k], insns, m.blocks[k])
    {
    }
    forall k | 0 <= k < |insns|
      ensures InsnLinked(blocks, insns[k], m.insns[k])
    {
    }
  }

  lemma {:induction false} SafePrefix(ops: seq<Op>, k: nat)
    requires SafeRun(ops) && k < |ops|
    ensures var m := RunOf(ops[..k]);
      Exists(m, ops[k]) && Safe(m, ops[k]) && RunOf(ops[..k + 1]) == Step(m, ops[k])
  {
    hide Exists, Safe, Step;
    var n := |ops| - 1;
    if k == n {
      assert ops[..k + 1] == ops;
    } else {
      SafePrefix(ops[..n], k);
      assert ops[..n][..k] == ops[..k] && ops[..n][..k + 1] == ops[..k + 1];
    }
  }

  lemma NamedLists(f: FunctionTokenList, blocks: seq<BlockTokenList>, insns: seq<InsnTokenList>, m: Machine)
    requires Linked(f, blocks, insns, m)
    ensures |blocks| == |m.blocks| && |insns| == |m.insns| && f.Valid() && Named(m)
  {
  }

  lemma ResetStarts(m: Machine)
    requires Named(m)
    ensures Step(m, Reset) == START
  {
  }

  method CallReset(f: FunctionTokenList)
    requires f.Shaped()
    modifies f, f.store.insnStrs, f.store.blockAddrs
    ensures Linked(f, [], [], START) && f.store == old(f.store)
  {
    hide Store.Valid, FunctionTokenList.Core;
    f.Reset();
  }

  /** One call on the lists it names. */
  method Call(f: FunctionTokenList, op: Op, blocks: seq<BlockTokenList>, insns: seq<InsnTokenList>, ghost m: Machine)
    returns (blocksAfter: seq<BlockTokenList>, insnsAfter: seq<InsnTokenList>)
    requires Linked(f, blocks, insns, m) && Exists(m, op) && Safe(m, op)
    modifies f, f.store.tokenIds, f.store.typeIds, f.store.startLookup, f.store.insnMetaRuns, f.store.insnIdxRuns
    modifies f.store.insnStrs, f.store.blockInsnRuns, f.store.blockMetaRuns, f.store.blockAddrs
    modifies blocks, insns
    ensures Linked(f, blocksAfter, insnsAfter, Step(m, op)) && old(f.store).GrowsTo(f.store)
    ensures forall j :: 0 <= j < |blocksAfter| ==> blocksAfter[j] in blocks || fresh(blocksAfter[j])
    ensures forall j :: 0 <= j < |insnsAfter| ==> insnsAfter[j] in insns || fresh(insnsAfter[j])
  {
    hide Step, Safe, Linked, Store.Valid, FunctionTokenList.Core, FunctionTokenList.Valid, ListsLinked;
    NamedLists(f, blocks, insns, m);
    blocksAfter, insnsAfter := blocks, insns;
    match op
    case Reset =>
      f.HasShape();
      ResetStarts(m);
      CallReset(f);
      blocksAfter, insnsAfter := [], [];
    case ViewBlock =>
      blocksAfter := CallViewBlock(f, blocks, insns, m);
    case ViewInsn(b, caption) =>
      assert blocks[b] in blocks;
      insnsAfter := CallViewInsn(f, blocks, insns, m, blocks[b], b, caption);
    case Append(i, t) =>
      LinkedParts(f, blocks, insns, m, i);
      assert insns[i].viewParent in blocks && insns[i] in insns;
      CallAppend(f, blocks, insns, m, insns[i], i, t);
    case AddInsn(b, i) =>
      assert blocks[b] in blocks && insns[i] in insns;
      CallAddInsn(f, blocks, insns, m, blocks[b], b, insns[i], i);
    case AddBlock(b, addr) =>
      assert blocks[b] in blocks;
      CallAddBlock(f, blocks, insns, m, blocks[b], b, addr);
  }

  /** Any safe run over any lists leased since the last reset, whatever the buffer held
      before: it stays valid and carries exactly the state of the run. */
  method Execute(f: FunctionTokenList, ops: seq<Op>)
    requires f.Shaped() && SafeRun(ops)
    modifies f, f.store.tokenIds, f.store.typeIds, f.store.startLookup, f.store.insnMetaRuns, f.store.insnIdxRuns
    modifies f.store.insnStrs, f.store.blockInsnRuns, f.store.blockMetaRuns, f.store.blockAddrs
    ensures f.Valid() && f.state == RunOf(ops).state
    ensures old(f.store).GrowsTo(f.store)
  {
    hide RunOf, SafeRun, Step, Safe, Exists, Linked, Store.Valid, FunctionTokenList.Core, FunctionTokenList.Valid;
    hide ListsLinked, BlockLinked, InsnLinked, AllDifferent, Named;
    NoCalls();
    assert ops[..0] == [];
    CallReset(f);
    var blocks: seq<BlockTokenList>, insns: seq<InsnTokenList> := [], [];
    for k := 0 to |ops|
      invariant Linked(f, blocks, insns, RunOf(ops[..k]))
      invariant old(f.store).GrowsTo(f.store)
      invariant forall j :: 0 <= j < |blocks| ==> fresh(blocks[j])
      invariant forall j :: 0 <= j < |insns| ==> fresh(insns[j])
    {
      SafePrefix(ops, k);
      blocks, insns := Call(f, ops[k], blocks, insns, RunOf(ops[..k]));
    }
    assert ops[..|ops|] == ops;
    LinkedState(f, blocks, insns, RunOf(ops));
  }

  lemma LinkedState(f: FunctionTokenList, blocks: seq<BlockTokenList>, insns: seq<InsnTokenList>, m: Machine)
    requires Linked(f, blocks, insns, m)
    ensures f.Valid() && f.state == m.state
  {
  }

  // ---- what an ended list can do ----

  lemma OneMore(ops: seq<Op>, op: Op)
    requires SafeRun(ops) && Exists(RunOf(ops), op) && Safe(RunOf(ops), op)
    ensures SafeRun(ops + [op]) && RunOf(ops + [op]) == Step(RunOf(ops), op)
  {
    assert (ops + [op])[..|ops|] == ops;
  }

  const EMPTIED: seq<Op> := [ViewBlock, AddBlock(0, Unset), ViewBlock]

  function Filled(t: Tok): seq<Op> { EMPTIED + [ViewInsn(1, Unset)] + [Append(0, t)] + [AddInsn(1, 0)] }

  lemma OneEnded()
    ensures SafeRun(EMPTIED)
    ensures RunOf(EMPTIED) == Machine(BlockViewed(EMPTY), [BlockInfo(0, None), BlockInfo(0, None)], [], Some(1))
  {
    hide RunOf, SafeRun;
    NoCalls();
    OneMore([], ViewBlock);
    assert RunOf([] + [ViewBlock]) == Machine(BlockViewed(EMPTY), [BlockInfo(0, None)], [], Some(0));
    OneMore([] + [ViewBlock], AddBlock(0, Unset));
    assert RunOf([] + [ViewBlock] + [AddBlock(0, Unset)]) == Machine(EMPTY, [BlockInfo(0, None)], [], None);
    OneMore([] + [ViewBlock] + [AddBlock(0, Unset)], ViewBlock);
    assert EMPTIED == [] + [ViewBlock] + [AddBlock(0, Unset)] + [ViewBlock];
  }

  lemma OneFilled(t: Tok)
    ensures SafeRun(Filled(t)) && Named(RunOf(Filled(t)))
    ensures RunOf(Filled(t)) == Machine(EMPTY.(open := ABlock([[t]], [Unset], NoInsn)),
      [BlockInfo(0, None), BlockInfo(1, None)], [InsnInfo(1, 1, true, true)], Some(1))
  {
    hide RunOf, SafeRun;
    var none := BlockInfo(0, None);
    var leased := BlockInfo(0, Some(0));
    var c := EMPTIED + [ViewInsn(1, Unset)];
    var d := c + [Append(0, t)];
    OneEnded();
    OneMore(EMPTIED, ViewInsn(1, Unset));
    assert RunOf(c) == Machine(InsnViewed(BlockViewed(EMPTY), Unset), [none, leased], [InsnInfo(1, 0, false, false)], Some(1));
    OneMore(c, Append(0, t));
    assert [] + [t] == [t];
    assert RunOf(d) == Machine(EMPTY.(open := ABlock([], [], AnInsn(Unset, [t]))), [none, leased],
                               [InsnInfo(1, 1, false, false)], Some(1));
    OneMore(d, AddInsn(1, 0));
    assert [] + [[t]] == [[t]] && [] + [Unset] == [Unset];
    assert [none, leased][1 := BlockInfo(1, None)] == [none, BlockInfo(1, None)];
  }

  /** A list that was added while empty, added again while another one is leased, takes
      what that one holds with it: a safe run, in which the second block is lost. */
  lemma EndedListDropsAnother(t: Tok, addr: Label)
    ensures SafeRun(Filled(t) + [AddBlock(1, addr)])
    ensures RunOf(Filled(t) + [AddBlock(1, addr)]).state == State([[[t]]], [Unset], [addr], NoBlock)
    ensures SafeRun(Filled(t) + [AddBlock(0, addr)]) && RunOf(Filled(t) + [AddBlock(0, addr)]).state == EMPTY
  {
    hide RunOf, SafeRun, Filled;
    OneFilled(t);
    OneMore(Filled(t), AddBlock(0, addr));
    OneMore(Filled(t), AddBlock(1, addr));
    OneList(t);
  }

  lemma OneList(t: Tok)
    ensures Concat([[t]]) == [t]
  {
    ConcatSnoc([], [t]);
    assert [] + [[t]] == [[t]];
  }

  lemma NoCalls()
    ensures SafeRun([]) && RunOf([]) == START
  {
  }
}
