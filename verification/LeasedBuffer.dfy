/** The three-level leased token buffer. A function list leases its unused tail to
    one block list, which leases its own tail to one instruction list. All three
    write the same arrays; a view is an array together with a base offset. */
module LeasedBuffer {
  import opened TokenSeqs
  import opened BufferState
  import opened TokenStore
  import opened FlatLayout

  datatype Status = Done | Raised(error: string)

  class FunctionTokenList {
    var store: Store
    var lastIndex: nat
    var insnCount: nat
    var blockCount: nat
    var viewChild: BlockTokenList?

    ghost var state: State

    /** The list without its leases: arrays and counters carry `state`. */
    ghost predicate Core()
      reads this, store.tokenIds, store.typeIds, store.startLookup, store.insnMetaRuns, store.insnIdxRuns, store.insnStrs
      reads store.blockInsnRuns, store.blockMetaRuns, store.blockAddrs
    {
      && store.Valid(state)
      && lastIndex == |CommittedToks(state)|
      && insnCount == |CommittedInsns(state)|
      && blockCount == |state.blocks|
    }

    /** Every live view aims at where its leaseholder's data ends. */
    ghost predicate Valid()
      reads this, store.tokenIds, store.typeIds, store.startLookup, store.insnMetaRuns, store.insnIdxRuns, store.insnStrs
      reads store.blockInsnRuns, store.blockMetaRuns, store.blockAddrs
      reads viewChild, if viewChild == null then null else viewChild.viewChild
    {
      && Core()
      && (viewChild == null <==> state.open.NoBlock?)
      && (viewChild != null ==>
            && viewChild.AimedAt(this)
            && (viewChild.viewChild == null <==> state.open.insn.NoInsn?)
            && (viewChild.viewChild != null ==> viewChild.viewChild.AimedAt(viewChild, this)))
    }

    lemma IsWellFormed()
      requires Core()
      ensures WellFormed(state) && store.Shape()
    {
    }

    lemma HasShape()
      requires Core()
      ensures Shaped() && lastIndex <= store.startLookup.Length && blockCount <= store.blockAddrs.Length
    {
      hide IdsAxis, TypesAxis, StartsAxis, MetaAxis, IdxAxis, LabelAxis, CommittedToks, BlockToks, CommittedInsns;
      hide InsnCounts, BlockMetaCounts, WellFormed, OpenInsns, OpenToks, OpenLabels, OpenCaption, Ids;
      EndPositions(state);
    }

    lemma Counters()
      requires Core()
      ensures lastIndex == |CommittedToks(state)| && insnCount == |CommittedInsns(state)| && blockCount == |state.blocks|
    {
    }

    constructor (numBlocks: nat)
      ensures Valid() && state == EMPTY && viewChild == null
      ensures AllFresh(store)
    {
      var st := NewStore(numBlocks);
      store := st;
      lastIndex, insnCount, blockCount := 0, 0, 0;
      viewChild := null;
      state := EMPTY;
    }

    /** Arrays of the right shape, whatever they hold and whatever the counters say. */
    ghost predicate Shaped()
      reads this
    {
      store.Shape() && 0 < store.insnMetaRuns.Length && 0 < store.blockInsnRuns.Length
    }

    /** Forgets everything without giving up a slot of any array; nothing is expected of
        what the list held. */
    method Reset()
      requires Shaped()
      modifies this, store.insnStrs, store.blockAddrs
      ensures Valid() && state == EMPTY && viewChild == null
      ensures store == old(store)
      ensures forall i :: 0 <= i < store.insnStrs.Length ==> store.insnStrs[i] == Unset
      ensures forall i :: 0 <= i < store.blockAddrs.Length ==> store.blockAddrs[i] == Unset
    {
      EmptyIsValid(store);
      forall i | 0 <= i < store.insnStrs.Length { store.insnStrs[i] := Unset; }
      forall i | 0 <= i < store.blockAddrs.Length { store.blockAddrs[i] := Unset; }
      lastIndex, insnCount, blockCount := 0, 0, 0;
      viewChild := null;
      state := EMPTY;
      EmptyIsValid(store);
    }

    /** The end of the last committed metatoken, as the lookup array holds it. */
    function EndPosition(): (pos: nat)
      requires Core()
      reads this, store.tokenIds, store.typeIds, store.startLookup, store.insnMetaRuns, store.insnIdxRuns, store.insnStrs
      reads store.blockInsnRuns, store.blockMetaRuns, store.blockAddrs
      ensures pos == |Ids(CommittedToks(state))|
    {
      EndIs();
      if lastIndex > 0 then store.startLookup[lastIndex - 1] else 0
    }

    lemma EndIs()
      requires Core()
      ensures lastIndex > 0 ==>
        && lastIndex <= store.startLookup.Length
        && store.startLookup[lastIndex - 1] == |Ids(CommittedToks(state))|
      ensures lastIndex == 0 ==> Ids(CommittedToks(state)) == []
    {
      hide IdsAxis, TypesAxis, StartsAxis, MetaAxis, IdxAxis, LabelAxis, CommittedToks, BlockToks, CommittedInsns;
      hide InsnCounts, BlockMetaCounts, WellFormed, OpenInsns, OpenToks, OpenLabels, OpenCaption, Ids;
      EndPositions(state);
      if lastIndex > 0 {
        assert store.startLookup[lastIndex - 1] == StartsAxis(state)[lastIndex - 1];
      } else {
        IdsEmpty();
      }
    }

    /** The used part of every array; what the leases wrote lies behind it. */
    method GetUsedArrays() returns (used: Used)
      requires Core()
      ensures used == Used(FlatOf(state.blocks), state.labels, state.addrs)
    {
      hide IdsAxis, TypesAxis, StartsAxis, MetaAxis, IdxAxis, LabelAxis, CommittedToks, BlockToks, CommittedInsns;
      hide InsnCounts, BlockMetaCounts, OpenInsns, OpenToks, OpenLabels, OpenCaption, Ids, Types, Ends;
      var endPos := EndPosition();
      AxisParts(state);
      CommittedPrefix(store, state);
      FlatParts(state);
      return Used(
        Flat(store.tokenIds[..endPos], store.typeIds[..lastIndex], store.startLookup[..lastIndex],
             store.insnMetaRuns[..insnCount], store.insnIdxRuns[..insnCount],
             store.blockInsnRuns[..blockCount], store.blockMetaRuns[..blockCount]),
        store.insnStrs[..insnCount], store.blockAddrs[..blockCount]);
    }

    /** An independent copy: no array is shared, and an open lease is not carried over. */
    method Snapshot() returns (copy: FunctionTokenList)
      requires Core()
      ensures fresh(copy) && AllFresh(copy.store)
      ensures copy.Valid() && copy.state == BlockClosed(state)
    {
      hide IdsAxis, TypesAxis, StartsAxis, MetaAxis, IdxAxis, LabelAxis, CommittedToks, BlockToks, CommittedInsns;
      hide InsnCounts, BlockMetaCounts, WellFormed, OpenInsns, OpenToks, OpenLabels, OpenCaption, Ids, Store.Valid;
      IsWellFormed();
      ClosedAxes(state);
      var copied := CopyStore(store, state);
      copy := new FunctionTokenList(0);
      DropLeases(copied, state);
      copy.store := copied;
      copy.lastIndex, copy.insnCount, copy.blockCount := lastIndex, insnCount, blockCount;
      copy.state := BlockClosed(state);
    }

    /** Leases the remaining buffer to a new block list. */
    method View() returns (status: Status, view: BlockTokenList?)
      requires Valid()
      modifies this
      ensures Valid() && store == old(store)
      ensures old(viewChild) != null ==> status.Raised? && view == null && unchanged(this)
      ensures old(viewChild) == null ==>
        && status.Done? && view != null && fresh(view)
        && viewChild == view && view.viewChild == null
        && state == BlockViewed(old(state))
    {
      hide IdsAxis, TypesAxis, StartsAxis, MetaAxis, IdxAxis, LabelAxis, CommittedToks, BlockToks, CommittedInsns;
      hide InsnCounts, BlockMetaCounts, WellFormed, OpenInsns, OpenToks, OpenLabels, Ids, Store.Valid;
      IsWellFormed();
      if viewChild != null {
        return Raised("FunctionTokenList already has an active view child"), null;
      }
      var pos := EndPosition();
      var child := new BlockTokenList(this, pos);
      viewChild := child;
      BlockViewedAxes(state);
      LeaseBlock(store, state);
      state := BlockViewed(state);
      return Done, child;
    }

    /** Adds a block list. A list leased by someone else is refused while a lease is live.
        The live lease is committed, or dropped when it is empty. An empty list of this
        function ends whatever lease is live, also when its own lease ended before; an
        empty list of another function does nothing when nothing is leased. A list of this
        function that was added before and is not empty is counted once more, unless the
        block arrays are full. */
    method AddBlock(block: BlockTokenList, addr: Label) returns (status: Status)
      requires Valid()
      requires block.viewParent == this || viewChild != null || block.lastIndex == 0
      modifies this, block`readonly
      modifies store.startLookup, store.blockInsnRuns, store.blockMetaRuns, store.blockAddrs
      ensures store == old(store) && Shaped()
      ensures Valid() <==> status.Raised? || block == old(viewChild) || block.lastIndex == 0
      ensures block.viewParent != this ==>
        && unchanged(this, block)
        && unchanged(store.startLookup, store.blockInsnRuns, store.blockMetaRuns, store.blockAddrs)
        && (status.Raised? <==> viewChild != null)
      ensures block.viewParent == this ==> viewChild == null && block.readonly
      ensures block.viewParent == this ==>
        state == if block == old(viewChild) then BlockAdded(old(state), addr) else BlockClosed(old(state))
      ensures block.viewParent == this && (block == old(viewChild) || block.lastIndex == 0) ==> status.Done?
      ensures block.viewParent == this && block != old(viewChild) && block.lastIndex != 0 ==>
        && (status.Raised? <==> old(blockCount) == store.blockAddrs.Length)
        && (status.Done? ==> CountsOneMore(old(lastIndex), old(insnCount), old(blockCount), block))
    {
      hide IdsAxis, TypesAxis, StartsAxis, MetaAxis, IdxAxis, LabelAxis, CommittedToks, BlockToks, CommittedInsns;
      hide InsnCounts, BlockMetaCounts, WellFormed, OpenInsns, OpenToks, OpenLabels, OpenCaption, Ids, Store.Valid;
      IsWellFormed();
      HasShape();
      Counters();
      if viewChild != null && block.viewParent != this {
        return Raised("Cannot add block while view child is active");
      }
      status := Done;
      if block.lastIndex == 0 {
        if block.viewParent == this {
          ReleaseView(block, addr);
        }
      } else if block == viewChild {
        CommitView(block, addr);
      } else {
        status := CountEnded(block, addr);
      }
    }

    /** The counters have moved on by what the block list counts. */
    ghost predicate CountsOneMore(types: nat, insns: nat, blocks: nat, block: BlockTokenList)
      reads this, block
    {
      lastIndex == types + block.lastIndex && insnCount == insns + block.insnCount && blockCount == blocks + 1
    }

    /** Adding a list whose lease has ended: what lies behind the committed data is shifted
        and counted as one more block. */
    method CountEnded(block: BlockTokenList, addr: Label) returns (status: Status)
      requires Valid() && block.viewParent == this && block != viewChild && block.lastIndex != 0
      modifies this, block`readonly
      modifies store.startLookup, store.blockInsnRuns, store.blockMetaRuns, store.blockAddrs
      ensures store == old(store) && viewChild == null && block.readonly
      ensures state == BlockClosed(old(state))
      ensures status.Raised? <==> old(blockCount) == store.blockAddrs.Length
      ensures status.Raised? ==> Valid()
      ensures status.Done? ==> CountsOneMore(old(lastIndex), old(insnCount), old(blockCount), block)
    {
      hide IdsAxis, TypesAxis, StartsAxis, MetaAxis, IdxAxis, LabelAxis, CommittedToks, BlockToks, CommittedInsns;
      hide InsnCounts, BlockMetaCounts, WellFormed, OpenInsns, OpenToks, OpenLabels, OpenCaption, Ids, Store.Valid;
      IsWellFormed();
      HasShape();
      Counters();
      var startPos := EndPosition();
      var newTypes := Min(block.lastIndex, store.startLookup.Length - lastIndex);
      ShiftBehind(store, state, lastIndex, newTypes, startPos);
      ClosedAxes(state);
      viewChild := null;
      block.readonly := true;
      state := BlockClosed(state);
      if blockCount >= store.blockAddrs.Length {
        return Raised("index out of bounds");
      }
      store.blockAddrs[blockCount] := addr;
      store.blockInsnRuns[blockCount] := block.insnCount;
      store.blockMetaRuns[blockCount] := block.lastIndex;
      lastIndex, insnCount, blockCount := lastIndex + block.lastIndex, insnCount + block.insnCount, blockCount + 1;
      return Done;
    }

    /** Ends the live lease on behalf of an empty list. */
    method ReleaseView(block: BlockTokenList, ghost addr: Label)
      requires Valid() && block.viewParent == this && block.lastIndex == 0
      modifies this, block`readonly
      ensures Valid() && viewChild == null && block.readonly
      ensures state == if block == old(viewChild) then BlockAdded(old(state), addr) else BlockClosed(old(state))
      ensures store == old(store)
    {
      hide IdsAxis, TypesAxis, StartsAxis, MetaAxis, IdxAxis, LabelAxis, CommittedToks, BlockToks, CommittedInsns;
      hide InsnCounts, BlockMetaCounts, WellFormed, OpenInsns, OpenToks, OpenLabels, OpenCaption, Ids, Store.Valid;
      IsWellFormed();
      if block == viewChild {
        EmptyBlockIsDropped(state, addr);
      }
      DropLeases(store, state);
      ClosedAxes(state);
      block.readonly := true;
      viewChild := null;
      state := BlockClosed(state);
    }

    /** The block's data is already in place: re-base its ends and count it. */
    method CommitView(block: BlockTokenList, addr: Label)
      requires Valid() && block == viewChild && block.lastIndex != 0
      modifies this, block`readonly
      modifies store.startLookup, store.blockInsnRuns, store.blockMetaRuns, store.blockAddrs
      ensures Valid() && viewChild == null && block.readonly
      ensures state == BlockAdded(old(state), addr)
      ensures store == old(store)
    {
      hide IdsAxis, TypesAxis, StartsAxis, MetaAxis, IdxAxis, LabelAxis, CommittedToks, BlockToks, CommittedInsns;
      hide InsnCounts, BlockMetaCounts, WellFormed, OpenInsns, OpenToks, OpenLabels, OpenCaption, Ids, Store.Valid, BlockAdded;
      IsWellFormed();
      var newTypes, newInsns := block.lastIndex, block.insnCount;
      var startPos := EndPosition();
      BlockAddedParts(state, addr);
      CommitBlock(store, state, addr, lastIndex, newTypes, newInsns, startPos, blockCount);
      viewChild := null;
      block.readonly := true;
      lastIndex, insnCount, blockCount := lastIndex + newTypes, insnCount + newInsns, blockCount + 1;
      state := BlockAdded(state, addr);
    }

    /** Grows the arrays for the leaseholder and re-aims it at the new ones; without a
        leaseholder the request is refused. */
    method ResizeViewArrays(tokensNeeded: nat, typesNeeded: nat, insnsNeeded: nat) returns (status: Status)
      requires viewChild != null ==> Core() && insnCount + insnsNeeded == |MetaAxis(state)| + 1
      modifies this`store, (if viewChild == null then {} else {viewChild})`view
      ensures status.Raised? <==> viewChild == null
      ensures viewChild == null ==> unchanged(this)
      ensures viewChild != null ==>
        && Core() && old(store).GrowsTo(store)
        && viewChild.view == Tail(store, |Ids(CommittedToks(state))|, lastIndex, insnCount)
        && viewChild.view.tokenBase + tokensNeeded <= store.tokenIds.Length
        && lastIndex + typesNeeded <= store.typeIds.Length
        && insnCount + insnsNeeded < store.insnMetaRuns.Length
        && blockCount < store.blockInsnRuns.Length
    {
      hide IdsAxis, TypesAxis, StartsAxis, MetaAxis, IdxAxis, LabelAxis, CommittedToks, BlockToks, CommittedInsns;
      hide InsnCounts, BlockMetaCounts, WellFormed, OpenInsns, OpenToks, OpenLabels, Ids;
      if viewChild == null {
        return Raised("No active view child");
      }
      hide Store.Valid;
      var pos := EndPosition();
      store := EnsureStore(store, state, pos, tokensNeeded, lastIndex, typesNeeded, insnCount, insnsNeeded, blockCount);
      viewChild.view := Tail(store, pos, lastIndex, insnCount);
      return Done;
    }
  }

  /** Array views that share their starting points: the leased tail of a buffer. */
  datatype View = Tail(store: Store, tokenBase: nat, typeBase: nat, insnBase: nat)

  class BlockTokenList {
    var view: View
    var lastIndex: nat
    var insnCount: nat
    var viewChild: InsnTokenList?
    var viewParent: FunctionTokenList
    var readonly: bool

    /** This list's views start exactly where the function's committed data ends. */
    ghost predicate AimedAt(f: FunctionTokenList)
      reads this, f
    {
      && viewParent == f && !readonly
      && view == Tail(f.store, |Ids(CommittedToks(f.state))|, |CommittedToks(f.state)|, |CommittedInsns(f.state)|)
      && lastIndex == |BlockToks(f.state)|
      && insnCount == |OpenInsns(f.state)|
    }

    constructor (f: FunctionTokenList, pos: nat)
      ensures viewParent == f && !readonly && viewChild == null && lastIndex == 0 && insnCount == 0
      ensures view == Tail(f.store, pos, f.lastIndex, f.insnCount)
    {
      view := Tail(f.store, pos, f.lastIndex, f.insnCount);
      lastIndex, insnCount := 0, 0;
      viewChild, viewParent, readonly := null, f, false;
    }

    /** This list is the live lease of a valid function list. */
    ghost predicate Live()
      reads this, viewParent, viewParent.store.tokenIds, viewParent.store.typeIds, viewParent.store.startLookup
      reads viewParent.store.insnMetaRuns, viewParent.store.insnIdxRuns, viewParent.store.insnStrs
      reads viewParent.store.blockInsnRuns, viewParent.store.blockMetaRuns, viewParent.store.blockAddrs
      reads viewParent.viewChild, if viewParent.viewChild == null then null else viewParent.viewChild.viewChild
    {
      viewParent.viewChild == this && viewParent.Valid()
    }

    /** The end of the last instruction's last metatoken, relative to this list. */
    function EndPosition(): (pos: nat)
      requires viewParent.Core() && AimedAt(viewParent)
      reads this, viewParent, viewParent.store.tokenIds, viewParent.store.typeIds, viewParent.store.startLookup
      reads viewParent.store.insnMetaRuns, viewParent.store.insnIdxRuns, viewParent.store.insnStrs
      reads viewParent.store.blockInsnRuns, viewParent.store.blockMetaRuns, viewParent.store.blockAddrs
      ensures pos == |Ids(BlockToks(viewParent.state))|
    {
      EndIs();
      if lastIndex > 0 then view.store.startLookup[view.typeBase + lastIndex - 1] else 0
    }

    lemma EndIs()
      requires viewParent.Core() && AimedAt(viewParent)
      ensures lastIndex > 0 ==>
        && view.typeBase + lastIndex <= view.store.startLookup.Length
        && view.store.startLookup[view.typeBase + lastIndex - 1] == |Ids(BlockToks(viewParent.state))|
      ensures lastIndex == 0 ==> Ids(BlockToks(viewParent.state)) == []
    {
      hide IdsAxis, TypesAxis, StartsAxis, MetaAxis, IdxAxis, LabelAxis, CommittedToks, BlockToks, CommittedInsns;
      hide InsnCounts, BlockMetaCounts, WellFormed, OpenInsns, OpenToks, OpenLabels, OpenCaption, Ids;
      EndPositions(viewParent.state);
      if lastIndex > 0 {
        assert view.store.startLookup[view.typeBase + lastIndex - 1]
               == StartsAxis(viewParent.state)[view.typeBase + lastIndex - 1];
      } else {
        IdsEmpty();
      }
    }

    /** Leases the rest of this list's buffer to a new instruction list, writing its
        label into the next instruction slot. */
    method View(caption: Label) returns (status: Status, child: InsnTokenList?)
      requires Live()
      modifies this`viewChild, viewParent`state, view.store.insnStrs
      ensures old(viewChild) != null ==>
        && status.Raised? && child == null && Live()
        && unchanged(this, viewParent, view.store.insnStrs)
      ensures old(viewChild) == null ==>
        && status.Done? && child != null && fresh(child)
        && viewChild == child && child.viewParent == this && Live()
        && viewParent.state == InsnViewed(old(viewParent.state), caption)
    {
      hide IdsAxis, TypesAxis, StartsAxis, MetaAxis, IdxAxis, LabelAxis, CommittedToks, BlockToks, CommittedInsns;
      hide InsnCounts, BlockMetaCounts, WellFormed, OpenInsns, OpenToks, OpenLabels, OpenCaption, Ids, Store.Valid;
      if viewChild != null {
        return Raised("BlockTokenList already has an active view child"), null;
      }
      viewParent.IsWellFormed();
      ghost var s := viewParent.state;
      var pos := EndPosition();
      LabelSlot(s);
      InsnViewedAxes(s, caption);
      assert view.insnBase + insnCount == |MetaAxis(s)| by { AxisParts(s); }
      WriteLabel(view.store, s, caption, view.insnBase + insnCount);
      child := new InsnTokenList(this, pos);
      viewChild := child;
      viewParent.state := InsnViewed(s, caption);
      return Done, child;
    }

    /** Adds one whole instruction through a lease of its own. */
    method AppendAsInsn(caption: Label, ts: seq<Tok>) returns (status: Status)
      requires Live()
      modifies this, viewParent`store, viewParent`state
      modifies view.store.tokenIds, view.store.typeIds, view.store.startLookup
      modifies view.store.insnMetaRuns, view.store.insnIdxRuns, view.store.insnStrs
      ensures viewParent == old(viewParent)
      ensures old(viewChild) == null ==>
        && status.Done? && viewChild == null
        && viewParent.state == InsnAppended(old(viewParent.state), caption, ts)
      ensures Live()
      ensures old(viewChild) != null ==>
        && status.Raised? && unchanged(this, viewParent)
        && unchanged(view.store.tokenIds, view.store.typeIds, view.store.startLookup)
        && unchanged(view.store.insnMetaRuns, view.store.insnIdxRuns, view.store.insnStrs)
      ensures old(viewParent.store).GrowsTo(viewParent.store)
    {
      hide IdsAxis, MetaAxis, CommittedToks, BlockToks, CommittedInsns, WellFormed, OpenInsns, OpenToks, Ids;
      hide Store.Valid, FunctionTokenList.Core;
      var child;
      ghost var s := viewParent.state;
      status, child := View(caption);
      if status.Raised? {
        return;
      }
      InsnAppendedByParts(s, caption, ts);
      status := child.Extend(ts);
      status := AddInsn(child);
    }

    /** Passes this list's own partial usage up with the request, then re-aims the
        instruction list at whatever arrays the function list now has. Refused when there
        is no leaseholder here or this list is no leaseholder itself. */
    method ResizeViewArrays(tokensNeeded: nat, typesNeeded: nat) returns (status: Status)
      requires viewChild == null || viewParent.viewChild == null || Live()
      modifies viewParent`store, this`view, (if viewChild == null then {} else {viewChild})`view
      ensures status.Raised? <==> viewChild == null || viewParent.viewChild == null
      ensures status.Raised? ==> unchanged(this, viewParent)
      ensures status.Raised? && viewChild != null ==> unchanged(viewChild)
      ensures status.Done? ==>
        && Live() && old(viewParent.store).GrowsTo(viewParent.store)
        && viewChild.view.tokenBase + tokensNeeded <= view.store.tokenIds.Length
        && viewChild.view.typeBase + typesNeeded <= view.store.typeIds.Length
        && |MetaAxis(viewParent.state)| + 1 < view.store.insnMetaRuns.Length
        && |viewParent.state.blocks| < view.store.blockInsnRuns.Length
    {
      hide IdsAxis, TypesAxis, StartsAxis, MetaAxis, IdxAxis, LabelAxis, CommittedToks, BlockToks, CommittedInsns;
      hide InsnCounts, BlockMetaCounts, WellFormed, OpenInsns, OpenToks, OpenLabels, OpenCaption, Ids, FunctionTokenList.Core;
      if viewChild == null || viewParent.viewChild == null {
        return Raised("No active view child");
      }
      viewParent.Counters();
      AxisParts(viewParent.state);
      var currentTokenPos := EndPosition();
      status := viewParent.ResizeViewArrays(currentTokenPos + tokensNeeded, lastIndex + typesNeeded, insnCount + 1);
      viewChild.view := Tail(view.store, view.tokenBase + currentTokenPos, view.typeBase + lastIndex, view.insnBase + insnCount);
    }

    /** Adds an instruction list. A list leased by someone else is refused while a lease
        is live. The live lease is committed, or dropped when it is empty. An empty list of
        this block ends whatever lease is live; one of another block does nothing. A list
        that was committed before is refused, its lookup array is gone; one whose lease was
        ended without committing it is refused too. */
    method AddInsn(insn: InsnTokenList) returns (status: Status)
      requires Live()
      requires insn.viewParent != this ==> viewChild != null || insn.lastIndex == 0 || insn.lookupReleased
      requires insn.viewParent == this ==> viewChild == null || insn == viewChild || insn.lastIndex == 0 || insn.lookupReleased
      modifies this`lastIndex, this`insnCount, this`viewChild, insn`readonly, insn`lookupReleased, viewParent`state
      modifies view.store.startLookup, view.store.insnMetaRuns, view.store.insnIdxRuns
      ensures Live()
      ensures status.Raised? <==>
        (old(viewChild) != null && insn.viewParent != this) || (insn.lastIndex != 0 && insn != old(viewChild))
      ensures status.Raised? || insn.viewParent != this ==> unchanged(this, insn, viewParent)
      ensures insn.lookupReleased <==> old(insn.lookupReleased) || (insn == old(viewChild) && insn.lastIndex != 0)
      ensures status.Done? && insn.viewParent == this ==>
        && viewChild == null && insn.readonly
        && viewParent.state == if insn == old(viewChild) then InsnAdded(old(viewParent.state)) else InsnClosed(old(viewParent.state))
    {
      hide IdsAxis, TypesAxis, StartsAxis, MetaAxis, IdxAxis, LabelAxis, CommittedToks, BlockToks, CommittedInsns;
      hide InsnCounts, BlockMetaCounts, WellFormed, OpenInsns, OpenToks, OpenLabels, OpenCaption, Ids;
      if viewChild != null && insn.viewParent != this {
        return Raised("Cannot add instruction while view child is active");
      }
      if insn.lastIndex == 0 {
        if insn.viewParent == this {
          ReleaseView(insn);
        }
        return Done;
      }
      if insn.lookupReleased {
        return Raised("'NoneType' object is not subscriptable");
      }
      if viewChild == null {
        ShiftEnded(insn);
        return Raised("'NoneType' object has no attribute 'metatoken_start_lookup'");
      }
      CommitView(insn);
      return Done;
    }

    /** What is shifted before the missing lease is noticed lies behind this list's data. */
    method ShiftEnded(insn: InsnTokenList)
      requires Live() && viewChild == null
      modifies view.store.startLookup
      ensures Live()
    {
      hide IdsAxis, TypesAxis, StartsAxis, MetaAxis, IdxAxis, LabelAxis, CommittedToks, BlockToks, CommittedInsns;
      hide InsnCounts, BlockMetaCounts, WellFormed, OpenInsns, OpenToks, OpenLabels, OpenCaption, Ids, Store.Valid;
      ghost var s := viewParent.state;
      viewParent.IsWellFormed();
      HasRoom();
      var newTypes := Min(insn.lastIndex, view.store.startLookup.Length - (view.typeBase + lastIndex));
      ShiftBehindInsns(view.store, s, view.typeBase + lastIndex, newTypes, EndPosition());
      assert InsnClosed(s) == s;
    }

    lemma HasRoom()
      requires Live()
      ensures view.typeBase + lastIndex <= view.store.startLookup.Length
    {
      hide IdsAxis, TypesAxis, StartsAxis, MetaAxis, IdxAxis, LabelAxis, CommittedToks, BlockToks, CommittedInsns;
      hide InsnCounts, BlockMetaCounts, WellFormed, OpenInsns, OpenToks, OpenLabels, OpenCaption, Ids;
      EndPositions(viewParent.state);
    }

    /** Ends the live lease on behalf of an empty list. */
    method ReleaseView(insn: InsnTokenList)
      requires Live() && insn.viewParent == this && insn.lastIndex == 0
      modifies this`viewChild, insn`readonly, viewParent`state
      ensures Live() && viewChild == null && insn.readonly
      ensures viewParent.state
              == if insn == old(viewChild) then InsnAdded(old(viewParent.state)) else InsnClosed(old(viewParent.state))
    {
      hide IdsAxis, TypesAxis, StartsAxis, MetaAxis, IdxAxis, LabelAxis, CommittedToks, BlockToks, CommittedInsns;
      hide InsnCounts, BlockMetaCounts, WellFormed, OpenInsns, OpenToks, OpenLabels, OpenCaption, Ids, Store.Valid;
      ghost var s := viewParent.state;
      viewParent.IsWellFormed();
      if insn == viewChild {
        EmptyInsnIsDropped(s);
      }
      DropInsnLease(viewParent.store, s);
      ClosedInsnAxes(s);
      insn.readonly := true;
      viewChild := null;
      viewParent.state := InsnClosed(s);
    }

    method CommitView(insn: InsnTokenList)
      requires Live() && insn == viewChild && insn.lastIndex != 0
      modifies this`lastIndex, this`insnCount, this`viewChild, insn`readonly, insn`lookupReleased, viewParent`state
      modifies view.store.startLookup, view.store.insnMetaRuns, view.store.insnIdxRuns
      ensures Live() && viewChild == null && insn.readonly && insn.lookupReleased
      ensures viewParent.state == InsnAdded(old(viewParent.state))
    {
      hide IdsAxis, TypesAxis, StartsAxis, MetaAxis, IdxAxis, LabelAxis, CommittedToks, BlockToks, CommittedInsns;
      hide InsnCounts, BlockMetaCounts, WellFormed, OpenInsns, OpenToks, OpenLabels, OpenCaption, Ids, Store.Valid, InsnAdded;
      ghost var s := viewParent.state;
      viewParent.IsWellFormed();
      assert OpenToks(s) != [];
      InsnAddedParts(s);
      WriteCommit(insn);
      insn.lookupReleased := true;
      insn.readonly := true;
      viewChild := null;
      lastIndex, insnCount := lastIndex + insn.lastIndex, insnCount + 1;
      viewParent.state := InsnAdded(s);
    }

    /** Writes what committing the leased instruction adds to the arrays. */
    method WriteCommit(insn: InsnTokenList)
      requires Live() && insn == viewChild && insn.lastIndex != 0
      modifies view.store.startLookup, view.store.insnMetaRuns, view.store.insnIdxRuns
      ensures viewParent.store.Valid(InsnAdded(viewParent.state))
    {
      hide IdsAxis, TypesAxis, StartsAxis, MetaAxis, IdxAxis, LabelAxis, CommittedToks, BlockToks, CommittedInsns;
      hide InsnCounts, BlockMetaCounts, WellFormed, OpenInsns, OpenToks, OpenLabels, OpenCaption, Ids, InsnAdded;
      ghost var s := viewParent.state;
      AxisParts(s);
      var newTokens := insn.EndPosition();
      var startPos := EndPosition();
      CommitInsn(view.store, s, view.typeBase + lastIndex, insn.lastIndex, newTokens, startPos, view.insnBase + insnCount);
    }
  }

  class InsnTokenList {
    var view: View
    var lastIndex: nat
    var viewParent: BlockTokenList
    var readonly: bool
    var lookupReleased: bool

    /** This list's views start exactly where the open block's data ends. */
    ghost predicate AimedAt(b: BlockTokenList, f: FunctionTokenList)
      reads this, b, f
    {
      && viewParent == b && !readonly && !lookupReleased
      && view == Tail(f.store, |Ids(CommittedToks(f.state))| + |Ids(BlockToks(f.state))|,
                      |CommittedToks(f.state)| + |BlockToks(f.state)|,
                      |CommittedInsns(f.state)| + |OpenInsns(f.state)|)
      && lastIndex == |OpenToks(f.state)|
    }

    constructor (b: BlockTokenList, pos: nat)
      ensures viewParent == b && !readonly && !lookupReleased && lastIndex == 0
      ensures view == Tail(b.view.store, b.view.tokenBase + pos, b.view.typeBase + b.lastIndex, b.view.insnBase + b.insnCount)
    {
      view := Tail(b.view.store, b.view.tokenBase + pos, b.view.typeBase + b.lastIndex, b.view.insnBase + b.insnCount);
      lastIndex, viewParent, readonly, lookupReleased := 0, b, false, false;
    }

    /** The end of the last metatoken, relative to this list. */
    function EndPosition(): (pos: nat)
      requires IsLive()
      reads this, viewParent, viewParent.viewParent
      reads viewParent.viewParent.store.tokenIds, viewParent.viewParent.store.typeIds, viewParent.viewParent.store.startLookup
      reads viewParent.viewParent.store.insnMetaRuns, viewParent.viewParent.store.insnIdxRuns, viewParent.viewParent.store.insnStrs
      reads viewParent.viewParent.store.blockInsnRuns, viewParent.viewParent.store.blockMetaRuns, viewParent.viewParent.store.blockAddrs
      reads viewParent.viewParent.viewChild
      reads if viewParent.viewParent.viewChild == null then null else viewParent.viewParent.viewChild.viewChild
      ensures pos == |Ids(OpenToks(viewParent.viewParent.state))|
    {
      EndIs();
      if lastIndex > 0 then view.store.startLookup[view.typeBase + lastIndex - 1] else 0
    }

    lemma EndIs()
      requires IsLive()
      ensures var s := viewParent.viewParent.state;
        && (lastIndex > 0 ==> view.store == viewParent.viewParent.store && view.typeBase + lastIndex <= view.store.startLookup.Length
                              && view.store.startLookup[view.typeBase + lastIndex - 1] == |Ids(OpenToks(s))|)
        && (lastIndex == 0 ==> Ids(OpenToks(s)) == [])
    {
      hide IdsAxis, TypesAxis, StartsAxis, MetaAxis, IdxAxis, LabelAxis, CommittedToks, BlockToks, CommittedInsns;
      hide InsnCounts, BlockMetaCounts, WellFormed, OpenInsns, OpenToks, OpenLabels, OpenCaption, Ids;
      ghost var s := viewParent.viewParent.state;
      EndPositions(s);
      if lastIndex > 0 {
        assert view.store.startLookup[view.typeBase + lastIndex - 1] == StartsAxis(s)[view.typeBase + lastIndex - 1];
      } else {
        IdsEmpty();
      }
    }

    /** This list's block has a lease out and holds one itself; then so does this list, if
        it is the one that was leased last. */
    predicate HasLease()
      reads this, viewParent, viewParent.viewParent
    {
      viewParent.viewChild != null && viewParent.viewParent.viewChild != null
    }

    ghost predicate IsLive()
      reads this, viewParent, viewParent.viewParent
      reads viewParent.viewParent.store.tokenIds, viewParent.viewParent.store.typeIds, viewParent.viewParent.store.startLookup
      reads viewParent.viewParent.store.insnMetaRuns, viewParent.viewParent.store.insnIdxRuns, viewParent.viewParent.store.insnStrs
      reads viewParent.viewParent.store.blockInsnRuns, viewParent.viewParent.store.blockMetaRuns, viewParent.viewParent.store.blockAddrs
      reads viewParent.viewParent.viewChild
      reads if viewParent.viewParent.viewChild == null then null else viewParent.viewParent.viewChild.viewChild
    {
      viewParent.Live() && viewParent.viewChild == this
    }

    /** Appends one metatoken, growing the shared arrays on the way if they are full.
        Refused on a read-only list and, before anything is written, when the request for
        room finds that nothing is leased any more. */
    method Append(t: Tok) returns (status: Status)
      requires readonly || !HasLease() || IsLive()
      modifies this`lastIndex, this`view, viewParent`view, viewParent.viewParent`store, viewParent.viewParent`state
      modifies viewParent.viewParent.store.tokenIds, viewParent.viewParent.store.typeIds
      modifies viewParent.viewParent.store.startLookup
      ensures status.Raised? <==> old(readonly || !HasLease())
      ensures status.Raised? ==>
        && unchanged(this, viewParent, viewParent.viewParent)
        && unchanged(viewParent.viewParent.store.tokenIds, viewParent.viewParent.store.typeIds)
        && unchanged(viewParent.viewParent.store.startLookup)
      ensures status.Done? ==>
        && IsLive()
        && viewParent.viewParent.state == Appended(old(viewParent.viewParent.state), t)
        && old(viewParent.viewParent.store).GrowsTo(viewParent.viewParent.store)
        && view.store == viewParent.viewParent.store && !readonly
      ensures old(viewParent.viewParent.Valid()) ==> viewParent.viewParent.Valid()
    {
      hide IdsAxis, TypesAxis, StartsAxis, MetaAxis, IdxAxis, LabelAxis, CommittedToks, BlockToks, CommittedInsns;
      hide InsnCounts, BlockMetaCounts, WellFormed, OpenInsns, OpenToks, OpenLabels, OpenCaption, Ids;
      hide Store.Valid;
      if readonly {
        return Raised("Cannot append to readonly InsnTokenList");
      }
      if !HasLease() {
        return Raised("No active view child");
      }
      var startPos := EndPosition();
      status := viewParent.ResizeViewArrays(startPos + |t.ids| + 1, lastIndex + 1);
      Place(viewParent, t, startPos);
    }

    /** Appends metatokens one after the other. */
    method Extend(ts: seq<Tok>) returns (status: Status)
      requires readonly || !HasLease() || IsLive()
      modifies this`lastIndex, this`view, viewParent`view, viewParent.viewParent`store, viewParent.viewParent`state
      modifies viewParent.viewParent.store.tokenIds, viewParent.viewParent.store.typeIds
      modifies viewParent.viewParent.store.startLookup
      ensures status.Raised? <==> old(readonly || (!HasLease() && ts != []))
      ensures status.Raised? || old(!HasLease()) ==>
        && unchanged(this, viewParent, viewParent.viewParent)
        && unchanged(viewParent.viewParent.store.tokenIds, viewParent.viewParent.store.typeIds)
        && unchanged(viewParent.viewParent.store.startLookup)
      ensures status.Done? && old(HasLease()) ==>
        && IsLive()
        && viewParent.viewParent.state == AppendedAll(old(viewParent.viewParent.state), ts)
        && old(viewParent.viewParent.store).GrowsTo(viewParent.viewParent.store)
    {
      hide IdsAxis, MetaAxis, CommittedToks, BlockToks, CommittedInsns, WellFormed, OpenInsns, OpenToks, Ids;
      hide Store.Valid, FunctionTokenList.Core;
      assert ts[..0] == [];
      if readonly {
        return Raised("Cannot extend readonly InsnTokenList");
      }
      if !HasLease() {
        status := Done;
        if |ts| > 0 {
          status := Append(ts[0]);
        }
        return;
      }
      ghost var f := viewParent.viewParent;
      assert view.store == f.store && InsnIsOpen(f.state);
      hide FunctionTokenList.Valid, AppendedAll, Appended;
      AppendedNone(f.state);
      for i := 0 to |ts|
        invariant !readonly && IsLive() && HasLease()
        invariant f.state == AppendedAll(old(f.state), ts[..i])
        invariant old(f.store).GrowsTo(f.store)
        invariant view.store == f.store
      {
        AppendedNext(old(f.state), ts, i);
        status := Append(ts[i]);
      }
      assert ts[..|ts|] == ts;
      return Done;
    }

    /** Writes a metatoken for which there is room. */
    method Place(b: BlockTokenList, t: Tok, startPos: nat)
      requires b.Live() && b.viewChild == this
      requires startPos == |Ids(OpenToks(b.viewParent.state))|
      requires view.tokenBase + startPos + |t.ids| <= view.store.tokenIds.Length
      requires view.typeBase + lastIndex < view.store.typeIds.Length
      requires |MetaAxis(b.viewParent.state)| + 1 < view.store.insnMetaRuns.Length
      requires |b.viewParent.state.blocks| < view.store.blockInsnRuns.Length
      modifies this`lastIndex, b.viewParent`state
      modifies view.store.tokenIds, view.store.typeIds, view.store.startLookup
      ensures b.Live() && b.viewChild == this
      ensures b.viewParent.state == Appended(old(b.viewParent.state), t)
    {
      hide IdsAxis, TypesAxis, StartsAxis, MetaAxis, IdxAxis, LabelAxis, CommittedToks, BlockToks, CommittedInsns;
      hide InsnCounts, BlockMetaCounts, WellFormed, OpenInsns, OpenToks, OpenLabels, OpenCaption, Ids;
      ghost var s := b.viewParent.state;
      EndPositions(s);
      AppendedParts(s, t);
      WriteToken(view.store, s, t, view.tokenBase + startPos, view.typeBase + lastIndex, startPos + |t.ids|);
      lastIndex := lastIndex + 1;
      b.viewParent.state := Appended(s, t);
    }
  }
}
