/** Emitting jump-table footers: identities from the resolver, one synthetic block of one
    instruction per footer in the token buffer. */
module FooterEmission {
  import opened TokenSeqs
  import opened BufferState
  import opened TokenStore
  import opened LeasedBuffer
  import opened Identities
  import opened JumpTables

  /** How tokens and labels of a footer are spelled. */
  datatype Spelling = Spelling(blockDef: Tok, jumpTable: nat -> Tok, blockV2: nat -> Tok,
                               caption: int -> Label, addr: int -> Label)

  /** Block definition, the table, then its targets. */
  function FooterToks(sp: Spelling, f: Footer): seq<Tok> {
    [sp.blockDef, sp.jumpTable(f.tableId)] + seq(|f.targetIds|, i requires 0 <= i < |f.targetIds| => sp.blockV2(f.targetIds[i]))
  }

  function WithFooter(s: State, sp: Spelling, f: Footer): State {
    State(s.blocks + [[FooterToks(sp, f)]], s.labels + [sp.caption(f.table.base)], s.addrs + [sp.addr(f.table.base)], NoBlock)
  }

  function WithFooters(s: State, sp: Spelling, footers: seq<Footer>): State {
    if footers == [] then s
    else WithFooter(WithFooters(s, sp, footers[..|footers| - 1]), sp, footers[|footers| - 1])
  }

  lemma WithFootersSnoc(s: State, sp: Spelling, footers: seq<Footer>, f: Footer)
    ensures WithFooters(s, sp, footers + [f]) == WithFooter(WithFooters(s, sp, footers), sp, f)
  {
    assert (footers + [f])[..|footers|] == footers;
  }

  /** Leasing a block, appending one instruction and adding the block is one new block. */
  lemma FooterByParts(s: State, sp: Spelling, f: Footer)
    requires s.open.NoBlock?
    ensures BlockAdded(InsnAppended(BlockViewed(s), sp.caption(f.table.base), FooterToks(sp, f)), sp.addr(f.table.base))
            == WithFooter(s, sp, f)
  {
    var toks := FooterToks(sp, f);
    assert [] + [toks] == [toks];
    assert [] + [sp.caption(f.table.base)] == [sp.caption(f.table.base)];
    ConcatSnoc([], toks);
    assert Concat([toks]) == toks;
  }

  /** A footer in the buffer, token by token: one labelled, addressed block of one
      instruction that defines the block, names the table, then names each target. */
  ghost predicate SpelledOut(sp: Spelling, f: Footer, block: Block, caption: Label, addr: Label) {
    && |block| == 1 && |block[0]| == 2 + |f.targetIds|
    && block[0][0] == sp.blockDef && block[0][1] == sp.jumpTable(f.tableId)
    && (forall i :: 0 <= i < |f.targetIds| ==> block[0][2 + i] == sp.blockV2(f.targetIds[i]))
    && caption == sp.caption(f.table.base) && addr == sp.addr(f.table.base)
  }

  /** From one state to another exactly these footers were added, in order. */
  ghost predicate FootersAdded(sp: Spelling, footers: seq<Footer>, before: State, after: State) {
    var n, l, a := |before.blocks|, |before.labels|, |before.addrs|;
    && |after.blocks| == n + |footers| && after.blocks[..n] == before.blocks
    && |after.labels| == l + |footers| && after.labels[..l] == before.labels
    && |after.addrs| == a + |footers| && after.addrs[..a] == before.addrs
    && forall k :: 0 <= k < |footers| ==>
         SpelledOut(sp, footers[k], after.blocks[n + k], after.labels[l + k], after.addrs[a + k])
  }

  lemma {:induction false} FootersSpelled(s: State, sp: Spelling, footers: seq<Footer>)
    ensures FootersAdded(sp, footers, s, WithFooters(s, sp, footers))
  {
    if footers == [] {
    } else {
      var last := |footers| - 1;
      var r := WithFooters(s, sp, footers[..last]);
      FootersSpelled(s, sp, footers[..last]);
      FooterSpelled(sp, footers[last]);
      hide SpelledOut, FooterToks;
      forall k | 0 <= k < last
        ensures SpelledOut(sp, footers[k], r.blocks[|s.blocks| + k], r.labels[|s.labels| + k], r.addrs[|s.addrs| + k])
      {
        assert footers[..last][k] == footers[k];
      }
    }
  }

  lemma OneFooter(s: State, sp: Spelling, f: Footer)
    ensures WithFooters(s, sp, [f]) == WithFooter(s, sp, f)
  {
    WithFootersSnoc(s, sp, [], f);
    assert [] + [f] == [f];
  }

  lemma FooterSpelled(sp: Spelling, f: Footer)
    ensures SpelledOut(sp, f, [FooterToks(sp, f)], sp.caption(f.table.base), sp.addr(f.table.base))
  {
  }

  method EmitJumpTableFooterFor(f: FunctionTokenList, resolver: TokenResolver, sp: Spelling, tableId: nat, table: Table)
    returns (ghost footer: Footer)
    requires f.Valid() && f.viewChild == null && resolver.Valid()
    modifies resolver
    modifies f, f.store.tokenIds, f.store.typeIds, f.store.startLookup, f.store.insnMetaRuns, f.store.insnIdxRuns
    modifies f.store.insnStrs, f.store.blockInsnRuns, f.store.blockMetaRuns, f.store.blockAddrs
    ensures f.Valid() && f.viewChild == null && old(f.store).GrowsTo(f.store) && resolver.Valid()
    ensures forall c :: c != Category.Block ==> resolver.SpaceOf(c) == old(resolver.SpaceOf(c))
    ensures var (blocks, ids) := TargetIds(old(resolver.SpaceOf(Category.Block)), table.targets, tableId);
      resolver.SpaceOf(Category.Block) == blocks && footer == Footer(table, tableId, ids)
    ensures f.state == WithFooter(old(f.state), sp, footer)
    ensures |footer.targetIds| == |table.targets| && FootersAdded(sp, [footer], old(f.state), f.state)
  {
    hide TargetIds, Allocated, WithFooter, WithFooters, FooterToks, FootersAdded, TokenResolver.Valid, TokenResolver.SpaceOf;
    hide BlockAdded, InsnAppended, Store.Valid, FunctionTokenList.Core;
    hide CommittedToks, CommittedInsns, BufferState.BlockToks, OpenInsns, Ids, OpenToks;
    ghost var s, start := f.state, resolver.SpaceOf(Category.Block);
    var ids := AllocateTargets(resolver, table.targets, tableId);
    footer := Footer(table, tableId, ids);
    var toks := FooterToks(sp, Footer(table, tableId, ids));
    FooterByParts(s, sp, footer);
    FootersSpelled(s, sp, [footer]);
    OneFooter(s, sp, footer);
    TargetIdsSize(start, table.targets, tableId);
    var status, view := f.View();
    status := view.AppendAsInsn(sp.caption(table.base), toks);
    status := f.AddBlock(view, sp.addr(table.base));
  }

  method AllocateTargets(resolver: TokenResolver, targets: seq<int>, tableId: nat) returns (ids: seq<nat>)
    requires resolver.Valid()
    modifies resolver
    ensures resolver.Valid()
    ensures forall c :: c != Category.Block ==> resolver.SpaceOf(c) == old(resolver.SpaceOf(c))
    ensures (resolver.SpaceOf(Category.Block), ids) == TargetIds(old(resolver.SpaceOf(Category.Block)), targets, tableId)
  {
    hide Allocated, TokenResolver.Valid, TokenResolver.SpaceOf, Consistent;
    ghost var start := resolver.SpaceOf(Category.Block);
    ids := [];
    for i := 0 to |targets|
      invariant resolver.Valid()
      invariant forall c :: c != Category.Block ==> resolver.SpaceOf(c) == old(resolver.SpaceOf(c))
      invariant (resolver.SpaceOf(Category.Block), ids) == TargetIds(start, targets[..i], tableId)
    {
      assert targets[..i + 1][..i] == targets[..i];
      var id := resolver.GetIdentity(Category.Block, targets[i], TargetMeta(targets[i], tableId));
      ids := ids + [id];
    }
    assert targets[..|targets|] == targets;
  }

  ghost function SpacesOf(resolver: TokenResolver): Spaces
    requires resolver.Valid()
    reads resolver
  {
    Spaces(resolver.SpaceOf(Category.JumpTable), resolver.SpaceOf(Category.Block))
  }

  /** One footer per recovered table: its identity is allocated with all its targets. */
  method EmitRecovered(f: FunctionTokenList, resolver: TokenResolver, sp: Spelling, tables: seq<Table>)
    returns (ghost footers: seq<Footer>)
    requires f.Valid() && f.viewChild == null && resolver.Valid()
    modifies resolver
    modifies f, f.store.tokenIds, f.store.typeIds, f.store.startLookup, f.store.insnMetaRuns, f.store.insnIdxRuns
    modifies f.store.insnStrs, f.store.blockInsnRuns, f.store.blockMetaRuns, f.store.blockAddrs
    ensures f.Valid() && f.viewChild == null && old(f.store).GrowsTo(f.store) && resolver.Valid()
    ensures (SpacesOf(resolver), footers) == Emitted(old(SpacesOf(resolver)), tables)
    ensures f.state == WithFooters(old(f.state), sp, footers)
  {
    hide TargetIds, Allocated, WithFooters, Store.Valid, FunctionTokenList.Core, Consistent, TokenResolver.Valid, TokenResolver.SpaceOf;
    hide CommittedToks, CommittedInsns, BufferState.BlockToks, OpenInsns, Ids, OpenToks;
    ghost var s, start := f.state, SpacesOf(resolver);
    footers := [];
    assert WithFooters(s, sp, []) == s by { NoFooters(s, sp); }
    for k := 0 to |tables|
      invariant f.Valid() && f.viewChild == null && old(f.store).GrowsTo(f.store) && resolver.Valid()
      invariant (SpacesOf(resolver), footers) == Emitted(start, tables[..k])
      invariant f.state == WithFooters(s, sp, footers)
    {
      assert tables[..k + 1][..k] == tables[..k];
      var t := tables[k];
      var id := resolver.GetIdentity(Category.JumpTable, t.base, TableMeta(t.base, t.targets));
      ghost var footer := EmitJumpTableFooterFor(f, resolver, sp, id, t);
      WithFootersSnoc(s, sp, footers, footer);
      footers := footers + [footer];
    }
    assert tables[..|tables|] == tables;
  }

  lemma NoFooters(s: State, sp: Spelling)
    ensures WithFooters(s, sp, []) == s
  {
  }

  /** Declarations without targets for tables that only a slot pointed into. */
  method EmitSlotOnly(f: FunctionTokenList, resolver: TokenResolver, sp: Spelling, entries: seq<Entry>, emitted: seq<int>)
    returns (ghost footers: seq<Footer>)
    requires f.Valid() && f.viewChild == null && resolver.Valid()
    requires DistinctAddrs(entries)
    modifies resolver
    modifies f, f.store.tokenIds, f.store.typeIds, f.store.startLookup, f.store.insnMetaRuns, f.store.insnIdxRuns
    modifies f.store.insnStrs, f.store.blockInsnRuns, f.store.blockMetaRuns, f.store.blockAddrs
    ensures f.Valid() && f.viewChild == null && old(f.store).GrowsTo(f.store) && resolver.Valid()
    ensures SpacesOf(resolver) == old(SpacesOf(resolver))
    ensures footers == SlotFooters(entries, emitted)
    ensures f.state == WithFooters(old(f.state), sp, footers)
  {
    hide WithFooters, Store.Valid, FunctionTokenList.Core, Consistent, TokenResolver.Valid, TokenResolver.SpaceOf;
    hide CommittedToks, CommittedInsns, BufferState.BlockToks, OpenInsns, Ids, OpenToks;
    ghost var s, start := f.state, SpacesOf(resolver);
    var emittedBases := set b | b in emitted;
    footers := [];
    NoFooters(s, sp);
    for k := 0 to |entries|
      invariant f.Valid() && f.viewChild == null && old(f.store).GrowsTo(f.store) && resolver.Valid()
      invariant SpacesOf(resolver) == start
      invariant footers == SlotFooters(entries[..k], emitted)
      invariant f.state == WithFooters(s, sp, footers)
      invariant forall b :: b in emittedBases <==> b in emitted || exists j :: 0 <= j < k && entries[j].addr == b
    {
      assert entries[..k + 1][..k] == entries[..k];
      var e := entries[k];
      assert e.addr in emittedBases <==> e.addr in emitted;
      if e.addr in emittedBases {
        continue;
      }
      ghost var footer := EmitJumpTableFooterFor(f, resolver, sp, e.id, Table(e.addr, []));
      WithFootersSnoc(s, sp, footers, footer);
      footers := footers + [footer];
      emittedBases := emittedBases + {e.addr};
    }
    assert entries[..|entries|] == entries;
  }

  /** The footer pass: recovered tables first, then the tables known from slots. */
  method EmitJumpTableFooter(f: FunctionTokenList, resolver: TokenResolver, sp: Spelling, recovered: seq<Yield>)
    returns (ghost footers: seq<Footer>)
    requires f.Valid() && f.viewChild == null && resolver.Valid()
    modifies resolver
    modifies f, f.store.tokenIds, f.store.typeIds, f.store.startLookup, f.store.insnMetaRuns, f.store.insnIdxRuns
    modifies f.store.insnStrs, f.store.blockInsnRuns, f.store.blockMetaRuns, f.store.blockAddrs
    ensures f.Valid() && f.viewChild == null && old(f.store).GrowsTo(f.store) && resolver.Valid()
    ensures (SpacesOf(resolver), footers) == AllFooters(old(SpacesOf(resolver)), recovered)
    ensures f.state == WithFooters(old(f.state), sp, footers)
    ensures FootersAdded(sp, footers, old(f.state), f.state)
  {
    hide WithFooters, FootersAdded, Store.Valid, FunctionTokenList.Core, Emitted, Coalesced, SlotFooters, TokenResolver.Valid;
    hide CommittedToks, CommittedInsns, BufferState.BlockToks, OpenInsns, Ids, OpenToks;
    ghost var s := f.state;
    var tables := Coalesce(recovered);
    ghost var first := EmitRecovered(f, resolver, sp, tables);
    var registered := resolver.Registered(Category.JumpTable);
    ghost var second := EmitSlotOnly(f, resolver, sp, registered, TableBases(tables));
    footers := first + second;
    WithFootersAppend(s, sp, first, second);
    FootersSpelled(s, sp, footers);
  }

  lemma {:induction false} WithFootersAppend(s: State, sp: Spelling, first: seq<Footer>, second: seq<Footer>)
    ensures WithFooters(WithFooters(s, sp, first), sp, second) == WithFooters(s, sp, first + second)
  {
    if second == [] {
      assert first + second == first;
    } else {
      var init, last := second[..|second| - 1], second[|second| - 1];
      WithFootersAppend(s, sp, first, init);
      SplitLast(second);
      AppendAssoc(first, init, [last]);
      WithFootersSnoc(s, sp, first + init, last);
    }
  }
}
