/** Jump-table footers: coalescing what the provider yields, and what is emitted. */
module JumpTables {
  import opened TokenSeqs
  import opened Results
  import opened Identities

  /** One switch table as recovered at one dispatch site. */
  datatype Yield = Yield(base: int, targets: seq<int>)

  datatype Table = Table(base: int, targets: seq<int>)

  /** One emitted footer: the table's identity and the identities of its targets. */
  datatype Footer = Footer(table: Table, tableId: nat, targetIds: seq<nat>)

  /** Elements in the order of their first occurrence. */
  function FirstSeen(s: seq<int>): (r: seq<int>)
    ensures forall x :: x in r <==> x in s
    ensures forall i, j :: 0 <= i < j < |r| ==> r[i] != r[j]
  {
    if s == [] then []
    else
      var init, last := s[..|s| - 1], s[|s| - 1];
      assert s == init + [last];
      if last in FirstSeen(init) then FirstSeen(init) else FirstSeen(init) + [last]
  }

  lemma FirstSeenSnoc(s: seq<int>, x: int)
    ensures FirstSeen(s + [x]) == if x in FirstSeen(s) then FirstSeen(s) else FirstSeen(s) + [x]
  {
    assert (s + [x])[..|s|] == s;
  }

  /** The bases of all yields that name a target. */
  function Bases(recovered: seq<Yield>): seq<int> {
    if recovered == [] then []
    else
      var init, last := Bases(recovered[..|recovered| - 1]), recovered[|recovered| - 1];
      if last.targets == [] then init else init + [last.base]
  }

  /** All targets yielded for a base, in order. */
  function TargetsFor(recovered: seq<Yield>, base: int): seq<int> {
    if recovered == [] then []
    else
      var init, last := TargetsFor(recovered[..|recovered| - 1], base), recovered[|recovered| - 1];
      if last.base == base then init + last.targets else init
  }

  /** One table per base, each with the first-seen-order union of its targets. */
  function Coalesced(recovered: seq<Yield>): seq<Table> {
    var bases := FirstSeen(Bases(recovered));
    seq(|bases|, i requires 0 <= i < |bases| => Table(bases[i], FirstSeen(TargetsFor(recovered, bases[i]))))
  }

  lemma {:induction false} BasesHaveTargets(recovered: seq<Yield>, base: int)
    ensures base in Bases(recovered) <==> TargetsFor(recovered, base) != []
  {
    if recovered == [] {
    } else {
      BasesHaveTargets(recovered[..|recovered| - 1], base);
    }
  }

  /** The dictionaries of the first phase. */
  datatype Targets = Targets(order: seq<int>, byBase: map<int, seq<int>>, seen: map<int, set<int>>)

  ghost predicate Holds(t: Targets, recovered: seq<Yield>) {
    && t.order == FirstSeen(Bases(recovered))
    && t.byBase.Keys == t.seen.Keys
    && (forall b :: b in t.byBase <==> b in t.order)
    && (forall b :: b in t.byBase ==> t.byBase[b] == FirstSeen(TargetsFor(recovered, b)))
    && (forall b :: b in t.byBase ==> forall x :: x in t.seen[b] <==> x in t.byBase[b])
  }

  method Coalesce(recovered: seq<Yield>) returns (tables: seq<Table>)
    ensures tables == Coalesced(recovered)
  {
    hide FirstSeen;
    var t := Targets([], map[], map[]);
    assert Holds(t, recovered[..0]) by { NothingSeen(recovered); }
    for k := 0 to |recovered|
      invariant Holds(t, recovered[..k])
    {
      NextYield(recovered, k);
      if |recovered[k].targets| == 0 {
        continue;
      }
      t := Accumulate(t, recovered[k], recovered[..k]);
    }
    assert recovered[..|recovered|] == recovered;
    assert Holds(t, recovered);
    forall i | 0 <= i < |t.order|
      ensures t.order[i] in t.byBase && t.byBase[t.order[i]] == FirstSeen(TargetsFor(recovered, t.order[i]))
    {
      var b := t.order[i];
      assert b in t.order;
      assert b in t.byBase;
    }
    tables := seq(|t.order|, i requires 0 <= i < |t.order| && t.order[i] in t.byBase =>
      Table(t.order[i], t.byBase[t.order[i]]));
  }

  lemma NothingSeen(recovered: seq<Yield>)
    ensures Bases(recovered[..0]) == [] && FirstSeen([]) == []
  {
  }

  lemma NextYield(recovered: seq<Yield>, k: nat)
    requires k < |recovered|
    ensures recovered[..k + 1] == recovered[..k] + [recovered[k]]
    ensures recovered[k].targets == [] ==> Bases(recovered[..k + 1]) == Bases(recovered[..k])
    ensures recovered[k].targets == [] ==> forall b :: TargetsFor(recovered[..k + 1], b) == TargetsFor(recovered[..k], b)
  {
    assert recovered[..k + 1][..k] == recovered[..k];
    if recovered[k].targets == [] {
      forall b
        ensures TargetsFor(recovered[..k + 1], b) == TargetsFor(recovered[..k], b)
      {
        assert TargetsFor(recovered[..k], b) + [] == TargetsFor(recovered[..k], b);
      }
    }
  }

  /** One yield with targets. */
  method Accumulate(t0: Targets, y: Yield, ghost before: seq<Yield>) returns (t: Targets)
    requires Holds(t0, before) && y.targets != []
    ensures Holds(t, before + [y])
  {
    hide FirstSeen, Bases, TargetsFor;
    YieldAdds(before, y);
    var seen := if y.base in t0.seen then t0.seen[y.base] else {};
    var ordered := if y.base in t0.byBase then t0.byBase[y.base] else [];
    ghost var start := TargetsFor(before, y.base);
    assert y.targets[..0] == [] && start + [] == start;
    assert ordered == FirstSeen(start) by { Unseen(before, y.base); }
    for i := 0 to |y.targets|
      invariant ordered == FirstSeen(start + y.targets[..i])
      invariant forall x :: x in seen <==> x in ordered
    {
      TakeNext(y.targets, i);
      AppendAssoc(start, y.targets[..i], [y.targets[i]]);
      FirstSeenSnoc(start + y.targets[..i], y.targets[i]);
      if y.targets[i] !in seen {
        seen := seen + {y.targets[i]};
        ordered := ordered + [y.targets[i]];
      }
    }
    assert y.targets[..|y.targets|] == y.targets;
    var order := if y.base in t0.byBase then t0.order else t0.order + [y.base];
    t := Targets(order, t0.byBase[y.base := ordered], t0.seen[y.base := seen]);
  }

  lemma Unseen(recovered: seq<Yield>, base: int)
    ensures base !in FirstSeen(Bases(recovered)) ==> FirstSeen(TargetsFor(recovered, base)) == []
  {
    BasesHaveTargets(recovered, base);
  }

  lemma YieldAdds(before: seq<Yield>, y: Yield)
    requires y.targets != []
    ensures FirstSeen(Bases(before + [y]))
            == if y.base in FirstSeen(Bases(before)) then FirstSeen(Bases(before)) else FirstSeen(Bases(before)) + [y.base]
    ensures TargetsFor(before + [y], y.base) == TargetsFor(before, y.base) + y.targets
    ensures forall b :: b != y.base ==> TargetsFor(before + [y], b) == TargetsFor(before, b)
  {
    assert (before + [y])[..|before|] == before;
    FirstSeenSnoc(Bases(before), y.base);
  }

  // ---- identities of footers ----

  datatype Spaces = Spaces(tables: Space, blocks: Space)

  /** One identity per target, shared with the blocks of this function. */
  function TargetIds(blocks: Space, targets: seq<int>, tableId: nat): (Space, seq<nat>) {
    if targets == [] then (blocks, [])
    else
      var (before, ids) := TargetIds(blocks, targets[..|targets| - 1], tableId);
      var target := targets[|targets| - 1];
      var (after, id) := Allocated(before, target, TargetMeta(target, tableId));
      (after, ids + [id])
  }

  lemma {:induction false} TargetIdsSize(blocks: Space, targets: seq<int>, tableId: nat)
    ensures |TargetIds(blocks, targets, tableId).1| == |targets|
  {
    if targets == [] {
    } else {
      TargetIdsSize(blocks, targets[..|targets| - 1], tableId);
    }
  }

  function EmittedFooter(s: Spaces, t: Table): (Spaces, Footer) {
    var (tables, id) := Allocated(s.tables, t.base, TableMeta(t.base, t.targets));
    var (blocks, ids) := TargetIds(s.blocks, t.targets, id);
    (Spaces(tables, blocks), Footer(t, id, ids))
  }

  function Emitted(s: Spaces, tables: seq<Table>): (Spaces, seq<Footer>) {
    if tables == [] then (s, [])
    else
      var (before, footers) := Emitted(s, tables[..|tables| - 1]);
      var (after, footer) := EmittedFooter(before, tables[|tables| - 1]);
      (after, footers + [footer])
  }

  /** Footers without targets, for tables known only from a slot that points into them. */
  function SlotFooters(entries: seq<Entry>, emitted: seq<int>): seq<Footer> {
    if entries == [] then []
    else
      var init, last := SlotFooters(entries[..|entries| - 1], emitted), entries[|entries| - 1];
      if last.addr in emitted then init else init + [Footer(Table(last.addr, []), last.id, [])]
  }

  function TableBases(tables: seq<Table>): seq<int> {
    seq(|tables|, i requires 0 <= i < |tables| => tables[i].base)
  }

  /** Everything the footer pass emits. */
  function AllFooters(s: Spaces, recovered: seq<Yield>): (Spaces, seq<Footer>) {
    var tables := Coalesced(recovered);
    var (after, footers) := Emitted(s, tables);
    (after, footers + SlotFooters(after.tables.entries, TableBases(tables)))
  }

  /** What was cached stays cached, and whatever is cached later gets later identities. */
  predicate Grown(s: Space, t: Space) {
    && s.entries <= t.entries && s.metadata <= t.metadata
    && (forall i :: 0 <= i < |s.entries| ==> Find(t.entries, s.entries[i].addr) == Some(s.entries[i].id))
    && forall i :: |s.entries| <= i < |t.entries| ==> t.entries[i].id >= |s.metadata|
  }

  lemma GrownByAllocation(s: Space, addr: int, meta: Meta)
    requires Consistent(s)
    ensures var (after, id) := Allocated(s, addr, meta);
      && Consistent(after) && Grown(s, after) && id < |after.metadata|
      && (addr != 0 ==> Find(after.entries, addr) == Some(id))
      && (addr == 0 ==> id == |s.metadata| && after.entries == s.entries)
  {
    hide Find;
    AllocationKeeps(s, addr, meta);
    forall i | 0 <= i < |s.entries|
      ensures Find(s.entries, s.entries[i].addr) == Some(s.entries[i].id)
    {
      FindEntry(s, i);
    }
  }

  lemma GrownFind(s: Space, t: Space, addr: int)
    requires Grown(s, t) && Find(s.entries, addr).Some?
    ensures Find(t.entries, addr) == Find(s.entries, addr)
  {
    var i :| 0 <= i < |s.entries| && s.entries[i] == Entry(addr, Find(s.entries, addr).value);
  }

  lemma GrownTwice(s: Space, t: Space, u: Space)
    requires Grown(s, t) && Grown(t, u)
    ensures Grown(s, u)
  {
    forall i | 0 <= i < |s.entries|
      ensures Find(u.entries, s.entries[i].addr) == Some(s.entries[i].id)
    {
      assert t.entries[i] == s.entries[i];
    }
    forall i | |s.entries| <= i < |u.entries|
      ensures u.entries[i].id >= |s.metadata|
    {
      assert i < |t.entries| ==> u.entries[i] == t.entries[i];
    }
  }

  /** A target's identity is the one its address has, exactly when the address is not zero;
      identities of address zero belong to no address. */
  predicate TargetAgrees(blocks: Space, target: int, id: nat) {
    && (Find(blocks.entries, target) == Some(id) <==> target != 0)
    && (target == 0 ==> id < |blocks.metadata| && forall i :: 0 <= i < |blocks.entries| ==> blocks.entries[i].id != id)
  }

  lemma AgreesLater(s: Space, t: Space, target: int, id: nat)
    requires TargetAgrees(s, target, id) && Grown(s, t) && Consistent(t)
    ensures TargetAgrees(t, target, id)
  {
    if target != 0 {
      GrownFind(s, t, target);
    } else {
      forall i | 0 <= i < |t.entries|
        ensures t.entries[i].id != id && t.entries[i].addr != 0
      {
        assert i < |s.entries| ==> t.entries[i] == s.entries[i];
      }
    }
  }

  predicate AllAgree(blocks: Space, targets: seq<int>, ids: seq<nat>) {
    |ids| == |targets| && forall i :: 0 <= i < |targets| ==> TargetAgrees(blocks, targets[i], ids[i])
  }

  lemma {:induction false} TargetIdsAgree(blocks: Space, targets: seq<int>, tableId: nat)
    requires Consistent(blocks)
    ensures var (after, ids) := TargetIds(blocks, targets, tableId);
      Consistent(after) && Grown(blocks, after) && AllAgree(after, targets, ids)
  {
    if targets == [] {
      GrownSelf(blocks);
    } else {
      hide Consistent, Find, Grown, AllAgree, Allocated;
      var init, target := targets[..|targets| - 1], targets[|targets| - 1];
      TargetIdsAgree(blocks, init, tableId);
      var (before, ids) := TargetIds(blocks, init, tableId);
      var (after, id) := Allocated(before, target, TargetMeta(target, tableId));
      GrownByAllocation(before, target, TargetMeta(target, tableId));
      GrownTwice(blocks, before, after);
      FreshAgrees(before, target, TargetMeta(target, tableId));
      AllLater(before, after, init, ids);
      SplitLast(targets);
      OneMore(after, init, ids, target, id);
    }
  }

  /** Address zero as a target: every mention gets an identity of its own, and no block at
      that address shares it. */
  lemma ZeroTargetIsNeverShared()
    ensures var (after, ids) := TargetIds(Space([], []), [0, 0], 7);
      ids == [0, 1] && Find(after.entries, 0).None?
  {
    assert [0, 0][..1] == [0] && [0][..0] == [];
    var (first, ids) := TargetIds(Space([], []), [0], 7);
    assert ids == [0] && first == Space([], [TargetMeta(0, 7)]);
  }

  lemma AllLater(s: Space, t: Space, targets: seq<int>, ids: seq<nat>)
    requires AllAgree(s, targets, ids) && Grown(s, t) && Consistent(t)
    ensures AllAgree(t, targets, ids)
  {
    hide TargetAgrees;
    forall i | 0 <= i < |targets|
      ensures TargetAgrees(t, targets[i], ids[i])
    {
      AgreesLater(s, t, targets[i], ids[i]);
    }
  }

  lemma OneMore(s: Space, targets: seq<int>, ids: seq<nat>, target: int, id: nat)
    requires AllAgree(s, targets, ids) && TargetAgrees(s, target, id)
    ensures AllAgree(s, targets + [target], ids + [id])
  {
  }

  lemma GrownSelf(s: Space)
    requires Consistent(s)
    ensures Grown(s, s)
  {
    forall i | 0 <= i < |s.entries|
      ensures Find(s.entries, s.entries[i].addr) == Some(s.entries[i].id)
    {
      FindEntry(s, i);
    }
  }

  lemma FreshAgrees(s: Space, addr: int, meta: Meta)
    requires Consistent(s)
    ensures var (after, id) := Allocated(s, addr, meta); TargetAgrees(after, addr, id)
  {
    GrownByAllocation(s, addr, meta);
  }

  /** A footer fits the identities as they stand in the end. */
  predicate FooterAgrees(s: Spaces, f: Footer) {
    && AllAgree(s.blocks, f.table.targets, f.targetIds)
    && (f.table.base != 0 ==> Find(s.tables.entries, f.table.base) == Some(f.tableId))
  }

  predicate SpacesGrown(s: Spaces, t: Spaces) {
    Consistent(t.tables) && Consistent(t.blocks) && Grown(s.tables, t.tables) && Grown(s.blocks, t.blocks)
  }

  lemma FooterLater(s: Spaces, t: Spaces, f: Footer)
    requires FooterAgrees(s, f) && SpacesGrown(s, t)
    ensures FooterAgrees(t, f)
  {
    AllLater(s.blocks, t.blocks, f.table.targets, f.targetIds);
    if f.table.base != 0 {
      GrownFind(s.tables, t.tables, f.table.base);
    }
  }

  /** Footers of these tables, in order, that fit the identities. */
  predicate FootersFor(s: Spaces, tables: seq<Table>, footers: seq<Footer>) {
    |footers| == |tables| && forall k :: 0 <= k < |tables| ==> footers[k].table == tables[k] && FooterAgrees(s, footers[k])
  }

  lemma FootersLater(s: Spaces, t: Spaces, tables: seq<Table>, footers: seq<Footer>)
    requires FootersFor(s, tables, footers) && SpacesGrown(s, t)
    ensures FootersFor(t, tables, footers)
  {
    hide FooterAgrees, SpacesGrown;
    forall k | 0 <= k < |tables|
      ensures FooterAgrees(t, footers[k])
    {
      FooterLater(s, t, footers[k]);
    }
  }

  lemma FootersSnoc(s: Spaces, tables: seq<Table>, footers: seq<Footer>, f: Footer)
    requires FootersFor(s, tables, footers) && FooterAgrees(s, f)
    ensures FootersFor(s, tables + [f.table], footers + [f])
  {
  }

  lemma FooterEmitted(s: Spaces, t: Table)
    requires Consistent(s.tables) && Consistent(s.blocks)
    ensures var (after, footer) := EmittedFooter(s, t);
      SpacesGrown(s, after) && footer.table == t && FooterAgrees(after, footer)
  {
    hide Consistent, Find, Grown, AllAgree, Allocated, TargetIds;
    GrownByAllocation(s.tables, t.base, TableMeta(t.base, t.targets));
    TargetIdsAgree(s.blocks, t.targets, EmittedFooter(s, t).1.tableId);
  }

  lemma SpacesGrownTwice(s: Spaces, t: Spaces, u: Spaces)
    requires SpacesGrown(s, t) && SpacesGrown(t, u)
    ensures SpacesGrown(s, u)
  {
    hide Grown, Consistent;
    GrownTwice(s.tables, t.tables, u.tables);
    GrownTwice(s.blocks, t.blocks, u.blocks);
  }

  lemma {:induction false} EmittedAgree(s: Spaces, tables: seq<Table>)
    requires Consistent(s.tables) && Consistent(s.blocks)
    ensures SpacesGrown(s, Emitted(s, tables).0) && FootersFor(Emitted(s, tables).0, tables, Emitted(s, tables).1)
  {
    if tables == [] {
      GrownSelf(s.tables);
      GrownSelf(s.blocks);
    } else {
      hide Consistent, Grown, FooterAgrees, EmittedFooter, FootersFor;
      var init, t := tables[..|tables| - 1], tables[|tables| - 1];
      EmittedAgree(s, init);
      var (before, footers) := Emitted(s, init);
      var (after, footer) := EmittedFooter(before, t);
      FooterEmitted(before, t);
      SpacesGrownTwice(s, before, after);
      FootersLater(before, after, init, footers);
      FootersSnoc(after, init, footers, footer);
      SplitLast(tables);
    }
  }

  // ---- the whole pass ----

  lemma {:induction false} SlotFootersAre(entries: seq<Entry>, emitted: seq<int>)
    ensures forall k :: 0 <= k < |SlotFooters(entries, emitted)| ==>
      var f := SlotFooters(entries, emitted)[k];
      && Entry(f.table.base, f.tableId) in entries && f.table.base !in emitted
      && f.table.targets == [] && f.targetIds == []
    ensures forall e :: e in entries && e.addr !in emitted ==>
      Footer(Table(e.addr, []), e.id, []) in SlotFooters(entries, emitted)
  {
    if entries == [] {
    } else {
      SlotFootersAre(entries[..|entries| - 1], emitted);
      SplitLast(entries);
    }
  }

  predicate DistinctAddrs(entries: seq<Entry>) {
    forall i, j :: 0 <= i < j < |entries| ==> entries[i].addr != entries[j].addr
  }

  lemma {:induction false} SlotFootersDistinct(entries: seq<Entry>, emitted: seq<int>)
    requires DistinctAddrs(entries)
    ensures DistinctBases(SlotFooters(entries, emitted))
  {
    if entries == [] {
    } else {
      var init := entries[..|entries| - 1];
      SlotFootersDistinct(init, emitted);
      SlotFootersAre(init, emitted);
      forall k | 0 <= k < |SlotFooters(init, emitted)|
        ensures SlotFooters(init, emitted)[k].table.base != entries[|init|].addr
      {
        var f := SlotFooters(init, emitted)[k];
        var i :| 0 <= i < |init| && init[i] == Entry(f.table.base, f.tableId);
        assert entries[i] == init[i];
      }
    }
  }

  predicate DistinctBases(footers: seq<Footer>) {
    forall i, j :: 0 <= i < j < |footers| ==> footers[i].table.base != footers[j].table.base
  }

  lemma CoalescedBases(recovered: seq<Yield>)
    ensures TableBases(Coalesced(recovered)) == FirstSeen(Bases(recovered))
  {
  }

  /** Only recovered tables are entered by emitting footers. */
  lemma {:induction false} EmittedEntries(s: Spaces, tables: seq<Table>)
    ensures var (after, footers) := Emitted(s, tables);
      && |s.tables.entries| <= |after.tables.entries|
      && forall i :: |s.tables.entries| <= i < |after.tables.entries| ==> after.tables.entries[i].addr in TableBases(tables)
  {
    if tables == [] {
    } else {
      var init, last := tables[..|tables| - 1], tables[|tables| - 1];
      EmittedEntries(s, init);
      assert TableBases(tables) == TableBases(init) + [last.base];
    }
  }

  predicate HasFooter(footers: seq<Footer>, base: int) {
    exists k :: 0 <= k < |footers| && footers[k].table.base == base
  }

  /** The footers of recovered tables. */
  lemma RecoveredFooters(s: Spaces, recovered: seq<Yield>)
    requires Consistent(s.tables) && Consistent(s.blocks)
    ensures var (after, footers) := Emitted(s, Coalesced(recovered));
      && SpacesGrown(s, after)
      && DistinctBases(footers)
      && (forall b :: b in Bases(recovered) ==> HasFooter(footers, b))
      && forall k :: 0 <= k < |footers| ==>
           && footers[k].table.base in Bases(recovered)
           && FooterAgrees(after, footers[k])
           && footers[k].table.targets == FirstSeen(TargetsFor(recovered, footers[k].table.base))
  {
    hide FirstSeen, Bases, TargetsFor, FooterAgrees, Emitted, SpacesGrown;
    var tables := Coalesced(recovered);
    EmittedAgree(s, tables);
    CoalescedBases(recovered);
    var footers, bases := Emitted(s, tables).1, FirstSeen(Bases(recovered));
    forall b | b in Bases(recovered)
      ensures HasFooter(footers, b)
    {
      var k :| 0 <= k < |bases| && bases[k] == b;
      assert footers[k].table == tables[k];
    }
    forall k | 0 <= k < |footers|
      ensures footers[k].table.base == bases[k] && bases[k] in Bases(recovered)
    {
      assert bases[k] in bases;
    }
  }

  /** The footers of tables known from slots only. */
  lemma SlotOnlyFooters(s: Spaces, recovered: seq<Yield>)
    requires Consistent(s.tables) && Consistent(s.blocks)
    ensures var after := Emitted(s, Coalesced(recovered)).0;
      var footers := SlotFooters(after.tables.entries, FirstSeen(Bases(recovered)));
      && DistinctBases(footers)
      && (forall i :: 0 <= i < |s.tables.entries| && s.tables.entries[i].addr !in Bases(recovered) ==>
            HasFooter(footers, s.tables.entries[i].addr))
      && forall k :: 0 <= k < |footers| ==>
           && footers[k].table.base !in Bases(recovered)
           && footers[k].table.targets == [] && FooterAgrees(after, footers[k])
           && Find(s.tables.entries, footers[k].table.base) == Some(footers[k].tableId)
  {
    hide FirstSeen, Bases, TargetsFor, Find, Emitted, Coalesced;
    var tables, bases := Coalesced(recovered), FirstSeen(Bases(recovered));
    EmittedAgree(s, tables);
    EmittedEntries(s, tables);
    CoalescedBases(recovered);
    var after := Emitted(s, tables).0;
    var entries, footers := after.tables.entries, SlotFooters(after.tables.entries, bases);
    SlotFootersAre(entries, bases);
    SlotFootersDistinct(entries, bases);
    forall i | 0 <= i < |s.tables.entries| && s.tables.entries[i].addr !in Bases(recovered)
      ensures HasFooter(footers, s.tables.entries[i].addr)
    {
      var e := s.tables.entries[i];
      assert entries[i] == e && e in entries;
      var k :| 0 <= k < |footers| && footers[k] == Footer(Table(e.addr, []), e.id, []);
    }
    forall k | 0 <= k < |footers|
      ensures FooterAgrees(after, footers[k])
      ensures Find(s.tables.entries, footers[k].table.base) == Some(footers[k].tableId)
    {
      var f := footers[k];
      var i :| 0 <= i < |entries| && entries[i] == Entry(f.table.base, f.tableId);
      FindEntry(after.tables, i);
      assert i < |s.tables.entries|;
      FindEntry(s.tables, i);
    }
  }

  /** One footer per table: every recovered table, with the union of its targets, and every
      table a slot pointed into before; and nothing else. */
  lemma OneFooterPerTable(s: Spaces, recovered: seq<Yield>)
    requires Consistent(s.tables) && Consistent(s.blocks)
    ensures var (after, footers) := AllFooters(s, recovered);
      && (forall i, j :: 0 <= i < j < |footers| ==> footers[i].table.base != footers[j].table.base)
      && (forall b :: b in Bases(recovered) ==> HasFooter(footers, b))
      && (forall i :: 0 <= i < |s.tables.entries| ==> HasFooter(footers, s.tables.entries[i].addr))
      && (forall k :: 0 <= k < |footers| ==> FooterAgrees(after, footers[k]))
      && (forall k :: 0 <= k < |footers| ==>
            footers[k].table.targets == FirstSeen(TargetsFor(recovered, footers[k].table.base)))
      && (forall k :: 0 <= k < |footers| && footers[k].table.base !in Bases(recovered) ==>
            Find(s.tables.entries, footers[k].table.base) == Some(footers[k].tableId))
  {
    hide Bases, TargetsFor, Find, Emitted, Coalesced, FooterAgrees, SlotFooters;
    RecoveredFooters(s, recovered);
    SlotOnlyFooters(s, recovered);
    CoalescedBases(recovered);
    var (after, first) := Emitted(s, Coalesced(recovered));
    var second := SlotFooters(after.tables.entries, FirstSeen(Bases(recovered)));
    forall b
      ensures HasFooter(first, b) || HasFooter(second, b) ==> HasFooter(first + second, b)
    {
      EitherHasFooter(first, second, b);
    }
    forall k | 0 <= k < |second|
      ensures second[k].table.targets == FirstSeen(TargetsFor(recovered, second[k].table.base))
    {
      BasesHaveTargets(recovered, second[k].table.base);
    }
  }

  lemma EitherHasFooter(first: seq<Footer>, second: seq<Footer>, base: int)
    ensures HasFooter(first, base) || HasFooter(second, base) ==> HasFooter(first + second, base)
  {
    if HasFooter(first, base) {
      var k :| 0 <= k < |first| && first[k].table.base == base;
      assert (first + second)[k] == first[k];
    } else if HasFooter(second, base) {
      var k :| 0 <= k < |second| && second[k].table.base == base;
      assert (first + second)[|first| + k] == second[k];
    }
  }

  // ---- tables and footers, over what was yielded ----

  /** Yield k names a base and a target at least. */
  predicate Names(recovered: seq<Yield>, k: int, base: int) {
    0 <= k < |recovered| && recovered[k].base == base && recovered[k].targets != []
  }

  /** Target p of yield k belongs to a base. */
  predicate Lists(recovered: seq<Yield>, base: int, k: int, p: int, target: int) {
    0 <= k < |recovered| && recovered[k].base == base && 0 <= p < |recovered[k].targets| && recovered[k].targets[p] == target
  }

  /** Some yield names base a before any names base b. */
  ghost predicate NamedBefore(recovered: seq<Yield>, a: int, b: int) {
    exists k :: Names(recovered, k, a) && forall l :: Names(recovered, l, b) ==> k < l
  }

  /** For a base, target x is listed before target y is listed for the first time. */
  ghost predicate ListedBefore(recovered: seq<Yield>, base: int, x: int, y: int) {
    exists k, p :: Lists(recovered, base, k, p, x)
                   && forall l, q :: Lists(recovered, base, l, q, y) ==> k < l || (k == l && p < q)
  }

  /** In the order of first occurrence. */
  lemma {:induction false} FirstSeenInOrder(s: seq<int>, i: nat, j: nat) returns (at: nat)
    requires i < j < |FirstSeen(s)|
    ensures at < |s| && s[at] == FirstSeen(s)[i] && forall q :: 0 <= q < |s| && s[q] == FirstSeen(s)[j] ==> at < q
  {
    var n := |s| - 1;
    if j < |FirstSeen(s[..n])| {
      at := FirstSeenInOrder(s[..n], i, j);
      assert forall q :: 0 <= q < n ==> s[..n][q] == s[q];
    } else {
      assert FirstSeen(s)[i] in FirstSeen(s[..n]);
      at :| 0 <= at < n && s[..n][at] == FirstSeen(s)[i];
      assert forall q :: 0 <= q < n ==> s[q] in s[..n];
    }
  }

  lemma {:induction false} BaseNamed(recovered: seq<Yield>, at: nat) returns (k: nat)
    requires at < |Bases(recovered)|
    ensures Names(recovered, k, Bases(recovered)[at]) && |Bases(recovered[..k])| == at
  {
    var n := |recovered| - 1;
    if at < |Bases(recovered[..n])| {
      k := BaseNamed(recovered[..n], at);
      assert recovered[..n][..k] == recovered[..k];
    } else {
      k := n;
    }
  }

  lemma {:induction false} NameCounted(recovered: seq<Yield>, k: nat, base: int)
    requires Names(recovered, k, base)
    ensures |Bases(recovered[..k])| < |Bases(recovered)| && Bases(recovered)[|Bases(recovered[..k])|] == base
  {
    var n := |recovered| - 1;
    if k < n {
      NameCounted(recovered[..n], k, base);
      assert recovered[..n][..k] == recovered[..k];
    }
  }

  lemma {:induction false} TargetListed(recovered: seq<Yield>, base: int, at: nat) returns (k: nat, p: nat)
    requires at < |TargetsFor(recovered, base)|
    ensures Lists(recovered, base, k, p, TargetsFor(recovered, base)[at]) && |TargetsFor(recovered[..k], base)| + p == at
  {
    var n := |recovered| - 1;
    if at < |TargetsFor(recovered[..n], base)| {
      k, p := TargetListed(recovered[..n], base, at);
      assert recovered[..n][..k] == recovered[..k];
    } else {
      k, p := n, at - |TargetsFor(recovered[..n], base)|;
    }
  }

  lemma {:induction false} ListCounted(recovered: seq<Yield>, base: int, k: nat, p: nat, target: int)
    requires Lists(recovered, base, k, p, target)
    ensures var at := |TargetsFor(recovered[..k], base)| + p;
      at < |TargetsFor(recovered[..k + 1], base)| <= |TargetsFor(recovered, base)| && TargetsFor(recovered, base)[at] == target
  {
    var n := |recovered| - 1;
    if k < n {
      ListCounted(recovered[..n], base, k, p, target);
      assert recovered[..n][..k] == recovered[..k] && recovered[..n][..k + 1] == recovered[..k + 1];
    } else {
      assert recovered[..k + 1] == recovered;
    }
  }

  lemma {:induction false} TargetsGrow(recovered: seq<Yield>, base: int, k: nat, l: nat)
    requires k <= l <= |recovered|
    ensures |TargetsFor(recovered[..k], base)| <= |TargetsFor(recovered[..l], base)|
    ensures |Bases(recovered[..k])| <= |Bases(recovered[..l])|
  {
    if k == l {
    } else {
      TargetsGrow(recovered, base, k, l - 1);
      assert recovered[..l][..l - 1] == recovered[..l - 1];
    }
  }

  lemma TableBefore(recovered: seq<Yield>, i: nat, j: nat)
    requires i < j < |Coalesced(recovered)|
    ensures NamedBefore(recovered, Coalesced(recovered)[i].base, Coalesced(recovered)[j].base)
  {
    hide FirstSeen, Bases, TargetsFor;
    var bases := Bases(recovered);
    var at := FirstSeenInOrder(bases, i, j);
    var k := BaseNamed(recovered, at);
    forall l | Names(recovered, l, FirstSeen(bases)[j])
      ensures k < l
    {
      NameCounted(recovered, l, FirstSeen(bases)[j]);
      if l <= k {
        TargetsGrow(recovered, 0, l, k);
      }
    }
  }

  lemma TargetBefore(recovered: seq<Yield>, base: int, i: nat, j: nat)
    requires i < j < |FirstSeen(TargetsFor(recovered, base))|
    ensures ListedBefore(recovered, base, FirstSeen(TargetsFor(recovered, base))[i], FirstSeen(TargetsFor(recovered, base))[j])
  {
    hide FirstSeen, TargetsFor;
    var all := TargetsFor(recovered, base);
    var at := FirstSeenInOrder(all, i, j);
    var k, p := TargetListed(recovered, base, at);
    forall l, q | Lists(recovered, base, l, q, FirstSeen(all)[j])
      ensures k < l || (k == l && p < q)
    {
      ListCounted(recovered, base, l, q, FirstSeen(all)[j]);
      if l < k {
        TargetsGrow(recovered, base, l + 1, k);
      }
    }
  }

  /** The coalesced tables: one for each base that is named with a target, in the order
      they are first named; each with exactly the targets listed for it, once each, in the
      order they are first listed. */
  lemma CoalescedExactly(recovered: seq<Yield>)
    ensures var tables := Coalesced(recovered);
      && (forall b :: b in TableBases(tables) <==> exists k :: Names(recovered, k, b))
      && (forall i, j :: 0 <= i < j < |tables| ==> NamedBefore(recovered, tables[i].base, tables[j].base))
      && (forall i, x :: 0 <= i < |tables| ==> (x in tables[i].targets <==> exists k, p :: Lists(recovered, tables[i].base, k, p, x)))
      && forall i, m, n :: 0 <= i < |tables| && 0 <= m < n < |tables[i].targets| ==>
           && tables[i].targets[m] != tables[i].targets[n]
           && ListedBefore(recovered, tables[i].base, tables[i].targets[m], tables[i].targets[n])
  {
    hide FirstSeen, Bases, TargetsFor, NamedBefore, ListedBefore, Names, Lists;
    var tables := Coalesced(recovered);
    CoalescedBases(recovered);
    forall b
      ensures b in Bases(recovered) <==> exists k :: Names(recovered, k, b)
    {
      BaseMembers(recovered, b);
    }
    forall i, j | 0 <= i < j < |tables|
      ensures NamedBefore(recovered, tables[i].base, tables[j].base)
    {
      TableBefore(recovered, i, j);
    }
    forall b, x
      ensures x in TargetsFor(recovered, b) <==> exists k, p :: Lists(recovered, b, k, p, x)
    {
      TargetMembers(recovered, b, x);
    }
    forall i, m, n | 0 <= i < |tables| && 0 <= m < n < |tables[i].targets|
      ensures ListedBefore(recovered, tables[i].base, tables[i].targets[m], tables[i].targets[n])
    {
      TargetBefore(recovered, tables[i].base, m, n);
    }
  }

  lemma BaseMembers(recovered: seq<Yield>, b: int)
    ensures b in Bases(recovered) <==> exists k :: Names(recovered, k, b)
  {
    hide Bases, Names;
    if b in Bases(recovered) {
      var at :| 0 <= at < |Bases(recovered)| && Bases(recovered)[at] == b;
      var k := BaseNamed(recovered, at);
    }
    if k :| Names(recovered, k, b) {
      NameIndex(recovered, k, b);
      NameCounted(recovered, k, b);
    }
  }

  lemma NameIndex(recovered: seq<Yield>, k: int, b: int)
    requires Names(recovered, k, b)
    ensures 0 <= k < |recovered|
  {
  }

  lemma TargetMembers(recovered: seq<Yield>, b: int, x: int)
    ensures x in TargetsFor(recovered, b) <==> exists k, p :: Lists(recovered, b, k, p, x)
  {
    hide TargetsFor;
    if x in TargetsFor(recovered, b) {
      var at :| 0 <= at < |TargetsFor(recovered, b)| && TargetsFor(recovered, b)[at] == x;
      var k, p := TargetListed(recovered, b, at);
    }
    if k, p :| Lists(recovered, b, k, p, x) {
      ListCounted(recovered, b, k, p, x);
    }
  }

  /** Both addresses are registered, one before the other. */
  ghost predicate RegisteredBefore(entries: seq<Entry>, a: int, b: int) {
    exists i, j :: 0 <= i < j < |entries| && entries[i].addr == a && entries[j].addr == b
  }

  /** The footers of a pass in order: the recovered tables, then the tables that were
      registered before, in the order they were registered. */
  lemma FootersInOrder(s: Spaces, recovered: seq<Yield>)
    requires Consistent(s.tables) && Consistent(s.blocks)
    ensures var tables, footers := Coalesced(recovered), AllFooters(s, recovered).1;
      && |tables| <= |footers| && (forall k :: 0 <= k < |tables| ==> footers[k].table == tables[k])
      && forall k, l :: |tables| <= k < l < |footers| ==>
           RegisteredBefore(s.tables.entries, footers[k].table.base, footers[l].table.base)
  {
    hide Coalesced, Emitted, Bases, FirstSeen, Consistent, Find, FooterAgrees, SpacesGrown;
    var tables := Coalesced(recovered);
    var (after, first) := Emitted(s, tables);
    EmittedAgree(s, tables);
    EmittedEntries(s, tables);
    var entries, emitted := after.tables.entries, TableBases(tables);
    assert s.tables.entries <= entries by { GrownEntries(s, after); }
    var second, footers := SlotFooters(entries, emitted), AllFooters(s, recovered).1;
    SlotFootersAre(entries, emitted);
    hide SlotFooters;
    forall k, l | |tables| <= k < l < |footers|
      ensures RegisteredBefore(s.tables.entries, footers[k].table.base, footers[l].table.base)
    {
      assert footers[k] == second[k - |tables|] && footers[l] == second[l - |tables|];
      var i, j := SlotsInOrder(entries, emitted, k - |tables|, l - |tables|);
      assert j < |s.tables.entries|;
      assert s.tables.entries[i] == entries[i] && s.tables.entries[j] == entries[j];
    }
  }

  lemma GrownEntries(s: Spaces, t: Spaces)
    requires SpacesGrown(s, t)
    ensures s.tables.entries <= t.tables.entries
  {
  }

  lemma {:induction false} SlotsInOrder(entries: seq<Entry>, emitted: seq<int>, k: nat, l: nat) returns (i: nat, j: nat)
    requires k < l < |SlotFooters(entries, emitted)|
    ensures i < j < |entries|
    ensures entries[i].addr == SlotFooters(entries, emitted)[k].table.base
    ensures entries[j].addr == SlotFooters(entries, emitted)[l].table.base
  {
    var n := |entries| - 1;
    var init := SlotFooters(entries[..n], emitted);
    if l < |init| {
      i, j := SlotsInOrder(entries[..n], emitted, k, l);
    } else {
      SlotFootersAre(entries[..n], emitted);
      i :| 0 <= i < n && entries[..n][i] == Entry(init[k].table.base, init[k].tableId);
      j := n;
    }
  }

  // ---- descriptions ----

  lemma {:induction false} TargetIdsBounded(blocks: Space, targets: seq<int>, tableId: nat)
    requires Consistent(blocks)
    ensures var (after, ids) := TargetIds(blocks, targets, tableId);
      && Consistent(after) && blocks.metadata <= after.metadata && |ids| == |targets|
      && forall i :: 0 <= i < |ids| ==> ids[i] < |after.metadata|
  {
    if targets == [] {
    } else {
      var n := |targets| - 1;
      TargetIdsBounded(blocks, targets[..n], tableId);
      LastTarget(blocks, targets, tableId);
      hide Consistent, TargetIds;
    }
  }

  /** What the last target adds. */
  lemma LastTarget(blocks: Space, targets: seq<int>, tableId: nat)
    requires targets != [] && Consistent(TargetIds(blocks, targets[..|targets| - 1], tableId).0)
    ensures var target := targets[|targets| - 1];
      var (before, ids) := TargetIds(blocks, targets[..|targets| - 1], tableId);
      var (after, all) := TargetIds(blocks, targets, tableId);
      && Consistent(after) && all == ids + [all[|ids|]] && all[|ids|] < |after.metadata|
      && (after.metadata == before.metadata
          || (all[|ids|] == |before.metadata| && after.metadata == before.metadata + [TargetMeta(target, tableId)]))
  {
    hide Consistent, Find, Allocated;
    var (before, ids) := TargetIds(blocks, targets[..|targets| - 1], tableId);
    AllocationKeeps(before, targets[|targets| - 1], TargetMeta(targets[|targets| - 1], tableId));
  }

  /** Every new identity of a footer's targets is described as a target of this table. */
  lemma {:induction false} TargetIdsDescribed(blocks: Space, targets: seq<int>, tableId: nat, id: nat)
    requires Consistent(blocks)
    requires |blocks.metadata| <= id < |TargetIds(blocks, targets, tableId).0.metadata|
    ensures var (after, ids) := TargetIds(blocks, targets, tableId);
      |ids| == |targets| && exists i :: 0 <= i < |ids| && ids[i] == id && after.metadata[id] == TargetMeta(targets[i], tableId)
  {
    TargetIdsBounded(blocks, targets, tableId);
    if targets == [] {
    } else {
      hide Consistent;
      var n := |targets| - 1;
      var (before, ids) := TargetIds(blocks, targets[..n], tableId);
      TargetIdsBounded(blocks, targets[..n], tableId);
      LastTarget(blocks, targets, tableId);
      if id < |before.metadata| {
        TargetIdsDescribed(blocks, targets[..n], tableId, id);
        hide TargetIds;
        var i :| 0 <= i < n && ids[i] == id && before.metadata[id] == TargetMeta(targets[..n][i], tableId);
        assert TargetIds(blocks, targets, tableId).1[i] == id && targets[..n][i] == targets[i];
      } else {
        hide TargetIds;
        assert TargetIds(blocks, targets, tableId).1[n] == id;
      }
    }
  }

  /** Footer k is the first one that names an identity as a target. */
  ghost predicate FirstToTarget(footers: seq<Footer>, k: nat, id: nat)
    requires k < |footers|
  {
    id in footers[k].targetIds && forall l :: 0 <= l < k ==> id !in footers[l].targetIds
  }

  lemma EmittedConsistent(s: Spaces, tables: seq<Table>)
    requires Consistent(s.tables) && Consistent(s.blocks)
    ensures Consistent(Emitted(s, tables).0.tables) && Consistent(Emitted(s, tables).0.blocks)
  {
    hide Consistent;
    EmittedAgree(s, tables);
  }

  /** What the last table adds to the table identities. */
  lemma LastTable(s: Spaces, tables: seq<Table>)
    requires Consistent(s.tables) && Consistent(s.blocks) && tables != []
    ensures var t := tables[|tables| - 1];
      var (before, footers) := Emitted(s, tables[..|tables| - 1]);
      var (after, all) := Emitted(s, tables);
      && |all| == |footers| + 1 && footers <= all && all[|footers|].table == t
      && (after.tables.metadata == before.tables.metadata
          || (all[|footers|].tableId == |before.tables.metadata|
              && after.tables.metadata == before.tables.metadata + [TableMeta(t.base, t.targets)]))
  {
    hide Consistent, Find, Allocated, TargetIds;
    EmittedConsistent(s, tables[..|tables| - 1]);
    var t := tables[|tables| - 1];
    AllocationKeeps(Emitted(s, tables[..|tables| - 1]).0.tables, t.base, TableMeta(t.base, t.targets));
  }

  /** Every new table identity is described by its table's base and targets. */
  lemma {:induction false} TablesDescribed(s: Spaces, tables: seq<Table>, id: nat)
    requires Consistent(s.tables) && Consistent(s.blocks)
    ensures var (after, footers) := Emitted(s, tables);
      && s.tables.metadata <= after.tables.metadata
      && (|s.tables.metadata| <= id < |after.tables.metadata| ==>
            exists k :: 0 <= k < |footers| && footers[k].tableId == id
                        && after.tables.metadata[id] == TableMeta(footers[k].table.base, footers[k].table.targets))
  {
    if tables == [] {
    } else {
      hide Consistent, Emitted;
      var init := tables[..|tables| - 1];
      TablesDescribed(s, init, id);
      LastTable(s, tables);
      var (before, footers) := Emitted(s, init);
      var (after, all) := Emitted(s, tables);
      if |before.tables.metadata| <= id < |after.tables.metadata| {
        assert all[|footers|].tableId == id;
      } else if |s.tables.metadata| <= id < |before.tables.metadata| {
        var k :| 0 <= k < |footers| && footers[k].tableId == id
                 && before.tables.metadata[id] == TableMeta(footers[k].table.base, footers[k].table.targets);
        assert all[k] == footers[k];
      }
    }
  }

  /** Every new block identity is described by one of its addresses and the table whose
      footer was the first to name it. */
  lemma {:induction false} TargetsDescribed(s: Spaces, tables: seq<Table>, id: nat)
    requires Consistent(s.tables) && Consistent(s.blocks)
    ensures var (after, footers) := Emitted(s, tables);
      && s.blocks.metadata <= after.blocks.metadata
      && (forall k, i :: 0 <= k < |footers| && 0 <= i < |footers[k].targetIds| ==> footers[k].targetIds[i] < |after.blocks.metadata|)
      && (|s.blocks.metadata| <= id < |after.blocks.metadata| ==>
            exists k, i :: 0 <= k < |footers| && FirstToTarget(footers, k, id)
                           && 0 <= i < |footers[k].targetIds| == |footers[k].table.targets| && footers[k].targetIds[i] == id
                           && after.blocks.metadata[id] == TargetMeta(footers[k].table.targets[i], footers[k].tableId))
  {
    if tables == [] {
    } else {
      hide Consistent, Find, Allocated, TargetIds;
      var n := |tables| - 1;
      var init, t := tables[..n], tables[n];
      TargetsDescribed(s, init, id);
      EmittedConsistent(s, init);
      var (before, footers) := Emitted(s, init);
      var (after, all) := Emitted(s, tables);
      var tableId := all[|footers|].tableId;
      TargetIdsBounded(before.blocks, t.targets, tableId);
      if |before.blocks.metadata| <= id < |after.blocks.metadata| {
        TargetIdsDescribed(before.blocks, t.targets, tableId, id);
        var i :| 0 <= i < |all[|footers|].targetIds| && all[|footers|].targetIds[i] == id
                 && after.blocks.metadata[id] == TargetMeta(t.targets[i], tableId);
        assert FirstToTarget(all, |footers|, id);
      } else if |s.blocks.metadata| <= id < |before.blocks.metadata| {
        var k, i :| 0 <= k < |footers| && FirstToTarget(footers, k, id)
                    && 0 <= i < |footers[k].targetIds| == |footers[k].table.targets| && footers[k].targetIds[i] == id
                    && before.blocks.metadata[id] == TargetMeta(footers[k].table.targets[i], footers[k].tableId);
        assert all[k] == footers[k] && FirstToTarget(all, k, id);
      }
    }
  }
}
