/** One fused pass over every node's surviving prefix, and the three separate
    computations it replaces: band counts, in-stream identity slots, number chunks. */
module BandReduction {
  import opened TokenSeqs
  import opened Results
  import opened RunLengths

  datatype Bands = Bands(numberLo: int, numberHi: int, identityLo: int, identityHi: int)

  /** Columns indexed by node, by in-stream slot, or by number chunk. */
  datatype Reduction = Reduction(
    identityCount: seq<int>, numberCount: seq<int>,
    instreamOff: seq<int>, funcSlot: seq<int>, counterSlot: seq<int>,
    outBlock: seq<int>, ctOrdinal: seq<int>)

  predicate IsIdentity(id: int, b: Bands) { b.identityLo <= id < b.identityHi }

  predicate IsNumber(id: int, b: Bands) { b.numberLo <= id < b.numberHi }

  function IdentityIds(ids: seq<int>, b: Bands): seq<int> {
    if ids == [] then []
    else
      var init, last := IdentityIds(ids[..|ids| - 1], b), ids[|ids| - 1];
      if IsIdentity(last, b) then init + [last] else init
  }

  function NumberIds(ids: seq<int>, b: Bands): seq<int> {
    if ids == [] then []
    else
      var init, last := NumberIds(ids[..|ids| - 1], b), ids[|ids| - 1];
      if IsNumber(last, b) then init + [last] else init
  }

  /** The number ids that are not identity ids: what the fused pass takes for numbers. */
  function OnlyNumberIds(ids: seq<int>, b: Bands): seq<int> {
    if ids == [] then []
    else
      var init, last := OnlyNumberIds(ids[..|ids| - 1], b), ids[|ids| - 1];
      if IsNumber(last, b) && !IsIdentity(last, b) then init + [last] else init
  }

  lemma {:induction false} IdentityIdsInBand(ids: seq<int>, b: Bands)
    ensures forall i :: 0 <= i < |IdentityIds(ids, b)| ==> IsIdentity(IdentityIds(ids, b)[i], b)
  {
    if ids == [] {
    } else {
      IdentityIdsInBand(ids[..|ids| - 1], b);
    }
  }

  /** All but the first identity id, which belongs to the prepended slot. */
  function InStream(ids: seq<int>, b: Bands): (r: seq<int>)
    ensures forall i :: 0 <= i < |r| ==> IsIdentity(r[i], b)
  {
    IdentityIdsInBand(ids, b);
    var all := IdentityIds(ids, b);
    if all == [] then [] else all[1..]
  }

  function Slots(ids: seq<int>, b: Bands, lut: seq<int>): seq<int>
    requires |lut| == b.identityHi - b.identityLo
    requires forall i :: 0 <= i < |ids| ==> IsIdentity(ids[i], b)
  {
    seq(|ids|, i requires 0 <= i < |ids| =>
      assert IsIdentity(ids[i], b);
      lut[ids[i] - b.identityLo])
  }

  function InStreamSlots(prefixes: seq<seq<int>>, b: Bands, lut: seq<int>): seq<seq<int>>
    requires |lut| == b.identityHi - b.identityLo
  {
    seq(|prefixes|, e requires 0 <= e < |prefixes| => Slots(InStream(prefixes[e], b), b, lut))
  }

  function InStreamSizes(prefixes: seq<seq<int>>, b: Bands): seq<int> {
    seq(|prefixes|, e requires 0 <= e < |prefixes| => |InStream(prefixes[e], b)|)
  }

  function IdentityCounts(prefixes: seq<seq<int>>, b: Bands): seq<int> {
    seq(|prefixes|, e requires 0 <= e < |prefixes| => |IdentityIds(prefixes[e], b)|)
  }

  /** Per node, the blocks its number ids stand for. */
  function ChunkBlocks(numbers: seq<seq<int>>, b: Bands): seq<seq<int>> {
    seq(|numbers|, e requires 0 <= e < |numbers| => Shift(numbers[e], -b.numberLo))
  }

  /** Per node, its own index once per number id. */
  function ChunkOwners(numbers: seq<seq<int>>): seq<seq<int>> {
    seq(|numbers|, e requires 0 <= e < |numbers| => seq(|numbers[e]|, _ => e))
  }

  /** The reduction in which node e's number ids are `numbers[e]`. */
  function Assembled(prefixes: seq<seq<int>>, numbers: seq<seq<int>>, b: Bands,
                     funcLut: seq<int>, counterLut: seq<int>): Reduction
    requires |funcLut| == |counterLut| == b.identityHi - b.identityLo
  {
    Reduction(IdentityCounts(prefixes, b), Sizes(numbers),
              [0] + CumSum(InStreamSizes(prefixes, b)),
              Concat(InStreamSlots(prefixes, b, funcLut)), Concat(InStreamSlots(prefixes, b, counterLut)),
              Concat(ChunkBlocks(numbers, b)), Concat(ChunkOwners(numbers)))
  }

  function AllNumbers(prefixes: seq<seq<int>>, b: Bands): seq<seq<int>> {
    seq(|prefixes|, e requires 0 <= e < |prefixes| => NumberIds(prefixes[e], b))
  }

  function OnlyNumbers(prefixes: seq<seq<int>>, b: Bands): seq<seq<int>> {
    seq(|prefixes|, e requires 0 <= e < |prefixes| => OnlyNumberIds(prefixes[e], b))
  }

  /** The three computations done separately, each with its own band mask. */
  function Separate(prefixes: seq<seq<int>>, b: Bands, funcLut: seq<int>, counterLut: seq<int>): Reduction
    requires |funcLut| == |counterLut| == b.identityHi - b.identityLo
  {
    Assembled(prefixes, AllNumbers(prefixes, b), b, funcLut, counterLut)
  }

  // ---- the fused pass ----

  predicate WindowFits(expanded: seq<int>, nodeOffsets: seq<int>, e: nat)
    requires e + 1 < |nodeOffsets|
  {
    0 <= nodeOffsets[e] <= nodeOffsets[e + 1] <= |expanded|
  }

  predicate WellFormed(expanded: seq<int>, nodeOffsets: seq<int>, surviving: seq<int>, b: Bands,
                       funcLut: seq<int>, counterLut: seq<int>)
  {
    && |nodeOffsets| == |surviving| + 1
    && |funcLut| == |counterLut| == b.identityHi - b.identityLo
    && forall e :: 0 <= e < |surviving| ==> WindowFits(expanded, nodeOffsets, e)
  }

  /** How many slots of a node's window survive. */
  function Kept(surviving: int, window: nat): nat {
    if surviving < 0 then 0 else if surviving <= window then surviving else window
  }

  function SurvivingPrefix(expanded: seq<int>, nodeOffsets: seq<int>, surviving: int, e: nat): seq<int>
    requires e + 1 < |nodeOffsets| && WindowFits(expanded, nodeOffsets, e)
  {
    var start := nodeOffsets[e];
    expanded[start..start + Kept(surviving, nodeOffsets[e + 1] - start)]
  }

  function Prefixes(expanded: seq<int>, nodeOffsets: seq<int>, surviving: seq<int>): seq<seq<int>>
    requires |nodeOffsets| == |surviving| + 1
    requires forall e :: 0 <= e < |surviving| ==> WindowFits(expanded, nodeOffsets, e)
  {
    seq(|surviving|, e requires 0 <= e < |surviving| => SurvivingPrefix(expanded, nodeOffsets, surviving[e], e))
  }

  lemma SlotsNext(ids: seq<int>, id: int, b: Bands, lut: seq<int>)
    requires |lut| == b.identityHi - b.identityLo && IsIdentity(id, b)
    requires forall i :: 0 <= i < |ids| ==> IsIdentity(ids[i], b)
    ensures Slots(ids + [id], b, lut) == Slots(ids, b, lut) + [lut[id - b.identityLo]]
  {
  }

  /** A slot column behind a node's prefix. */
  function WithSlots(column: seq<int>, ids: seq<int>, b: Bands, lut: seq<int>): seq<int>
    requires |lut| == b.identityHi - b.identityLo
  {
    column + Slots(InStream(ids, b), b, lut)
  }

  function WithBlocks(column: seq<int>, ids: seq<int>, b: Bands): seq<int> {
    column + Shift(OnlyNumberIds(ids, b), -b.numberLo)
  }

  function WithOwners(column: seq<int>, ids: seq<int>, b: Bands, e: nat): seq<int> {
    column + seq(|OnlyNumberIds(ids, b)|, _ => e)
  }

  lemma WithSlotsNext(column: seq<int>, ids: seq<int>, k: nat, b: Bands, lut: seq<int>)
    requires |lut| == b.identityHi - b.identityLo && k < |ids|
    ensures WithSlots(column, ids[..k + 1], b, lut)
            == WithSlots(column, ids[..k], b, lut)
               + if IsIdentity(ids[k], b) && IdentityIds(ids[..k], b) != [] then [lut[ids[k] - b.identityLo]] else []
  {
    hide IdentityIds, InStream, Slots;
    SlotNext(ids, k, b);
    if IsIdentity(ids[k], b) && IdentityIds(ids[..k], b) != [] {
      SlotsNext(InStream(ids[..k], b), ids[k], b, lut);
      AppendAssoc(column, Slots(InStream(ids[..k], b), b, lut), [lut[ids[k] - b.identityLo]]);
    }
  }

  lemma WithNumbersNext(blocks: seq<int>, owners: seq<int>, ids: seq<int>, k: nat, b: Bands, e: nat)
    requires k < |ids|
    ensures var taken := IsNumber(ids[k], b) && !IsIdentity(ids[k], b);
      && WithBlocks(blocks, ids[..k + 1], b) == WithBlocks(blocks, ids[..k], b) + (if taken then [ids[k] - b.numberLo] else [])
      && WithOwners(owners, ids[..k + 1], b, e) == WithOwners(owners, ids[..k], b, e) + (if taken then [e] else [])
  {
    hide OnlyNumberIds, Shift;
    SlotNext(ids, k, b);
    var numbers := OnlyNumberIds(ids[..k], b);
    if IsNumber(ids[k], b) && !IsIdentity(ids[k], b) {
      ShiftSnoc(numbers, ids[k], -b.numberLo);
      AppendAssoc(blocks, Shift(numbers, -b.numberLo), [ids[k] - b.numberLo]);
      OwnersNext(owners, |numbers|, e);
    }
  }

  lemma InBands(id: int, b: Bands)
    ensures IsIdentity(id, b) <==> b.identityLo <= id < b.identityHi
    ensures IsNumber(id, b) <==> b.numberLo <= id < b.numberHi
  {
  }

  lemma NothingTaken(column: seq<int>, ids: seq<int>, b: Bands, lut: seq<int>, e: nat)
    requires |lut| == b.identityHi - b.identityLo
    ensures IdentityIds(ids[..0], b) == [] && OnlyNumberIds(ids[..0], b) == [] && InStream(ids[..0], b) == []
    ensures WithSlots(column, ids[..0], b, lut) == WithBlocks(column, ids[..0], b) == WithOwners(column, ids[..0], b, e) == column
  {
    assert column + [] == column;
  }

  /** The outputs while they grow: per-node counts and offsets are zero-filled arrays,
      the per-slot and per-chunk columns are appended to. */
  class FamilyBandReductionOut {
    const identityCount: array<int>
    const numberCount: array<int>
    const instreamOff: array<int>
    var funcSlot: seq<int>
    var counterSlot: seq<int>
    var outBlock: seq<int>
    var ctOrdinal: seq<int>

    constructor (n: nat)
      ensures Sized(n) && Untouched(0) && UpTo(0) == Reduction([], [], [0], [], [], [], [])
      ensures fresh(identityCount) && fresh(numberCount) && fresh(instreamOff)
    {
      identityCount, numberCount := new int[n](_ => 0), new int[n](_ => 0);
      instreamOff := new int[n + 1](_ => 0);
      funcSlot, counterSlot, outBlock, ctOrdinal := [], [], [], [];
    }

    ghost predicate Sized(n: nat) {
      && identityCount.Length == numberCount.Length == n && instreamOff.Length == n + 1
      && identityCount != numberCount && identityCount != instreamOff && numberCount != instreamOff
    }

    /** Nothing was counted for node e or a later one. */
    ghost predicate Untouched(e: nat)
      reads identityCount, numberCount
    {
      && (forall k :: e <= k < identityCount.Length ==> identityCount[k] == 0)
      && (forall k :: e <= k < numberCount.Length ==> numberCount[k] == 0)
    }

    /** The columns of the first e nodes. */
    function UpTo(e: nat): Reduction
      requires e <= identityCount.Length && e <= numberCount.Length && e + 1 <= instreamOff.Length
      reads this, identityCount, numberCount, instreamOff
    {
      Reduction(identityCount[..e], numberCount[..e], instreamOff[..e + 1], funcSlot, counterSlot, outBlock, ctOrdinal)
    }

    /** One surviving slot: an identity, a number, or neither. */
    method TakeSlot(id: int, e: nat, n: nat, seenIdentity: bool, b: Bands, funcLut: seq<int>, counterLut: seq<int>)
      requires e < n && Sized(n) && |funcLut| == |counterLut| == b.identityHi - b.identityLo
      modifies this, identityCount, numberCount
      ensures var isIdentity := b.identityLo <= id < b.identityHi;
        var isNumber := !isIdentity && b.numberLo <= id < b.numberHi;
        && identityCount[..] == old(identityCount[..])[e := old(identityCount[e]) + if isIdentity then 1 else 0]
        && numberCount[..] == old(numberCount[..])[e := old(numberCount[e]) + if isNumber then 1 else 0]
        && funcSlot == old(funcSlot) + (if isIdentity && seenIdentity then [funcLut[id - b.identityLo]] else [])
        && counterSlot == old(counterSlot) + (if isIdentity && seenIdentity then [counterLut[id - b.identityLo]] else [])
        && outBlock == old(outBlock) + (if isNumber then [id - b.numberLo] else [])
        && ctOrdinal == old(ctOrdinal) + (if isNumber then [e] else [])
    {
      if b.identityLo <= id && id < b.identityHi {
        identityCount[e] := identityCount[e] + 1;
        if seenIdentity {
          funcSlot := funcSlot + [funcLut[id - b.identityLo]];
          counterSlot := counterSlot + [counterLut[id - b.identityLo]];
        }
      } else if b.numberLo <= id && id < b.numberHi {
        numberCount[e] := numberCount[e] + 1;
        outBlock := outBlock + [id - b.numberLo];
        ctOrdinal := ctOrdinal + [e];
      }
    }

    /** The inner loop: one node's surviving slots. */
    method WalkNode(expanded: seq<int>, start: nat, limit: nat, n: nat, e: nat, b: Bands,
                    funcLut: seq<int>, counterLut: seq<int>, running: int) returns (instreamRunning: int)
      requires start <= limit <= |expanded| && e < n && Sized(n) && Untouched(e)
      requires |funcLut| == |counterLut| == b.identityHi - b.identityLo
      modifies this, identityCount, numberCount, instreamOff
      ensures var ids, r := expanded[start..limit], old(UpTo(e));
        && instreamRunning == running + |InStream(ids, b)|
        && UpTo(e + 1)
           == Reduction(r.identityCount + [|IdentityIds(ids, b)|], r.numberCount + [|OnlyNumberIds(ids, b)|],
                        r.instreamOff + [instreamRunning],
                        WithSlots(r.funcSlot, ids, b, funcLut), WithSlots(r.counterSlot, ids, b, counterLut),
                        WithBlocks(r.outBlock, ids, b), WithOwners(r.ctOrdinal, ids, b, e))
      ensures Untouched(e + 1)
    {
      hide IdentityIds, OnlyNumberIds, InStream, WithSlots, WithBlocks, WithOwners, IsIdentity, IsNumber;
      instreamRunning := running;
      var seenIdentity := false;
      ghost var ids := expanded[start..limit];
      ghost var r := UpTo(e);
      ghost var identities, numbers, offsets := identityCount[..], numberCount[..], instreamOff[..];
      NothingTaken(funcSlot, ids, b, funcLut, e);
      NothingTaken(counterSlot, ids, b, counterLut, e);
      NothingTaken(outBlock, ids, b, funcLut, e);
      NothingTaken(ctOrdinal, ids, b, funcLut, e);
      for p := start to limit
        invariant identityCount[..] == identities[e := |IdentityIds(ids[..p - start], b)|]
        invariant numberCount[..] == numbers[e := |OnlyNumberIds(ids[..p - start], b)|]
        invariant instreamOff[..] == offsets
        invariant seenIdentity <==> IdentityIds(ids[..p - start], b) != []
        invariant instreamRunning == running + |InStream(ids[..p - start], b)|
        invariant funcSlot == WithSlots(r.funcSlot, ids[..p - start], b, funcLut)
        invariant counterSlot == WithSlots(r.counterSlot, ids[..p - start], b, counterLut)
        invariant outBlock == WithBlocks(r.outBlock, ids[..p - start], b)
        invariant ctOrdinal == WithOwners(r.ctOrdinal, ids[..p - start], b, e)
      {
        var id := expanded[p];
        ghost var k := p - start;
        assert ids[k] == id;
        SlotNext(ids, k, b);
        WithSlotsNext(r.funcSlot, ids, k, b, funcLut);
        WithSlotsNext(r.counterSlot, ids, k, b, counterLut);
        WithNumbersNext(r.outBlock, r.ctOrdinal, ids, k, b, e);
        InBands(id, b);
        TakeSlot(id, e, n, seenIdentity, b, funcLut, counterLut);
        if b.identityLo <= id && id < b.identityHi {
          if seenIdentity {
            instreamRunning := instreamRunning + 1;
          }
          seenIdentity := true;
        }
      }
      assert ids[..limit - start] == ids;
      instreamOff[e + 1] := instreamRunning;
    }
  }

  lemma OwnersNext(before: seq<int>, n: nat, e: int)
    ensures before + seq(n, _ => e) + [e] == before + seq(n + 1, _ => e)
  {
  }

  /** What one more slot adds to the identity ids, the in-stream ids and the number ids. */
  lemma SlotNext(ids: seq<int>, k: nat, b: Bands)
    requires k < |ids|
    ensures var id, before, after := ids[k], ids[..k], ids[..k + 1];
      && (IsIdentity(id, b) ==>
            && |IdentityIds(after, b)| == |IdentityIds(before, b)| + 1
            && InStream(after, b) == (if IdentityIds(before, b) == [] then InStream(before, b) else InStream(before, b) + [id])
            && OnlyNumberIds(after, b) == OnlyNumberIds(before, b))
      && (!IsIdentity(id, b) ==>
            && IdentityIds(after, b) == IdentityIds(before, b) && InStream(after, b) == InStream(before, b)
            && OnlyNumberIds(after, b)
               == if IsNumber(id, b) then OnlyNumberIds(before, b) + [id] else OnlyNumberIds(before, b))
  {
    assert ids[..k + 1][..k] == ids[..k];
  }

  // ---- the columns, over the expanded stream itself ----

  /** The in-stream offsets: node e owns max(count - 1, 0) slots, and the last offset is
      the number of slots. */
  lemma InStreamOffsets(prefixes: seq<seq<int>>, numbers: seq<seq<int>>, b: Bands,
                        funcLut: seq<int>, counterLut: seq<int>, e: nat)
    requires |funcLut| == |counterLut| == b.identityHi - b.identityLo && e < |prefixes|
    ensures var r := Assembled(prefixes, numbers, b, funcLut, counterLut);
      && |r.instreamOff| == |prefixes| + 1 && |r.identityCount| == |prefixes|
      && r.instreamOff[e + 1] - r.instreamOff[e] == (if r.identityCount[e] >= 1 then r.identityCount[e] - 1 else 0)
      && r.instreamOff[|prefixes|] == |r.funcSlot| == |r.counterSlot|
      && 0 <= r.instreamOff[e] <= r.instreamOff[e + 1] <= |r.funcSlot|
      && r.funcSlot[r.instreamOff[e]..r.instreamOff[e + 1]] == Slots(InStream(prefixes[e], b), b, funcLut)
      && r.counterSlot[r.instreamOff[e]..r.instreamOff[e + 1]] == Slots(InStream(prefixes[e], b), b, counterLut)
  {
    hide Concat, Sum, IdentityIds;
    var r := Assembled(prefixes, numbers, b, funcLut, counterLut);
    OffsetIs(prefixes, b, funcLut, e);
    OffsetIs(prefixes, b, counterLut, e);
    OffsetIs(prefixes, b, funcLut, e + 1);
    OffsetIs(prefixes, b, counterLut, e + 1);
    OffsetIs(prefixes, b, funcLut, |prefixes|);
    OffsetIs(prefixes, b, counterLut, |prefixes|);
    JoinedNext(InStreamSlots(prefixes, b, funcLut), e);
    JoinedSlice(InStreamSlots(prefixes, b, funcLut), e);
    JoinedNext(InStreamSlots(prefixes, b, counterLut), e);
    JoinedSlice(InStreamSlots(prefixes, b, counterLut), e);
    AllLists(prefixes, b, funcLut);
    AllLists(prefixes, b, counterLut);
    InStreamSize(prefixes[e], b);
  }

  lemma InStreamSize(ids: seq<int>, b: Bands)
    ensures |InStream(ids, b)| == if |IdentityIds(ids, b)| >= 1 then |IdentityIds(ids, b)| - 1 else 0
  {
  }

  lemma AllLists(prefixes: seq<seq<int>>, b: Bands, lut: seq<int>)
    requires |lut| == b.identityHi - b.identityLo
    ensures InStreamSlots(prefixes, b, lut)[..|prefixes|] == InStreamSlots(prefixes, b, lut)
  {
  }

  lemma OffsetIs(prefixes: seq<seq<int>>, b: Bands, lut: seq<int>, e: nat)
    requires |lut| == b.identityHi - b.identityLo && e <= |prefixes|
    ensures ([0] + CumSum(InStreamSizes(prefixes, b)))[e] == |Concat(InStreamSlots(prefixes, b, lut)[..e])|
  {
    hide Concat, Sum, InStream;
    var lists := InStreamSlots(prefixes, b, lut)[..e];
    assert InStreamSizes(prefixes, b)[..e] == Sizes(lists);
    SumOfSizes(lists);
    SumEmpty();
  }

  /** Node e's entries of the chunk columns. */
  lemma ChunkPart(numbers: seq<seq<int>>, b: Bands, e: nat)
    requires e < |numbers|
    ensures var from, blocks, owners := Sum(Sizes(numbers)[..e]), Concat(ChunkBlocks(numbers, b)), Concat(ChunkOwners(numbers));
      && 0 <= from && from + |numbers[e]| <= |blocks| == |owners|
      && (forall j :: 0 <= j < |numbers[e]| ==> blocks[from + j] == numbers[e][j] - b.numberLo && owners[from + j] == e)
  {
    hide Concat, Sum;
    var blocks, owners := ChunkBlocks(numbers, b), ChunkOwners(numbers);
    assert Sizes(blocks) == Sizes(owners) == Sizes(numbers);
    assert Sizes(blocks[..e]) == Sizes(owners[..e]) == Sizes(numbers)[..e];
    SumOfSizes(blocks[..e]);
    SumOfSizes(owners[..e]);
    SumOfSizes(blocks);
    SumOfSizes(owners);
    JoinedSlice(blocks, e);
    JoinedSlice(owners, e);
    var from, n := Sum(Sizes(numbers)[..e]), |numbers[e]|;
    forall j | 0 <= j < n
      ensures Concat(blocks)[from + j] == numbers[e][j] - b.numberLo && Concat(owners)[from + j] == e
    {
      assert Concat(blocks)[from..from + n][j] == blocks[e][j];
      assert Concat(owners)[from..from + n][j] == owners[e][j];
    }
  }

  /** The slots between two positions whose ids lie in the identity band. */
  ghost function IdentitiesIn(expanded: seq<int>, lo: nat, hi: nat, b: Bands): set<int>
    requires lo <= hi <= |expanded|
  {
    set p | lo <= p < hi && b.identityLo <= expanded[p] < b.identityHi
  }

  /** The slots between two positions whose ids lie in the number band only. */
  ghost function NumbersIn(expanded: seq<int>, lo: nat, hi: nat, b: Bands): set<int>
    requires lo <= hi <= |expanded|
  {
    set p | lo <= p < hi && b.numberLo <= expanded[p] < b.numberHi && !(b.identityLo <= expanded[p] < b.identityHi)
  }

  lemma MoreIn(expanded: seq<int>, lo: nat, hi: nat, b: Bands)
    requires lo <= hi < |expanded|
    ensures |IdentitiesIn(expanded, lo, hi + 1, b)|
            == |IdentitiesIn(expanded, lo, hi, b)| + if IsIdentity(expanded[hi], b) then 1 else 0
    ensures |NumbersIn(expanded, lo, hi + 1, b)|
            == |NumbersIn(expanded, lo, hi, b)| + if IsNumber(expanded[hi], b) && !IsIdentity(expanded[hi], b) then 1 else 0
  {
    var id := expanded[hi];
    assert IdentitiesIn(expanded, lo, hi + 1, b) == IdentitiesIn(expanded, lo, hi, b) + if IsIdentity(id, b) then {hi} else {};
    assert NumbersIn(expanded, lo, hi + 1, b)
           == NumbersIn(expanded, lo, hi, b) + if IsNumber(id, b) && !IsIdentity(id, b) then {hi} else {};
  }

  lemma {:induction false} IdsCounted(expanded: seq<int>, lo: nat, hi: nat, b: Bands)
    requires lo <= hi <= |expanded|
    ensures |IdentityIds(expanded[lo..hi], b)| == |IdentitiesIn(expanded, lo, hi, b)|
    ensures |OnlyNumberIds(expanded[lo..hi], b)| == |NumbersIn(expanded, lo, hi, b)|
  {
    if lo == hi {
      assert IdentitiesIn(expanded, lo, hi, b) == {} && NumbersIn(expanded, lo, hi, b) == {};
    } else {
      IdsCounted(expanded, lo, hi - 1, b);
      MoreIn(expanded, lo, hi - 1, b);
      assert expanded[lo..hi][..hi - 1 - lo] == expanded[lo..hi - 1];
      hide IdentitiesIn, NumbersIn;
    }
  }

  /** An id stands among those of its band at its rank. */
  lemma {:induction false} IdPlaced(expanded: seq<int>, lo: nat, hi: nat, b: Bands, p: nat)
    requires lo <= p < hi <= |expanded|
    ensures IsIdentity(expanded[p], b) ==>
      var ids, j := IdentityIds(expanded[lo..hi], b), |IdentitiesIn(expanded, lo, p, b)|;
      j < |ids| && ids[j] == expanded[p]
    ensures IsNumber(expanded[p], b) && !IsIdentity(expanded[p], b) ==>
      var ids, j := OnlyNumberIds(expanded[lo..hi], b), |NumbersIn(expanded, lo, p, b)|;
      j < |ids| && ids[j] == expanded[p]
  {
    hide IdentitiesIn, NumbersIn;
    assert expanded[lo..hi][..hi - 1 - lo] == expanded[lo..hi - 1];
    if p == hi - 1 {
      IdsCounted(expanded, lo, p, b);
    } else {
      IdPlaced(expanded, lo, hi - 1, b, p);
    }
  }

  /** The surviving identity slots of a node before a position. */
  ghost function SurvivingIdentities(expanded: seq<int>, nodeOffsets: seq<int>, surviving: seq<int>, b: Bands,
                                     e: nat, before: int): set<int>
    requires |nodeOffsets| == |surviving| + 1 && e < |surviving| && WindowFits(expanded, nodeOffsets, e)
  {
    set p | && nodeOffsets[e] <= p < nodeOffsets[e + 1] && p - nodeOffsets[e] < surviving[e] && p < before
            && b.identityLo <= expanded[p] < b.identityHi
  }

  /** The surviving number slots of a node before a position. */
  ghost function SurvivingNumbers(expanded: seq<int>, nodeOffsets: seq<int>, surviving: seq<int>, b: Bands,
                                  e: nat, before: int): set<int>
    requires |nodeOffsets| == |surviving| + 1 && e < |surviving| && WindowFits(expanded, nodeOffsets, e)
  {
    set p | && nodeOffsets[e] <= p < nodeOffsets[e + 1] && p - nodeOffsets[e] < surviving[e] && p < before
            && b.numberLo <= expanded[p] < b.numberHi && !(b.identityLo <= expanded[p] < b.identityHi)
  }

  lemma SurvivingAreIn(expanded: seq<int>, nodeOffsets: seq<int>, surviving: seq<int>, b: Bands, e: nat, before: int)
    requires |nodeOffsets| == |surviving| + 1 && e < |surviving| && WindowFits(expanded, nodeOffsets, e)
    requires nodeOffsets[e] <= before
    ensures var lo := nodeOffsets[e];
      var limit := lo + |SurvivingPrefix(expanded, nodeOffsets, surviving[e], e)|;
      var hi := if before <= limit then before else limit;
      && lo <= hi <= limit <= nodeOffsets[e + 1] <= |expanded| && SurvivingPrefix(expanded, nodeOffsets, surviving[e], e) == expanded[lo..limit]
      && SurvivingIdentities(expanded, nodeOffsets, surviving, b, e, before) == IdentitiesIn(expanded, lo, hi, b)
      && SurvivingNumbers(expanded, nodeOffsets, surviving, b, e, before) == NumbersIn(expanded, lo, hi, b)
  {
  }

  /** A surviving identity with j others of its node before it has in-stream slot j - 1 of
      the node, and none if it is the first. */
  ghost predicate IdentityPlaced(expanded: seq<int>, nodeOffsets: seq<int>, surviving: seq<int>, b: Bands,
                                 funcLut: seq<int>, counterLut: seq<int>, r: Reduction, e: nat, p: int)
    requires WellFormed(expanded, nodeOffsets, surviving, b, funcLut, counterLut) && e < |surviving|
    requires p in SurvivingIdentities(expanded, nodeOffsets, surviving, b, e, nodeOffsets[e + 1])
  {
    var j := |SurvivingIdentities(expanded, nodeOffsets, surviving, b, e, p)|;
    && e < |r.instreamOff| && |r.funcSlot| == |r.counterSlot|
    && (j > 0 ==>
          var at, k := r.instreamOff[e] + j - 1, expanded[p] - b.identityLo;
          0 <= at < |r.funcSlot| && r.funcSlot[at] == funcLut[k] && r.counterSlot[at] == counterLut[k])
  }

  /** A surviving number with j others of its node before it has chunk j of the node. */
  ghost predicate NumberPlaced(expanded: seq<int>, nodeOffsets: seq<int>, surviving: seq<int>, b: Bands,
                               r: Reduction, e: nat, p: int)
    requires |nodeOffsets| == |surviving| + 1 && e < |surviving| && WindowFits(expanded, nodeOffsets, e)
    requires p in SurvivingNumbers(expanded, nodeOffsets, surviving, b, e, nodeOffsets[e + 1])
  {
    && e < |r.numberCount| && |r.outBlock| == |r.ctOrdinal|
    && var at := Sum(r.numberCount[..e]) + |SurvivingNumbers(expanded, nodeOffsets, surviving, b, e, p)|;
       0 <= at < |r.outBlock| && r.outBlock[at] == expanded[p] - b.numberLo && r.ctOrdinal[at] == e
  }

  /** Node e in the columns: its surviving identities and numbers are counted, and each has
      its entries at its rank. */
  ghost predicate NodeReduced(expanded: seq<int>, nodeOffsets: seq<int>, surviving: seq<int>, b: Bands,
                              funcLut: seq<int>, counterLut: seq<int>, r: Reduction, e: nat)
    requires WellFormed(expanded, nodeOffsets, surviving, b, funcLut, counterLut) && e < |surviving|
  {
    var ids := SurvivingIdentities(expanded, nodeOffsets, surviving, b, e, nodeOffsets[e + 1]);
    var numbers := SurvivingNumbers(expanded, nodeOffsets, surviving, b, e, nodeOffsets[e + 1]);
    && |r.identityCount| == |r.numberCount| == |surviving| && |r.instreamOff| == |surviving| + 1
    && r.identityCount[e] == |ids| && r.numberCount[e] == |numbers|
    && r.instreamOff[e + 1] == r.instreamOff[e] + (if |ids| >= 1 then |ids| - 1 else 0)
    && (forall p :: p in ids ==> IdentityPlaced(expanded, nodeOffsets, surviving, b, funcLut, counterLut, r, e, p))
    && (forall p :: p in numbers ==> NumberPlaced(expanded, nodeOffsets, surviving, b, r, e, p))
  }

  /** The columns hold all nodes and nothing else. */
  ghost predicate IsReduced(expanded: seq<int>, nodeOffsets: seq<int>, surviving: seq<int>, b: Bands,
                            funcLut: seq<int>, counterLut: seq<int>, r: Reduction)
    requires WellFormed(expanded, nodeOffsets, surviving, b, funcLut, counterLut)
  {
    && |r.identityCount| == |r.numberCount| == |surviving| && |r.instreamOff| == |surviving| + 1
    && r.instreamOff[0] == 0 && r.instreamOff[|surviving|] == |r.funcSlot| == |r.counterSlot|
    && Sum(r.numberCount) == |r.outBlock| == |r.ctOrdinal|
    && forall e :: 0 <= e < |surviving| ==> NodeReduced(expanded, nodeOffsets, surviving, b, funcLut, counterLut, r, e)
  }

  lemma IdentityAt(expanded: seq<int>, nodeOffsets: seq<int>, surviving: seq<int>, b: Bands,
                   funcLut: seq<int>, counterLut: seq<int>, e: nat, p: int)
    requires WellFormed(expanded, nodeOffsets, surviving, b, funcLut, counterLut) && e < |surviving|
    requires p in SurvivingIdentities(expanded, nodeOffsets, surviving, b, e, nodeOffsets[e + 1])
    ensures var prefixes := Prefixes(expanded, nodeOffsets, surviving);
      var r := Assembled(prefixes, OnlyNumbers(prefixes, b), b, funcLut, counterLut);
      IdentityPlaced(expanded, nodeOffsets, surviving, b, funcLut, counterLut, r, e, p)
  {
    hide Concat, Sum, CumSum, IdentityIds, OnlyNumberIds, SurvivingPrefix, IdentitiesIn, NumbersIn;
    var prefixes := Prefixes(expanded, nodeOffsets, surviving);
    var numbers := OnlyNumbers(prefixes, b);
    var r := Assembled(prefixes, numbers, b, funcLut, counterLut);
    var lo, ids := nodeOffsets[e], prefixes[e];
    SurvivingAreIn(expanded, nodeOffsets, surviving, b, e, nodeOffsets[e + 1]);
    SurvivingAreIn(expanded, nodeOffsets, surviving, b, e, p);
    InIdentities(expanded, lo, lo + |ids|, b, p);
    IdPlaced(expanded, lo, lo + |ids|, b, p);
    InStreamOffsets(prefixes, numbers, b, funcLut, counterLut, e);
    var j, off, to := |IdentitiesIn(expanded, lo, p, b)|, r.instreamOff[e], r.instreamOff[e + 1];
    hide SurvivingIdentities, SurvivingNumbers;
    if j > 0 {
      assert InStream(ids, b)[j - 1] == IdentityIds(ids, b)[j] == expanded[p];
      assert r.funcSlot[off..to][j - 1] == Slots(InStream(ids, b), b, funcLut)[j - 1];
      assert r.counterSlot[off..to][j - 1] == Slots(InStream(ids, b), b, counterLut)[j - 1];
    }
  }

  lemma InIdentities(expanded: seq<int>, lo: nat, hi: nat, b: Bands, p: int)
    requires lo <= hi <= |expanded|
    ensures p in IdentitiesIn(expanded, lo, hi, b) ==> lo <= p < hi && IsIdentity(expanded[p], b)
    ensures p in NumbersIn(expanded, lo, hi, b) ==> lo <= p < hi && IsNumber(expanded[p], b) && !IsIdentity(expanded[p], b)
  {
  }

  lemma NumberAt(expanded: seq<int>, nodeOffsets: seq<int>, surviving: seq<int>, b: Bands,
                 funcLut: seq<int>, counterLut: seq<int>, e: nat, p: int)
    requires WellFormed(expanded, nodeOffsets, surviving, b, funcLut, counterLut) && e < |surviving|
    requires p in SurvivingNumbers(expanded, nodeOffsets, surviving, b, e, nodeOffsets[e + 1])
    ensures var prefixes := Prefixes(expanded, nodeOffsets, surviving);
      var r := Assembled(prefixes, OnlyNumbers(prefixes, b), b, funcLut, counterLut);
      NumberPlaced(expanded, nodeOffsets, surviving, b, r, e, p)
  {
    hide Concat, Sum, CumSum, IdentityIds, OnlyNumberIds, SurvivingPrefix, IdentitiesIn, NumbersIn;
    var prefixes := Prefixes(expanded, nodeOffsets, surviving);
    var numbers := OnlyNumbers(prefixes, b);
    var lo, ids := nodeOffsets[e], prefixes[e];
    SurvivingAreIn(expanded, nodeOffsets, surviving, b, e, nodeOffsets[e + 1]);
    SurvivingAreIn(expanded, nodeOffsets, surviving, b, e, p);
    InIdentities(expanded, lo, lo + |ids|, b, p);
    IdPlaced(expanded, lo, lo + |ids|, b, p);
    ChunkPart(numbers, b, e);
    var j := |NumbersIn(expanded, lo, p, b)|;
    hide SurvivingIdentities, SurvivingNumbers;
    assert |SurvivingNumbers(expanded, nodeOffsets, surviving, b, e, p)| == j && numbers[e][j] == expanded[p];
    assert Concat(ChunkBlocks(numbers, b))[Sum(Sizes(numbers)[..e]) + j] == expanded[p] - b.numberLo;
  }

  lemma NodeExactly(expanded: seq<int>, nodeOffsets: seq<int>, surviving: seq<int>, b: Bands,
                    funcLut: seq<int>, counterLut: seq<int>, e: nat)
    requires WellFormed(expanded, nodeOffsets, surviving, b, funcLut, counterLut) && e < |surviving|
    ensures var prefixes := Prefixes(expanded, nodeOffsets, surviving);
      var r := Assembled(prefixes, OnlyNumbers(prefixes, b), b, funcLut, counterLut);
      NodeReduced(expanded, nodeOffsets, surviving, b, funcLut, counterLut, r, e)
  {
    hide Concat, Sum, CumSum, IdentityIds, OnlyNumberIds, SurvivingPrefix;
    hide SurvivingIdentities, SurvivingNumbers, IdentitiesIn, NumbersIn, IdentityPlaced, NumberPlaced;
    var prefixes := Prefixes(expanded, nodeOffsets, surviving);
    var r := Assembled(prefixes, OnlyNumbers(prefixes, b), b, funcLut, counterLut);
    var lo, ids := nodeOffsets[e], prefixes[e];
    SurvivingAreIn(expanded, nodeOffsets, surviving, b, e, nodeOffsets[e + 1]);
    IdsCounted(expanded, lo, lo + |ids|, b);
    InStreamOffsets(prefixes, OnlyNumbers(prefixes, b), b, funcLut, counterLut, e);
    forall p | p in SurvivingIdentities(expanded, nodeOffsets, surviving, b, e, nodeOffsets[e + 1])
      ensures IdentityPlaced(expanded, nodeOffsets, surviving, b, funcLut, counterLut, r, e, p)
    {
      IdentityAt(expanded, nodeOffsets, surviving, b, funcLut, counterLut, e, p);
    }
    forall p | p in SurvivingNumbers(expanded, nodeOffsets, surviving, b, e, nodeOffsets[e + 1])
      ensures NumberPlaced(expanded, nodeOffsets, surviving, b, r, e, p)
    {
      NumberAt(expanded, nodeOffsets, surviving, b, funcLut, counterLut, e, p);
    }
  }

  /** The whole result, over the expanded stream. */
  lemma ReducedExactly(expanded: seq<int>, nodeOffsets: seq<int>, surviving: seq<int>, b: Bands,
                       funcLut: seq<int>, counterLut: seq<int>)
    requires WellFormed(expanded, nodeOffsets, surviving, b, funcLut, counterLut)
    ensures var prefixes := Prefixes(expanded, nodeOffsets, surviving);
      IsReduced(expanded, nodeOffsets, surviving, b, funcLut, counterLut,
                Assembled(prefixes, OnlyNumbers(prefixes, b), b, funcLut, counterLut))
  {
    hide Concat, Sum, SurvivingPrefix, NodeReduced, InStream, OnlyNumberIds, IdentityIds;
    var prefixes := Prefixes(expanded, nodeOffsets, surviving);
    var numbers := OnlyNumbers(prefixes, b);
    OffsetIs(prefixes, b, funcLut, |prefixes|);
    OffsetIs(prefixes, b, counterLut, |prefixes|);
    AllLists(prefixes, b, funcLut);
    AllLists(prefixes, b, counterLut);
    assert Sizes(ChunkBlocks(numbers, b)) == Sizes(ChunkOwners(numbers)) == Sizes(numbers);
    SumOfSizes(ChunkBlocks(numbers, b));
    SumOfSizes(ChunkOwners(numbers));
    forall e | 0 <= e < |surviving|
      ensures NodeReduced(expanded, nodeOffsets, surviving, b, funcLut, counterLut,
                          Assembled(prefixes, numbers, b, funcLut, counterLut), e)
    {
      NodeExactly(expanded, nodeOffsets, surviving, b, funcLut, counterLut, e);
    }
  }

  method RunKernel(expanded: seq<int>, nodeOffsets: seq<int>, surviving: seq<int>, b: Bands,
                   funcLut: seq<int>, counterLut: seq<int>) returns (r: Result<Reduction>)
    requires b.identityLo <= b.identityHi
    ensures r.Ok? <==> WellFormed(expanded, nodeOffsets, surviving, b, funcLut, counterLut)
    ensures r.Ok? ==>
      var prefixes := Prefixes(expanded, nodeOffsets, surviving);
      r.value == Assembled(prefixes, OnlyNumbers(prefixes, b), b, funcLut, counterLut)
    ensures r.Ok? ==> IsReduced(expanded, nodeOffsets, surviving, b, funcLut, counterLut, r.value)
  {
    hide IsReduced;
    hide Assembled, IdentityIds, OnlyNumberIds, InStream, Slots, InStreamSizes, Sum, OnlyNumbers, Shift;
    hide FamilyBandReductionOut.UpTo, FamilyBandReductionOut.Untouched;
    if |nodeOffsets| == 0 {
      return Err("node_offsets must have length n_nodes + 1 (>= 1)");
    }
    var n := |nodeOffsets| - 1;
    if |surviving| != n {
      return Err("surviving disagrees on n_nodes");
    }
    var band := b.identityHi - b.identityLo;
    if |funcLut| != band || |counterLut| != band {
      return Err("slot LUTs must have length identity_hi - identity_lo");
    }
    var out := new FamilyBandReductionOut(n);
    var instreamRunning := 0;
    ghost var done: seq<seq<int>> := [];
    NothingYet(b, funcLut, counterLut);
    for e := 0 to n
      invariant forall k :: 0 <= k < e ==> WindowFits(expanded, nodeOffsets, k)
      invariant |done| == e
      invariant forall k :: 0 <= k < e ==> done[k] == SurvivingPrefix(expanded, nodeOffsets, surviving[k], k)
      invariant out.Sized(n) && out.Untouched(e)
      invariant instreamRunning == Sum(InStreamSizes(done, b))
      invariant out.UpTo(e) == Assembled(done, OnlyNumbers(done, b), b, funcLut, counterLut)
    {
      var start, end := nodeOffsets[e], nodeOffsets[e + 1];
      if start < 0 || end < start {
        assert !WindowFits(expanded, nodeOffsets, e);
        return Err("node window is malformed");
      }
      if end > |expanded| {
        assert !WindowFits(expanded, nodeOffsets, e);
        return Err("node window end exceeds expanded length");
      }
      var limit := start + Kept(surviving[e], end - start);
      instreamRunning := out.WalkNode(expanded, start, limit, n, e, b, funcLut, counterLut, instreamRunning);
      ghost var prefix := expanded[start..limit];
      AssembledNext(done, prefix, b, funcLut, counterLut);
      done := done + [prefix];
    }
    assert done == Prefixes(expanded, nodeOffsets, surviving);
    ReducedExactly(expanded, nodeOffsets, surviving, b, funcLut, counterLut);
    return Ok(out.UpTo(n));
  }

  lemma NothingYet(b: Bands, funcLut: seq<int>, counterLut: seq<int>)
    requires |funcLut| == |counterLut| == b.identityHi - b.identityLo
    ensures Assembled([], OnlyNumbers([], b), b, funcLut, counterLut) == Reduction([], [], [0], [], [], [], [])
    ensures Sum(InStreamSizes([], b)) == 0
  {
  }

  /** Every column after one more node. */
  lemma AssembledNext(done: seq<seq<int>>, prefix: seq<int>, b: Bands, funcLut: seq<int>, counterLut: seq<int>)
    requires |funcLut| == |counterLut| == b.identityHi - b.identityLo
    ensures var more, ids, numbers := done + [prefix], InStream(prefix, b), OnlyNumberIds(prefix, b);
      var running, r := Sum(InStreamSizes(more, b)), Assembled(done, OnlyNumbers(done, b), b, funcLut, counterLut);
      && |Slots(ids, b, funcLut)| == |ids|
      && running == Sum(InStreamSizes(done, b)) + |ids|
      && Assembled(more, OnlyNumbers(more, b), b, funcLut, counterLut)
         == Reduction(r.identityCount + [|IdentityIds(prefix, b)|], r.numberCount + [|numbers|], r.instreamOff + [running],
                      r.funcSlot + Slots(ids, b, funcLut), r.counterSlot + Slots(ids, b, counterLut),
                      r.outBlock + Shift(numbers, -b.numberLo), r.ctOrdinal + seq(|numbers|, _ => |done|))
  {
    hide Concat, IdentityIds, OnlyNumberIds, InStream, Slots, CumSum, Sum, Sizes, IdentityCounts;
    hide InStreamSizes, InStreamSlots, OnlyNumbers, ChunkBlocks, ChunkOwners, Shift;
    SlotsSize(InStream(prefix, b), b, funcLut);
    MoreIdentities(done, prefix, b);
    MoreNumbers(done, prefix, b);
    MoreSlots(done, prefix, b, funcLut);
    MoreSlots(done, prefix, b, counterLut);
    AppendAssoc([0], CumSum(InStreamSizes(done, b)), [Sum(InStreamSizes(done + [prefix], b))]);
  }

  lemma SlotsSize(ids: seq<int>, b: Bands, lut: seq<int>)
    requires |lut| == b.identityHi - b.identityLo
    requires forall i :: 0 <= i < |ids| ==> IsIdentity(ids[i], b)
    ensures |Slots(ids, b, lut)| == |ids|
  {
  }

  /** The identity columns after one more node. */
  lemma MoreIdentities(done: seq<seq<int>>, prefix: seq<int>, b: Bands)
    ensures var more := done + [prefix];
      && IdentityCounts(more, b) == IdentityCounts(done, b) + [|IdentityIds(prefix, b)|]
      && Sum(InStreamSizes(more, b)) == Sum(InStreamSizes(done, b)) + |InStream(prefix, b)|
      && CumSum(InStreamSizes(more, b)) == CumSum(InStreamSizes(done, b)) + [Sum(InStreamSizes(more, b))]
  {
    hide IdentityIds, InStream, Sum;
    var sizes, size := InStreamSizes(done, b), |InStream(prefix, b)|;
    assert InStreamSizes(done + [prefix], b) == sizes + [size];
    SumSnoc(sizes, size);
    CumSumSnoc(sizes, size);
  }

  /** The slot columns after one more node. */
  lemma MoreSlots(done: seq<seq<int>>, prefix: seq<int>, b: Bands, lut: seq<int>)
    requires |lut| == b.identityHi - b.identityLo
    ensures Concat(InStreamSlots(done + [prefix], b, lut))
            == Concat(InStreamSlots(done, b, lut)) + Slots(InStream(prefix, b), b, lut)
  {
    hide Concat, InStream, Slots;
    assert InStreamSlots(done + [prefix], b, lut) == InStreamSlots(done, b, lut) + [Slots(InStream(prefix, b), b, lut)];
    ConcatSnoc(InStreamSlots(done, b, lut), Slots(InStream(prefix, b), b, lut));
  }

  /** The number columns after one more node. */
  lemma MoreNumbers(done: seq<seq<int>>, prefix: seq<int>, b: Bands)
    ensures var more, numbers := OnlyNumbers(done + [prefix], b), OnlyNumberIds(prefix, b);
      && Sizes(more) == Sizes(OnlyNumbers(done, b)) + [|numbers|]
      && Concat(ChunkBlocks(more, b)) == Concat(ChunkBlocks(OnlyNumbers(done, b), b)) + Shift(numbers, -b.numberLo)
      && Concat(ChunkOwners(more)) == Concat(ChunkOwners(OnlyNumbers(done, b))) + seq(|numbers|, _ => |done|)
  {
    hide Concat, OnlyNumberIds, Shift;
    var before, numbers := OnlyNumbers(done, b), OnlyNumberIds(prefix, b);
    assert OnlyNumbers(done + [prefix], b) == before + [numbers];
    assert ChunkBlocks(before + [numbers], b) == ChunkBlocks(before, b) + [Shift(numbers, -b.numberLo)];
    ConcatSnoc(ChunkBlocks(before, b), Shift(numbers, -b.numberLo));
    var owners := seq(|numbers|, _ => |done|);
    assert ChunkOwners(before + [numbers]) == ChunkOwners(before) + [owners];
    ConcatSnoc(ChunkOwners(before), owners);
  }

  lemma CumSumSnoc(s: seq<int>, x: int)
    ensures CumSum(s + [x]) == CumSum(s) + [Sum(s + [x])]
  {
    hide Sum;
    assert (s + [x])[..|s| + 1] == s + [x];
    forall i | 0 <= i < |s|
      ensures CumSum(s + [x])[i] == CumSum(s)[i]
    {
      assert (s + [x])[..i + 1] == s[..i + 1];
    }
  }

  // ---- against the separate computations ----

  /** No surviving id belongs to both bands. */
  predicate BandsApart(prefixes: seq<seq<int>>, b: Bands) {
    forall e :: 0 <= e < |prefixes| ==> IdsApart(prefixes[e], b)
  }

  predicate IdsApart(ids: seq<int>, b: Bands) {
    forall i :: 0 <= i < |ids| ==> !(IsNumber(ids[i], b) && IsIdentity(ids[i], b))
  }

  /** Taking identities first loses exactly the number ids that are identities too. */
  lemma {:induction false} OnlyNumbersLose(ids: seq<int>, b: Bands)
    ensures |OnlyNumberIds(ids, b)| <= |NumberIds(ids, b)|
    ensures |OnlyNumberIds(ids, b)| == |NumberIds(ids, b)| <==> IdsApart(ids, b)
    ensures IdsApart(ids, b) ==> OnlyNumberIds(ids, b) == NumberIds(ids, b)
  {
    if ids == [] {
    } else {
      var init, last := ids[..|ids| - 1], ids[|ids| - 1];
      OnlyNumbersLose(init, b);
      assert IdsApart(ids, b) <==> IdsApart(init, b) && !(IsNumber(last, b) && IsIdentity(last, b)) by {
        if IdsApart(init, b) && !(IsNumber(last, b) && IsIdentity(last, b)) {
          forall i | 0 <= i < |ids|
            ensures !(IsNumber(ids[i], b) && IsIdentity(ids[i], b))
          {
            assert i < |init| ==> ids[i] == init[i];
          }
        }
        if IdsApart(ids, b) {
          forall i | 0 <= i < |init|
            ensures !(IsNumber(init[i], b) && IsIdentity(init[i], b))
          {
            assert ids[i] == init[i];
          }
        }
      }
    }
  }

  /** The fused pass equals the separate computations exactly when no surviving id lies
      in both bands. */
  lemma FusedEqualsSeparate(prefixes: seq<seq<int>>, b: Bands, funcLut: seq<int>, counterLut: seq<int>)
    requires |funcLut| == |counterLut| == b.identityHi - b.identityLo
    ensures Assembled(prefixes, OnlyNumbers(prefixes, b), b, funcLut, counterLut) == Separate(prefixes, b, funcLut, counterLut)
            <==> BandsApart(prefixes, b)
  {
    hide NumberIds, OnlyNumberIds, Concat, CumSum;
    var fused, all := OnlyNumbers(prefixes, b), AllNumbers(prefixes, b);
    forall e | 0 <= e < |prefixes|
      ensures Sizes(fused)[e] == Sizes(all)[e] <==> IdsApart(prefixes[e], b)
      ensures IdsApart(prefixes[e], b) ==> fused[e] == all[e]
    {
      OnlyNumbersLose(prefixes[e], b);
    }
    if BandsApart(prefixes, b) {
      assert fused == all;
    } else {
      var e :| 0 <= e < |prefixes| && !IdsApart(prefixes[e], b);
      assert Sizes(fused)[e] != Sizes(all)[e];
    }
  }

  /** Adjacent bands, as the callers pass them, do not overlap: the fused pass is always
      right for them. */
  lemma AdjacentBandsAgree(prefixes: seq<seq<int>>, b: Bands, funcLut: seq<int>, counterLut: seq<int>)
    requires |funcLut| == |counterLut| == b.identityHi - b.identityLo && b.identityLo == b.numberHi
    ensures Assembled(prefixes, OnlyNumbers(prefixes, b), b, funcLut, counterLut) == Separate(prefixes, b, funcLut, counterLut)
  {
    FusedEqualsSeparate(prefixes, b, funcLut, counterLut);
    assert BandsApart(prefixes, b);
  }

  /** One id in both bands: the fused pass does not count it as a number. */
  lemma OverlapIsLost()
    ensures var b := Bands(0, 4, 2, 6);
      && NumberIds([3], b) == [3] && OnlyNumberIds([3], b) == []
      && Assembled([[3]], OnlyNumbers([[3]], b), b, [0, 0, 0, 0], [0, 0, 0, 0]) != Separate([[3]], b, [0, 0, 0, 0], [0, 0, 0, 0])
  {
    var b := Bands(0, 4, 2, 6);
    assert [3][..0] == [];
    FusedEqualsSeparate([[3]], b, [0, 0, 0, 0], [0, 0, 0, 0]);
    hide OnlyNumberIds, NumberIds;
    assert !IdsApart([[3]][0], b) by { assert [3][0] == 3; }
  }
}
