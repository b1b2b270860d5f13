/** Gathering the payloads of surviving identity carriers: the digit prefix sum at the
    slot behind a carrier, moved by the call target's slice, is where its bytes are. */
module IdentityGather {
  import opened TokenSeqs
  import opened Masks
  import opened InlineBytes

  /** One gathered carrier: where its payload is, how long it is, and where it stands
      in its call target's raw stream. */
  datatype Payload = Payload(offset: int, length: nat, pos: nat)

  predicate IsIdentityRaw(id: int) { IDENTITY_BLOCK_START <= id < EAGER_BLOCK_END }

  /** The same band in the expanded stream, whose ids are shifted by the digit count. */
  predicate IsIdentityExpanded(id: int) { IsIdentityRaw(id + RESERVED_DIGIT_COUNT) }

  function IdentityMask(raw: seq<int>): (m: seq<bool>)
    ensures |m| == |raw|
  {
    seq(|raw|, i requires 0 <= i < |raw| => RealMask(raw)[i] && IsIdentityRaw(raw[i]))
  }

  predicate Skipped(node: Node) { node.surviving == 0 || node.identityCount - 1 <= 0 }

  /** The carriers whose in-stream slots survive: the first ones. */
  function Surviving(node: Node): seq<nat> {
    if Skipped(node) then []
    else
      var at := Positions(IdentityMask(node.raw));
      at[..Min(node.identityCount - 1, |at|)]
  }

  function PayloadAt(node: Node, start: int, p: nat): Payload
    requires p < |node.raw|
  {
    Payload(DigitCumSum(node.raw)[p + 1] + start,
            if p < |node.raw| - 1 then RunLengths(NumberMask(node.raw))[p + 1] else 0, p)
  }

  function GatheredOf(node: Node, start: int): seq<Payload> {
    var at := Surviving(node);
    seq(|at|, j requires 0 <= j < |at| => PayloadAt(node, start, at[j]))
  }

  function GatheredLists(nodes: seq<Node>, slices: seq<Slice>): seq<seq<Payload>>
    requires |nodes| == |slices|
  {
    seq(|nodes|, e requires 0 <= e < |nodes| => GatheredOf(nodes[e], slices[e].start))
  }

  // ---- what is gathered, over the raw streams ----

  /** The identity tokens before a position. */
  ghost function IdentitySlots(raw: seq<int>, end: nat): set<int>
    requires end <= |raw|
  {
    set i | 0 <= i < end && IDENTITY_BLOCK_START <= raw[i] < EAGER_BLOCK_END
  }

  /** The digits before a position. */
  ghost function DigitSlots(raw: seq<int>, end: nat): set<int>
    requires end <= |raw|
  {
    set i | 0 <= i < end && raw[i] < RESERVED_DIGIT_COUNT
  }

  /** How many carriers a call target contributes: one for each surviving identity slot
      but the prepended one, as far as its raw stream has them. */
  ghost function Gathers(node: Node): nat {
    if node.surviving == 0 || node.identityCount <= 1 then 0
    else if node.identityCount - 1 <= |IdentitySlots(node.raw, |node.raw|)| then node.identityCount - 1
    else |IdentitySlots(node.raw, |node.raw|)|
  }

  ghost function GathersBefore(nodes: seq<Node>, e: nat): nat
    requires e <= |nodes|
  {
    if e == 0 then 0 else GathersBefore(nodes, e - 1) + Gathers(nodes[e - 1])
  }

  /** Carrier j of a call target: the identity token with j identities before it, all the
      digits behind it, found as many bytes into the target's slice as digits stand
      before them. */
  ghost predicate IsGathered(node: Node, start: int, j: nat, g: Payload) {
    && g.pos < |node.raw| && IDENTITY_BLOCK_START <= node.raw[g.pos] < EAGER_BLOCK_END
    && |IdentitySlots(node.raw, g.pos)| == j
    && g.offset == start + |DigitSlots(node.raw, g.pos + 1)|
    && IsPayload(node.raw, g.pos, g.length)
  }

  /** Columns that hold a call target's carriers, all of them, in order. */
  ghost predicate AreGathered(node: Node, start: int, offsets: seq<int>, lengths: seq<nat>, positions: seq<nat>) {
    && |offsets| == |lengths| == |positions| == Gathers(node)
    && forall j :: 0 <= j < |offsets| ==> IsGathered(node, start, j, Payload(offsets[j], lengths[j], positions[j]))
  }

  /** Call target e's part of the columns holds its carriers. */
  ghost predicate TargetGathered(nodes: seq<Node>, slices: seq<Slice>, e: nat, offsets: seq<int>, lengths: seq<nat>, positions: seq<nat>)
    requires |nodes| == |slices| && e < |nodes| && |offsets| == |lengths| == |positions|
  {
    var from, to := GathersBefore(nodes, e), GathersBefore(nodes, e + 1);
    && from <= to <= |offsets|
    && AreGathered(nodes[e], slices[e].start, offsets[from..to], lengths[from..to], positions[from..to])
  }

  lemma IdentitiesCounted(raw: seq<int>, end: nat)
    requires end <= |raw|
    ensures Count(IdentityMask(raw)[..end], true) == |IdentitySlots(raw, end)|
  {
    CountIsSize(IdentityMask(raw), 0, end, true);
    assert IdentitySlots(raw, end) == Marked(IdentityMask(raw), 0, end, true);
    assert IdentityMask(raw)[0..end] == IdentityMask(raw)[..end];
  }

  lemma DigitsCounted(raw: seq<int>, end: nat)
    requires end <= |raw|
    ensures DigitCumSum(raw)[end] == |DigitSlots(raw, end)|
  {
    CountIsSize(NumberMask(raw), 0, end, true);
    assert DigitSlots(raw, end) == Marked(NumberMask(raw), 0, end, true);
    assert NumberMask(raw)[0..end] == NumberMask(raw)[..end];
  }

  lemma GatheredExactly(node: Node, start: int)
    ensures |GatheredOf(node, start)| == Gathers(node)
    ensures forall j :: 0 <= j < Gathers(node) ==> IsGathered(node, start, j, GatheredOf(node, start)[j])
  {
    hide Count, Positions, DigitCumSum, RunLengths, IsPayload;
    IdentitiesCounted(node.raw, |node.raw|);
    PositionsAt(IdentityMask(node.raw), 0);
    assert IdentityMask(node.raw)[..|node.raw|] == IdentityMask(node.raw);
    forall j | 0 <= j < |Surviving(node)|
      ensures IsGathered(node, start, j, GatheredOf(node, start)[j])
    {
      var p := Surviving(node)[j];
      assert p == Positions(IdentityMask(node.raw))[j] && IdentityMask(node.raw)[p];
      PositionsAt(IdentityMask(node.raw), j);
      IdentitiesCounted(node.raw, p);
      DigitsCounted(node.raw, p + 1);
      PayloadRun(node.raw, p);
    }
  }

  /** Where call target e's carriers are among all of them. */
  lemma {:induction false} GatheredJoined(nodes: seq<Node>, slices: seq<Slice>, e: nat)
    requires |nodes| == |slices| && e <= |nodes|
    ensures |Concat(GatheredLists(nodes, slices)[..e])| == GathersBefore(nodes, e)
  {
    hide GatheredOf, Gathers, Concat;
    var lists := GatheredLists(nodes, slices);
    if e == 0 {
      ConcatEmpty<Payload>();
      assert lists[..0] == [];
    } else {
      GatheredJoined(nodes, slices, e - 1);
      JoinedNext(lists, e - 1);
      GatheredExactly(nodes[e - 1], slices[e - 1].start);
    }
  }

  lemma AllGathered(nodes: seq<Node>, slices: seq<Slice>, e: nat, offsets: seq<int>, lengths: seq<nat>, positions: seq<nat>)
    requires |nodes| == |slices| && e < |nodes|
    requires |offsets| == |lengths| == |positions| == |Concat(GatheredLists(nodes, slices))|
    requires forall i :: 0 <= i < |offsets| ==>
      Payload(offsets[i], lengths[i], positions[i]) == Concat(GatheredLists(nodes, slices))[i]
    ensures TargetGathered(nodes, slices, e, offsets, lengths, positions)
  {
    hide GatheredOf, Concat, IsGathered, Gathers;
    var lists := GatheredLists(nodes, slices);
    GatheredJoined(nodes, slices, e);
    GatheredExactly(nodes[e], slices[e].start);
    JoinedSlice(lists, e);
    var from := GathersBefore(nodes, e);
    var to := from + Gathers(nodes[e]);
    forall j | 0 <= j < to - from
      ensures Payload(offsets[from..to][j], lengths[from..to][j], positions[from..to][j]) == lists[e][j]
    {
      assert Concat(lists)[from..to][j] == Concat(lists)[from + j];
    }
  }

  /** The same of all call targets. */
  lemma EachGathered(nodes: seq<Node>, slices: seq<Slice>, offsets: seq<int>, lengths: seq<nat>, positions: seq<nat>)
    requires |nodes| == |slices|
    requires |offsets| == |lengths| == |positions| == |Concat(GatheredLists(nodes, slices))|
    requires forall i :: 0 <= i < |offsets| ==>
      Payload(offsets[i], lengths[i], positions[i]) == Concat(GatheredLists(nodes, slices))[i]
    ensures |offsets| == GathersBefore(nodes, |nodes|)
    ensures forall e :: 0 <= e < |nodes| ==>
      TargetGathered(nodes, slices, e, offsets, lengths, positions)
  {
    hide GathersBefore, Concat, GatheredOf, TargetGathered;
    var lists := GatheredLists(nodes, slices);
    GatheredJoined(nodes, slices, |nodes|);
    assert lists[..|nodes|] == lists;
    forall e | 0 <= e < |nodes|
      ensures TargetGathered(nodes, slices, e, offsets, lengths, positions)
    {
      AllGathered(nodes, slices, e, offsets, lengths, positions);
    }
  }

  method Gather(nodes: seq<Node>, slices: seq<Slice>) returns (offsets: seq<int>, lengths: seq<nat>, positions: seq<nat>)
    requires |nodes| == |slices|
    ensures |offsets| == |lengths| == |positions| == |Concat(GatheredLists(nodes, slices))|
    ensures forall i :: 0 <= i < |offsets| ==>
      Payload(offsets[i], lengths[i], positions[i]) == Concat(GatheredLists(nodes, slices))[i]
    ensures |offsets| == GathersBefore(nodes, |nodes|)
    ensures forall e :: 0 <= e < |nodes| ==>
      TargetGathered(nodes, slices, e, offsets, lengths, positions)
  {
    hide GathersBefore, TargetGathered;
    hide Concat, RunFrom, Count, DigitCumSum, RunLengths, Positions, IdentityMask;
    offsets, lengths, positions := [], [], [];
    ghost var lists := GatheredLists(nodes, slices);
    ConcatEmpty<Payload>();
    assert lists[..0] == [];
    for e := 0 to |nodes|
      invariant |offsets| == |lengths| == |positions| == |Concat(lists[..e])|
      invariant forall i :: 0 <= i < |offsets| ==> Payload(offsets[i], lengths[i], positions[i]) == Concat(lists[..e])[i]
    {
      var node, start := nodes[e], slices[e].start;
      JoinedNext(lists, e);
      if node.surviving == 0 {
        continue;
      }
      var inStreamCount := node.identityCount - 1;
      if inStreamCount <= 0 {
        continue;
      }
      var identityPositions := Positions(IdentityMask(node.raw));
      var p := identityPositions[..Min(inStreamCount, |identityPositions|)];
      var n := |node.raw|;
      var runLength, digits := RunLengths(NumberMask(node.raw)), DigitCumSum(node.raw);
      var lengthsHere := seq(|p|, j requires 0 <= j < |p| => if p[j] < n - 1 then runLength[p[j] + 1] else 0);
      var offsetsHere := seq(|p|, j requires 0 <= j < |p| => digits[p[j] + 1] + start);
      offsets, lengths, positions := offsets + offsetsHere, lengths + lengthsHere, positions + p;
    }
    assert lists[..|nodes|] == lists;
    EachGathered(nodes, slices, offsets, lengths, positions);
  }

  // ---- the gathered offsets land on the payloads ----

  function ExpandedIdentityMask(expanded: seq<int>): (m: seq<bool>)
    ensures |m| == |expanded|
  {
    seq(|expanded|, i requires 0 <= i < |expanded| => IsIdentityExpanded(expanded[i]))
  }

  /** The unpainted body slot j stands for the raw token of the same rank, in kind. */
  predicate SlotMatches(node: Node, j: nat)
    requires 1 <= j < |node.expanded| == |node.painted|
  {
    var k, at := Count(node.painted[1..j], false), Positions(RealMask(node.raw));
    k < |at| && (IsIdentityExpanded(node.expanded[j]) <==> IsIdentityRaw(node.raw[at[k]]))
  }

  /** The surviving slots: an identity slot that was prepended, then a body whose painted
      slots are no identities and whose other slots match the real raw tokens in order. */
  predicate Matched(node: Node) {
    && node.surviving <= |node.expanded| == |node.painted|
    && node.identityCount == Count(ExpandedIdentityMask(node.expanded)[..node.surviving], true)
    && (node.surviving > 0 ==> IsIdentityExpanded(node.expanded[0]))
    && forall j :: 1 <= j < node.surviving ==>
         if node.painted[j] then !IsIdentityExpanded(node.expanded[j]) else SlotMatches(node, j)
  }

  /** The identities among the first n real raw tokens. */
  function IdentitiesAmong(raw: seq<int>, n: nat): nat
    requires n <= |Positions(RealMask(raw))|
  {
    if n == 0 then 0
    else IdentitiesAmong(raw, n - 1) + if IsIdentityRaw(raw[Positions(RealMask(raw))[n - 1]]) then 1 else 0
  }

  /** The position behind the n-th real raw token. */
  function EndOf(raw: seq<int>, n: nat): nat
    requires n <= |Positions(RealMask(raw))|
  {
    if n == 0 then 0 else Positions(RealMask(raw))[n - 1] + 1
  }

  lemma RealsBefore(raw: seq<int>, n: nat)
    requires n <= |Positions(RealMask(raw))|
    ensures EndOf(raw, n) <= |raw| && Count(RealMask(raw)[..EndOf(raw, n)], true) == n
  {
    if n == 0 {
      CountEmpty();
    } else {
      PositionsAt(RealMask(raw), n - 1);
      CountNext(RealMask(raw), Positions(RealMask(raw))[n - 1], true);
    }
  }

  /** No real token lies between consecutive real positions. */
  lemma NoRealBetween(raw: seq<int>, n: nat)
    requires n < |Positions(RealMask(raw))|
    ensures EndOf(raw, n) <= Positions(RealMask(raw))[n]
    ensures forall q :: EndOf(raw, n) <= q < Positions(RealMask(raw))[n] ==> !RealMask(raw)[q]
  {
    hide Count, Positions, RealMask;
    var reals, at := RealMask(raw), Positions(RealMask(raw))[n];
    RealsBefore(raw, n);
    PositionsAt(reals, n);
    if at < EndOf(raw, n) {
      CountNext(reals, at, true);
      CountGrows(reals, at + 1, EndOf(raw, n), true);
    }
    forall q | EndOf(raw, n) <= q < at
      ensures !reals[q]
    {
      CountNext(reals, q, true);
      CountGrows(reals, EndOf(raw, n), q, true);
      CountGrows(reals, q + 1, at, true);
    }
  }

  /** Up to the end of n real tokens stand exactly the identities among them. */
  lemma {:induction false} IdentitiesBefore(raw: seq<int>, n: nat)
    requires n <= |Positions(RealMask(raw))|
    ensures EndOf(raw, n) <= |raw|
    ensures Count(IdentityMask(raw)[..EndOf(raw, n)], true) == IdentitiesAmong(raw, n)
  {
    if n == 0 {
      CountEmpty();
    } else {
      hide Count, Positions, RealMask;
      IdentitiesBefore(raw, n - 1);
      NoRealBetween(raw, n - 1);
      var at := Positions(RealMask(raw))[n - 1];
      CountGrows(IdentityMask(raw), EndOf(raw, n - 1), at, true);
      CountNext(IdentityMask(raw), at, true);
    }
  }

  /** Body slots and real tokens hold the same number of identities. */
  lemma {:induction false} SlotsMatch(node: Node, s: nat)
    requires Matched(node) && 1 <= s <= node.surviving
    ensures Count(node.painted[1..s], false) <= |Positions(RealMask(node.raw))|
    ensures Count(ExpandedIdentityMask(node.expanded)[..s], true)
            == 1 + IdentitiesAmong(node.raw, Count(node.painted[1..s], false))
  {
    var ids := ExpandedIdentityMask(node.expanded);
    CountEmpty();
    hide Count, Positions, RealMask;
    if s == 1 {
      CountNext(ids, 0, true);
      assert ids[..0] == [] && node.painted[1..1] == [];
    } else {
      SlotsMatch(node, s - 1);
      CountNext(ids, s - 1, true);
      assert node.painted[1..s] == node.painted[1..s - 1] + [node.painted[s - 1]];
      CountSnoc(node.painted[1..s - 1], node.painted[s - 1], false);
    }
  }

  lemma MatchedReadable(node: Node)
    requires Matched(node)
    ensures CutReadable(node)
    ensures node.surviving > 0 ==> Consumed(node) <= |Positions(RealMask(node.raw))|
    ensures node.surviving > 0 ==> node.identityCount - 1 == IdentitiesAmong(node.raw, Consumed(node))
  {
    if node.surviving > 0 {
      SlotsMatch(node, node.surviving);
    }
  }

  /** A matched call target has a raw carrier for every surviving in-stream identity. */
  lemma AllSurvivorsGathered(node: Node)
    requires Matched(node)
    ensures |Surviving(node)| == if Skipped(node) then 0 else node.identityCount - 1
  {
    if !Skipped(node) {
      hide Count, Positions;
      MatchedReadable(node);
      IdentitiesBefore(node.raw, Consumed(node));
      PositionsAt(IdentityMask(node.raw), 0);
      var ids, end := IdentityMask(node.raw), EndOf(node.raw, Consumed(node));
      CountGrows(ids, end, |ids|, true);
      assert ids[..|ids|] == ids;
    }
  }

  /** An in-stream identity slot that survives has its carrier gathered at its own rank:
      the raw token with as many real ones before it as the slot has unpainted ones. */
  lemma SlotGathered(node: Node, start: int, s: nat)
    requires Matched(node) && 1 <= s < node.surviving
    requires IDENTITY_BLOCK_START <= node.expanded[s] + RESERVED_DIGIT_COUNT < EAGER_BLOCK_END
    ensures var j := |set i | 1 <= i < s && IDENTITY_BLOCK_START <= node.expanded[i] + RESERVED_DIGIT_COUNT < EAGER_BLOCK_END|;
      && j < |GatheredOf(node, start)| && GatheredOf(node, start)[j].pos < |node.raw|
      && node.raw[GatheredOf(node, start)[j].pos] > RESERVED_DIGIT_COUNT
      && |RealSlots(node.raw, GatheredOf(node, start)[j].pos)| == |set i | 1 <= i < s && !node.painted[i]|
  {
    hide Count, Positions, DigitCumSum, RunLengths, Matched;
    SlotRanks(node, s);
    SlotCarrier(node, s);
    SlotSurvives(node, s);
    assert |GatheredOf(node, start)| == |Surviving(node)|;
  }

  /** The raw token an identity slot consumes has the slot's rank among the identities. */
  lemma SlotCarrier(node: Node, s: nat)
    requires Matched(node) && 1 <= s < node.surviving && IsIdentityExpanded(node.expanded[s])
    ensures var k, j := Count(node.painted[1..s], false), Count(ExpandedIdentityMask(node.expanded)[..s], true) - 1;
      && k < |Positions(RealMask(node.raw))| && 0 <= j < |Positions(IdentityMask(node.raw))|
      && var p := Positions(IdentityMask(node.raw))[j];
         p == Positions(RealMask(node.raw))[k] && node.raw[p] > RESERVED_DIGIT_COUNT && |RealSlots(node.raw, p)| == k
  {
    hide Count, Positions;
    var raw, k := node.raw, Count(node.painted[1..s], false);
    assert SlotMatches(node, s);
    var at := Positions(RealMask(raw))[k];
    SlotsMatch(node, s);
    IdentitiesBefore(raw, k);
    NoRealBetween(raw, k);
    CountGrows(IdentityMask(raw), EndOf(raw, k), at, true);
    PositionIs(IdentityMask(raw), at);
    PositionsAt(RealMask(raw), k);
    RealsCounted(raw, at);
  }

  lemma SlotSurvives(node: Node, s: nat)
    requires Matched(node) && 1 <= s < node.surviving && IsIdentityExpanded(node.expanded[s])
    ensures var j := Count(ExpandedIdentityMask(node.expanded)[..s], true) - 1;
      0 <= j < |Surviving(node)| && Surviving(node)[j] == Positions(IdentityMask(node.raw))[j]
  {
    hide Count, Positions;
    var ids := ExpandedIdentityMask(node.expanded);
    AllSurvivorsGathered(node);
    SlotsMatch(node, s);
    CountNext(ids, s, true);
    CountGrows(ids, s + 1, node.surviving, true);
  }

  /** Ranks among the body slots, as sets of positions. */
  lemma SlotRanks(node: Node, s: nat)
    requires Matched(node) && 1 <= s < node.surviving
    ensures |set i | 1 <= i < s && !node.painted[i]| == Count(node.painted[1..s], false)
    ensures |set i | 1 <= i < s && IDENTITY_BLOCK_START <= node.expanded[i] + RESERVED_DIGIT_COUNT < EAGER_BLOCK_END|
            == Count(ExpandedIdentityMask(node.expanded)[..s], true) - 1
  {
    hide Count;
    var ids := ExpandedIdentityMask(node.expanded);
    CountIsSize(node.painted, 1, s, false);
    assert (set i | 1 <= i < s && !node.painted[i]) == Marked(node.painted, 1, s, false);
    CountIsSize(ids, 1, s, true);
    assert (set i | 1 <= i < s && IDENTITY_BLOCK_START <= node.expanded[i] + RESERVED_DIGIT_COUNT < EAGER_BLOCK_END)
           == Marked(ids, 1, s, true);
    assert ids[..s] == [ids[0]] + ids[1..s] && ids[0];
    CountAppend([ids[0]], ids[1..s], true);
    assert Count([true], true) == 1 by { OneCounted(); }
  }

  lemma OneCounted()
    ensures Count([true], true) == 1
  {
    assert [true][..0] == [];
  }

  /** A surviving carrier is one of the consumed real tokens. */
  lemma SurvivorConsumed(node: Node, j: nat)
    requires Matched(node) && j < |Surviving(node)|
    ensures Consumed(node) > 0 && Consumed(node) <= |Positions(RealMask(node.raw))|
    ensures Surviving(node)[j] < EndOf(node.raw, Consumed(node))
  {
    hide Count, Positions;
    MatchedReadable(node);
    var ids, n := IdentityMask(node.raw), Consumed(node);
    PositionsAt(ids, j);
    IdentitiesBefore(node.raw, n);
    var p := Surviving(node)[j];
    assert p == Positions(ids)[j];
    if EndOf(node.raw, n) <= p {
      CountGrows(ids, EndOf(node.raw, n), p, true);
    }
  }

  /** A surviving carrier's payload is kept, even when its call target is cut. */
  lemma PayloadKept(node: Node, start: int, j: nat)
    requires CutReadable(node) && j < |Surviving(node)| && (node.isCut ==> Matched(node))
    ensures var p := Surviving(node)[j];
      forall q :: 0 <= q < p + 1 + PayloadAt(node, start, p).length ==>
        q < |node.raw| && KeepMask(node)[q] == NumberMask(node.raw)[q]
  {
    hide Count, Positions;
    var p := Surviving(node)[j];
    PayloadRun(node.raw, p);
    if node.isCut {
      SurvivorConsumed(node, j);
      assert node.surviving > 1 by { OneSlotConsumesNothing(node); }
      var last := Positions(RealMask(node.raw))[Consumed(node) - 1];
      assert node.raw[last] > RESERVED_DIGIT_COUNT;
      assert p + 1 + PayloadAt(node, start, p).length <= KeepEnd(node);
    }
  }

  lemma OneSlotConsumesNothing(node: Node)
    ensures node.surviving <= 1 ==> Consumed(node) == 0
  {
  }

  /** The kept bytes of a run of kept digits are contiguous. */
  lemma KeptRun(raw: seq<int>, keep: seq<bool>, from: nat, n: nat)
    requires |keep| == |raw| && from + n <= |raw|
    requires forall q :: from <= q < from + n ==> keep[q]
    ensures Count(keep[..from], true) + n <= |Select(raw, keep)|
    ensures Select(raw, keep)[Count(keep[..from], true)..Count(keep[..from], true) + n] == raw[from..from + n]
  {
    hide Count, Select;
    SelectAt(raw, keep, 0);
    CountGrows(keep, from, from + n, true);
    CountGrows(keep, from + n, |keep|, true);
    assert keep[..|keep|] == keep;
    var at := Count(keep[..from], true);
    var found, run := Select(raw, keep)[at..at + n], raw[from..from + n];
    forall k | 0 <= k < n
      ensures found[k] == run[k]
    {
      CountGrows(keep, from, from + k, true);
      SelectAt(raw, keep, from + k);
    }
  }

  /** A call target's kept bytes hold the payload at its digit prefix sum. */
  lemma PayloadInBytes(node: Node, start: nat, j: nat)
    requires CutReadable(node) && j < |Surviving(node)| && (node.isCut ==> Matched(node))
    ensures var p := Surviving(node)[j];
      var at, n := DigitCumSum(node.raw)[p + 1], PayloadAt(node, start, p).length;
      at + n <= |KeptBytes(node)| && p + 1 + n <= |node.raw|
      && KeptBytes(node)[at..at + n] == node.raw[p + 1..p + 1 + n]
  {
    hide Count, Positions, Select, KeepMask, RunLengths, IdentityMask;
    var p := Surviving(node)[j];
    var n := PayloadAt(node, start, p).length;
    SurvivorIsReal(node, j);
    PayloadKept(node, start, j);
    PayloadRun(node.raw, p);
    var keep, digits := KeepMask(node), NumberMask(node.raw);
    assert keep[..p + 1] == digits[..p + 1];
    KeptRun(node.raw, keep, p + 1, n);
  }

  lemma SurvivorIsReal(node: Node, j: nat)
    requires j < |Surviving(node)|
    ensures Surviving(node)[j] < |node.raw| && IsIdentityRaw(node.raw[Surviving(node)[j]])
  {
    assert IdentityMask(node.raw)[Surviving(node)[j]];
  }

  /** Every gathered carrier points at its own payload, over any call targets and cuts. */
  lemma GatherLandsOnPayload(nodes: seq<Node>, e: nat, j: nat)
    requires AllReadable(nodes) && e < |nodes|
    requires nodes[e].isCut ==> Matched(nodes[e])
    requires j < |Surviving(nodes[e])|
    ensures var inlineBytes, raw, s := [0] + Concat(KeptLists(nodes)), nodes[e].raw, SliceAt(nodes, e);
      var g := GatheredOf(nodes[e], s.start)[j];
      && g.pos < |raw| && IsIdentityRaw(raw[g.pos]) && IsPayload(raw, g.pos, g.length)
      && s.start <= g.offset && g.offset + g.length <= s.stop <= |inlineBytes|
      && inlineBytes[g.offset..g.offset + g.length] == raw[g.pos + 1..g.pos + 1 + g.length]
  {
    hide Count, Positions, Select, KeptBytes, Concat, RunLengths, DigitCumSum, IsPayload, IdentityMask;
    var node, s := nodes[e], SliceAt(nodes, e);
    var p := Surviving(node)[j];
    SurvivorIsReal(node, j);
    PayloadInBytes(node, s.start, j);
    PayloadRun(node.raw, p);
    var lists := KeptLists(nodes);
    JoinedNext(lists, e);
    JoinedSlice(lists, e);
    var inlineBytes := [0] + Concat(lists);
    assert inlineBytes[s.start..s.stop] == KeptBytes(node);
    var at, n := DigitCumSum(node.raw)[p + 1], PayloadAt(node, s.start, p).length;
    SliceOfSlice(inlineBytes, s.start, s.stop, at, at + n);
  }
}
