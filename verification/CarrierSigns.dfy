/** Collecting the signs of surviving number carriers: the per-node walk and the flat
    reference that uses one global prefix sum minus each segment's carry-in. */
module CarrierSigns {
  import opened TokenSeqs
  import opened Results
  import opened Masks

  /** The flat columns of a batch: expanded and raw streams with their masks, one window
      of each per node, and how many expanded slots of each node survive. */
  datatype Columns = Columns(
    expanded: seq<int>, extraValue: seq<bool>, extraWide: seq<bool>, nodeOffsets: seq<nat>,
    realMask: seq<bool>, negative: seq<bool>, rawOffsets: seq<nat>, surviving: seq<int>)

  /** Columns of one axis have equal lengths. */
  predicate Aligned(c: Columns) {
    && |c.extraValue| == |c.extraWide| == |c.expanded|
    && |c.negative| == |c.realMask|
    && |c.nodeOffsets| == |c.rawOffsets| == |c.surviving| + 1
  }

  /** A number carrier: its block and its sign. */
  datatype Carrier = Carrier(blockIdx: int, negative: bool)

  /** What one node contributes: body ids, which of them are painted, and the signs of
      its real raw positions. */
  datatype Segment = Segment(body: seq<int>, painted: seq<bool>, signs: seq<bool>)

  datatype Band = Band(lo: int, hi: int)

  predicate InBand(id: int, band: Band) { band.lo <= id < band.hi }

  function BodyLength(surviving: int): nat {
    if surviving >= 1 then surviving - 1 else 0
  }

  function Either(a: seq<bool>, b: seq<bool>): seq<bool>
    requires |a| == |b|
  {
    seq(|a|, i requires 0 <= i < |a| => a[i] || b[i])
  }

  function SegmentOf(c: Columns, e: nat): Segment
    requires Aligned(c) && e < |c.surviving|
  {
    var at, n := c.nodeOffsets[e] + 1, BodyLength(c.surviving[e]);
    var isReal := Clipped(c.realMask, c.rawOffsets[e], c.rawOffsets[e + 1]);
    Segment(Clipped(c.expanded, at, at + n),
            Clipped(Either(c.extraValue, c.extraWide), at, at + n),
            Select(Clipped(c.negative, c.rawOffsets[e], c.rawOffsets[e + 1]), isReal))
  }

  predicate IsCarrier(s: Segment, band: Band, j: nat)
    requires |s.body| == |s.painted| && j < |s.body|
  {
    InBand(s.body[j], band) && !s.painted[j]
  }

  /** The real raw position, counted within the node, that body slot j consumes. */
  function RealIndex(s: Segment, j: nat): int
    requires j < |s.painted|
  {
    Count(s.painted[..j + 1], false) - 1
  }

  /** Every carrier among the first k slots has a real raw position of its own. */
  predicate ReadableTo(s: Segment, band: Band, k: nat)
    requires |s.body| == |s.painted| && k <= |s.body|
  {
    forall j :: 0 <= j < k && IsCarrier(s, band, j) ==> 0 <= RealIndex(s, j) < |s.signs|
  }

  predicate Readable(s: Segment, band: Band) {
    |s.body| == |s.painted| && ReadableTo(s, band, |s.body|)
  }

  /** The carriers among the first k body slots. */
  function Carriers(s: Segment, band: Band, k: nat): seq<Carrier>
    requires |s.body| == |s.painted| && k <= |s.body| && ReadableTo(s, band, k)
  {
    if k == 0 then []
    else
      var init := Carriers(s, band, k - 1);
      if IsCarrier(s, band, k - 1) then init + [Carrier(s.body[k - 1] - band.lo, s.signs[RealIndex(s, k - 1)])]
      else init
  }

  predicate BodyFits(c: Columns, e: nat)
    requires Aligned(c) && e < |c.surviving|
  {
    var end := c.nodeOffsets[e] + c.surviving[e];
    c.surviving[e] <= 1 || (end <= c.nodeOffsets[e + 1] && end <= |c.expanded|)
  }

  /** The walk accepts a node: nothing of it survives behind the prepended slot, or its
      body and raw window exist and every carrier finds a real position. */
  predicate NodeAccepted(c: Columns, band: Band, e: int)
    requires Aligned(c)
  {
    && 0 <= e < |c.surviving|
    && (c.surviving[e] > 1 ==>
          BodyFits(c, e) && c.rawOffsets[e + 1] <= |c.realMask| && Readable(SegmentOf(c, e), band))
  }

  predicate Accepted(c: Columns, kept: seq<int>, band: Band)
    requires Aligned(c)
  {
    forall i :: 0 <= i < |kept| ==> NodeAccepted(c, band, kept[i])
  }

  lemma AcceptedReadable(c: Columns, band: Band, e: int)
    requires Aligned(c) && NodeAccepted(c, band, e)
    ensures Readable(SegmentOf(c, e), band)
    ensures |SegmentOf(c, e).body| == BodyLength(c.surviving[e])
  {
  }

  function NodeCarriers(c: Columns, band: Band, e: int): seq<Carrier>
    requires Aligned(c) && NodeAccepted(c, band, e)
  {
    AcceptedReadable(c, band, e);
    var s := SegmentOf(c, e);
    Carriers(s, band, |s.body|)
  }

  /** The carriers of all kept nodes, in order. */
  function AllCarriers(c: Columns, kept: seq<int>, band: Band): seq<Carrier>
    requires Aligned(c) && Accepted(c, kept, band)
  {
    if kept == [] then []
    else AllCarriers(c, kept[..|kept| - 1], band) + NodeCarriers(c, band, kept[|kept| - 1])
  }

  // ---- the per-node walk ----

  /** The walk's search for the k-th real position of a raw window. */
  method FindReal(realMask: seq<bool>, lo: nat, hi: nat, target: nat) returns (found: bool, at: nat)
    requires hi <= |realMask|
    ensures found <==> target < Count(Clipped(realMask, lo, hi), true)
    ensures found ==> lo <= at < hi && realMask[at] && Count(realMask[lo..at], true) == target
  {
    var seen := 0;
    found, at := false, 0;
    var p := lo;
    assert lo <= hi ==> realMask[lo..lo] == [];
    while p < hi
      invariant p <= hi || p == lo
      invariant lo <= p
      invariant p <= hi ==> seen == Count(realMask[lo..p], true) <= target
    {
      CountNext(realMask[lo..hi], p - lo, true);
      assert realMask[lo..hi][..p - lo] == realMask[lo..p] && realMask[lo..hi][..p - lo + 1] == realMask[lo..p + 1];
      if realMask[p] {
        if seen == target {
          CountGrows(realMask[lo..hi], p - lo + 1, hi - lo, true);
          assert realMask[lo..hi][..hi - lo] == realMask[lo..hi];
          return true, p;
        }
        seen := seen + 1;
      }
      p := p + 1;
    }
  }

  /** The sign the walk reads is the sign of the node's k-th real position. */
  lemma SignFound(c: Columns, e: nat, at: nat)
    requires Aligned(c) && e < |c.surviving|
    requires c.rawOffsets[e] <= at < c.rawOffsets[e + 1] <= |c.realMask| && c.realMask[at]
    ensures var k := Count(c.realMask[c.rawOffsets[e]..at], true);
      k < |SegmentOf(c, e).signs| && SegmentOf(c, e).signs[k] == c.negative[at]
  {
    var lo, hi := c.rawOffsets[e], c.rawOffsets[e + 1];
    SelectAt(c.negative[lo..hi], c.realMask[lo..hi], at - lo);
    assert c.realMask[lo..hi][..at - lo] == c.realMask[lo..at];
  }

  lemma SignsCounted(c: Columns, e: nat)
    requires Aligned(c) && e < |c.surviving|
    ensures |SegmentOf(c, e).signs| == Count(Clipped(c.realMask, c.rawOffsets[e], c.rawOffsets[e + 1]), true)
  {
    SelectAt(Clipped(c.negative, c.rawOffsets[e], c.rawOffsets[e + 1]),
             Clipped(c.realMask, c.rawOffsets[e], c.rawOffsets[e + 1]), 0);
  }

  /** The columns behind one body slot. */
  lemma BodySlot(c: Columns, e: nat, j: nat)
    requires Aligned(c) && e < |c.surviving| && BodyFits(c, e) && j < BodyLength(c.surviving[e])
    ensures var s, at := SegmentOf(c, e), c.nodeOffsets[e] + 1 + j;
      && |s.body| == |s.painted| == BodyLength(c.surviving[e]) && at < |c.expanded|
      && s.body[j] == c.expanded[at] && s.painted[j] == (c.extraValue[at] || c.extraWide[at])
  {
  }

  // ---- the walk's result, over the columns ----

  /** The surviving body slots of a node before a position whose ids lie in the band and
      that are not painted. */
  ghost function CarrierSlots(c: Columns, band: Band, e: nat, before: int): set<int>
    requires Aligned(c) && e < |c.surviving|
  {
    set p | && c.nodeOffsets[e] + 1 <= p < c.nodeOffsets[e] + c.surviving[e] && p < before && p < |c.expanded|
            && band.lo <= c.expanded[p] < band.hi && !(c.extraValue[p] || c.extraWide[p])
  }

  /** The body slots of a node before a position that are not painted. */
  ghost function UnpaintedSlots(c: Columns, e: nat, before: int): set<int>
    requires Aligned(c) && e < |c.surviving|
  {
    set p | c.nodeOffsets[e] + 1 <= p < before && p < |c.expanded| && !(c.extraValue[p] || c.extraWide[p])
  }

  /** The real raw tokens of a node before a position. */
  ghost function RealSlots(c: Columns, e: nat, before: int): set<int>
    requires Aligned(c) && e < |c.surviving|
  {
    set q | c.rawOffsets[e] <= q < c.rawOffsets[e + 1] && q < before && q < |c.realMask| && c.realMask[q]
  }

  /** The number carrier of a slot: its id's block, and the sign of the node's raw token
      that has as many real ones before it as the slot has unpainted ones. */
  ghost predicate IsCarrierOf(c: Columns, band: Band, e: nat, p: int, r: Carrier)
    requires Aligned(c) && e < |c.surviving| && 0 <= p < |c.expanded|
  {
    && r.blockIdx == c.expanded[p] - band.lo
    && exists q :: q in RealSlots(c, e, c.rawOffsets[e + 1]) && |RealSlots(c, e, q)| == |UnpaintedSlots(c, e, p)|
                   && r.negative == c.negative[q]
  }

  /** A node's carriers: one for each carrier slot, in order. */
  ghost predicate AreCarriersOf(c: Columns, band: Band, e: nat, carriers: seq<Carrier>)
    requires Aligned(c) && e < |c.surviving|
  {
    var end := c.nodeOffsets[e] + c.surviving[e];
    && |carriers| == |CarrierSlots(c, band, e, end)|
    && forall p :: p in CarrierSlots(c, band, e, end) ==>
         var j := |CarrierSlots(c, band, e, p)|;
         j < |carriers| && IsCarrierOf(c, band, e, p, carriers[j])
  }

  lemma MoreUnpainted(c: Columns, e: nat, p: nat)
    requires Aligned(c) && e < |c.surviving| && c.nodeOffsets[e] + 1 <= p < |c.expanded|
    ensures |UnpaintedSlots(c, e, p + 1)| == |UnpaintedSlots(c, e, p)| + if c.extraValue[p] || c.extraWide[p] then 0 else 1
  {
    assert UnpaintedSlots(c, e, p + 1) == UnpaintedSlots(c, e, p) + if c.extraValue[p] || c.extraWide[p] then {} else {p};
  }

  lemma MoreCarriers(c: Columns, band: Band, e: nat, p: nat)
    requires Aligned(c) && e < |c.surviving| && c.nodeOffsets[e] + 1 <= p < c.nodeOffsets[e] + c.surviving[e] && p < |c.expanded|
    ensures |CarrierSlots(c, band, e, p + 1)|
            == |CarrierSlots(c, band, e, p)|
               + if band.lo <= c.expanded[p] < band.hi && !(c.extraValue[p] || c.extraWide[p]) then 1 else 0
  {
    assert CarrierSlots(c, band, e, p + 1)
           == CarrierSlots(c, band, e, p)
              + if band.lo <= c.expanded[p] < band.hi && !(c.extraValue[p] || c.extraWide[p]) then {p} else {};
  }

  lemma RealsCounted(c: Columns, e: nat, at: nat)
    requires Aligned(c) && e < |c.surviving| && c.rawOffsets[e] <= at <= c.rawOffsets[e + 1] <= |c.realMask|
    ensures Count(c.realMask[c.rawOffsets[e]..at], true) == |RealSlots(c, e, at)|
  {
    CountIsSize(c.realMask, c.rawOffsets[e], at, true);
    assert RealSlots(c, e, at) == Marked(c.realMask, c.rawOffsets[e], at, true);
  }

  /** Entry k of a selection is the value at the set position of rank k. */
  lemma SelectedFrom<T>(values: seq<T>, mask: seq<bool>, k: nat)
    requires |values| == |mask| && k < |Select(values, mask)|
    ensures k < |Positions(mask)|
    ensures var q := Positions(mask)[k]; q < |mask| && mask[q] && Count(mask[..q], true) == k && Select(values, mask)[k] == values[q]
  {
    hide Count, Select, Positions;
    PositionsAt(mask, k);
    SelectAt(values, mask, 0);
    SelectAt(values, mask, Positions(mask)[k]);
  }

  lemma SignIsOf(c: Columns, e: nat, k: nat)
    requires Aligned(c) && e < |c.surviving| && c.rawOffsets[e + 1] <= |c.realMask| && k < |SegmentOf(c, e).signs|
    ensures exists q :: q in RealSlots(c, e, c.rawOffsets[e + 1]) && |RealSlots(c, e, q)| == k
                        && SegmentOf(c, e).signs[k] == c.negative[q]
  {
    hide Count, Select, Positions;
    var lo, hi := c.rawOffsets[e], c.rawOffsets[e + 1];
    var mask, signs := Clipped(c.realMask, lo, hi), Clipped(c.negative, lo, hi);
    SelectedFrom(signs, mask, k);
    var q := lo + Positions(mask)[k];
    SliceOfSlice(c.realMask, lo, hi, 0, q - lo);
    assert mask == c.realMask[lo..hi] && mask[0..q - lo] == mask[..q - lo];
    RealsCounted(c, e, q);
    assert q in RealSlots(c, e, hi);
  }

  lemma {:induction false} CarriersCounted(c: Columns, band: Band, e: nat, k: nat)
    requires Aligned(c) && NodeAccepted(c, band, e) && c.surviving[e] > 1 && k <= |SegmentOf(c, e).body|
    ensures var s, at := SegmentOf(c, e), c.nodeOffsets[e] + 1 + k;
      && |s.body| == |s.painted| == c.surviving[e] - 1 && ReadableTo(s, band, k)
      && |Carriers(s, band, k)| == |CarrierSlots(c, band, e, at)|
      && Count(s.painted[..k], false) == |UnpaintedSlots(c, e, at)|
  {
    hide SegmentOf, Count;
    AcceptedReadable(c, band, e);
    BodySlot(c, e, 0);
    if k == 0 {
      CountEmpty();
      assert CarrierSlots(c, band, e, c.nodeOffsets[e] + 1) == {} && UnpaintedSlots(c, e, c.nodeOffsets[e] + 1) == {};
      assert SegmentOf(c, e).painted[..0] == [];
    } else {
      CarriersCounted(c, band, e, k - 1);
      hide CarrierSlots, UnpaintedSlots;
      BodySlot(c, e, k - 1);
      MoreUnpainted(c, e, c.nodeOffsets[e] + k);
      MoreCarriers(c, band, e, c.nodeOffsets[e] + k);
      CountNext(SegmentOf(c, e).painted, k - 1, false);
    }
  }

  lemma {:induction false} CarrierPlaced(c: Columns, band: Band, e: nat, k: nat, p: int)
    requires Aligned(c) && NodeAccepted(c, band, e) && c.surviving[e] > 1 && k <= |SegmentOf(c, e).body|
    requires p in CarrierSlots(c, band, e, c.nodeOffsets[e] + 1 + k)
    ensures var s, j := SegmentOf(c, e), |CarrierSlots(c, band, e, p)|;
      && |s.body| == |s.painted| && ReadableTo(s, band, k)
      && j < |Carriers(s, band, k)| && IsCarrierOf(c, band, e, p, Carriers(s, band, k)[j])
  {
    hide SegmentOf, Count, UnpaintedSlots, RealSlots;
    var s := SegmentOf(c, e);
    AcceptedReadable(c, band, e);
    CarriersCounted(c, band, e, k);
    var i := p - c.nodeOffsets[e] - 1;
    if i == k - 1 {
      CarriersCounted(c, band, e, i);
      BodySlot(c, e, i);
      CountNext(s.painted, i, false);
      SignIsOf(c, e, RealIndex(s, i));
    } else {
      CarrierPlaced(c, band, e, k - 1, p);
    }
  }

  /** The walk's carriers of a node, over the columns. */
  lemma NodeExactly(c: Columns, band: Band, e: nat)
    requires Aligned(c) && NodeAccepted(c, band, e)
    ensures AreCarriersOf(c, band, e, NodeCarriers(c, band, e))
  {
    hide SegmentOf, UnpaintedSlots, RealSlots, IsCarrierOf;
    AcceptedReadable(c, band, e);
    var s, end := SegmentOf(c, e), c.nodeOffsets[e] + c.surviving[e];
    if c.surviving[e] <= 1 {
      assert CarrierSlots(c, band, e, end) == {};
    } else {
      CarriersCounted(c, band, e, |s.body|);
      forall p | p in CarrierSlots(c, band, e, end)
        ensures var j := |CarrierSlots(c, band, e, p)|;
          j < |NodeCarriers(c, band, e)| && IsCarrierOf(c, band, e, p, NodeCarriers(c, band, e)[j])
      {
        CarrierPlaced(c, band, e, |s.body|, p);
      }
    }
  }

  predicate NodesExist(c: Columns, kept: seq<int>) {
    forall k :: 0 <= k < |kept| ==> 0 <= kept[k] < |c.surviving|
  }

  /** How many carriers the first kept nodes have. */
  ghost function CarriersBefore(c: Columns, kept: seq<int>, band: Band, i: nat): nat
    requires Aligned(c) && i <= |kept| && NodesExist(c, kept)
  {
    if i == 0 then 0
    else
      var e := kept[i - 1];
      CarriersBefore(c, kept, band, i - 1) + |CarrierSlots(c, band, e, c.nodeOffsets[e] + c.surviving[e])|
  }

  lemma NodeSize(c: Columns, band: Band, e: int)
    requires Aligned(c) && NodeAccepted(c, band, e)
    ensures |NodeCarriers(c, band, e)| == |CarrierSlots(c, band, e, c.nodeOffsets[e] + c.surviving[e])|
  {
    hide NodeCarriers;
    NodeExactly(c, band, e);
  }

  lemma KeptExist(c: Columns, kept: seq<int>, band: Band)
    requires Aligned(c) && Accepted(c, kept, band)
    ensures NodesExist(c, kept)
  {
    forall k | 0 <= k < |kept|
      ensures 0 <= kept[k] < |c.surviving|
    {
      assert NodeAccepted(c, band, kept[k]);
    }
  }

  lemma AcceptedInit(c: Columns, kept: seq<int>, band: Band)
    requires Aligned(c) && Accepted(c, kept, band) && kept != []
    ensures Accepted(c, kept[..|kept| - 1], band) && NodeAccepted(c, band, kept[|kept| - 1])
  {
    hide NodeAccepted, Aligned;
  }

  /** One more kept node. */
  lemma LastKept(c: Columns, kept: seq<int>, band: Band)
    requires Aligned(c) && Accepted(c, kept, band) && kept != []
    ensures var n := |kept| - 1;
      && Accepted(c, kept[..n], band) && NodesExist(c, kept) && NodesExist(c, kept[..n]) && NodeAccepted(c, band, kept[n])
      && AllCarriers(c, kept, band) == AllCarriers(c, kept[..n], band) + NodeCarriers(c, band, kept[n])
      && CarriersBefore(c, kept, band, n + 1) == CarriersBefore(c, kept, band, n) + |NodeCarriers(c, band, kept[n])|
  {
    hide NodeCarriers, NodeAccepted, Accepted, NodesExist, CarrierSlots, Aligned;
    AcceptedInit(c, kept, band);
    KeptExist(c, kept, band);
    KeptExist(c, kept[..|kept| - 1], band);
    NodeSize(c, band, kept[|kept| - 1]);
  }

  lemma {:induction false} BeforeInit(c: Columns, kept: seq<int>, band: Band, i: nat)
    requires Aligned(c) && kept != [] && i < |kept| && NodesExist(c, kept) && NodesExist(c, kept[..|kept| - 1])
    ensures CarriersBefore(c, kept[..|kept| - 1], band, i) == CarriersBefore(c, kept, band, i)
  {
    hide CarrierSlots;
    if i == 0 {
    } else {
      BeforeInit(c, kept, band, i - 1);
    }
  }

  lemma {:induction false} AllSized(c: Columns, kept: seq<int>, band: Band)
    requires Aligned(c) && Accepted(c, kept, band)
    ensures NodesExist(c, kept) && |AllCarriers(c, kept, band)| == CarriersBefore(c, kept, band, |kept|)
  {
    if kept == [] {
    } else {
      hide Accepted, NodeAccepted, NodesExist, AllCarriers, NodeCarriers, CarriersBefore;
      LastKept(c, kept, band);
      AllSized(c, kept[..|kept| - 1], band);
      BeforeInit(c, kept, band, |kept| - 1);
    }
  }

  lemma {:induction false} AllExactly(c: Columns, kept: seq<int>, band: Band, i: nat)
    requires Aligned(c) && Accepted(c, kept, band) && i < |kept|
    ensures NodesExist(c, kept) && 0 <= kept[i] < |c.surviving|
    ensures var from, to := CarriersBefore(c, kept, band, i), CarriersBefore(c, kept, band, i + 1);
      from <= to <= |AllCarriers(c, kept, band)| && AreCarriersOf(c, band, kept[i], AllCarriers(c, kept, band)[from..to])
  {
    hide NodeAccepted, NodeCarriers, AllCarriers, CarriersBefore, AreCarriersOf;
    var n := |kept| - 1;
    LastKept(c, kept, band);
    AllSized(c, kept[..n], band);
    BeforeInit(c, kept, band, n);
    var all, init := AllCarriers(c, kept, band), AllCarriers(c, kept[..n], band);
    if i == n {
      NodeExactly(c, band, kept[n]);
      assert all[|init|..|all|] == NodeCarriers(c, band, kept[n]);
    } else {
      AllExactly(c, kept[..n], band, i);
      BeforeInit(c, kept, band, i);
      BeforeInit(c, kept, band, i + 1);
      var from, to := CarriersBefore(c, kept, band, i), CarriersBefore(c, kept, band, i + 1);
      assert all[from..to] == init[from..to];
    }
  }

  /** One more body slot. */
  lemma ReadableNext(s: Segment, band: Band, j: nat)
    requires |s.body| == |s.painted| && j < |s.body|
    ensures ReadableTo(s, band, j + 1) <==>
      ReadableTo(s, band, j) && (IsCarrier(s, band, j) ==> 0 <= RealIndex(s, j) < |s.signs|)
    ensures ReadableTo(s, band, j + 1) ==>
      Carriers(s, band, j + 1)
      == Carriers(s, band, j) + if IsCarrier(s, band, j) then [Carrier(s.body[j] - band.lo, s.signs[RealIndex(s, j)])] else []
  {
    hide RealIndex, IsCarrier;
  }

  lemma UnreadableRefused(c: Columns, band: Band, e: nat, k: nat)
    requires Aligned(c) && e < |c.surviving| && c.surviving[e] > 1
    requires var s := SegmentOf(c, e); |s.body| == |s.painted| && k <= |s.body| && !ReadableTo(s, band, k)
    ensures !NodeAccepted(c, band, e)
  {
    hide SegmentOf, IsCarrier, RealIndex;
  }

  method WalkNode(c: Columns, e: nat, band: Band) returns (r: Result<seq<Carrier>>)
    requires Aligned(c) && e < |c.surviving|
    ensures r.Ok? <==> NodeAccepted(c, band, e)
    ensures r.Ok? ==> r.value == NodeCarriers(c, band, e)
    ensures r.Ok? ==> AreCarriersOf(c, band, e, r.value)
  {
    hide Count, Select, SegmentOf, AreCarriersOf;
    if NodeAccepted(c, band, e) {
      NodeExactly(c, band, e);
    }
    var bodyLen := BodyLength(c.surviving[e]);
    if bodyLen == 0 {
      AcceptedReadable(c, band, e);
      return Ok([]);
    }
    var bodyStart := c.nodeOffsets[e] + 1;
    var bodyEnd := bodyStart + bodyLen;
    if bodyEnd > c.nodeOffsets[e + 1] || bodyEnd > |c.expanded| {
      return Err("body exceeds expanded slice");
    }
    if c.rawOffsets[e + 1] > |c.realMask| || c.rawOffsets[e + 1] > |c.negative| {
      return Err("raw slice exceeds flat arrays");
    }
    ghost var s := SegmentOf(c, e);
    SignsCounted(c, e);
    BodySlot(c, e, 0);
    assert Count([], false) == 0 by { CountEmpty(); }
    var carriers: seq<Carrier> := [];
    var realRunning := 0;
    for j := 0 to bodyLen
      invariant realRunning == Count(s.painted[..j], false)
      invariant ReadableTo(s, band, j)
      invariant carriers == Carriers(s, band, j)
    {
      hide ReadableTo, Carriers;
      BodySlot(c, e, j);
      CountNext(s.painted, j, false);
      ReadableNext(s, band, j);
      var painted := c.extraValue[bodyStart + j] || c.extraWide[bodyStart + j];
      assert painted == s.painted[j];
      if !painted {
        realRunning := realRunning + 1;
      }
      var shifted := c.expanded[bodyStart + j];
      assert shifted == s.body[j];
      if band.lo <= shifted && shifted < band.hi && !painted {
        assert IsCarrier(s, band, j);
        var found, at := FindReal(c.realMask, c.rawOffsets[e], c.rawOffsets[e + 1], realRunning - 1);
        if !found {
          UnreadableRefused(c, band, e, j + 1);
          return Err("carrier real index exceeds the node's real-position count");
        }
        SignFound(c, e, at);
        carriers := carriers + [Carrier(shifted - band.lo, c.negative[at])];
      }
    }
    return Ok(carriers);
  }

  /** The kernel: the carriers of all kept nodes, or the first refusal. */
  method RunKernel(c: Columns, kept: seq<int>, band: Band) returns (r: Result<seq<Carrier>>)
    requires Aligned(c)
    ensures r.Ok? <==> Accepted(c, kept, band)
    ensures r.Ok? ==> r.value == AllCarriers(c, kept, band)
    ensures r.Ok? ==>
      && NodesExist(c, kept) && |r.value| == CarriersBefore(c, kept, band, |kept|)
      && forall i :: 0 <= i < |kept| ==>
           var from, to := CarriersBefore(c, kept, band, i), CarriersBefore(c, kept, band, i + 1);
           from <= to <= |r.value| && AreCarriersOf(c, band, kept[i], r.value[from..to])
  {
    hide NodeAccepted, NodeCarriers, AreCarriersOf, CarrierSlots, CarriersBefore;
    var carriers: seq<Carrier> := [];
    for k := 0 to |kept|
      invariant Accepted(c, kept[..k], band)
      invariant carriers == AllCarriers(c, kept[..k], band)
    {
      if kept[k] < 0 || kept[k] >= |c.surviving| {
        assert !NodeAccepted(c, band, kept[k]) by { AcceptedInRange(c, band, kept[k]); }
        return Err("kept_node_index entry out of range");
      }
      var node := WalkNode(c, kept[k], band);
      if node.Err? {
        return Err(node.error);
      }
      TakeNext(kept, k);
      assert kept[..k + 1][..k] == kept[..k];
      carriers := carriers + node.value;
    }
    assert kept[..|kept|] == kept;
    AllSized(c, kept, band);
    forall i | 0 <= i < |kept|
      ensures var from, to := CarriersBefore(c, kept, band, i), CarriersBefore(c, kept, band, i + 1);
        from <= to <= |carriers| && AreCarriersOf(c, band, kept[i], carriers[from..to])
    {
      AllExactly(c, kept, band, i);
    }
    return Ok(carriers);
  }

  lemma AcceptedInRange(c: Columns, band: Band, e: int)
    requires Aligned(c)
    ensures NodeAccepted(c, band, e) ==> 0 <= e < |c.surviving|
  {
  }
}
