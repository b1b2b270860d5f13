/** The flat reference of the carrier walk: chunks of all nodes joined, one global prefix
    sum of real slots, and a carry-in per segment, and its agreement with the walk. */
module CarrierReference {
  import opened TokenSeqs
  import opened Results
  import opened RunLengths
  import opened FlatLayout
  import opened Masks
  import opened CarrierSigns

  predicate Framed(segs: seq<Segment>) {
    forall i :: 0 <= i < |segs| ==> |segs[i].body| == |segs[i].painted|
  }

  function BodyLists(segs: seq<Segment>): seq<seq<int>> {
    seq(|segs|, i requires 0 <= i < |segs| => segs[i].body)
  }

  function PaintedLists(segs: seq<Segment>): seq<seq<bool>> {
    seq(|segs|, i requires 0 <= i < |segs| => segs[i].painted)
  }

  function SignLists(segs: seq<Segment>): seq<seq<bool>> {
    seq(|segs|, i requires 0 <= i < |segs| => segs[i].signs)
  }

  // ---- whole-array steps ----

  /** `np.repeat(np.arange(n), counts)`. */
  function RepeatIndex(counts: seq<nat>): seq<int> {
    if counts == [] then []
    else RepeatIndex(counts[..|counts| - 1]) + seq(counts[|counts| - 1], _ => |counts| - 1)
  }

  /** `np.cumsum(is_real)`. */
  function GlobalCum(painted: seq<bool>): seq<int> {
    seq(|painted|, j requires 0 <= j < |painted| => Count(painted[..j + 1], false))
  }

  function GlobalCumExcl(painted: seq<bool>): seq<int> {
    seq(|painted|, j requires 0 <= j < |painted| => GlobalCum(painted)[j] - if painted[j] then 0 else 1)
  }

  /** The exclusive count at each segment's first slot, clipped into the stream. */
  function CarryIn(painted: seq<bool>, offsets: seq<nat>): seq<int>
    requires painted != []
  {
    seq(|offsets|, i requires 0 <= i < |offsets| => GlobalCumExcl(painted)[Min(offsets[i], |painted| - 1)])
  }

  function InBandMask(flat: seq<int>, painted: seq<bool>, band: Band): seq<bool>
    requires |flat| == |painted|
  {
    seq(|flat|, j requires 0 <= j < |flat| => InBand(flat[j], band) && !painted[j])
  }

  /** Where each slot's real position is in the joined signs. */
  function RealGlobal(painted: seq<bool>, segId: seq<int>, carry: seq<int>, base: seq<int>): seq<int>
    requires |segId| == |painted| && |carry| == |base|
    requires forall j :: 0 <= j < |segId| ==> 0 <= segId[j] < |carry|
  {
    seq(|painted|, j requires 0 <= j < |painted| =>
      base[segId[j]] + (GlobalCum(painted)[j] - 1 - carry[segId[j]]))
  }

  function Zipped(flat: seq<int>, at: seq<int>, signs: seq<bool>, lo: int): seq<Carrier>
    requires |flat| == |at| && forall i :: 0 <= i < |at| ==> 0 <= at[i] < |signs|
  {
    seq(|flat|, i requires 0 <= i < |flat| => Carrier(flat[i] - lo, signs[at[i]]))
  }

  lemma {:induction false} RepeatSizes(counts: seq<nat>)
    ensures |RepeatIndex(counts)| == Sum(counts)
    ensures forall j :: 0 <= j < |RepeatIndex(counts)| ==> 0 <= RepeatIndex(counts)[j] < |counts|
  {
    if counts == [] {
    } else {
      RepeatSizes(counts[..|counts| - 1]);
    }
  }

  /** Where each segment starts. */
  function Offsets(segLen: seq<nat>): seq<nat> {
    seq(|segLen|, i requires 0 <= i < |segLen| => PrefixSum(segLen, i))
  }

  /** The flat expressions behind the joined chunks. When the slots are not as many as the
      segment lengths say, the columns do not combine; only a single slot or a single
      length still does, and then no carrier may be selected. */
  function FlatCarriers(flat: seq<int>, painted: seq<bool>, signs: seq<bool>,
                        segLen: seq<nat>, base: seq<int>, band: Band): Result<seq<Carrier>>
    requires |flat| == |painted| && |base| == |segLen|
  {
    var mask := InBandMask(flat, painted, band);
    if flat == [] then Ok([])
    else if |flat| != Sum(segLen) then
      if |flat| != 1 && Sum(segLen) != 1 then Err("operands could not be broadcast together")
      else if true in mask then Err("boolean index did not match")
      else Ok([])
    else
      var segId := RepeatIndex(segLen);
      RepeatSizes(segLen);
      var realGlobal := RealGlobal(painted, segId, CarryIn(painted, Offsets(segLen)), base);
      var at := Select(realGlobal, mask);
      if exists i :: 0 <= i < |at| && !(0 <= at[i] < |signs|) then Err("index out of bounds")
      else
        SelectSizes(flat, mask);
        SelectSizes(realGlobal, mask);
        Ok(Zipped(Select(flat, mask), at, signs, band.lo))
  }

  /** Entry i of the segment offsets: the lengths before segment i. */
  function PrefixSum(counts: seq<nat>, i: nat): nat
    requires i <= |counts|
  {
    SumNonNegative(counts[..i]);
    Sum(counts[..i])
  }

  lemma {:induction false} SumNonNegative(counts: seq<nat>)
    ensures Sum(counts) >= 0
  {
    if counts == [] {
    } else {
      SumNonNegative(counts[..|counts| - 1]);
    }
  }

  function Bases(segs: seq<Segment>): seq<int> {
    seq(|segs|, i requires 0 <= i < |segs| => |Concat(SignLists(segs[..i]))|)
  }

  function Lens(segs: seq<Segment>): seq<nat> {
    seq(|segs|, i requires 0 <= i < |segs| => |segs[i].body|)
  }

  lemma {:induction false} JoinedSizes(segs: seq<Segment>)
    requires Framed(segs)
    ensures |Concat(BodyLists(segs))| == |Concat(PaintedLists(segs))| == Sum(Lens(segs))
  {
    if segs == [] {
    } else {
      var init := segs[..|segs| - 1];
      JoinedSizes(init);
      assert BodyLists(segs) == BodyLists(init) + [segs[|init|].body];
      assert PaintedLists(segs) == PaintedLists(init) + [segs[|init|].painted];
      assert Lens(segs) == Lens(init) + [|segs[|init|].body|];
      ConcatSnoc(BodyLists(init), segs[|init|].body);
      ConcatSnoc(PaintedLists(init), segs[|init|].painted);
      SumSnoc(Lens(init), |segs[|init|].body|);
    }
  }

  lemma {:induction false} ChunkSizes(segs: seq<Segment>)
    requires Framed(segs)
    ensures |Concat(BodyLists(segs))| == |Concat(PaintedLists(segs))|
  {
    JoinedSizes(segs);
  }

  /** The reference over chunks of the kept nodes and the lengths they should have. */
  function ReferenceFor(segs: seq<Segment>, lens: seq<nat>, band: Band): Result<seq<Carrier>>
    requires Framed(segs) && |lens| == |segs|
  {
    ChunkSizes(segs);
    FlatCarriers(Concat(BodyLists(segs)), Concat(PaintedLists(segs)), Concat(SignLists(segs)), lens, Bases(segs), band)
  }

  /** Chunks that have the lengths they should have. */
  function ReferenceOf(segs: seq<Segment>, band: Band): Result<seq<Carrier>>
    requires Framed(segs)
  {
    ReferenceFor(segs, Lens(segs), band)
  }

  // ---- agreement ----

  predicate AllReadable(segs: seq<Segment>, band: Band) {
    forall i :: 0 <= i < |segs| ==> Readable(segs[i], band)
  }

  /** The carriers of all segments, in order. */
  function CarriersOf(segs: seq<Segment>, band: Band): seq<Carrier>
    requires AllReadable(segs, band)
  {
    if segs == [] then []
    else
      var last := segs[|segs| - 1];
      CarriersOf(segs[..|segs| - 1], band) + Carriers(last, band, |last.body|)
  }

  /** Segment i inside the joined chunks. */
  lemma Joined<T>(lists: seq<seq<T>>, i: nat, k: nat)
    requires i < |lists| && k <= |lists[i]|
    ensures |Concat(lists[..i])| + |lists[i]| <= |Concat(lists)|
    ensures k < |lists[i]| ==> Concat(lists)[|Concat(lists[..i])| + k] == lists[i][k]
    ensures Concat(lists)[..|Concat(lists[..i])| + k] == Concat(lists[..i]) + lists[i][..k]
  {
    ConcatMiddle(lists, i);
  }

  lemma ListPrefixes(segs: seq<Segment>, i: nat)
    requires i <= |segs|
    ensures BodyLists(segs)[..i] == BodyLists(segs[..i])
    ensures PaintedLists(segs)[..i] == PaintedLists(segs[..i])
    ensures SignLists(segs)[..i] == SignLists(segs[..i])
    ensures Lens(segs)[..i] == Lens(segs[..i])
  {
  }

  /** Where segment i starts in the joined stream. */
  lemma SegmentStart(segs: seq<Segment>, i: nat)
    requires Framed(segs) && i <= |segs|
    ensures PrefixSum(Lens(segs), i) == |Concat(BodyLists(segs[..i]))| == |Concat(PaintedLists(segs[..i]))|
  {
    ListPrefixes(segs, i);
    JoinedSizes(segs[..i]);
  }

  lemma {:induction false} RepeatAt(counts: seq<nat>, i: nat, k: nat)
    requires i < |counts| && k < counts[i]
    ensures PrefixSum(counts, i) + k < |RepeatIndex(counts)| && RepeatIndex(counts)[PrefixSum(counts, i) + k] == i
  {
    RepeatSizes(counts[..|counts| - 1]);
    if i == |counts| - 1 {
    } else {
      RepeatAt(counts[..|counts| - 1], i, k);
      assert counts[..|counts| - 1][..i] == counts[..i];
    }
  }

  function Globals(segs: seq<Segment>): seq<int>
    requires Framed(segs) && Concat(BodyLists(segs)) != []
  {
    JoinedSizes(segs);
    RepeatSizes(Lens(segs));
    var painted := Concat(PaintedLists(segs));
    RealGlobal(painted, RepeatIndex(Lens(segs)), CarryIn(painted, Offsets(Lens(segs))), Bases(segs))
  }

  /** The global count splits at the segment's start. */
  lemma CumAt(segs: seq<Segment>, i: nat, k: nat)
    requires Framed(segs) && i < |segs| && k < |segs[i].body|
    ensures var p, m := Concat(PaintedLists(segs)), PrefixSum(Lens(segs), i) + k;
      && m < |p| && p[m] == segs[i].painted[k]
      && GlobalCum(p)[m] == Count(Concat(PaintedLists(segs[..i])), false) + Count(segs[i].painted[..k + 1], false)
  {
    hide Concat, Count;
    ListPrefixes(segs, i);
    SegmentStart(segs, i);
    Joined(PaintedLists(segs), i, k);
    Joined(PaintedLists(segs), i, k + 1);
    CountAppend(Concat(PaintedLists(segs[..i])), segs[i].painted[..k + 1], false);
  }

  /** A segment's carry-in is the count of all real slots before it. */
  lemma CarryAt(segs: seq<Segment>, i: nat)
    requires Framed(segs) && i < |segs| && segs[i].body != []
    ensures Concat(PaintedLists(segs)) != []
    ensures CarryIn(Concat(PaintedLists(segs)), Offsets(Lens(segs)))[i] == Count(Concat(PaintedLists(segs[..i])), false)
  {
    hide Concat, Count, PrefixSum;
    CumAt(segs, i, 0);
    FirstSlot(segs[i].painted);
  }

  /** Subtracting the carry-in recovers the index within the node. */
  lemma GlobalAt(segs: seq<Segment>, i: nat, k: nat)
    requires Framed(segs) && i < |segs| && k < |segs[i].body|
    ensures Concat(BodyLists(segs)) != []
    ensures var m := PrefixSum(Lens(segs), i) + k;
      && m < |Globals(segs)| == |Concat(BodyLists(segs))| == |Concat(PaintedLists(segs))|
      && Globals(segs)[m] == Bases(segs)[i] + RealIndex(segs[i], k)
      && Concat(BodyLists(segs))[m] == segs[i].body[k]
      && Concat(PaintedLists(segs))[m] == segs[i].painted[k]
  {
    hide Concat, Count, RepeatIndex, Sum, CarryIn, GlobalCum;
    ListPrefixes(segs, i);
    SegmentStart(segs, i);
    JoinedSizes(segs);
    Joined(BodyLists(segs), i, k);
    RepeatSizes(Lens(segs));
    RepeatAt(Lens(segs), i, k);
    CumAt(segs, i, k);
    CarryAt(segs, i);
  }

  lemma FirstSlot(p: seq<bool>)
    requires p != []
    ensures Count(p[..1], false) == if p[0] then 0 else 1
  {
    assert p[..1][..0] == [];
  }

  /** The first m slots yield these carriers. */
  ghost predicate Yields(flat: seq<int>, mask: seq<bool>, globals: seq<int>, signs: seq<bool>, lo: int,
                         m: nat, expected: seq<Carrier>)
    requires |flat| == |mask| == |globals| && m <= |mask|
  {
    var f, at := Select(flat[..m], mask[..m]), Select(globals[..m], mask[..m]);
    && |f| == |at|
    && (forall i :: 0 <= i < |at| ==> 0 <= at[i] < |signs|)
    && Zipped(f, at, signs, lo) == expected
  }

  lemma YieldsNext(flat: seq<int>, mask: seq<bool>, globals: seq<int>, signs: seq<bool>, lo: int,
                   m: nat, expected: seq<Carrier>)
    requires |flat| == |mask| == |globals| && m < |mask|
    requires Yields(flat, mask, globals, signs, lo, m, expected)
    requires mask[m] ==> 0 <= globals[m] < |signs|
    ensures Yields(flat, mask, globals, signs, lo, m + 1,
                   if mask[m] then expected + [Carrier(flat[m] - lo, signs[globals[m]])] else expected)
  {
    SelectNext(flat, mask, m);
    SelectNext(globals, mask, m);
  }

  lemma SelectNext<T>(values: seq<T>, mask: seq<bool>, m: nat)
    requires |values| == |mask| && m < |mask|
    ensures Select(values[..m + 1], mask[..m + 1])
            == if mask[m] then Select(values[..m], mask[..m]) + [values[m]] else Select(values[..m], mask[..m])
  {
    assert values[..m + 1][..m] == values[..m] && mask[..m + 1][..m] == mask[..m];
  }

  /** What the joined stream yields up to slot k of segment i. */
  lemma {:induction false} YieldsTo(segs: seq<Segment>, band: Band, i: nat, k: nat)
    requires AllReadable(segs, band) && Framed(segs) && Concat(BodyLists(segs)) != []
    requires i < |segs| && k <= |segs[i].body|
    ensures YieldsAt(segs, band, i, k)
    decreases i, k
  {
    hide YieldsAt;
    if k > 0 {
      YieldsTo(segs, band, i, k - 1);
      NextSlot(segs, band, i, k - 1);
    } else if i > 0 {
      YieldsTo(segs, band, i - 1, |segs[i - 1].body|);
      NextSegment(segs, band, i);
    } else {
      NoSlots(segs, band);
    }
  }

  ghost predicate YieldsAt(segs: seq<Segment>, band: Band, i: nat, k: nat)
    requires AllReadable(segs, band) && Framed(segs) && Concat(BodyLists(segs)) != []
    requires i < |segs| && k <= |segs[i].body|
  {
    JoinedSizes(segs);
    var flat, painted := Concat(BodyLists(segs)), Concat(PaintedLists(segs));
    var m := PrefixSum(Lens(segs), i) + k;
    && m <= |flat| == |Globals(segs)|
    && Yields(flat, InBandMask(flat, painted, band), Globals(segs), Concat(SignLists(segs)), band.lo, m,
              CarriersOf(segs[..i], band) + Carriers(segs[i], band, k))
  }

  lemma NextSlot(segs: seq<Segment>, band: Band, i: nat, k: nat)
    requires AllReadable(segs, band) && Framed(segs) && Concat(BodyLists(segs)) != []
    requires i < |segs| && k < |segs[i].body| && YieldsAt(segs, band, i, k)
    ensures YieldsAt(segs, band, i, k + 1)
  {
    hide Concat, Count, Select, Yields, Globals, PrefixSum, CarriersOf;
    var flat, painted := Concat(BodyLists(segs)), Concat(PaintedLists(segs));
    JoinedSizes(segs);
    GlobalAt(segs, i, k);
    SignAt(segs, i);
    var before, here := CarriersOf(segs[..i], band), Carriers(segs[i], band, k);
    YieldsNext(flat, InBandMask(flat, painted, band), Globals(segs), Concat(SignLists(segs)), band.lo,
               PrefixSum(Lens(segs), i) + k, before + here);
    if IsCarrier(segs[i], band, k) {
      AppendAssoc(before, here, [Carrier(segs[i].body[k] - band.lo, segs[i].signs[RealIndex(segs[i], k)])]);
    }
  }

  /** The end of one segment is the start of the next. */
  lemma NextSegment(segs: seq<Segment>, band: Band, i: nat)
    requires AllReadable(segs, band) && Framed(segs) && Concat(BodyLists(segs)) != []
    requires 0 < i < |segs| && YieldsAt(segs, band, i - 1, |segs[i - 1].body|)
    ensures YieldsAt(segs, band, i, 0)
  {
    hide Concat, Count, Select, Yields, Globals;
    TakeNext(Lens(segs), i - 1);
    SumSnoc(Lens(segs)[..i - 1], Lens(segs)[i - 1]);
    assert segs[..i][..i - 1] == segs[..i - 1];
    var before := CarriersOf(segs[..i], band);
    assert before == CarriersOf(segs[..i - 1], band) + Carriers(segs[i - 1], band, |segs[i - 1].body|);
    assert before + Carriers(segs[i], band, 0) == before;
  }

  lemma NoSlots(segs: seq<Segment>, band: Band)
    requires AllReadable(segs, band) && Framed(segs) && Concat(BodyLists(segs)) != [] && segs != []
    ensures YieldsAt(segs, band, 0, 0)
  {
    hide Concat, Count, Globals;
    JoinedSizes(segs);
    GlobalsSize(segs);
    assert PrefixSum(Lens(segs), 0) == 0 by { SumEmpty(); }
  }

  lemma GlobalsSize(segs: seq<Segment>)
    requires Framed(segs) && Concat(BodyLists(segs)) != []
    ensures |Globals(segs)| == |Concat(PaintedLists(segs))|
  {
  }

  lemma SignAt(segs: seq<Segment>, i: nat)
    requires i < |segs|
    ensures Bases(segs)[i] + |segs[i].signs| <= |Concat(SignLists(segs))|
    ensures forall r :: 0 <= r < |segs[i].signs| ==>
      Concat(SignLists(segs))[Bases(segs)[i] + r] == segs[i].signs[r]
  {
    ListPrefixes(segs, i);
    ConcatMiddle(SignLists(segs), i);
  }

  /** On readable segments the flat reference yields the carriers of each segment in order. */
  lemma ReferenceIsSegmented(segs: seq<Segment>, band: Band)
    requires AllReadable(segs, band) && Framed(segs)
    ensures ReferenceOf(segs, band) == Ok(CarriersOf(segs, band))
  {
    hide Count, Select, Carriers;
    JoinedSizes(segs);
    if Concat(BodyLists(segs)) == [] {
      NoBodies(segs, band);
    } else {
      var last := |segs| - 1;
      YieldsTo(segs, band, last, |segs[last].body|);
      WholeStream(segs);
      var flat, painted := Concat(BodyLists(segs)), Concat(PaintedLists(segs));
      YieldsAll(flat, InBandMask(flat, painted, band), Globals(segs), Concat(SignLists(segs)), band.lo,
                CarriersOf(segs, band));
    }
  }

  lemma WholeStream(segs: seq<Segment>)
    requires Framed(segs) && segs != []
    ensures PrefixSum(Lens(segs), |segs| - 1) + |segs[|segs| - 1].body| == |Concat(BodyLists(segs))|
  {
    JoinedSizes(segs);
    SplitLast(Lens(segs));
    SumSnoc(Lens(segs)[..|segs| - 1], Lens(segs)[|segs| - 1]);
  }

  lemma YieldsAll(flat: seq<int>, mask: seq<bool>, globals: seq<int>, signs: seq<bool>, lo: int,
                  expected: seq<Carrier>)
    requires |flat| == |mask| == |globals|
    requires Yields(flat, mask, globals, signs, lo, |mask|, expected)
    ensures var f, at := Select(flat, mask), Select(globals, mask);
      && |f| == |at|
      && (forall i :: 0 <= i < |at| ==> 0 <= at[i] < |signs|)
      && Zipped(f, at, signs, lo) == expected
  {
    assert flat[..|mask|] == flat && mask[..|mask|] == mask && globals[..|mask|] == globals;
  }

  lemma {:induction false} NoBodies(segs: seq<Segment>, band: Band)
    requires AllReadable(segs, band) && Concat(BodyLists(segs)) == []
    ensures CarriersOf(segs, band) == []
  {
    if segs == [] {
    } else {
      var init := segs[..|segs| - 1];
      assert BodyLists(segs) == BodyLists(init) + [segs[|init|].body];
      ConcatSnoc(BodyLists(init), segs[|init|].body);
      NoBodies(init, band);
    }
  }

  function SegmentsOf(c: Columns, kept: seq<int>): seq<Segment>
    requires Aligned(c) && forall i :: 0 <= i < |kept| ==> 0 <= kept[i] < |c.surviving|
  {
    seq(|kept|, i requires 0 <= i < |kept| => SegmentOf(c, kept[i]))
  }

  lemma {:induction false} CarriersOfKept(c: Columns, kept: seq<int>, band: Band)
    requires Aligned(c) && Accepted(c, kept, band)
    ensures AllReadable(SegmentsOf(c, kept), band)
    ensures CarriersOf(SegmentsOf(c, kept), band) == AllCarriers(c, kept, band)
  {
    hide SegmentOf, Carriers, Readable, BodyFits;
    forall i | 0 <= i < |kept|
      ensures Readable(SegmentsOf(c, kept)[i], band)
    {
      AcceptedReadable(c, band, kept[i]);
    }
    if kept == [] {
    } else {
      var init := kept[..|kept| - 1];
      CarriersOfKept(c, init, band);
      var segs := SegmentsOf(c, kept);
      assert segs[..|segs| - 1] == SegmentsOf(c, init);
    }
  }

  /** `s[1:hi]`; a negative bound counts from the end. */
  function FromOneTo<T>(s: seq<T>, hi: int): (r: seq<T>)
    ensures |r| == |Clipped(s, 1, if hi >= 0 then hi else if |s| + hi >= 0 then |s| + hi else 0)|
  {
    Clipped(s, 1, if hi >= 0 then hi else if |s| + hi >= 0 then |s| + hi else 0)
  }

  /** `s[e]`; a negative index counts from the end. */
  function At<T>(s: seq<T>, e: int): T
    requires -|s| <= e < |s|
  {
    if e >= 0 then s[e] else s[|s| + e]
  }

  /** The signs at the real positions of a raw window. */
  function WindowSigns(c: Columns, lo: nat, hi: nat): seq<bool>
    requires Aligned(c)
  {
    Select(Clipped(c.negative, lo, hi), Clipped(c.realMask, lo, hi))
  }

  /** The chunks the reference takes of a node, whatever its survivor count. */
  function ChunkOf(c: Columns, e: int): Segment
    requires Aligned(c) && -|c.surviving| <= e < |c.surviving|
  {
    var lo, hi, n := At(c.nodeOffsets, e), At(c.nodeOffsets, e + 1), At(c.surviving, e);
    SameChunks(c.extraValue, c.extraWide, lo, hi, n);
    Segment(FromOneTo(Clipped(c.expanded, lo, hi), n),
            Either(FromOneTo(Clipped(c.extraValue, lo, hi), n), FromOneTo(Clipped(c.extraWide, lo, hi), n)),
            WindowSigns(c, At(c.rawOffsets, e), At(c.rawOffsets, e + 1)))
  }

  lemma SameChunks<T, U>(a: seq<T>, b: seq<U>, lo: nat, hi: nat, n: int)
    requires |a| == |b|
    ensures |FromOneTo(Clipped(a, lo, hi), n)| == |FromOneTo(Clipped(b, lo, hi), n)|
  {
  }

  predicate InRange(c: Columns, kept: seq<int>) {
    forall i :: 0 <= i < |kept| ==> -|c.surviving| <= kept[i] < |c.surviving|
  }

  function ChunksOf(c: Columns, kept: seq<int>): (segs: seq<Segment>)
    requires Aligned(c) && InRange(c, kept)
    ensures Framed(segs) && |segs| == |kept|
  {
    ChunksFramed(c, kept);
    seq(|kept|, i requires 0 <= i < |kept| => ChunkOf(c, kept[i]))
  }

  lemma ChunksFramed(c: Columns, kept: seq<int>)
    requires Aligned(c) && InRange(c, kept)
    ensures forall i :: 0 <= i < |kept| ==> |ChunkOf(c, kept[i]).body| == |ChunkOf(c, kept[i]).painted|
  {
    forall i | 0 <= i < |kept|
      ensures |ChunkOf(c, kept[i]).body| == |ChunkOf(c, kept[i]).painted|
    {
      ChunkFramed(c, kept[i]);
    }
  }

  lemma ChunkFramed(c: Columns, e: int)
    requires Aligned(c) && -|c.surviving| <= e < |c.surviving|
    ensures |ChunkOf(c, e).body| == |ChunkOf(c, e).painted|
  {
    hide FromOneTo, WindowSigns, At;
    var lo, hi, n := At(c.nodeOffsets, e), At(c.nodeOffsets, e + 1), At(c.surviving, e);
    SameChunks(c.expanded, c.extraValue, lo, hi, n);
    SameChunks(c.extraValue, c.extraWide, lo, hi, n);
  }

  /** The lengths the survivor counts say. */
  function LensOf(c: Columns, kept: seq<int>): (lens: seq<nat>)
    requires InRange(c, kept)
    ensures |lens| == |kept|
  {
    seq(|kept|, i requires 0 <= i < |kept| => BodyLength(At(c.surviving, kept[i])))
  }

  /** The original implementation: chunks of every kept node, then the flat expressions. A
      kept index outside the columns is an error, a negative one counts from the end. */
  method ReferenceCarrierSigns(c: Columns, kept: seq<int>, band: Band) returns (r: Result<seq<Carrier>>)
    requires Aligned(c)
    ensures r == if InRange(c, kept) then ReferenceFor(ChunksOf(c, kept), LensOf(c, kept), band)
                 else Err("index out of bounds")
  {
    hide Concat, Select, Clipped, Either, FlatCarriers, FromOneTo, At;
    var n := |kept|;
    ghost var segs := if InRange(c, kept) then ChunksOf(c, kept) else [];
    assert |Concat(SignLists(segs[..0]))| == 0 by { NoSigns(segs); }
    var expandedChunks: seq<seq<int>>, paintedChunks: seq<seq<bool>>, negChunks: seq<seq<bool>> := [], [], [];
    var expSegLen, realSegBase := new nat[n], new int[n];
    var realRunning := 0;
    for i := 0 to n
      invariant forall k :: 0 <= k < i ==> -|c.surviving| <= kept[k] < |c.surviving|
      invariant InRange(c, kept) ==>
        && expandedChunks == BodyLists(segs)[..i] && paintedChunks == PaintedLists(segs)[..i]
        && negChunks == SignLists(segs)[..i]
        && expSegLen[..i] == LensOf(c, kept)[..i] && realSegBase[..i] == Bases(segs)[..i]
        && realRunning == |Concat(SignLists(segs[..i]))|
    {
      var e := kept[i];
      if e < -|c.surviving| || e >= |c.surviving| {
        return Err("index out of bounds");
      }
      var lo, hi, survivors := At(c.nodeOffsets, e), At(c.nodeOffsets, e + 1), At(c.surviving, e);
      var rawLo, rawHi := At(c.rawOffsets, e), At(c.rawOffsets, e + 1);
      SameChunks(c.extraValue, c.extraWide, lo, hi, survivors);
      EqualClips(c.negative, c.realMask, rawLo, rawHi);
      expandedChunks := expandedChunks + [FromOneTo(Clipped(c.expanded, lo, hi), survivors)];
      paintedChunks := paintedChunks + [Either(FromOneTo(Clipped(c.extraValue, lo, hi), survivors),
                                               FromOneTo(Clipped(c.extraWide, lo, hi), survivors))];
      expSegLen[i] := BodyLength(survivors);
      var signs := Select(Clipped(c.negative, rawLo, rawHi), Clipped(c.realMask, rawLo, rawHi));
      negChunks := negChunks + [signs];
      realSegBase[i] := realRunning;
      realRunning := realRunning + |signs|;
      if InRange(c, kept) {
        SignsNext(segs, i);
      }
    }
    Whole(segs, |segs|);
    assert expSegLen[..n] == expSegLen[..] && realSegBase[..n] == realSegBase[..];
    assert LensOf(c, kept)[..n] == LensOf(c, kept);
    ChunkSizes(segs);
    r := FlatCarriers(Concat(expandedChunks), Concat(paintedChunks), Concat(negChunks),
                      expSegLen[..], realSegBase[..], band);
  }

  lemma Whole(segs: seq<Segment>, n: nat)
    requires n == |segs|
    ensures BodyLists(segs)[..n] == BodyLists(segs) && PaintedLists(segs)[..n] == PaintedLists(segs)
    ensures SignLists(segs)[..n] == SignLists(segs) && Lens(segs)[..n] == Lens(segs) && Bases(segs)[..n] == Bases(segs)
  {
  }

  lemma EqualClips<T, U>(a: seq<T>, b: seq<U>, lo: nat, hi: nat)
    requires |a| == |b|
    ensures |Clipped(a, lo, hi)| == |Clipped(b, lo, hi)|
  {
  }

  lemma NoSigns(segs: seq<Segment>)
    ensures Concat(SignLists(segs[..0])) == []
  {
  }

  lemma SignsNext(segs: seq<Segment>, i: nat)
    requires i < |segs|
    ensures |Concat(SignLists(segs[..i + 1]))| == |Concat(SignLists(segs[..i]))| + |segs[i].signs|
  {
    assert SignLists(segs[..i + 1]) == SignLists(segs[..i]) + [segs[i].signs];
    ConcatSnoc(SignLists(segs[..i]), segs[i].signs);
  }

  lemma ClipTwice<T>(s: seq<T>, lo: nat, hi: nat, n: nat)
    requires n <= 1 || (lo + n <= hi && lo + n <= |s|)
    ensures Clipped(Clipped(s, lo, hi), 1, n) == Clipped(s, lo + 1, lo + 1 + BodyLength(n))
  {
    if n > 1 {
      var h := if hi <= |s| then hi else |s|;
      SliceOfSlice(s, lo, h, 1, n);
    }
  }

  lemma EitherClipped(a: seq<bool>, b: seq<bool>, lo: nat, hi: nat)
    requires |a| == |b|
    ensures |Clipped(a, lo, hi)| == |Clipped(b, lo, hi)|
    ensures Clipped(Either(a, b), lo, hi) == Either(Clipped(a, lo, hi), Clipped(b, lo, hi))
  {
  }

  /** Where the survivors exist, slicing a node's window and then its survivors reads the
      walk's body. */
  lemma ChunkIsSegment(c: Columns, e: nat)
    requires Aligned(c) && e < |c.surviving| && c.surviving[e] >= 0 && BodyFits(c, e)
    ensures ChunkOf(c, e) == SegmentOf(c, e) && |SegmentOf(c, e).body| == BodyLength(c.surviving[e])
  {
    hide Clipped, Select;
    var lo, hi, n := c.nodeOffsets[e], c.nodeOffsets[e + 1], c.surviving[e];
    ClipTwice(c.expanded, lo, hi, n);
    ClipTwice(c.extraValue, lo, hi, n);
    ClipTwice(c.extraWide, lo, hi, n);
    EitherClipped(c.extraValue, c.extraWide, lo + 1, lo + 1 + BodyLength(n));
    BodySize(c, e);
  }

  lemma BodySize(c: Columns, e: nat)
    requires Aligned(c) && e < |c.surviving| && BodyFits(c, e)
    ensures |SegmentOf(c, e).body| == |SegmentOf(c, e).painted| == BodyLength(c.surviving[e])
  {
  }

  /** On a node the walk accepts, the chunk is at least as long as the survivor count says,
      and when it is just as long it is the walk's segment. */
  lemma ChunkCovers(c: Columns, band: Band, e: int)
    requires Aligned(c) && NodeAccepted(c, band, e)
    ensures |ChunkOf(c, e).body| >= BodyLength(c.surviving[e])
    ensures |ChunkOf(c, e).body| == BodyLength(c.surviving[e]) ==> ChunkOf(c, e) == SegmentOf(c, e)
    ensures c.surviving[e] >= 0 ==> ChunkOf(c, e) == SegmentOf(c, e) && |ChunkOf(c, e).body| == BodyLength(c.surviving[e])
    ensures c.surviving[e] < 0 ==> SegmentOf(c, e).body == []
  {
    hide Clipped, Select, FromOneTo, Either, Readable;
    BodySize(c, e);
    ChunkFramed(c, e);
    if c.surviving[e] >= 0 {
      ChunkIsSegment(c, e);
    } else if |ChunkOf(c, e).body| == 0 {
      assert ChunkOf(c, e).body == SegmentOf(c, e).body && ChunkOf(c, e).painted == SegmentOf(c, e).painted;
    }
  }

  /** Every chunk is as long as its survivor count says. */
  predicate ChunksFit(c: Columns, kept: seq<int>)
    requires Aligned(c) && InRange(c, kept)
  {
    forall i :: 0 <= i < |kept| ==> |ChunkOf(c, kept[i]).body| == BodyLength(At(c.surviving, kept[i]))
  }

  /** No slot of the joined chunks is a carrier. */
  predicate NoneSelected(segs: seq<Segment>, band: Band)
    requires Framed(segs)
  {
    ChunkSizes(segs);
    true !in InBandMask(Concat(BodyLists(segs)), Concat(PaintedLists(segs)), band)
  }

  /** Sums of larger numbers are larger, and equal only for equal numbers. */
  lemma {:induction false} SumCompared(a: seq<nat>, b: seq<nat>)
    requires |a| == |b| && forall i :: 0 <= i < |a| ==> a[i] >= b[i]
    ensures Sum(a) >= Sum(b)
    ensures Sum(a) == Sum(b) ==> a == b
  {
    if a == [] {
    } else {
      var n := |a| - 1;
      SumCompared(a[..n], b[..n]);
      SplitLast(a);
      SplitLast(b);
    }
  }

  lemma FitByTotal(c: Columns, kept: seq<int>, band: Band)
    requires Aligned(c) && Accepted(c, kept, band)
    ensures InRange(c, kept) && |Concat(BodyLists(ChunksOf(c, kept)))| >= Sum(LensOf(c, kept))
    ensures |Concat(BodyLists(ChunksOf(c, kept)))| == Sum(LensOf(c, kept)) <==> ChunksFit(c, kept)
  {
    hide ChunkOf, NodeAccepted, Concat, Sum;
    AcceptedIndices(c, kept, band);
    var segs, lens := ChunksOf(c, kept), LensOf(c, kept);
    JoinedSizes(segs);
    forall i | 0 <= i < |kept|
      ensures Lens(segs)[i] == |ChunkOf(c, kept[i]).body| >= lens[i]
    {
      ChunkCovers(c, band, kept[i]);
    }
    SumCompared(Lens(segs), lens);
    if ChunksFit(c, kept) {
      assert Lens(segs) == lens;
    } else {
      assert exists i :: 0 <= i < |kept| && Lens(segs)[i] != lens[i];
    }
  }

  lemma AcceptedIndices(c: Columns, kept: seq<int>, band: Band)
    requires Aligned(c) && Accepted(c, kept, band)
    ensures InRange(c, kept) && forall i :: 0 <= i < |kept| ==> 0 <= kept[i] < |c.surviving|
  {
    forall i | 0 <= i < |kept|
      ensures 0 <= kept[i] < |c.surviving|
    {
      assert NodeAccepted(c, band, kept[i]);
    }
  }

  lemma {:induction false} NoCarriersTo(s: Segment, band: Band, k: nat)
    requires |s.body| == |s.painted| && k <= |s.body| && ReadableTo(s, band, k)
    requires forall j :: 0 <= j < k ==> !IsCarrier(s, band, j)
    ensures Carriers(s, band, k) == []
  {
    if k == 0 {
    } else {
      NoCarriersTo(s, band, k - 1);
    }
  }

  /** Without a carrier among the chunks' slots the walk finds none either. */
  lemma NoneInNode(c: Columns, kept: seq<int>, band: Band, i: nat)
    requires Aligned(c) && Accepted(c, kept, band) && InRange(c, kept) && i < |kept|
    requires NoneSelected(ChunksOf(c, kept), band)
    ensures NodeAccepted(c, band, kept[i]) && NodeCarriers(c, band, kept[i]) == []
  {
    hide ChunkOf, SegmentOf, Concat, Readable;
    var e := kept[i];
    assert NodeAccepted(c, band, e);
    ChunkCovers(c, band, e);
    AcceptedReadable(c, band, e);
    var s, segs := SegmentOf(c, e), ChunksOf(c, kept);
    ReadableMeans(s, band);
    forall j | 0 <= j < |s.body|
      ensures !IsCarrier(s, band, j)
    {
      if c.surviving[e] >= 0 {
        ChunkSizes(segs);
        SlotOfChunk(segs, i, j);
        var flat, painted := Concat(BodyLists(segs)), Concat(PaintedLists(segs));
        var m := |Concat(BodyLists(segs)[..i])| + j;
        assert InBandMask(flat, painted, band)[m] == (InBand(flat[m], band) && !painted[m]);
      }
    }
    NoCarriersTo(s, band, |s.body|);
  }

  lemma ReadableMeans(s: Segment, band: Band)
    requires Readable(s, band)
    ensures |s.body| == |s.painted| && ReadableTo(s, band, |s.body|)
  {
  }

  lemma SlotOfChunk(segs: seq<Segment>, i: nat, j: nat)
    requires Framed(segs) && i < |segs| && j < |segs[i].body|
    ensures var m := |Concat(BodyLists(segs)[..i])| + j;
      && m < |Concat(BodyLists(segs))| && m < |Concat(PaintedLists(segs))|
      && Concat(BodyLists(segs))[m] == segs[i].body[j] && Concat(PaintedLists(segs))[m] == segs[i].painted[j]
  {
    hide Concat;
    Joined(BodyLists(segs), i, j);
    Joined(PaintedLists(segs), i, j);
    ListPrefixes(segs, i);
    ChunkSizes(segs[..i]);
  }

  lemma {:induction false} NoneAtAll(c: Columns, kept: seq<int>, band: Band)
    requires Aligned(c) && Accepted(c, kept, band)
    requires forall i :: 0 <= i < |kept| ==> NodeCarriers(c, band, kept[i]) == []
    ensures AllCarriers(c, kept, band) == []
  {
    if kept == [] {
    } else {
      NoneAtAll(c, kept[..|kept| - 1], band);
    }
  }

  lemma AgreesWhenFitting(c: Columns, kept: seq<int>, band: Band)
    requires Aligned(c) && Accepted(c, kept, band) && InRange(c, kept) && ChunksFit(c, kept)
    ensures ReferenceFor(ChunksOf(c, kept), LensOf(c, kept), band) == Ok(AllCarriers(c, kept, band))
  {
    hide FlatCarriers, SegmentOf, ChunkOf, Clipped;
    AcceptedIndices(c, kept, band);
    var segs := SegmentsOf(c, kept);
    forall i | 0 <= i < |kept|
      ensures ChunkOf(c, kept[i]) == segs[i] && |segs[i].body| == BodyLength(c.surviving[kept[i]])
    {
      assert NodeAccepted(c, band, kept[i]);
      ChunkCovers(c, band, kept[i]);
    }
    assert ChunksOf(c, kept) == segs && LensOf(c, kept) == Lens(segs);
    CarriersOfKept(c, kept, band);
    ReferenceIsSegmented(segs, band);
  }

  /** What the reference answers when there are more slots than the survivor counts say. */
  lemma TooManySlots(segs: seq<Segment>, lens: seq<nat>, band: Band)
    requires Framed(segs) && |lens| == |segs| && |Concat(BodyLists(segs))| > Sum(lens) >= 0
    ensures var oneOnly := |Concat(BodyLists(segs))| == 1 || Sum(lens) == 1;
      && (oneOnly && NoneSelected(segs, band) ==> ReferenceFor(segs, lens, band) == Ok([]))
      && (!(oneOnly && NoneSelected(segs, band)) ==> ReferenceFor(segs, lens, band).Err?)
  {
    hide Concat, Sum, InBandMask;
    ChunkSizes(segs);
  }

  /** Whenever the walk succeeds, the flat reference gives the same carriers exactly when
      every chunk is as long as its survivor count says, or there is no carrier at all and
      the slots or the lengths amount to one. */
  lemma WalkEqualsReference(c: Columns, kept: seq<int>, band: Band)
    requires Aligned(c) && Accepted(c, kept, band)
    ensures InRange(c, kept)
    ensures var segs, lens := ChunksOf(c, kept), LensOf(c, kept);
      ReferenceFor(segs, lens, band) == Ok(AllCarriers(c, kept, band))
      <==> || ChunksFit(c, kept)
           || ((|Concat(BodyLists(segs))| == 1 || Sum(lens) == 1) && NoneSelected(segs, band))
  {
    hide ChunkOf, Concat, Sum, NoneSelected, ReferenceFor, ChunksFit, NodeCarriers;
    FitByTotal(c, kept, band);
    if ChunksFit(c, kept) {
      AgreesWhenFitting(c, kept, band);
    } else {
      var segs, lens := ChunksOf(c, kept), LensOf(c, kept);
      SumNonNegative(lens);
      TooManySlots(segs, lens, band);
      if NoneSelected(segs, band) {
        forall i | 0 <= i < |kept|
          ensures NodeAccepted(c, band, kept[i]) && NodeCarriers(c, band, kept[i]) == []
        {
          NoneInNode(c, kept, band, i);
        }
        NoneAtAll(c, kept, band);
      }
    }
  }

  /** Survivor counts that are clipped to a node's length are never negative, and then the
      two always agree. */
  lemma ClippedCountsAgree(c: Columns, kept: seq<int>, band: Band)
    requires Aligned(c) && Accepted(c, kept, band)
    requires forall e :: 0 <= e < |c.surviving| ==> c.surviving[e] >= 0
    ensures InRange(c, kept)
    ensures ReferenceFor(ChunksOf(c, kept), LensOf(c, kept), band) == Ok(AllCarriers(c, kept, band))
  {
    hide ChunkOf;
    AcceptedIndices(c, kept, band);
    forall i | 0 <= i < |kept|
      ensures |ChunkOf(c, kept[i]).body| == BodyLength(At(c.surviving, kept[i]))
    {
      assert NodeAccepted(c, band, kept[i]);
      ChunkCovers(c, band, kept[i]);
    }
    AgreesWhenFitting(c, kept, band);
  }

  /** A negative survivor count that cuts nothing: the walk skips the node, the reference
      takes its slots but counts none, so the columns do not combine. */
  lemma NegativeCountDiffers()
    ensures var c, band := Columns([5, 5, 5, 5], [false, false, false, false], [false, false, false, false], [0, 4],
                                   [], [], [0, 0], [-1]), Band(0, 8);
      && Aligned(c) && Accepted(c, [0], band) && AllCarriers(c, [0], band) == []
      && ReferenceFor(ChunksOf(c, [0]), LensOf(c, [0]), band).Err?
  {
    hide Concat, Sum, ReferenceFor;
    var c, band := Columns([5, 5, 5, 5], [false, false, false, false], [false, false, false, false], [0, 4],
                           [], [], [0, 0], [-1]), Band(0, 8);
    var kept := [0];
    NoCarriers(c, band);
    var segs, lens := ChunksOf(c, kept), LensOf(c, kept);
    assert segs == [ChunkOf(c, 0)] && ChunkOf(c, 0).body == [5, 5];
    assert BodyLists(segs) == [] + [[5, 5]];
    ConcatEmpty<int>();
    ConcatSnoc([], [5, 5]);
    SumEmpty();
    SumSnoc([], 0);
    assert lens == [] + [0];
    TooManySlots(segs, lens, band);
  }

  lemma NoCarriers(c: Columns, band: Band)
    requires Aligned(c) && |c.surviving| == 1 && c.surviving[0] == -1
    ensures Accepted(c, [0], band) && AllCarriers(c, [0], band) == []
  {
    assert NodeAccepted(c, band, 0);
    var kept := [0];
    assert kept[..0] == [];
    assert AllCarriers(c, [], band) == [];
    AcceptedReadable(c, band, 0);
    assert NodeCarriers(c, band, 0) == [];
  }
}
