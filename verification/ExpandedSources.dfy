/** Call targets written source by source: every raw token leaves one slot of its own in
    the expanded stream and painted slots for the values it continues in. */
module ExpandedSources {
  import opened TokenSeqs
  import opened Masks
  import opened InlineBytes
  import opened IdentityGather

  /** A raw token, its inline digits, and the ids painted behind its own slot. */
  datatype Source = Source(id: int, payload: seq<int>, extra: seq<int>)

  predicate IsSource(s: Source) {
    && s.id > RESERVED_DIGIT_COUNT
    && (forall i :: 0 <= i < |s.payload| ==> s.payload[i] < RESERVED_DIGIT_COUNT)
    && forall i :: 0 <= i < |s.extra| ==>
         !(IDENTITY_BLOCK_START <= s.extra[i] + RESERVED_DIGIT_COUNT < EAGER_BLOCK_END)
  }

  function RawOf(sources: seq<Source>): seq<int> {
    if sources == [] then []
    else
      var last := sources[|sources| - 1];
      RawOf(sources[..|sources| - 1]) + ([last.id] + last.payload)
  }

  function SlotsOf(sources: seq<Source>): seq<int> {
    if sources == [] then []
    else
      var last := sources[|sources| - 1];
      SlotsOf(sources[..|sources| - 1]) + ([last.id - RESERVED_DIGIT_COUNT] + last.extra)
  }

  function PaintedOf(sources: seq<Source>): (p: seq<bool>)
    ensures |p| == |SlotsOf(sources)|
  {
    if sources == [] then []
    else
      var last := sources[|sources| - 1];
      PaintedOf(sources[..|sources| - 1]) + ([false] + seq(|last.extra|, _ => true))
  }

  /** The call target of an own identity slot and the sources, cut behind any slot. */
  function NodeOf(self: int, sources: seq<Source>, surviving: nat, isCut: bool): Node
    requires surviving <= 1 + |SlotsOf(sources)|
  {
    var expanded := [self] + SlotsOf(sources);
    Node(RawOf(sources), expanded, [false] + PaintedOf(sources), surviving, isCut,
         Count(ExpandedIdentityMask(expanded)[..surviving], true))
  }

  /** A slot is painted and no identity, or stands for the real raw token of its rank. */
  predicate SlotStands(raw: seq<int>, slots: seq<int>, painted: seq<bool>, i: nat)
    requires i < |slots| == |painted|
  {
    var k, at := Count(painted[..i], false), Positions(RealMask(raw));
    if painted[i] then !IsIdentityExpanded(slots[i])
    else k < |at| && (IsIdentityExpanded(slots[i]) <==> IsIdentityRaw(raw[at[k]]))
  }

  predicate AllStand(raw: seq<int>, slots: seq<int>, painted: seq<bool>) {
    && |slots| == |painted|
    && Count(painted, false) == |Positions(RealMask(raw))|
    && forall i :: 0 <= i < |slots| ==> SlotStands(raw, slots, painted, i)
  }

  lemma {:induction false} CountTrue(n: nat)
    ensures Count(seq(n, _ => true), false) == 0
  {
    if n == 0 {
    } else {
      CountTrue(n - 1);
      assert seq(n, _ => true)[..n - 1] == seq(n - 1, _ => true);
    }
  }

  /** One more source adds one real token, at the end of the raw stream so far. */
  lemma RealOfSource(raw: seq<int>, s: Source)
    requires IsSource(s)
    ensures Positions(RealMask(raw + ([s.id] + s.payload))) == Positions(RealMask(raw)) + [|raw|]
  {
    var tail := [s.id] + s.payload;
    var digits := RealMask(s.payload);
    assert RealMask(raw + tail) == RealMask(raw) + RealMask(tail);
    PositionsAppend(RealMask(raw), RealMask(tail));
    assert RealMask(tail) == [true] + digits;
    PositionsAppend([true], digits);
    PositionsNone(digits);
    assert [true][..0] == [];
    assert Positions([true]) == [0];
    assert Positions(RealMask(tail)) == [0] + [];
    assert Shift([0], |raw|) == [|raw|];
  }

  lemma PaintedOfSource(painted: seq<bool>, n: nat)
    ensures Count(painted + ([false] + seq(n, _ => true)), false) == Count(painted, false) + 1
  {
    CountAppend(painted, [false] + seq(n, _ => true), false);
    CountAppend([false], seq(n, _ => true), false);
    CountTrue(n);
    assert [false][..0] == [];
  }

  /** Every slot of the sources stands for its token. */
  lemma {:induction false} SourcesStand(sources: seq<Source>)
    requires forall i :: 0 <= i < |sources| ==> IsSource(sources[i])
    ensures AllStand(RawOf(sources), SlotsOf(sources), PaintedOf(sources))
  {
    if sources == [] {
      PositionsNone(RealMask([]));
      CountEmpty();
    } else {
      hide AllStand;
      var init, last := sources[..|sources| - 1], sources[|sources| - 1];
      SourcesStand(init);
      StandsAppend(RawOf(init), SlotsOf(init), PaintedOf(init), last);
    }
  }

  lemma StandsAppend(raw: seq<int>, slots: seq<int>, painted: seq<bool>, s: Source)
    requires IsSource(s) && AllStand(raw, slots, painted)
    ensures AllStand(raw + ([s.id] + s.payload), slots + ([s.id - RESERVED_DIGIT_COUNT] + s.extra),
                     painted + ([false] + seq(|s.extra|, _ => true)))
  {
    var r, t, p := raw + ([s.id] + s.payload), slots + ([s.id - RESERVED_DIGIT_COUNT] + s.extra),
                   painted + ([false] + seq(|s.extra|, _ => true));
    RealOfSource(raw, s);
    PaintedOfSource(painted, |s.extra|);
    hide Count, Positions;
    forall i | 0 <= i < |t|
      ensures SlotStands(r, t, p, i)
    {
      if i < |slots| {
        assert SlotStands(raw, slots, painted, i);
        assert p[..i] == painted[..i] && t[i] == slots[i];
      } else if i == |slots| {
        assert p[..i] == painted;
        assert r[|raw|] == s.id;
      } else {
        assert t[i] == s.extra[i - |slots| - 1];
      }
    }
  }

  /** Whatever the sources and wherever the cut, the call target is matched. */
  lemma SourcesMatch(self: int, sources: seq<Source>, surviving: nat, isCut: bool)
    requires IDENTITY_BLOCK_START <= self + RESERVED_DIGIT_COUNT < EAGER_BLOCK_END
    requires forall i :: 0 <= i < |sources| ==> IsSource(sources[i])
    requires surviving <= 1 + |SlotsOf(sources)|
    ensures Matched(NodeOf(self, sources, surviving, isCut))
  {
    hide Count, Positions, RawOf, SlotsOf, PaintedOf, RealMask, IsSource;
    SourcesStand(sources);
    var node := NodeOf(self, sources, surviving, isCut);
    forall j | 1 <= j < surviving
      ensures if node.painted[j] then !IsIdentityExpanded(node.expanded[j]) else SlotMatches(node, j)
    {
      assert SlotStands(RawOf(sources), SlotsOf(sources), PaintedOf(sources), j - 1);
      assert node.painted[1..j] == PaintedOf(sources)[..j - 1];
    }
  }

  // ---- every surviving identity source has its payload gathered ----

  /** The sources whose token is an identity. */
  function IdentitySources(sources: seq<Source>): (m: seq<bool>)
    ensures |m| == |sources|
  {
    seq(|sources|, i requires 0 <= i < |sources| => IDENTITY_BLOCK_START <= sources[i].id < EAGER_BLOCK_END)
  }

  lemma SourcesSnoc(a: seq<Source>, x: Source)
    ensures RawOf(a + [x]) == RawOf(a) + ([x.id] + x.payload)
    ensures SlotsOf(a + [x]) == SlotsOf(a) + ([x.id - RESERVED_DIGIT_COUNT] + x.extra)
  {
    assert (a + [x])[..|a|] == a;
  }

  lemma {:induction false} SourcesAppend(a: seq<Source>, b: seq<Source>)
    ensures RawOf(a + b) == RawOf(a) + RawOf(b)
    ensures SlotsOf(a + b) == SlotsOf(a) + SlotsOf(b)
  {
    if b == [] {
      assert a + b == a;
    } else {
      hide RawOf, SlotsOf;
      var init, x := b[..|b| - 1], b[|b| - 1];
      SplitLast(b);
      AppendAssoc(a, init, [x]);
      SourcesAppend(a, init);
      SourcesSnoc(a + init, x);
      SourcesSnoc(init, x);
      AppendAssoc(RawOf(a), RawOf(init), [x.id] + x.payload);
      AppendAssoc(SlotsOf(a), SlotsOf(init), [x.id - RESERVED_DIGIT_COUNT] + x.extra);
    }
  }

  lemma CountNone(mask: seq<bool>)
    requires forall i :: 0 <= i < |mask| ==> !mask[i]
    ensures Count(mask, true) == 0
  {
    assert mask[..|mask|] == mask;
    CountGrows(mask, 0, |mask|, true);
  }

  lemma HeadCounted(b: bool, tail: seq<bool>)
    requires forall i :: 0 <= i < |tail| ==> !tail[i]
    ensures Count([b] + tail, true) == if b then 1 else 0
  {
    CountAppend([b], tail, true);
    CountNone(tail);
    assert [b][..0] == [];
  }

  /** A source adds at most one identity to its raw stream and to its slots: its own. */
  lemma IdentityOfSource(raw: seq<int>, slots: seq<int>, s: Source)
    requires IsSource(s)
    ensures var own := if IsIdentityRaw(s.id) then 1 else 0;
      && Count(IdentityMask(raw + ([s.id] + s.payload)), true) == Count(IdentityMask(raw), true) + own
      && Count(ExpandedIdentityMask(slots + ([s.id - RESERVED_DIGIT_COUNT] + s.extra)), true)
         == Count(ExpandedIdentityMask(slots), true) + own
  {
    var r, t := [s.id] + s.payload, [s.id - RESERVED_DIGIT_COUNT] + s.extra;
    assert IdentityMask(raw + r) == IdentityMask(raw) + IdentityMask(r);
    assert ExpandedIdentityMask(slots + t) == ExpandedIdentityMask(slots) + ExpandedIdentityMask(t);
    assert IdentityMask(r) == [IsIdentityRaw(s.id)] + IdentityMask(s.payload);
    assert ExpandedIdentityMask(t) == [IsIdentityRaw(s.id)] + ExpandedIdentityMask(s.extra);
    hide Count;
    CountAppend(IdentityMask(raw), IdentityMask(r), true);
    CountAppend(ExpandedIdentityMask(slots), ExpandedIdentityMask(t), true);
    HeadCounted(IsIdentityRaw(s.id), IdentityMask(s.payload));
    HeadCounted(IsIdentityRaw(s.id), ExpandedIdentityMask(s.extra));
  }

  lemma {:induction false} IdentitiesCounted(sources: seq<Source>)
    requires forall i :: 0 <= i < |sources| ==> IsSource(sources[i])
    ensures Count(IdentityMask(RawOf(sources)), true) == Count(IdentitySources(sources), true)
            == Count(ExpandedIdentityMask(SlotsOf(sources)), true)
  {
    if sources == [] {
      CountEmpty();
    } else {
      hide Count, IdentityMask, ExpandedIdentityMask, RawOf, SlotsOf, IsSource;
      var init, last := sources[..|sources| - 1], sources[|sources| - 1];
      SplitLast(sources);
      SourcesSnoc(init, last);
      IdentitiesCounted(init);
      IdentityOfSource(RawOf(init), SlotsOf(init), last);
      assert IdentitySources(sources) == IdentitySources(init) + [IsIdentityRaw(last.id)];
      CountSnoc(IdentitySources(init), IsIdentityRaw(last.id), true);
    }
  }

  /** Where a source stands in its call target's raw stream and slots. */
  lemma SourceStands(sources: seq<Source>, q: nat)
    requires q < |sources| && forall i :: 0 <= i < |sources| ==> IsSource(sources[i])
    ensures var p, s, raw, slots := |RawOf(sources[..q])|, |SlotsOf(sources[..q])|, RawOf(sources), SlotsOf(sources);
      && p < |raw| && raw[..p] == RawOf(sources[..q]) && raw[p] == sources[q].id
      && p + 1 + |sources[q].payload| <= |raw| && raw[p + 1..p + 1 + |sources[q].payload|] == sources[q].payload
      && IsPayload(raw, p, |sources[q].payload|)
      && s < |slots| && slots[..s] == SlotsOf(sources[..q]) && slots[s] == sources[q].id - RESERVED_DIGIT_COUNT
  {
    hide RawOf, SlotsOf;
    var a, x, b := sources[..q], sources[q], sources[q + 1..];
    assert sources == (a + [x]) + b;
    SourcesAppend(a + [x], b);
    SourcesSnoc(a, x);
    FirstIsReal(b);
    var raw, p, n := RawOf(sources), |RawOf(a)|, |x.payload|;
    assert raw[p + 1..p + 1 + n] == x.payload;
    forall k | p + 1 <= k < p + 1 + n
      ensures raw[k] < RESERVED_DIGIT_COUNT
    {
      assert raw[k] == x.payload[k - p - 1];
    }
    assert p + 1 + n < |raw| ==> raw[p + 1 + n] == RawOf(b)[0];
  }

  lemma {:induction false} FirstIsReal(sources: seq<Source>)
    requires forall i :: 0 <= i < |sources| ==> IsSource(sources[i])
    ensures RawOf(sources) != [] ==> RawOf(sources)[0] > RESERVED_DIGIT_COUNT
  {
    if sources == [] {
    } else {
      FirstIsReal(sources[..|sources| - 1]);
    }
  }

  /** The slot of a surviving identity source is among those that are gathered. */
  lemma SourceGathered(self: int, sources: seq<Source>, surviving: nat, isCut: bool, q: nat)
    requires IDENTITY_BLOCK_START <= self + RESERVED_DIGIT_COUNT < EAGER_BLOCK_END
    requires forall i :: 0 <= i < |sources| ==> IsSource(sources[i])
    requires q < |sources| && IsIdentityRaw(sources[q].id)
    requires 1 + |SlotsOf(sources[..q])| < surviving <= 1 + |SlotsOf(sources)|
    ensures var node, j := NodeOf(self, sources, surviving, isCut), Count(IdentitySources(sources[..q]), true);
      j < |Surviving(node)| && Surviving(node)[j] == |RawOf(sources[..q])|
  {
    hide Count, Positions, RawOf, SlotsOf, PaintedOf, RealMask, IsSource, IsPayload, Matched;
    var node := NodeOf(self, sources, surviving, isCut);
    var p, s := |RawOf(sources[..q])|, 1 + |SlotsOf(sources[..q])|;
    SourceStands(sources, q);
    IdentitiesCounted(sources[..q]);
    IdentityAt(sources, q);
    var ids := ExpandedIdentityMask(node.expanded);
    assert ids[..s] == [true] + ExpandedIdentityMask(SlotsOf(sources[..q]));
    CountAppend([true], ExpandedIdentityMask(SlotsOf(sources[..q])), true);
    OneCounted();
    CountNext(ids, s, true);
    CountGrows(ids, s + 1, surviving, true);
  }

  lemma IdentityAt(sources: seq<Source>, q: nat)
    requires forall i :: 0 <= i < |sources| ==> IsSource(sources[i])
    requires q < |sources| && IsIdentityRaw(sources[q].id)
    ensures var j, at := Count(IdentitySources(sources[..q]), true), Positions(IdentityMask(RawOf(sources)));
      j < |at| && at[j] == |RawOf(sources[..q])|
  {
    hide Count, Positions, RawOf, SlotsOf;
    var raw, p := RawOf(sources), |RawOf(sources[..q])|;
    SourceStands(sources, q);
    IdentitiesCounted(sources[..q]);
    assert IdentityMask(raw)[..p] == IdentityMask(RawOf(sources[..q]));
    PositionIs(IdentityMask(raw), p);
  }

  lemma PayloadUnique(raw: seq<int>, p: nat, m: nat, n: nat)
    requires p < |raw| && IsPayload(raw, p, m) && IsPayload(raw, p, n)
    ensures m == n
  {
  }

  /** Every identity source whose slot survives has its own payload in the joined buffer,
      where the entry of its rank among the identity sources says. */
  lemma PayloadOfSource(nodes: seq<Node>, e: nat, self: int, sources: seq<Source>, surviving: nat, isCut: bool, q: nat)
    requires AllReadable(nodes) && e < |nodes|
    requires IDENTITY_BLOCK_START <= self + RESERVED_DIGIT_COUNT < EAGER_BLOCK_END
    requires forall i :: 0 <= i < |sources| ==> IsSource(sources[i])
    requires q < |sources| && IDENTITY_BLOCK_START <= sources[q].id < EAGER_BLOCK_END
    requires 1 + |SlotsOf(sources[..q])| < surviving <= 1 + |SlotsOf(sources)|
    requires nodes[e] == NodeOf(self, sources, surviving, isCut)
    ensures var inlineBytes, gathered := [0] + Concat(KeptLists(nodes)), GatheredOf(nodes[e], SliceAt(nodes, e).start);
      var j := |set i | 0 <= i < q && IDENTITY_BLOCK_START <= sources[i].id < EAGER_BLOCK_END|;
      && j < |gathered| && gathered[j].length == |sources[q].payload|
      && 0 <= gathered[j].offset && gathered[j].offset + gathered[j].length <= |inlineBytes|
      && inlineBytes[gathered[j].offset..gathered[j].offset + gathered[j].length] == sources[q].payload
  {
    hide Count, Positions, RawOf, SlotsOf, PaintedOf, RealMask, IsSource, Matched, IsPayload, KeptLists, SliceAt, Surviving, Concat;
    SourcesMatch(self, sources, surviving, isCut);
    SourceGathered(self, sources, surviving, isCut, q);
    SourceStands(sources, q);
    var mask := IdentitySources(sources[..q]);
    CountIsSize(mask, 0, q, true);
    assert mask[0..q] == mask;
    assert (set i | 0 <= i < q && IDENTITY_BLOCK_START <= sources[i].id < EAGER_BLOCK_END) == Marked(mask, 0, q, true);
    var j := Count(mask, true);
    GatherLandsOnPayload(nodes, e, j);
    PayloadUnique(nodes[e].raw, |RawOf(sources[..q])|, |sources[q].payload|, GatheredOf(nodes[e], SliceAt(nodes, e).start)[j].length);
  }
}
