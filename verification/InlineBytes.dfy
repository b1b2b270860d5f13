/** The inline digit bytes of every call target, back to back behind one padding byte.
    A cut call target keeps the digits up to the payload of its last consumed carrier. */
module InlineBytes {
  import opened TokenSeqs
  import opened Results
  import opened Masks

  /** One call target: its raw stream, its expanded stream with the slots that were
      painted by a multi-chunk source, and how many expanded slots survive. */
  datatype Node = Node(raw: seq<int>, expanded: seq<int>, painted: seq<bool>, surviving: nat, isCut: bool, identityCount: int)

  function RealMask(raw: seq<int>): (m: seq<bool>)
    ensures |m| == |raw|
  {
    seq(|raw|, i requires 0 <= i < |raw| => raw[i] > RESERVED_DIGIT_COUNT)
  }

  function NumberMask(raw: seq<int>): (m: seq<bool>)
    ensures |m| == |raw|
  {
    seq(|raw|, i requires 0 <= i < |raw| => raw[i] < RESERVED_DIGIT_COUNT)
  }

  /** The length of the run of set entries that begins at i. */
  function RunFrom(mask: seq<bool>, i: nat): (n: nat)
    requires i <= |mask|
    ensures i + n <= |mask|
    ensures forall k :: i <= k < i + n ==> mask[k]
    ensures i + n < |mask| ==> !mask[i + n]
    decreases |mask| - i
  {
    if i == |mask| || !mask[i] then 0 else 1 + RunFrom(mask, i + 1)
  }

  /** The run length at each run's first entry, zero elsewhere. */
  function RunLengths(mask: seq<bool>): (r: seq<nat>)
    ensures |r| == |mask|
  {
    seq(|mask|, i requires 0 <= i < |mask| => if i > 0 && mask[i - 1] then 0 else RunFrom(mask, i))
  }

  /** The digits before each position, one entry longer than the stream. */
  function DigitCumSum(raw: seq<int>): (c: seq<nat>)
    ensures |c| == |raw| + 1
  {
    seq(|raw| + 1, i requires 0 <= i <= |raw| => Count(NumberMask(raw)[..i], true))
  }

  function VisiblePainted(node: Node): seq<bool> {
    Clipped(node.painted, 1, node.surviving)
  }

  /** Carriers whose slots survive. */
  function Consumed(node: Node): nat {
    Count(VisiblePainted(node), false)
  }

  /** Every consumed slot has a real raw position. */
  predicate CutReadable(node: Node) {
    node.isCut && node.surviving > 1 ==> Consumed(node) <= |Positions(RealMask(node.raw))|
  }

  /** The end of what a cut keeps: behind the payload of the last consumed carrier. */
  function KeepEnd(node: Node): nat
    requires CutReadable(node) && node.isCut && node.surviving > 1 && Consumed(node) > 0
  {
    var last := Positions(RealMask(node.raw))[Consumed(node) - 1];
    last + 1 + if last + 1 < |node.raw| then RunLengths(NumberMask(node.raw))[last + 1] else 0
  }

  function KeepMask(node: Node): (m: seq<bool>)
    requires CutReadable(node)
    ensures |m| == |node.raw|
  {
    var digits := NumberMask(node.raw);
    if !node.isCut then digits
    else if node.surviving <= 1 || Consumed(node) == 0 then seq(|digits|, _ => false)
    else seq(|digits|, i requires 0 <= i < |digits| => digits[i] && i < KeepEnd(node))
  }

  function KeptBytes(node: Node): seq<int>
    requires CutReadable(node)
  {
    Select(node.raw, KeepMask(node))
  }

  // ---- what is kept, over the streams themselves ----

  /** The digits of a stream, in order. */
  function DigitsOf(raw: seq<int>): seq<int> {
    if raw == [] then []
    else DigitsOf(raw[..|raw| - 1]) + if raw[|raw| - 1] < RESERVED_DIGIT_COUNT then [raw[|raw| - 1]] else []
  }

  /** The digits behind a carrier, all of them. */
  ghost predicate IsPayload(raw: seq<int>, p: nat, length: nat)
    requires p < |raw|
  {
    && p + 1 + length <= |raw|
    && (forall k :: p + 1 <= k < p + 1 + length ==> raw[k] < RESERVED_DIGIT_COUNT)
    && (p + 1 + length < |raw| ==> raw[p + 1 + length] >= RESERVED_DIGIT_COUNT)
  }

  /** The real tokens before a position. */
  ghost function RealSlots(raw: seq<int>, end: nat): set<int>
    requires end <= |raw|
  {
    set i | 0 <= i < end && raw[i] > RESERVED_DIGIT_COUNT
  }

  /** The surviving body slots that a raw token of their own stands behind. */
  ghost function UnpaintedSlots(node: Node): set<int> {
    set i | 1 <= i < node.surviving && i < |node.painted| && !node.painted[i]
  }

  /** What a call target keeps: all digits if it is not cut; none if no body slot survives
      that consumes a raw token; otherwise those up to the end of the payload of the last
      real token consumed. */
  ghost predicate IsKept(node: Node, bytes: seq<int>) {
    if !node.isCut then bytes == DigitsOf(node.raw)
    else if node.surviving <= 1 || UnpaintedSlots(node) == {} then bytes == []
    else
      exists p: nat, n: nat ::
        && p < |node.raw| && IsPayload(node.raw, p, n) && node.raw[p] > RESERVED_DIGIT_COUNT
        && |RealSlots(node.raw, p)| + 1 == |UnpaintedSlots(node)|
        && bytes == DigitsOf(node.raw[..p + 1 + n])
  }

  lemma {:induction false} DigitsSelected(raw: seq<int>, mask: seq<bool>, end: nat)
    requires |mask| == |raw| && end <= |raw|
    requires forall i :: 0 <= i < |raw| ==> mask[i] == (raw[i] < RESERVED_DIGIT_COUNT && i < end)
    ensures Select(raw, mask) == DigitsOf(raw[..end])
  {
    if raw == [] {
    } else {
      var n := |raw| - 1;
      DigitsSelected(raw[..n], mask[..n], if end <= n then end else n);
      if end <= n {
        assert raw[..n][..end] == raw[..end];
      } else {
        assert raw[..end] == raw && raw[..n][..n] == raw[..n];
      }
    }
  }

  lemma ConsumedIs(node: Node)
    ensures Consumed(node) == |UnpaintedSlots(node)|
  {
    var end := if node.surviving <= |node.painted| then node.surviving else |node.painted|;
    if 1 <= end {
      CountIsSize(node.painted, 1, end, false);
      assert UnpaintedSlots(node) == Marked(node.painted, 1, end, false);
    } else {
      CountEmpty();
      assert UnpaintedSlots(node) == {};
    }
  }

  lemma RealsCounted(raw: seq<int>, end: nat)
    requires end <= |raw|
    ensures Count(RealMask(raw)[..end], true) == |RealSlots(raw, end)|
  {
    CountIsSize(RealMask(raw), 0, end, true);
    assert RealSlots(raw, end) == Marked(RealMask(raw), 0, end, true);
    assert RealMask(raw)[0..end] == RealMask(raw)[..end];
  }

  /** The digits behind a token are a run. */
  lemma PayloadRun(raw: seq<int>, p: nat)
    requires p < |raw| && raw[p] >= RESERVED_DIGIT_COUNT
    ensures IsPayload(raw, p, if p + 1 < |raw| then RunLengths(NumberMask(raw))[p + 1] else 0)
  {
    var digits := NumberMask(raw);
    if p + 1 < |raw| {
      var n := RunFrom(digits, p + 1);
      assert RunLengths(digits)[p + 1] == n;
      forall k | p + 1 <= k < p + 1 + n
        ensures raw[k] < RESERVED_DIGIT_COUNT
      {
        assert digits[k];
      }
    }
  }

  lemma KeptExactly(node: Node)
    requires CutReadable(node)
    ensures IsKept(node, KeptBytes(node))
  {
    hide Count, Positions, Select, DigitsOf, RunLengths, IsPayload;
    var raw, mask := node.raw, KeepMask(node);
    ConsumedIs(node);
    if !node.isCut {
      DigitsSelected(raw, mask, |raw|);
      assert raw[..|raw|] == raw;
    } else if node.surviving <= 1 || UnpaintedSlots(node) == {} {
      SelectNone(raw, mask);
    } else {
      LastConsumed(node);
      DigitsSelected(raw, mask, KeepEnd(node));
    }
  }

  lemma LastConsumed(node: Node)
    requires CutReadable(node) && node.isCut && node.surviving > 1 && Consumed(node) > 0
    ensures var p := Positions(RealMask(node.raw))[Consumed(node) - 1];
      && p < |node.raw| && node.raw[p] > RESERVED_DIGIT_COUNT && |RealSlots(node.raw, p)| + 1 == Consumed(node)
      && p + 1 <= KeepEnd(node) <= |node.raw| && IsPayload(node.raw, p, KeepEnd(node) - p - 1)
  {
    hide Count, Positions, RunLengths, IsPayload;
    var k := Consumed(node) - 1;
    var p := Positions(RealMask(node.raw))[k];
    assert RealMask(node.raw)[p];
    PositionsAt(RealMask(node.raw), k);
    RealsCounted(node.raw, p);
    PayloadRun(node.raw, p);
  }

  lemma Readable(node: Node)
    ensures CutReadable(node) <==>
      (node.isCut && node.surviving > 1 ==> |UnpaintedSlots(node)| <= |RealSlots(node.raw, |node.raw|)|)
  {
    hide Count, Positions;
    ConsumedIs(node);
    RealsCounted(node.raw, |node.raw|);
    PositionsAt(RealMask(node.raw), 0);
    assert RealMask(node.raw)[..|node.raw|] == RealMask(node.raw);
  }

  method SurvivingBytes(node: Node) returns (r: Result<seq<int>>)
    ensures r.Ok? <==> CutReadable(node)
    ensures r.Ok? ==> r.value == KeptBytes(node)
    ensures r.Ok? <==>
      node.isCut && node.surviving > 1 ==> |UnpaintedSlots(node)| <= |RealSlots(node.raw, |node.raw|)|
    ensures r.Ok? ==> IsKept(node, r.value)
  {
    hide Select, Positions, RunFrom, Count, IsKept, UnpaintedSlots, RealSlots;
    Readable(node);
    if CutReadable(node) {
      KeptExactly(node);
    }
    var digits := NumberMask(node.raw);
    if !node.isCut {
      return Ok(Select(node.raw, digits));
    }
    SelectNone(node.raw, seq(|node.raw|, _ => false));
    if node.surviving <= 1 {
      return Ok([]);
    }
    var consumed := Consumed(node);
    if consumed == 0 {
      return Ok([]);
    }
    var positions := Positions(RealMask(node.raw));
    if consumed - 1 >= |positions| {
      return Err("index out of bounds");
    }
    var last := positions[consumed - 1];
    var runLength := RunLengths(digits);
    var payload := if last + 1 < |runLength| then runLength[last + 1] else 0;
    var keep := new bool[|digits|](i requires 0 <= i < |digits| => digits[i]);
    forall i | last + 1 + payload <= i < keep.Length {
      keep[i] := false;
    }
    assert keep[..] == KeepMask(node);
    return Ok(Select(node.raw, keep[..]));
  }

  predicate AllReadable(nodes: seq<Node>) {
    forall e :: 0 <= e < |nodes| ==> CutReadable(nodes[e])
  }

  function KeptLists(nodes: seq<Node>): seq<seq<int>>
    requires AllReadable(nodes)
  {
    seq(|nodes|, e requires 0 <= e < |nodes| => KeptBytes(nodes[e]))
  }

  /** Where node e's bytes are in the joined buffer. */
  datatype Slice = Slice(start: nat, stop: nat)

  function SliceAt(nodes: seq<Node>, e: nat): Slice
    requires AllReadable(nodes) && e < |nodes|
  {
    var start := 1 + |Concat(KeptLists(nodes)[..e])|;
    Slice(start, start + |KeptBytes(nodes[e])|)
  }

  method Gathered(nodes: seq<Node>) returns (r: Result<seq<seq<int>>>, total: nat)
    ensures r.Ok? <==> AllReadable(nodes)
    ensures r.Ok? ==> r.value == KeptLists(nodes) && total == |Concat(KeptLists(nodes))|
  {
    hide KeptBytes, CutReadable, Concat;
    var lists: seq<seq<int>> := [];
    total := 0;
    ConcatEmpty<int>();
    for e := 0 to |nodes|
      invariant |lists| == e && forall k :: 0 <= k < e ==> CutReadable(nodes[k]) && lists[k] == KeptBytes(nodes[k])
      invariant total == |Concat(lists)|
    {
      var bytes := SurvivingBytes(nodes[e]);
      if bytes.Err? {
        return Err(bytes.error), total;
      }
      ConcatSnoc(lists, bytes.value);
      lists := lists + [bytes.value];
      total := total + |bytes.value|;
    }
    assert AllReadable(nodes) && lists == KeptLists(nodes);
    return Ok(lists), total;
  }

  /** Slices that lie back to back behind one padding byte and hold what each call target
      keeps. */
  ghost predicate IsLaidOut(nodes: seq<Node>, inlineBytes: seq<int>, slices: seq<Slice>) {
    && |slices| == |nodes| && inlineBytes != [] && inlineBytes[0] == 0
    && |inlineBytes| == (if nodes == [] then 1 else slices[|nodes| - 1].stop)
    && forall e :: 0 <= e < |nodes| ==>
         && slices[e].start == (if e == 0 then 1 else slices[e - 1].stop)
         && slices[e].start <= slices[e].stop <= |inlineBytes|
         && IsKept(nodes[e], inlineBytes[slices[e].start..slices[e].stop])
  }

  lemma SliceHolds(nodes: seq<Node>, e: nat)
    requires AllReadable(nodes) && e < |nodes|
    ensures var inlineBytes, s := [0] + Concat(KeptLists(nodes)), SliceAt(nodes, e);
      && s.start <= s.stop <= |inlineBytes| && IsKept(nodes[e], inlineBytes[s.start..s.stop])
      && s.start == (if e == 0 then 1 else SliceAt(nodes, e - 1).stop)
      && (e == |nodes| - 1 ==> s.stop == |inlineBytes|)
  {
    hide KeptBytes, Concat, IsKept;
    var lists := KeptLists(nodes);
    KeptExactly(nodes[e]);
    JoinedNext(lists, e);
    JoinedSlice(lists, e);
    ConcatEmpty<int>();
    assert lists[..0] == [] && lists[..|lists|] == lists;
    var s := SliceAt(nodes, e);
    assert ([0] + Concat(lists))[s.start..s.stop] == Concat(lists)[s.start - 1..s.stop - 1];
    if e > 0 {
      JoinedNext(lists, e - 1);
    }
  }

  lemma LaidOut(nodes: seq<Node>, slices: seq<Slice>)
    requires AllReadable(nodes) && |slices| == |nodes| && forall e :: 0 <= e < |nodes| ==> slices[e] == SliceAt(nodes, e)
    ensures IsLaidOut(nodes, [0] + Concat(KeptLists(nodes)), slices)
  {
    hide KeptBytes, Concat, IsKept, SliceAt;
    ConcatEmpty<int>();
    var all := [0] + Concat(KeptLists(nodes));
    forall e | 0 <= e < |nodes|
      ensures slices[e].start <= slices[e].stop <= |all| && IsKept(nodes[e], all[slices[e].start..slices[e].stop])
      ensures slices[e].start == if e == 0 then 1 else slices[e - 1].stop
    {
      SliceHolds(nodes, e);
    }
    if nodes == [] {
      assert KeptLists(nodes) == [];
    } else {
      SliceHolds(nodes, |nodes| - 1);
    }
  }

  method BuildInlineBytes(nodes: seq<Node>) returns (r: Result<(seq<int>, seq<Slice>)>)
    ensures r.Ok? <==> AllReadable(nodes)
    ensures r.Ok? ==> r.value.0 == [0] + Concat(KeptLists(nodes))
    ensures r.Ok? ==> |r.value.1| == |nodes| && forall e :: 0 <= e < |nodes| ==> r.value.1[e] == SliceAt(nodes, e)
    ensures r.Ok? ==> IsLaidOut(nodes, r.value.0, r.value.1)
  {
    hide KeptBytes, CutReadable, Concat, IsLaidOut;
    var gathered, total := Gathered(nodes);
    if gathered.Err? {
      return Err("index out of bounds");
    }
    var lists := gathered.value;
    var inlineBytes := new int[1 + total](_ => 0);
    var slices: seq<Slice> := [];
    var cursor := 1;
    ConcatEmpty<int>();
    assert lists[..0] == [];
    for e := 0 to |lists|
      invariant cursor == 1 + |Concat(lists[..e])| <= inlineBytes.Length
      invariant inlineBytes[..cursor] == [0] + Concat(lists[..e])
      invariant |slices| == e && forall k :: 0 <= k < e ==> slices[k] == SliceAt(nodes, k)
    {
      var bytes := lists[e];
      JoinedNext(lists, e);
      ghost var before := inlineBytes[..cursor];
      forall i | 0 <= i < |bytes| {
        inlineBytes[cursor + i] := bytes[i];
      }
      assert inlineBytes[..cursor + |bytes|] == before + bytes;
      AppendAssoc([0], Concat(lists[..e]), bytes);
      slices := slices + [Slice(cursor, cursor + |bytes|)];
      cursor := cursor + |bytes|;
    }
    assert lists[..|lists|] == lists && inlineBytes[..cursor] == inlineBytes[..];
    LaidOut(nodes, slices);
    return Ok((inlineBytes[..], slices));
  }
}
