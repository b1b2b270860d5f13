/** The v1 framing of metatokens: literal segments between start and end ids, found by
    masks and cumulative sums, against reading the stream from left to right. */
module LiteralSegments {
  import opened TokenSeqs
  import opened RunLengths
  import opened Results
  import opened Masks

  /** What a well-bracketed, un-nested stream consists of. */
  datatype Item = Outside(id: int) | Segment(first: int, body: seq<int>, last: int)

  predicate ItemOk(x: Item, starts: set<int>, ends: set<int>) {
    match x
    case Outside(id) => id !in starts && id !in ends
    case Segment(first, body, last) =>
      && first in starts && first !in ends && last in ends && last !in starts
      && forall i :: 0 <= i < |body| ==> body[i] !in starts && body[i] !in ends
  }

  predicate ItemsOk(items: seq<Item>, starts: set<int>, ends: set<int>) {
    forall i :: 0 <= i < |items| ==> ItemOk(items[i], starts, ends)
  }

  function IdsOf(x: Item): seq<int> {
    match x
    case Outside(id) => [id]
    case Segment(first, body, last) => [first] + body + [last]
  }

  function Render(items: seq<Item>): seq<int> {
    if items == [] then [] else Render(items[..|items| - 1]) + IdsOf(items[|items| - 1])
  }

  /** What the left-to-right scanner reports: one run per item ... */
  function RunsOf(items: seq<Item>): seq<int> {
    seq(|items|, i requires 0 <= i < |items| => |IdsOf(items[i])|)
  }

  /** ... represented by the id itself or by the segment's end. */
  function RepresentativesOf(items: seq<Item>): seq<int> {
    seq(|items|, i requires 0 <= i < |items| =>
      match items[i] case Outside(id) => id case Segment(_, _, last) => last)
  }

  // ---- the array expressions ----

  function IsIn(ids: seq<int>, s: set<int>): seq<bool> {
    seq(|ids|, i requires 0 <= i < |ids| => ids[i] in s)
  }

  function Bit(b: bool): int { if b then 1 else 0 }

  function Bits(mask: seq<bool>): seq<int> {
    seq(|mask|, i requires 0 <= i < |mask| => Bit(mask[i]))
  }

  /** +1 where a segment opens, -1 where it closes. */
  function Particles(ids: seq<int>, starts: set<int>, ends: set<int>): seq<int> {
    seq(|ids|, i requires 0 <= i < |ids| => Bit(ids[i] in starts) - Bit(ids[i] in ends))
  }

  function SegmentMask(ids: seq<int>, starts: set<int>, ends: set<int>): seq<int> {
    CumSum(Particles(ids, starts, ends))
  }

  function AntiMask(segmentMask: seq<int>): seq<bool> {
    seq(|segmentMask|, i requires 0 <= i < |segmentMask| => segmentMask[i] == 0)
  }

  /** Segment lengths, stored in eight bits. */
  function LongLengths(startIdx: seq<int>, endIdx: seq<int>): (r: seq<int>)
    requires |startIdx| == |endIdx|
    ensures |r| == |startIdx|
  {
    seq(|startIdx|, i requires 0 <= i < |startIdx| => (endIdx[i] - startIdx[i] + 1) % 256)
  }

  /** `result = ones(n); result[at] = values`; an index outside the result is an error. */
  method Scatter(n: int, at: seq<int>, values: seq<int>) returns (r: Result<seq<int>>)
    requires |at| == |values|
    ensures r.Ok? <==> 0 <= n && forall i :: 0 <= i < |at| ==> 0 <= at[i] < n
    ensures r.Ok? ==> r.value == Scattered(n, at, values)
  {
    if n < 0 {
      return Err("negative dimensions are not allowed");
    }
    var result := new int[n](_ => 1);
    assert result[..] == seq(n, _ => 1);
    for k := 0 to |at|
      invariant forall i :: 0 <= i < k ==> 0 <= at[i] < n
      invariant result[..] == Scattered(n, at[..k], values[..k])
    {
      if at[k] < 0 || at[k] >= n {
        return Err("index out of bounds");
      }
      TakeNext(at, k);
      TakeNext(values, k);
      ScatteredSnoc(n, at[..k], values[..k], at[k], values[k]);
      result[at[k]] := values[k];
    }
    assert at[..|at|] == at && values[..|at|] == values;
    return Ok(result[..]);
  }

  function Scattered(n: nat, at: seq<int>, values: seq<int>): (r: seq<int>)
    requires |at| == |values| && forall i :: 0 <= i < |at| ==> 0 <= at[i] < n
    ensures |r| == n
  {
    if at == [] then seq(n, _ => 1)
    else
      var k := |at| - 1;
      Scattered(n, at[..k], values[..k])[at[k] := values[k]]
  }

  lemma ScatteredSnoc(n: nat, at: seq<int>, values: seq<int>, p: int, v: int)
    requires |at| == |values| && (forall i :: 0 <= i < |at| ==> 0 <= at[i] < n) && 0 <= p < n
    ensures Scattered(n, at + [p], values + [v]) == Scattered(n, at, values)[p := v]
  {
    assert (at + [p])[..|at|] == at && (values + [v])[..|at|] == values;
  }

  // ---- how the expressions act on concatenated streams ----

  lemma CumSumAppend(a: seq<int>, b: seq<int>)
    ensures CumSum(a + b) == CumSum(a) + Shift(CumSum(b), Sum(a))
  {
    hide Sum;
    forall i | 0 <= i < |a| + |b|
      ensures CumSum(a + b)[i] == (CumSum(a) + Shift(CumSum(b), Sum(a)))[i]
    {
      if i < |a| {
        assert (a + b)[..i + 1] == a[..i + 1];
      } else {
        assert (a + b)[..i + 1] == a + b[..i + 1 - |a|];
        SumAppend(a, b[..i + 1 - |a|]);
      }
    }
  }

  lemma {:induction false} SumZeros(n: nat)
    ensures Sum(seq(n, _ => 0)) == 0
  {
    if n == 0 {
    } else {
      SumZeros(n - 1);
      assert seq(n, _ => 0)[..n - 1] == seq(n - 1, _ => 0);
    }
  }

  lemma CumSumZeros(n: nat)
    ensures CumSum(seq(n, _ => 0)) == seq(n, _ => 0)
  {
    var zeros := seq(n, _ => 0);
    forall i | 0 <= i < |zeros|
      ensures CumSum(zeros)[i] == zeros[i]
    {
      assert zeros[..i + 1] == seq(i + 1, _ => 0);
      SumZeros(i + 1);
    }
  }

  lemma CumSumOne(x: int)
    ensures CumSum([x]) == [x] && Sum([x]) == x
  {
    assert [x][..0] == [] && [x][..0 + 1] == [x];
    SumSnoc([], x);
    assert [] + [x] == [x];
    assert CumSum([x])[0] == x;
  }

  // ---- one item ----

  /** The mask drops to 0 already at the segment's end id. */
  function MaskOf(x: Item): seq<int> {
    match x
    case Outside(_) => [0]
    case Segment(_, body, _) => seq(|body| + 1, _ => 1) + [0]
  }

  function RepOf(x: Item): int {
    match x case Outside(id) => id case Segment(_, _, last) => last
  }

  lemma ItemParticles(x: Item, starts: set<int>, ends: set<int>)
    requires ItemOk(x, starts, ends)
    ensures CumSum(Particles(IdsOf(x), starts, ends)) == MaskOf(x)
    ensures Sum(Particles(IdsOf(x), starts, ends)) == 0
  {
    hide CumSum, Sum;
    match x
    case Outside(id) =>
      assert Particles([id], starts, ends) == [0];
      CumSumOne(0);
    case Segment(first, body, last) =>
      var zeros := seq(|body|, _ => 0);
      assert Particles(IdsOf(x), starts, ends) == [1] + zeros + [-1];
      CumSumOne(1);
      CumSumOne(-1);
      CumSumZeros(|body|);
      SumZeros(|body|);
      CumSumAppend([1], zeros);
      SumAppend([1], zeros);
      CumSumAppend([1] + zeros, [-1]);
      SumAppend([1] + zeros, [-1]);
      assert Shift(zeros, 1) == seq(|body|, _ => 1);
      assert [1] + seq(|body|, _ => 1) == seq(|body| + 1, _ => 1);
      assert Shift([-1], 1) == [0];
  }

  lemma ItemPositions(x: Item, starts: set<int>, ends: set<int>)
    requires ItemOk(x, starts, ends)
    ensures Positions(IsIn(IdsOf(x), starts)) == if x.Segment? then [0] else []
    ensures Positions(IsIn(IdsOf(x), ends)) == if x.Segment? then [|IdsOf(x)| - 1] else []
  {
    match x
    case Outside(id) =>
      PositionsNone(IsIn([id], starts));
      PositionsNone(IsIn([id], ends));
    case Segment(first, body, last) =>
      assert IsIn(IdsOf(x), starts) == [true] + (IsIn(body, starts) + [false]);
      assert IsIn(IdsOf(x), ends) == ([false] + IsIn(body, ends)) + [true];
      PositionsNone(IsIn(body, starts) + [false]);
      PositionsNone([false] + IsIn(body, ends));
      PositionsAppend([true], IsIn(body, starts) + [false]);
      PositionsAppend([false] + IsIn(body, ends), [true]);
      PositionsTrue();
      assert Shift([], 1) == [] && Shift([0], |body| + 1) == [|body| + 1];
  }

  lemma PositionsTrue()
    ensures Positions([true]) == [0]
  {
    assert [true][..0] == [];
  }

  lemma ItemSelected(x: Item)
    ensures var anti := AntiMask(MaskOf(x));
      && |anti| == |IdsOf(x)|
      && Select(IdsOf(x), anti) == [RepOf(x)]
      && Sum(Bits(anti)) == 1
      && (x.Segment? ==> CumSum(Bits(anti))[0] == 0)
  {
    hide Sum, CumSum;
    match x
    case Outside(id) =>
      assert AntiMask([0]) == [true] && Bits([true]) == [1];
      CumSumOne(1);
      assert [id][..0] == [] && [true][..0] == [];
    case Segment(first, body, last) =>
      var no := seq(|body| + 1, _ => false);
      assert AntiMask(MaskOf(x)) == no + [true];
      SelectNone([first] + body, no);
      SelectAppend([first] + body, no, [last], [true]);
      assert [last][..0] == [] && [true][..0] == [];
      var zeros := seq(|body| + 1, _ => 0);
      assert Bits(no + [true]) == zeros + [1];
      SumZeros(|body| + 1);
      SumAppend(zeros, [1]);
      CumSumOne(1);
      CumSumZeros(|body| + 1);
      CumSumAppend(zeros, [1]);
  }

  // ---- a whole stream ----

  function StartsExpected(items: seq<Item>): seq<int> {
    if items == [] then []
    else
      var init := items[..|items| - 1];
      if items[|items| - 1].Segment? then StartsExpected(init) + [|Render(init)|] else StartsExpected(init)
  }

  function EndsExpected(items: seq<Item>): seq<int> {
    if items == [] then []
    else
      var init := items[..|items| - 1];
      if items[|items| - 1].Segment? then EndsExpected(init) + [|Render(items)| - 1] else EndsExpected(init)
  }

  /** Which items are segments. */
  function Segments(items: seq<Item>): (at: seq<int>)
    ensures forall i :: 0 <= i < |at| ==> 0 <= at[i] < |items|
  {
    if items == [] then []
    else
      var init := items[..|items| - 1];
      if items[|items| - 1].Segment? then Segments(init) + [|init|] else Segments(init)
  }

  /** Segment lengths as eight bits hold them. */
  function StoredLengths(items: seq<Item>): seq<int> {
    if items == [] then []
    else
      var init, x := items[..|items| - 1], items[|items| - 1];
      if x.Segment? then StoredLengths(init) + [|IdsOf(x)| % 256] else StoredLengths(init)
  }

  predicate AllShort(items: seq<Item>) {
    forall i :: 0 <= i < |items| && items[i].Segment? ==> |IdsOf(items[i])| <= 255
  }

  /** All the above for one more item. */
  lemma Unfold(init: seq<Item>, x: Item)
    ensures var items, n := init + [x], |Render(init)|;
      && Render(items) == Render(init) + IdsOf(x)
      && StartsExpected(items) == (if x.Segment? then StartsExpected(init) + [n] else StartsExpected(init))
      && EndsExpected(items)
         == (if x.Segment? then EndsExpected(init) + [n + |IdsOf(x)| - 1] else EndsExpected(init))
      && Segments(items) == (if x.Segment? then Segments(init) + [|init|] else Segments(init))
      && StoredLengths(items)
         == (if x.Segment? then StoredLengths(init) + [|IdsOf(x)| % 256] else StoredLengths(init))
      && MaskExpected(items) == MaskExpected(init) + MaskOf(x)
  {
    hide IdsOf, MaskOf;
    var items := init + [x];
    assert items[..|items| - 1] == init && items[|items| - 1] == x;
  }

  lemma UnfoldRuns(init: seq<Item>, x: Item)
    ensures var items := init + [x];
      && RunsOf(items) == RunsOf(init) + [|IdsOf(x)|]
      && RepresentativesOf(items) == RepresentativesOf(init) + [RepOf(x)]
      && (AllShort(items) <==> AllShort(init) && (x.Segment? ==> |IdsOf(x)| <= 255))
  {
    hide IdsOf;
    var items := init + [x];
    if AllShort(items) {
      forall i | 0 <= i < |init| && init[i].Segment?
        ensures |IdsOf(init[i])| <= 255
      {
        assert items[i] == init[i];
      }
      assert items[|init|] == x;
    }
  }

  lemma {:induction false} MarkerSizes(items: seq<Item>)
    ensures |StartsExpected(items)| == |EndsExpected(items)| == |Segments(items)| == |StoredLengths(items)|
    ensures forall i :: 0 <= i < |StartsExpected(items)| ==> 0 <= StartsExpected(items)[i] < |Render(items)|
    ensures |Segments(items)| == 0 <==> forall i :: 0 <= i < |items| ==> items[i].Outside?
  {
    if items == [] {
    } else {
      MarkerSizes(items[..|items| - 1]);
    }
  }

  lemma NoPositions(starts: set<int>, ends: set<int>)
    ensures Positions(IsIn(Render([]), starts)) == StartsExpected([]) && Positions(IsIn(Render([]), ends)) == EndsExpected([])
  {
  }

  lemma InitOk(items: seq<Item>, starts: set<int>, ends: set<int>)
    requires ItemsOk(items, starts, ends) && items != []
    ensures ItemsOk(items[..|items| - 1], starts, ends) && ItemOk(items[|items| - 1], starts, ends)
  {
  }

  lemma {:induction false} PositionsOf(items: seq<Item>, starts: set<int>, ends: set<int>)
    requires ItemsOk(items, starts, ends)
    ensures Positions(IsIn(Render(items), starts)) == StartsExpected(items)
    ensures Positions(IsIn(Render(items), ends)) == EndsExpected(items)
  {
    if items == [] {
      NoPositions(starts, ends);
    } else {
      hide *;
      var init, x := items[..|items| - 1], items[|items| - 1];
      InitOk(items, starts, ends);
      PositionsOf(init, starts, ends);
      SplitLast(items);
      PositionsNext(init, x, starts, ends);
    }
  }

  lemma PositionsNext(init: seq<Item>, x: Item, starts: set<int>, ends: set<int>)
    requires ItemOk(x, starts, ends)
    requires Positions(IsIn(Render(init), starts)) == StartsExpected(init)
    requires Positions(IsIn(Render(init), ends)) == EndsExpected(init)
    ensures Positions(IsIn(Render(init + [x]), starts)) == StartsExpected(init + [x])
    ensures Positions(IsIn(Render(init + [x]), ends)) == EndsExpected(init + [x])
  {
    hide Render, StartsExpected, EndsExpected, Positions, IsIn, IdsOf, ItemOk;
    var before, after := Render(init), Render(init + [x]);
    UnfoldMarkers(init, x);
    assert after == before + IdsOf(x);
    PositionStep(before, x, starts, ends);
    if x.Segment? {
      assert Positions(IsIn(after, starts)) == StartsExpected(init) + [|before|];
      assert Positions(IsIn(after, ends)) == EndsExpected(init) + [|before| + |IdsOf(x)| - 1];
    } else {
      assert Positions(IsIn(after, starts)) == StartsExpected(init);
      assert Positions(IsIn(after, ends)) == EndsExpected(init);
    }
  }

  lemma UnfoldMarkers(init: seq<Item>, x: Item)
    ensures var items, n := init + [x], |Render(init)|;
      && Render(items) == Render(init) + IdsOf(x)
      && StartsExpected(items) == (if x.Segment? then StartsExpected(init) + [n] else StartsExpected(init))
      && EndsExpected(items)
         == (if x.Segment? then EndsExpected(init) + [n + |IdsOf(x)| - 1] else EndsExpected(init))
  {
    Unfold(init, x);
  }

  lemma PositionStep(a: seq<int>, x: Item, starts: set<int>, ends: set<int>)
    requires ItemOk(x, starts, ends)
    ensures Positions(IsIn(a + IdsOf(x), starts))
            == if x.Segment? then Positions(IsIn(a, starts)) + [|a|] else Positions(IsIn(a, starts))
    ensures Positions(IsIn(a + IdsOf(x), ends))
            == if x.Segment? then Positions(IsIn(a, ends)) + [|a| + |IdsOf(x)| - 1] else Positions(IsIn(a, ends))
  {
    hide Positions, IsIn, IdsOf, ItemOk;
    ItemPositions(x, starts, ends);
    IsInAppend(a, IdsOf(x), starts);
    IsInAppend(a, IdsOf(x), ends);
    PositionsAppend(IsIn(a, starts), IsIn(IdsOf(x), starts));
    PositionsAppend(IsIn(a, ends), IsIn(IdsOf(x), ends));
    if x.Segment? {
      ShiftOne(0, |a|);
      ShiftOne(|IdsOf(x)| - 1, |a|);
    } else {
      ShiftNone(|a|);
      assert Positions(IsIn(a, starts)) + [] == Positions(IsIn(a, starts));
      assert Positions(IsIn(a, ends)) + [] == Positions(IsIn(a, ends));
    }
  }

  lemma IsInAppend(a: seq<int>, b: seq<int>, s: set<int>)
    ensures IsIn(a + b, s) == IsIn(a, s) + IsIn(b, s)
    ensures |IsIn(a, s)| == |a|
  {
  }

  lemma ShiftOne(x: int, delta: int)
    ensures Shift([x], delta) == [x + delta]
  {
  }

  lemma ShiftNone(delta: int)
    ensures Shift([], delta) == []
  {
  }

  function MaskExpected(items: seq<Item>): seq<int> {
    if items == [] then [] else MaskExpected(items[..|items| - 1]) + MaskOf(items[|items| - 1])
  }

  lemma {:induction false} SegmentMaskOf(items: seq<Item>, starts: set<int>, ends: set<int>)
    requires ItemsOk(items, starts, ends)
    ensures SegmentMask(Render(items), starts, ends) == MaskExpected(items)
    ensures Sum(Particles(Render(items), starts, ends)) == 0
    ensures forall i :: 0 <= i < |MaskExpected(items)| ==> 0 <= MaskExpected(items)[i] <= 1
  {
    hide CumSum, Sum;
    if items == [] {
      assert Particles([], starts, ends) == [] && CumSum([]) == [] by { CumSumZeros(0); }
      assert Sum([]) == 0 by { SumZeros(0); assert seq(0, _ => 0) == []; }
    } else {
      hide Render, MaskExpected, StartsExpected, EndsExpected, Segments, StoredLengths, SegmentMask, Particles, IdsOf, ItemOk, AllShort;
      var init, x := items[..|items| - 1], items[|items| - 1];
      SegmentMaskOf(init, starts, ends);
      SplitLast(items);
      Unfold(init, x);
      UnfoldRuns(init, x);
      SegmentMaskStep(Render(init), x, starts, ends);
    }
  }

  lemma SegmentMaskStep(ids: seq<int>, x: Item, starts: set<int>, ends: set<int>)
    requires ItemOk(x, starts, ends) && Sum(Particles(ids, starts, ends)) == 0
    ensures SegmentMask(ids + IdsOf(x), starts, ends) == SegmentMask(ids, starts, ends) + MaskOf(x)
    ensures Sum(Particles(ids + IdsOf(x), starts, ends)) == 0
  {
    hide CumSum, Sum;
    ItemParticles(x, starts, ends);
    var a, b := Particles(ids, starts, ends), Particles(IdsOf(x), starts, ends);
    assert Particles(ids + IdsOf(x), starts, ends) == a + b;
    CumSumAppend(a, b);
    SumAppend(a, b);
    assert Shift(MaskOf(x), 0) == MaskOf(x);
  }

  lemma {:induction false} SelectedOf(items: seq<Item>)
    ensures var anti := AntiMask(MaskExpected(items));
      && |anti| == |Render(items)|
      && Select(Render(items), anti) == RepresentativesOf(items)
      && Sum(Bits(anti)) == |items|
  {
    hide Sum;
    if items == [] {
      assert Bits([]) == [] && Sum([]) == 0 by { SumZeros(0); assert seq(0, _ => 0) == []; }
    } else {
      hide CumSum, Sum, Render, StartsExpected, EndsExpected, Segments, StoredLengths, MaskExpected, RunsOf, AllShort;
      hide RepresentativesOf, Positions, Select, IsIn;
      var init, x := items[..|items| - 1], items[|items| - 1];
      SelectedOf(init);
      SplitLast(items);
      Unfold(init, x);
      UnfoldRuns(init, x);
      ItemSelected(x);
      AntiStep(MaskExpected(init), x);
      SelectAppend(Render(init), AntiMask(MaskExpected(init)), IdsOf(x), AntiMask(MaskOf(x)));
    }
  }

  lemma AntiStep(mask: seq<int>, x: Item)
    ensures AntiMask(mask + MaskOf(x)) == AntiMask(mask) + AntiMask(MaskOf(x))
    ensures var a, b := Bits(AntiMask(mask)), Bits(AntiMask(MaskOf(x)));
      && |AntiMask(MaskOf(x))| == |IdsOf(x)|
      && Bits(AntiMask(mask + MaskOf(x))) == a + b
      && Sum(a + b) == Sum(a) + 1
      && CumSum(a + b) == CumSum(a) + Shift(CumSum(b), Sum(a))
      && (x.Segment? ==> CumSum(b)[0] == 0)
  {
    hide Sum, CumSum, MaskOf, IdsOf, Select, RepOf;
    ItemSelected(x);
    assert AntiMask(mask + MaskOf(x)) == AntiMask(mask) + AntiMask(MaskOf(x));
    var a, b := Bits(AntiMask(mask)), Bits(AntiMask(MaskOf(x)));
    assert Bits(AntiMask(mask + MaskOf(x))) == a + b;
    SumAppend(a, b);
    CumSumAppend(a, b);
  }

  function AntiCounts(items: seq<Item>): seq<int> {
    CumSum(Bits(AntiMask(MaskExpected(items))))
  }

  lemma AntiCountsSize(items: seq<Item>)
    ensures |AntiCounts(items)| == |Render(items)|
  {
    SelectedOf(items);
  }

  /** At a segment's start the count of kept ids is the number of items before it. */
  lemma {:induction false} NewIndices(items: seq<Item>)
    ensures |AntiCounts(items)| == |Render(items)|
    ensures forall i :: 0 <= i < |StartsExpected(items)| ==> 0 <= StartsExpected(items)[i] < |AntiCounts(items)|
    ensures Gather(AntiCounts(items), StartsExpected(items)) == Segments(items)
  {
    MarkerSizes(items);
    AntiCountsSize(items);
    if items == [] {
    } else {
      hide Sum, CumSum, Render, StartsExpected, EndsExpected, Segments, MaskExpected, AntiCounts, IdsOf, StoredLengths;
      hide Gather, Bits, AntiMask, MaskOf, Shift;
      var init, x := items[..|items| - 1], items[|items| - 1];
      NewIndices(init);
      MarkerSizes(init);
      SplitLast(items);
      Unfold(init, x);
      assert AntiCounts(items) == AntiCounts(init) + Shift(CumSum(Bits(AntiMask(MaskOf(x)))), |init|) by {
        AntiCountsStep(init, x);
      }
      AntiStep(MaskExpected(init), x);
      GatherSnoc(AntiCounts(init), Shift(CumSum(Bits(AntiMask(MaskOf(x)))), |init|), StartsExpected(init));
      if x.Segment? {
        FirstShifted(CumSum(Bits(AntiMask(MaskOf(x)))), |init|);
      }
    }
  }

  lemma FirstShifted(s: seq<int>, delta: int)
    requires s != [] && s[0] == 0
    ensures |Shift(s, delta)| == |s| && Shift(s, delta)[0] == delta
  {
  }

  lemma GatherSnoc(a: seq<int>, b: seq<int>, at: seq<int>)
    requires forall i :: 0 <= i < |at| ==> 0 <= at[i] < |a|
    ensures Gather(a + b, at) == Gather(a, at)
    ensures b != [] ==> Gather(a + b, at + [|a|]) == Gather(a, at) + [b[0]]
  {
  }

  lemma AntiCountsStep(init: seq<Item>, x: Item)
    ensures AntiCounts(init + [x]) == AntiCounts(init) + Shift(CumSum(Bits(AntiMask(MaskOf(x)))), |init|)
  {
    hide Sum, CumSum, MaskExpected, Render;
    SelectedOf(init);
    Unfold(init, x);
    AntiStep(MaskExpected(init), x);
  }

  lemma LongLengthsSnoc(startIdx: seq<int>, endIdx: seq<int>, first: int, len: int)
    requires |startIdx| == |endIdx|
    ensures LongLengths(startIdx + [first], endIdx + [first + len - 1]) == LongLengths(startIdx, endIdx) + [len % 256]
  {
    assert first + len - 1 - first + 1 == len;
  }

  lemma OutsideIsOne(x: Item)
    ensures x.Outside? ==> |IdsOf(x)| == 1
  {
  }

  lemma EightBits(n: nat)
    ensures 0 <= n % 256 <= n
    ensures n % 256 == n <==> n <= 255
  {
  }

  /** Ones up to the end, with the first of them replaced. */
  lemma OnesUpdate(a: seq<int>, n: nat, v: int)
    requires |a| < n
    ensures (a + seq(n - |a|, _ => 1))[|a| := v] == (a + [v]) + seq(n - |a| - 1, _ => 1)
  {
  }

  lemma OnesKept(a: seq<int>, n: nat)
    requires |a| < n
    ensures a + seq(n - |a|, _ => 1) == (a + [1]) + seq(n - |a| - 1, _ => 1)
  {
  }

  lemma SameSizes(items: seq<Item>)
    ensures |StartsExpected(items)| == |EndsExpected(items)|
  {
    MarkerSizes(items);
  }

  lemma LengthsStep(init: seq<Item>, x: Item)
    requires |StartsExpected(init)| == |EndsExpected(init)|
    requires |StartsExpected(init + [x])| == |EndsExpected(init + [x])|
    requires LongLengths(StartsExpected(init), EndsExpected(init)) == StoredLengths(init)
    ensures LongLengths(StartsExpected(init + [x]), EndsExpected(init + [x])) == StoredLengths(init + [x])
  {
    hide Render, StartsExpected, EndsExpected, StoredLengths, LongLengths, Segments, IdsOf, MaskExpected, MaskOf;
    Unfold(init, x);
    var n, len := |Render(init)|, |IdsOf(x)|;
    if x.Segment? {
      LongLengthsSnoc(StartsExpected(init), EndsExpected(init), n, len);
      assert StartsExpected(init + [x]) == StartsExpected(init) + [n];
      assert EndsExpected(init + [x]) == EndsExpected(init) + [n + len - 1];
    }
  }

  lemma {:induction false} LengthsOf(items: seq<Item>)
    ensures |StartsExpected(items)| == |EndsExpected(items)|
    ensures LongLengths(StartsExpected(items), EndsExpected(items)) == StoredLengths(items)
  {
    SameSizes(items);
    if items == [] {
    } else {
      hide StartsExpected, EndsExpected, StoredLengths, LongLengths;
      var init := items[..|items| - 1];
      LengthsOf(init);
      SplitLast(items);
      LengthsStep(init, items[|items| - 1]);
    }
  }

  /** The result has one slot per item exactly when no length was truncated; truncation
      leaves too many slots. */
  lemma {:induction false} SlotCount(items: seq<Item>)
    ensures var n := |Render(items)| - Sum(StoredLengths(items)) + |StoredLengths(items)|;
      && n >= |items|
      && (n == |items| <==> AllShort(items))
  {
    if items == [] {
    } else {
      hide Render, StoredLengths, AllShort, Sum, IdsOf, Segments, MaskExpected, StartsExpected, EndsExpected;
      var init, x := items[..|items| - 1], items[|items| - 1];
      SlotCount(init);
      SplitLast(items);
      Unfold(init, x);
      UnfoldRuns(init, x);
      EightBits(|IdsOf(x)|);
      OutsideIsOne(x);
      if x.Segment? {
        SumSnoc(StoredLengths(init), |IdsOf(x)| % 256);
      }
    }
  }

  lemma RunsSize(items: seq<Item>)
    ensures |RunsOf(items)| == |items|
  {
  }

  lemma {:induction false} ScatteredRuns(items: seq<Item>, n: nat)
    requires AllShort(items) && n >= |items|
    ensures |Segments(items)| == |StoredLengths(items)|
    ensures Scattered(n, Segments(items), StoredLengths(items)) == RunsOf(items) + seq(n - |items|, _ => 1)
  {
    MarkerSizes(items);
    if items == [] {
    } else {
      hide Render, Segments, StoredLengths, AllShort, RunsOf, Scattered, IdsOf, MaskExpected, StartsExpected, EndsExpected;
      var init, x := items[..|items| - 1], items[|items| - 1];
      SplitLast(items);
      Unfold(init, x);
      UnfoldRuns(init, x);
      ScatteredRuns(init, n);
      RunsSize(init);
      EightBits(|IdsOf(x)|);
      OutsideIsOne(x);
      OnesUpdate(RunsOf(init), n, |IdsOf(x)|);
      OnesKept(RunsOf(init), n);
      if x.Segment? {
        ScatteredSnoc(n, Segments(init), StoredLengths(init), |init|, |IdsOf(x)| % 256);
      }
    }
  }

  /** The literals do not pair up, or some are nested. */
  predicate Malformed(ids: seq<int>, starts: set<int>, ends: set<int>) {
    var opening, closing := Positions(IsIn(ids, starts)), Positions(IsIn(ids, ends));
    || |opening| != |closing|
    || (opening != [] && exists i :: 0 <= i < |ids| && !(-1 <= SegmentMask(ids, starts, ends)[i] <= 1))
  }

  /** What the array expressions answer: run lengths and representative ids, or a refusal. */
  function ArrayForm(ids: seq<int>, starts: set<int>, ends: set<int>): Result<(seq<int>, seq<int>)> {
    var startIdx, endIdx := Positions(IsIn(ids, starts)), Positions(IsIn(ids, ends));
    if |startIdx| != |endIdx| then Err("invalid data: some literals do not open or close")
    else if startIdx == [] then Ok((seq(|ids|, _ => 1), ids))
    else if Malformed(ids, starts, ends) then Err("invalid data: nested literal segments")
    else
      MaskSizes(ids, starts, ends);
      var longLengths := LongLengths(startIdx, endIdx);
      var anti := AntiMask(SegmentMask(ids, starts, ends));
      var newIdx := Gather(CumSum(Bits(anti)), startIdx);
      var n := |ids| - Sum(longLengths) + |longLengths|;
      if n < 0 || exists i :: 0 <= i < |newIdx| && !(0 <= newIdx[i] < n) then Err("index out of bounds")
      else Ok((Scattered(n, newIdx, longLengths), Select(ids, anti)))
  }

  /** Run lengths and representative ids of the metatokens of a v1 stream. */
  method RunLengthAndLastType(ids: seq<int>, starts: set<int>, ends: set<int>) returns (r: Result<(seq<int>, seq<int>)>)
    ensures r == ArrayForm(ids, starts, ends)
    ensures Malformed(ids, starts, ends) ==> r.Err?
    ensures Scan(ids, starts, ends).Ok? ==>
      && r.Ok? && r.value.1 == RepresentativesOf(Scan(ids, starts, ends).value)
      && (r.value.0 == RunsOf(Scan(ids, starts, ends).value) <==> AllShort(Scan(ids, starts, ends).value))
  {
    hide Render, IsIn, Positions, Select, Particles, AntiMask, LongLengths, CumSum, Bits, Scattered, Sum, Gather, Scan;
    ScannedArrays(ids, starts, ends);
    var startIdx, endIdx := Positions(IsIn(ids, starts)), Positions(IsIn(ids, ends));
    if |startIdx| != |endIdx| {
      return Err("invalid data: some literals do not open or close");
    }
    if |startIdx| == 0 {
      return Ok((seq(|ids|, _ => 1), ids));
    }
    var segmentMask := SegmentMask(ids, starts, ends);
    MaskSizes(ids, starts, ends);
    if exists i :: 0 <= i < |segmentMask| && !(-1 <= segmentMask[i] <= 1) {
      return Err("invalid data: nested literal segments");
    }
    var longLengths := LongLengths(startIdx, endIdx);
    var anti := AntiMask(segmentMask);
    var newIdx := Gather(CumSum(Bits(anti)), startIdx);
    var result := Scatter(|ids| - Sum(longLengths) + |longLengths|, newIdx, longLengths);
    if result.Err? {
      return Err("index out of bounds");
    }
    return Ok((result.value, Select(ids, anti)));
  }

  /** On the stream of well-formed items the representatives are the items', and so are the
      run lengths exactly as long as every segment's length fits eight bits. */
  lemma RenderedArrays(items: seq<Item>, starts: set<int>, ends: set<int>)
    requires ItemsOk(items, starts, ends)
    ensures var r := ArrayForm(Render(items), starts, ends);
      && r.Ok? && r.value.1 == RepresentativesOf(items)
      && (r.value.0 == RunsOf(items) <==> AllShort(items))
  {
    hide Render, IsIn, Positions, Select, Particles, AntiMask, LongLengths, CumSum, Bits, Scattered, Sum;
    hide ItemsOk, Gather, StartsExpected, EndsExpected, Segments, StoredLengths, MaskExpected, AllShort;
    PositionsOf(items, starts, ends);
    MarkerSizes(items);
    SegmentMaskOf(items, starts, ends);
    SelectedOf(items);
    NewIndices(items);
    LengthsOf(items);
    SlotCount(items);
    MaskSizes(Render(items), starts, ends);
    if |StartsExpected(items)| == 0 {
      NoSegments(items);
    } else if AllShort(items) {
      ScatteredRuns(items, |items|);
      assert RunsOf(items) + seq(0, _ => 1) == RunsOf(items);
    }
  }

  // ---- the scanner ----

  /** Where a left-to-right reader stands: the items read, and the segment it is inside
      of; or stuck. */
  datatype Reader = Reader(items: seq<Item>, pending: seq<int>) | Stuck

  function ReadId(r: Reader, id: int, starts: set<int>, ends: set<int>): Reader {
    if r.Stuck? || (id in starts && id in ends) then Stuck
    else if id in starts then if r.pending == [] then Reader(r.items, [id]) else Stuck
    else if id in ends then
      if r.pending == [] then Stuck else Reader(r.items + [Segment(r.pending[0], r.pending[1..], id)], [])
    else if r.pending == [] then Reader(r.items + [Outside(id)], [])
    else Reader(r.items, r.pending + [id])
  }

  function ReadFrom(r: Reader, ids: seq<int>, starts: set<int>, ends: set<int>): Reader {
    if ids == [] then r
    else ReadId(ReadFrom(r, ids[..|ids| - 1], starts, ends), ids[|ids| - 1], starts, ends)
  }

  const BEGINNING := Reader([], [])

  /** The items of a stream, read from left to right; refused when a segment is nested,
      ends before it starts or does not end, or an id both starts and ends one. */
  function Scan(ids: seq<int>, starts: set<int>, ends: set<int>): Result<seq<Item>> {
    var r := ReadFrom(BEGINNING, ids, starts, ends);
    if r.Stuck? || r.pending != [] then Err("not a sequence of ids and literal segments") else Ok(r.items)
  }

  lemma {:induction false} ReadAppend(r: Reader, a: seq<int>, b: seq<int>, starts: set<int>, ends: set<int>)
    ensures ReadFrom(r, a + b, starts, ends) == ReadFrom(ReadFrom(r, a, starts, ends), b, starts, ends)
  {
    if b == [] {
      assert a + b == a;
    } else {
      var init := b[..|b| - 1];
      ReadAppend(r, a, init, starts, ends);
      assert (a + b)[..|a + b| - 1] == a + init;
    }
  }

  lemma {:induction false} ReadBody(r: Reader, body: seq<int>, starts: set<int>, ends: set<int>)
    requires r.Reader? && r.pending != []
    requires forall i :: 0 <= i < |body| ==> body[i] !in starts && body[i] !in ends
    ensures ReadFrom(r, body, starts, ends) == Reader(r.items, r.pending + body)
  {
    if body == [] {
      assert r.pending + body == r.pending;
    } else {
      var init := body[..|body| - 1];
      ReadBody(r, init, starts, ends);
      assert r.pending + init + [body[|init|]] == r.pending + body;
    }
  }

  lemma ReadOne(r: Reader, id: int, starts: set<int>, ends: set<int>)
    ensures ReadFrom(r, [id], starts, ends) == ReadId(r, id, starts, ends)
  {
    assert [id][..0] == [];
  }

  lemma ReadItem(items: seq<Item>, x: Item, starts: set<int>, ends: set<int>)
    requires ItemOk(x, starts, ends)
    ensures ReadFrom(Reader(items, []), IdsOf(x), starts, ends) == Reader(items + [x], [])
  {
    hide ReadFrom;
    match x
    case Outside(id) => ReadOne(Reader(items, []), id, starts, ends);
    case Segment(first, body, last) =>
      ReadAppend(Reader(items, []), [first] + body, [last], starts, ends);
      ReadAppend(Reader(items, []), [first], body, starts, ends);
      ReadOne(Reader(items, []), first, starts, ends);
      ReadBody(Reader(items, [first]), body, starts, ends);
      ReadOne(Reader(items, [first] + body), last, starts, ends);
  }

  /** Every sequence of well-formed items is read back from its stream. */
  lemma {:induction false} ScanRendered(items: seq<Item>, starts: set<int>, ends: set<int>)
    requires ItemsOk(items, starts, ends)
    ensures ReadFrom(BEGINNING, Render(items), starts, ends) == Reader(items, [])
    ensures Scan(Render(items), starts, ends) == Ok(items)
  {
    if items == [] {
    } else {
      hide Render, ReadFrom, IdsOf, ItemsOk, ItemOk;
      var init, x := items[..|items| - 1], items[|items| - 1];
      InitOk(items, starts, ends);
      ScanRendered(init, starts, ends);
      SplitLast(items);
      Unfold(init, x);
      ReadAppend(BEGINNING, Render(init), IdsOf(x), starts, ends);
      ReadItem(init, x, starts, ends);
    }
  }

  /** What the reader has taken in: well-formed items, and the start of a segment. */
  ghost predicate HasRead(r: Reader, ids: seq<int>, starts: set<int>, ends: set<int>) {
    r.Reader? ==>
      && ItemsOk(r.items, starts, ends) && ids == Render(r.items) + r.pending
      && (r.pending != [] ==> r.pending[0] in starts && r.pending[0] !in ends)
      && forall i :: 1 <= i < |r.pending| ==> r.pending[i] !in starts && r.pending[i] !in ends
  }

  lemma {:induction false} ReadItems(ids: seq<int>, starts: set<int>, ends: set<int>)
    ensures HasRead(ReadFrom(BEGINNING, ids, starts, ends), ids, starts, ends)
  {
    if ids == [] {
    } else {
      var init, id := ids[..|ids| - 1], ids[|ids| - 1];
      ReadItems(init, starts, ends);
      SplitLast(ids);
      ReadsNext(ReadFrom(BEGINNING, init, starts, ends), init, id, starts, ends);
    }
  }

  lemma ReadsNext(r: Reader, ids: seq<int>, id: int, starts: set<int>, ends: set<int>)
    requires HasRead(r, ids, starts, ends)
    ensures HasRead(ReadId(r, id, starts, ends), ids + [id], starts, ends)
  {
    hide Render, ItemOk;
    if r.Stuck? {
    } else if id in starts {
      AppendAssoc(Render(r.items), r.pending, [id]);
      assert r.pending == [] ==> r.pending + [id] == [id];
    } else if id in ends {
      if r.pending != [] {
        ReadsLast(r, ids, id, starts, ends);
      }
    } else if r.pending == [] {
      assert Render(r.items) + [] == Render(r.items);
      ReadsOutside(r.items, id, starts, ends);
    } else {
      AppendAssoc(Render(r.items), r.pending, [id]);
    }
  }

  lemma ReadsOutside(items: seq<Item>, id: int, starts: set<int>, ends: set<int>)
    requires ItemsOk(items, starts, ends) && id !in starts && id !in ends
    ensures ItemsOk(items + [Outside(id)], starts, ends)
    ensures Render(items + [Outside(id)]) + [] == Render(items) + [id]
  {
    hide Render;
    Unfold(items, Outside(id));
  }

  lemma ReadsLast(r: Reader, ids: seq<int>, id: int, starts: set<int>, ends: set<int>)
    requires HasRead(r, ids, starts, ends) && r.Reader? && r.pending != [] && id in ends && id !in starts
    ensures HasRead(Reader(r.items + [Segment(r.pending[0], r.pending[1..], id)], []), ids + [id], starts, ends)
  {
    hide Render;
    var x := Segment(r.pending[0], r.pending[1..], id);
    assert [r.pending[0]] + r.pending[1..] == r.pending;
    AppendAssoc(Render(r.items), r.pending, [id]);
    Unfold(r.items, x);
    assert Render(r.items + [x]) + [] == Render(r.items + [x]);
  }

  /** A scanned stream is the stream of its items, and these are well formed. */
  lemma ScannedItems(ids: seq<int>, starts: set<int>, ends: set<int>)
    requires Scan(ids, starts, ends).Ok?
    ensures ItemsOk(Scan(ids, starts, ends).value, starts, ends) && Render(Scan(ids, starts, ends).value) == ids
  {
    ReadItems(ids, starts, ends);
    hide Render;
    assert Render(Scan(ids, starts, ends).value) + [] == Render(Scan(ids, starts, ends).value);
  }

  /** What the array expressions answer on a stream the scanner reads. */
  lemma ScannedArrays(ids: seq<int>, starts: set<int>, ends: set<int>)
    ensures Scan(ids, starts, ends).Ok? ==>
      var items, r := Scan(ids, starts, ends).value, ArrayForm(ids, starts, ends);
      && r.Ok? && r.value.1 == RepresentativesOf(items)
      && (r.value.0 == RunsOf(items) <==> AllShort(items))
  {
    hide ArrayForm, AllShort, Scan;
    if Scan(ids, starts, ends).Ok? {
      ScannedItems(ids, starts, ends);
      RenderedArrays(Scan(ids, starts, ends).value, starts, ends);
    }
  }

  // ---- which streams the two accept ----

  predicate Unambiguous(ids: seq<int>, starts: set<int>, ends: set<int>) {
    forall i :: 0 <= i < |ids| ==> ids[i] !in starts || ids[i] !in ends
  }

  /** The running sum of particles stays between outside and one segment deep. */
  predicate NeverBelow(ids: seq<int>, starts: set<int>, ends: set<int>) {
    forall i :: 0 <= i < |ids| ==> 0 <= SegmentMask(ids, starts, ends)[i] <= 1
  }

  lemma MaskNext(ids: seq<int>, id: int, starts: set<int>, ends: set<int>)
    ensures Sum(Particles(ids + [id], starts, ends))
            == Sum(Particles(ids, starts, ends)) + Bit(id in starts) - Bit(id in ends)
    ensures SegmentMask(ids + [id], starts, ends)
            == SegmentMask(ids, starts, ends) + [Sum(Particles(ids + [id], starts, ends))]
  {
    hide Sum;
    var p, x := Particles(ids, starts, ends), Bit(id in starts) - Bit(id in ends);
    assert Particles(ids + [id], starts, ends) == p + [x];
    SumSnoc(p, x);
    CumSumAppend(p, [x]);
    CumSumOne(x);
  }

  /** The reader gets through exactly when the running sum never leaves 0 and 1. */
  lemma {:induction false} ReadDepth(ids: seq<int>, starts: set<int>, ends: set<int>)
    ensures var r := ReadFrom(BEGINNING, ids, starts, ends);
      && (r.Reader? <==> Unambiguous(ids, starts, ends) && NeverBelow(ids, starts, ends))
      && (r.Reader? ==> Sum(Particles(ids, starts, ends)) == if r.pending == [] then 0 else 1)
  {
    hide Sum, CumSum;
    if ids == [] {
      assert Particles(ids, starts, ends) == [];
      SumEmpty();
    } else {
      var init, id := ids[..|ids| - 1], ids[|ids| - 1];
      ReadDepth(init, starts, ends);
      SplitLast(ids);
      MaskNext(init, id, starts, ends);
      DepthNext(init, id, starts, ends);
    }
  }

  lemma DepthNext(ids: seq<int>, id: int, starts: set<int>, ends: set<int>)
    requires SegmentMask(ids + [id], starts, ends)
             == SegmentMask(ids, starts, ends) + [Sum(Particles(ids + [id], starts, ends))]
    ensures NeverBelow(ids + [id], starts, ends)
            <==> NeverBelow(ids, starts, ends) && 0 <= Sum(Particles(ids + [id], starts, ends)) <= 1
    ensures Unambiguous(ids + [id], starts, ends)
            <==> Unambiguous(ids, starts, ends) && (id !in starts || id !in ends)
  {
    hide Sum, CumSum;
    var mask, now := SegmentMask(ids, starts, ends), SegmentMask(ids + [id], starts, ends);
    MaskSizes(ids, starts, ends);
    assert now[|ids|] == Sum(Particles(ids + [id], starts, ends));
    assert forall i :: 0 <= i < |ids| ==> now[i] == mask[i] && (ids + [id])[i] == ids[i];
    assert (ids + [id])[|ids|] == id;
  }

  /** The particles add up to the surplus of starts. */
  lemma {:induction false} ParticleSum(ids: seq<int>, starts: set<int>, ends: set<int>)
    ensures Sum(Particles(ids, starts, ends)) == |Positions(IsIn(ids, starts))| - |Positions(IsIn(ids, ends))|
  {
    if ids == [] {
    } else {
      var init, id := ids[..|ids| - 1], ids[|ids| - 1];
      ParticleSum(init, starts, ends);
      SplitLast(ids);
      MaskNext(init, id, starts, ends);
      hide Sum, CumSum;
      assert IsIn(ids, starts)[..|init|] == IsIn(init, starts) && IsIn(ids, ends)[..|init|] == IsIn(init, ends);
    }
  }

  /** The scanner reads exactly the streams whose literals pair up, without ambiguous ids,
      and on which the running sum never drops below zero. */
  lemma ScanAccepts(ids: seq<int>, starts: set<int>, ends: set<int>)
    ensures Scan(ids, starts, ends).Ok?
            <==> && Unambiguous(ids, starts, ends) && NeverBelow(ids, starts, ends)
                 && |Positions(IsIn(ids, starts))| == |Positions(IsIn(ids, ends))|
    ensures Malformed(ids, starts, ends) ==> Scan(ids, starts, ends).Err?
  {
    hide Positions, Sum, CumSum, Particles, ReadFrom;
    ReadDepth(ids, starts, ends);
    ParticleSum(ids, starts, ends);
  }

  // ---- what the expressions get wrong ----

  const LONG_BODY := seq(254, _ => 2)

  lemma TooLong(items: seq<Item>)
    requires items != [] && items[0].Segment? && |IdsOf(items[0])| > 255
    ensures !AllShort(items)
  {
  }

  /** A segment of 256 ids: the scanner finds one run, the array expressions do not. */
  lemma LongSegmentIsTruncated()
    ensures var ids := [0] + LONG_BODY + [1];
      && |ids| == 256 && Scan(ids, {0}, {1}) == Ok([Segment(0, LONG_BODY, 1)])
      && ArrayForm(ids, {0}, {1}).Ok? && ArrayForm(ids, {0}, {1}).value.0 != [256]
  {
    hide ArrayForm, Scan, AllShort;
    var items := [Segment(0, LONG_BODY, 1)];
    assert items[..0] == [];
    assert Render(items) == [0] + LONG_BODY + [1];
    ScanRendered(items, {0}, {1});
    RenderedArrays(items, {0}, {1});
    assert !AllShort(items) by {
      TooLong(items);
    }
    assert RunsOf(items) == [256];
    assert items[0].Segment? && |IdsOf(items[0])| == 256;
  }

  lemma PositionsOfTwo(a: bool, b: bool)
    ensures Positions([a, b]) == (if a then [0] else []) + (if b then [1] else [])
  {
    assert [a, b][..1] == [a] && [a][..0] == [];
    assert Positions([]) == [] && Positions([a]) == if a then [0] else [];
  }

  lemma CumSumOfTwo(a: int, b: int)
    ensures CumSum([a, b]) == [a, a + b]
  {
    hide Sum;
    CumSumOne(a);
    SumSnoc([a], b);
    assert [a] + [b] == [a, b] && [a, b][..1] == [a] && [a, b][..2] == [a, b];
  }

  /** The answer, from the values of the intermediate arrays. */
  lemma ArrayFormIs(ids: seq<int>, starts: set<int>, ends: set<int>, mask: seq<int>, newIdx: seq<int>,
                    longLengths: seq<int>, n: nat)
    requires var startIdx, endIdx := Positions(IsIn(ids, starts)), Positions(IsIn(ids, ends));
      && |startIdx| == |endIdx| > 0 && SegmentMask(ids, starts, ends) == mask
      && (forall i :: 0 <= i < |mask| ==> -1 <= mask[i] <= 1)
      && longLengths == LongLengths(startIdx, endIdx) && n == |ids| - Sum(longLengths) + |longLengths|
      && (forall i :: 0 <= i < |startIdx| ==> startIdx[i] < |CumSum(Bits(AntiMask(mask)))|)
      && newIdx == Gather(CumSum(Bits(AntiMask(mask))), startIdx)
      && (forall i :: 0 <= i < |newIdx| ==> 0 <= newIdx[i] < n)
    ensures |mask| == |ids|
    ensures ArrayForm(ids, starts, ends) == Ok((Scattered(n, newIdx, longLengths), Select(ids, AntiMask(mask))))
  {
    hide Positions, CumSum, Scattered, Select, Sum, Particles, IsIn, Bits, AntiMask, Gather, LongLengths;
    MaskSizes(ids, starts, ends);
  }

  /** A literal that ends before it starts passes the array expressions' checks: three run
      lengths, one of them zero, for a single representative. */
  lemma EndBeforeStartIsAccepted()
    ensures Scan([1, 0], {0}, {1}).Err?
    ensures ArrayForm([1, 0], {0}, {1}) == Ok(([1, 0, 1], [0]))
  {
    hide ArrayForm, CumSum, Positions, Scattered, Select, Sum, Scan;
    var ids: seq<int> := [1, 0];
    assert IsIn(ids, {0}) == [false, true] && IsIn(ids, {1}) == [true, false];
    PositionsOfTwo(false, true);
    PositionsOfTwo(true, false);
    assert Particles(ids, {0}, {1}) == [-1, 1];
    CumSumOfTwo(-1, 1);
    assert AntiMask([-1, 0]) == [false, true] && Bits([false, true]) == [0, 1];
    CumSumOfTwo(0, 1);
    CumSumOne(0);
    assert LongLengths([1], [0]) == [0] && Gather([0, 1], [1]) == [1];
    ArrayFormIs(ids, {0}, {1}, [-1, 0], [1], [0], 3);
    ReversedPair(ids);
  }

  lemma ReversedPair(ids: seq<int>)
    requires ids == [1, 0]
    ensures Scan(ids, {0}, {1}).Err?
    ensures Scattered(3, [1], [0]) == [1, 0, 1] && Select(ids, [false, true]) == [0]
  {
    assert ids[..1] == [1] && ids[..1][..0] == [];
    assert [1][..0] == [] && [0][..0] == [] && [false, true][..1] == [false] && [false][..0] == [];
  }

  lemma MaskSizes(ids: seq<int>, starts: set<int>, ends: set<int>)
    ensures |SegmentMask(ids, starts, ends)| == |ids| == |AntiMask(SegmentMask(ids, starts, ends))|
    ensures |IsIn(ids, starts)| == |IsIn(ids, ends)| == |ids|
    ensures |CumSum(Bits(AntiMask(SegmentMask(ids, starts, ends))))| == |ids|
  {
  }

  lemma NoSegments(items: seq<Item>)
    requires forall i :: 0 <= i < |items| ==> items[i].Outside?
    ensures AllShort(items)
    ensures seq(|Render(items)|, _ => 1) == RunsOf(items) && Render(items) == RepresentativesOf(items)
  {
    if items == [] {
    } else {
      NoSegments(items[..|items| - 1]);
    }
  }

  /** The scanner's runs cover the stream. */
  lemma {:induction false} RunsCoverStream(items: seq<Item>)
    ensures Sum(RunsOf(items)) == |Render(items)|
  {
    if items == [] {
    } else {
      hide Render, RunsOf, Sum;
      var init, x := items[..|items| - 1], items[|items| - 1];
      RunsCoverStream(init);
      SplitLast(items);
      Unfold(init, x);
      UnfoldRuns(init, x);
      SumSnoc(RunsOf(init), |IdsOf(x)|);
    }
  }
}
