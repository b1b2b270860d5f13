/** Boolean masks over a stream: counting, selecting, and the positions of the set ones. */
module Masks {
  import opened TokenSeqs

  function Count(mask: seq<bool>, v: bool): nat {
    if mask == [] then 0 else Count(mask[..|mask| - 1], v) + if mask[|mask| - 1] == v then 1 else 0
  }

  /** `values[mask]`. */
  function Select<T>(values: seq<T>, mask: seq<bool>): seq<T>
    requires |values| == |mask|
  {
    if mask == [] then []
    else
      var init := Select(values[..|mask| - 1], mask[..|mask| - 1]);
      if mask[|mask| - 1] then init + [values[|mask| - 1]] else init
  }

  /** `s[lo:hi]` for non-negative bounds: both ends are clipped. */
  function Clipped<T>(s: seq<T>, lo: nat, hi: nat): seq<T> {
    var h := if hi <= |s| then hi else |s|;
    if lo <= h then s[lo..h] else []
  }

  lemma CountSnoc(mask: seq<bool>, b: bool, v: bool)
    ensures Count(mask + [b], v) == Count(mask, v) + if b == v then 1 else 0
  {
    assert (mask + [b])[..|mask|] == mask;
  }

  lemma CountNext(mask: seq<bool>, k: nat, v: bool)
    requires k < |mask|
    ensures Count(mask[..k + 1], v) == Count(mask[..k], v) + if mask[k] == v then 1 else 0
  {
    TakeNext(mask, k);
    CountSnoc(mask[..k], mask[k], v);
  }

  /** Selected values are counted by the mask, and position p holds the value it holds. */
  lemma {:induction false} SelectAt<T>(values: seq<T>, mask: seq<bool>, p: nat)
    requires |values| == |mask|
    ensures |Select(values, mask)| == Count(mask, true)
    ensures p < |mask| && mask[p] ==>
      Count(mask[..p], true) < |Select(values, mask)| && Select(values, mask)[Count(mask[..p], true)] == values[p]
  {
    if mask == [] {
    } else {
      var n := |mask| - 1;
      SelectAt(values[..n], mask[..n], p);
      if p < n {
        assert mask[..n][..p] == mask[..p];
      }
    }
  }

  lemma CountEmpty()
    ensures Count([], false) == 0 && Count([], true) == 0
  {
  }

  lemma {:induction false} CountAppend(a: seq<bool>, b: seq<bool>, v: bool)
    ensures Count(a + b, v) == Count(a, v) + Count(b, v)
  {
    if b == [] {
      assert a + b == a;
    } else {
      SplitLast(b);
      AppendAssoc(a, b[..|b| - 1], [b[|b| - 1]]);
      CountAppend(a, b[..|b| - 1], v);
      CountSnoc(a + b[..|b| - 1], b[|b| - 1], v);
    }
  }

  lemma SelectSizes<T>(values: seq<T>, mask: seq<bool>)
    requires |values| == |mask|
    ensures |Select(values, mask)| == Count(mask, true)
  {
    SelectAt(values, mask, 0);
  }

  /** `np.nonzero(mask)[0]`. */
  function Positions(mask: seq<bool>): (at: seq<nat>)
    ensures forall i :: 0 <= i < |at| ==> at[i] < |mask| && mask[at[i]]
  {
    if mask == [] then []
    else
      var init := Positions(mask[..|mask| - 1]);
      if mask[|mask| - 1] then init + [|mask| - 1] else init
  }

  /** Entry j of the positions is the set position with j set ones before it. */
  lemma {:induction false} PositionsAt(mask: seq<bool>, j: nat)
    ensures |Positions(mask)| == Count(mask, true)
    ensures j < |Positions(mask)| ==> Count(mask[..Positions(mask)[j]], true) == j
  {
    if mask == [] {
    } else {
      var init := mask[..|mask| - 1];
      PositionsAt(init, j);
      if j < |Positions(init)| {
        assert mask[..Positions(init)[j]] == init[..Positions(init)[j]];
      }
    }
  }

  /** Counting up to a position grows with the position. */
  lemma {:induction false} CountGrows(mask: seq<bool>, i: nat, j: nat, v: bool)
    requires i <= j <= |mask|
    ensures Count(mask[..i], v) <= Count(mask[..j], v) <= Count(mask[..i], v) + (j - i)
    ensures (forall k :: i <= k < j ==> mask[k] == v) ==> Count(mask[..j], v) == Count(mask[..i], v) + (j - i)
    ensures (forall k :: i <= k < j ==> mask[k] != v) ==> Count(mask[..j], v) == Count(mask[..i], v)
  {
    if i == j {
    } else {
      CountGrows(mask, i, j - 1, v);
      CountNext(mask, j - 1, v);
    }
  }

  /** The set position of rank j is entry j of the positions. */
  lemma PositionIs(mask: seq<bool>, p: nat)
    requires p < |mask| && mask[p]
    ensures var j := Count(mask[..p], true); j < |Positions(mask)| && Positions(mask)[j] == p
  {
    hide Count, Positions;
    var j := Count(mask[..p], true);
    CountNext(mask, p, true);
    CountGrows(mask, p + 1, |mask|, true);
    assert mask[..|mask|] == mask;
    PositionsAt(mask, j);
    var q := Positions(mask)[j];
    CountNext(mask, q, true);
    if q < p {
      CountGrows(mask, q + 1, p, true);
    } else if p < q {
      CountGrows(mask, p + 1, q, true);
    }
  }

  /** The positions between two ends that hold a value. */
  ghost function Marked(mask: seq<bool>, lo: nat, hi: nat, v: bool): set<int>
    requires lo <= hi <= |mask|
  {
    set i | lo <= i < hi && mask[i] == v
  }

  lemma MarkedNext(mask: seq<bool>, lo: nat, hi: nat, v: bool)
    requires lo <= hi < |mask|
    ensures |Marked(mask, lo, hi + 1, v)| == |Marked(mask, lo, hi, v)| + if mask[hi] == v then 1 else 0
  {
    assert Marked(mask, lo, hi + 1, v) == Marked(mask, lo, hi, v) + if mask[hi] == v then {hi} else {};
  }

  lemma {:induction false} CountIsSize(mask: seq<bool>, lo: nat, hi: nat, v: bool)
    requires lo <= hi <= |mask|
    ensures Count(mask[lo..hi], v) == |Marked(mask, lo, hi, v)|
  {
    if lo == hi {
      assert Marked(mask, lo, hi, v) == {};
    } else {
      CountIsSize(mask, lo, hi - 1, v);
      MarkedNext(mask, lo, hi - 1, v);
      hide Count, Marked;
      assert mask[lo..hi] == mask[lo..hi - 1] + [mask[hi - 1]];
      CountSnoc(mask[lo..hi - 1], mask[hi - 1], v);
    }
  }

  /** `a[at]`. */
  function Gather<T>(a: seq<T>, at: seq<int>): (r: seq<T>)
    requires forall i :: 0 <= i < |at| ==> 0 <= at[i] < |a|
    ensures |r| == |at|
  {
    seq(|at|, i requires 0 <= i < |at| => a[at[i]])
  }

  lemma {:induction false} PositionsAppend(a: seq<bool>, b: seq<bool>)
    ensures Positions(a + b) == Positions(a) + Shift(Positions(b), |a|)
  {
    if b == [] {
      assert a + b == a;
    } else {
      var init := b[..|b| - 1];
      PositionsAppend(a, init);
      assert (a + b)[..|a + b| - 1] == a + init;
    }
  }

  lemma {:induction false} SelectAppend<T>(a: seq<T>, m: seq<bool>, b: seq<T>, n: seq<bool>)
    requires |a| == |m| && |b| == |n|
    ensures Select(a + b, m + n) == Select(a, m) + Select(b, n)
  {
    if b == [] {
      assert a + b == a && m + n == m;
    } else {
      var k := |b| - 1;
      SelectAppend(a, m, b[..k], n[..k]);
      assert (a + b)[..|a + b| - 1] == a + b[..k] && (m + n)[..|a + b| - 1] == m + n[..k];
    }
  }

  lemma {:induction false} PositionsNone(mask: seq<bool>)
    requires forall i :: 0 <= i < |mask| ==> !mask[i]
    ensures Positions(mask) == []
  {
    if mask == [] {
    } else {
      PositionsNone(mask[..|mask| - 1]);
    }
  }

  lemma {:induction false} SelectNone<T>(a: seq<T>, mask: seq<bool>)
    requires |a| == |mask| && forall i :: 0 <= i < |mask| ==> !mask[i]
    ensures Select(a, mask) == []
  {
    if a == [] {
    } else {
      SelectNone(a[..|a| - 1], mask[..|a| - 1]);
    }
  }
}
