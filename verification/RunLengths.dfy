/** Converting run lengths between levels: cumulative sums, a right-sided binary
    search over run ends, and differences. */
module RunLengths {
  import opened TokenSeqs

  function Sum(s: seq<int>): int {
    if s == [] then 0 else Sum(s[..|s| - 1]) + s[|s| - 1]
  }

  /** `s.cumsum()`. */
  function CumSum(s: seq<int>): seq<int> {
    seq(|s|, i requires 0 <= i < |s| => Sum(s[..i + 1]))
  }

  /** `np.searchsorted(a, v, side="right")` on a sorted array. */
  function SearchSortedRight(a: seq<int>, v: int): (at: nat)
    ensures at <= |a|
    ensures forall i :: 0 <= i < at ==> a[i] <= v
    ensures at < |a| ==> v < a[at]
  {
    if a == [] || v < a[0] then 0 else 1 + SearchSortedRight(a[1..], v)
  }

  function SearchAll(a: seq<int>, vs: seq<int>): seq<int> {
    seq(|vs|, i requires 0 <= i < |vs| => SearchSortedRight(a, vs[i]))
  }

  function Differences(x: seq<int>): seq<int> {
    seq(|x|, i requires 0 <= i < |x| => if i == 0 then x[0] else x[i] - x[i - 1])
  }

  function CbRle(cToA: seq<int>, bToA: seq<int>): seq<int> {
    Differences(SearchAll(CumSum(bToA), CumSum(cToA)))
  }

  /** Runs of an outer and of an inner level over the same positions give the runs of
      the outer level over the inner one. The positions found are differenced in place. */
  method CaBarleToCbrle(cToA: seq<int>, bToA: seq<int>) returns (r: seq<int>)
    ensures r == CbRle(cToA, bToA)
  {
    hide SearchSortedRight, Sum;
    var found := SearchAll(CumSum(bToA), CumSum(cToA));
    var x := new int[|found|](i requires 0 <= i < |found| => found[i]);
    assert x[..] == found;
    forall i | 1 <= i < x.Length {
      x[i] := x[i] - x[i - 1];
    }
    r := x[..];
    assert r == Differences(found);
  }

  // ---- sums ----

  lemma SumSnoc(s: seq<int>, x: int)
    ensures Sum(s + [x]) == Sum(s) + x
  {
    assert (s + [x])[..|s|] == s;
  }

  lemma {:induction false} SumAppend(a: seq<int>, b: seq<int>)
    ensures Sum(a + b) == Sum(a) + Sum(b)
  {
    if b == [] {
      assert a + b == a;
    } else {
      var init, last := b[..|b| - 1], b[|b| - 1];
      SplitLast(b);
      AppendAssoc(a, init, [last]);
      SumSnoc(a + init, last);
      SumAppend(a, init);
    }
  }

  function Sums(groups: seq<seq<int>>): seq<int> {
    seq(|groups|, i requires 0 <= i < |groups| => Sum(groups[i]))
  }

  function Sizes<T>(groups: seq<seq<T>>): seq<int> {
    seq(|groups|, i requires 0 <= i < |groups| => |groups[i]|)
  }

  lemma {:induction false} SumOfSums(groups: seq<seq<int>>)
    ensures Sum(Sums(groups)) == Sum(Concat(groups))
  {
    if groups == [] {
    } else {
      var init, last := groups[..|groups| - 1], groups[|groups| - 1];
      SumOfSums(init);
      SumAppend(Concat(init), last);
      assert Sums(groups) == Sums(init) + [Sum(last)];
      SumSnoc(Sums(init), Sum(last));
    }
  }

  lemma SumEmpty()
    ensures Sum([]) == 0
  {
  }

  lemma {:induction false} SumOfSizes<T>(ss: seq<seq<T>>)
    ensures Sum(Sizes(ss)) == |Concat(ss)|
  {
    if ss == [] {
    } else {
      var init := ss[..|ss| - 1];
      SumOfSizes(init);
      assert Sizes(ss) == Sizes(init) + [|ss[|ss| - 1]|];
      SumSnoc(Sizes(init), |ss[|ss| - 1]|);
    }
  }

  predicate Positive(s: seq<int>) {
    forall i :: 0 <= i < |s| ==> s[i] > 0
  }

  predicate NonNegative(s: seq<int>) {
    forall i :: 0 <= i < |s| ==> s[i] >= 0
  }

  lemma {:induction false} SumMonotone(b: seq<int>, i: nat, j: nat)
    requires NonNegative(b) && i <= j <= |b|
    ensures Sum(b[..i]) <= Sum(b[..j])
  {
    if i == j {
    } else {
      SumMonotone(b, i, j - 1);
      TakeNext(b, j - 1);
      SumSnoc(b[..j - 1], b[j - 1]);
    }
  }

  /** The right-sided search for the end of k runs finds k, unless a run of length zero follows. */
  lemma SearchAtEnd(b: seq<int>, k: nat)
    requires NonNegative(b) && k <= |b|
    ensures k <= SearchSortedRight(CumSum(b), Sum(b[..k]))
    ensures SearchSortedRight(CumSum(b), Sum(b[..k])) == k <==> k == |b| || b[k] > 0
  {
    hide Sum;
    var at := SearchSortedRight(CumSum(b), Sum(b[..k]));
    if at < k {
      SumMonotone(b, at + 1, k);
    }
    if k < |b| {
      TakeNext(b, k);
      SumSnoc(b[..k], b[k]);
      assert CumSum(b)[k] == Sum(b[..k]) + b[k];
      if k < at {
        assert CumSum(b)[at - 1] <= Sum(b[..k]);
        SumMonotone(b, k + 1, at);
      }
    }
  }

  /** The first k groups are not followed by a run of length zero. */
  predicate EndsCleanly(groups: seq<seq<int>>, k: nat)
    requires k <= |groups|
  {
    var b, n := Concat(groups), |Concat(groups[..k])|;
    n >= |b| || b[n] > 0
  }

  lemma SearchGroupEnd(groups: seq<seq<int>>, k: nat)
    requires NonNegative(Concat(groups)) && k <= |groups|
    ensures SearchSortedRight(CumSum(Concat(groups)), Sum(Sums(groups)[..k])) == |Concat(groups[..k])|
            <==> EndsCleanly(groups, k)
  {
    hide SearchSortedRight, Sum;
    var b := Concat(groups);
    SplitAt(groups, k);
    ConcatAppend(groups[..k], groups[k..]);
    assert b[..|Concat(groups[..k])|] == Concat(groups[..k]);
    SumOfSums(groups[..k]);
    SumsPrefix(groups, k);
    SearchAtEnd(b, |Concat(groups[..k])|);
  }

  function FoundEnds(groups: seq<seq<int>>): seq<int> {
    SearchAll(CumSum(Concat(groups)), CumSum(Sums(groups)))
  }

  lemma FoundEnd(groups: seq<seq<int>>, k: nat)
    requires NonNegative(Concat(groups)) && 1 <= k <= |groups|
    ensures |FoundEnds(groups)| == |groups|
    ensures FoundEnds(groups)[k - 1] == |Concat(groups[..k])| <==> EndsCleanly(groups, k)
  {
    hide Concat, Sum, SearchSortedRight, EndsCleanly;
    SearchGroupEnd(groups, k);
  }

  lemma SizeStep(groups: seq<seq<int>>, k: nat)
    requires k < |groups|
    ensures |Concat(groups[..k + 1])| == |Concat(groups[..k])| + |groups[k]|
    ensures k == 0 ==> |Concat(groups[..k])| == 0
  {
    TakeNext(groups, k);
    ConcatSnoc(groups[..k], groups[k]);
  }

  lemma DifferenceAt(groups: seq<seq<int>>, i: nat)
    requires NonNegative(Concat(groups)) && i < |groups|
    requires EndsCleanly(groups, i + 1) && (i > 0 ==> EndsCleanly(groups, i))
    ensures |FoundEnds(groups)| == |groups|
    ensures Differences(FoundEnds(groups))[i] == |groups[i]|
  {
    hide Concat, Sum, SearchSortedRight, EndsCleanly, FoundEnds;
    FoundEnd(groups, i + 1);
    SizeStep(groups, i);
    if i > 0 {
      FoundEnd(groups, i);
    }
  }

  lemma DifferencesOfFoundEnds(groups: seq<seq<int>>)
    requires NonNegative(Concat(groups))
    requires forall k :: 1 <= k <= |groups| ==> EndsCleanly(groups, k)
    ensures CbRle(Sums(groups), Concat(groups)) == Sizes(groups)
  {
    hide Concat, EndsCleanly, FoundEnds, CbRle, Sums, NonNegative;
    IsDifferences(groups);
    var d := Differences(FoundEnds(groups));
    forall i | 0 <= i < |groups|
      ensures d[i] == Sizes(groups)[i]
    {
      DifferenceAt(groups, i);
    }
    assert d == Sizes(groups);
  }

  lemma IsDifferences(groups: seq<seq<int>>)
    ensures CbRle(Sums(groups), Concat(groups)) == Differences(FoundEnds(groups))
    ensures |FoundEnds(groups)| == |groups|
  {
  }

  lemma {:induction false} EndsFromSizes(groups: seq<seq<int>>, k: nat)
    requires CbRle(Sums(groups), Concat(groups)) == Sizes(groups) && 1 <= k <= |groups|
    ensures |FoundEnds(groups)| == |groups|
    ensures FoundEnds(groups)[k - 1] == |Concat(groups[..k])|
  {
    hide Concat, Sum, SearchSortedRight, FoundEnds, CbRle;
    IsDifferences(groups);
    SizeStep(groups, k - 1);
    assert Differences(FoundEnds(groups))[k - 1] == Sizes(groups)[k - 1];
    if k == 1 {
    } else {
      EndsFromSizes(groups, k - 1);
    }
  }

  /** Exactness: inner runs grouped into outer runs are counted per group exactly when
      no group's end is followed by an inner run of length zero. */
  lemma CbRleExactIff(groups: seq<seq<int>>)
    requires NonNegative(Concat(groups))
    ensures CbRle(Sums(groups), Concat(groups)) == Sizes(groups)
            <==> forall k :: 1 <= k <= |groups| ==> EndsCleanly(groups, k)
  {
    hide Concat, CbRle, Sizes, Sums, EndsCleanly, FoundEnds;
    if forall k :: 1 <= k <= |groups| ==> EndsCleanly(groups, k) {
      DifferencesOfFoundEnds(groups);
    }
    if CbRle(Sums(groups), Concat(groups)) == Sizes(groups) {
      forall k | 1 <= k <= |groups|
        ensures EndsCleanly(groups, k)
      {
        EndsFromSizes(groups, k);
        FoundEnd(groups, k);
      }
    }
  }

  /** An outer end in front of an inner run of length zero: that run is counted too early. */
  lemma ZeroRunIsMiscounted()
    ensures var groups := [[1], [0, 1]];
      && Sums(groups) == [1, 1] && Concat(groups) == [1, 0, 1]
      && CbRle([1, 1], [1, 0, 1]) != Sizes(groups)
  {
    hide Sum, CbRle, EndsCleanly, Concat, Sums;
    var groups := [[1], [0, 1]];
    SumsOfZeroRun();
    JoinedZeroRun();
    assert NonNegative(Concat(groups));
    NotClean(groups);
    CbRleExactIff(groups);
  }

  lemma SumsOfZeroRun()
    ensures Sums([[1], [0, 1]]) == [1, 1]
  {
    hide Sum;
    SumOfOne(1);
    SumOfOne(0);
    SumSnoc([0], 1);
    assert [0] + [1] == [0, 1];
  }

  lemma JoinedZeroRun()
    ensures Concat([[1], [0, 1]][..1]) == [1] && Concat([[1], [0, 1]]) == [1, 0, 1]
  {
    hide Concat;
    ConcatEmpty<int>();
    ConcatSnoc([], [1]);
    ConcatSnoc([[1]], [0, 1]);
    assert [] + [[1]] == [[1]] && [[1]] + [[0, 1]] == [[1], [0, 1]] && [[1], [0, 1]][..1] == [[1]];
  }

  lemma SumOfOne(x: int)
    ensures Sum([x]) == x
  {
    SumSnoc([], x);
    assert [] + [x] == [x];
  }

  lemma NotClean(groups: seq<seq<int>>)
    requires groups != [] && |Concat(groups[..1])| < |Concat(groups)| && Concat(groups)[|Concat(groups[..1])|] == 0
    ensures !EndsCleanly(groups, 1)
  {
  }

  /** In particular, positive inner runs are always counted exactly. */
  lemma CbRleExact(groups: seq<seq<int>>)
    requires Positive(Concat(groups))
    ensures CbRle(Sums(groups), Concat(groups)) == Sizes(groups)
  {
    CbRleExactIff(groups);
  }

  lemma SumsPrefix(groups: seq<seq<int>>, k: nat)
    requires k <= |groups|
    ensures Sums(groups)[..k] == Sums(groups[..k])
  {
  }
}
