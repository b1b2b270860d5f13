/** Tokens as the three-level token list stores them, and the axes that encode
    nested tokens as flat sequences: ids, types, cumulative ends and run lengths. */
module TokenSeqs {

  /** Ids below this continue a metatoken, the others start one. */
  const RESERVED_DIGIT_COUNT := 256

  /** The identity markers lie between these two ids. */
  const IDENTITY_BLOCK_START := 264
  const EAGER_BLOCK_END := 272

  function Max(a: int, b: int): int { if a >= b then a else b }

  function Min(a: int, b: int): int { if a <= b then a else b }

  /** One metatoken: its type and the token ids it occupies on the wire. */
  datatype Tok = Tok(ttype: int, ids: seq<int>)

  type Insn = seq<Tok>
  type Block = seq<Insn>

  /** Concatenation of a sequence of sequences. */
  function Concat<T>(ss: seq<seq<T>>): seq<T> {
    if ss == [] then [] else Concat(ss[..|ss| - 1]) + ss[|ss| - 1]
  }

  /** The token ids of consecutive metatokens, back to back. */
  function Ids(ts: seq<Tok>): seq<int> {
    Concat(IdLists(ts))
  }

  function IdLists(ts: seq<Tok>): seq<seq<int>> {
    seq(|ts|, i requires 0 <= i < |ts| => ts[i].ids)
  }

  function Types(ts: seq<Tok>): seq<int> {
    seq(|ts|, i requires 0 <= i < |ts| => ts[i].ttype)
  }

  /** Cumulative end positions: entry i is where metatoken i ends. */
  function Ends(ts: seq<Tok>): (ends: seq<int>)
    ensures |ends| == |ts|
  {
    if ts == [] then [] else Ends(ts[..|ts| - 1]) + [|Ids(ts)|]
  }

  /** Metatokens per instruction. */
  function MetaCounts(insns: seq<Insn>): seq<int> {
    seq(|insns|, i requires 0 <= i < |insns| => |insns[i]|)
  }

  /** Token ids per instruction. */
  function IdCounts(insns: seq<Insn>): seq<int> {
    seq(|insns|, i requires 0 <= i < |insns| => |Ids(insns[i])|)
  }

  /** Instructions per block. */
  function InsnCounts(blocks: seq<Block>): seq<int> {
    seq(|blocks|, i requires 0 <= i < |blocks| => |blocks[i]|)
  }

  /** Metatokens per block. */
  function BlockMetaCounts(blocks: seq<Block>): seq<int> {
    seq(|blocks|, i requires 0 <= i < |blocks| => |Concat(blocks[i])|)
  }

  function Shift(s: seq<int>, delta: int): seq<int> {
    seq(|s|, i requires 0 <= i < |s| => s[i] + delta)
  }

  function AllToks(blocks: seq<Block>): seq<Tok> { Concat(Concat(blocks)) }

  /** No run of length zero: every block has instructions and every instruction metatokens. */
  predicate Solid(blocks: seq<Block>) {
    forall b :: b in blocks ==> SolidBlock(b)
  }

  predicate SolidBlock(b: Block) {
    b != [] && forall i :: i in b ==> i != []
  }

  lemma SolidHasToks(b: Block)
    requires SolidBlock(b)
    ensures Concat(b) != []
  {
    assert b[|b| - 1] in b;
  }

  lemma AppendAssoc<T>(a: seq<T>, b: seq<T>, c: seq<T>)
    ensures (a + b) + c == a + (b + c)
  {
  }

  lemma SplitLast<T>(s: seq<T>)
    requires s != []
    ensures s[..|s| - 1] + [s[|s| - 1]] == s
  {
  }

  lemma SplitAt<T>(s: seq<T>, k: nat)
    requires k <= |s|
    ensures s == s[..k] + s[k..]
  {
  }

  lemma TakeNext<T>(s: seq<T>, k: nat)
    requires k < |s|
    ensures s[..k + 1] == s[..k] + [s[k]]
  {
  }

  lemma MiddleSlice<T>(a: seq<T>, b: seq<T>, c: seq<T>)
    ensures (a + b + c)[|a|..|a| + |b|] == b
  {
  }

  lemma SliceOfSlice<T>(s: seq<T>, lo: nat, hi: nat, a: nat, b: nat)
    requires lo <= hi <= |s| && a <= b <= hi - lo
    ensures s[lo..hi][a..b] == s[lo + a..lo + b]
  {
    var x, y := s[lo..hi][a..b], s[lo + a..lo + b];
    assert |x| == |y|;
    forall k | 0 <= k < |x|
      ensures x[k] == y[k]
    {
      assert s[lo..hi][a + k] == s[lo + (a + k)];
    }
  }

  lemma ConcatEmpty<T>()
    ensures Concat<T>([]) == []
  {
  }

  lemma ShiftSnoc(s: seq<int>, x: int, delta: int)
    ensures Shift(s + [x], delta) == Shift(s, delta) + [x + delta]
  {
  }

  lemma ConcatSnoc<T>(ss: seq<seq<T>>, s: seq<T>)
    ensures Concat(ss + [s]) == Concat(ss) + s
  {
    assert (ss + [s])[..|ss|] == ss;
  }

  lemma {:induction false} ConcatAppend<T>(a: seq<seq<T>>, b: seq<seq<T>>)
    ensures Concat(a + b) == Concat(a) + Concat(b)
  {
    if b == [] {
      assert a + b == a;
    } else {
      ConcatAppend(a, b[..|b| - 1]);
      assert (a + b)[..|a + b| - 1] == a + b[..|b| - 1];
    }
  }

  /** Joining one more list. */
  lemma JoinedNext<T>(lists: seq<seq<T>>, e: nat)
    requires e < |lists|
    ensures Concat(lists[..e + 1]) == Concat(lists[..e]) + lists[e]
    ensures |Concat(lists[..e + 1])| <= |Concat(lists)|
  {
    TakeNext(lists, e);
    ConcatSnoc(lists[..e], lists[e]);
    SplitAt(lists, e + 1);
    ConcatAppend(lists[..e + 1], lists[e + 1..]);
  }

  /** Each list keeps its place in the joined one. */
  lemma JoinedSlice<T>(lists: seq<seq<T>>, e: nat)
    requires e < |lists|
    ensures |Concat(lists[..e])| + |lists[e]| <= |Concat(lists)|
    ensures Concat(lists)[|Concat(lists[..e])|..|Concat(lists[..e])| + |lists[e]|] == lists[e]
  {
    JoinedNext(lists, e);
    SplitAt(lists, e + 1);
    ConcatAppend(lists[..e + 1], lists[e + 1..]);
    MiddleSlice(Concat(lists[..e]), lists[e], Concat(lists[e + 1..]));
  }

  lemma IdsAppend(a: seq<Tok>, b: seq<Tok>)
    ensures Ids(a + b) == Ids(a) + Ids(b)
  {
    assert IdLists(a + b) == IdLists(a) + IdLists(b);
    ConcatAppend(IdLists(a), IdLists(b));
  }

  lemma IdsSnoc(ts: seq<Tok>, t: Tok)
    ensures Ids(ts + [t]) == Ids(ts) + t.ids
  {
    assert IdLists(ts + [t]) == IdLists(ts) + [t.ids];
    ConcatSnoc(IdLists(ts), t.ids);
  }

  lemma EndsSnoc(ts: seq<Tok>, t: Tok)
    ensures Ends(ts + [t]) == Ends(ts) + [|Ids(ts)| + |t.ids|]
  {
    hide Ids;
    IdsSnoc(ts, t);
    assert (ts + [t])[..|ts|] == ts;
  }

  /** Committing a child list shifts its relative ends by where the parent's tokens end. */
  lemma {:induction false} EndsAppend(a: seq<Tok>, b: seq<Tok>)
    ensures Ends(a + b) == Ends(a) + Shift(Ends(b), |Ids(a)|)
  {
    if b == [] {
      assert a + b == a;
    } else {
      var init, last := b[..|b| - 1], b[|b| - 1];
      SplitLast(b);
      AppendAssoc(a, init, [last]);
      EndsAppend(a, init);
      IdsAppend(a, init);
      EndsSnoc(a + init, last);
      EndsSnoc(init, last);
      ShiftSnoc(Ends(init), |Ids(init)| + |last.ids|, |Ids(a)|);
      AppendAssoc(Ends(a), Shift(Ends(init), |Ids(a)|), [|Ids(init)| + |last.ids| + |Ids(a)|]);
    }
  }

  /** The last end is the number of token ids. */
  lemma EndsLast(ts: seq<Tok>)
    requires ts != []
    ensures Ends(ts)[|ts| - 1] == |Ids(ts)|
  {
  }

  lemma TypesAppend(a: seq<Tok>, b: seq<Tok>)
    ensures Types(a + b) == Types(a) + Types(b)
  {
  }

  lemma CountsAppend(a: seq<Insn>, b: seq<Insn>)
    ensures MetaCounts(a + b) == MetaCounts(a) + MetaCounts(b)
    ensures IdCounts(a + b) == IdCounts(a) + IdCounts(b)
  {
  }

  lemma IdsEmpty()
    ensures Ids([]) == []
  {
  }
}
