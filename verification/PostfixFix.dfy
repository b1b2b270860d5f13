/** Replacing float markers without a value by a value-less annotation, in the raw id
    stream. */
module PostfixFix {
  import opened TokenSeqs
  import opened Masks
  import opened InlineDigits

  /** A float id with no digit behind it. */
  predicate IsBroken(ids: seq<nat>, floatIds: set<nat>, p: nat)
    requires p < |ids|
  {
    ids[p] in floatIds && (p + 1 >= |ids| || ids[p + 1] >= RESERVED_DIGIT_COUNT)
  }

  function BrokenMask(ids: seq<nat>, floatIds: set<nat>): seq<bool> {
    seq(|ids|, p requires 0 <= p < |ids| => IsBroken(ids, floatIds, p))
  }

  /** The listed positions rise, and are those of a float id with no digit behind it. */
  ghost predicate AreListed(at: seq<nat>, ids: seq<nat>, floatIds: set<nat>) {
    && (forall i, j :: 0 <= i < j < |at| ==> at[i] < at[j])
    && (forall p :: p in at ==> p < |ids|)
    && forall p {:trigger p in at} :: 0 <= p < |ids| ==>
         (p in at <==> ids[p] in floatIds && (p + 1 < |ids| ==> ids[p + 1] >= RESERVED_DIGIT_COUNT))
  }

  lemma BrokenListed(ids: seq<nat>, floatIds: set<nat>)
    ensures AreListed(Positions(BrokenMask(ids, floatIds)), ids, floatIds)
  {
    hide Count, Positions;
    var mask := BrokenMask(ids, floatIds);
    var at := Positions(mask);
    forall i, j | 0 <= i < j < |at|
      ensures at[i] < at[j]
    {
      PositionsAt(mask, i);
      PositionsAt(mask, j);
      if at[j] <= at[i] {
        CountGrows(mask, at[j], at[i], true);
      }
    }
    forall p | 0 <= p < |ids| && mask[p]
      ensures p in at
    {
      PositionIs(mask, p);
    }
  }

  method FindBrokenFloatPositions(ids: seq<nat>, floatIds: set<nat>) returns (out: seq<nat>)
    ensures out == Positions(BrokenMask(ids, floatIds))
    ensures AreListed(out, ids, floatIds)
  {
    ghost var mask := BrokenMask(ids, floatIds);
    BrokenListed(ids, floatIds);
    out := [];
    if floatIds == {} {
      PositionsNone(mask);
      return;
    }
    for p := 0 to |ids|
      invariant out == Positions(mask[..p])
    {
      assert mask[..p + 1][..p] == mask[..p];
      if ids[p] in floatIds {
        var isEos := p + 1 >= |ids|;
        if isEos || ids[p + 1] >= RESERVED_DIGIT_COUNT {
          out := out + [p];
        }
      }
    }
    assert mask[..|ids|] == mask;
  }

  function Rewritten(ids: seq<nat>, floatIds: set<nat>, annotation: nat): (r: seq<nat>)
    ensures |r| == |ids|
  {
    seq(|ids|, p requires 0 <= p < |ids| => if IsBroken(ids, floatIds, p) then annotation else ids[p])
  }

  /** Swaps every broken position in a copy; a stream without any is returned as it is. */
  method RewriteStream(ids: seq<nat>, floatIds: set<nat>, annotation: nat) returns (newIds: seq<nat>, replaced: nat)
    ensures newIds == Rewritten(ids, floatIds, annotation)
    ensures |newIds| == |ids| && forall p :: 0 <= p < |ids| ==>
              newIds[p] == if ids[p] in floatIds && (p + 1 < |ids| ==> ids[p + 1] >= RESERVED_DIGIT_COUNT) then annotation
                           else ids[p]
    ensures replaced == |set p | 0 <= p < |ids| && ids[p] in floatIds
                               && (p + 1 < |ids| ==> ids[p + 1] >= RESERVED_DIGIT_COUNT)|
  {
    hide Positions, Count, AreListed;
    var positions := FindBrokenFloatPositions(ids, floatIds);
    BrokenCounted(ids, floatIds);
    PositionsAt(BrokenMask(ids, floatIds), 0);
    Swapped(positions, ids, floatIds, annotation);
    if |positions| == 0 {
      return ids, 0;
    }
    var copy := new nat[|ids|](i requires 0 <= i < |ids| => ids[i]);
    for k := 0 to |positions|
      invariant forall p :: 0 <= p < |ids| ==> copy[p] == if p in positions[..k] then annotation else ids[p]
    {
      copy[positions[k]] := annotation;
      TakeNext(positions, k);
    }
    assert positions[..|positions|] == positions;
    return copy[..], |positions|;
  }

  lemma Swapped(at: seq<nat>, ids: seq<nat>, floatIds: set<nat>, annotation: nat)
    requires AreListed(at, ids, floatIds)
    ensures forall p :: 0 <= p < |ids| ==>
              Rewritten(ids, floatIds, annotation)[p] == if p in at then annotation else ids[p]
    ensures forall p {:trigger p in at} :: 0 <= p < |ids| ==>
              (p in at <==> ids[p] in floatIds && (p + 1 < |ids| ==> ids[p + 1] >= RESERVED_DIGIT_COUNT))
  {
    assert forall p :: 0 <= p < |ids| ==> (p in at <==> IsBroken(ids, floatIds, p));
  }

  /** The broken positions, as a set. */
  lemma BrokenCounted(ids: seq<nat>, floatIds: set<nat>)
    ensures Count(BrokenMask(ids, floatIds), true)
            == |set p | 0 <= p < |ids| && ids[p] in floatIds && (p + 1 < |ids| ==> ids[p + 1] >= RESERVED_DIGIT_COUNT)|
  {
    hide Count;
    var mask := BrokenMask(ids, floatIds);
    CountIsSize(mask, 0, |ids|, true);
    assert mask[0..|ids|] == mask;
    assert (set p | 0 <= p < |ids| && ids[p] in floatIds && (p + 1 < |ids| ==> ids[p + 1] >= RESERVED_DIGIT_COUNT))
           == Marked(mask, 0, |ids|, true);
  }

  // ---- what the rewriting does to tokens ----

  /** The same token with a bare float marker replaced. */
  function Fixed(t: Item, floatIds: set<nat>, annotation: nat): Item {
    if t.typeId in floatIds && t.payload == [] then Item(annotation, []) else t
  }

  function FixedAll(items: seq<Item>, floatIds: set<nat>, annotation: nat): seq<Item> {
    seq(|items|, i requires 0 <= i < |items| => Fixed(items[i], floatIds, annotation))
  }

  predicate AreTypeIds(floatIds: set<nat>) {
    forall f :: f in floatIds ==> f >= RESERVED_DIGIT_COUNT
  }

  /** Tokens are rewritten one by one: what follows a token does not change what happens
      to it. */
  lemma RewrittenFirst(t: Item, rest: seq<nat>, floatIds: set<nat>, annotation: nat)
    requires IsItem(t) && AreTypeIds(floatIds) && (rest == [] || rest[0] >= RESERVED_DIGIT_COUNT)
    ensures Rewritten(Encoded(t) + rest, floatIds, annotation)
            == Encoded(Fixed(t, floatIds, annotation)) + Rewritten(rest, floatIds, annotation)
  {
    var ids, n := Encoded(t) + rest, |Encoded(t)|;
    var left := Rewritten(ids, floatIds, annotation);
    var right := Encoded(Fixed(t, floatIds, annotation)) + Rewritten(rest, floatIds, annotation);
    assert |left| == |right|;
    forall p | 0 <= p < |ids|
      ensures left[p] == right[p]
    {
      if p >= n {
        assert ids[p] == rest[p - n];
        assert p + 1 < |ids| ==> ids[p + 1] == rest[p + 1 - n];
      } else if p > 0 {
        assert ids[p] == t.payload[p - 1];
      } else {
        assert t.payload != [] ==> ids[1] == t.payload[0];
        assert t.payload == [] && rest != [] ==> ids[1] == rest[0];
      }
    }
  }

  /** On a stream of tokens exactly the bare float markers are replaced. */
  lemma {:induction false} RewrittenStream(items: seq<Item>, floatIds: set<nat>, annotation: nat)
    requires AreItems(items) && AreTypeIds(floatIds)
    ensures Rewritten(Stream(items), floatIds, annotation) == Stream(FixedAll(items, floatIds, annotation))
    decreases |items|
  {
    if items == [] {
    } else {
      var t, rest := items[0], Stream(items[1..]);
      assert AreItems(items[1..]);
      StreamHead(items[1..]);
      RewrittenFirst(t, rest, floatIds, annotation);
      RewrittenStream(items[1..], floatIds, annotation);
      assert FixedAll(items, floatIds, annotation)[1..] == FixedAll(items[1..], floatIds, annotation);
    }
  }

  /** Rewriting keeps every token boundary. */
  lemma BoundariesKept(ids: seq<nat>, floatIds: set<nat>, annotation: nat)
    requires AreTypeIds(floatIds) && annotation >= RESERVED_DIGIT_COUNT
    ensures var r := Rewritten(ids, floatIds, annotation);
      forall p :: 0 <= p < |ids| ==> (r[p] >= RESERVED_DIGIT_COUNT <==> ids[p] >= RESERVED_DIGIT_COUNT)
  {
  }

  /** No float is left broken, exactly when the annotation is no float itself or there was
      nothing to replace. */
  lemma NoneLeftBroken(ids: seq<nat>, floatIds: set<nat>, annotation: nat)
    requires AreTypeIds(floatIds) && annotation >= RESERVED_DIGIT_COUNT
    ensures (forall p :: 0 <= p < |ids| ==> !IsBroken(Rewritten(ids, floatIds, annotation), floatIds, p))
            <==> annotation !in floatIds || forall p :: 0 <= p < |ids| ==> !IsBroken(ids, floatIds, p)
  {
    var r := Rewritten(ids, floatIds, annotation);
    BoundariesKept(ids, floatIds, annotation);
    forall p | 0 <= p < |ids|
      ensures IsBroken(r, floatIds, p) <==> IsBroken(ids, floatIds, p) && annotation in floatIds
    {
      assert p + 1 < |ids| ==> (r[p + 1] >= RESERVED_DIGIT_COUNT <==> ids[p + 1] >= RESERVED_DIGIT_COUNT);
    }
  }

  /** An annotation that is itself a float id leaves the stream as broken as it was. */
  lemma FloatAnnotationStaysBroken()
    ensures Rewritten([300], {300, 301}, 301) == [301] && IsBroken([301], {300, 301}, 0)
  {
    assert IsBroken([300], {300, 301}, 0);
  }

  /** Rewriting twice changes nothing more. */
  lemma RewrittenTwice(ids: seq<nat>, floatIds: set<nat>, annotation: nat)
    requires AreTypeIds(floatIds) && annotation >= RESERVED_DIGIT_COUNT
    ensures var r := Rewritten(ids, floatIds, annotation); Rewritten(r, floatIds, annotation) == r
  {
    var r := Rewritten(ids, floatIds, annotation);
    BoundariesKept(ids, floatIds, annotation);
    forall p | 0 <= p < |ids|
      ensures Rewritten(r, floatIds, annotation)[p] == r[p]
    {
      assert p + 1 < |ids| ==> (r[p + 1] >= RESERVED_DIGIT_COUNT <==> ids[p + 1] >= RESERVED_DIGIT_COUNT);
    }
  }
}
