/** Folding functions that were already written: the per-binary deduper. */
module FunctionDedup {
  import opened Results

  /** A function as the provider hands it over: its address, its three identity axes, the
      canonical name derived from them, and its encoded body. */
  datatype Func = Func(addr: int, name: string, comment: Option<string>, identityKey: Option<int>,
                       canonicalName: string, body: string)

  /** The identity tuple; an empty comment is no comment. */
  datatype Key = Key(name: string, comment: Option<string>, identityKey: Option<int>)

  datatype Resolution = Resolution(slotId: nat, isDuplicate: bool, bodyDivergence: bool)

  function KeyOf(name: string, comment: Option<string>, identityKey: Option<int>): Key {
    Key(name, if comment == Some("") then None else comment, identityKey)
  }

  function FuncKey(f: Func): Key {
    KeyOf(f.name, f.comment, f.identityKey)
  }

  lemma KeyOfFunc(f: Func)
    ensures KeyOf(f.name, f.comment, f.identityKey) == FuncKey(f)
  {
  }

  /** Two functions are one identity when names and identity keys are equal and so are the
      comments, an empty one counting as none. */
  predicate SameIdentity(f: Func, g: Func) {
    && f.name == g.name && f.identityKey == g.identityKey
    && (f.comment == g.comment || (f.comment in {None, Some("")} && g.comment in {None, Some("")}))
  }

  lemma KeyIsIdentity(f: Func, g: Func)
    ensures FuncKey(f) == FuncKey(g) <==> SameIdentity(f, g)
  {
  }

  /** Function i is the first of its identity. */
  predicate IsFirst(funcs: seq<Func>, i: nat)
    requires i < |funcs|
  {
    forall j :: 0 <= j < i ==> !SameIdentity(funcs[j], funcs[i])
  }

  /** The first function with an identity tuple. */
  function FirstWith(funcs: seq<Func>, key: Key): (r: Option<nat>)
    ensures r.None? <==> forall i :: 0 <= i < |funcs| ==> FuncKey(funcs[i]) != key
    ensures r.Some? ==>
      && r.value < |funcs| && FuncKey(funcs[r.value]) == key
      && forall i :: 0 <= i < r.value ==> FuncKey(funcs[i]) != key
  {
    if funcs == [] then None
    else
      var init := FirstWith(funcs[..|funcs| - 1], key);
      if init.Some? then init
      else if FuncKey(funcs[|funcs| - 1]) == key then Some(|funcs| - 1)
      else None
  }

  /** The body recorded for an identity tuple: that of the first function with it. */
  function FirstBody(funcs: seq<Func>, key: Key): Option<string> {
    var first := FirstWith(funcs, key);
    if first.Some? then Some(funcs[first.value].body) else None
  }

  lemma FirstWithSnoc(funcs: seq<Func>, f: Func, key: Key)
    ensures FirstWith(funcs + [f], key)
            == if FirstWith(funcs, key).Some? then FirstWith(funcs, key)
               else if FuncKey(f) == key then Some(|funcs|) else None
  {
    assert (funcs + [f])[..|funcs|] == funcs;
  }

  /** The first function of a tuple, in terms of the functions' fields. */
  lemma FirstByFields(funcs: seq<Func>, f: Func, i: nat)
    requires i < |funcs|
    ensures SameIdentity(funcs[i], f) && IsFirst(funcs, i) <==> FirstWith(funcs, FuncKey(f)) == Some(i)
  {
    KeyIsIdentity(funcs[i], f);
    forall j | 0 <= j < i
      ensures FuncKey(funcs[j]) == FuncKey(funcs[i]) <==> SameIdentity(funcs[j], funcs[i])
    {
      KeyIsIdentity(funcs[j], funcs[i]);
    }
  }

  /** Whether a function folds, in terms of the functions' fields. */
  lemma FoldsByFields(funcs: seq<Func>, f: Func)
    ensures FirstBody(funcs, FuncKey(f)) == Some(f.body) <==>
      exists i :: 0 <= i < |funcs| && SameIdentity(funcs[i], f) && IsFirst(funcs, i) && funcs[i].body == f.body
    ensures FirstBody(funcs, FuncKey(f)).Some? && FirstBody(funcs, FuncKey(f)) != Some(f.body) <==>
      exists i :: 0 <= i < |funcs| && SameIdentity(funcs[i], f) && IsFirst(funcs, i) && funcs[i].body != f.body
  {
    hide SameIdentity, IsFirst, FuncKey;
    forall i | 0 <= i < |funcs|
      ensures SameIdentity(funcs[i], f) && IsFirst(funcs, i) <==> FirstWith(funcs, FuncKey(f)) == Some(i)
    {
      FirstByFields(funcs, f, i);
    }
  }

  lemma FirstBodySnoc(funcs: seq<Func>, f: Func, key: Key)
    ensures FirstBody(funcs + [f], key)
            == if FirstBody(funcs, key).Some? then FirstBody(funcs, key)
               else if FuncKey(f) == key then Some(f.body) else None
  {
    assert (funcs + [f])[..|funcs|] == funcs;
  }

  /** Every tuple seen holds the body of its first function and its slot; slots are handed
      out once. */
  ghost predicate Recorded(seen: map<Key, (nat, string)>, next: nat, slots: seq<nat>, history: seq<Func>) {
    && |slots| == |history| && (forall i :: 0 <= i < |slots| ==> slots[i] < next)
    && (forall k :: k in seen <==> FirstWith(history, k).Some?)
    && (forall k :: k in seen ==>
          var first := FirstWith(history, k).value;
          seen[k] == (slots[first], history[first].body))
    && (forall k, l :: k in seen && l in seen && k != l ==> seen[k].0 != seen[l].0)
  }

  lemma SeenFirst(seen: map<Key, (nat, string)>, next: nat, slots: seq<nat>, history: seq<Func>, f: Func)
    requires Recorded(seen, next, slots, history) && FuncKey(f) !in seen
    ensures Recorded(seen[FuncKey(f) := (next, f.body)], next + 1, slots + [next], history + [f])
  {
    hide FirstWith, FuncKey;
    forall k
      ensures FirstWith(history + [f], k)
              == if FirstWith(history, k).Some? then FirstWith(history, k)
                 else if FuncKey(f) == k then Some(|history|) else None
    {
      FirstWithSnoc(history, f, k);
    }
  }

  lemma SeenAgain(seen: map<Key, (nat, string)>, next: nat, slots: seq<nat>, history: seq<Func>, f: Func, slot: nat, after: nat)
    requires Recorded(seen, next, slots, history) && FuncKey(f) in seen && next <= after && slot < after
    ensures Recorded(seen, after, slots + [slot], history + [f])
  {
    hide FirstWith, FuncKey;
    forall k
      ensures FirstWith(history + [f], k) == FirstWith(history, k)
    {
      FirstWithSnoc(history, f, k);
    }
  }

  /** What the dictionary says of a function's tuple. */
  lemma SeenSays(seen: map<Key, (nat, string)>, next: nat, slots: seq<nat>, history: seq<Func>, key: Key)
    requires Recorded(seen, next, slots, history)
    ensures |slots| == |history| && next !in slots
    ensures key in seen <==> FirstWith(history, key).Some?
    ensures key in seen ==>
      var first := FirstWith(history, key).value;
      seen[key] == (slots[first], history[first].body) && seen[key].0 < next
  {
  }

  class FunctionDeduper {
    var seen: map<Key, (nat, string)>
    var nextSlotId: nat
    ghost var history: seq<Func>
    ghost var slots: seq<nat>

    ghost predicate Valid()
      reads this
    {
      Recorded(seen, nextSlotId, slots, history)
    }

    constructor ()
      ensures Valid() && history == [] && nextSlotId == 0
    {
      seen, nextSlotId, history, slots := map[], 0, [], [];
    }

    /** Folds exactly when the body equals the first body of the identity tuple; any other
        body gets a slot never used before. Body equality stands for digest equality. */
    method Resolve(f: Func) returns (r: Resolution)
      requires Valid()
      modifies this
      ensures Valid() && history == old(history) + [f] && slots == old(slots) + [r.slotId]
      ensures r.isDuplicate <==>
        exists i :: 0 <= i < |old(history)| && SameIdentity(old(history)[i], f) && IsFirst(old(history), i)
                    && old(history)[i].body == f.body
      ensures r.bodyDivergence <==>
        exists i :: 0 <= i < |old(history)| && SameIdentity(old(history)[i], f) && IsFirst(old(history), i)
                    && old(history)[i].body != f.body
      ensures r.isDuplicate ==>
        forall i :: 0 <= i < |old(history)| && SameIdentity(old(history)[i], f) && IsFirst(old(history), i) ==>
          r.slotId == old(slots)[i]
      ensures !r.isDuplicate ==> r.slotId !in old(slots)
      ensures r.isDuplicate <==> FirstBody(old(history), FuncKey(f)) == Some(f.body)
      ensures r.bodyDivergence <==> !r.isDuplicate && FirstBody(old(history), FuncKey(f)).Some?
      ensures r.isDuplicate ==> FuncKey(f) in old(seen) && r.slotId == old(seen)[FuncKey(f)].0 && seen == old(seen)
      ensures r.isDuplicate ==> nextSlotId == old(nextSlotId)
      ensures !r.isDuplicate ==> r.slotId == old(nextSlotId) && nextSlotId == old(nextSlotId) + 1
      ensures forall k :: k in old(seen) ==> k in seen && seen[k] == old(seen)[k]
    {
      hide SameIdentity, IsFirst, FirstWith, FuncKey, Recorded;
      var key := KeyOf(f.name, f.comment, f.identityKey);
      SeenSays(seen, nextSlotId, slots, history, key);
      assert key == FuncKey(f) by { KeyOfFunc(f); }
      FoldsByFields(history, f);
      ghost var before, first := history, FirstWith(history, key);
      forall i | 0 <= i < |before|
        ensures SameIdentity(before[i], f) && IsFirst(before, i) <==> first == Some(i)
      {
        FirstByFields(before, f, i);
      }
      history := history + [f];
      if key !in seen {
        var slotId := nextSlotId;
        SeenFirst(seen, nextSlotId, slots, before, f);
        slots := slots + [slotId];
        nextSlotId := nextSlotId + 1;
        seen := seen[key := (slotId, f.body)];
        return Resolution(slotId, false, false);
      }
      var recorded := seen[key];
      if recorded.1 == f.body {
        SeenAgain(seen, nextSlotId, slots, before, f, recorded.0, nextSlotId);
        slots := slots + [recorded.0];
        return Resolution(recorded.0, true, false);
      }
      var slotId := nextSlotId;
      SeenAgain(seen, nextSlotId, slots, before, f, slotId, nextSlotId + 1);
      slots := slots + [slotId];
      nextSlotId := nextSlotId + 1;
      return Resolution(slotId, false, true);
    }
  }
}
