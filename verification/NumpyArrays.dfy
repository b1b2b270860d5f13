/** The numpy slice writes the token lists use, over arrays. */
module NumpyArrays {
  import opened TokenSeqs

  /** The array's contents start with `s`. */
  ghost predicate Begins<T>(a: array<T>, s: seq<T>)
    reads a
  {
    |s| <= a.Length && a[..|s|] == s
  }

  lemma BeginsPrefix<T>(a: array<T>, s: seq<T>, t: seq<T>)
    requires Begins(a, s + t)
    ensures Begins(a, s)
    ensures a[|s|..|s| + |t|] == t
  {
    assert a[..|s|] == a[..|s + t|][..|s|];
    assert a[|s|..|s| + |t|] == a[..|s + t|][|s|..];
  }

  /** `a[at : at + |s|] = s`. */
  method AssignSlice<T>(a: array<T>, at: nat, s: seq<T>)
    requires at + |s| <= a.Length
    modifies a
    ensures a[..at] == old(a[..at])
    ensures a[at..at + |s|] == s
    ensures a[at + |s|..] == old(a[at + |s|..])
    ensures a[..at + |s|] == old(a[..at]) + s
  {
    forall i | 0 <= i < |s| {
      a[at + i] := s[i];
    }
  }

  /** `a[at] = x` in the slot after the contents it begins with. */
  method PutNext<T>(a: array<T>, ghost s: seq<T>, x: T, at: nat)
    requires Begins(a, s) && at == |s| < a.Length
    modifies a
    ensures Begins(a, s + [x])
  {
    a[at] := x;
    assert a[..at + 1] == a[..at] + [x];
  }

  /** `a[at : at + n] += delta`. */
  method AddToSlice(a: array<int>, at: nat, n: nat, delta: int)
    requires at + n <= a.Length
    modifies a
    ensures a[..at + n] == old(a[..at]) + Shift(old(a[at..at + n]), delta)
    ensures a[at + n..] == old(a[at + n..])
  {
    forall i | at <= i < at + n {
      a[i] := a[i] + delta;
    }
  }

  /** Adds `delta` to the part behind `head`, and cuts what is behind that. */
  method Rebase(a: array<int>, ghost head: seq<int>, ghost tail: seq<int>, at: nat, n: nat, delta: int)
    requires Begins(a, head + tail) && at == |head| && n == |tail|
    modifies a
    ensures Begins(a, head + Shift(tail, delta))
  {
    BeginsPrefix(a, head, tail);
    AddToSlice(a, at, n, delta);
  }

  /** A larger zero-filled array whose head is a copy of the old one. */
  method Enlarged<T>(a: array<T>, newSize: nat, zero: T) returns (b: array<T>)
    requires a.Length <= newSize
    ensures fresh(b) && b.Length == newSize
    ensures b[..a.Length] == a[..]
    ensures forall i :: a.Length <= i < newSize ==> b[i] == zero
    ensures forall s | Begins(a, s) :: Begins(b, s)
  {
    b := new T[newSize](_ => zero);
    forall i | 0 <= i < a.Length {
      b[i] := a[i];
    }
    forall s | Begins(a, s)
      ensures Begins(b, s)
    {
      assert b[..|s|] == a[..|s|];
    }
  }
}
