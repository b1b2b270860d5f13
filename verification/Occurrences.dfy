/** Writing one row per function that is not folded, numbering rows of equal canonical
    name, and the map from addresses to the numbers of multiply-written names. */
module Occurrences {
  import opened TokenSeqs
  import opened Results
  import opened FunctionDedup

  /** What is kept of a written row: the address, the canonical name, the occurrence and
      the body. */
  datatype Row = Row(addr: int, name: string, occurrence: int, body: string)

  /** The provider sorts by canonical name, so equal names arrive one after another. */
  predicate Contiguous(funcs: seq<Func>) {
    forall i, j, k :: 0 <= i <= j <= k < |funcs| && funcs[i].canonicalName == funcs[k].canonicalName
      ==> funcs[j].canonicalName == funcs[i].canonicalName
  }

  /** The canonical name is derived from the identity tuple. */
  predicate NamedByKey(funcs: seq<Func>) {
    forall i, j :: 0 <= i < |funcs| && 0 <= j < |funcs| && FuncKey(funcs[i]) == FuncKey(funcs[j])
      ==> funcs[i].canonicalName == funcs[j].canonicalName
  }

  /** The function's body equals the first body seen for its identity tuple. */
  predicate Folds(before: seq<Func>, f: Func) {
    FirstBody(before, FuncKey(f)) == Some(f.body)
  }

  function CountName(rows: seq<Row>, name: string): nat {
    if rows == [] then 0
    else CountName(rows[..|rows| - 1], name) + if rows[|rows| - 1].name == name then 1 else 0
  }

  /** The number a name's first row gets: the loop starts out with the empty name as the
      previous one, so a function of that name that comes first counts as a repetition. */
  function FirstNumber(funcs: seq<Func>, name: string): nat {
    if name == "" && funcs != [] && funcs[0].canonicalName == "" then 1 else 0
  }

  /** The rows written: one per function that does not fold, each numbered by the rows of
      its name before it. */
  function RowsOf(funcs: seq<Func>): seq<Row> {
    if funcs == [] then []
    else
      var init, f := funcs[..|funcs| - 1], funcs[|funcs| - 1];
      var rows := RowsOf(init);
      if Folds(init, f) then rows
      else rows + [Row(f.addr, f.canonicalName, CountName(rows, f.canonicalName) + FirstNumber(funcs, f.canonicalName), f.body)]
  }

  lemma {:induction false} RowsAreNamed(funcs: seq<Func>, name: string)
    ensures (forall i :: 0 <= i < |funcs| ==> funcs[i].canonicalName != name) ==> CountName(RowsOf(funcs), name) == 0
  {
    if funcs == [] {
    } else {
      var init := funcs[..|funcs| - 1];
      RowsAreNamed(init, name);
      if forall i :: 0 <= i < |funcs| ==> funcs[i].canonicalName != name {
        assert forall i :: 0 <= i < |init| ==> init[i].canonicalName == funcs[i].canonicalName;
        CountSnoc(RowsOf(init), Row(funcs[|init|].addr, funcs[|init|].canonicalName,
                  CountName(RowsOf(init), funcs[|init|].canonicalName) + FirstNumber(funcs, funcs[|init|].canonicalName),
                  funcs[|init|].body), name);
      }
    }
  }

  lemma CountSnoc(rows: seq<Row>, row: Row, name: string)
    ensures CountName(rows + [row], name) == CountName(rows, name) + if row.name == name then 1 else 0
  {
    assert (rows + [row])[..|rows|] == rows;
  }

  /** A name that differs from the previous function's has no row yet, and its function
      does not fold. */
  lemma NewName(funcs: seq<Func>, i: nat)
    requires Contiguous(funcs) && NamedByKey(funcs) && i < |funcs|
    requires i > 0 ==> funcs[i - 1].canonicalName != funcs[i].canonicalName
    ensures CountName(RowsOf(funcs[..i]), funcs[i].canonicalName) == 0
    ensures !Folds(funcs[..i], funcs[i])
    ensures FirstNumber(funcs, funcs[i].canonicalName) == if i == 0 && funcs[i].canonicalName == "" then 1 else 0
  {
    forall j | 0 <= j < i
      ensures funcs[..i][j].canonicalName != funcs[i].canonicalName
    {
      assert funcs[i - 1].canonicalName == funcs[j].canonicalName || funcs[j].canonicalName != funcs[i].canonicalName;
    }
    RowsAreNamed(funcs[..i], funcs[i].canonicalName);
    assert FirstWith(funcs[..i], FuncKey(funcs[i])).None?;
  }

  /** The counts of written names. */
  ghost predicate Counted(rows: seq<Row>, counts: map<string, nat>) {
    forall name :: CountName(rows, name) == if name in counts then counts[name] else 0
  }

  function Bumped(counts: map<string, nat>, name: string): map<string, nat> {
    counts[name := (if name in counts then counts[name] else 0) + 1]
  }

  lemma CountedNext(rows: seq<Row>, counts: map<string, nat>, row: Row)
    requires Counted(rows, counts)
    ensures Counted(rows + [row], Bumped(counts, row.name))
  {
    forall name
      ensures CountName(rows + [row], name) == CountName(rows, name) + if row.name == name then 1 else 0
    {
      CountSnoc(rows, row, name);
    }
  }

  /** What the loop carries from function to function: the rows written, the counter, and
      the name of the last row. */
  datatype Loop = Loop(rows: seq<Row>, occurrence: int, previous: string)

  /** The counter is bumped for a repeated name and starts over for another one; a fold
      takes the bump back, but not the starting over. */
  function LoopNext(l: Loop, before: seq<Func>, f: Func): Loop {
    var occurrence := if l.previous == f.canonicalName then l.occurrence + 1 else 0;
    if Folds(before, f) then
      Loop(l.rows, if l.previous == f.canonicalName then occurrence - 1 else occurrence, l.previous)
    else
      Loop(l.rows + [Row(f.addr, f.canonicalName, occurrence, f.body)], occurrence, f.canonicalName)
  }

  function LoopOf(funcs: seq<Func>): Loop {
    if funcs == [] then Loop([], 0, "")
    else
      var init := funcs[..|funcs| - 1];
      LoopNext(LoopOf(init), init, funcs[|funcs| - 1])
  }

  /** Where the loop stands when equal names have arrived one after another. */
  ghost predicate LoopCounts(l: Loop, funcs: seq<Func>) {
    && l.rows == RowsOf(funcs)
    && l.previous == (if funcs == [] then "" else funcs[|funcs| - 1].canonicalName)
    && l.occurrence == if funcs == [] then 0 else CountName(l.rows, l.previous) + FirstNumber(funcs, l.previous) - 1
  }

  lemma ContiguousInit(funcs: seq<Func>)
    requires Contiguous(funcs) && NamedByKey(funcs) && funcs != []
    ensures Contiguous(funcs[..|funcs| - 1]) && NamedByKey(funcs[..|funcs| - 1])
  {
  }

  /** The name of function n is new, or the last row's. */
  lemma NameIsNewOrLast(funcs: seq<Func>, n: nat)
    requires Contiguous(funcs) && NamedByKey(funcs) && n + 1 == |funcs|
    ensures n == 0 || funcs[n - 1].canonicalName != funcs[n].canonicalName ==>
      && CountName(RowsOf(funcs[..n]), funcs[n].canonicalName) == 0 && !Folds(funcs[..n], funcs[n])
      && FirstNumber(funcs, funcs[n].canonicalName) == if n == 0 && funcs[n].canonicalName == "" then 1 else 0
    ensures n > 0 ==> FirstNumber(funcs[..n], funcs[n - 1].canonicalName) == FirstNumber(funcs, funcs[n - 1].canonicalName)
  {
    if n == 0 || funcs[n - 1].canonicalName != funcs[n].canonicalName {
      NewName(funcs, n);
    }
  }

  lemma LoopStepCounts(l: Loop, funcs: seq<Func>)
    requires Contiguous(funcs) && NamedByKey(funcs) && funcs != []
    requires LoopCounts(l, funcs[..|funcs| - 1])
    ensures var init, f := funcs[..|funcs| - 1], funcs[|funcs| - 1];
      LoopCounts(LoopNext(l, init, f), funcs)
  {
    hide RowsOf, CountName, Contiguous, NamedByKey, Folds, FirstNumber;
    var n := |funcs| - 1;
    var init, f := funcs[..n], funcs[n];
    NameIsNewOrLast(funcs, n);
    RowsNext(funcs, n);
    assert funcs[..n + 1] == funcs;
    var row := Row(f.addr, f.canonicalName, CountName(l.rows, f.canonicalName) + FirstNumber(funcs, f.canonicalName), f.body);
    CountSnoc(l.rows, row, f.canonicalName);
    if n == 0 {
      NoRows(funcs);
    } else {
      assert init[n - 1] == funcs[n - 1];
    }
  }

  /** On contiguous names the counter counts the rows of its name. */
  lemma {:induction false} LoopIsRows(funcs: seq<Func>)
    requires Contiguous(funcs) && NamedByKey(funcs)
    ensures LoopCounts(LoopOf(funcs), funcs)
  {
    if funcs == [] {
    } else {
      hide LoopCounts, LoopNext, LoopOf, Contiguous, NamedByKey;
      ContiguousInit(funcs);
      LoopIsRows(funcs[..|funcs| - 1]);
      LoopStep(funcs);
      LoopStepCounts(LoopOf(funcs[..|funcs| - 1]), funcs);
    }
  }

  lemma LoopStep(funcs: seq<Func>)
    requires funcs != []
    ensures var init := funcs[..|funcs| - 1];
      LoopOf(funcs) == LoopNext(LoopOf(init), init, funcs[|funcs| - 1])
  {
  }

  /** The loop over all functions, whatever the order of their names. */
  method ProcessFunctions(funcs: seq<Func>) returns (rows: seq<Row>, counts: map<string, nat>)
    ensures rows == LoopOf(funcs).rows
    ensures exists at :: AreRowsOf(funcs, at, rows)
    ensures Contiguous(funcs) && NamedByKey(funcs) ==> rows == RowsOf(funcs)
    ensures Counted(rows, counts)
  {
    hide FirstBody, RowsOf, CountName, Contiguous, NamedByKey, FirstNumber, FuncKey, FunctionDeduper.Valid, Counted, Bumped, LoopOf;
    var deduper := new FunctionDeduper();
    var occurrence, previous := 0, "";
    rows, counts := [], map[];
    NoRows(funcs);
    for i := 0 to |funcs|
      invariant deduper.Valid() && fresh(deduper) && deduper.history == funcs[..i]
      invariant LoopOf(funcs[..i]) == Loop(rows, occurrence, previous)
      invariant Counted(rows, counts)
    {
      var f := funcs[i];
      assert funcs[..i] + [f] == funcs[..i + 1];
      assert funcs[..i + 1][..i] == funcs[..i];
      LoopStep(funcs[..i + 1]);
      if previous == f.canonicalName {
        occurrence := occurrence + 1;
      } else {
        occurrence := 0;
      }
      var resolution := deduper.Resolve(f);
      if resolution.isDuplicate {
        if previous == f.canonicalName {
          occurrence := occurrence - 1;
        }
        continue;
      }
      var row := Row(f.addr, f.canonicalName, occurrence, f.body);
      CountedNext(rows, counts, row);
      rows := rows + [row];
      counts := Bumped(counts, f.canonicalName);
      previous := f.canonicalName;
    }
    assert funcs[..|funcs|] == funcs;
    RowsExactly(funcs);
    if Contiguous(funcs) && NamedByKey(funcs) {
      LoopIsRows(funcs);
    }
  }

  lemma LoopOfOne(f: Func)
    ensures LoopOf([f]) == LoopNext(Loop([], 0, ""), [], f) && !Folds([], f)
  {
    assert [f][..0] == [];
  }

  /** A first function without a name is numbered 1. */
  lemma EmptyFirstName()
    ensures var funcs := [Func(0, "", None, None, "", "body")];
      LoopOf(funcs).rows == [Row(0, "", 1, "body")] && !AllNumbered(LoopOf(funcs).rows)
  {
    LoopOfOne(Func(0, "", None, None, "", "body"));
    var rows := [Row(0, "", 1, "body")];
    assert rows[..0] == [];
    assert !Numbered(rows, 0);
  }

  /** A name that comes back after another one starts over: two rows with one number. */
  lemma ScatteredName()
    ensures var funcs := [Func(0, "a", None, None, "a", "1"), Func(1, "b", None, None, "b", "2"), Func(2, "a", None, None, "a", "3")];
      !Contiguous(funcs) && LoopOf(funcs).rows == [Row(0, "a", 0, "1"), Row(1, "b", 0, "2"), Row(2, "a", 0, "3")]
  {
    hide LoopOf, Folds, Contiguous;
    var f, g, h := Func(0, "a", None, None, "a", "1"), Func(1, "b", None, None, "b", "2"), Func(2, "a", None, None, "a", "3");
    NoneFolds(f, g, h);
    LoopOfOne(f);
    LoopStep([f, g]);
    LoopStep([f, g, h]);
    assert [f, g][..1] == [f] && [f, g, h][..2] == [f, g];
    assert "a"[0] != "b"[0];
    NotContiguous([f, g, h]);
  }

  lemma NotContiguous(funcs: seq<Func>)
    requires |funcs| == 3 && funcs[0].canonicalName == funcs[2].canonicalName != funcs[1].canonicalName
    ensures !Contiguous(funcs)
  {
  }

  lemma NoneFolds(f: Func, g: Func, h: Func)
    requires FuncKey(f) != FuncKey(g) && FuncKey(f) == FuncKey(h) && f.body != h.body
    ensures !Folds([f], g) && !Folds([f, g], h)
  {
    hide FirstBody, FuncKey;
    assert FirstBody([], FuncKey(f)).None? && FirstBody([], FuncKey(g)).None? by { NobodyFirst(FuncKey(f)); NobodyFirst(FuncKey(g)); }
    FirstBodySnoc([], f, FuncKey(f));
    FirstBodySnoc([], f, FuncKey(g));
    FirstBodySnoc([f], g, FuncKey(f));
    assert [] + [f] == [f] && [f] + [g] == [f, g];
  }

  lemma NobodyFirst(key: Key)
    ensures FirstBody([], key).None?
  {
  }

  lemma NoRows(funcs: seq<Func>)
    ensures RowsOf(funcs[..0]) == [] && LoopOf(funcs[..0]) == Loop([], 0, "") && Counted([], map[])
  {
  }

  lemma RowsNext(funcs: seq<Func>, i: nat)
    requires i < |funcs|
    ensures var rows, f := RowsOf(funcs[..i]), funcs[i];
      RowsOf(funcs[..i + 1])
      == if Folds(funcs[..i], f) then rows
         else rows + [Row(f.addr, f.canonicalName, CountName(rows, f.canonicalName) + FirstNumber(funcs, f.canonicalName), f.body)]
  {
    assert funcs[..i + 1][..i] == funcs[..i];
  }

  // ---- numbering ----

  /** Row r's occurrence is the number of rows of its name before it. */
  predicate Numbered(rows: seq<Row>, r: nat)
    requires r < |rows|
  {
    rows[r].occurrence == CountName(rows[..r], rows[r].name)
  }

  predicate AllNumbered(rows: seq<Row>) {
    forall r :: 0 <= r < |rows| ==> Numbered(rows, r)
  }

  lemma {:induction false} RowNumbers(funcs: seq<Func>, r: nat)
    requires r < |RowsOf(funcs)|
    ensures var rows := RowsOf(funcs);
      rows[r].occurrence == CountName(rows[..r], rows[r].name) + FirstNumber(funcs, rows[r].name)
  {
    var init := funcs[..|funcs| - 1];
    var rows := RowsOf(init);
    if r < |rows| {
      RowNumbers(init, r);
      assert RowsOf(funcs)[..r] == rows[..r];
    } else {
      assert RowsOf(funcs)[..r] == rows;
    }
  }

  /** The first function is always written. */
  lemma {:induction false} FirstIsWritten(funcs: seq<Func>)
    requires funcs != []
    ensures RowsOf(funcs) != [] && RowsOf(funcs)[0].name == funcs[0].canonicalName
  {
    if |funcs| == 1 {
      assert FirstWith([], FuncKey(funcs[0])).None?;
    } else {
      FirstIsWritten(funcs[..|funcs| - 1]);
    }
  }

  lemma RowsNumberedFromZero(funcs: seq<Func>)
    ensures AllNumbered(RowsOf(funcs)) <==> !(funcs != [] && funcs[0].canonicalName == "")
  {
    hide CountName, RowsOf;
    var rows := RowsOf(funcs);
    forall r | 0 <= r < |rows|
      ensures rows[r].occurrence == CountName(rows[..r], rows[r].name) + FirstNumber(funcs, rows[r].name)
    {
      RowNumbers(funcs, r);
    }
    if funcs == [] {
      NoRows(funcs);
      assert funcs[..0] == funcs;
    } else {
      FirstIsWritten(funcs);
      if funcs[0].canonicalName == "" {
        assert !Numbered(rows, 0);
      }
    }
  }

  /** With contiguous names the loop's occurrences run 0, 1, 2, ... for each name, exactly
      when the first function's canonical name is not empty. */
  lemma NumberedFromZero(funcs: seq<Func>)
    requires Contiguous(funcs) && NamedByKey(funcs)
    ensures AllNumbered(LoopOf(funcs).rows) <==> !(funcs != [] && funcs[0].canonicalName == "")
  {
    LoopIsRows(funcs);
    RowsNumberedFromZero(funcs);
  }

  // ---- numbering in any order ----

  predicate IsWritten(funcs: seq<Func>, i: nat)
    requires i < |funcs|
  {
    !Folds(funcs[..i], funcs[i])
  }

  function LastWritten(funcs: seq<Func>): (r: Option<nat>)
    ensures r.Some? ==> r.value < |funcs|
  {
    if funcs == [] then None
    else
      var n := |funcs| - 1;
      if IsWritten(funcs, n) then Some(n) else LastWritten(funcs[..n])
  }

  /** A function of another name comes behind function p. */
  predicate Interrupted(funcs: seq<Func>, p: nat)
    requires p < |funcs|
  {
    exists m :: p < m < |funcs| && funcs[m].canonicalName != funcs[p].canonicalName
  }

  predicate HasRow(funcs: seq<Func>, name: string) {
    exists j :: 0 <= j < |funcs| && IsWritten(funcs, j) && funcs[j].canonicalName == name
  }

  /** Function i follows a row of its own name with no other name folded in between, unless
      that row is the name's first; or its name has no row yet. The very first function
      has a name. */
  predicate InPlace(funcs: seq<Func>, i: nat)
    requires i < |funcs|
  {
    var before, name := funcs[..i], funcs[i].canonicalName;
    var last := LastWritten(before);
    if last.None? then name != ""
    else if before[last.value].canonicalName == name then
      !Interrupted(before, last.value) || !HasRow(before[..last.value], name)
    else !HasRow(before, name)
  }

  predicate AllInPlace(funcs: seq<Func>) {
    forall i :: 0 <= i < |funcs| && IsWritten(funcs, i) ==> InPlace(funcs, i)
  }

  lemma HasRowNext(funcs: seq<Func>, name: string)
    requires funcs != []
    ensures var init, n := funcs[..|funcs| - 1], |funcs| - 1;
      HasRow(funcs, name) <==> HasRow(init, name) || (IsWritten(funcs, n) && funcs[n].canonicalName == name)
  {
    hide Folds;
    var init := funcs[..|funcs| - 1];
    forall j | 0 <= j < |init|
      ensures IsWritten(init, j) == IsWritten(funcs, j) && init[j] == funcs[j]
    {
      assert init[..j] == funcs[..j];
    }
  }

  lemma InPlaceNext(funcs: seq<Func>)
    requires funcs != []
    ensures var n := |funcs| - 1;
      AllInPlace(funcs) <==> AllInPlace(funcs[..n]) && (IsWritten(funcs, n) ==> InPlace(funcs, n))
  {
    hide Folds, LastWritten, Interrupted, HasRow;
    var init := funcs[..|funcs| - 1];
    forall j | 0 <= j < |init|
      ensures IsWritten(init, j) == IsWritten(funcs, j) && InPlace(init, j) == InPlace(funcs, j)
    {
      assert init[..j] == funcs[..j] && init[j] == funcs[j];
    }
  }

  lemma InterruptedNext(funcs: seq<Func>, p: nat)
    requires p + 1 < |funcs|
    ensures var n := |funcs| - 1;
      Interrupted(funcs, p) <==> Interrupted(funcs[..n], p) || funcs[n].canonicalName != funcs[p].canonicalName
  {
  }

  /** What the loop carries, in terms of the functions: the last row is that of the last
      written function, and the counter is its number, or 0 once another name interrupted. */
  ghost predicate Tracks(l: Loop, funcs: seq<Func>) {
    var last := LastWritten(funcs);
    && (last.None? <==> funcs == [])
    && (last.None? ==> l == Loop([], 0, ""))
    && (last.Some? ==>
          var p, n := last.value, |l.rows| - 1;
          && l.rows != [] && l.rows[..n] == LoopOf(funcs[..p]).rows
          && l.rows[n].name == l.previous == funcs[p].canonicalName
          && l.occurrence == if Interrupted(funcs, p) then 0 else l.rows[n].occurrence)
  }

  lemma NeverFoldsFirst(f: Func)
    ensures !Folds([], f)
  {
    NobodyFirst(FuncKey(f));
  }

  lemma WrittenTracks(funcs: seq<Func>)
    requires funcs != [] && IsWritten(funcs, |funcs| - 1)
    ensures Tracks(LoopOf(funcs), funcs)
  {
    hide LoopOf, Folds, Interrupted;
    LoopStep(funcs);
    NothingBehind(funcs);
  }

  lemma FoldedTracks(funcs: seq<Func>)
    requires |funcs| > 1 && !IsWritten(funcs, |funcs| - 1)
    requires Tracks(LoopOf(funcs[..|funcs| - 1]), funcs[..|funcs| - 1])
    ensures Tracks(LoopOf(funcs), funcs)
  {
    hide LoopOf, Folds, Interrupted;
    var init := funcs[..|funcs| - 1];
    var p := LastWritten(init).value;
    LoopStep(funcs);
    InterruptedNext(funcs, p);
    assert init[..p] == funcs[..p];
  }

  lemma {:induction false} LoopTracks(funcs: seq<Func>)
    ensures Tracks(LoopOf(funcs), funcs)
  {
    if funcs == [] {
    } else {
      hide LoopOf, Folds, Interrupted, LastWritten, Tracks;
      var n := |funcs| - 1;
      LoopTracks(funcs[..n]);
      if n == 0 {
        NeverFoldsFirst(funcs[0]);
        assert funcs[..0] == [];
      }
      if IsWritten(funcs, n) {
        WrittenTracks(funcs);
      } else {
        FoldedTracks(funcs);
      }
    }
  }

  // ---- the rows, over the functions' fields ----

  /** An earlier function is the first of the same identity and has the same body. */
  predicate Repeats(funcs: seq<Func>, i: nat)
    requires i < |funcs|
  {
    exists j :: 0 <= j < i && SameIdentity(funcs[j], funcs[i]) && IsFirst(funcs, j) && funcs[j].body == funcs[i].body
  }

  lemma WrittenByFields(funcs: seq<Func>, i: nat)
    requires i < |funcs|
    ensures IsWritten(funcs, i) <==> !Repeats(funcs, i)
  {
    hide SameIdentity, FirstBody;
    FoldsByFields(funcs[..i], funcs[i]);
    forall j | 0 <= j < i
      ensures IsFirst(funcs[..i], j) <==> IsFirst(funcs, j)
    {
      assert forall k :: 0 <= k <= j ==> funcs[..i][k] == funcs[k];
    }
  }

  /** Row k holds function at[k]; its number counts on from the row before, from 0 behind a
      function of another name that was folded since, and starts at 0 for another name. */
  predicate RowIs(funcs: seq<Func>, at: seq<nat>, rows: seq<Row>, k: nat)
    requires k < |at| == |rows| && at[k] < |funcs|
  {
    var row, f := rows[k], funcs[at[k]];
    && row.addr == f.addr && row.name == f.canonicalName && row.body == f.body
    && row.occurrence ==
       if k == 0 then (if row.name == "" then 1 else 0)
       else if rows[k - 1].name != row.name then 0
       else if exists m :: at[k - 1] < m < at[k] && funcs[m].canonicalName != row.name then 1
       else rows[k - 1].occurrence + 1
  }

  /** The rows are those of the functions `at`: in order, all that do not repeat. */
  ghost predicate AreRowsOf(funcs: seq<Func>, at: seq<nat>, rows: seq<Row>) {
    && |at| == |rows|
    && (forall k, l :: 0 <= k < l < |at| ==> at[k] < at[l])
    && (forall i: nat :: i in at <==> i < |funcs| && !Repeats(funcs, i))
    && forall k :: 0 <= k < |at| ==> at[k] < |funcs| && RowIs(funcs, at, rows, k)
  }

  function WrittenAt(funcs: seq<Func>): (at: seq<nat>)
    ensures forall k :: 0 <= k < |at| ==> at[k] < |funcs|
    ensures at == [] <==> LastWritten(funcs).None?
    ensures at != [] ==> LastWritten(funcs) == Some(at[|at| - 1])
  {
    if funcs == [] then []
    else
      var n := |funcs| - 1;
      if IsWritten(funcs, n) then WrittenAt(funcs[..n]) + [n] else WrittenAt(funcs[..n])
  }

  lemma {:induction false} WrittenHas(funcs: seq<Func>, i: nat)
    ensures i in WrittenAt(funcs) <==> i < |funcs| && IsWritten(funcs, i)
  {
    if funcs == [] {
    } else {
      var n := |funcs| - 1;
      WrittenHas(funcs[..n], i);
      hide IsWritten;
      if i < n {
        SameWritten(funcs, n, i);
      }
    }
  }

  lemma {:induction false} WrittenSorted(funcs: seq<Func>)
    ensures forall k, l :: 0 <= k < l < |WrittenAt(funcs)| ==> WrittenAt(funcs)[k] < WrittenAt(funcs)[l]
  {
    if funcs == [] {
    } else {
      hide IsWritten, LastWritten;
      WrittenSorted(funcs[..|funcs| - 1]);
    }
  }

  lemma SameWritten(funcs: seq<Func>, n: nat, i: nat)
    requires i < n <= |funcs|
    ensures IsWritten(funcs[..n], i) == IsWritten(funcs, i)
  {
    assert funcs[..n][..i] == funcs[..i];
  }

  lemma {:induction false} RowAt(funcs: seq<Func>, k: nat)
    ensures |WrittenAt(funcs)| == |LoopOf(funcs).rows|
    ensures k < |WrittenAt(funcs)| ==> RowIs(funcs, WrittenAt(funcs), LoopOf(funcs).rows, k)
  {
    if funcs == [] {
    } else {
      hide LoopOf, WrittenAt, RowIs, IsWritten;
      var n := |funcs| - 1;
      var at, rows := WrittenAt(funcs[..n]), LoopOf(funcs[..n]).rows;
      RowAt(funcs[..n], k);
      WrittenStep(funcs);
      if k < |at| {
        RowStays(funcs, at, rows, WrittenAt(funcs), LoopOf(funcs).rows, k);
      } else if k < |WrittenAt(funcs)| {
        LastRow(funcs);
      }
    }
  }

  lemma WrittenStep(funcs: seq<Func>)
    requires funcs != []
    ensures var n := |funcs| - 1;
      var at, rows := WrittenAt(funcs[..n]), LoopOf(funcs[..n]).rows;
      if IsWritten(funcs, n) then
        && WrittenAt(funcs) == at + [n]
        && |LoopOf(funcs).rows| == |rows| + 1 && rows <= LoopOf(funcs).rows
      else WrittenAt(funcs) == at && LoopOf(funcs).rows == rows
  {
    hide LastWritten;
    LoopStep(funcs);
  }

  lemma LastRow(funcs: seq<Func>)
    requires funcs != [] && IsWritten(funcs, |funcs| - 1)
    requires |WrittenAt(funcs[..|funcs| - 1])| == |LoopOf(funcs[..|funcs| - 1]).rows|
    ensures |WrittenAt(funcs)| == |LoopOf(funcs).rows| > 0
    ensures RowIs(funcs, WrittenAt(funcs), LoopOf(funcs).rows, |LoopOf(funcs).rows| - 1)
  {
    hide LoopOf, WrittenAt, LastWritten, Folds;
    var n := |funcs| - 1;
    var init := funcs[..n];
    WrittenStep(funcs);
    LoopStep(funcs);
    LoopTracks(init);
    if LastWritten(init).Some? {
      var p, name := LastWritten(init).value, funcs[n].canonicalName;
      assert init[p].canonicalName == name ==>
        (Interrupted(init, p) <==> exists m :: p < m < n && funcs[m].canonicalName != name);
    }
  }

  lemma RowStays(funcs: seq<Func>, at: seq<nat>, rows: seq<Row>, atAfter: seq<nat>, rowsAfter: seq<Row>, k: nat)
    requires funcs != [] && k < |at| == |rows| && |atAfter| == |rowsAfter| && at <= atAfter && rows <= rowsAfter
    requires at[k] < |funcs| - 1 && RowIs(funcs[..|funcs| - 1], at, rows, k)
    ensures RowIs(funcs, atAfter, rowsAfter, k)
  {
  }

  /** What the loop writes for functions in any order, field by field. */
  lemma RowsExactly(funcs: seq<Func>)
    ensures AreRowsOf(funcs, WrittenAt(funcs), LoopOf(funcs).rows)
  {
    hide LoopOf, WrittenAt, Repeats, RowIs, IsWritten;
    WrittenSorted(funcs);
    RowAt(funcs, 0);
    forall k | 0 <= k < |WrittenAt(funcs)|
      ensures RowIs(funcs, WrittenAt(funcs), LoopOf(funcs).rows, k)
    {
      RowAt(funcs, k);
    }
    forall i: nat
      ensures i in WrittenAt(funcs) <==> i < |funcs| && !Repeats(funcs, i)
    {
      WrittenHas(funcs, i);
      if i < |funcs| {
        WrittenByFields(funcs, i);
      }
    }
  }

  lemma NothingBehind(funcs: seq<Func>)
    requires funcs != []
    ensures !Interrupted(funcs, |funcs| - 1)
  {
  }

  lemma {:induction false} RowsCounted(funcs: seq<Func>, name: string)
    ensures CountName(LoopOf(funcs).rows, name) > 0 <==> HasRow(funcs, name)
  {
    if funcs == [] {
    } else {
      hide LoopOf, Folds, HasRow, CountName;
      var n := |funcs| - 1;
      RowsCounted(funcs[..n], name);
      LoopStep(funcs);
      HasRowNext(funcs, name);
      if IsWritten(funcs, n) {
        var l := LoopOf(funcs[..n]);
        CountSnoc(l.rows, LoopOf(funcs).rows[|l.rows|], name);
      }
    }
  }

  lemma NumberedNext(rows: seq<Row>, row: Row)
    ensures AllNumbered(rows + [row]) <==> AllNumbered(rows) && row.occurrence == CountName(rows, row.name)
  {
    hide CountName;
    var all := rows + [row];
    assert all[..|rows|] == rows;
    forall r | 0 <= r < |rows|
      ensures Numbered(all, r) == Numbered(rows, r)
    {
      assert all[..r] == rows[..r];
    }
    assert Numbered(all, |rows|) <==> row.occurrence == CountName(rows, row.name);
  }

  /** The number the next row gets is right exactly when its function is in place. */
  lemma NumberIsRight(funcs: seq<Func>)
    requires funcs != [] && IsWritten(funcs, |funcs| - 1)
    requires AllNumbered(LoopOf(funcs[..|funcs| - 1]).rows)
    ensures var n := |funcs| - 1;
      var l, name := LoopOf(funcs[..n]), funcs[n].canonicalName;
      (if l.previous == name then l.occurrence + 1 else 0) == CountName(l.rows, name) <==> InPlace(funcs, n)
  {
    hide LoopOf, Folds, Interrupted, HasRow, CountName, LastWritten;
    var n := |funcs| - 1;
    var init, name := funcs[..n], funcs[n].canonicalName;
    var l := LoopOf(init);
    LoopTracks(init);
    RowsCounted(init, name);
    var last := LastWritten(init);
    if last.None? {
      assert CountName([], name) == 0 by { NoneCounted(name); }
    } else {
      var k := |l.rows| - 1;
      SplitLast(l.rows);
      CountSnoc(l.rows[..k], l.rows[k], name);
      assert Numbered(l.rows, k);
      RowsCounted(init[..last.value], name);
    }
  }

  lemma NoneCounted(name: string)
    ensures CountName([], name) == 0
  {
  }

  /** For functions in any order: occurrences run 0, 1, 2, ... for each name exactly when
      every written function is in place. */
  lemma {:induction false} NumberedExactly(funcs: seq<Func>)
    ensures AllNumbered(LoopOf(funcs).rows) <==> AllInPlace(funcs)
  {
    if funcs == [] {
    } else {
      hide LoopOf, Folds, AllNumbered, InPlace, CountName, AllInPlace;
      var n := |funcs| - 1;
      var init, f := funcs[..n], funcs[n];
      var l := LoopOf(init);
      NumberedExactly(init);
      LoopStep(funcs);
      InPlaceNext(funcs);
      if IsWritten(funcs, n) {
        NumberedNext(l.rows, LoopOf(funcs).rows[|l.rows|]);
        if AllNumbered(l.rows) {
          NumberIsRight(funcs);
        }
      }
    }
  }

  lemma FirstBodies(b: Func, a1: Func, a2: Func)
    requires FuncKey(a1) == FuncKey(a2) != FuncKey(b)
    ensures FirstBody([b], FuncKey(a1)).None?
    ensures FirstBody([b, a1], FuncKey(a1)) == Some(a1.body)
    ensures FirstBody([b, a1, a2], FuncKey(b)) == Some(b.body)
    ensures FirstBody([b, a1, a2, b], FuncKey(a1)) == Some(a1.body)
  {
    hide FirstBody, FuncKey;
    forall key | key == FuncKey(a1) || key == FuncKey(b)
      ensures FirstBody([b], key) == if key == FuncKey(b) then Some(b.body) else None
      ensures FirstBody([b, a1, a2, b], key) == FirstBody([b, a1, a2], key) == FirstBody([b, a1], key)
              == Some(if key == FuncKey(b) then b.body else a1.body)
    {
      NobodyFirst(key);
      FirstBodySnoc([], b, key);
      FirstBodySnoc([b], a1, key);
      FirstBodySnoc([b, a1], a2, key);
      FirstBodySnoc([b, a1, a2], b, key);
      assert [] + [b] == [b] && [b] + [a1] == [b, a1] && [b, a1] + [a2] == [b, a1, a2] && [b, a1, a2] + [b] == [b, a1, a2, b];
    }
  }

  /** A function of another name that is folded between the second and the third row of a
      name: the third row repeats the second one's number. */
  lemma FoldStartsOver(b: Func, a1: Func, a2: Func, a3: Func)
    requires FuncKey(a1) == FuncKey(a2) == FuncKey(a3) != FuncKey(b) && a2.body != a1.body && a3.body != a1.body
    requires a1.canonicalName == a2.canonicalName == a3.canonicalName != b.canonicalName && b.canonicalName != ""
    ensures LoopOf([b, a1, a2, b, a3]).rows
            == [Row(b.addr, b.canonicalName, 0, b.body), Row(a1.addr, a1.canonicalName, 0, a1.body),
                Row(a2.addr, a2.canonicalName, 1, a2.body), Row(a3.addr, a3.canonicalName, 1, a3.body)]
  {
    hide LoopOf, FirstBody, FuncKey;
    FirstBodies(b, a1, a2);
    LoopOfOne(b);
    LoopStep([b, a1]);
    LoopStep([b, a1, a2]);
    LoopStep([b, a1, a2, b]);
    LoopStep([b, a1, a2, b, a3]);
    assert [b, a1][..1] == [b] && [b, a1, a2][..2] == [b, a1] && [b, a1, a2, b][..3] == [b, a1, a2];
    assert [b, a1, a2, b, a3][..4] == [b, a1, a2, b];
  }

  // ---- the address map ----

  /** Row r is the last row with its address whose name was written more than once. */
  predicate Decides(rows: seq<Row>, n: nat, r: nat)
    requires n <= |rows|
  {
    && r < n && CountName(rows, rows[r].name) > 1
    && forall q :: r < q < n && rows[q].addr == rows[r].addr ==> CountName(rows, rows[q].name) <= 1
  }

  /** The map of the first n rows: addresses of multiply-written names only, and the last
      row of an address decides. */
  ghost predicate MapsTo(m: map<int, int>, rows: seq<Row>, n: nat)
    requires n <= |rows|
  {
    && (forall a :: a in m ==> exists r :: 0 <= r < n && Decides(rows, n, r) && rows[r].addr == a)
    && (forall r :: 0 <= r < n && CountName(rows, rows[r].name) > 1 ==> rows[r].addr in m)
    && forall r :: 0 <= r < n && Decides(rows, n, r) ==> rows[r].addr in m && m[rows[r].addr] == rows[r].occurrence
  }

  /** Row n takes over from an earlier row with its address, if its name was written more
      than once. */
  lemma DecidesNext(rows: seq<Row>, n: nat, r: nat)
    requires n < |rows| && r <= n
    ensures var takesOver := CountName(rows, rows[n].name) > 1;
      && (r < n ==> (Decides(rows, n + 1, r) <==> Decides(rows, n, r) && !(takesOver && rows[n].addr == rows[r].addr)))
      && (Decides(rows, n + 1, n) <==> takesOver)
  {
    hide CountName;
  }

  lemma MapsNext(m: map<int, int>, rows: seq<Row>, n: nat)
    requires n < |rows| && MapsTo(m, rows, n)
    ensures CountName(rows, rows[n].name) <= 1 ==> MapsTo(m, rows, n + 1)
    ensures CountName(rows, rows[n].name) > 1 ==> MapsTo(m[rows[n].addr := rows[n].occurrence], rows, n + 1)
  {
    hide CountName, Decides;
    var takesOver, addr := CountName(rows, rows[n].name) > 1, rows[n].addr;
    var next := if takesOver then m[addr := rows[n].occurrence] else m;
    forall a | a in next
      ensures exists r :: 0 <= r < n + 1 && Decides(rows, n + 1, r) && rows[r].addr == a
    {
      if takesOver && a == addr {
        DecidesNext(rows, n, n);
      } else {
        var r :| 0 <= r < n && Decides(rows, n, r) && rows[r].addr == a;
        DecidesNext(rows, n, r);
      }
    }
    forall r | 0 <= r < n + 1 && Decides(rows, n + 1, r)
      ensures rows[r].addr in next && next[rows[r].addr] == rows[r].occurrence
    {
      DecidesNext(rows, n, r);
    }
  }

  /** Addresses of multiply-written names only; the last row of an address decides. */
  method AddrToOccurrence(rows: seq<Row>, counts: map<string, nat>) returns (m: map<int, int>)
    requires Counted(rows, counts)
    ensures forall a :: a in m ==> exists r :: 0 <= r < |rows| && Decides(rows, |rows|, r) && rows[r].addr == a
    ensures forall r :: 0 <= r < |rows| && CountName(rows, rows[r].name) > 1 ==> rows[r].addr in m
    ensures forall r :: 0 <= r < |rows| && Decides(rows, |rows|, r) ==> m[rows[r].addr] == rows[r].occurrence
  {
    m := map[];
    for i := 0 to |rows|
      invariant MapsTo(m, rows, i)
    {
      hide CountName, MapsTo, Decides;
      MapsNext(m, rows, i);
      assert CountName(rows, rows[i].name) == if rows[i].name in counts then counts[rows[i].name] else 0;
      if rows[i].name in counts && counts[rows[i].name] > 1 {
        m := m[rows[i].addr := rows[i].occurrence];
      }
    }
  }

  predicate DistinctAddrs(rows: seq<Row>) {
    forall i, j :: 0 <= i < j < |rows| ==> rows[i].addr != rows[j].addr
  }

  predicate DistinctFuncs(funcs: seq<Func>) {
    forall i, j :: 0 <= i < j < |funcs| ==> funcs[i].addr != funcs[j].addr
  }

  predicate HasAddr(funcs: seq<Func>, addr: int) {
    exists i :: 0 <= i < |funcs| && funcs[i].addr == addr
  }

  lemma {:induction false} RowsFromFuncs(funcs: seq<Func>)
    requires DistinctFuncs(funcs)
    ensures forall r :: 0 <= r < |RowsOf(funcs)| ==> HasAddr(funcs, RowsOf(funcs)[r].addr)
    ensures DistinctAddrs(RowsOf(funcs))
  {
    if funcs == [] {
    } else {
      var init, f := funcs[..|funcs| - 1], funcs[|funcs| - 1];
      RowsFromFuncs(init);
      var rows, all := RowsOf(init), RowsOf(funcs);
      assert funcs[|init|].addr == f.addr;
      forall r | 0 <= r < |rows|
        ensures HasAddr(funcs, rows[r].addr) && rows[r].addr != f.addr
      {
        assert HasAddr(init, rows[r].addr);
        var i :| 0 <= i < |init| && init[i].addr == rows[r].addr;
        assert funcs[i].addr == rows[r].addr;
      }
      assert all == rows || (|all| == |rows| + 1 && all[..|rows|] == rows && all[|rows|].addr == f.addr);
    }
  }

  /** With distinct addresses the row of every body of a multiply-written name decides
      for its own address. */
  lemma EveryRowDecides(funcs: seq<Func>, r: nat)
    requires DistinctFuncs(funcs) && r < |RowsOf(funcs)|
    ensures Decides(RowsOf(funcs), |RowsOf(funcs)|, r) <==> CountName(RowsOf(funcs), RowsOf(funcs)[r].name) > 1
  {
    hide RowsOf, CountName;
    RowsFromFuncs(funcs);
  }
}
