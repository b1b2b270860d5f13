/** The deduplicating string file: one escaped line per distinct string and encoding. */
module StringSidecar {
  import opened TokenSeqs
  import opened Results
  import opened BitStrings
  import opened LineEscapes

  /** What a line is registered under. */
  datatype Entry = Entry(raw: seq<int>, encoding: string)

  predicate IsEntry(e: Entry) { IsBytes(e.raw) }

  predicate Entries(es: seq<Entry>) {
    forall i :: 0 <= i < |es| ==> IsEntry(es[i])
  }

  predicate Distinct(es: seq<Entry>) {
    forall i, j :: 0 <= i < j < |es| ==> es[i] != es[j]
  }

  /** The file that holds these entries, one line each. */
  function FileOf(es: seq<Entry>): seq<int>
    requires Entries(es)
  {
    if es == [] then [] else Escaped(es[0].raw) + [LINE_SEP] + FileOf(es[1..])
  }

  lemma {:induction false} FileOfSnoc(es: seq<Entry>, e: Entry)
    requires Entries(es) && IsEntry(e)
    ensures FileOf(es + [e]) == FileOf(es) + Escaped(e.raw) + [LINE_SEP]
  {
    hide Escaped;
    if es == [] {
      assert es + [e] == [e] && [e][1..] == [];
      assert FileOf([e]) == Escaped(e.raw) + [LINE_SEP] + FileOf([]);
    } else {
      FileOfSnoc(es[1..], e);
      assert (es + [e])[1..] == es[1..] + [e];
      assert FileOf(es + [e]) == Escaped(es[0].raw) + [LINE_SEP] + FileOf(es[1..] + [e]);
    }
  }

  class StringSidecar {
    var file: seq<int>
    var open: bool
    var dedup: map<Entry, nat>
    var nextLine: nat
    ghost var entries: seq<Entry>

    ghost predicate Valid()
      reads this
    {
      && Entries(entries) && Distinct(entries)
      && file == FileOf(entries) && nextLine == |entries|
      && (forall e :: e in dedup ==> dedup[e] < |entries| && entries[dedup[e]] == e)
      && (forall i :: 0 <= i < |entries| ==> entries[i] in dedup && dedup[entries[i]] == i)
    }

    constructor ()
      ensures Valid() && open && entries == []
    {
      file, open, dedup, nextLine, entries := [], true, map[], 0, [];
    }

    /** Registers a string and returns its line; a repeated one writes nothing. */
    method Add(raw: seq<int>, encoding: string) returns (r: Result<nat>)
      requires Valid() && IsBytes(raw)
      modifies this
      ensures Valid() && open == old(open)
      ensures r.Ok? <==> old(open)
      ensures r.Err? ==> entries == old(entries)
      ensures r.Ok? ==> entries == Registered(old(entries), Entry(raw, encoding))
      ensures r.Ok? ==> r.value < |entries| && entries[r.value] == Entry(raw, encoding)
    {
      hide Escaped, FileOf, IsBytes;
      if !open {
        return Err("StringSidecar is closed");
      }
      var key := Entry(raw, encoding);
      if key in dedup {
        return Ok(dedup[key]);
      }
      var escaped := EscapeLine(raw);
      EscapedIsOneLine(raw);
      assert LINE_SEP !in escaped;
      var line := nextLine;
      FileOfSnoc(entries, key);
      file := file + escaped;
      file := file + [LINE_SEP];
      dedup := dedup[key := line];
      nextLine := nextLine + 1;
      entries := entries + [key];
      return Ok(line);
    }

    /** Closing twice is allowed; nothing can be added afterwards. */
    method Close()
      requires Valid()
      modifies this
      ensures Valid() && !open && entries == old(entries) && file == old(file)
    {
      open := false;
    }
  }

  function Registered(es: seq<Entry>, e: Entry): seq<Entry> {
    if e in es then es else es + [e]
  }

  // ---- reading ----

  /** Where the first separator at or behind i is, or the end of the file. */
  function LineEnd(file: seq<int>, i: nat): (end: nat)
    requires i <= |file|
    ensures i <= end <= |file|
    ensures LINE_SEP !in file[i..end]
    ensures end < |file| ==> file[end] == LINE_SEP
    decreases |file| - i
  {
    if i == |file| || file[i] == LINE_SEP then i
    else
      var end := LineEnd(file, i + 1);
      assert file[i..end] == [file[i]] + file[i + 1..end];
      end
  }

  /** The chunks between separators from position i; nothing comes behind a last one. */
  function LinesFrom(file: seq<int>, i: nat): seq<seq<int>>
    requires i <= |file|
    decreases |file| - i
  {
    if i == |file| then []
    else
      var end := LineEnd(file, i);
      [file[i..end]] + if end == |file| then [] else LinesFrom(file, end + 1)
  }

  /** Line k from position i on: lines in front of it must be well formed too. */
  function LineAt(file: seq<int>, i: nat, k: nat): Result<seq<int>>
    requires i <= |file|
    decreases |file| - i
  {
    if i == |file| then Err("line_index out of range for sidecar")
    else
      var end := LineEnd(file, i);
      var line := Unescaped(file[i..end]);
      if line.Err? || k == 0 then line
      else if end == |file| then Err("line_index out of range for sidecar")
      else LineAt(file, end + 1, k - 1)
  }

  /** All lines up to k are well formed. */
  predicate WellFormedTo(lines: seq<seq<int>>, k: nat) {
    k < |lines| && forall j :: 0 <= j <= k ==> Unescaped(lines[j]).Ok?
  }

  lemma WellFormedCons(line: seq<int>, rest: seq<seq<int>>, k: nat)
    ensures WellFormedTo([line] + rest, 0) <==> Unescaped(line).Ok?
    ensures k > 0 ==> (WellFormedTo([line] + rest, k) <==> Unescaped(line).Ok? && WellFormedTo(rest, k - 1))
  {
    hide Unescaped;
    var lines := [line] + rest;
    assert lines[0] == line;
    if k > 0 && Unescaped(line).Ok? && WellFormedTo(rest, k - 1) {
      forall j | 0 <= j <= k
        ensures Unescaped(lines[j]).Ok?
      {
        assert j > 0 ==> lines[j] == rest[j - 1];
      }
    }
    if k > 0 && WellFormedTo(lines, k) {
      forall j | 0 <= j <= k - 1
        ensures Unescaped(rest[j]).Ok?
      {
        assert lines[j + 1] == rest[j];
      }
    }
  }

  /** Line k is read exactly when it exists and it and all lines before it are well formed. */
  lemma {:induction false} LineAtReads(file: seq<int>, i: nat, k: nat)
    requires i <= |file|
    ensures LineAt(file, i, k).Ok? <==> WellFormedTo(LinesFrom(file, i), k)
    ensures LineAt(file, i, k).Ok? ==> LineAt(file, i, k) == Unescaped(LinesFrom(file, i)[k])
    decreases |file| - i
  {
    hide Unescaped, WellFormedTo, LineEnd, LineAt, LinesFrom;
    OneChunk(file, i, k);
    if i < |file| {
      var end := LineEnd(file, i);
      var rest := if end == |file| then [] else LinesFrom(file, end + 1);
      WellFormedCons(file[i..end], rest, k);
      NoLine(rest, k);
      if end < |file| && k > 0 {
        LineAtReads(file, end + 1, k - 1);
      }
    } else {
      NoLine([], k);
    }
  }

  /** The first chunk from position i, for the lines and for the reading. */
  lemma OneChunk(file: seq<int>, i: nat, k: nat)
    requires i <= |file|
    ensures i == |file| ==> LinesFrom(file, i) == [] && LineAt(file, i, k).Err?
    ensures i < |file| ==>
      var end := LineEnd(file, i);
      var line := Unescaped(file[i..end]);
      && LinesFrom(file, i) == [file[i..end]] + (if end == |file| then [] else LinesFrom(file, end + 1))
      && (line.Err? || k == 0 ==> LineAt(file, i, k) == line)
      && (line.Ok? && k > 0 && end == |file| ==> LineAt(file, i, k).Err?)
      && (line.Ok? && k > 0 && end < |file| ==> LineAt(file, i, k) == LineAt(file, end + 1, k - 1))
  {
    hide Unescaped, LineEnd;
  }

  lemma NoLine(lines: seq<seq<int>>, k: nat)
    ensures lines == [] ==> !WellFormedTo(lines, k) && (k > 0 ==> !WellFormedTo(lines, k - 1))
    ensures WellFormedTo(lines, k) ==> k < |lines|
    ensures k > 0 && WellFormedTo(lines, k - 1) ==> k - 1 < |lines|
  {
  }

  method ReadSidecarLine(file: seq<int>, lineIndex: int) returns (r: Result<seq<int>>)
    ensures r == if lineIndex < 0 then Err("negative line_index") else LineAt(file, 0, lineIndex)
  {
    if lineIndex < 0 {
      return Err("negative line_index");
    }
    var at, idx := 0, 0;
    while at < |file|
      invariant 0 <= at <= |file| && 0 <= idx <= lineIndex
      invariant LineAt(file, 0, lineIndex) == LineAt(file, at, lineIndex - idx)
      decreases |file| - at
    {
      var end := at;
      while end < |file| && file[end] != LINE_SEP
        invariant at <= end <= |file| && LineEnd(file, at) == LineEnd(file, end)
      {
        end := end + 1;
      }
      var line := UnescapeLine(file[at..end]);
      if line.Err? || idx == lineIndex {
        return line;
      }
      if end == |file| {
        return Err("line_index out of range for sidecar");
      }
      at, idx := end + 1, idx + 1;
    }
    return Err("line_index out of range for sidecar");
  }

  // ---- whole runs ----

  function EscapedLines(es: seq<Entry>): seq<seq<int>>
    requires Entries(es)
  {
    seq(|es|, i requires 0 <= i < |es| => Escaped(es[i].raw))
  }

  /** A separator with none before it is where the line ends. */
  lemma LineEndIs(file: seq<int>, i: nat, end: nat)
    requires i <= end < |file| && LINE_SEP !in file[i..end] && file[end] == LINE_SEP
    ensures LineEnd(file, i) == end
  {
  }

  lemma FirstSeparator(before: seq<int>, line: seq<int>, rest: seq<int>)
    requires LINE_SEP !in line
    ensures var file := before + line + ([LINE_SEP] + rest);
      && LineEnd(file, |before|) == |before| + |line| < |file|
      && file[|before|..|before| + |line|] == line
  {
    hide LineEnd;
    var file := before + line + ([LINE_SEP] + rest);
    MiddleSlice(before, line, [LINE_SEP] + rest);
    assert file[|before + line|] == ([LINE_SEP] + rest)[0];
    LineEndIs(file, |before|, |before| + |line|);
  }

  lemma OneLine(file: seq<int>, i: nat, end: nat)
    requires i <= end < |file| && LineEnd(file, i) == end
    ensures LinesFrom(file, i) == [file[i..end]] + LinesFrom(file, end + 1)
  {
  }

  /** One line, and the lines of the rest. */
  lemma FirstLine(before: seq<int>, line: seq<int>, rest: seq<int>)
    requires LINE_SEP !in line
    ensures var file := before + line + [LINE_SEP] + rest;
      LinesFrom(file, |before|) == [line] + LinesFrom(file, |before + line + [LINE_SEP]|)
  {
    hide LineEnd, LinesFrom;
    AppendAssoc(before + line, [LINE_SEP], rest);
    FirstSeparator(before, line, rest);
    OneLine(before + line + [LINE_SEP] + rest, |before|, |before| + |line|);
  }

  lemma FirstEntry(es: seq<Entry>)
    requires Entries(es) && es != []
    ensures EscapedLines(es) == [Escaped(es[0].raw)] + EscapedLines(es[1..])
    ensures FileOf(es) == Escaped(es[0].raw) + [LINE_SEP] + FileOf(es[1..])
    ensures LINE_SEP !in Escaped(es[0].raw)
  {
    hide Escaped;
    EscapedIsOneLine(es[0].raw);
  }

  /** The file splits into exactly the escaped entries. */
  lemma {:induction false} FileLines(before: seq<int>, es: seq<Entry>)
    requires Entries(es)
    ensures LinesFrom(before + FileOf(es), |before|) == EscapedLines(es)
    decreases |es|
  {
    if es == [] {
      assert before + FileOf(es) == before;
    } else {
      hide Escaped, LinesFrom, FileOf, EscapedLines, LineEnd;
      FirstEntry(es);
      var line, rest := Escaped(es[0].raw), FileOf(es[1..]);
      FirstLine(before, line, rest);
      FileLines(before + line + [LINE_SEP], es[1..]);
      AppendAssoc(line, [LINE_SEP], rest);
      AppendAssoc(before, line, [LINE_SEP] + rest);
      AppendAssoc(before + line, [LINE_SEP], rest);
    }
  }

  /** The entries after a run of adds. */
  function AddAll(keys: seq<Entry>): seq<Entry> {
    if keys == [] then [] else Registered(AddAll(keys[..|keys| - 1]), keys[|keys| - 1])
  }

  lemma {:induction false} RunKeepsEntries(keys: seq<Entry>)
    requires Entries(keys)
    ensures Entries(AddAll(keys)) && Distinct(AddAll(keys))
    ensures forall e :: e in AddAll(keys) <==> e in keys
  {
    if keys == [] {
    } else {
      var init := keys[..|keys| - 1];
      RunKeepsEntries(init);
      assert keys == init + [keys[|init|]];
    }
  }

  /** Lines never move: what was registered stays where it is. */
  lemma {:induction false} RunExtends(keys: seq<Entry>, k: nat)
    requires k <= |keys|
    ensures AddAll(keys[..k]) <= AddAll(keys)
  {
    if k == |keys| {
      assert keys[..k] == keys;
    } else {
      RunExtends(keys[..|keys| - 1], k);
      assert keys[..|keys| - 1][..k] == keys[..k];
    }
  }

  lemma {:induction false} DistinctCount(es: seq<Entry>)
    requires Distinct(es)
    ensures |es| == |set e | e in es|
  {
    if es == [] {
      assert (set e | e in es) == {};
    } else {
      var init, last := es[..|es| - 1], es[|es| - 1];
      DistinctCount(init);
      assert (set e | e in es) == (set e | e in init) + {last};
      assert last !in init;
    }
  }

  /** The line that the i-th add of a run returned reads back that add's bytes; the file
      has one line per distinct string and encoding. */
  lemma EveryAddReadsBack(keys: seq<Entry>, i: nat, line: nat)
    requires Entries(keys) && i < |keys|
    requires line < |AddAll(keys[..i + 1])| && AddAll(keys[..i + 1])[line] == keys[i]
    ensures Entries(AddAll(keys))
    ensures LineAt(FileOf(AddAll(keys)), 0, line) == Ok(keys[i].raw)
    ensures |LinesFrom(FileOf(AddAll(keys)), 0)| == |AddAll(keys)| == |set e | e in keys|
  {
    hide Escaped, AddAll, Unescaped, FileOf;
    RunKeepsEntries(keys);
    RunExtends(keys, i + 1);
    var es := AddAll(keys);
    FileLines([], es);
    assert [] + FileOf(es) == FileOf(es);
    LineAtReads(FileOf(es), 0, line);
    forall j | 0 <= j < |es|
      ensures Unescaped(EscapedLines(es)[j]) == Ok(es[j].raw)
    {
      UnescapeEscaped(es[j].raw);
    }
    DistinctCount(es);
    assert (set e | e in es) == (set e | e in keys);
  }

  /** Repeated adds return the same line, and only those. */
  lemma SameLine(keys: seq<Entry>, i: nat, j: nat, a: nat, b: nat)
    requires Entries(keys) && i < |keys| && j < |keys|
    requires a < |AddAll(keys[..i + 1])| && AddAll(keys[..i + 1])[a] == keys[i]
    requires b < |AddAll(keys[..j + 1])| && AddAll(keys[..j + 1])[b] == keys[j]
    ensures a == b <==> keys[i] == keys[j]
  {
    hide AddAll;
    RunKeepsEntries(keys);
    RunExtends(keys, i + 1);
    RunExtends(keys, j + 1);
    assert AddAll(keys)[a] == keys[i] && AddAll(keys)[b] == keys[j];
  }

  /** A run of adds on a new file: the file holds exactly the run's entries. */
  method AddEach(s: StringSidecar, keys: seq<Entry>) returns (lines: seq<nat>)
    requires s.Valid() && s.open && s.entries == [] && Entries(keys)
    modifies s
    ensures s.Valid() && s.open && s.entries == AddAll(keys) && s.file == FileOf(AddAll(keys))
    ensures |lines| == |keys|
    ensures forall i :: 0 <= i < |keys| ==> lines[i] < |AddAll(keys[..i + 1])| && AddAll(keys[..i + 1])[lines[i]] == keys[i]
  {
    hide AddAll, FileOf, Registered;
    lines := [];
    NothingAdded(keys);
    for k := 0 to |keys|
      invariant s.Valid() && s.open && s.entries == AddAll(keys[..k]) && |lines| == k
      invariant forall i :: 0 <= i < k ==> lines[i] < |AddAll(keys[..i + 1])| && AddAll(keys[..i + 1])[lines[i]] == keys[i]
    {
      assert IsEntry(keys[k]);
      AddedNext(keys, k);
      var line := s.Add(keys[k].raw, keys[k].encoding);
      lines := lines + [line.value];
    }
    assert keys[..|keys|] == keys;
  }

  lemma NothingAdded(keys: seq<Entry>)
    ensures AddAll(keys[..0]) == []
  {
  }

  lemma AddedNext(keys: seq<Entry>, k: nat)
    requires k < |keys|
    ensures AddAll(keys[..k + 1]) == Registered(AddAll(keys[..k]), keys[k])
  {
    assert keys[..k + 1][..k] == keys[..k];
  }

  /** What a run of adds wrote is read back through the lines it returned. */
  method AddAndReadBack(s: StringSidecar, keys: seq<Entry>) returns (lines: seq<nat>, read: seq<Result<seq<int>>>)
    requires s.Valid() && s.open && s.entries == [] && Entries(keys)
    modifies s
    ensures |lines| == |read| == |keys|
    ensures forall i :: 0 <= i < |keys| ==> read[i] == Ok(keys[i].raw)
    ensures forall i, j :: 0 <= i < |keys| && 0 <= j < |keys| ==> (lines[i] == lines[j] <==> keys[i] == keys[j])
  {
    hide AddAll, FileOf, LineAt;
    lines := AddEach(s, keys);
    s.Close();
    var file := s.file;
    read := [];
    for i := 0 to |keys|
      invariant |read| == i && forall j :: 0 <= j < i ==> read[j] == Ok(keys[j].raw)
    {
      EveryAddReadsBack(keys, i, lines[i]);
      var r := ReadSidecarLine(file, lines[i]);
      read := read + [r];
    }
    forall i, j | 0 <= i < |keys| && 0 <= j < |keys|
      ensures lines[i] == lines[j] <==> keys[i] == keys[j]
    {
      SameLine(keys, i, j, lines[i], lines[j]);
    }
  }
}
