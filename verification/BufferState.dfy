/** What a function's token buffer means: its committed blocks, the leased block
    with its committed instructions, and the leased instruction; and the flat
    sequences ("axes") that the shared arrays must begin with to mean it. */
module BufferState {
  import opened TokenSeqs

  /** What a label or address slot holds; a number only as a rebuilt list's placeholder. */
  datatype Label = Unset | Text(text: string) | Number(value: int)

  datatype OpenInsn = NoInsn | AnInsn(caption: Label, toks: seq<Tok>)

  datatype OpenBlock = NoBlock | ABlock(insns: seq<Insn>, labels: seq<Label>, insn: OpenInsn)

  datatype State = State(blocks: seq<Block>, labels: seq<Label>, addrs: seq<Label>, open: OpenBlock)

  const EMPTY: State := State([], [], [], NoBlock)

  // ---- the parts ----

  function CommittedInsns(s: State): seq<Insn> { Concat(s.blocks) }

  function CommittedToks(s: State): seq<Tok> { Concat(CommittedInsns(s)) }

  function OpenInsns(s: State): seq<Insn> {
    if s.open.ABlock? then s.open.insns else []
  }

  function OpenLabels(s: State): seq<Label> {
    if s.open.ABlock? then s.open.labels else []
  }

  function BlockToks(s: State): seq<Tok> { Concat(OpenInsns(s)) }

  predicate InsnIsOpen(s: State) { s.open.ABlock? && s.open.insn.AnInsn? }

  function OpenToks(s: State): seq<Tok> {
    if InsnIsOpen(s) then s.open.insn.toks else []
  }

  predicate WellFormed(s: State) {
    && |s.labels| == |CommittedInsns(s)|
    && |s.addrs| == |s.blocks|
    && |OpenLabels(s)| == |OpenInsns(s)|
    && Solid(s.blocks)
    && forall i :: i in OpenInsns(s) ==> i != []
  }

  // ---- the axes ----

  function IdsAxis(s: State): seq<int> {
    Ids(CommittedToks(s)) + Ids(BlockToks(s)) + Ids(OpenToks(s))
  }

  function TypesAxis(s: State): seq<int> {
    Types(CommittedToks(s)) + Types(BlockToks(s)) + Types(OpenToks(s))
  }

  /** The ends of each lease are relative to the leaseholder until it commits. */
  function StartsAxis(s: State): seq<int> {
    Ends(CommittedToks(s)) + Ends(BlockToks(s)) + Ends(OpenToks(s))
  }

  function MetaAxis(s: State): seq<int> {
    MetaCounts(CommittedInsns(s)) + MetaCounts(OpenInsns(s))
  }

  function IdxAxis(s: State): seq<int> {
    IdCounts(CommittedInsns(s)) + IdCounts(OpenInsns(s))
  }

  function LabelAxis(s: State): seq<Label> {
    s.labels + OpenLabels(s) + OpenCaption(s)
  }

  function OpenCaption(s: State): seq<Label> {
    if InsnIsOpen(s) then [s.open.insn.caption] else []
  }

  // ---- the operations ----

  function BlockViewed(s: State): State
    requires s.open.NoBlock?
  {
    s.(open := ABlock([], [], NoInsn))
  }

  function InsnViewed(s: State, caption: Label): State
    requires s.open.ABlock? && s.open.insn.NoInsn?
  {
    s.(open := s.open.(insn := AnInsn(caption, [])))
  }

  function Appended(s: State, t: Tok): State
    requires InsnIsOpen(s)
  {
    s.(open := s.open.(insn := s.open.insn.(toks := s.open.insn.toks + [t])))
  }

  function AppendedAll(s: State, ts: seq<Tok>): State
    requires InsnIsOpen(s)
  {
    s.(open := s.open.(insn := s.open.insn.(toks := s.open.insn.toks + ts)))
  }

  lemma AppendedNone(s: State)
    requires InsnIsOpen(s)
    ensures AppendedAll(s, []) == s
  {
    assert s.open.insn.toks + [] == s.open.insn.toks;
  }

  lemma AppendedNext(s: State, ts: seq<Tok>, i: nat)
    requires InsnIsOpen(s) && i < |ts|
    ensures InsnIsOpen(AppendedAll(s, ts[..i]))
    ensures Appended(AppendedAll(s, ts[..i]), ts[i]) == AppendedAll(s, ts[..i + 1])
  {
    TakeNext(ts, i);
    AppendAssoc(s.open.insn.toks, ts[..i], [ts[i]]);
  }

  /** An empty instruction is dropped; its lease is released either way. */
  function InsnAdded(s: State): State
    requires InsnIsOpen(s)
  {
    if s.open.insn.toks == [] then s.(open := s.open.(insn := NoInsn))
    else s.(open := ABlock(s.open.insns + [s.open.insn.toks], s.open.labels + [s.open.insn.caption], NoInsn))
  }

  /** An empty block is dropped; its lease is released either way, and with it an
      instruction that was never added. */
  function BlockAdded(s: State, addr: Label): State
    requires s.open.ABlock?
  {
    if Concat(s.open.insns) == [] then s.(open := NoBlock)
    else State(s.blocks + [s.open.insns], s.labels + s.open.labels, s.addrs + [addr], NoBlock)
  }

  /** The instruction lease ends and what it holds is forgotten. */
  function InsnClosed(s: State): State {
    if s.open.ABlock? then s.(open := s.open.(insn := NoInsn)) else s
  }

  /** The block lease ends and what it holds is forgotten. */
  function BlockClosed(s: State): State {
    s.(open := NoBlock)
  }

  /** Adding an empty lease is closing it. */
  lemma EmptyInsnIsDropped(s: State)
    requires InsnIsOpen(s) && OpenToks(s) == []
    ensures InsnAdded(s) == InsnClosed(s)
  {
  }

  lemma EmptyBlockIsDropped(s: State, addr: Label)
    requires s.open.ABlock? && BlockToks(s) == []
    ensures BlockAdded(s, addr) == BlockClosed(s)
  {
  }

  /** A whole instruction appended at once; nothing is kept of an empty one. */
  function InsnAppended(s: State, caption: Label, ts: seq<Tok>): State
    requires s.open.ABlock? && s.open.insn.NoInsn?
  {
    if ts == [] then s
    else s.(open := ABlock(s.open.insns + [ts], s.open.labels + [caption], NoInsn))
  }

  lemma InsnAppendedByParts(s: State, caption: Label, ts: seq<Tok>)
    requires s.open.ABlock? && s.open.insn.NoInsn?
    ensures InsnAdded(AppendedAll(InsnViewed(s, caption), ts)) == InsnAppended(s, caption, ts)
  {
    assert [] + ts == ts;
  }

  // ---- how each operation moves the axes ----

  lemma EmptyAxes(s: State)
    requires s.blocks == [] && s.labels == [] && OpenInsns(s) == [] && OpenLabels(s) == [] && OpenToks(s) == []
    ensures IdsAxis(s) == [] && TypesAxis(s) == [] && StartsAxis(s) == []
    ensures MetaAxis(s) == [] && IdxAxis(s) == []
    ensures !InsnIsOpen(s) ==> LabelAxis(s) == []
    ensures InsnCounts(s.blocks) == [] && BlockMetaCounts(s.blocks) == []
  {
    assert CommittedInsns(s) == [] && CommittedToks(s) == [] && BlockToks(s) == [];
  }

  /** A new lease holds nothing yet. */
  lemma BlockViewedAxes(s: State)
    requires WellFormed(s) && s.open.NoBlock?
    ensures var r := BlockViewed(s);
      && WellFormed(r) && SameAxes(s, r) && LabelAxis(r) == LabelAxis(s)
      && CommittedToks(r) == CommittedToks(s) && BlockToks(r) == [] && OpenToks(r) == []
      && CommittedInsns(r) == CommittedInsns(s) && OpenInsns(r) == []
  {
  }

  lemma InsnViewedAxes(s: State, caption: Label)
    requires WellFormed(s) && s.open.ABlock? && s.open.insn.NoInsn?
    ensures var r := InsnViewed(s, caption);
      && WellFormed(r) && SameAxes(s, r) && LabelAxis(r) == LabelAxis(s) + [caption]
      && CommittedToks(r) == CommittedToks(s) && BlockToks(r) == BlockToks(s) && OpenToks(r) == []
      && CommittedInsns(r) == CommittedInsns(s) && OpenInsns(r) == OpenInsns(s) && InsnIsOpen(r)
  {
  }

  /** Releasing an empty lease keeps everything else. */
  lemma InsnDroppedAxes(s: State)
    requires WellFormed(s) && InsnIsOpen(s) && OpenToks(s) == []
    ensures var r := InsnAdded(s);
      && WellFormed(r) && SameAxes(s, r) && LabelAxis(s) == LabelAxis(r) + OpenCaption(s)
      && CommittedToks(r) == CommittedToks(s) && BlockToks(r) == BlockToks(s) && OpenToks(r) == []
      && CommittedInsns(r) == CommittedInsns(s) && OpenInsns(r) == OpenInsns(s)
  {
  }

  lemma BlockDroppedAxes(s: State, addr: Label)
    requires WellFormed(s) && s.open.ABlock? && BlockToks(s) == []
    ensures var r := BlockAdded(s, addr);
      && WellFormed(r) && r.open.NoBlock? && r.blocks == s.blocks && r.addrs == s.addrs
      && IdsAxis(r) == Ids(CommittedToks(s)) + Ids(BlockToks(s))
      && TypesAxis(r) == Types(CommittedToks(s)) + Types(BlockToks(s))
      && StartsAxis(r) == Ends(CommittedToks(s)) + Ends(BlockToks(s))
      && MetaAxis(r) == MetaCounts(CommittedInsns(s))
      && IdxAxis(r) == IdCounts(CommittedInsns(s))
      && LabelAxis(r) == s.labels
      && CommittedToks(r) == CommittedToks(s) && BlockToks(r) == [] && OpenToks(r) == []
      && CommittedInsns(r) == CommittedInsns(s) && OpenInsns(r) == []
  {
  }

  /** Two states that the arrays tell apart by their labels at most. */
  ghost predicate SameAxes(s: State, r: State) {
    && IdsAxis(r) == IdsAxis(s) && TypesAxis(r) == TypesAxis(s) && StartsAxis(r) == StartsAxis(s)
    && MetaAxis(r) == MetaAxis(s) && IdxAxis(r) == IdxAxis(s)
    && r.blocks == s.blocks && r.addrs == s.addrs
  }

  lemma AppendedParts(s: State, t: Tok)
    requires WellFormed(s) && InsnIsOpen(s)
    ensures var r := Appended(s, t);
      && WellFormed(r) && InsnIsOpen(r)
      && CommittedToks(r) == CommittedToks(s) && BlockToks(r) == BlockToks(s) && OpenToks(r) == OpenToks(s) + [t]
      && CommittedInsns(r) == CommittedInsns(s) && OpenInsns(r) == OpenInsns(s)
      && MetaAxis(r) == MetaAxis(s) && IdxAxis(r) == IdxAxis(s) && LabelAxis(r) == LabelAxis(s)
      && r.blocks == s.blocks && r.addrs == s.addrs
  {
  }

  lemma InsnAddedParts(s: State)
    requires WellFormed(s) && InsnIsOpen(s) && OpenToks(s) != []
    ensures var r := InsnAdded(s);
      && WellFormed(r) && !InsnIsOpen(r) && r.open.ABlock? && r.open.insn.NoInsn?
      && CommittedToks(r) == CommittedToks(s) && BlockToks(r) == BlockToks(s) + OpenToks(s) && OpenToks(r) == []
      && CommittedInsns(r) == CommittedInsns(s) && OpenInsns(r) == OpenInsns(s) + [OpenToks(s)]
      && r.blocks == s.blocks && r.addrs == s.addrs
  {
    ConcatSnoc(OpenInsns(s), OpenToks(s));
  }

  lemma AppendedAxes(s: State, t: Tok)
    requires InsnIsOpen(s)
    ensures IdsAxis(Appended(s, t)) == IdsAxis(s) + t.ids
    ensures TypesAxis(Appended(s, t)) == TypesAxis(s) + [t.ttype]
    ensures StartsAxis(Appended(s, t)) == StartsAxis(s) + [|Ids(OpenToks(s))| + |t.ids|]
  {
    var o := OpenToks(s);
    assert OpenToks(Appended(s, t)) == o + [t];
    IdsSnoc(o, t);
    EndsSnoc(o, t);
    TypesAppend(o, [t]);
    assert Types([t]) == [t.ttype];
    AppendAssoc(Ids(CommittedToks(s)) + Ids(BlockToks(s)), Ids(o), t.ids);
    AppendAssoc(Types(CommittedToks(s)) + Types(BlockToks(s)), Types(o), [t.ttype]);
    AppendAssoc(Ends(CommittedToks(s)) + Ends(BlockToks(s)), Ends(o), [|Ids(o)| + |t.ids|]);
  }

  lemma InsnAddedAxes(s: State)
    requires InsnIsOpen(s) && OpenToks(s) != []
    ensures var r := InsnAdded(s);
      && IdsAxis(r) == IdsAxis(s)
      && TypesAxis(r) == TypesAxis(s)
      && StartsAxis(r) == Ends(CommittedToks(s)) + Ends(BlockToks(s))
                          + Shift(Ends(OpenToks(s)), |Ids(BlockToks(s))|)
      && MetaAxis(r) == MetaAxis(s) + [|OpenToks(s)|]
      && IdxAxis(r) == IdxAxis(s) + [|Ids(OpenToks(s))|]
      && LabelAxis(r) == LabelAxis(s)
  {
    var r := InsnAdded(s);
    var done, last := OpenInsns(s), OpenToks(s);
    assert OpenInsns(r) == done + [last] && OpenToks(r) == [];
    ConcatSnoc(done, last);
    assert BlockToks(r) == BlockToks(s) + last;
    IdsAppend(BlockToks(s), last);
    TypesAppend(BlockToks(s), last);
    EndsAppend(BlockToks(s), last);
    CountsAppend(done, [last]);
    assert MetaCounts([last]) == [|last|] && IdCounts([last]) == [|Ids(last)|];
    assert Types(OpenToks(r)) == [] && Ends(OpenToks(r)) == [] && Ids(OpenToks(r)) == [];
    AppendAssoc(Ids(CommittedToks(s)), Ids(BlockToks(s)), Ids(last));
    AppendAssoc(Types(CommittedToks(s)), Types(BlockToks(s)), Types(last));
    AppendAssoc(Ends(CommittedToks(s)), Ends(BlockToks(s)), Shift(Ends(last), |Ids(BlockToks(s))|));
    AppendAssoc(MetaCounts(CommittedInsns(s)), MetaCounts(done), [|last|]);
    AppendAssoc(IdCounts(CommittedInsns(s)), IdCounts(done), [|Ids(last)|]);
    AppendAssoc(s.labels, OpenLabels(s), [s.open.insn.caption]);
  }

  lemma BlockAddedParts(s: State, addr: Label)
    requires WellFormed(s) && s.open.ABlock? && BlockToks(s) != []
    ensures var r := BlockAdded(s, addr);
      && WellFormed(r) && r.open.NoBlock?
      && r.blocks == s.blocks + [OpenInsns(s)] && r.addrs == s.addrs + [addr]
      && CommittedInsns(r) == CommittedInsns(s) + OpenInsns(s)
      && CommittedToks(r) == CommittedToks(s) + BlockToks(s)
      && OpenInsns(r) == [] && BlockToks(r) == [] && OpenToks(r) == []
  {
    ConcatSnoc(s.blocks, s.open.insns);
    ConcatAppend(CommittedInsns(s), OpenInsns(s));
  }

  lemma BlockAddedAxes(s: State, addr: Label)
    requires WellFormed(s) && s.open.ABlock? && BlockToks(s) != []
    ensures var r := BlockAdded(s, addr);
      && IdsAxis(r) == Ids(CommittedToks(s)) + Ids(BlockToks(s))
      && TypesAxis(r) == Types(CommittedToks(s)) + Types(BlockToks(s))
      && StartsAxis(r) == Ends(CommittedToks(s)) + Shift(Ends(BlockToks(s)), |Ids(CommittedToks(s))|)
  {
    var r := BlockAdded(s, addr);
    var done, last := CommittedToks(s), BlockToks(s);
    BlockAddedParts(s, addr);
    IdsAppend(done, last);
    TypesAppend(done, last);
    EndsAppend(done, last);
    assert Types([]) == [] && Ends([]) == [];
  }

  lemma BlockAddedRuns(s: State, addr: Label)
    requires WellFormed(s) && s.open.ABlock? && BlockToks(s) != []
    ensures var r := BlockAdded(s, addr);
      && MetaAxis(r) == MetaAxis(s)
      && IdxAxis(r) == IdxAxis(s)
      && LabelAxis(r) == s.labels + OpenLabels(s)
      && InsnCounts(r.blocks) == InsnCounts(s.blocks) + [|OpenInsns(s)|]
      && BlockMetaCounts(r.blocks) == BlockMetaCounts(s.blocks) + [|BlockToks(s)|]
  {
    var r := BlockAdded(s, addr);
    BlockAddedParts(s, addr);
    CountsAppend(CommittedInsns(s), OpenInsns(s));
    assert MetaCounts([]) == [] && IdCounts([]) == [];
  }

  /** Where each lease's tokens end is the last of its own ends. */
  lemma EndPositions(s: State)
    ensures var c, b, o := CommittedToks(s), BlockToks(s), OpenToks(s);
      && |StartsAxis(s)| == |TypesAxis(s)| == |c| + |b| + |o|
      && |IdsAxis(s)| == |Ids(c)| + |Ids(b)| + |Ids(o)|
      && (c != [] ==> StartsAxis(s)[|c| - 1] == |Ids(c)|)
      && (b != [] ==> StartsAxis(s)[|c| + |b| - 1] == |Ids(b)|)
      && (o != [] ==> StartsAxis(s)[|c| + |b| + |o| - 1] == |Ids(o)|)
  {
    var c, b, o := CommittedToks(s), BlockToks(s), OpenToks(s);
    if c != [] { EndsLast(c); }
    if b != [] { EndsLast(b); }
    if o != [] { EndsLast(o); }
  }

  /** Labels and instructions share their slots; the open instruction's label is one ahead. */
  lemma LabelSlot(s: State)
    requires WellFormed(s)
    ensures |IdxAxis(s)| == |MetaAxis(s)|
    ensures |LabelAxis(s)| == |MetaAxis(s)| + if InsnIsOpen(s) then 1 else 0
  {
  }

  /** Each axis is the committed data, then each lease's own data. */
  lemma AxisParts(s: State)
    ensures var c, b, o := CommittedToks(s), BlockToks(s), OpenToks(s);
      && IdsAxis(s) == Ids(c) + Ids(b) + Ids(o)
      && TypesAxis(s) == Types(c) + Types(b) + Types(o)
      && StartsAxis(s) == Ends(c) + Ends(b) + Ends(o)
      && LabelAxis(s) == s.labels + OpenLabels(s) + OpenCaption(s)
      && MetaAxis(s) == MetaCounts(CommittedInsns(s)) + MetaCounts(OpenInsns(s))
      && IdxAxis(s) == IdCounts(CommittedInsns(s)) + IdCounts(OpenInsns(s))
      && |InsnCounts(s.blocks)| == |BlockMetaCounts(s.blocks)| == |s.blocks|
  {
  }

  lemma ClosedInsnAxes(s: State)
    requires WellFormed(s)
    ensures var r := InsnClosed(s);
      && WellFormed(r) && r.blocks == s.blocks && r.addrs == s.addrs
      && CommittedToks(r) == CommittedToks(s) && CommittedInsns(r) == CommittedInsns(s)
      && BlockToks(r) == BlockToks(s) && OpenInsns(r) == OpenInsns(s) && OpenToks(r) == []
      && IdsAxis(r) == Ids(CommittedToks(s)) + Ids(BlockToks(s))
      && TypesAxis(r) == Types(CommittedToks(s)) + Types(BlockToks(s))
      && StartsAxis(r) == Ends(CommittedToks(s)) + Ends(BlockToks(s))
      && MetaAxis(r) == MetaAxis(s) && IdxAxis(r) == IdxAxis(s)
      && LabelAxis(r) == s.labels + OpenLabels(s)
  {
  }

  lemma ClosedAxes(s: State)
    requires WellFormed(s)
    ensures var r := BlockClosed(s);
      && WellFormed(r)
      && CommittedToks(r) == CommittedToks(s) && CommittedInsns(r) == CommittedInsns(s)
      && BlockToks(r) == [] && OpenToks(r) == []
      && IdsAxis(r) == Ids(CommittedToks(s)) && TypesAxis(r) == Types(CommittedToks(s))
      && StartsAxis(r) == Ends(CommittedToks(s))
      && MetaAxis(r) == MetaCounts(CommittedInsns(s)) && IdxAxis(r) == IdCounts(CommittedInsns(s))
      && LabelAxis(r) == s.labels
      && |MetaCounts(CommittedInsns(s))| <= |MetaAxis(s)|
  {
  }
}
