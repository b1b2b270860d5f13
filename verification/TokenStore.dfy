/** The nine arrays that the function, block and instruction lists share, and how
    they grow. */
module TokenStore {
  import opened TokenSeqs
  import opened BufferState
  import opened NumpyArrays

  datatype Store = Store(
    tokenIds: array<int>,
    typeIds: array<int>,
    startLookup: array<int>,
    insnMetaRuns: array<int>,
    insnIdxRuns: array<int>,
    insnStrs: array<Label>,
    blockInsnRuns: array<int>,
    blockMetaRuns: array<int>,
    blockAddrs: array<Label>)
  {
    /** Arrays that grow together have one length, and no two arrays are the same one. */
    ghost predicate Shape() {
      && startLookup.Length == typeIds.Length
      && insnIdxRuns.Length == insnMetaRuns.Length == insnStrs.Length
      && blockMetaRuns.Length == blockInsnRuns.Length == blockAddrs.Length
      && tokenIds != typeIds && tokenIds != startLookup && tokenIds != insnMetaRuns
      && tokenIds != insnIdxRuns && tokenIds != blockInsnRuns && tokenIds != blockMetaRuns
      && typeIds != startLookup && typeIds != insnMetaRuns && typeIds != insnIdxRuns
      && typeIds != blockInsnRuns && typeIds != blockMetaRuns
      && startLookup != insnMetaRuns && startLookup != insnIdxRuns
      && startLookup != blockInsnRuns && startLookup != blockMetaRuns
      && insnMetaRuns != insnIdxRuns && insnMetaRuns != blockInsnRuns && insnMetaRuns != blockMetaRuns
      && insnIdxRuns != blockInsnRuns && insnIdxRuns != blockMetaRuns
      && blockInsnRuns != blockMetaRuns
      && insnStrs != blockAddrs
    }

    /** Room that the next unchecked write relies on: a label slot for the next
        instruction, and a block slot once the open block has tokens. */
    ghost predicate Slack(s: State) {
      && |MetaAxis(s)| < insnMetaRuns.Length
      && (OpenToks(s) != [] ==> |MetaAxis(s)| + 1 < insnMetaRuns.Length)
      && 0 < blockInsnRuns.Length
      && |s.blocks| <= blockInsnRuns.Length
      && (BlockToks(s) != [] || OpenToks(s) != [] ==> |s.blocks| < blockInsnRuns.Length)
    }

    /** Every array begins with the axis it carries. */
    ghost predicate Means(s: State)
      reads tokenIds, typeIds, startLookup, insnMetaRuns, insnIdxRuns, insnStrs
      reads blockInsnRuns, blockMetaRuns, blockAddrs
    {
      && Begins(tokenIds, IdsAxis(s))
      && Begins(typeIds, TypesAxis(s))
      && Begins(startLookup, StartsAxis(s))
      && Begins(insnMetaRuns, MetaAxis(s))
      && Begins(insnIdxRuns, IdxAxis(s))
      && Begins(insnStrs, LabelAxis(s))
      && Begins(blockInsnRuns, InsnCounts(s.blocks))
      && Begins(blockMetaRuns, BlockMetaCounts(s.blocks))
      && Begins(blockAddrs, s.addrs)
    }

    ghost predicate Valid(s: State)
      reads tokenIds, typeIds, startLookup, insnMetaRuns, insnIdxRuns, insnStrs
      reads blockInsnRuns, blockMetaRuns, blockAddrs
    {
      WellFormed(s) && Shape() && Slack(s) && Means(s)
    }

    /** Each array of `now` is the one it replaces, or a new one at least as long. */
    twostate predicate GrowsTo(new now: Store) {
      && (now.tokenIds == tokenIds || (fresh(now.tokenIds) && now.tokenIds.Length > tokenIds.Length))
      && (now.typeIds == typeIds || (fresh(now.typeIds) && now.typeIds.Length > typeIds.Length))
      && (now.startLookup == startLookup || (fresh(now.startLookup) && now.startLookup.Length > startLookup.Length))
      && (now.insnMetaRuns == insnMetaRuns || (fresh(now.insnMetaRuns) && now.insnMetaRuns.Length > insnMetaRuns.Length))
      && (now.insnIdxRuns == insnIdxRuns || (fresh(now.insnIdxRuns) && now.insnIdxRuns.Length > insnIdxRuns.Length))
      && (now.insnStrs == insnStrs || (fresh(now.insnStrs) && now.insnStrs.Length > insnStrs.Length))
      && (now.blockInsnRuns == blockInsnRuns || (fresh(now.blockInsnRuns) && now.blockInsnRuns.Length > blockInsnRuns.Length))
      && (now.blockMetaRuns == blockMetaRuns || (fresh(now.blockMetaRuns) && now.blockMetaRuns.Length > blockMetaRuns.Length))
      && (now.blockAddrs == blockAddrs || (fresh(now.blockAddrs) && now.blockAddrs.Length > blockAddrs.Length))
    }
  }

  twostate predicate AllFresh(new st: Store) {
    && fresh(st.tokenIds)
    && fresh(st.typeIds)
    && fresh(st.startLookup)
    && fresh(st.insnMetaRuns)
    && fresh(st.insnIdxRuns)
    && fresh(st.insnStrs)
    && fresh(st.blockInsnRuns)
    && fresh(st.blockMetaRuns)
    && fresh(st.blockAddrs)
  }

  /** An empty buffer is carried by any arrays of the right shape. */
  lemma EmptyIsValid(st: Store)
    requires st.Shape() && 0 < st.insnMetaRuns.Length && 0 < st.blockInsnRuns.Length
    ensures st.Valid(EMPTY)
  {
    EmptyAxes(EMPTY);
  }

  method NewStore(numBlocks: nat) returns (r: Store)
    ensures r.Valid(EMPTY)
    ensures fresh(r.tokenIds) && fresh(r.typeIds) && fresh(r.startLookup)
    ensures fresh(r.insnMetaRuns) && fresh(r.insnIdxRuns) && fresh(r.insnStrs)
    ensures fresh(r.blockInsnRuns) && fresh(r.blockMetaRuns) && fresh(r.blockAddrs)
  {
    var tokenIds := new int[numBlocks * 32](_ => 0);
    var typeIds := new int[numBlocks * 16 + 2](_ => 0);
    var startLookup := new int[numBlocks * 16 + 2](_ => 0);
    var insnMetaRuns := new int[numBlocks * 4 + 2](_ => 0);
    var insnIdxRuns := new int[numBlocks * 4 + 2](_ => 0);
    var insnStrs := new Label[numBlocks * 4 + 2](_ => Unset);
    var blockInsnRuns := new int[numBlocks + 2](_ => 0);
    var blockMetaRuns := new int[numBlocks + 2](_ => 0);
    var blockAddrs := new Label[numBlocks + 2](_ => Unset);
    r := Store(tokenIds, typeIds, startLookup, insnMetaRuns, insnIdxRuns, insnStrs,
               blockInsnRuns, blockMetaRuns, blockAddrs);
    EmptyIsValid(r);
  }

  method EnsureTokens(st: Store, ghost s: State, pos: nat, needed: nat) returns (r: Store)
    requires st.Valid(s)
    ensures r.Valid(s) && st.GrowsTo(r)
    ensures unchanged(st.tokenIds)
    ensures r == st.(tokenIds := r.tokenIds)
    ensures pos + needed <= r.tokenIds.Length
  {
    r := st;
    if pos + needed > st.tokenIds.Length {
      var newSize := Max(st.tokenIds.Length * 2, pos + needed);
      var newTokenIds := Enlarged(st.tokenIds, newSize, 0);
      r := st.(tokenIds := newTokenIds);
    }
  }

  method EnsureTypes(st: Store, ghost s: State, lastIndex: nat, needed: nat) returns (r: Store)
    requires st.Valid(s)
    ensures r.Valid(s) && st.GrowsTo(r)
    ensures unchanged(st.typeIds, st.startLookup)
    ensures r == st.(typeIds := r.typeIds, startLookup := r.startLookup)
    ensures lastIndex + needed <= r.typeIds.Length
  {
    r := st;
    if lastIndex + needed > st.typeIds.Length {
      var newSize := Max(st.typeIds.Length * 2, lastIndex + needed);
      var newTypeIds := Enlarged(st.typeIds, newSize, 0);
      var newStartLookup := Enlarged(st.startLookup, newSize, 0);
      r := st.(typeIds := newTypeIds, startLookup := newStartLookup);
    }
  }

  /** The doubling alone leaves the extra slot: before the call the axis has one
      free slot, and the larger array has at least twice as many slots. */
  method EnsureInsns(st: Store, ghost s: State, insnCount: nat, needed: nat) returns (r: Store)
    requires st.Valid(s)
    requires insnCount + needed == |MetaAxis(s)| + 1
    ensures r.Valid(s) && st.GrowsTo(r)
    ensures unchanged(st.insnMetaRuns, st.insnIdxRuns, st.insnStrs)
    ensures r == st.(insnMetaRuns := r.insnMetaRuns, insnIdxRuns := r.insnIdxRuns, insnStrs := r.insnStrs)
    ensures insnCount + needed < r.insnMetaRuns.Length
  {
    r := st;
    if insnCount + needed + 1 > st.insnMetaRuns.Length {
      var newSize := Max(st.insnMetaRuns.Length * 2, insnCount + needed);
      var newMetaRuns := Enlarged(st.insnMetaRuns, newSize, 0);
      var newIdxRuns := Enlarged(st.insnIdxRuns, newSize, 0);
      var newStrs := Enlarged(st.insnStrs, newSize, Unset);
      r := st.(insnMetaRuns := newMetaRuns, insnIdxRuns := newIdxRuns, insnStrs := newStrs);
    }
  }

  method EnsureBlocks(st: Store, ghost s: State, blockCount: nat) returns (r: Store)
    requires st.Valid(s)
    requires blockCount == |s.blocks|
    ensures r.Valid(s) && st.GrowsTo(r)
    ensures unchanged(st.blockInsnRuns, st.blockMetaRuns, st.blockAddrs)
    ensures r == st.(blockInsnRuns := r.blockInsnRuns, blockMetaRuns := r.blockMetaRuns, blockAddrs := r.blockAddrs)
    ensures blockCount < r.blockInsnRuns.Length
  {
    r := st;
    if blockCount >= st.blockInsnRuns.Length {
      var newSize := st.blockInsnRuns.Length * 2;
      var newInsnRuns := Enlarged(st.blockInsnRuns, newSize, 0);
      var newMetaRuns := Enlarged(st.blockMetaRuns, newSize, 0);
      var newAddrs := Enlarged(st.blockAddrs, newSize, Unset);
      r := st.(blockInsnRuns := newInsnRuns, blockMetaRuns := newMetaRuns, blockAddrs := newAddrs);
    }
  }

  /** Makes room on every axis, copying the data to larger arrays where needed. */
  method EnsureStore(st: Store, ghost s: State, pos: nat, tokensNeeded: nat, lastIndex: nat, typesNeeded: nat,
                     insnCount: nat, insnsNeeded: nat, blockCount: nat)
    returns (r: Store)
    requires st.Valid(s)
    requires insnCount + insnsNeeded == |MetaAxis(s)| + 1
    requires blockCount == |s.blocks|
    ensures r.Valid(s) && st.GrowsTo(r)
    ensures unchanged(st.tokenIds, st.typeIds, st.startLookup, st.insnMetaRuns, st.insnIdxRuns, st.insnStrs)
    ensures unchanged(st.blockInsnRuns, st.blockMetaRuns, st.blockAddrs)
    ensures pos + tokensNeeded <= r.tokenIds.Length
    ensures lastIndex + typesNeeded <= r.typeIds.Length
    ensures insnCount + insnsNeeded < r.insnMetaRuns.Length
    ensures blockCount < r.blockInsnRuns.Length
  {
    var a := EnsureTokens(st, s, pos, tokensNeeded);
    var b := EnsureTypes(a, s, lastIndex, typesNeeded);
    var c := EnsureInsns(b, s, insnCount, insnsNeeded);
    r := EnsureBlocks(c, s, blockCount);
  }

  /** A new block lease leaves the arrays as they are. */
  lemma LeaseBlock(st: Store, s: State)
    requires st.Valid(s) && s.open.NoBlock?
    ensures st.Valid(BlockViewed(s))
  {
    hide IdsAxis, TypesAxis, StartsAxis, MetaAxis, IdxAxis, LabelAxis, CommittedToks, BlockToks, CommittedInsns;
    hide InsnCounts, BlockMetaCounts, WellFormed, OpenToks, OpenInsns, BlockViewed, Begins;
    BlockViewedAxes(s);
  }

  /** Writes one metatoken behind the open instruction's data. */
  method WriteToken(st: Store, ghost s: State, t: Tok, idAt: nat, slot: nat, end: int)
    requires st.Valid(s) && InsnIsOpen(s)
    requires idAt == |IdsAxis(s)| && slot == |TypesAxis(s)| && end == |Ids(OpenToks(s))| + |t.ids|
    requires idAt + |t.ids| <= st.tokenIds.Length && slot < st.typeIds.Length
    requires |MetaAxis(s)| + 1 < st.insnMetaRuns.Length && |s.blocks| < st.blockInsnRuns.Length
    modifies st.tokenIds, st.typeIds, st.startLookup
    ensures st.Valid(Appended(s, t))
  {
    hide IdsAxis, TypesAxis, StartsAxis, MetaAxis, IdxAxis, LabelAxis, CommittedToks, BlockToks, CommittedInsns;
    hide InsnCounts, BlockMetaCounts, Appended, WellFormed, OpenToks, OpenInsns;
    AppendedParts(s, t);
    AppendedAxes(s, t);
    EndPositions(s);
    AssignSlice(st.tokenIds, idAt, t.ids);
    PutNext(st.typeIds, TypesAxis(s), t.ttype, slot);
    PutNext(st.startLookup, StartsAxis(s), end, slot);
  }

  /** Writes an instruction's label into the slot after the last instruction. */
  method WriteLabel(st: Store, ghost s: State, caption: Label, at: nat)
    requires st.Valid(s) && s.open.ABlock? && s.open.insn.NoInsn?
    requires at == |MetaAxis(s)|
    modifies st.insnStrs
    ensures st.Valid(InsnViewed(s, caption))
  {
    hide IdsAxis, TypesAxis, StartsAxis, MetaAxis, IdxAxis, LabelAxis, CommittedToks, BlockToks, CommittedInsns;
    hide InsnCounts, BlockMetaCounts, InsnViewed;
    InsnViewedAxes(s, caption);
    assert at == |LabelAxis(s)| by { LabelSlot(s); }
    PutNext(st.insnStrs, LabelAxis(s), caption, at);
  }

  /** Re-bases the open instruction's ends and writes its run lengths. */
  method CommitInsn(st: Store, ghost s: State, slot: nat, types: nat, tokens: nat, blockPos: nat, insnSlot: nat)
    requires st.Valid(s) && InsnIsOpen(s) && OpenToks(s) != []
    requires slot == |CommittedToks(s)| + |BlockToks(s)| && types == |OpenToks(s)| && tokens == |Ids(OpenToks(s))|
    requires blockPos == |Ids(BlockToks(s))| && insnSlot == |MetaAxis(s)|
    modifies st.startLookup, st.insnMetaRuns, st.insnIdxRuns
    ensures st.Valid(InsnAdded(s))
  {
    hide IdsAxis, TypesAxis, StartsAxis, MetaAxis, IdxAxis, LabelAxis, CommittedToks, BlockToks, CommittedInsns;
    hide InsnCounts, BlockMetaCounts, InsnAdded, WellFormed, OpenToks, OpenInsns, Ids, Types, Ends, Shift, OpenCaption, OpenLabels;
    hide Begins;
    InsnAddedParts(s);
    InsnAddedAxes(s);
    EndPositions(s);
    LabelSlot(s);
    AxisParts(s);
    Rebase(st.startLookup, Ends(CommittedToks(s)) + Ends(BlockToks(s)), Ends(OpenToks(s)), slot, types, blockPos);
    PutNext(st.insnMetaRuns, MetaAxis(s), types, insnSlot);
    PutNext(st.insnIdxRuns, IdxAxis(s), tokens, insnSlot);
  }

  /** What an instruction that was never added had written lies behind the axes. */
  lemma DroppedTail(st: Store, s: State)
    requires Begins(st.tokenIds, IdsAxis(s)) && Begins(st.typeIds, TypesAxis(s)) && Begins(st.insnStrs, LabelAxis(s))
    ensures Begins(st.tokenIds, Ids(CommittedToks(s)) + Ids(BlockToks(s)))
    ensures Begins(st.typeIds, Types(CommittedToks(s)) + Types(BlockToks(s)))
    ensures Begins(st.insnStrs, s.labels + OpenLabels(s))
  {
    AxisParts(s);
    BeginsPrefix(st.tokenIds, Ids(CommittedToks(s)) + Ids(BlockToks(s)), Ids(OpenToks(s)));
    BeginsPrefix(st.typeIds, Types(CommittedToks(s)) + Types(BlockToks(s)), Types(OpenToks(s)));
    BeginsPrefix(st.insnStrs, s.labels + OpenLabels(s), OpenCaption(s));
  }

  /** Re-bases the open block's ends and writes its address and run lengths. */
  method CommitBlock(st: Store, ghost s: State, addr: Label, slot: nat, types: nat, insns: nat, pos: nat, blockSlot: nat)
    requires st.Valid(s) && s.open.ABlock? && BlockToks(s) != []
    requires slot == |CommittedToks(s)| && types == |BlockToks(s)| && insns == |OpenInsns(s)|
    requires pos == |Ids(CommittedToks(s))| && blockSlot == |s.blocks|
    modifies st.startLookup, st.blockInsnRuns, st.blockMetaRuns, st.blockAddrs
    ensures st.Valid(BlockAdded(s, addr))
  {
    hide IdsAxis, TypesAxis, StartsAxis, MetaAxis, IdxAxis, LabelAxis, CommittedToks, BlockToks, CommittedInsns;
    hide InsnCounts, BlockMetaCounts, BlockAdded, WellFormed, OpenToks, OpenInsns, Ids, Types, Ends, Shift, OpenCaption, OpenLabels;
    hide Begins;
    BlockAddedParts(s, addr);
    BlockAddedAxes(s, addr);
    BlockAddedRuns(s, addr);
    EndPositions(s);
    AxisParts(s);
    BeginsPrefix(st.startLookup, Ends(CommittedToks(s)) + Ends(BlockToks(s)), Ends(OpenToks(s)));
    Rebase(st.startLookup, Ends(CommittedToks(s)), Ends(BlockToks(s)), slot, types, pos);
    PutNext(st.blockAddrs, s.addrs, addr, blockSlot);
    PutNext(st.blockInsnRuns, InsnCounts(s.blocks), insns, blockSlot);
    PutNext(st.blockMetaRuns, BlockMetaCounts(s.blocks), types, blockSlot);
    DroppedTail(st, s);
  }

  /** The committed data alone also begins every array. */
  lemma CommittedPrefix(st: Store, s: State)
    requires st.Valid(s)
    ensures Begins(st.tokenIds, Ids(CommittedToks(s)))
    ensures Begins(st.typeIds, Types(CommittedToks(s)))
    ensures Begins(st.startLookup, Ends(CommittedToks(s)))
    ensures Begins(st.insnMetaRuns, MetaCounts(CommittedInsns(s)))
    ensures Begins(st.insnIdxRuns, IdCounts(CommittedInsns(s)))
    ensures Begins(st.insnStrs, s.labels)
  {
    hide IdsAxis, TypesAxis, StartsAxis, MetaAxis, IdxAxis, LabelAxis, CommittedToks, BlockToks, CommittedInsns;
    hide InsnCounts, BlockMetaCounts, WellFormed, OpenToks, OpenInsns, Ids, Types, Ends;
    AxisParts(s);
    DroppedTail(st, s);
    BeginsPrefix(st.tokenIds, Ids(CommittedToks(s)), Ids(BlockToks(s)));
    BeginsPrefix(st.typeIds, Types(CommittedToks(s)), Types(BlockToks(s)));
    BeginsPrefix(st.startLookup, Ends(CommittedToks(s)) + Ends(BlockToks(s)), Ends(OpenToks(s)));
    BeginsPrefix(st.startLookup, Ends(CommittedToks(s)), Ends(BlockToks(s)));
    BeginsPrefix(st.insnMetaRuns, MetaCounts(CommittedInsns(s)), MetaCounts(OpenInsns(s)));
    BeginsPrefix(st.insnIdxRuns, IdCounts(CommittedInsns(s)), IdCounts(OpenInsns(s)));
    BeginsPrefix(st.insnStrs, s.labels, OpenLabels(s));
  }

  /** Arrays that carry a state also carry it without its leases. */
  lemma DropLeases(st: Store, s: State)
    requires st.Valid(s)
    ensures st.Valid(BlockClosed(s))
  {
    hide IdsAxis, TypesAxis, StartsAxis, MetaAxis, IdxAxis, LabelAxis, CommittedToks, BlockToks, CommittedInsns;
    hide InsnCounts, BlockMetaCounts, OpenToks, OpenInsns, Ids, Types, Ends, WellFormed;
    CommittedPrefix(st, s);
    ClosedAxes(s);
    AxisParts(s);
  }

  /** Arrays that carry a state also carry it without the instruction lease. */
  lemma DropInsnLease(st: Store, s: State)
    requires st.Valid(s)
    ensures st.Valid(InsnClosed(s))
  {
    hide IdsAxis, TypesAxis, StartsAxis, MetaAxis, IdxAxis, LabelAxis, CommittedToks, BlockToks, CommittedInsns;
    hide InsnCounts, BlockMetaCounts, OpenInsns, Ids, Types, Ends, WellFormed, InsnClosed;
    ClosedInsnAxes(s);
    AxisParts(s);
    DroppedTail(st, s);
    BeginsPrefix(st.startLookup, Ends(CommittedToks(s)) + Ends(BlockToks(s)), Ends(OpenToks(s)));
  }

  /** Writes behind the committed ends keep everything that is committed. */
  method ShiftBehind(st: Store, ghost s: State, slot: nat, types: nat, pos: nat)
    requires st.Valid(s) && slot == |CommittedToks(s)| && slot + types <= st.startLookup.Length
    modifies st.startLookup
    ensures st.Valid(BlockClosed(s))
  {
    hide IdsAxis, TypesAxis, StartsAxis, MetaAxis, IdxAxis, LabelAxis, CommittedToks, BlockToks, CommittedInsns;
    hide InsnCounts, BlockMetaCounts, OpenToks, OpenInsns, Ids, Types, WellFormed, BlockClosed, Shift;
    DropLeases(st, s);
    ClosedAxes(s);
    AddToSlice(st.startLookup, slot, types, pos);
    assert st.startLookup[..slot] == st.startLookup[..slot + types][..slot];
  }

  method ShiftBehindInsns(st: Store, ghost s: State, slot: nat, types: nat, pos: nat)
    requires st.Valid(s) && slot == |CommittedToks(s)| + |BlockToks(s)| && slot + types <= st.startLookup.Length
    modifies st.startLookup
    ensures st.Valid(InsnClosed(s))
  {
    hide IdsAxis, TypesAxis, StartsAxis, MetaAxis, IdxAxis, LabelAxis, CommittedToks, BlockToks, CommittedInsns;
    hide InsnCounts, BlockMetaCounts, OpenToks, OpenInsns, Ids, Types, WellFormed, InsnClosed, Shift;
    DropInsnLease(st, s);
    ClosedInsnAxes(s);
    AddToSlice(st.startLookup, slot, types, pos);
    assert st.startLookup[..slot] == st.startLookup[..slot + types][..slot];
  }

  /** A new array with the same contents. */
  method Copied<T>(a: array<T>) returns (b: array<T>)
    ensures fresh(b) && b.Length == a.Length && b[..] == a[..]
  {
    b := new T[a.Length](i requires 0 <= i < a.Length reads a => a[i]);
    assert b[..] == a[..];
  }

  /** Two arrays of equal contents begin with the same sequences. */
  lemma SameBegins<T>(a: array<T>, b: array<T>, s: seq<T>)
    requires a[..] == b[..] && Begins(a, s)
    ensures Begins(b, s)
  {
    assert b[..|s|] == b[..][..|s|] && a[..|s|] == a[..][..|s|];
    assert |a[..]| == |b[..]|;
  }

  method CopyTokenArrays(st: Store) returns (r: Store)
    ensures r == st.(tokenIds := r.tokenIds, typeIds := r.typeIds, startLookup := r.startLookup)
    ensures fresh(r.tokenIds) && fresh(r.typeIds) && fresh(r.startLookup)
    ensures r.tokenIds != r.typeIds && r.tokenIds != r.startLookup && r.typeIds != r.startLookup
    ensures r.tokenIds[..] == st.tokenIds[..] && r.typeIds[..] == st.typeIds[..] && r.startLookup[..] == st.startLookup[..]
  {
    var tokenIds := Copied(st.tokenIds);
    var typeIds := Copied(st.typeIds);
    var startLookup := Copied(st.startLookup);
    r := st.(tokenIds := tokenIds, typeIds := typeIds, startLookup := startLookup);
  }

  method CopyInsnArrays(st: Store) returns (r: Store)
    ensures r == st.(insnMetaRuns := r.insnMetaRuns, insnIdxRuns := r.insnIdxRuns, insnStrs := r.insnStrs)
    ensures fresh(r.insnMetaRuns) && fresh(r.insnIdxRuns) && fresh(r.insnStrs) && r.insnMetaRuns != r.insnIdxRuns
    ensures r.insnMetaRuns[..] == st.insnMetaRuns[..] && r.insnIdxRuns[..] == st.insnIdxRuns[..]
    ensures r.insnStrs[..] == st.insnStrs[..]
  {
    var insnMetaRuns := Copied(st.insnMetaRuns);
    var insnIdxRuns := Copied(st.insnIdxRuns);
    var insnStrs := Copied(st.insnStrs);
    r := st.(insnMetaRuns := insnMetaRuns, insnIdxRuns := insnIdxRuns, insnStrs := insnStrs);
  }

  method CopyBlockArrays(st: Store) returns (r: Store)
    ensures r == st.(blockInsnRuns := r.blockInsnRuns, blockMetaRuns := r.blockMetaRuns, blockAddrs := r.blockAddrs)
    ensures fresh(r.blockInsnRuns) && fresh(r.blockMetaRuns) && fresh(r.blockAddrs) && r.blockInsnRuns != r.blockMetaRuns
    ensures r.blockInsnRuns[..] == st.blockInsnRuns[..] && r.blockMetaRuns[..] == st.blockMetaRuns[..]
    ensures r.blockAddrs[..] == st.blockAddrs[..]
  {
    var blockInsnRuns := Copied(st.blockInsnRuns);
    var blockMetaRuns := Copied(st.blockMetaRuns);
    var blockAddrs := Copied(st.blockAddrs);
    r := st.(blockInsnRuns := blockInsnRuns, blockMetaRuns := blockMetaRuns, blockAddrs := blockAddrs);
  }

  /** Each array of `r` holds what the array of `st` in its place holds. */
  ghost predicate SameContents(st: Store, r: Store)
    reads st.tokenIds, st.typeIds, st.startLookup, st.insnMetaRuns, st.insnIdxRuns, st.insnStrs
    reads st.blockInsnRuns, st.blockMetaRuns, st.blockAddrs
    reads r.tokenIds, r.typeIds, r.startLookup, r.insnMetaRuns, r.insnIdxRuns, r.insnStrs
    reads r.blockInsnRuns, r.blockMetaRuns, r.blockAddrs
  {
    && r.tokenIds[..] == st.tokenIds[..] && r.typeIds[..] == st.typeIds[..] && r.startLookup[..] == st.startLookup[..]
    && r.insnMetaRuns[..] == st.insnMetaRuns[..] && r.insnIdxRuns[..] == st.insnIdxRuns[..]
    && r.insnStrs[..] == st.insnStrs[..]
    && r.blockInsnRuns[..] == st.blockInsnRuns[..] && r.blockMetaRuns[..] == st.blockMetaRuns[..]
    && r.blockAddrs[..] == st.blockAddrs[..]
  }

  lemma SameMeaning(st: Store, r: Store, s: State)
    requires st.Means(s) && SameContents(st, r)
    ensures r.Means(s)
  {
    hide IdsAxis, TypesAxis, StartsAxis, MetaAxis, IdxAxis, LabelAxis, InsnCounts, BlockMetaCounts, Begins;
    SameBegins(st.tokenIds, r.tokenIds, IdsAxis(s));
    SameBegins(st.typeIds, r.typeIds, TypesAxis(s));
    SameBegins(st.startLookup, r.startLookup, StartsAxis(s));
    SameBegins(st.insnMetaRuns, r.insnMetaRuns, MetaAxis(s));
    SameBegins(st.insnIdxRuns, r.insnIdxRuns, IdxAxis(s));
    SameBegins(st.insnStrs, r.insnStrs, LabelAxis(s));
    SameBegins(st.blockInsnRuns, r.blockInsnRuns, InsnCounts(s.blocks));
    SameBegins(st.blockMetaRuns, r.blockMetaRuns, BlockMetaCounts(s.blocks));
    SameBegins(st.blockAddrs, r.blockAddrs, s.addrs);
  }

  lemma SameLengths(st: Store, r: Store)
    requires SameContents(st, r)
    ensures r.typeIds.Length == st.typeIds.Length && r.startLookup.Length == st.startLookup.Length
    ensures r.insnMetaRuns.Length == st.insnMetaRuns.Length && r.insnIdxRuns.Length == st.insnIdxRuns.Length
    ensures r.insnStrs.Length == st.insnStrs.Length && r.blockInsnRuns.Length == st.blockInsnRuns.Length
    ensures r.blockMetaRuns.Length == st.blockMetaRuns.Length && r.blockAddrs.Length == st.blockAddrs.Length
  {
    assert |r.typeIds[..]| == |st.typeIds[..]| && |r.startLookup[..]| == |st.startLookup[..]|;
    assert |r.insnMetaRuns[..]| == |st.insnMetaRuns[..]| && |r.insnIdxRuns[..]| == |st.insnIdxRuns[..]|;
    assert |r.insnStrs[..]| == |st.insnStrs[..]| && |r.blockInsnRuns[..]| == |st.blockInsnRuns[..]|;
    assert |r.blockMetaRuns[..]| == |st.blockMetaRuns[..]| && |r.blockAddrs[..]| == |st.blockAddrs[..]|;
  }

  lemma SameSlack(st: Store, r: Store, s: State)
    requires st.Shape() && st.Slack(s) && SameContents(st, r)
    ensures r.Slack(s)
  {
    hide MetaAxis, BlockToks, OpenToks;
    SameLengths(st, r);
  }

  /** All nine arrays are copied, none is shared. */
  method CopyArrays(st: Store) returns (r: Store)
    requires st.Shape()
    ensures AllFresh(r) && r.Shape() && SameContents(st, r)
    ensures unchanged(st.tokenIds, st.typeIds, st.startLookup, st.insnMetaRuns, st.insnIdxRuns, st.insnStrs)
    ensures unchanged(st.blockInsnRuns, st.blockMetaRuns, st.blockAddrs)
  {
    var a := CopyTokenArrays(st);
    var b := CopyInsnArrays(a);
    r := CopyBlockArrays(b);
    SameLengths(st, r);
  }

  method CopyStore(st: Store, ghost s: State) returns (r: Store)
    requires st.Valid(s)
    ensures AllFresh(r) && SameContents(st, r) && r.Valid(s)
    ensures unchanged(st.tokenIds, st.typeIds, st.startLookup, st.insnMetaRuns, st.insnIdxRuns, st.insnStrs)
    ensures unchanged(st.blockInsnRuns, st.blockMetaRuns, st.blockAddrs)
  {
    hide Store.Shape, Store.Slack, Store.Means, SameContents, WellFormed;
    r := CopyArrays(st);
    SameMeaning(st, r, s);
    SameSlack(st, r, s);
  }
}
