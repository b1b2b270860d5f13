/** The vocabulary: a forward map and an id list, with type and platform arrays that
    double when they are full. */
module VocabularyManager {
  import opened TokenSeqs
  import opened Results
  import opened NumpyArrays
  import opened VocabularyRuns

  const ERROR_TYPE := 0
  const UNRESOLVED_TYPE := -1

  function HexDigit(n: int): char
    requires 0 <= n < 16
  {
    "0123456789ABCDEF"[n]
  }

  /** The id list holds a placeholder for every digit slot, then the registered names. */
  function DigitSlots(): (slots: seq<string>)
    ensures |slots| == RESERVED_DIGIT_COUNT
  {
    seq(RESERVED_DIGIT_COUNT, i requires 0 <= i < RESERVED_DIGIT_COUNT => "digit_" + [HexDigit(i / 16), HexDigit(i % 16)])
  }

  /** The name recorded under a platform id; -1 stands for no platform. */
  function PlatformNamed(platformList: seq<string>, pid: int): Option<string> {
    if 0 <= pid < |platformList| then Some(platformList[pid]) else None
  }

  function PlatformsNamed(platformList: seq<string>, pids: seq<int>): seq<Option<string>> {
    seq(|pids|, i requires 0 <= i < |pids| => PlatformNamed(platformList, pids[i]))
  }

  /** Entering more platforms at the end renames none. */
  lemma NamedGrows(platformList: seq<string>, more: seq<string>, pids: seq<int>)
    requires platformList <= more && forall i :: 0 <= i < |pids| ==> pids[i] < |platformList|
    ensures PlatformsNamed(more, pids) == PlatformsNamed(platformList, pids)
  {
  }

  lemma NamedUpdate(platformList: seq<string>, pids: seq<int>, at: nat, pid: int)
    requires at < |pids| && 0 <= pid < |platformList|
    ensures PlatformsNamed(platformList, pids[at := pid])
            == PlatformsNamed(platformList, pids)[at := Some(platformList[pid])]
  {
  }

  lemma NamedAt(platformList: seq<string>, pids: seq<int>, i: nat)
    requires i < |pids|
    ensures PlatformsNamed(platformList, pids)[i] == PlatformNamed(platformList, pids[i])
    ensures |PlatformsNamed(platformList, pids)| == |pids|
  {
  }

  lemma NamedSnoc(platformList: seq<string>, pids: seq<int>, pid: int)
    ensures PlatformsNamed(platformList, pids + [pid])
            == PlatformsNamed(platformList, pids) + [PlatformNamed(platformList, pid)]
  {
  }

  /** The forward map and the id list are inverse above the digit range. */
  ghost predicate Inverse(ids: map<string, int>, list: seq<string>) {
    && |list| >= RESERVED_DIGIT_COUNT
    && (forall t :: t in ids ==> RESERVED_DIGIT_COUNT <= ids[t] < |list| && list[ids[t]] == t)
    && (forall i :: RESERVED_DIGIT_COUNT <= i < |list| ==> list[i] in ids && ids[list[i]] == i)
  }

  lemma InverseSize(ids: map<string, int>, list: seq<string>)
    requires Inverse(ids, list)
    ensures |list| >= RESERVED_DIGIT_COUNT
  {
  }

  lemma FilledSizes(types: seq<int>, insns: seq<int>, pids: seq<int>, size: nat, platformCount: nat, unified: bool)
    requires Filled(types, insns, pids, size, platformCount, unified)
    ensures RESERVED_DIGIT_COUNT <= |types| == |insns| && (unified ==> |pids| == |types|)
  {
  }

  lemma FilledLonger(types: seq<int>, insns: seq<int>, pids: seq<int>, size: nat, platformCount: nat, unified: bool)
    requires Filled(types, insns, pids, size, platformCount, unified)
    ensures Filled(types, insns, pids, size + 1, platformCount, unified)
    ensures size < |pids| ==> pids[size] == -1
    ensures |types| == |insns| && (unified ==> |pids| == |types|)
  {
  }

  lemma FilledSet(types: seq<int>, insns: seq<int>, pids: seq<int>, size: nat, platformCount: nat, unified: bool,
                  at: nat, ttype: int, insnType: int)
    requires Filled(types, insns, pids, size, platformCount, unified) && RESERVED_DIGIT_COUNT <= at < |types|
    ensures |types| == |insns| && (unified ==> |pids| == |types|)
    ensures Filled(types[at := ttype], insns[at := insnType], pids, size, platformCount, unified)
  {
  }

  lemma InverseAdd(ids: map<string, int>, list: seq<string>, token: string)
    requires Inverse(ids, list) && token !in ids
    ensures Inverse(ids[token := |list|], list + [token])
  {
  }

  /** The arrays have one capacity, digit slots are unresolved, and entries behind the
      vocabulary have no platform. */
  predicate Filled(types: seq<int>, insns: seq<int>, pids: seq<int>, size: nat, platformCount: nat, unified: bool) {
    && RESERVED_DIGIT_COUNT <= |types| == |insns|
    && (unified ==> |pids| == |types|)
    && (forall i :: 0 <= i < RESERVED_DIGIT_COUNT ==> types[i] == UNRESOLVED_TYPE)
    && (forall i :: 0 <= i < |pids| ==> -1 <= pids[i] < platformCount)
    && (forall i :: size <= i < |pids| ==> pids[i] == -1)
  }

  /** What the id list and the arrays say is registered. */
  function Contents(list: seq<string>, types: seq<int>, insns: seq<int>, pids: seq<int>, platformList: seq<string>, unified: bool): Vocab
    requires RESERVED_DIGIT_COUNT <= |list| <= |types| == |insns| && (unified ==> |pids| == |types|)
  {
    var size := |list|;
    Vocab(list[RESERVED_DIGIT_COUNT..], types[RESERVED_DIGIT_COUNT..size], insns[RESERVED_DIGIT_COUNT..size],
          if unified then PlatformsNamed(platformList, pids[RESERVED_DIGIT_COUNT..size])
          else seq(size - RESERVED_DIGIT_COUNT, _ => None))
  }

  /** `now` keeps the first n entries of `before` and holds x behind them. */
  predicate Continues(before: seq<int>, now: seq<int>, n: nat, x: int) {
    n <= |before| && n < |now| && now[..n] == before[..n] && now[n] == x
  }

  lemma ContinuesSlice(before: seq<int>, now: seq<int>, n: nat, x: int)
    requires Continues(before, now, n, x) && RESERVED_DIGIT_COUNT <= n
    ensures now[RESERVED_DIGIT_COUNT..n + 1] == before[RESERVED_DIGIT_COUNT..n] + [x]
  {
    assert now[RESERVED_DIGIT_COUNT..n + 1] == now[..n][RESERVED_DIGIT_COUNT..] + [now[n]];
    assert before[RESERVED_DIGIT_COUNT..n] == before[..n][RESERVED_DIGIT_COUNT..];
  }

  /** One more entry in the list and in each array is one more registration. */
  lemma ContentsNext(list: seq<string>, token: string, types: seq<int>, insns: seq<int>, pids: seq<int>,
                     types1: seq<int>, insns1: seq<int>, pids1: seq<int>, platformList: seq<string>, unified: bool,
                     ttype: int, insnType: int)
    requires RESERVED_DIGIT_COUNT <= |list| <= |types| == |insns| && (unified ==> |pids| == |types|)
    requires |list| < |types1| == |insns1| && (unified ==> |pids1| == |types1|)
    requires Continues(types, types1, |list|, ttype) && Continues(insns, insns1, |list|, insnType)
    requires unified ==> Continues(pids, pids1, |list|, -1)
    ensures var v := Contents(list, types, insns, pids, platformList, unified);
      Contents(list + [token], types1, insns1, pids1, platformList, unified)
      == Vocab(v.names + [token], v.types + [ttype], v.insnTypes + [insnType], v.platforms + [None])
  {
    hide PlatformsNamed, Continues;
    var n := |list|;
    ContinuesSlice(types, types1, n, ttype);
    ContinuesSlice(insns, insns1, n, insnType);
    assert (list + [token])[RESERVED_DIGIT_COUNT..] == list[RESERVED_DIGIT_COUNT..] + [token];
    if unified {
      ContinuesSlice(pids, pids1, n, -1);
      NamedSnoc(platformList, pids[RESERVED_DIGIT_COUNT..n], -1);
    } else {
      NoneSnoc(n - RESERVED_DIGIT_COUNT);
    }
  }

  lemma NoneSnoc(n: nat)
    ensures seq<Option<string>>(n + 1, _ => None) == seq<Option<string>>(n, _ => None) + [None]
  {
  }

  /** The forward map answers where the id list has a name. */
  lemma Known(ids: map<string, int>, list: seq<string>, token: string)
    requires Inverse(ids, list)
    ensures token !in ids ==> IndexOf(list[RESERVED_DIGIT_COUNT..], token).None?
    ensures token in ids ==> IndexOf(list[RESERVED_DIGIT_COUNT..], token) == Some(ids[token] - RESERVED_DIGIT_COUNT)
  {
    var names := list[RESERVED_DIGIT_COUNT..];
    forall i, j | 0 <= i < j < |names|
      ensures names[i] != names[j]
    {
      ListedOnce(ids, list, RESERVED_DIGIT_COUNT + i, RESERVED_DIGIT_COUNT + j);
    }
    if token in ids {
      assert names[ids[token] - RESERVED_DIGIT_COUNT] == token;
      hide Inverse;
      IndexDistinct(names, ids[token] - RESERVED_DIGIT_COUNT);
    } else {
      NotListed(ids, list, token);
      hide Inverse;
    }
  }

  lemma ListedOnce(ids: map<string, int>, list: seq<string>, i: nat, j: nat)
    requires Inverse(ids, list) && RESERVED_DIGIT_COUNT <= i < j < |list|
    ensures list[i] != list[j]
  {
    assert ids[list[i]] == i && ids[list[j]] == j;
  }

  lemma NotListed(ids: map<string, int>, list: seq<string>, token: string)
    requires Inverse(ids, list) && token !in ids
    ensures token !in list[RESERVED_DIGIT_COUNT..]
  {
  }

  class VocabularyManager {
    const families: Families
    const platform: Option<string>
    var platformList: seq<string>
    var platformReverse: map<string, int>
    var tokenToPlatform: array<int>
    var tokenToId: map<string, int>
    var idToToken: seq<string>
    var idToTokenType: array<int>
    var insnTypes: array<int>

    ghost predicate MapsInverse()
      reads this`idToToken, this`tokenToId
    {
      Inverse(tokenToId, idToToken)
    }

    ghost predicate PlatformsInverse()
      reads this`platformList, this`platformReverse
    {
      && (forall p :: p in platformReverse ==> 0 <= platformReverse[p] < |platformList| && platformList[platformReverse[p]] == p)
      && (forall i :: 0 <= i < |platformList| ==> platformList[i] in platformReverse && platformReverse[platformList[i]] == i)
    }

    ghost predicate Arrays()
      reads this, tokenToPlatform, idToTokenType, insnTypes
    {
      && idToTokenType != insnTypes && idToTokenType != tokenToPlatform && insnTypes != tokenToPlatform
      && Filled(idToTokenType[..], insnTypes[..], tokenToPlatform[..], |idToToken|, |platformList|, platform.None?)
    }

    ghost predicate Valid()
      reads this, tokenToPlatform, idToTokenType, insnTypes
    {
      && MapsInverse() && PlatformsInverse() && Arrays()
      && |idToToken| <= idToTokenType.Length
      && idToToken[..RESERVED_DIGIT_COUNT] == DigitSlots()
    }

    /** What is registered, without the digit slots and the spare capacity. */
    ghost function State(): (v: Vocab)
      requires Valid()
      reads this, tokenToPlatform, idToTokenType, insnTypes
      ensures Aligned(v) && |v.names| == |idToToken| - RESERVED_DIGIT_COUNT
    {
      Contents(idToToken, idToTokenType[..], insnTypes[..], tokenToPlatform[..], platformList, platform.None?)
    }

    /** An empty vocabulary: digit slots only. */
    constructor (families: Families, platform: Option<string>)
      ensures Valid() && State() == EMPTY
      ensures this.families == families && this.platform == platform
      ensures |idToToken| == 256 && forall i :: 0 <= i < 256 ==>
        idToToken[i] == "digit_" + ["0123456789ABCDEF"[i / 16], "0123456789ABCDEF"[i % 16]]
      ensures idToTokenType.Length == insnTypes.Length == 256
      ensures forall i :: 0 <= i < 256 ==> idToTokenType[i] == -1 && insnTypes[i] == -1
      ensures fresh(tokenToPlatform) && fresh(idToTokenType) && fresh(insnTypes)
    {
      this.families, this.platform := families, platform;
      platformList, platformReverse := [], map[];
      tokenToPlatform := new int[if platform.None? then RESERVED_DIGIT_COUNT else 0](_ => -1);
      tokenToId := map[];
      idToToken := DigitSlots();
      idToTokenType := new int[RESERVED_DIGIT_COUNT](_ => UNRESOLVED_TYPE);
      insnTypes := new int[RESERVED_DIGIT_COUNT](_ => AGNOSTIC);
    }

    /** The id of a platform name, entered at the end of the list when it is new. */
    method PlatformId(name: string) returns (pid: int)
      requires PlatformsInverse()
      modifies this`platformList, this`platformReverse
      ensures PlatformsInverse() && old(platformList) <= platformList
      ensures 0 <= pid < |platformList| && platformList[pid] == name
    {
      if name in platformReverse {
        return platformReverse[name];
      }
      pid := |platformList|;
      platformList := platformList + [name];
      platformReverse := platformReverse[name := pid];
    }

    /** Doubles the arrays, keeping what they hold. */
    method Grow()
      requires Arrays()
      modifies this`idToTokenType, this`insnTypes, this`tokenToPlatform
      ensures Arrays()
      ensures idToTokenType.Length == insnTypes.Length == 2 * old(idToTokenType.Length)
      ensures fresh(idToTokenType) && fresh(insnTypes) && (fresh(tokenToPlatform) || tokenToPlatform == old(tokenToPlatform))
      ensures idToTokenType[..old(idToTokenType.Length)] == old(idToTokenType[..])
      ensures insnTypes[..old(idToTokenType.Length)] == old(insnTypes[..])
      ensures platform.None? ==> fresh(tokenToPlatform) && tokenToPlatform[..old(idToTokenType.Length)] == old(tokenToPlatform[..])
      ensures forall i :: old(idToTokenType.Length) <= i < tokenToPlatform.Length ==> platform.None? ==> tokenToPlatform[i] == -1
    {
      var newCapacity := idToTokenType.Length * 2;
      var types := Enlarged(idToTokenType, newCapacity, ERROR_TYPE);
      var insns := Enlarged(insnTypes, newCapacity, AGNOSTIC);
      idToTokenType, insnTypes := types, insns;
      if platform.None? {
        var platforms := Enlarged(tokenToPlatform, newCapacity, -1);
        tokenToPlatform := platforms;
      }
    }

    /** Registers a token and returns its id. A per-binary vocabulary that is handed a
        foreign platform keeps the token and fails. */
    method AddToken(token: string, ttype: int, insnType: int, incoming: Option<string>) returns (r: Result<nat>)
      requires Valid()
      modifies this, tokenToPlatform, idToTokenType, insnTypes
      ensures Valid()
      ensures fresh(tokenToPlatform) || tokenToPlatform == old(tokenToPlatform)
      ensures fresh(idToTokenType) || idToTokenType == old(idToTokenType)
      ensures fresh(insnTypes) || insnTypes == old(insnTypes)
      ensures (State(), r) == Registered(families, platform, old(State()), Registration(token, ttype, insnType, incoming))
    {
      hide VocabularyManager.Valid, VocabularyManager.State, Promoted, Refused;
      KnownHere(token);
      if token in tokenToId {
        var existingId := tokenToId[token];
        var promoted := PromoteToUnifiedPlatform(existingId, incoming);
        if promoted.Err? {
          return Err(promoted.error);
        }
        return Ok(existingId);
      }
      if Refused(token) {
        return Err("reserved or malformed token name");
      }
      r := AddNewToken(token, ttype, insnType, incoming);
    }

    lemma StateIsAligned()
      requires Valid()
      ensures Aligned(State())
    {
    }

    lemma KnownHere(token: string)
      requires Valid()
      ensures token !in tokenToId ==> IndexOf(State().names, token).None?
      ensures token in tokenToId ==>
        && RESERVED_DIGIT_COUNT <= tokenToId[token] < |idToToken|
        && IndexOf(State().names, token) == Some(tokenToId[token] - RESERVED_DIGIT_COUNT)
    {
      hide IndexOf;
      Known(tokenToId, idToToken, token);
    }

    /** Records a platform for a registered token. */
    method RecordPlatform(id: nat, name: string)
      requires Valid() && platform.None? && RESERVED_DIGIT_COUNT <= id < |idToToken|
      modifies this`platformList, this`platformReverse, tokenToPlatform
      ensures Valid()
      ensures var v := old(State());
        State() == v.(platforms := v.platforms[id - RESERVED_DIGIT_COUNT := Some(name)])
    {
      hide DigitSlots, PlatformsNamed, VocabularyManager.MapsInverse, VocabularyManager.PlatformsInverse;
      ghost var before, pids, size := platformList, tokenToPlatform[RESERVED_DIGIT_COUNT..|idToToken|], |idToToken|;
      var pid := PlatformId(name);
      tokenToPlatform[id] := pid;
      assert tokenToPlatform[RESERVED_DIGIT_COUNT..size] == pids[id - RESERVED_DIGIT_COUNT := pid];
      NamedGrows(before, platformList, pids);
      NamedUpdate(platformList, pids, id - RESERVED_DIGIT_COUNT, pid);
    }

    method PromoteToUnifiedPlatform(existingId: nat, incoming: Option<string>) returns (r: Result<()>)
      requires Valid() && RESERVED_DIGIT_COUNT <= existingId < |idToToken|
      modifies this`platformList, this`platformReverse, tokenToPlatform
      ensures Valid()
      ensures var at := existingId - RESERVED_DIGIT_COUNT;
        var p := Promoted(families, old(State()).platforms[at], incoming);
        if platform.Some? then r.Ok? && State() == old(State())
        else if p.Err? then r == Err(p.error) && State() == old(State())
        else r.Ok? && State() == old(State()).(platforms := old(State()).platforms[at := p.value])
    {
      hide PlatformsNamed, VocabularyManager.MapsInverse, VocabularyManager.PlatformsInverse;
      if platform.None? {
        NamedAt(platformList, tokenToPlatform[RESERVED_DIGIT_COUNT..|idToToken|], existingId - RESERVED_DIGIT_COUNT);
      }
      if platform.Some? || incoming.None? {
        return Ok(());
      }
      var existingPid := tokenToPlatform[existingId];
      if existingPid < 0 {
        return Ok(());
      }
      var existingPlatform := platformList[existingPid];
      if existingPlatform == incoming.value {
        return Ok(());
      }
      var family := Lookup(families.familyOf, incoming.value);
      var unifiedName := if family.Some? then Lookup(families.unifiedName, family.value) else None;
      if unifiedName.None? {
        return Ok(());
      }
      if existingPlatform == unifiedName.value {
        return Ok(());
      }
      if Lookup(families.familyOf, existingPlatform) != family {
        return Err("Cross-family token collision");
      }
      RecordPlatform(existingId, unifiedName.value);
      return Ok(());
    }

    method AddNewToken(token: string, ttype: int, insnType: int, incoming: Option<string>) returns (r: Result<nat>)
      requires Valid() && token !in tokenToId
      modifies this, tokenToPlatform, idToTokenType, insnTypes
      ensures Valid()
      ensures fresh(tokenToPlatform) || tokenToPlatform == old(tokenToPlatform)
      ensures fresh(idToTokenType) || idToTokenType == old(idToTokenType)
      ensures fresh(insnTypes) || insnTypes == old(insnTypes)
      ensures var v := old(State());
        State() == Vocab(v.names + [token], v.types + [ttype], v.insnTypes + [insnType],
                         v.platforms + [if platform.Some? then None else incoming])
      ensures r == if platform.Some? && incoming.Some? && platform != incoming then Err("Platform mismatch")
                   else Ok(RESERVED_DIGIT_COUNT + |old(State()).names|)
    {
      hide VocabularyManager.Valid, VocabularyManager.State;
      ghost var v := State();
      var tokenId := EnterToken(token, ttype, insnType);
      if incoming.Some? {
        if platform.None? {
          RecordPlatform(tokenId, incoming.value);
        } else if platform != incoming {
          return Err("Platform mismatch");
        }
      }
      return Ok(tokenId);
    }

    /** Enters a token with its types and no platform. */
    method EnterToken(token: string, ttype: int, insnType: int) returns (tokenId: nat)
      requires Valid() && token !in tokenToId
      modifies this, idToTokenType, insnTypes
      ensures Valid()
      ensures fresh(tokenToPlatform) || tokenToPlatform == old(tokenToPlatform)
      ensures fresh(idToTokenType) || idToTokenType == old(idToTokenType)
      ensures fresh(insnTypes) || insnTypes == old(insnTypes)
      ensures tokenId == |old(idToToken)| && tokenId + 1 == |idToToken|
      ensures var v := old(State());
        State() == Vocab(v.names + [token], v.types + [ttype], v.insnTypes + [insnType], v.platforms + [None])
    {
      hide DigitSlots, Contents, Filled, Continues, Inverse, VocabularyManager.PlatformsInverse;
      ghost var list, types, insns, pids := idToToken, idToTokenType[..], insnTypes[..], tokenToPlatform[..];
      InverseSize(tokenToId, idToToken);
      FilledSizes(types, insns, pids, |list|, |platformList|, platform.None?);
      tokenId := EnterName(token, ttype, insnType);
      FilledSizes(idToTokenType[..], insnTypes[..], tokenToPlatform[..], |idToToken|, |platformList|, platform.None?);
      ContentsNext(list, token, types, insns, pids, idToTokenType[..], insnTypes[..], tokenToPlatform[..],
                   platformList, platform.None?, ttype, insnType);
    }

    /** Enters a new name at the next id, makes room for its types and sets them. */
    method EnterName(token: string, ttype: int, insnType: int) returns (tokenId: nat)
      requires Valid() && token !in tokenToId
      modifies this`tokenToId, this`idToToken, this`idToTokenType, this`insnTypes, this`tokenToPlatform
      modifies idToTokenType, insnTypes
      ensures tokenId == |old(idToToken)| && idToToken == old(idToToken) + [token] && MapsInverse() && Arrays()
      ensures tokenId < idToTokenType.Length
      ensures fresh(tokenToPlatform) || tokenToPlatform == old(tokenToPlatform)
      ensures fresh(idToTokenType) || idToTokenType == old(idToTokenType)
      ensures fresh(insnTypes) || insnTypes == old(insnTypes)
      ensures Continues(old(idToTokenType[..]), idToTokenType[..], tokenId, ttype)
      ensures Continues(old(insnTypes[..]), insnTypes[..], tokenId, insnType)
      ensures platform.None? ==> Continues(old(tokenToPlatform[..]), tokenToPlatform[..], tokenId, -1)
    {
      hide Inverse, Filled;
      InverseSize(tokenToId, idToToken);
      InverseAdd(tokenToId, idToToken, token);
      tokenId := |idToToken|;
      FilledLonger(idToTokenType[..], insnTypes[..], tokenToPlatform[..], tokenId, |platformList|, platform.None?);
      tokenToId := tokenToId[token := tokenId];
      idToToken := idToToken + [token];
      ghost var types, insns := idToTokenType[..], insnTypes[..];
      MakeRoom(tokenId);
      FilledSet(idToTokenType[..], insnTypes[..], tokenToPlatform[..], |idToToken|, |platformList|, platform.None?,
                tokenId, ttype, insnType);
      ghost var roomyTypes, roomyInsns := idToTokenType[..], insnTypes[..];
      idToTokenType[tokenId] := ttype;
      insnTypes[tokenId] := insnType;
      assert idToTokenType[..] == roomyTypes[tokenId := ttype] && insnTypes[..] == roomyInsns[tokenId := insnType];
      if platform.None? {
        assert tokenToPlatform[..][..tokenId] == tokenToPlatform[..tokenId];
        assert old(tokenToPlatform[..])[..tokenId] == old(tokenToPlatform[..|idToToken|]);
      }
    }

    /** Grows the arrays when the next id does not fit. */
    method MakeRoom(tokenId: nat)
      requires RESERVED_DIGIT_COUNT <= tokenId <= idToTokenType.Length && tokenId + 1 == |idToToken| && Arrays()
      requires tokenId < tokenToPlatform.Length ==> tokenToPlatform[tokenId] == -1
      modifies this`idToTokenType, this`insnTypes, this`tokenToPlatform
      ensures Arrays() && tokenId < idToTokenType.Length
      ensures fresh(tokenToPlatform) || tokenToPlatform == old(tokenToPlatform)
      ensures fresh(idToTokenType) || idToTokenType == old(idToTokenType)
      ensures fresh(insnTypes) || insnTypes == old(insnTypes)
      ensures idToTokenType[..tokenId] == old(idToTokenType[..tokenId])
      ensures insnTypes[..tokenId] == old(insnTypes[..tokenId])
      ensures platform.None? ==> tokenToPlatform[..tokenId] == old(tokenToPlatform[..tokenId]) && tokenToPlatform[tokenId] == -1
    {
      if tokenId >= idToTokenType.Length {
        Grow();
      }
    }
  }

  /** A run of registrations on the object: the arrays, lists and maps carry exactly the
      vocabulary of the run, and every call answers as in the run. */
  method RegisterEach(m: VocabularyManager, rs: seq<Registration>) returns (results: seq<Result<nat>>)
    requires m.Valid()
    modifies m, m.tokenToPlatform, m.idToTokenType, m.insnTypes
    ensures m.Valid() && Aligned(old(m.State())) && m.State() == Run(m.families, m.platform, old(m.State()), rs)
    ensures |results| == |rs|
    ensures forall i :: 0 <= i < |rs| ==>
      results[i] == Registered(m.families, m.platform, Run(m.families, m.platform, old(m.State()), rs[..i]), rs[i]).1
  {
    hide VocabularyManager.Valid, VocabularyManager.State, Registered, Run;
    ghost var start := m.State();
    m.StateIsAligned();
    results := [];
    NoRegistrations(m.families, m.platform, start, rs);
    for k := 0 to |rs|
      invariant m.Valid() && m.State() == Run(m.families, m.platform, start, rs[..k]) && |results| == k
      invariant fresh(m.tokenToPlatform) || m.tokenToPlatform == old(m.tokenToPlatform)
      invariant fresh(m.idToTokenType) || m.idToTokenType == old(m.idToTokenType)
      invariant fresh(m.insnTypes) || m.insnTypes == old(m.insnTypes)
      invariant forall i :: 0 <= i < k ==>
        results[i] == Registered(m.families, m.platform, Run(m.families, m.platform, start, rs[..i]), rs[i]).1
    {
      RegistrationNext(m.families, m.platform, start, rs, k);
      var r := m.AddToken(rs[k].token, rs[k].ttype, rs[k].insnType, rs[k].platform);
      results := results + [r];
    }
    assert rs[..|rs|] == rs;
  }

  lemma NoRegistrations(fs: Families, own: Option<string>, v: Vocab, rs: seq<Registration>)
    requires Aligned(v)
    ensures Run(fs, own, v, rs[..0]) == v
  {
  }

  lemma RegistrationNext(fs: Families, own: Option<string>, v: Vocab, rs: seq<Registration>, k: nat)
    requires Aligned(v) && k < |rs|
    ensures Run(fs, own, v, rs[..k + 1]) == Registered(fs, own, Run(fs, own, v, rs[..k]), rs[k]).0
  {
    assert rs[..k + 1][..k] == rs[..k];
  }
}
