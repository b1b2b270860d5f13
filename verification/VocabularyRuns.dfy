/** What a vocabulary holds, what one registration does to it, and what whole runs of
    registrations guarantee. */
module VocabularyRuns {
  import opened TokenSeqs
  import opened Results

  /** Which ISAs belong to a family, and the name of a family seen through several ISAs. */
  datatype Families = Families(familyOf: map<string, string>, unifiedName: map<string, string>)

  /** Registered tokens in id order, the first one at id 256, with the type and the
      platform recorded for each. */
  datatype Vocab = Vocab(names: seq<string>, types: seq<int>, insnTypes: seq<int>, platforms: seq<Option<string>>)

  /** The instruction type of tokens that belong to no instruction. */
  const AGNOSTIC := -1

  predicate Aligned(v: Vocab) {
    |v.names| == |v.types| == |v.insnTypes| == |v.platforms|
  }

  predicate Distinct(names: seq<string>) {
    forall i, j :: 0 <= i < j < |names| ==> names[i] != names[j]
  }

  datatype Registration = Registration(token: string, ttype: int, insnType: int, platform: Option<string>)

  function IndexOf(names: seq<string>, token: string): (r: Option<nat>)
    ensures r.None? <==> token !in names
    ensures r.Some? ==> r.value < |names| && names[r.value] == token
  {
    if names == [] then None
    else if names[|names| - 1] == token then Some(|names| - 1)
    else IndexOf(names[..|names| - 1], token)
  }

  function Lookup(m: map<string, string>, key: string): Option<string> {
    if key in m then Some(m[key]) else None
  }

  /** The name a family of ISAs is recorded under, if it has one. */
  function UnifiedOf(fs: Families, platform: string): Option<string> {
    var family := Lookup(fs.familyOf, platform);
    if family.None? then None else Lookup(fs.unifiedName, family.value)
  }

  /** What happens to a token's recorded platform when it is registered again. */
  function Promoted(fs: Families, existing: Option<string>, incoming: Option<string>): Result<Option<string>> {
    if incoming.None? || existing.None? || existing == incoming then Ok(existing)
    else
      var unified := UnifiedOf(fs, incoming.value);
      if unified.None? || existing == unified then Ok(existing)
      else if Lookup(fs.familyOf, existing.value) != Lookup(fs.familyOf, incoming.value) then Err("Cross-family token collision")
      else Ok(unified)
  }

  predicate HasPrefix(s: string, prefix: string) { prefix <= s }

  predicate Contains(s: string, part: string) {
    HasPrefix(s, part) || (s != "" && Contains(s[1..], part))
  }

  predicate IsHexDigit(c: char) { '0' <= c <= '9' || 'A' <= c <= 'F' || 'a' <= c <= 'f' }

  predicate IsDigitSlotName(token: string) {
    |token| == 8 && HasPrefix(token, "digit_") && IsHexDigit(token[6]) && IsHexDigit(token[7])
  }

  /** The names that may not be registered: numbered names of two digits or more, and
      names of digit slots. */
  predicate Refused(token: string) {
    || ((HasPrefix(token, "Block") || HasPrefix(token, "OPAQUE_CONST"))
        && !(token[|token| - 2] == '_' || Contains(token, "Lit") || token == "Block_Def"))
    || IsDigitSlotName(token)
  }

  /** One registration: the vocabulary behind it and the id it returns. `own` is the
      platform of a per-binary vocabulary, absent on a unified one. */
  function Registered(fs: Families, own: Option<string>, v: Vocab, r: Registration): (Vocab, Result<nat>)
    requires Aligned(v)
  {
    var at := IndexOf(v.names, r.token);
    if at.Some? then
      if own.Some? then (v, Ok(RESERVED_DIGIT_COUNT + at.value))
      else
        var platform := Promoted(fs, v.platforms[at.value], r.platform);
        if platform.Err? then (v, Err(platform.error))
        else (v.(platforms := v.platforms[at.value := platform.value]), Ok(RESERVED_DIGIT_COUNT + at.value))
    else if Refused(r.token) then (v, Err("reserved or malformed token name"))
    else
      var added := Vocab(v.names + [r.token], v.types + [r.ttype], v.insnTypes + [r.insnType],
                         v.platforms + [if own.Some? then None else r.platform]);
      if own.Some? && r.platform.Some? && own != r.platform then (added, Err("Platform mismatch"))
      else (added, Ok(RESERVED_DIGIT_COUNT + |v.names|))
  }

  function Run(fs: Families, own: Option<string>, v: Vocab, rs: seq<Registration>): (r: Vocab)
    requires Aligned(v)
    ensures Aligned(r)
  {
    if rs == [] then v
    else Registered(fs, own, Run(fs, own, v, rs[..|rs| - 1]), rs[|rs| - 1]).0
  }

  // ---- ids ----

  /** Ids never change: names and types only grow at the end. */
  lemma RegisteredExtends(fs: Families, own: Option<string>, v: Vocab, r: Registration)
    requires Aligned(v)
    ensures var (after, id) := Registered(fs, own, v, r);
      && Aligned(after) && v.names <= after.names && v.types <= after.types && v.insnTypes <= after.insnTypes
      && (Distinct(v.names) ==> Distinct(after.names))
      && (id.Ok? ==> RESERVED_DIGIT_COUNT <= id.value < RESERVED_DIGIT_COUNT + |after.names|
                     && after.names[id.value - RESERVED_DIGIT_COUNT] == r.token)
      && (r.token !in v.names && r.token in after.names ==> after.types[|v.names|] == r.ttype && after.names[|v.names|] == r.token)
  {
  }

  /** Over every run, ids stay what they were, names stay distinct, and types stay with
      the ids they were registered for. */
  lemma {:induction false} RunExtends(fs: Families, own: Option<string>, v: Vocab, rs: seq<Registration>, k: nat)
    requires Aligned(v) && Distinct(v.names) && k <= |rs|
    ensures var before, after := Run(fs, own, v, rs[..k]), Run(fs, own, v, rs);
      && before.names <= after.names && before.types <= after.types && before.insnTypes <= after.insnTypes
      && Distinct(after.names)
  {
    if k == |rs| {
      assert rs[..k] == rs;
      if k > 0 {
        RunExtends(fs, own, v, rs[..k - 1], k - 1);
        RegisteredExtends(fs, own, Run(fs, own, v, rs[..k - 1]), rs[k - 1]);
      }
    } else {
      var init := rs[..|rs| - 1];
      RunExtends(fs, own, v, init, k);
      assert init[..k] == rs[..k];
      RegisteredExtends(fs, own, Run(fs, own, v, init), rs[|rs| - 1]);
    }
  }

  /** On a vocabulary of one platform a registration is refused exactly when its token is
      new and has no acceptable name or another platform. A token of another platform is
      stored all the same: registering it once more returns its id. */
  lemma RefusedOnOnePlatform(fs: Families, own: string, v: Vocab, r: Registration)
    requires Aligned(v)
    ensures var (after, id) := Registered(fs, Some(own), v, r);
      && (id.Err? <==> r.token !in v.names && (Refused(r.token) || (r.platform.Some? && r.platform.value != own)))
      && (r.token !in v.names && !Refused(r.token) ==>
            && after == Vocab(v.names + [r.token], v.types + [r.ttype], v.insnTypes + [r.insnType], v.platforms + [None])
            && Registered(fs, Some(own), after, r) == (after, Ok(256 + |v.names|)))
      && (r.token in v.names || Refused(r.token) ==> after == v)
  {
    hide Refused, Promoted;
    if r.token !in v.names && !Refused(r.token) {
      var names := v.names + [r.token];
      assert names[|names| - 1] == r.token;
    }
  }

  /** On a unified one only an unacceptable new name is refused, or what a known token's
      record does not admit; and no refused registration changes anything. */
  lemma RefusedOnUnified(fs: Families, v: Vocab, r: Registration)
    requires Aligned(v)
    ensures var (after, id) := Registered(fs, None, v, r);
      && (id.Err? <==> if r.token in v.names then Promoted(fs, v.platforms[IndexOf(v.names, r.token).value], r.platform).Err?
                       else Refused(r.token))
      && (id.Err? ==> after == v)
  {
    hide Refused, Promoted;
  }

  lemma FreshLands(fs: Families, own: Option<string>, v: Vocab, r: Registration)
    requires Aligned(v) && r.token !in v.names && !Refused(r.token)
    ensures var after := Registered(fs, own, v, r).0;
      && after.names == v.names + [r.token] && after.types == v.types + [r.ttype]
      && after.insnTypes == v.insnTypes + [r.insnType]
  {
  }

  function TokensOf(table: seq<Registration>): seq<string> {
    seq(|table|, i requires 0 <= i < |table| => table[i].token)
  }

  function TypesOf(table: seq<Registration>): seq<int> {
    seq(|table|, i requires 0 <= i < |table| => table[i].ttype)
  }

  function InsnTypesOf(table: seq<Registration>): seq<int> {
    seq(|table|, i requires 0 <= i < |table| => table[i].insnType)
  }

  /** Acceptable names, none of them registered yet, each listed once. */
  predicate IsFreshTable(v: Vocab, table: seq<Registration>) {
    && (forall i :: 0 <= i < |table| ==> !Refused(table[i].token) && table[i].token !in v.names)
    && Distinct(TokensOf(table))
  }

  lemma FreshInit(v: Vocab, table: seq<Registration>)
    requires IsFreshTable(v, table) && table != []
    ensures var init, last := table[..|table| - 1], table[|table| - 1];
      && IsFreshTable(v, init) && last.token !in v.names + TokensOf(init) && !Refused(last.token)
      && TokensOf(table) == TokensOf(init) + [last.token] && TypesOf(table) == TypesOf(init) + [last.ttype]
      && InsnTypesOf(table) == InsnTypesOf(init) + [last.insnType]
  {
    hide Refused;
    var init := table[..|table| - 1];
    assert TokensOf(table)[|init|] == table[|init|].token;
    assert forall i :: 0 <= i < |init| ==> TokensOf(table)[i] == TokensOf(init)[i] == table[i].token;
  }

  /** Fresh names of a table land at consecutive ids, in the order of the table. */
  lemma {:induction false} TableLandsInOrder(fs: Families, own: Option<string>, v: Vocab, table: seq<Registration>)
    requires Aligned(v) && IsFreshTable(v, table)
    ensures Run(fs, own, v, table).names == v.names + TokensOf(table)
    ensures Run(fs, own, v, table).types == v.types + TypesOf(table)
    ensures Run(fs, own, v, table).insnTypes == v.insnTypes + InsnTypesOf(table)
  {
    if table == [] {
      assert v.names + TokensOf(table) == v.names && v.types + TypesOf(table) == v.types;
      assert v.insnTypes + InsnTypesOf(table) == v.insnTypes;
    } else {
      hide Registered, IsFreshTable, TokensOf, TypesOf, InsnTypesOf, Refused;
      var init, last := table[..|table| - 1], table[|table| - 1];
      FreshInit(v, table);
      TableLandsInOrder(fs, own, v, init);
      FreshLands(fs, own, Run(fs, own, v, init), last);
      AppendAssoc(v.names, TokensOf(init), [last.token]);
      AppendAssoc(v.types, TypesOf(init), [last.ttype]);
      AppendAssoc(v.insnTypes, InsnTypesOf(init), [last.insnType]);
    }
  }

  // ---- recorded platforms ----

  /** A promotion that is refused leaves the record as it was. */
  function Absorbed(fs: Families, existing: Option<string>, incoming: Option<string>): Option<string> {
    var p := Promoted(fs, existing, incoming);
    if p.Ok? then p.value else existing
  }

  /** What a unified vocabulary records for one token from the platforms it arrives with. */
  function Recorded(fs: Families, arrivals: seq<Option<string>>): Option<string>
    requires arrivals != []
  {
    if |arrivals| == 1 then arrivals[0]
    else Absorbed(fs, Recorded(fs, arrivals[..|arrivals| - 1]), arrivals[|arrivals| - 1])
  }

  /** The platforms a token arrives with, in order. */
  function Arrivals(rs: seq<Registration>, token: string): seq<Option<string>> {
    if rs == [] then []
    else
      var init, last := Arrivals(rs[..|rs| - 1], token), rs[|rs| - 1];
      if last.token == token then init + [last.platform] else init
  }

  const EMPTY := Vocab([], [], [], [])

  /** Over every run on a unified vocabulary, the platform recorded for a token depends
      on that token's own arrivals only. */
  lemma {:induction false} PlatformOfRun(fs: Families, rs: seq<Registration>, token: string)
    requires !Refused(token)
    ensures var v := Run(fs, None, EMPTY, rs);
      var at := IndexOf(v.names, token);
      && (at.Some? <==> Arrivals(rs, token) != [])
      && (at.Some? ==> v.platforms[at.value] == Recorded(fs, Arrivals(rs, token)))
  {
    hide Promoted, Refused;
    if rs == [] {
    } else {
      var init, r := rs[..|rs| - 1], rs[|rs| - 1];
      PlatformOfRun(fs, init, token);
      RunExtends(fs, None, EMPTY, init, |init|);
      var v := Run(fs, None, EMPTY, init);
      StepForToken(fs, v, r, token);
      if r.token == token && Arrivals(init, token) != [] {
        assert Arrivals(rs, token)[..|Arrivals(init, token)|] == Arrivals(init, token);
      }
    }
  }

  lemma IndexDistinct(names: seq<string>, i: nat)
    requires Distinct(names) && i < |names|
    ensures IndexOf(names, names[i]) == Some(i)
  {
  }

  lemma StepForToken(fs: Families, v: Vocab, r: Registration, token: string)
    requires Aligned(v) && Distinct(v.names) && !Refused(token)
    ensures var after := Registered(fs, None, v, r).0;
      var at, now := IndexOf(v.names, token), IndexOf(after.names, token);
      && (r.token != token ==> (now.Some? <==> at.Some?) && (at.Some? ==> after.platforms[now.value] == v.platforms[at.value]))
      && (r.token == token ==> now.Some?)
      && (r.token == token && at.None? ==> after.platforms[now.value] == r.platform)
      && (r.token == token && at.Some? ==> after.platforms[now.value] == Absorbed(fs, v.platforms[at.value], r.platform))
  {
    hide Promoted, Refused;
    RegisteredExtends(fs, None, v, r);
    var after := Registered(fs, None, v, r).0;
    var at := IndexOf(v.names, token);
    if at.Some? {
      IndexDistinct(after.names, at.value);
    }
  }

  // ---- the order of arrival ----

  /** A family's unified name is no ISA of another family. */
  predicate NamesApart(fs: Families) {
    forall family :: family in fs.unifiedName ==>
      var own := Lookup(fs.familyOf, fs.unifiedName[family]);
      own == None || own == Some(family)
  }

  /** Another ISA of the same family, and the family has a unified name. */
  predicate Joins(fs: Families, first: string, other: string) {
    && other != first && UnifiedOf(fs, other).Some?
    && Lookup(fs.familyOf, other) == Lookup(fs.familyOf, first)
  }

  predicate IsJoined(fs: Families, first: string, arrivals: seq<Option<string>>) {
    exists i :: 0 <= i < |arrivals| && arrivals[i].Some? && Joins(fs, first, arrivals[i].value)
  }

  lemma JoinedSnoc(fs: Families, first: string, init: seq<Option<string>>, last: Option<string>)
    ensures IsJoined(fs, first, init + [last])
            <==> IsJoined(fs, first, init) || (last.Some? && Joins(fs, first, last.value))
  {
    hide Joins;
    var all := init + [last];
    if IsJoined(fs, first, init) {
      var i :| 0 <= i < |init| && init[i].Some? && Joins(fs, first, init[i].value);
      assert all[i] == init[i];
    }
    if last.Some? && Joins(fs, first, last.value) {
      assert all[|init|] == last;
    }
  }

  /** The record after any arrivals, of any families: absent after an agnostic first one;
      the unified name once a second ISA of the first one's family arrives; otherwise the
      first ISA. Every other ISA leaves no trace. */
  lemma {:induction false} RecordedExactly(fs: Families, arrivals: seq<Option<string>>)
    requires arrivals != [] && NamesApart(fs)
    ensures Recorded(fs, arrivals)
            == if arrivals[0].None? then None
               else if IsJoined(fs, arrivals[0].value, arrivals) then UnifiedOf(fs, arrivals[0].value)
               else arrivals[0]
  {
    hide IsJoined;
    var init, last := arrivals[..|arrivals| - 1], arrivals[|arrivals| - 1];
    SplitLast(arrivals);
    if |arrivals| == 1 {
      if last.Some? {
        JoinedSnoc(fs, last.value, init, last);
        assert !IsJoined(fs, last.value, init) by { NotJoined(fs, last.value); }
      }
    } else {
      RecordedExactly(fs, init);
      assert arrivals[0] == init[0];
      if arrivals[0].Some? {
        JoinedSnoc(fs, arrivals[0].value, init, last);
        if IsJoined(fs, arrivals[0].value, init) {
          JoinedHasName(fs, arrivals[0].value, init);
        }
      }
    }
  }

  lemma NotJoined(fs: Families, first: string)
    ensures !IsJoined(fs, first, [])
  {
  }

  lemma JoinedHasName(fs: Families, first: string, arrivals: seq<Option<string>>)
    requires IsJoined(fs, first, arrivals)
    ensures UnifiedOf(fs, first).Some?
  {
  }

  /** An arrival is refused exactly when the first one is an ISA of another family (or of
      none), the arriving ISA's family has a unified name, and that name is not the record. */
  lemma RefusedExactly(fs: Families, arrivals: seq<Option<string>>, incoming: Option<string>)
    requires arrivals != [] && NamesApart(fs)
    ensures Promoted(fs, Recorded(fs, arrivals), incoming).Err?
            <==> && arrivals[0].Some? && incoming.Some? && UnifiedOf(fs, incoming.value).Some?
                 && Lookup(fs.familyOf, arrivals[0].value) != Lookup(fs.familyOf, incoming.value)
                 && Recorded(fs, arrivals) != UnifiedOf(fs, incoming.value)
  {
    hide Recorded, IsJoined;
    RecordedExactly(fs, arrivals);
    if arrivals[0].Some? && IsJoined(fs, arrivals[0].value, arrivals) {
      JoinedHasName(fs, arrivals[0].value, arrivals);
    }
  }

  predicate NoIsa(arrivals: seq<Option<string>>) {
    forall i :: 0 <= i < |arrivals| ==> arrivals[i].None?
  }

  predicate AllEqualOrAgnostic(arrivals: seq<Option<string>>, p: string) {
    forall i :: 0 <= i < |arrivals| ==> arrivals[i] == Some(p) || arrivals[i] == None
  }

  predicate SeveralIsas(arrivals: seq<Option<string>>) {
    exists i, j :: 0 <= i < j < |arrivals| && arrivals[i].Some? && arrivals[j].Some? && arrivals[i] != arrivals[j]
  }

  /** All ISAs belong to one family, and this is its unified name. */
  ghost predicate OfOneFamily(fs: Families, arrivals: seq<Option<string>>, unified: string) {
    exists family :: Lookup(fs.unifiedName, family) == Some(unified) && AllOf(fs, arrivals, family)
  }

  predicate AllOf(fs: Families, arrivals: seq<Option<string>>, family: string) {
    forall i :: 0 <= i < |arrivals| && arrivals[i].Some? ==> Lookup(fs.familyOf, arrivals[i].value) == Some(family)
  }

  /** What the record should be: the only ISA seen, or the unified name of several of one
      family. */
  ghost predicate RecordIsRight(fs: Families, arrivals: seq<Option<string>>, record: Option<string>) {
    if NoIsa(arrivals) then record.None?
    else
      && record.Some?
      && if AllEqualOrAgnostic(arrivals, record.value) then Some(record.value) in arrivals
         else SeveralIsas(arrivals) && OfOneFamily(fs, arrivals, record.value)
  }

  /** For every order of arrival of any ISAs the record is right exactly when there is no
      ISA, or the first arrival is one and the others repeat it or share its family with a
      unified name. */
  lemma RightUnlessAgnosticFirst(fs: Families, arrivals: seq<Option<string>>)
    requires arrivals != [] && NamesApart(fs)
    ensures RecordIsRight(fs, arrivals, Recorded(fs, arrivals))
            <==> || NoIsa(arrivals)
                 || (arrivals[0].Some?
                     && (AllEqualOrAgnostic(arrivals, arrivals[0].value) || exists unified :: OfOneFamily(fs, arrivals, unified)))
  {
    RecordedExactly(fs, arrivals);
    hide Recorded;
    if arrivals[0].Some? {
      var p := arrivals[0].value;
      if AllEqualOrAgnostic(arrivals, p) {
        assert !IsJoined(fs, p, arrivals);
        assert arrivals[0] in arrivals;
      } else if exists unified :: OfOneFamily(fs, arrivals, unified) {
        var unified :| OfOneFamily(fs, arrivals, unified);
        OneFamilyJoins(fs, arrivals, unified);
      }
    }
  }

  lemma OneFamilyJoins(fs: Families, arrivals: seq<Option<string>>, unified: string)
    requires arrivals != [] && arrivals[0].Some? && OfOneFamily(fs, arrivals, unified)
    requires !AllEqualOrAgnostic(arrivals, arrivals[0].value)
    ensures IsJoined(fs, arrivals[0].value, arrivals) && UnifiedOf(fs, arrivals[0].value) == Some(unified)
    ensures !AllEqualOrAgnostic(arrivals, unified) && SeveralIsas(arrivals)
  {
    var p := arrivals[0].value;
    var family :| Lookup(fs.unifiedName, family) == Some(unified) && AllOf(fs, arrivals, family);
    var i :| 0 <= i < |arrivals| && !(arrivals[i] == Some(p) || arrivals[i] == None);
    assert Joins(fs, p, arrivals[i].value);
    assert arrivals[0] != arrivals[i];
  }

  /** An ISA behind an agnostic first registration is never recorded. */
  lemma AgnosticFirstHidesIsa()
    ensures var fs, arrivals := Families(map[], map[]), [None, Some("isa")];
      Recorded(fs, arrivals) == None && !RecordIsRight(fs, arrivals, Recorded(fs, arrivals))
  {
    var fs: Families, arrivals: seq<Option<string>> := Families(map[], map[]), [None, Some("isa")];
    assert Recorded(fs, arrivals) == None by { RecordedExactly(fs, arrivals); }
    assert arrivals[1].Some?;
  }

  /** ISAs of two families with unified names: the second one is refused in either order,
      and the record keeps the first. */
  lemma OtherFamilyIsRefused()
    ensures var fs := Families(map["isa_a" := "a", "isa_b" := "b"], map["a" := "unified_a", "b" := "unified_b"]);
      && Promoted(fs, Some("isa_a"), Some("isa_b")).Err? && Promoted(fs, Some("isa_b"), Some("isa_a")).Err?
      && Recorded(fs, [Some("isa_a"), Some("isa_b")]) == Some("isa_a")
      && Recorded(fs, [Some("isa_b"), Some("isa_a")]) == Some("isa_b")
  {
    assert "isa_a"[4] != "isa_b"[4] && "a"[0] != "b"[0];
    assert "unified_a"[0] != "isa_a"[0] && "unified_b"[0] != "isa_a"[0];
    var fs := Families(map["isa_a" := "a", "isa_b" := "b"], map["a" := "unified_a", "b" := "unified_b"]);
    assert UnifiedOf(fs, "isa_a") == Some("unified_a") && UnifiedOf(fs, "isa_b") == Some("unified_b");
    assert "unified_a" != "isa_b" && "unified_b" != "isa_b";
    RecordedPair(fs, "isa_a", "isa_b");
    RecordedPair(fs, "isa_b", "isa_a");
  }

  lemma RecordedPair(fs: Families, first: string, second: string)
    ensures Recorded(fs, [Some(first), Some(second)]) == Absorbed(fs, Some(first), Some(second))
  {
    assert [Some(first), Some(second)][..1] == [Some(first)];
  }

  /** ISAs without a unified name are never promoted: the first arrival wins. */
  lemma {:induction false} FirstWinsWithoutFamily(fs: Families, arrivals: seq<Option<string>>)
    requires arrivals != []
    requires forall i :: 0 <= i < |arrivals| && arrivals[i].Some? ==> UnifiedOf(fs, arrivals[i].value).None?
    ensures Recorded(fs, arrivals) == arrivals[0]
  {
    if |arrivals| == 1 {
    } else {
      var init := arrivals[..|arrivals| - 1];
      assert forall i :: 0 <= i < |init| ==> init[i] == arrivals[i];
      FirstWinsWithoutFamily(fs, init);
    }
  }

  /** Two orders of the same two ISAs, recorded differently. */
  lemma OrderMattersWithoutFamily()
    ensures var fs, a, b := Families(map[], map[]), Some("isa_a"), Some("isa_b");
      Recorded(fs, [a, b]) == a && Recorded(fs, [b, a]) == b && a != b
  {
    var fs, a, b := Families(map[], map[]), Some("isa_a"), Some("isa_b");
    FirstWinsWithoutFamily(fs, [a, b]);
    FirstWinsWithoutFamily(fs, [b, a]);
    assert "isa_a"[4] != "isa_b"[4];
  }

  // ---- what a run holds, over its registrations ----

  predicate IsHex(c: char) { c in "0123456789ABCDEFabcdef" }

  predicate StandsAt(s: string, part: string, i: int) { 0 <= i <= |s| - |part| && s[i..i + |part|] == part }

  /** Which names are refused, letter by letter. */
  lemma RefusedNames(token: string)
    ensures Refused(token) <==>
      || (&& ((|token| >= 5 && token[..5] == "Block") || (|token| >= 12 && token[..12] == "OPAQUE_CONST"))
          && token[|token| - 2] != '_' && token != "Block_Def"
          && forall i :: !StandsAt(token, "Lit", i))
      || (|token| == 8 && token[..6] == "digit_" && IsHex(token[6]) && IsHex(token[7]))
  {
    assert HasPrefix(token, "Block") <==> |token| >= 5 && token[..5] == "Block";
    assert HasPrefix(token, "OPAQUE_CONST") <==> |token| >= 12 && token[..12] == "OPAQUE_CONST";
    assert HasPrefix(token, "digit_") <==> |token| >= 6 && token[..6] == "digit_";
    ContainsAt(token, "Lit");
    if |token| == 8 {
      HexDigits(token[6]);
      HexDigits(token[7]);
    }
    hide Contains, IsHexDigit, IsHex, StandsAt;
  }

  lemma HexDigits(c: char)
    ensures IsHexDigit(c) <==> IsHex(c)
  {
    var digits := "0123456789ABCDEFabcdef";
    if IsHexDigit(c) {
      var i := if c <= '9' then c as int - '0' as int else if c <= 'F' then c as int - 'A' as int + 10 else c as int - 'a' as int + 16;
      assert digits[i] == c;
    }
  }

  lemma {:induction false} ContainsAt(s: string, part: string)
    requires part != ""
    ensures Contains(s, part) <==> exists i :: StandsAt(s, part, i)
  {
    if s == "" {
    } else {
      ContainsAt(s[1..], part);
      assert HasPrefix(s, part) <==> StandsAt(s, part, 0);
      forall i
        ensures StandsAt(s[1..], part, i) <==> i >= 0 && StandsAt(s, part, i + 1)
      {
        if 0 <= i <= |s| - 1 - |part| {
          assert s[1..][i..i + |part|] == s[i + 1..i + 1 + |part|];
        }
      }
      if exists i :: StandsAt(s, part, i) {
        var i :| StandsAt(s, part, i);
        assert i > 0 ==> StandsAt(s[1..], part, i - 1);
      }
    }
  }

  /** The first registration of a token. */
  function FirstAt(rs: seq<Registration>, token: string): (k: Option<nat>)
    ensures k.None? <==> forall l :: 0 <= l < |rs| ==> rs[l].token != token
    ensures k.Some? ==> k.value < |rs| && rs[k.value].token == token && forall l :: 0 <= l < k.value ==> rs[l].token != token
  {
    if rs == [] then None
    else
      var init := FirstAt(rs[..|rs| - 1], token);
      if init.Some? then init else if rs[|rs| - 1].token == token then Some(|rs| - 1) else None
  }

  /** What one registration appends. */
  lemma Appends(fs: Families, own: Option<string>, v: Vocab, r: Registration)
    requires Aligned(v)
    ensures var after := Registered(fs, own, v, r).0;
      if r.token in v.names || Refused(r.token) then
        && after.names == v.names && after.types == v.types && after.insnTypes == v.insnTypes
        && (own.Some? ==> after == v)
      else
        && after.names == v.names + [r.token] && after.types == v.types + [r.ttype]
        && after.insnTypes == v.insnTypes + [r.insnType]
        && (own.Some? ==> after.platforms == v.platforms + [None])
        && (own.None? ==> after.platforms == v.platforms + [r.platform])
  {
  }

  /** Exactly the tokens of acceptable names are registered. */
  lemma {:induction false} RegisteredNames(fs: Families, own: Option<string>, rs: seq<Registration>, token: string)
    ensures token in Run(fs, own, EMPTY, rs).names <==> !Refused(token) && FirstAt(rs, token).Some?
  {
    if rs == [] {
    } else {
      var init, r := rs[..|rs| - 1], rs[|rs| - 1];
      RegisteredNames(fs, own, init, token);
      hide Refused, FirstAt, Run, Registered;
      FirstAtSnoc(init, r, token);
      SplitLast(rs);
      RunSnoc(fs, own, init, r);
      Appends(fs, own, Run(fs, own, EMPTY, init), r);
    }
  }

  lemma FirstAtSnoc(rs: seq<Registration>, r: Registration, token: string)
    ensures FirstAt(rs + [r], token)
            == if FirstAt(rs, token).Some? then FirstAt(rs, token) else if r.token == token then Some(|rs|) else None
  {
    assert (rs + [r])[..|rs|] == rs;
  }

  lemma RunSnoc(fs: Families, own: Option<string>, rs: seq<Registration>, r: Registration)
    ensures Run(fs, own, EMPTY, rs + [r]) == Registered(fs, own, Run(fs, own, EMPTY, rs), r).0
  {
    assert (rs + [r])[..|rs|] == rs;
  }

  /** Each id keeps what the first registration of its token said. A vocabulary of one
      platform records no platforms. */
  lemma {:induction false} FirstRegistrationDecides(fs: Families, own: Option<string>, rs: seq<Registration>, i: nat)
    requires i < |Run(fs, own, EMPTY, rs).names|
    ensures var v, k := Run(fs, own, EMPTY, rs), FirstAt(rs, Run(fs, own, EMPTY, rs).names[i]);
      && k.Some? && v.types[i] == rs[k.value].ttype && v.insnTypes[i] == rs[k.value].insnType
      && (own.Some? ==> v.platforms[i].None?)
  {
    if rs == [] {
    } else {
      hide Refused, FirstAt, Run, Registered;
      var init, r := rs[..|rs| - 1], rs[|rs| - 1];
      var before, token := Run(fs, own, EMPTY, init), Run(fs, own, EMPTY, rs).names[i];
      SplitLast(rs);
      RunSnoc(fs, own, init, r);
      Appends(fs, own, before, r);
      FirstAtSnoc(init, r, token);
      if i < |before.names| {
        FirstRegistrationDecides(fs, own, init, i);
      } else {
        RegisteredNames(fs, own, init, token);
      }
    }
  }

  /** Ids follow the order of first registrations. */
  lemma {:induction false} IdsInOrder(fs: Families, own: Option<string>, rs: seq<Registration>, i: nat, j: nat)
    requires i < j < |Run(fs, own, EMPTY, rs).names|
    ensures var v := Run(fs, own, EMPTY, rs);
      var k, l := FirstAt(rs, v.names[i]), FirstAt(rs, v.names[j]);
      k.Some? && l.Some? && k.value < l.value
  {
    if rs == [] {
    } else {
      hide Refused, FirstAt, Run, Registered;
      var init, r := rs[..|rs| - 1], rs[|rs| - 1];
      var before, v := Run(fs, own, EMPTY, init), Run(fs, own, EMPTY, rs);
      SplitLast(rs);
      RunSnoc(fs, own, init, r);
      Appends(fs, own, before, r);
      FirstAtSnoc(init, r, v.names[i]);
      FirstAtSnoc(init, r, v.names[j]);
      if j < |before.names| {
        IdsInOrder(fs, own, init, i, j);
      } else {
        RegisteredNames(fs, own, init, v.names[i]);
        RegisteredNames(fs, own, init, v.names[j]);
      }
    }
  }
}
