/** The canonical number and identity blocks of a fresh unified vocabulary. */
module CanonicalBlocks {
  import opened TokenSeqs
  import opened Results
  import opened VocabularyRuns

  const NUMBER_BLOCK_START := 257

  function Marker(token: string, ttype: int): Registration {
    Registration(token, ttype, AGNOSTIC, None)
  }

  const VALUE_NEGATIVE := Marker("value_negative", 30)

  const NUMBER_BLOCK := [
    Marker("valued_const_v2", 17), Marker("float16", 19), Marker("bfloat16", 20), Marker("float32", 21),
    Marker("float64", 22), Marker("float80", 23), Marker("float128", 24)]

  const IDENTITY_BLOCK := [
    Marker("block_v2", 18), Marker("local_func", 10), Marker("plt_func", 11), Marker("ext_func", 12),
    Marker("string_ptr", 15), Marker("jump_table", 16), Marker("ro_data_ptr", 13), Marker("rw_data_ptr", 14)]

  /** A number that tells the names apart. */
  function NameKey(name: string): int {
    if |name| < 6 then 0 else |name| * 1000 + name[1] as int + (name[5] as int) * 3
  }

  const NAME_KEYS := [15397, 7255, 8450, 7261, 7270, 7276, 8255, 8393, 10396, 8459, 8471, 10425, 10465, 11459, 11467]

  lemma KeysOf()
    ensures |NUMBER_BLOCK + IDENTITY_BLOCK| == |NAME_KEYS|
    ensures forall i :: 0 <= i < |NAME_KEYS| ==>
      var name := (NUMBER_BLOCK + IDENTITY_BLOCK)[i].token;
      NameKey(name) == NAME_KEYS[i] && name[0] != 'B' && name[0] != 'O' && name[0] != 'd'
  {
  }

  lemma PlainName(name: string)
    requires name != "" && name[0] != 'B' && name[0] != 'O' && name[0] != 'd'
    ensures !Refused(name)
  {
  }

  lemma BlocksAreFresh(v: Vocab)
    requires v.names == [VALUE_NEGATIVE.token]
    ensures IsFreshTable(v, NUMBER_BLOCK + IDENTITY_BLOCK)
  {
    KeysOf();
    hide Refused;
    var table := NUMBER_BLOCK + IDENTITY_BLOCK;
    assert NameKey(VALUE_NEGATIVE.token) == 14382;
    forall i | 0 <= i < |table|
      ensures !Refused(table[i].token) && table[i].token !in v.names
    {
      assert NameKey(table[i].token) == NAME_KEYS[i] && NAME_KEYS[i] != 14382;
      PlainName(table[i].token);
    }
    forall i, j | 0 <= i < j < |table|
      ensures TokensOf(table)[i] != TokensOf(table)[j]
    {
      assert NameKey(table[i].token) == NAME_KEYS[i] && NameKey(table[j].token) == NAME_KEYS[j];
    }
  }

  /** What the constructor leaves: the sign marker at the first id behind the digits. */
  function Fresh(fs: Families): (v: Vocab)
    ensures Aligned(v)
  {
    Run(fs, None, EMPTY, [VALUE_NEGATIVE])
  }

  lemma FreshHoldsMarker(fs: Families)
    ensures Fresh(fs).names == [VALUE_NEGATIVE.token] && Fresh(fs).types == [VALUE_NEGATIVE.ttype]
    ensures Fresh(fs).insnTypes == [VALUE_NEGATIVE.insnType]
  {
    hide Refused;
    PlainName(VALUE_NEGATIVE.token);
    TableLandsInOrder(fs, None, EMPTY, [VALUE_NEGATIVE]);
    assert TokensOf([VALUE_NEGATIVE]) == [VALUE_NEGATIVE.token] && TypesOf([VALUE_NEGATIVE]) == [VALUE_NEGATIVE.ttype];
    assert InsnTypesOf([VALUE_NEGATIVE]) == [VALUE_NEGATIVE.insnType];
  }

  lemma MarkersAreAgnostic()
    ensures VALUE_NEGATIVE.insnType == -1 && |NUMBER_BLOCK + IDENTITY_BLOCK| == 15
    ensures forall i :: 0 <= i < |NUMBER_BLOCK + IDENTITY_BLOCK| ==> (NUMBER_BLOCK + IDENTITY_BLOCK)[i].insnType == -1
  {
  }

  lemma TablesFollow(v: Vocab, x: Registration, a: seq<Registration>, b: seq<Registration>)
    requires [x.token] + TokensOf(a + b) <= v.names && [x.ttype] + TypesOf(a + b) <= v.types
    ensures 1 + |a| + |b| <= |v.names| && 1 + |a| + |b| <= |v.types| && v.names[0] == x.token
    ensures forall i :: 0 <= i < |a| ==> v.names[1 + i] == a[i].token && v.types[1 + i] == a[i].ttype
    ensures forall i :: 0 <= i < |b| ==> v.names[1 + |a| + i] == b[i].token && v.types[1 + |a| + i] == b[i].ttype
  {
    forall i | 0 <= i < |a|
      ensures v.names[1 + i] == a[i].token && v.types[1 + i] == a[i].ttype
    {
      assert (a + b)[i] == a[i] && TokensOf(a + b)[i] == v.names[1 + i] && TypesOf(a + b)[i] == v.types[1 + i];
    }
    forall i | 0 <= i < |b|
      ensures v.names[1 + |a| + i] == b[i].token && v.types[1 + |a| + i] == b[i].ttype
    {
      var k := |a| + i;
      assert (a + b)[k] == b[i] && TokensOf(a + b)[k] == v.names[1 + k] && TypesOf(a + b)[k] == v.types[1 + k];
    }
  }

  /** Registering the two blocks on a fresh unified vocabulary puts every marker at its
      canonical id, whatever is registered afterwards. */
  lemma CanonicalLayout(fs: Families, later: seq<Registration>)
    ensures var v := Run(fs, None, Run(fs, None, Fresh(fs), NUMBER_BLOCK + IDENTITY_BLOCK), later);
      && RESERVED_DIGIT_COUNT + |v.names| >= EAGER_BLOCK_END && Distinct(v.names)
      && v.names[0] == VALUE_NEGATIVE.token
      && (forall i :: 0 <= i < |NUMBER_BLOCK| ==>
            v.names[NUMBER_BLOCK_START - RESERVED_DIGIT_COUNT + i] == NUMBER_BLOCK[i].token)
      && (forall i :: 0 <= i < |IDENTITY_BLOCK| ==>
            v.names[IDENTITY_BLOCK_START - RESERVED_DIGIT_COUNT + i] == IDENTITY_BLOCK[i].token)
      && (forall i :: 0 <= i < |NUMBER_BLOCK| ==>
            v.types[NUMBER_BLOCK_START - RESERVED_DIGIT_COUNT + i] == NUMBER_BLOCK[i].ttype)
      && (forall i :: 0 <= i < |IDENTITY_BLOCK| ==>
            v.types[IDENTITY_BLOCK_START - RESERVED_DIGIT_COUNT + i] == IDENTITY_BLOCK[i].ttype)
      && |v.insnTypes| >= 16 && (forall i :: 0 <= i < 16 ==> v.insnTypes[i] == -1)
  {
    hide Run, Refused, IsFreshTable, TokensOf, TypesOf, Fresh;
    MarkersAreAgnostic();
    var start, numbers, identities := Fresh(fs), NUMBER_BLOCK, IDENTITY_BLOCK;
    var table := numbers + identities;
    FreshHoldsMarker(fs);
    BlocksAreFresh(start);
    TableLandsInOrder(fs, None, start, table);
    var v := Run(fs, None, start, table);
    RunExtends(fs, None, EMPTY, [VALUE_NEGATIVE], 1);
    RunExtends(fs, None, start, table, |table|);
    RunExtends(fs, None, v, later, 0);
    NoRegistrations(fs, v);
    assert later[..0] == [];
    TablesFollow(Run(fs, None, v, later), VALUE_NEGATIVE, numbers, identities);
  }

  lemma NoRegistrations(fs: Families, v: Vocab)
    requires Aligned(v)
    ensures Run(fs, None, v, []) == v
  {
  }
}
