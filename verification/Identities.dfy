/** Per-function identities: one counter, one address cache and one metadata list for
    each category. */
module Identities {
  import opened Results

  datatype Category = Block | LocalFunc | PltFunc | ExtFunc | RoDataPtr | RwDataPtr | StringPtr | JumpTable

  function Categories(): set<Category> {
    {Block, LocalFunc, PltFunc, ExtFunc, RoDataPtr, RwDataPtr, StringPtr, JumpTable}
  }

  datatype Meta = NoMeta | Described(text: string) | TableMeta(table: int, targets: seq<int>) | TargetMeta(target: int, tableId: nat)

  datatype Entry = Entry(addr: int, id: nat)

  /** The identities of one category: cached addresses in the order they were cached, and
      the description of every identity handed out. */
  datatype Space = Space(entries: seq<Entry>, metadata: seq<Meta>)

  function Find(entries: seq<Entry>, addr: int): (r: Option<nat>)
    ensures r.None? <==> forall i :: 0 <= i < |entries| ==> entries[i].addr != addr
    ensures r.Some? ==> Entry(addr, r.value) in entries
  {
    if entries == [] then None
    else if entries[|entries| - 1].addr == addr then Some(entries[|entries| - 1].id)
    else Find(entries[..|entries| - 1], addr)
  }

  /** Cached addresses are real and distinct, no two share an identity, and every
      identity has a description. */
  predicate Consistent(s: Space) {
    && (forall i :: 0 <= i < |s.entries| ==> s.entries[i].addr != 0 && s.entries[i].id < |s.metadata|)
    && (forall i, j :: 0 <= i < j < |s.entries| ==>
          s.entries[i].addr != s.entries[j].addr && s.entries[i].id != s.entries[j].id)
  }

  /** Allocation: a cached address keeps its identity, anything else gets the next one,
      and address zero is never cached. */
  function Allocated(s: Space, addr: int, meta: Meta): (Space, nat) {
    var found := Find(s.entries, addr);
    if addr != 0 && found.Some? then (s, found.value)
    else
      var id := |s.metadata|;
      (Space(if addr != 0 then s.entries + [Entry(addr, id)] else s.entries, s.metadata + [meta]), id)
  }

  lemma FindEntry(s: Space, i: nat)
    requires Consistent(s) && i < |s.entries|
    ensures Find(s.entries, s.entries[i].addr) == Some(s.entries[i].id)
  {
    var found := Find(s.entries, s.entries[i].addr);
    var j :| 0 <= j < |s.entries| && s.entries[j] == Entry(s.entries[i].addr, found.value);
    assert s.entries[j].addr == s.entries[i].addr;
  }

  lemma FindSnoc(s: seq<Entry>, e: Entry, addr: int)
    ensures Find(s + [e], addr) == if e.addr == addr then Some(e.id) else Find(s, addr)
  {
    assert (s + [e])[..|s|] == s;
  }

  /** Identities stay consistent, dense and stable: what is cached stays cached with the
      same identity, and descriptions are only appended. */
  lemma AllocationKeeps(s: Space, addr: int, meta: Meta)
    requires Consistent(s)
    ensures var (after, id) := Allocated(s, addr, meta);
      && Consistent(after) && s.entries <= after.entries && s.metadata <= after.metadata
      && id < |after.metadata|
      && (addr != 0 ==> Find(after.entries, addr) == Some(id))
      && (Find(s.entries, addr).Some? && addr != 0 ==> after == s && Some(id) == Find(s.entries, addr))
      && (Find(s.entries, addr).None? || addr == 0 ==>
            id == |s.metadata| && after.metadata == s.metadata + [meta]
            && forall i :: 0 <= i < |s.entries| ==> s.entries[i].id != id)
      && forall a :: Find(s.entries, a).Some? ==> Find(after.entries, a) == Find(s.entries, a)
  {
    hide Find;
    var (after, id) := Allocated(s, addr, meta);
    if addr != 0 && Find(s.entries, addr).None? {
      FindSnoc(s.entries, Entry(addr, id), addr);
      forall a | Find(s.entries, a).Some?
        ensures Find(after.entries, a) == Find(s.entries, a)
      {
        FindSnoc(s.entries, Entry(addr, id), a);
      }
    }
  }

  lemma AllocationConsistent(s: Space, addr: int, meta: Meta)
    requires Consistent(s)
    ensures Consistent(Allocated(s, addr, meta).0)
  {
    AllocationKeeps(s, addr, meta);
  }

  lemma EveryCategory(c: Category)
    ensures c in Categories()
  {
  }

  class TokenResolver {
    var counters: map<Category, nat>
    var idMaps: map<Category, seq<Entry>>
    var metadata: map<Category, seq<Meta>>

    ghost predicate Valid()
      reads this
    {
      forall c :: c in Categories() ==>
        && c in counters && c in idMaps && c in metadata
        && counters[c] == |metadata[c]| && Consistent(Space(idMaps[c], metadata[c]))
    }

    ghost function SpaceOf(c: Category): (s: Space)
      requires Valid()
      reads this
      ensures Consistent(s)
    {
      EveryCategory(c);
      Space(idMaps[c], metadata[c])
    }

    constructor ()
      ensures Valid() && forall c :: SpaceOf(c) == Space([], [])
    {
      counters := map c | c in Categories() :: 0;
      idMaps := map c | c in Categories() :: [];
      metadata := map c | c in Categories() :: [];
    }

    method GetIdentity(category: Category, addr: int, meta: Meta) returns (identity: nat)
      requires Valid()
      modifies this
      ensures Valid()
      ensures (SpaceOf(category), identity) == Allocated(old(SpaceOf(category)), addr, meta)
      ensures forall c :: c != category ==> SpaceOf(c) == old(SpaceOf(c))
    {
      hide Consistent, Find, Categories;
      EveryCategory(category);
      AllocationConsistent(SpaceOf(category), addr, meta);
      var cache := idMaps[category];
      if addr != 0 && Find(cache, addr).Some? {
        return Find(cache, addr).value;
      }
      identity := counters[category];
      if addr != 0 {
        idMaps := idMaps[category := cache + [Entry(addr, identity)]];
      }
      counters := counters[category := counters[category] + 1];
      metadata := metadata[category := metadata[category] + [meta]];
    }

    /** The addresses cached for a category, in the order they were cached. */
    method Registered(category: Category) returns (entries: seq<Entry>)
      requires Valid()
      ensures entries == SpaceOf(category).entries
    {
      EveryCategory(category);
      return idMaps[category];
    }

    /** At a function boundary every category starts over. */
    method ResetFunction()
      modifies this
      ensures Valid() && forall c :: SpaceOf(c) == Space([], [])
    {
      counters := map c | c in Categories() :: 0;
      idMaps := map c | c in Categories() :: [];
      metadata := map c | c in Categories() :: [];
    }
  }
}
