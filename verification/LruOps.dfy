/** The operations of LRUCacheShard (cache/lru_cache.cc) over values, and what each of them keeps. */
module LruOps {
  import opened LruModel

  // ----- operations

  /** EvictFromLRU. */
  function Evict<H(==)>(c: Shard<H>, charge: nat): Shard<H>
    requires Sound(c)
    decreases |Lru(c)|
  {
    if c.usage + charge > c.capacity && Lru(c) != [] then
      OldestLeaves(c);
      Evict(Discard(c, Lru(c)[0]), charge)
    else c
  }

  lemma OldestLeaves<H>(c: Shard<H>)
    requires Sound(c) && Lru(c) != []
    ensures var e := Lru(c)[0]; e in c.entries && Sound(Discard(c, e)) && Lru(Discard(c, e)) == Lru(c)[1..]
  {
    assert Lru(c)[0] in Lru(c);
    DiscardKeeps(c, Lru(c)[0]);
    OldestIsFirst(c);
  }

  lemma WithoutFirst<H>(s: seq<H>)
    requires s != []
    ensures Without(s, s[0]) == s[1..]
  {
    assert Index(s, s[0]) == 0;
    assert s[..0] + s[1..] == s[1..];
  }

  lemma OldestIsFirst<H>(c: Shard<H>)
    requires Lru(c) != [] && Lru(c)[0] in c.entries
    ensures Lru(ListRemove(c, Lru(c)[0])) == Lru(c)[1..]
  {
    if c.low != [] {
      WithoutFirst(c.low);
      assert (c.low + c.high)[1..] == c.low[1..] + c.high;
    } else {
      assert Lru(c) == c.high;
      WithoutFirst(c.high);
      assert c.low + c.high[1..] == c.high[1..];
    }
  }

  /** EraseUnRefEntries. */
  function EraseUnRef<H(==)>(c: Shard<H>): Shard<H>
    requires Sound(c)
    decreases |Lru(c)|
  {
    if Lru(c) != [] then
      OldestLeaves(c);
      EraseUnRef(Discard(c, Lru(c)[0]))
    else c
  }

  /** The entry of key k leaves the table, and is freed if nobody refers to it. */
  function Erased<H(==)>(c: Shard<H>, k: CacheKey): Shard<H>
    requires k in c.table ==> c.table[k] in c.entries && (c.entries[c.table[k]].refs == 0 ==> c.table[k] in Lru(c))
  {
    if k !in c.table then c
    else if c.entries[c.table[k]].refs == 0 then Discard(c, c.table[k])
    else Untable(c, c.table[k])
  }

  function Erase<H(==)>(c: Shard<H>, k: CacheKey): Shard<H>
    requires Ok(c)
  {
    if k in c.table then
      KeyIsListed(c, k);
      Erased(c, k)
    else c
  }

  lemma KeyIsListed<H>(c: Shard<H>, k: CacheKey)
    requires Ok(c) && k in c.table
    ensures var e := c.table[k]; e in c.entries && (e in Lru(c) <==> c.entries[e].refs == 0)
  {
    assert KeyOk(c, k);
    var e := c.table[k];
    assert EntryOk(c, e);
  }

  datatype Status = OkStatus | OkOverwritten | Incomplete

  datatype InsertResult<H> = InsertResult(shard: Shard<H>, status: Status, accepted: bool)

  function NewEntry(key: CacheKey, value: Value, charge: nat, highPri: bool, hold: bool): Entry {
    Entry(key, value, charge, One(hold), true, highPri, false)
  }

  function Add<H(==)>(c: Shard<H>, e: H, x: Entry): Shard<H> {
    c.(entries := c.entries[e := x], table := c.table[x.key := e], usage := c.usage + x.charge)
  }

  /** A new handle goes into the table, and to its caller or to the list. */
  function Place<H(==)>(c: Shard<H>, e: H, x: Entry): Shard<H>
    requires Known(c.entries, c.high)
  {
    if x.refs == 0 then ListInsert(Add(c, e, x), e) else Add(c, e, x)
  }

  function Insert<H(==)>(c: Shard<H>, e: H, x: Entry): InsertResult<H>
    requires Ok(c)
  {
    EvictKeeps(c, x.charge);
    var c1 := Evict(c, x.charge);
    if c1.usage + x.charge > c.capacity && (c.strict || x.refs == 0) then
      if x.refs == 0 then InsertResult(c1.(freed := c1.freed + [e]), OkStatus, false)
      else InsertResult(c1, Incomplete, false)
    else
      EraseKeeps(c1, x.key);
      InsertResult(Place(Erase(c1, x.key), e, x), if x.key in c1.table then OkOverwritten else OkStatus, true)
  }

  /** A hit: the entry leaves the list if it was there, and gains a reference. */
  function Acquired<H(==)>(c: Shard<H>, e: H): Shard<H>
    requires e in c.entries && (c.entries[e].refs == 0 ==> e in Lru(c))
  {
    var x := c.entries[e];
    (if x.refs == 0 then ListRemove(c, e) else c).(entries := c.entries[e := x.(refs := x.refs + 1, hit := true)])
  }

  function Lookup<H(==)>(c: Shard<H>, k: CacheKey): Shard<H>
    requires Ok(c)
  {
    if k !in c.table then c
    else
      KeyIsListed(c, k);
      Acquired(c, c.table[k])
  }

  function Ref<H(==)>(c: Shard<H>, e: H): Shard<H>
    requires e in c.entries
  {
    c.(entries := c.entries[e := c.entries[e].(refs := c.entries[e].refs + 1)])
  }

  function Unref<H(==)>(c: Shard<H>, e: H): Shard<H>
    requires e in c.entries && c.entries[e].refs > 0
  {
    c.(entries := c.entries[e := c.entries[e].(refs := c.entries[e].refs - 1)])
  }

  /** Release takes this chance to free an entry nobody else refers to. */
  predicate ReleaseFrees<H(==)>(c: Shard<H>, e: H, force: bool)
    requires e in c.entries
  {
    c.entries[e].refs == 1 && (!c.entries[e].inCache || c.usage > c.capacity || force)
  }

  function Release<H(==)>(c: Shard<H>, e: H, force: bool): Shard<H>
    requires Ok(c) && e in c.entries && c.entries[e].refs > 0
  {
    var c' := Unref(c, e);
    if ReleaseFrees(c, e, force) then Free(if c.entries[e].inCache then Untable(c', e) else c', e)
    else if c.entries[e].refs == 1 then ListInsert(c', e)
    else c'
  }

  function SetCapacity<H(==)>(c: Shard<H>, capacity: nat): Shard<H>
    requires Ok(c)
  {
    var c' := c.(capacity := capacity, pool := PoolCapacity(capacity, c.ratio));
    ResizeKeeps(c, c');
    Evict(c', 0)
  }

  function SetRatio<H(==)>(c: Shard<H>, ratio: real): Shard<H>
    requires Ok(c)
  {
    Maintain(c.(ratio := ratio, pool := PoolCapacity(c.capacity, ratio)))
  }

  lemma ResizeKeeps<H>(c: Shard<H>, c': Shard<H>)
    requires Sound(c) && c' == c.(capacity := c'.capacity, ratio := c'.ratio, pool := c'.pool)
    requires c'.ratio >= 0.0 && c'.pool == PoolCapacity(c'.capacity, c'.ratio)
    ensures Sound(c')
  {
    forall e | e in c'.entries
      ensures EntryOk(c', e)
    {
      assert EntryOk(c, e);
    }
    forall k | k in c'.table
      ensures KeyOk(c', k)
    {
      assert KeyOk(c, k);
    }
  }

  lemma EvictKeeps<H>(c: Shard<H>, charge: nat)
    requires Sound(c)
    ensures Ok(Evict(c, charge)) && (Evict(c, charge).usage + charge > c.capacity ==> Lru(Evict(c, charge)) == [])
    decreases |Lru(c)|
  {
    if c.usage + charge > c.capacity && Lru(c) != [] {
      OldestLeaves(c);
      EvictKeeps(Discard(c, Lru(c)[0]), charge);
    }
  }

  // ----- every operation keeps the order

  predicate SamePayload(x: Entry, y: Entry) {
    x.key == y.key && x.value == y.value && x.charge == y.charge
  }

  /** Handles move from the live entries to the freed ones and never back, keys leave the table, and
      nothing changes the key, value or charge of an entry. */
  ghost predicate Shrinks<H>(c: Shard<H>, c': Shard<H>) {
    && (forall e :: e in c'.entries ==> e in c.entries && SamePayload(c'.entries[e], c.entries[e]))
    && (forall e :: e in c.entries ==> e in c'.entries || e in c'.freed)
    && (forall e :: e in c.freed ==> e in c'.freed)
    && (forall e :: e in c'.freed ==> e in c.freed || (e in c.entries && e !in c'.entries))
    && (forall k :: k in c'.table ==> k in c.table && c'.table[k] == c.table[k])
  }

  /** One entry changes, but not its key, charge or place in the table. */
  lemma TouchKeeps<H>(c: Shard<H>, c': Shard<H>, e: H)
    requires Sound(c) && e in c.entries && e in c'.entries
    requires c' == c.(entries := c.entries[e := c'.entries[e]], low := c'.low, high := c'.high,
                      lruUsage := c'.lruUsage, highUsage := c'.highUsage)
    requires c'.entries[e] == c.entries[e].(refs := c'.entries[e].refs, hit := c'.entries[e].hit)
    requires EntryOk(c', e) && forall x :: x != e ==> Listed(c', x) == Listed(c, x)
    requires SumsOk(c'.(entries := c.entries))
    ensures Sound(c')
  {
    forall x | x in c'.entries
      ensures EntryOk(c', x)
    {
      assert EntryOk(c, x);
    }
    forall k | k in c'.table
      ensures KeyOk(c', k)
    {
      assert KeyOk(c, k);
    }
    SameSums(c'.(entries := c.entries), c'.entries);
    ChargesSame(c.entries, c'.entries, c.entries.Keys);
    assert c'.entries.Keys == c.entries.Keys;
  }

  lemma UntableKeeps<H>(c: Shard<H>, e: H)
    requires Sound(c) && e in c.entries && c.entries[e].inCache && c.entries[e].refs > 0
    ensures Sound(Untable(c, e))
  {
    var c' := Untable(c, e);
    assert EntryOk(c, e);
    forall x | x in c'.entries
      ensures EntryOk(c', x)
    {
      assert EntryOk(c, x);
      assert Listed(c', x) == Listed(c, x);
    }
    forall k | k in c'.table
      ensures KeyOk(c', k)
    {
      assert KeyOk(c, k);
    }
    SameSums(c, c'.entries);
    ChargesSame(c.entries, c'.entries, c.entries.Keys);
    assert c'.entries.Keys == c.entries.Keys;
  }

  /** A referenced entry gives up its last reference and is freed. */
  lemma GoneKeeps<H>(c: Shard<H>, c': Shard<H>, e: H)
    requires Sound(c) && e in c.entries && c.entries[e].refs > 0
    requires var x := c.entries[e];
             c' == c.(entries := c.entries - {e}, usage := c.usage - x.charge, freed := c.freed + [e],
                      table := if x.inCache then c.table - {x.key} else c.table)
    ensures Sound(c')
  {
    assert EntryOk(c, e);
    forall x | x in c'.entries
      ensures EntryOk(c', x)
    {
      assert EntryOk(c, x);
      assert Listed(c', x) == Listed(c, x);
      TimesAppend(c.freed, e, x);
    }
    forall k | k in c'.table
      ensures KeyOk(c', k)
    {
      assert KeyOk(c, k);
    }
    GoneSums(c, c', e);
  }

  lemma GoneSums<H>(c: Shard<H>, c': Shard<H>, e: H)
    requires ListOk(c) && SumsOk(c) && e in c.entries && Listed(c, e) == 0 && Times(c.freed, e) == 0
    requires c' == c.(entries := c.entries - {e}, usage := c.usage - c.entries[e].charge, freed := c.freed + [e],
                      table := c'.table)
    ensures ListOk(c') && SumsOk(c')
  {
    SameSums(c, c'.entries);
    FreeSums(c, e, c'.entries);
    FreedOnce(c, e);
  }

  lemma EraseKeeps<H>(c: Shard<H>, k: CacheKey)
    requires Ok(c)
    ensures Ok(Erase(c, k)) && k !in Erase(c, k).table
    ensures Erase(c, k).usage <= c.usage && Erase(c, k).capacity == c.capacity
    ensures Lru(c) == [] ==> Lru(Erase(c, k)) == []
  {
    if k in c.table {
      KeyIsListed(c, k);
      assert KeyOk(c, k);
      var e := c.table[k];
      if c.entries[e].refs == 0 {
        DiscardKeeps(c, e);
      } else {
        UntableKeeps(c, e);
      }
    }
  }

  lemma AddKeeps<H>(c: Shard<H>, e: H, x: Entry)
    requires Ok(c) && e !in c.entries && e !in c.freed && x.key !in c.table && x.inCache
    requires if x.refs == 0 then c.usage + x.charge <= c.capacity else c.usage + x.charge > c.capacity ==> Lru(c) == []
    ensures if x.refs == 0 then OkBut(Add(c, e, x), e) else Ok(Add(c, e, x))
  {
    var c' := Add(c, e, x);
    forall y | y in c'.entries && y != e
      ensures EntryOk(c', y)
    {
      assert EntryOk(c, y);
      assert Listed(c', y) == Listed(c, y);
    }
    forall k | k in c'.table
      ensures KeyOk(c', k)
    {
      if k != x.key {
        assert KeyOk(c, k);
      }
    }
    AddSums(c, c', e, x);
  }

  lemma AddSums<H>(c: Shard<H>, c': Shard<H>, e: H, x: Entry)
    requires ListOk(c) && SumsOk(c) && e !in c.entries
    requires c' == c.(entries := c.entries[e := x], table := c'.table, usage := c.usage + x.charge)
    ensures ListOk(c') && SumsOk(c') && Listed(c', e) == 0
  {
    SameSums(c, c'.entries);
    ChargesRemove(c'.entries, c'.entries.Keys, e);
    assert c'.entries.Keys - {e} == c.entries.Keys;
    ChargesSame(c.entries, c'.entries, c.entries.Keys);
  }

  lemma PlaceKeeps<H>(c: Shard<H>, e: H, x: Entry)
    requires Ok(c) && e !in c.entries && e !in c.freed && x.key !in c.table && x.inCache
    requires if x.refs == 0 then c.usage + x.charge <= c.capacity else c.usage + x.charge > c.capacity ==> Lru(c) == []
    ensures var r := Place(c, e, x); Ok(r) && SameButList(Add(c, e, x), r) && (PoolBound(c) ==> PoolBound(r))
  {
    AddKeeps(c, e, x);
    if x.refs == 0 {
      ListInsertKeeps(Add(c, e, x), e);
    }
  }

  lemma ShrinksTransitive<H>(a: Shard<H>, b: Shard<H>, c: Shard<H>)
    requires Shrinks(a, b) && Shrinks(b, c)
    ensures Shrinks(a, c)
  {
  }

  lemma DiscardShrinks<H>(c: Shard<H>, e: H)
    requires e in c.entries && e in Lru(c)
    ensures Shrinks(c, Discard(c, e))
  {
  }

  lemma {:induction false} EvictShrinks<H>(c: Shard<H>, charge: nat)
    requires Sound(c)
    ensures Shrinks(c, Evict(c, charge)) && Evict(c, charge).capacity == c.capacity
    decreases |Lru(c)|
  {
    if c.usage + charge > c.capacity && Lru(c) != [] {
      OldestLeaves(c);
      var e := Lru(c)[0];
      DiscardShrinks(c, e);
      EvictShrinks(Discard(c, e), charge);
      ShrinksTransitive(c, Discard(c, e), Evict(c, charge));
    }
  }

  lemma EraseShrinks<H>(c: Shard<H>, k: CacheKey)
    requires Ok(c)
    ensures Shrinks(c, Erase(c, k))
  {
    if k in c.table {
      KeyIsListed(c, k);
      var e := c.table[k];
      if c.entries[e].refs == 0 {
        DiscardShrinks(c, e);
      } else {
        UntableShrinks(c, e);
      }
    }
  }

  lemma UntableShrinks<H>(c: Shard<H>, e: H)
    requires e in c.entries
    ensures Shrinks(c, Untable(c, e))
  {
  }

  lemma InsertAccepts<H>(c: Shard<H>, e: H, x: Entry)
    requires Ok(c) && e !in c.entries && e !in c.freed && x.inCache
    requires if x.refs == 0 then c.usage + x.charge <= c.capacity else c.usage + x.charge > c.capacity ==> Lru(c) == []
    ensures Ok(Erase(c, x.key)) && Ok(Place(Erase(c, x.key), e, x))
  {
    EraseKeeps(c, x.key);
    EraseShrinks(c, x.key);
    PlaceKeeps(Erase(c, x.key), e, x);
  }

  /** Insert keeps the order whichever way it ends. */
  lemma InsertKeeps<H>(c: Shard<H>, e: H, x: Entry)
    requires Ok(c) && e !in c.entries && e !in c.freed && x.inCache
    ensures Ok(Insert(c, e, x).shard)
  {
    var c1 := Evict(c, x.charge);
    EvictKeeps(c, x.charge);
    EvictShrinks(c, x.charge);
    if c1.usage + x.charge > c.capacity && (c.strict || x.refs == 0) {
      DropKeeps(c1, e);
    } else {
      InsertAccepts(c1, e, x);
    }
  }

  /** The value of an entry that is not accepted is freed at once. */
  lemma DropKeeps<H>(c: Shard<H>, e: H)
    requires Ok(c) && e !in c.entries && e !in c.freed
    ensures Ok(c.(freed := c.freed + [e]))
  {
    var c' := c.(freed := c.freed + [e]);
    FreedOnce(c, e);
    forall x | x in c'.entries
      ensures EntryOk(c', x)
    {
      assert EntryOk(c, x);
      TimesAppend(c.freed, e, x);
    }
    forall k | k in c'.table
      ensures KeyOk(c', k)
    {
      assert KeyOk(c, k);
    }
  }

  lemma LookupKeeps<H>(c: Shard<H>, k: CacheKey)
    requires Ok(c)
    ensures Ok(Lookup(c, k)) && (PoolBound(c) ==> PoolBound(Lookup(c, k)))
  {
    if k in c.table {
      KeyIsListed(c, k);
      assert KeyOk(c, k);
      var e, c' := c.table[k], Lookup(c, k);
      assert EntryOk(c, e);
      if c.entries[e].refs == 0 {
        forall x
          ensures Listed(c', x) + One(x == e) == Listed(c, x)
        {
          ListRemoved(c, e, x);
        }
        ListRemovedSums(c, e);
      }
      TouchKeeps(c, c', e);
    }
  }

  lemma RefKeeps<H>(c: Shard<H>, e: H)
    requires Ok(c) && e in c.entries && c.entries[e].refs > 0
    ensures Ok(Ref(c, e))
  {
    assert EntryOk(c, e);
    TouchKeeps(c, Ref(c, e), e);
  }

  /** A last reference dropped while the entry is in the table and the cache is not full. */
  lemma UnrefOkBut<H>(c: Shard<H>, e: H)
    requires Ok(c) && e in c.entries && c.entries[e].refs == 1 && c.entries[e].inCache && c.usage <= c.capacity
    ensures OkBut(Unref(c, e), e)
  {
    var c' := Unref(c, e);
    assert EntryOk(c, e);
    forall x | x in c'.entries && x != e
      ensures EntryOk(c', x)
    {
      assert EntryOk(c, x);
    }
    forall k | k in c'.table
      ensures KeyOk(c', k)
    {
      assert KeyOk(c, k);
    }
    SameSums(c, c'.entries);
    ChargesSame(c.entries, c'.entries, c.entries.Keys);
    assert c'.entries.Keys == c.entries.Keys;
  }

  lemma ReleaseFreesKeeps<H>(c: Shard<H>, e: H, force: bool)
    requires Ok(c) && e in c.entries && ReleaseFrees(c, e, force)
    ensures Ok(Release(c, e, force))
  {
    var m := if c.entries[e].inCache then Untable(Unref(c, e), e) else Unref(c, e);
    assert m.entries - {e} == c.entries - {e};
    GoneKeeps(c, Free(m, e), e);
  }

  lemma ReleaseLastKeeps<H>(c: Shard<H>, e: H)
    requires Ok(c) && e in c.entries && c.entries[e].refs == 1 && c.entries[e].inCache && c.usage <= c.capacity
    ensures Known(c.entries, c.high)
    ensures var r := ListInsert(Unref(c, e), e); Ok(r) && (PoolBound(c) ==> PoolBound(r))
  {
    UnrefOkBut(c, e);
    ListInsertKeeps(Unref(c, e), e);
  }

  lemma UnrefKeeps<H>(c: Shard<H>, e: H)
    requires Ok(c) && e in c.entries && c.entries[e].refs > 1
    ensures Ok(Unref(c, e))
  {
    assert EntryOk(c, e);
    TouchKeeps(c, Unref(c, e), e);
  }

  lemma ReleaseKeeps<H>(c: Shard<H>, e: H, force: bool)
    requires Ok(c) && e in c.entries && c.entries[e].refs > 0
    ensures Ok(Release(c, e, force))
    ensures PoolBound(c) ==> PoolBound(Release(c, e, force))
  {
    if ReleaseFrees(c, e, force) {
      ReleaseFreesKeeps(c, e, force);
    } else if c.entries[e].refs == 1 {
      ReleaseLastKeeps(c, e);
    } else {
      UnrefKeeps(c, e);
    }
  }

  lemma SetCapacityKeeps<H>(c: Shard<H>, capacity: nat)
    requires Ok(c)
    ensures Ok(SetCapacity(c, capacity)) && Shrinks(c, SetCapacity(c, capacity))
    ensures SetCapacity(c, capacity).capacity == capacity
  {
    var c' := c.(capacity := capacity, pool := PoolCapacity(capacity, c.ratio));
    ResizeKeeps(c, c');
    EvictKeeps(c', 0);
    EvictShrinks(c', 0);
  }

  /** Changing the ratio restores the bound of the high-priority pool. */
  lemma SetRatioKeeps<H>(c: Shard<H>, ratio: real)
    requires Ok(c) && ratio >= 0.0
    ensures Ok(SetRatio(c, ratio))
    ensures PoolBound(SetRatio(c, ratio)) && Lru(SetRatio(c, ratio)) == Lru(c)
    ensures var r := SetRatio(c, ratio);
            && r.ratio == ratio && r.pool == PoolCapacity(c.capacity, ratio)
            && r.capacity == c.capacity && r.entries == c.entries && r.table == c.table
  {
    var c' := c.(ratio := ratio, pool := PoolCapacity(c.capacity, ratio));
    ResizeKeeps(c, c');
    var n := MaintainOverflows(c');
    OverflowKeeps(c', n);
  }

  lemma {:induction false} EraseUnRefKeeps<H>(c: Shard<H>)
    requires Sound(c)
    ensures Ok(EraseUnRef(c)) && Lru(EraseUnRef(c)) == []
    ensures EraseUnRef(c).capacity == c.capacity && EraseUnRef(c).usage <= c.usage
    decreases |Lru(c)|
  {
    if Lru(c) != [] {
      OldestLeaves(c);
      EraseUnRefKeeps(Discard(c, Lru(c)[0]));
    }
  }

  lemma {:induction false} EraseUnRefShrinks<H>(c: Shard<H>)
    requires Sound(c)
    ensures Shrinks(c, EraseUnRef(c))
    decreases |Lru(c)|
  {
    if Lru(c) != [] {
      OldestLeaves(c);
      var e := Lru(c)[0];
      DiscardShrinks(c, e);
      EraseUnRefShrinks(Discard(c, e));
      ShrinksTransitive(c, Discard(c, e), EraseUnRef(c));
    }
  }

  lemma LookupShrinks<H>(c: Shard<H>, k: CacheKey)
    requires Ok(c)
    ensures Shrinks(c, Lookup(c, k))
  {
    if k in c.table {
      KeyIsListed(c, k);
    }
  }

  lemma UnrefShrinks<H>(c: Shard<H>, e: H, c': Shard<H>)
    requires e in c.entries && c.entries[e].refs > 0 && SameButList(Unref(c, e), c')
    ensures Shrinks(c, c')
  {
  }

  /** One entry leaves, with its key if it has the table's. */
  lemma LeavingShrinks<H>(c: Shard<H>, e: H, c': Shard<H>)
    requires e in c.entries && c'.entries == c.entries - {e} && c'.freed == c.freed + [e]
    requires c'.table == c.table || c'.table == c.table - {c.entries[e].key}
    ensures Shrinks(c, c')
  {
  }

  lemma ReleaseFreesShrinks<H>(c: Shard<H>, e: H, force: bool)
    requires Ok(c) && e in c.entries && ReleaseFrees(c, e, force)
    ensures Shrinks(c, Release(c, e, force))
  {
    var m := if c.entries[e].inCache then Untable(Unref(c, e), e) else Unref(c, e);
    assert m.entries - {e} == c.entries - {e};
    LeavingShrinks(c, e, Free(m, e));
  }

  lemma ReleaseShrinks<H>(c: Shard<H>, e: H, force: bool)
    requires Ok(c) && e in c.entries && c.entries[e].refs > 0
    ensures Shrinks(c, Release(c, e, force))
  {
    if ReleaseFrees(c, e, force) {
      ReleaseFreesShrinks(c, e, force);
    } else {
      if c.entries[e].refs == 1 {
        UnrefOkBut(c, e);
        ListInsertKeeps(Unref(c, e), e);
      }
      UnrefShrinks(c, e, Release(c, e, force));
    }
  }

  lemma SetRatioShrinks<H>(c: Shard<H>, ratio: real)
    requires Ok(c) && ratio >= 0.0
    ensures Shrinks(c, SetRatio(c, ratio))
  {
    var n := MaintainOverflows(c.(ratio := ratio, pool := PoolCapacity(c.capacity, ratio)));
  }

  lemma StrictKeeps<H>(c: Shard<H>, strict: bool)
    requires Ok(c)
    ensures Ok(c.(strict := strict))
  {
    var c' := c.(strict := strict);
    forall e | e in c'.entries
      ensures EntryOk(c', e)
    {
      assert EntryOk(c, e);
    }
    forall k | k in c'.table
      ensures KeyOk(c', k)
    {
      assert KeyOk(c, k);
    }
  }

  lemma DiscardIs<H>(c: Shard<H>, e: H)
    requires e in c.entries && e in Lru(c)
    ensures var r := Discard(c, e);
            && r.freed == c.freed + [e] && r.usage == c.usage - c.entries[e].charge
            && r.entries == c.entries - {e} && r.table == c.table - {c.entries[e].key}
            && r.capacity == c.capacity && r.strict == c.strict && r.ratio == c.ratio && r.pool == c.pool
  {
    assert c.entries[e := c.entries[e].(inCache := false)] - {e} == c.entries - {e};
  }

  lemma EvictUnfolds<H>(c: Shard<H>, charge: nat)
    requires Sound(c) && c.usage + charge > c.capacity && Lru(c) != []
    ensures Lru(c)[0] in c.entries && Sound(Discard(c, Lru(c)[0]))
    ensures Evict(c, charge) == Evict(Discard(c, Lru(c)[0]), charge)
  {
    OldestLeaves(c);
  }

  lemma EraseUnRefUnfolds<H>(c: Shard<H>)
    requires Sound(c) && Lru(c) != []
    ensures Lru(c)[0] in c.entries && Sound(Discard(c, Lru(c)[0]))
    ensures EraseUnRef(c) == EraseUnRef(Discard(c, Lru(c)[0]))
  {
    OldestLeaves(c);
  }

  function NewShard<H>(capacity: nat, strict: bool, ratio: real): Shard<H> {
    Shard(map[], map[], [], [], 0, 0, 0, capacity, strict, ratio, PoolCapacity(capacity, ratio), [])
  }

  lemma NewShardOk<H>(capacity: nat, strict: bool, ratio: real)
    requires ratio >= 0.0
    ensures Ok(NewShard<H>(capacity, strict, ratio))
  {
    assert NewShard<H>(capacity, strict, ratio).entries.Keys == {};
  }
}
