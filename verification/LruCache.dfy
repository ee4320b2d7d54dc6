/** LRUCacheShard (cache/lru_cache.cc) on handles linked in place, proved against LruModel. */
module LruCache {
  import opened LruModel
  import opened LruOps
  import opened LruTable
  import opened LruPolicy

  /** Entry x is about handle e. */
  predicate About(e: LRUHandle, x: Entry) {
    x.key == e.key && x.value == e.value && x.charge == e.charge && x.highPri == e.highPri
  }

  ghost predicate AllAbout(entries: map<LRUHandle, Entry>) {
    forall e {:trigger About(e, entries[e])} :: e in entries ==> About(e, entries[e])
  }

  /** The references and flags of handle e are those of entry x. */
  ghost predicate Shows(e: LRUHandle, x: Entry)
    reads e`refs, e`inCache, e`hit
  {
    x.refs == e.refs && x.inCache == e.inCache && x.hit == e.hit
  }

  ghost predicate Shown(entries: map<LRUHandle, Entry>)
    reads entries.Keys`refs, entries.Keys`inCache, entries.Keys`hit
  {
    forall e {:trigger Shows(e, entries[e])} :: e in entries ==> Shows(e, entries[e])
  }

  ghost function EntryOf(e: LRUHandle): Entry
    reads e`refs, e`inCache, e`hit
  {
    Entry(e.key, e.value, e.charge, e.refs, e.inCache, e.highPri, e.hit)
  }

  lemma ShownBut(entries: map<LRUHandle, Entry>, e: LRUHandle)
    requires Shown(entries) && AllAbout(entries)
    ensures Shown(entries - {e}) && (e in entries ==> entries[e] == EntryOf(e))
  {
    forall x | x in entries - {e}
      ensures Shows(x, (entries - {e})[x])
    {
      assert Shows(x, entries[x]);
    }
    if e in entries {
      assert Shows(e, entries[e]) && About(e, entries[e]);
    }
  }

  ghost predicate InPool(e: LRUHandle, high: bool)
    reads e`inHighPriPool
  {
    e.inHighPriPool == high
  }

  /** The flag says which pool a handle on the list is in. */
  ghost predicate Pooled(pool: seq<LRUHandle>, high: bool)
    reads pool`inHighPriPool
  {
    forall e {:trigger InPool(e, high)} :: e in pool ==> InPool(e, high)
  }

  ghost predicate OffList(e: LRUHandle)
    reads e`next, e`prev
  {
    e.next == null && e.prev == null
  }

  /** Handles that are not on the list point nowhere. */
  ghost predicate Away(handles: set<LRUHandle>, s: seq<LRUHandle>)
    reads handles`next, handles`prev
  {
    forall e {:trigger OffList(e)} :: e in handles && e !in s ==> OffList(e)
  }

  ghost predicate Apart(s: seq<LRUHandle>, i: nat, j: nat) {
    i < j < |s| ==> s[i] != s[j]
  }

  ghost predicate NoRepeat(s: seq<LRUHandle>) {
    forall i: nat, j: nat {:trigger Apart(s, i, j)} :: Apart(s, i, j)
  }

  lemma NoRepeatIsDistinct(s: seq<LRUHandle>)
    ensures NoRepeat(s) <==> Distinct(s)
  {
    if NoRepeat(s) {
      forall i, j | 0 <= i < j < |s|
        ensures s[i] != s[j]
      {
        assert Apart(s, i, j);
      }
    }
  }

  lemma CutSeq(s: seq<LRUHandle>, i: nat)
    requires NoRepeat(s) && i < |s|
    ensures var t := s[..i] + s[i + 1..]; NoRepeat(t) && forall x :: x in t <==> x in s && x != s[i]
  {
    NoRepeatIsDistinct(s);
    var t := s[..i] + s[i + 1..];
    assert forall j :: 0 <= j < |t| ==> t[j] == s[if j < i then j else j + 1];
    NoRepeatIsDistinct(t);
    forall x | x in s && x != s[i]
      ensures x in t
    {
      var j :| 0 <= j < |s| && s[j] == x;
      assert t[if j < i then j else j - 1] == x;
    }
  }

  lemma PutSeq(s: seq<LRUHandle>, i: nat, e: LRUHandle)
    requires NoRepeat(s) && i <= |s| && e !in s
    ensures var t := s[..i] + [e] + s[i..]; NoRepeat(t) && forall x :: x in t <==> x in s || x == e
  {
    NoRepeatIsDistinct(s);
    var t := s[..i] + [e] + s[i..];
    assert forall j :: 0 <= j < |t| && j != i ==> t[j] == s[if j < i then j else j - 1];
    assert t[i] == e;
    NoRepeatIsDistinct(t);
    forall x | x in s
      ensures x in t
    {
      var j :| 0 <= j < |s| && s[j] == x;
      assert t[if j < i then j else j + 1] == x;
    }
  }

  ghost function Position(c: Shard<LRUHandle>, e: LRUHandle): (i: nat)
    requires e in Lru(c)
    ensures i < |Lru(c)| && Lru(c)[i] == e
  {
    if e in c.low then Index(c.low, e) else |c.low| + Index(c.high, e)
  }

  /** What LRU_Remove leaves of the list. */
  lemma RemovedList(c: Shard<LRUHandle>, e: LRUHandle)
    requires e in c.entries && e in Lru(c)
    ensures var s, i, c' := Lru(c), Position(c, e), ListRemove(c, e);
            Lru(c') == s[..i] + s[i + 1..] && |c'.low| == |c.low| - One(i < |c.low|) && c'.entries == c.entries
  {
    if e in c.low {
      CutLeft(c.low, c.high, Index(c.low, e));
    } else {
      CutRight(c.low, c.high, Index(c.high, e));
    }
  }

  lemma RemovedPools(c: Shard<LRUHandle>, e: LRUHandle)
    requires e in c.entries && e in Lru(c) && Pooled(c.low, false) && Pooled(c.high, true)
    requires Known(c.entries, c.low) && Known(c.entries, c.high)
    ensures var c' := ListRemove(c, e);
            && Pooled(c'.low, false) && Pooled(c'.high, true)
            && c'.entries == c.entries && Known(c'.entries, c'.low) && Known(c'.entries, c'.high)
  {
    var c' := ListRemove(c, e);
    forall x | x in c'.low
      ensures InPool(x, false)
    {
      assert x in c.low;
    }
    forall x | x in c'.high
      ensures InPool(x, true)
    {
      assert x in c.high;
    }
  }

  lemma RemovedFits(c: Shard<LRUHandle>, e: LRUHandle)
    requires SumsOk(c) && e in c.entries && e in Lru(c)
    ensures c.entries[e].charge <= c.lruUsage && (e !in c.low ==> c.entries[e].charge <= c.highUsage)
  {
    if e in c.low {
      SeqChargesWithout(c.entries, c.low, e);
    } else {
      SeqChargesWithout(c.entries, c.high, e);
    }
  }

  /** e is on the list and in the table, without references, and its charge is counted: what the code
      asserts before it discards an entry. */
  ghost predicate Discardable(c: Shard<LRUHandle>, e: LRUHandle) {
    && SumsOk(c) && e in c.entries && e in Lru(c) && Evictable(c.entries[e]) && c.entries[e].charge <= c.usage
    && c.entries[e].key in c.table && c.table[c.entries[e].key] == e
    && e !in Lru(ListRemove(c, e))
  }

  lemma ListedIsDiscardable(c: Shard<LRUHandle>, e: LRUHandle)
    requires Sound(c) && e in Lru(c)
    ensures Discardable(c, e)
  {
    assert Times(Lru(c), e) > 0;
    assert EntryOk(c, e);
    ChargesRemove(c.entries, c.entries.Keys, e);
    ListRemoved(c, e, e);
    assert Times(Lru(ListRemove(c, e)), e) == LruModel.Listed(ListRemove(c, e), e);
  }

  /** c', with some handles evicted, is on the way from c to what EvictFromLRU makes of it. */
  ghost predicate EvictingTo(c: Shard<LRUHandle>, charge: nat, c': Shard<LRUHandle>, deleted: seq<LRUHandle>) {
    && Sound(c) && Sound(c') && Evict(c', charge) == Evict(c, charge)
    && c'.freed == c.freed + deleted && c'.entries.Keys <= c.entries.Keys
  }

  lemma EvictingOne(c: Shard<LRUHandle>, charge: nat, c': Shard<LRUHandle>, deleted: seq<LRUHandle>)
    requires EvictingTo(c, charge, c', deleted) && c'.usage + charge > c'.capacity && Lru(c') != []
    ensures var e := Lru(c')[0];
            && e in c'.entries && |Lru(Discard(c', e))| < |Lru(c')|
            && EvictingTo(c, charge, Discard(c', e), deleted + [e])
  {
    OldestLeaves(c');
    EvictUnfolds(c', charge);
    DiscardIs(c', Lru(c')[0]);
    AppendLast(c.freed, deleted, Lru(c')[0]);
  }

  lemma AppendLast(s: seq<LRUHandle>, t: seq<LRUHandle>, e: LRUHandle)
    ensures s + t + [e] == s + (t + [e])
  {
  }

  ghost predicate ErasingTo(c: Shard<LRUHandle>, c': Shard<LRUHandle>, deleted: seq<LRUHandle>) {
    && Sound(c) && Sound(c') && EraseUnRef(c') == EraseUnRef(c)
    && c'.freed == c.freed + deleted && c'.entries.Keys <= c.entries.Keys
  }

  lemma ErasingOne(c: Shard<LRUHandle>, c': Shard<LRUHandle>, deleted: seq<LRUHandle>)
    requires ErasingTo(c, c', deleted) && Lru(c') != []
    ensures var e := Lru(c')[0];
            && e in c'.entries && |Lru(Discard(c', e))| < |Lru(c')|
            && ErasingTo(c, Discard(c', e), deleted + [e])
  {
    OldestLeaves(c');
    EraseUnRefUnfolds(c');
    DiscardIs(c', Lru(c')[0]);
    AppendLast(c.freed, deleted, Lru(c')[0]);
  }

  lemma OverflowSplit(c: Shard<LRUHandle>)
    requires Known(c.entries, c.high) && c.high != [] && c.highUsage == SeqCharges(c.entries, c.high)
    ensures var s, n, c' := Lru(c), |c.low|, Overflow(c, 1);
            && s[..n] == c.low && s[n..] == c.high && s[n] == c.high[0]
            && s[..n + 1] == c'.low && s[n + 1..] == c'.high && Lru(c') == s
            && c'.highUsage == c.highUsage - c.entries[s[n]].charge >= 0
            && c' == c.(low := c'.low, high := c'.high, highUsage := c'.highUsage)
  {
    OverflowOne(c);
    OverflowSums(c, 1);
    assert Lru(Overflow(c, 1)) == Lru(c);
  }

  /** An entry without references, not on the list, leaves the table if it is there, and is freed. */
  function Freed(c: Shard<LRUHandle>, e: LRUHandle): Shard<LRUHandle>
    requires e in c.entries
  {
    Free(if c.entries[e].inCache then Untable(c, e) else c, e)
  }

  /** What Release needs to know of the entry it is given. */
  ghost predicate Held(c: Shard<LRUHandle>, e: LRUHandle) {
    && e in c.entries && c.entries[e].refs > 0 && e !in Lru(c) && c.entries[e].charge <= c.usage
    && (c.entries[e].inCache <==> c.entries[e].key in c.table && c.table[c.entries[e].key] == e)
    && (c.usage > c.capacity ==> Lru(c) == [])
    && SumsOk(Unref(c, e)) && c.pool >= 0.0
  }

  lemma ReferencedIsHeld(c: Shard<LRUHandle>, e: LRUHandle)
    requires Ok(c) && e in c.entries && c.entries[e].refs > 0
    ensures Held(c, e)
  {
    assert EntryOk(c, e);
    assert Times(Lru(c), e) == LruModel.Listed(c, e);
    ChargesRemove(c.entries, c.entries.Keys, e);
    if c.entries[e].key in c.table {
      assert KeyOk(c, c.entries[e].key);
    }
    UnrefSums(c, e);
    assert PoolCapacity(c.capacity, c.ratio) >= 0.0;
  }

  lemma UnrefSums(c: Shard<LRUHandle>, e: LRUHandle)
    requires SumsOk(c) && e in c.entries && c.entries[e].refs > 0
    ensures SumsOk(Unref(c, e))
  {
    SameSums(c, Unref(c, e).entries);
    ChargesSame(c.entries, Unref(c, e).entries, c.entries.Keys);
    assert Unref(c, e).entries.Keys == c.entries.Keys;
  }

  /** What erasing key k needs to know. */
  ghost predicate Erasable(c: Shard<LRUHandle>, k: CacheKey) {
    k in c.table ==> && c.table[k] in c.entries && c.entries[c.table[k]].key == k
                     && (c.entries[c.table[k]].refs == 0 ==> Discardable(c, c.table[k]))
  }

  lemma KeyIsErasable(c: Shard<LRUHandle>, k: CacheKey)
    requires Ok(c)
    ensures Erasable(c, k)
  {
    if k in c.table {
      KeyIsListed(c, k);
      assert KeyOk(c, k);
      if c.entries[c.table[k]].refs == 0 {
        ListedIsDiscardable(c, c.table[k]);
      }
    }
  }

  lemma FlagSums(c: Shard<LRUHandle>, e: LRUHandle)
    requires SumsOk(c) && e in c.entries
    ensures SumsOk(c.(entries := c.entries[e := c.entries[e].(inCache := false)]))
  {
    var entries := c.entries[e := c.entries[e].(inCache := false)];
    SameSums(c, entries);
    ChargesSame(c.entries, entries, c.entries.Keys);
    assert entries.Keys == c.entries.Keys;
  }

  lemma UntableSums(c: Shard<LRUHandle>, e: LRUHandle)
    requires SumsOk(c) && e in c.entries
    ensures SumsOk(Untable(c, e))
  {
    FlagSums(c, e);
  }

  /** Leaving the table first and the list second comes to the same. */
  lemma EraseOrder(c: Shard<LRUHandle>, e: LRUHandle)
    requires e in c.entries && e in Lru(c)
    ensures e in Lru(Untable(c, e)) && ListRemove(Untable(c, e), e) == Untable(ListRemove(c, e), e)
  {
  }

  /** The new entry may go in before the old one of its key goes out. */
  lemma AddThenUntable(c: Shard<LRUHandle>, e: LRUHandle, x: Entry, o: LRUHandle)
    requires e !in c.entries && o in c.entries && c.entries[o].key == x.key
    ensures var m := Add(c, e, x);
            m.(entries := m.entries[o := c.entries[o].(inCache := false)]) == Add(Untable(c, o), e, x)
  {
    var y := c.entries[o].(inCache := false);
    assert c.entries[e := x][o := y] == c.entries[o := y][e := x];
    assert c.table[x.key := e] == (c.table - {x.key})[x.key := e];
  }

  /** LRU_Remove looks at nothing but the list, its sums and the charge. */
  lemma ListRemoveOver(c: Shard<LRUHandle>, m: Shard<LRUHandle>, o: LRUHandle)
    requires o in c.entries && o in m.entries && m.entries[o].charge == c.entries[o].charge && o in Lru(c)
    requires m.low == c.low && m.high == c.high && m.lruUsage == c.lruUsage && m.highUsage == c.highUsage
    ensures var r := ListRemove(c, o);
            && o in Lru(m) && SameButList(c, r)
            && ListRemove(m, o) == m.(low := r.low, high := r.high, lruUsage := r.lruUsage, highUsage := r.highUsage)
  {
    var charge := c.entries[o].charge;
    if o in c.low {
      assert ListRemove(m, o) == m.(low := Without(c.low, o), lruUsage := c.lruUsage - charge);
    } else {
      assert ListRemove(c, o).low == c.low && o in c.high;
    }
  }

  lemma AddThenDiscard(c: Shard<LRUHandle>, e: LRUHandle, x: Entry, o: LRUHandle)
    requires Discardable(c, o) && e !in c.entries && c.entries[o].key == x.key
    ensures var m := Add(Untable(c, o), e, x);
            && o in m.entries && o in Lru(m) && o !in Lru(ListRemove(m, o))
            && Free(ListRemove(m, o), o) == Add(Discard(c, o), e, x)
  {
    ListRemoveOver(c, Add(Untable(c, o), e, x), o);
    AddOverDrop(c.entries, e, x, o, c.entries[o].(inCache := false));
  }

  lemma AddOverDrop(entries: map<LRUHandle, Entry>, e: LRUHandle, x: Entry, o: LRUHandle, y: Entry)
    requires e != o
    ensures entries[o := y][e := x] - {o} == (entries[o := y] - {o})[e := x]
  {
  }

  /** Before it goes, the old entry is as it was. */
  lemma ReplacedFacts(c: Shard<LRUHandle>, e: LRUHandle, x: Entry, o: LRUHandle)
    requires e !in c.entries && o in c.entries && (c.entries[o].refs == 0 ==> Discardable(c, o))
    ensures var m := Add(c, e, x);
            && m.entries[o] == c.entries[o]
            && (c.entries[o].refs == 0 ==> SumsOk(m) && o in Lru(m) && o !in Lru(ListRemove(m, o)))
  {
    if c.entries[o].refs == 0 {
      var m := Add(c, e, x);
      SameSums(c, m.entries);
      ChargesRemove(m.entries, m.entries.Keys, e);
      assert m.entries.Keys - {e} == c.entries.Keys;
      ChargesSame(c.entries, m.entries, c.entries.Keys);
    }
  }

  function Flagged(c: Shard<LRUHandle>, o: LRUHandle): Shard<LRUHandle>
    requires o in c.entries
  {
    c.(entries := c.entries[o := c.entries[o].(inCache := false)])
  }

  /** Adding the new entry and then retiring the one it replaced is erasing the key and then adding. */
  lemma ReplaceIs(c: Shard<LRUHandle>, e: LRUHandle, x: Entry)
    requires e !in c.entries && Erasable(c, x.key) && x.key in c.table
    ensures var m, o := Add(c, e, x), c.table[x.key];
            && o in m.entries && m.entries[o] == c.entries[o]
            && (c.entries[o].refs == 0 ==> SumsOk(m) && o in Lru(m) && o !in Lru(ListRemove(m, o)))
            && (c.entries[o].refs == 0 ==> c.entries[o].charge <= c.usage && o in Lru(Flagged(m, o)))
            && (if c.entries[o].refs == 0 then Free(ListRemove(Flagged(m, o), o), o) else Flagged(m, o))
               == Add(Erased(c, x.key), e, x)
  {
    var o := c.table[x.key];
    ReplacedFacts(c, e, x, o);
    AddThenUntable(c, e, x, o);
    if c.entries[o].refs == 0 {
      AddThenDiscard(c, e, x, o);
    }
  }

  /** What Insert needs to know once it has decided to accept. */
  ghost predicate Admissible(c: Shard<LRUHandle>, e: LRUHandle, x: Entry, hold: bool) {
    && Erasable(c, x.key)
    && var m := Add(Erased(c, x.key), e, x);
       !hold ==> && e !in Lru(m) && Known(m.entries, m.high)
                 && m.highUsage == SeqCharges(m.entries, m.high) && m.pool >= 0.0
  }

  lemma AcceptedIsAdmissible(c: Shard<LRUHandle>, e: LRUHandle, x: Entry, hold: bool)
    requires Ok(c) && e !in c.entries && e !in c.freed && x.inCache && x.refs == 0
    requires if hold then c.usage + x.charge > c.capacity ==> Lru(c) == [] else c.usage + x.charge <= c.capacity
    ensures Admissible(c, e, x, hold)
  {
    KeyIsErasable(c, x.key);
    if !hold {
      EraseKeeps(c, x.key);
      EraseShrinks(c, x.key);
      AddedFacts(Erased(c, x.key), e, x);
    }
  }

  lemma AddedFacts(d: Shard<LRUHandle>, e: LRUHandle, x: Entry)
    requires Ok(d) && e !in d.entries && e !in d.freed && x.inCache && x.refs == 0 && x.key !in d.table
    requires d.usage + x.charge <= d.capacity
    ensures var m := Add(d, e, x);
            e !in Lru(m) && Known(m.entries, m.high) && m.highUsage == SeqCharges(m.entries, m.high) && m.pool >= 0.0
  {
    AddKeeps(d, e, x);
    assert Times(Lru(d), e) == LruModel.Listed(d, e);
    assert PoolCapacity(d.capacity, d.ratio) >= 0.0;
  }

  /** The outcome of Insert, once room has been made in c for entry x of the new handle e. */
  ghost predicate Decided(c: Shard<LRUHandle>, e: LRUHandle, x: Entry, hold: bool,
                          c': Shard<LRUHandle>, status: Status, handle: LRUHandle?)
  {
    if c.usage + x.charge > c.capacity && (c.strict || !hold) then
      && handle == null && status == (if hold then Incomplete else OkStatus)
      && c' == if hold then c else c.(freed := c.freed + [e])
    else
      && Erasable(c, x.key) && handle == (if hold then e else null)
      && status == (if x.key in c.table then OkOverwritten else OkStatus)
      && var m := Add(Erased(c, x.key), e, x);
         Known(m.entries, m.high) && c' == if hold then m else ListInsert(m, e)
  }

  lemma DecidedIsInsert(c: Shard<LRUHandle>, e: LRUHandle, x: Entry, hold: bool,
                        c': Shard<LRUHandle>, status: Status, handle: LRUHandle?)
    requires Ok(c) && x.refs == One(hold) && Decided(Evict(c, x.charge), e, x, hold, c', status, handle)
    ensures var r := Insert(c, e, x);
            c' == r.shard && status == r.status && handle == if r.accepted && hold then e else null
  {
    EvictKeeps(c, x.charge);
    EvictShrinks(c, x.charge);
    EvictLimits(c, x.charge);
  }

  /** What a caller of Insert can tell: the value is in the cache, with what was given for it, exactly if it
      fits beside what is referenced or may overflow; the caller gets the handle exactly if it wanted
      it and the value is in, and Incomplete exactly if it wanted it in vain. */
  ghost predicate Settled(c: Shard<LRUHandle>, e: LRUHandle, x: Entry, hold: bool,
                          c': Shard<LRUHandle>, status: Status, handle: LRUHandle?)
  {
    && (e in c'.entries <==> Charges(c.entries, Referenced(c)) + x.charge <= c.capacity || (!c.strict && hold))
    && (e in c'.entries ==> c'.entries[e] == x && x.key in c'.table && c'.table[x.key] == e)
    && handle == (if hold && e in c'.entries then e else null)
    && (status.Incomplete? <==> hold && e !in c'.entries)
  }

  lemma InsertIsSettled(c: Shard<LRUHandle>, e: LRUHandle, x: Entry, hold: bool, status: Status, handle: LRUHandle?)
    requires Ok(c) && e !in c.entries && e !in c.freed && x.inCache && x.refs == One(hold)
    requires var r := Insert(c, e, x); status == r.status && handle == if r.accepted && hold then e else null
    ensures Settled(c, e, x, hold, Insert(c, e, x).shard, status, handle)
  {
    InsertDecides(c, e, x);
  }

  lemma InsertFacts(c: Shard<LRUHandle>, e: LRUHandle, x: Entry, hold: bool)
    requires Ok(c) && e !in c.entries && e !in c.freed && x.inCache && x.refs == 0
    ensures var c1 := Evict(c, x.charge);
            && (c1.usage + x.charge <= c1.capacity || !(c1.strict || !hold) ==> Admissible(c1, e, x, hold))
            && c1.capacity == c.capacity && c1.strict == c.strict && e !in c1.entries
  {
    var c1 := Evict(c, x.charge);
    EvictKeeps(c, x.charge);
    EvictShrinks(c, x.charge);
    EvictLimits(c, x.charge);
    if c1.usage + x.charge <= c1.capacity || !(c1.strict || !hold) {
      AcceptedIsAdmissible(c1, e, x, hold);
    }
  }

  lemma AcquiredIs(c: Shard<LRUHandle>, e: LRUHandle, m: Shard<LRUHandle>)
    requires e in c.entries && (c.entries[e].refs == 0 ==> e in Lru(c))
    requires m == if c.entries[e].refs == 0 then ListRemove(c, e) else c
    ensures m.entries == c.entries
    ensures var x := c.entries[e]; Acquired(c, e) == m.(entries := m.entries[e := x.(refs := x.refs + 1, hit := true)])
  {
  }

  function Pushed(c: Shard<LRUHandle>, e: LRUHandle, high: bool): Shard<LRUHandle>
    requires e in c.entries
  {
    if high then PushHigh(c, e) else c.(low := c.low + [e])
  }

  class LRUCacheShard {
    var capacity: nat
    var highPriPoolUsage: nat
    var strictCapacityLimit: bool
    var highPriPoolRatio: real
    var highPriPoolCapacity: real
    const lru: LRUHandle
    var lruLowPri: LRUHandle
    const table: LRUHandleTable
    var usage: nat
    var lruUsage: nat
    ghost var model: Shard<LRUHandle>

    constructor (capacity: nat, strict: bool, ratio: real)
      requires ratio >= 0.0
      ensures Valid() && model == NewShard(capacity, strict, ratio)
      ensures fresh(lru) && fresh(table) && fresh(table.list)
    {
      this.capacity, strictCapacityLimit, highPriPoolRatio := capacity, strict, ratio;
      highPriPoolUsage, usage, lruUsage, highPriPoolCapacity := 0, 0, 0, capacity as real * ratio;
      var head := new LRUHandle(CacheKey("", 0), "", 0, false);
      lru, lruLowPri := head, head;
      table := new LRUHandleTable();
      model := NewShard(capacity, strict, ratio);
      new;
      lru.next, lru.prev := lru, lru;
      NewShardOk<LRUHandle>(capacity, strict, ratio);
    }

    /** Handle i of the list s; the dummy head stands before the first and after the last. */
    function Node(s: seq<LRUHandle>, i: int): LRUHandle {
      if 0 <= i < |s| then s[i] else lru
    }

    /** The circular list through the dummy head holds s, oldest first. */
    ghost predicate Ring(s: seq<LRUHandle>)
      reads lru`next, lru`prev, s`next, s`prev
    {
      && lru.next == Node(s, 0) && lru.prev == Node(s, |s| - 1)
      && (forall i {:trigger s[i].next} :: 0 <= i < |s| ==> s[i].next == Node(s, i + 1))
      && (forall i {:trigger s[i].prev} :: 0 <= i < |s| ==> s[i].prev == Node(s, i - 1))
    }

    /** Takes handle i out of the list. */
    method Unlink(e: LRUHandle, ghost s: seq<LRUHandle>, ghost i: nat)
      requires Ring(s) && Distinct(s) && lru !in s && i < |s| && e == s[i]
      modifies lru`next, lru`prev, s`next, s`prev
      ensures Ring(s[..i] + s[i + 1..]) && e.next == null && e.prev == null
    {
      e.next.prev := e.prev;
      e.prev.next := e.next;
      e.prev, e.next := null, null;
      ghost var t := s[..i] + s[i + 1..];
      forall k | 0 <= k < |t|
        ensures t[k].next == Node(t, k + 1) && t[k].prev == Node(t, k - 1)
      {
        ghost var x := if k < i then k else k + 1;
        assert t[k] == s[x] && old(s[x].next) == Node(s, x + 1) && old(s[x].prev) == Node(s, x - 1);
      }
    }

    /** Puts e before handle i of the list. */
    method LinkBefore(e: LRUHandle, after: LRUHandle, ghost s: seq<LRUHandle>, ghost i: nat)
      requires Ring(s) && Distinct(s) && lru !in s && i <= |s| && e !in s && e != lru && after == Node(s, i - 1)
      modifies lru`next, lru`prev, s`next, s`prev, e`next, e`prev
      ensures Ring(s[..i] + [e] + s[i..])
    {
      e.next := after.next;
      e.prev := after;
      e.prev.next := e;
      e.next.prev := e;
      ghost var t := s[..i] + [e] + s[i..];
      forall k | 0 <= k < |t|
        ensures t[k].next == Node(t, k + 1) && t[k].prev == Node(t, k - 1)
      {
        if k != i {
          ghost var x := if k < i then k else k - 1;
          assert t[k] == s[x] && old(s[x].next) == Node(s, x + 1) && old(s[x].prev) == Node(s, x - 1);
        }
      }
    }

    // ----- how the fields stand for the model

    ghost predicate Counters()
      reads this
    {
      && capacity == model.capacity && strictCapacityLimit == model.strict
      && highPriPoolRatio == model.ratio && highPriPoolCapacity == model.pool
      && usage == model.usage && lruUsage == model.lruUsage && highPriPoolUsage == model.highUsage
    }

    /** The list s, of which the first n are the low-priority pool, is linked through the handles. */
    ghost predicate Linked(handles: set<LRUHandle>, s: seq<LRUHandle>, n: nat)
      reads `lruLowPri, lru`next, lru`prev, handles`next, handles`prev
    {
      && lru !in handles && (forall e :: e in s ==> e in handles) && NoRepeat(s) && Ring(s)
      && n <= |s| && lruLowPri == Node(s, n - 1) && Away(handles, s)
    }

    ghost predicate Tabled(contents: map<CacheKey, LRUHandle>, handles: set<LRUHandle>)
      reads table, table.list, table.nodes`nextHash
    {
      table.Valid() && table.contents == contents && table.nodes <= handles
    }

    /** The list and the sums stand for the model. */
    ghost predicate Listed()
      reads this, lru`next, lru`prev, model.entries.Keys`next, model.entries.Keys`prev, model.entries.Keys`inHighPriPool
    {
      && Known(model.entries, model.low) && Known(model.entries, model.high) && AllAbout(model.entries) && Counters()
      && Linked(model.entries.Keys, Lru(model), |model.low|) && Pooled(model.low, false) && Pooled(model.high, true)
    }

    // ----- the list

    /** The pointers of LRU_Remove. */
    method TakeOut(e: LRUHandle, ghost handles: set<LRUHandle>, ghost s: seq<LRUHandle>, ghost n: nat, ghost i: nat)
      requires Linked(handles, s, n) && i < |s| && e == s[i]
      modifies `lruLowPri, lru`next, lru`prev, handles`next, handles`prev
      ensures Linked(handles, s[..i] + s[i + 1..], n - One(i < n))
    {
      CutSeq(s, i);
      NoRepeatIsDistinct(s);
      ghost var t := s[..i] + s[i + 1..];
      assert e.prev == Node(s, i - 1);
      if lruLowPri == e {
        lruLowPri := e.prev;
      }
      Unlink(e, s, i);
      forall x | x in handles && x !in t
        ensures OffList(x)
      {
        assert x != e ==> old(OffList(x));
      }
    }

    /** The sums of LRU_Remove. */
    method Uncount(e: LRUHandle)
      requires Counters() && e in model.entries && e in Lru(model) && model.entries[e].charge == e.charge
      requires e.charge <= lruUsage && (e !in model.low ==> e.charge <= highPriPoolUsage) && InPool(e, e !in model.low)
      modifies `lruUsage, `highPriPoolUsage, `model
      ensures Counters() && model == ListRemove(old(model), e)
    {
      lruUsage := lruUsage - e.charge;
      if e.inHighPriPool {
        highPriPoolUsage := highPriPoolUsage - e.charge;
      }
      model := ListRemove(model, e);
    }

    method Detach(e: LRUHandle)
      requires Linked(model.entries.Keys, Lru(model), |model.low|) && e in model.entries && e in Lru(model)
      modifies `lruLowPri, lru`next, lru`prev, model.entries.Keys`next, model.entries.Keys`prev
      ensures var c' := ListRemove(model, e); Linked(model.entries.Keys, Lru(c'), |c'.low|)
    {
      RemovedList(model, e);
      TakeOut(e, model.entries.Keys, Lru(model), |model.low|, Position(model, e));
    }

    method LruRemove(e: LRUHandle)
      requires Listed() && SumsOk(model) && e in Lru(model)
      modifies `lruLowPri, `lruUsage, `highPriPoolUsage, `model
      modifies lru`next, lru`prev, model.entries.Keys`next, model.entries.Keys`prev
      ensures e in old(model).entries && model == ListRemove(old(model), e) && Listed()
    {
      RemovedFits(model, e);
      RemovedPools(model, e);
      assert About(e, model.entries[e]) && InPool(e, e !in model.low);
      Detach(e);
      Uncount(e);
    }

    /** Overflows the last entries of the high-priority pool to the other, until it fits. */
    method MaintainPoolSize()
      requires Listed() && model.highUsage == SeqCharges(model.entries, model.high) && model.pool >= 0.0
      modifies `lruLowPri, `highPriPoolUsage, `model, model.entries.Keys`inHighPriPool
      ensures Listed() && Known(old(model).entries, old(model).high) && model == Maintain(old(model))
      ensures SameButList(old(model), model)
    {
      ghost var c := model;
      while highPriPoolUsage as real > highPriPoolCapacity
        invariant Listed() && SameButList(c, model) && model.pool >= 0.0
        invariant model.highUsage == SeqCharges(model.entries, model.high) && Maintain(model) == Maintain(c)
        decreases |model.high|
      {
        MaintainStep(model);
        OverflowOne(model);
        OverflowFirst();
      }
    }

    /** The first handle of the high-priority pool becomes the last of the other. */
    method ShiftPool(ghost handles: set<LRUHandle>, ghost s: seq<LRUHandle>, ghost n: nat)
      requires Linked(handles, s, n) && n < |s| && Pooled(s[..n], false) && Pooled(s[n..], true)
      modifies `lruLowPri, handles`inHighPriPool
      ensures lruLowPri == s[n] && Linked(handles, s, n + 1) && Pooled(s[..n + 1], false) && Pooled(s[n + 1..], true)
    {
      assert n > 0 ==> s[n - 1].next == Node(s, n);
      lruLowPri := lruLowPri.next;
      assert lruLowPri == s[n] && lruLowPri != lru;
      lruLowPri.inHighPriPool := false;
      forall x | x in s[..n + 1]
        ensures InPool(x, false)
      {
        assert x != s[n] ==> x in s[..n] && old(InPool(x, false));
      }
      forall x | x in s[n + 1..]
        ensures InPool(x, true)
      {
        ghost var k :| n + 1 <= k < |s| && s[k] == x;
        assert Apart(s, n, k) && x in s[n..] && old(InPool(x, true));
      }
    }

    method OverflowFirst()
      requires Listed() && model.high != [] && model.highUsage == SeqCharges(model.entries, model.high)
      modifies `lruLowPri, `highPriPoolUsage, `model, model.entries.Keys`inHighPriPool
      ensures Listed() && Known(old(model).entries, old(model).high) && model == Overflow(old(model), 1)
    {
      ghost var c, s, n := model, Lru(model), |model.low|;
      OverflowSplit(c);
      assert About(s[n], c.entries[s[n]]);
      ShiftPool(c.entries.Keys, s, n);
      UncountHigh(lruLowPri.charge, Overflow(c, 1));
    }

    method UncountHigh(charge: nat, ghost c: Shard<LRUHandle>)
      requires Counters() && charge <= highPriPoolUsage
      requires c == model.(low := c.low, high := c.high, highUsage := model.highUsage - charge)
      modifies `highPriPoolUsage, `model
      ensures Counters() && model == c
    {
      highPriPoolUsage := highPriPoolUsage - charge;
      model := c;
    }

    /** The pointers of LRU_Insert: e goes after the last of the list, or of the low-priority pool. */
    method PutIn(e: LRUHandle, high: bool, ghost handles: set<LRUHandle>, ghost s: seq<LRUHandle>, ghost n: nat)
      requires Linked(handles, s, n) && e in handles && e !in s
      modifies `lruLowPri, lru`next, lru`prev, handles`next, handles`prev
      ensures var i := if high then |s| else n; Linked(handles, s[..i] + [e] + s[i..], if high then n else n + 1)
    {
      ghost var i := if high then |s| else n;
      ghost var t := s[..i] + [e] + s[i..];
      PutSeq(s, i, e);
      NoRepeatIsDistinct(s);
      LinkBefore(e, if high then lru.prev else lruLowPri, s, i);
      if !high {
        lruLowPri := e;
      }
      forall x | x in handles && x !in t
        ensures OffList(x)
      {
        assert old(OffList(x));
      }
    }

    method SetInHighPriPool(e: LRUHandle, inHigh: bool, ghost low: seq<LRUHandle>, ghost high: seq<LRUHandle>)
      requires Pooled(low, false) && Pooled(high, true) && e !in low && e !in high
      modifies e`inHighPriPool
      ensures Pooled(if inHigh then low else low + [e], false) && Pooled(if inHigh then high + [e] else high, true)
    {
      e.inHighPriPool := inHigh;
      forall x | x in low
        ensures InPool(x, false)
      {
        assert old(InPool(x, false));
      }
      forall x | x in high
        ensures InPool(x, true)
      {
        assert old(InPool(x, true));
      }
    }

    method Attach(e: LRUHandle, high: bool)
      requires Linked(model.entries.Keys, Lru(model), |model.low|) && e in model.entries && e !in Lru(model)
      modifies `lruLowPri, lru`next, lru`prev, model.entries.Keys`next, model.entries.Keys`prev
      ensures var c' := Pushed(model, e, high); Linked(model.entries.Keys, Lru(c'), |c'.low|)
    {
      ghost var s, n, c' := Lru(model), |model.low|, Pushed(model, e, high);
      assert high ==> s[..|s|] + [e] + s[|s|..] == Lru(c');
      assert !high ==> s[..n] + [e] + s[n..] == Lru(c');
      PutIn(e, high, model.entries.Keys, s, n);
    }

    /** The flag and the pool's sum. */
    method Enroll(e: LRUHandle, high: bool)
      requires Counters() && e in model.entries && model.entries[e].charge == e.charge
      requires Pooled(model.low, false) && Pooled(model.high, true) && e !in model.low && e !in model.high
      modifies `highPriPoolUsage, `model, e`inHighPriPool
      ensures Counters() && model == Pushed(old(model), e, high) && Pooled(model.low, false) && Pooled(model.high, true)
    {
      SetInHighPriPool(e, high, model.low, model.high);
      if high {
        highPriPoolUsage := highPriPoolUsage + e.charge;
      }
      model := Pushed(model, e, high);
    }

    /** Puts e at the end of a pool, without counting it in lruUsage yet. */
    method AddToPool(e: LRUHandle, high: bool)
      requires Listed() && e in model.entries && e !in Lru(model)
      modifies `lruLowPri, `highPriPoolUsage, `model, lru`next, lru`prev
      modifies model.entries.Keys`next, model.entries.Keys`prev, e`inHighPriPool
      ensures Listed() && e in old(model).entries && model == Pushed(old(model), e, high)
    {
      assert About(e, model.entries[e]);
      Attach(e, high);
      Enroll(e, high);
    }

    method AddHigh(e: LRUHandle)
      requires Listed() && e in model.entries && e !in Lru(model)
      requires model.highUsage == SeqCharges(model.entries, model.high) && model.pool >= 0.0
      modifies `lruLowPri, `highPriPoolUsage, `model, lru`next, lru`prev
      modifies model.entries.Keys`next, model.entries.Keys`prev, model.entries.Keys`inHighPriPool
      ensures Listed() && e in old(model).entries && Known(old(model).entries, PushHigh(old(model), e).high)
      ensures model == Maintain(PushHigh(old(model), e)) && SameButList(old(model), model)
    {
      SeqChargesOne(model.entries, model.high, e);
      AddToPool(e, true);
      MaintainPoolSize();
    }

    method Count(charge: nat)
      requires Listed()
      modifies `lruUsage, `model
      ensures Listed() && model == old(model).(lruUsage := old(model).lruUsage + charge)
    {
      lruUsage := lruUsage + charge;
      model := model.(lruUsage := model.lruUsage + charge);
    }

    method LruInsert(e: LRUHandle)
      requires Listed() && e in model.entries && e !in Lru(model) && Shows(e, model.entries[e])
      requires model.highUsage == SeqCharges(model.entries, model.high) && model.pool >= 0.0
      modifies `lruLowPri, `lruUsage, `highPriPoolUsage, `model, lru`next, lru`prev
      modifies model.entries.Keys`next, model.entries.Keys`prev, model.entries.Keys`inHighPriPool
      ensures Listed() && e in old(model).entries && Known(old(model).entries, old(model).high)
      ensures model == ListInsert(old(model), e) && SameButList(old(model), model)
    {
      ghost var c := model;
      assert About(e, c.entries[e]);
      if highPriPoolRatio > 0.0 && (e.highPri || e.hit) {
        AddHigh(e);
      } else {
        AddToPool(e, false);
      }
      assert model.lruUsage == c.lruUsage;
      Count(e.charge);
    }

    // ----- entries

    ghost predicate Coupled()
      reads this, lru`next, lru`prev, model.entries.Keys, table, table.list, table.nodes`nextHash
    {
      Listed() && Shown(model.entries) && Tabled(model.table, model.entries.Keys)
    }

    /** Brings the model up to date with the references and flags of e. */
    ghost method Sync(e: LRUHandle, contents: map<CacheKey, LRUHandle>)
      requires Listed() && Shown(model.entries - {e}) && e in model.entries
      modifies `model
      ensures Listed() && Shown(model.entries)
      ensures model == old(model).(entries := old(model).entries[e := EntryOf(e)], table := contents)
      ensures model.entries.Keys == old(model).entries.Keys
    {
      ghost var c := model;
      model := c.(entries := c.entries[e := EntryOf(e)], table := contents);
      assert model.entries.Keys == c.entries.Keys;
      forall y | y in model.entries
        ensures About(y, model.entries[y]) && Shows(y, model.entries[y])
      {
        assert y != e ==> About(y, c.entries[y]) && Shows(y, (c.entries - {e})[y]);
      }
    }

    method SetInCacheFalse(e: LRUHandle, ghost contents: map<CacheKey, LRUHandle>)
      requires Listed() && Shown(model.entries) && e in model.entries
      modifies e`inCache, `model
      ensures Listed() && Shown(model.entries) && e in old(model).entries
      ensures var x := old(model).entries[e].(inCache := false);
              model == old(model).(entries := old(model).entries[e := x], table := contents)
      ensures model.entries.Keys == old(model).entries.Keys
    {
      ShownBut(model.entries, e);
      e.inCache := false;
      Sync(e, contents);
    }

    /** The entry of key k, if any, leaves the table. */
    method RemoveKey(k: CacheKey) returns (e: LRUHandle?)
      requires Coupled()
      modifies `model, model.entries.Keys`inCache, table, table.list, table.nodes`nextHash
      ensures Coupled() && table.list == old(table.list) && e == old(if k in model.table then model.table[k] else null)
      ensures if e == null then model == old(model)
              else e in old(model).entries && e.key == k && model == Untable(old(model), e)
    {
      assert Keyed(table.nodes, table.contents, k);
      e := table.Remove(k);
      if e != null {
        assert About(e, model.entries[e]);
        SetInCacheFalse(e, model.table - {k});
      } else {
        assert model.table - {k} == model.table;
      }
    }

    /** Frees e, which is neither on the list nor in the table. */
    method Drop(e: LRUHandle)
      requires Coupled() && e in model.entries && e !in Lru(model) && (e.key in model.table ==> model.table[e.key] != e)
      requires e.refs == 0 && e.charge <= usage
      modifies `usage, `model
      ensures Coupled() && e in old(model).entries && model == Free(old(model), e)
    {
      ghost var c := model;
      ShownBut(c.entries, e);
      assert e !in table.nodes by {
        assert e in table.nodes ==> Mapped(table.contents, e);
      }
      assert About(e, c.entries[e]);
      usage := usage - e.charge;
      model := Free(c, e);
      LeaveList(c, e);
    }

    /** The list does not depend on a handle that is not on it. */
    lemma LeaveList(c: Shard<LRUHandle>, e: LRUHandle)
      requires Linked(c.entries.Keys, Lru(c), |c.low|) && AllAbout(c.entries) && e !in Lru(c)
      requires Known(c.entries, c.low) && Known(c.entries, c.high)
      ensures var entries := c.entries - {e};
              && Linked(entries.Keys, Lru(c), |c.low|) && AllAbout(entries)
              && Known(entries, c.low) && Known(entries, c.high)
    {
      var entries := c.entries - {e};
      forall x | x in entries
        ensures About(x, entries[x])
      {
        assert About(x, c.entries[x]);
      }
      forall x | x in entries.Keys && x !in Lru(c)
        ensures OffList(x)
      {
      }
    }

    /** An entry that nobody refers to and that is not on the list leaves the cache. */
    method Expel(e: LRUHandle)
      requires Coupled() && e in model.entries && e !in Lru(model) && e.key in model.table && model.table[e.key] == e
      requires e.refs == 0 && e.charge <= usage
      modifies `usage, `model, model.entries.Keys`inCache, table, table.list, table.nodes`nextHash
      ensures Coupled() && table.list == old(table.list)
      ensures e in old(model).entries && model == Free(Untable(old(model), e), e)
    {
      assert About(e, model.entries[e]);
      var removed := RemoveKey(e.key);
      Drop(e);
    }

    /** LRU_Remove leaves the table alone. */
    method RemoveFromList(e: LRUHandle)
      requires Coupled() && SumsOk(model) && e in Lru(model)
      modifies `lruLowPri, `lruUsage, `highPriPoolUsage, `model
      modifies lru`next, lru`prev, model.entries.Keys`next, model.entries.Keys`prev
      ensures Coupled() && e in old(model).entries && model == ListRemove(old(model), e)
    {
      ghost var c := model;
      LruRemove(e);
      assert model.entries == c.entries && model.table == c.table;
    }

    method DiscardEntry(e: LRUHandle)
      requires Coupled() && Discardable(model, e)
      modifies this, lru, table, table.list, model.entries.Keys
      ensures Coupled() && table.list == old(table.list) && e.refs == 0
      ensures e in old(model).entries && e in Lru(old(model)) && model == Discard(old(model), e)
    {
      assert Shows(e, model.entries[e]) && About(e, model.entries[e]);
      RemoveFromList(e);
      Expel(e);
    }

    // ----- operations

    /** The body of the loops of EvictFromLRU and EraseUnRefEntries. */
    method EvictOldest() returns (e: LRUHandle)
      requires Coupled() && Sound(model) && Lru(model) != []
      modifies this, lru, table, table.list, model.entries.Keys
      ensures Coupled() && table.list == old(table.list) && e == old(Lru(model)[0]) && e.refs == 0
      ensures e in old(model).entries && model == Discard(old(model), e)
    {
      e := lru.next;
      assert e == Lru(model)[0] && e in Lru(model);
      ListedIsDiscardable(model, e);
      assert e.inCache && e.refs == 0 by {
        assert Shows(e, model.entries[e]);
      }
      DiscardEntry(e);
    }

    ghost predicate Valid()
      reads this, lru`next, lru`prev, model.entries.Keys, table, table.list, table.nodes`nextHash
    {
      Coupled() && Ok(model)
    }

    /** Frees handles, oldest first, until charge fits or nothing is left to evict. */
    method EvictFromLRU(charge: nat) returns (deleted: seq<LRUHandle>)
      requires Coupled() && Sound(model)
      modifies this, lru, table, table.list, model.entries.Keys
      ensures Valid() && table.list == old(table.list) && model.entries.Keys <= old(model).entries.Keys
      ensures Sound(old(model)) && model == Evict(old(model), charge) && model.freed == old(model).freed + deleted
    {
      ghost var c := model;
      deleted := [];
      while usage + charge > capacity && lru.next != lru
        invariant Coupled() && table.list == old(table.list) && EvictingTo(c, charge, model, deleted)
        decreases |Lru(model)|
      {
        EvictingOne(c, charge, model, deleted);
        var e := EvictOldest();
        deleted := deleted + [e];
      }
      EvictKeeps(c, charge);
    }

    method EraseUnRefEntries() returns (deleted: seq<LRUHandle>)
      requires Valid()
      modifies this, lru, table, table.list, model.entries.Keys
      ensures Valid() && table.list == old(table.list) && model.entries.Keys <= old(model).entries.Keys
      ensures Sound(old(model)) && model == EraseUnRef(old(model)) && model.freed == old(model).freed + deleted
    {
      ghost var c := model;
      deleted := [];
      while lru.next != lru
        invariant Coupled() && table.list == old(table.list) && ErasingTo(c, model, deleted)
        decreases |Lru(model)|
      {
        ErasingOne(c, model, deleted);
        var e := EvictOldest();
        deleted := deleted + [e];
      }
      EraseUnRefKeeps(c);
    }

    /** New capacity and pool capacity, before anything is evicted. */
    method Resize(capacity: nat, ratio: real)
      requires Coupled()
      modifies `capacity, `highPriPoolRatio, `highPriPoolCapacity, `model
      ensures Coupled()
      ensures model == old(model).(capacity := capacity, ratio := ratio, pool := PoolCapacity(capacity, ratio))
    {
      this.capacity := capacity;
      highPriPoolRatio := ratio;
      highPriPoolCapacity := capacity as real * ratio;
      model := model.(capacity := capacity, ratio := ratio, pool := PoolCapacity(capacity, ratio));
    }

    method SetCapacity(capacity: nat) returns (deleted: seq<LRUHandle>)
      requires Valid()
      modifies this, lru, table, table.list, model.entries.Keys
      ensures Valid() && table.list == old(table.list) && model.entries.Keys <= old(model).entries.Keys
      ensures Ok(old(model)) && model == LruOps.SetCapacity(old(model), capacity)
      ensures model.freed == old(model).freed + deleted
    {
      ghost var c := model;
      Resize(capacity, highPriPoolRatio);
      ResizeKeeps(c, model);
      deleted := EvictFromLRU(0);
    }

    method SetHighPriorityPoolRatio(ratio: real)
      requires Valid() && ratio >= 0.0
      modifies this, model.entries.Keys`inHighPriPool
      ensures Valid() && Ok(old(model)) && model == SetRatio(old(model), ratio)
    {
      ghost var c := model;
      Resize(capacity, ratio);
      ResizeKeeps(c, model);
      MaintainPoolSize();
      SetRatioKeeps(c, ratio);
    }

    method SetStrictCapacityLimit(strict: bool)
      requires Valid()
      modifies `strictCapacityLimit, `model
      ensures Valid() && model == old(model).(strict := strict)
    {
      ghost var c := model;
      strictCapacityLimit := strict;
      model := model.(strict := strict);
      StrictKeeps(c, strict);
    }

    method SetRefs(e: LRUHandle, refs: nat)
      requires Coupled() && e in model.entries
      modifies `model, e`refs
      ensures Coupled() && e in old(model).entries && e.refs == refs
      ensures model == old(model).(entries := old(model).entries[e := old(model).entries[e].(refs := refs)])
      ensures model.entries.Keys == old(model).entries.Keys
    {
      ShownBut(model.entries, e);
      e.refs := refs;
      Sync(e, model.table);
    }

    method SetHit(e: LRUHandle)
      requires Coupled() && e in model.entries
      modifies `model, e`hit
      ensures Coupled() && e in old(model).entries
      ensures model == old(model).(entries := old(model).entries[e := old(model).entries[e].(hit := true)])
      ensures model.entries.Keys == old(model).entries.Keys
    {
      ShownBut(model.entries, e);
      e.hit := true;
      Sync(e, model.table);
    }

    method RefAndSetHit(e: LRUHandle)
      requires Coupled() && e in model.entries
      modifies `model, e`refs, e`hit
      ensures Coupled() && e in old(model).entries && model.entries.Keys == old(model).entries.Keys
      ensures var x := old(model).entries[e];
              model == old(model).(entries := old(model).entries[e := x.(refs := x.refs + 1, hit := true)])
    {
      ghost var entries := model.entries;
      assert Shows(e, entries[e]);
      SetRefs(e, e.refs + 1);
      ghost var x := model.entries[e];
      SetHit(e);
      UpdateTwice(entries, e, x, x.(hit := true));
    }

    method RemoveIfIdle(e: LRUHandle)
      requires Coupled() && SumsOk(model) && e in model.entries && (e.refs == 0 ==> e in Lru(model))
      modifies `lruLowPri, `lruUsage, `highPriPoolUsage, `model
      modifies lru`next, lru`prev, model.entries.Keys`next, model.entries.Keys`prev
      ensures Coupled() && e in old(model).entries && (old(model).entries[e].refs == 0 ==> e in Lru(old(model)))
      ensures model == if old(model).entries[e].refs == 0 then ListRemove(old(model), e) else old(model)
    {
      assert Shows(e, model.entries[e]);
      if e.refs == 0 {
        RemoveFromList(e);
      }
    }

    /** A hit of Lookup. */
    method Acquire(e: LRUHandle)
      requires Coupled() && SumsOk(model) && e in model.entries && (e.refs == 0 ==> e in Lru(model))
      modifies this, lru, model.entries.Keys
      ensures Coupled() && e in old(model).entries && model.entries.Keys == old(model).entries.Keys
      ensures (old(model).entries[e].refs == 0 ==> e in Lru(old(model))) && model == Acquired(old(model), e)
    {
      ghost var c := model;
      RemoveIfIdle(e);
      AcquiredIs(c, e, model);
      RefAndSetHit(e);
    }

    method LookupEntry(k: CacheKey) returns (e: LRUHandle?)
      requires Coupled() && SumsOk(model)
      requires k in model.table ==> model.table[k] in model.entries
      requires k in model.table ==> model.entries[model.table[k]].inCache
      requires k in model.table && model.entries[model.table[k]].refs == 0 ==> model.table[k] in Lru(model)
      modifies this, lru, model.entries.Keys
      ensures Coupled() && model.entries.Keys == old(model).entries.Keys
      ensures e == old(if k in model.table then model.table[k] else null)
      ensures if e == null then model == old(model)
              else e in old(model).entries && (old(model).entries[e].refs == 0 ==> e in Lru(old(model)))
                   && model == Acquired(old(model), e)
    {
      e := table.Lookup(k);
      if e != null {
        assert Shows(e, model.entries[e]);
        assert e.inCache;
        Acquire(e);
      }
    }

    method Lookup(k: CacheKey) returns (e: LRUHandle?)
      requires Valid()
      modifies this, lru, model.entries.Keys
      ensures Valid() && model.entries.Keys == old(model).entries.Keys
      ensures Ok(old(model)) && model == LruOps.Lookup(old(model), k)
      ensures e == old(if k in model.table then model.table[k] else null)
    {
      ghost var c := model;
      if k in c.table {
        KeyIsListed(c, k);
        assert KeyOk(c, k);
      }
      e := LookupEntry(k);
      LookupKeeps(c, k);
    }

    method Ref(e: LRUHandle)
      requires Valid() && e in model.entries && e.refs > 0
      modifies `model, e`refs
      ensures Valid() && e in old(model).entries && model == LruOps.Ref(old(model), e)
    {
      assert Shows(e, model.entries[e]);
      RefKeeps(model, e);
      SetRefs(e, e.refs + 1);
    }

    /** LRU_Insert leaves the table alone. */
    method InsertInList(e: LRUHandle)
      requires Coupled() && e in model.entries && e !in Lru(model)
      requires model.highUsage == SeqCharges(model.entries, model.high) && model.pool >= 0.0
      modifies `lruLowPri, `lruUsage, `highPriPoolUsage, `model, lru`next, lru`prev
      modifies model.entries.Keys`next, model.entries.Keys`prev, model.entries.Keys`inHighPriPool
      ensures Coupled() && e in old(model).entries && Known(old(model).entries, old(model).high)
      ensures model == ListInsert(old(model), e) && SameButList(old(model), model)
    {
      assert Shows(e, model.entries[e]);
      LruInsert(e);
    }

    /** Drops the last reference to an entry that is not kept. */
    method FreeReleased(e: LRUHandle)
      requires Coupled() && e in model.entries && e.refs == 0 && e !in Lru(model) && e.charge <= usage
      requires e.inCache <==> e.key in model.table && model.table[e.key] == e
      modifies `usage, `model, model.entries.Keys`inCache, table, table.list, table.nodes`nextHash
      ensures Coupled() && table.list == old(table.list) && e in old(model).entries
      ensures model == Freed(old(model), e)
    {
      assert Shows(e, model.entries[e]);
      if e.inCache {
        Expel(e);
      } else {
        Drop(e);
      }
    }

    /** The last reference is gone: the entry is freed, or kept on the list. */
    method ReleaseLast(e: LRUHandle, force: bool) returns (freed: bool)
      requires Coupled() && e in model.entries && e.refs == 0 && e !in Lru(model) && e.charge <= usage
      requires e.inCache <==> e.key in model.table && model.table[e.key] == e
      requires (usage > capacity ==> Lru(model) == []) && SumsOk(model) && model.pool >= 0.0
      modifies this, lru, table, table.list, model.entries.Keys
      ensures Coupled() && table.list == old(table.list) && model.entries.Keys <= old(model).entries.Keys
      ensures e in old(model).entries && Known(old(model).entries, old(model).high)
      ensures freed == (!old(model).entries[e].inCache || old(model).usage > old(model).capacity || force)
      ensures model == if freed then Freed(old(model), e) else ListInsert(old(model), e)
    {
      assert Shows(e, model.entries[e]);
      freed := !e.inCache || usage > capacity || force;
      assert usage > capacity && !force ==> lru.next == lru;
      if freed {
        FreeReleased(e);
      } else {
        InsertInList(e);
      }
    }

    /** Drops a reference; true if that frees the handle. */
    method ReleaseEntry(e: LRUHandle, force: bool) returns (freed: bool)
      requires Coupled() && Held(model, e)
      modifies this, lru, table, table.list, model.entries.Keys
      ensures Coupled() && table.list == old(table.list) && model.entries.Keys <= old(model).entries.Keys
      ensures Held(old(model), e) && freed == ReleaseFrees(old(model), e, force)
      ensures Known(Unref(old(model), e).entries, Unref(old(model), e).high)
      ensures model == if freed then Freed(Unref(old(model), e), e)
                       else if old(model).entries[e].refs == 1 then ListInsert(Unref(old(model), e), e)
                       else Unref(old(model), e)
    {
      assert Shows(e, model.entries[e]) && About(e, model.entries[e]);
      SetRefs(e, e.refs - 1);
      freed := false;
      if e.refs == 0 {
        freed := ReleaseLast(e, force);
      }
    }

    method Release(handle: LRUHandle?, force: bool) returns (freed: bool)
      requires Valid() && (handle != null ==> handle in model.entries && handle.refs > 0)
      modifies this, lru, table, table.list, model.entries.Keys
      ensures Valid() && table.list == old(table.list) && model.entries.Keys <= old(model).entries.Keys
      ensures Ok(old(model)) && (handle == null ==> model == old(model) && !freed)
      ensures handle != null ==> handle in old(model).entries && old(model).entries[handle].refs > 0
                                 && model == LruOps.Release(old(model), handle, force)
                                 && freed == ReleaseFrees(old(model), handle, force)
    {
      if handle == null {
        return false;
      }
      ghost var c := model;
      assert Shows(handle, c.entries[handle]);
      ReferencedIsHeld(c, handle);
      ReleaseKeeps(c, handle, force);
      freed := ReleaseEntry(handle, force);
    }

    // ----- Erase

    /** Frees an entry that has left the table and that nobody refers to. */
    method DropListed(e: LRUHandle)
      requires Coupled() && SumsOk(model) && e in model.entries && e in Lru(model) && e !in Lru(ListRemove(model, e))
      requires (e.key in model.table ==> model.table[e.key] != e) && e.refs == 0 && e.charge <= usage
      modifies `usage, `lruLowPri, `lruUsage, `highPriPoolUsage, `model
      modifies lru`next, lru`prev, model.entries.Keys`next, model.entries.Keys`prev
      ensures Coupled() && e in old(model).entries && e in Lru(old(model))
      ensures model == Free(ListRemove(old(model), e), e)
    {
      RemoveFromList(e);
      Drop(e);
    }

    /** Takes the entry of key k, if any, out of the table, and frees it if nobody refers to it. */
    method EraseEntry(k: CacheKey)
      requires Coupled() && Erasable(model, k)
      modifies this, lru, table, table.list, model.entries.Keys
      ensures Coupled() && table.list == old(table.list) && model.entries.Keys <= old(model).entries.Keys
      ensures Erasable(old(model), k) && model == Erased(old(model), k)
    {
      ghost var c := model;
      var e := RemoveKey(k);
      if e != null {
        assert About(e, c.entries[e]) && Shows(e, model.entries[e]);
        if e.refs == 0 {
          EraseOrder(c, e);
          UntableSums(c, e);
          DropListed(e);
        }
      }
    }

    method Erase(k: CacheKey)
      requires Valid()
      modifies this, lru, table, table.list, model.entries.Keys
      ensures Valid() && table.list == old(table.list) && model.entries.Keys <= old(model).entries.Keys
      ensures Ok(old(model)) && model == LruOps.Erase(old(model), k)
    {
      ghost var c := model;
      EraseKeeps(c, k);
      KeyIsErasable(c, k);
      EraseEntry(k);
    }

    // ----- Insert

    /** A new handle, of which the list knows nothing. */
    lemma JoinList(c: Shard<LRUHandle>, e: LRUHandle, x: Entry)
      requires Linked(c.entries.Keys, Lru(c), |c.low|) && AllAbout(c.entries) && e !in c.entries && e != lru
      requires OffList(e) && About(e, x) && Known(c.entries, c.low) && Known(c.entries, c.high)
      ensures var entries := c.entries[e := x];
              && Linked(entries.Keys, Lru(c), |c.low|) && AllAbout(entries)
              && Known(entries, c.low) && Known(entries, c.high)
    {
      var entries := c.entries[e := x];
      forall y | y in entries
        ensures About(y, entries[y])
      {
        assert y != e ==> About(y, c.entries[y]);
      }
      forall y | y in entries.Keys && y !in Lru(c)
        ensures OffList(y)
      {
      }
    }

    method Register(e: LRUHandle)
      requires Listed() && Shown(model.entries) && e !in model.entries && e != lru && OffList(e)
      modifies `usage, `model
      ensures Listed() && Shown(model.entries) && model == Add(old(model), e, EntryOf(e))
      ensures model.entries.Keys == old(model).entries.Keys + {e}
    {
      ghost var c, x := model, EntryOf(e);
      JoinList(c, e, x);
      usage := usage + e.charge;
      model := Add(c, e, x);
      forall y | y in model.entries
        ensures Shows(y, model.entries[y])
      {
        assert y != e ==> old(Shows(y, c.entries[y]));
      }
    }

    method TableInsert(e: LRUHandle) returns (replaced: LRUHandle?)
      requires Coupled() && e !in model.entries && OffList(e)
      modifies table, table.list, table.nodes`nextHash, e`nextHash
      ensures Listed() && Shown(model.entries) && OffList(e)
      ensures Tabled(model.table[e.key := e], model.entries.Keys + {e})
      ensures table.list == old(table.list) || fresh(table.list)
      ensures replaced == if e.key in model.table then model.table[e.key] else null
    {
      replaced := table.Insert(e);
    }

    /** Puts the new handle e into the table. */
    method AddEntry(e: LRUHandle) returns (replaced: LRUHandle?)
      requires Coupled() && e !in model.entries && e != lru && OffList(e)
      modifies `usage, `model, table, table.list, table.nodes`nextHash, e`nextHash
      ensures Coupled() && (table.list == old(table.list) || fresh(table.list))
      ensures replaced == old(if e.key in model.table then model.table[e.key] else null)
      ensures model == Add(old(model), e, EntryOf(e)) && model.entries.Keys == old(model).entries.Keys + {e}
    {
      replaced := TableInsert(e);
      Register(e);
    }

    /** The handle that was replaced in the table, if any, goes. */
    method RetireReplaced(o: LRUHandle?)
      requires Coupled() && (o != null ==> o in model.entries && (o.key in model.table ==> model.table[o.key] != o))
      requires o != null && model.entries[o].refs == 0 ==>
                 SumsOk(model) && o in Lru(model) && o !in Lru(ListRemove(model, o)) && o.charge <= usage
      modifies this, lru, model.entries.Keys
      ensures Coupled() && model.entries.Keys <= old(model).entries.Keys
      ensures o == null ==> model == old(model)
      ensures o != null ==> && o in old(model).entries
                            && (old(model).entries[o].refs == 0 ==> o in Lru(Flagged(old(model), o)))
                            && var m := Flagged(old(model), o);
                               model == if old(model).entries[o].refs == 0 then Free(ListRemove(m, o), o) else m
    {
      if o != null {
        ghost var c := model;
        SetInCacheFalse(o, model.table);
        assert Shows(o, model.entries[o]);
        if o.refs == 0 {
          FlagSums(c, o);
          DropListed(o);
        }
      }
    }

    /** Puts the new handle e into the table in place of the entry its key had. */
    method EnterTable(e: LRUHandle) returns (overwritten: bool)
      requires Coupled() && e !in model.entries && e != lru && OffList(e) && Erasable(model, e.key)
      modifies this, lru, table, table.list, model.entries.Keys, e
      ensures Coupled() && (table.list == old(table.list) || fresh(table.list))
      ensures model.entries.Keys <= old(model).entries.Keys + {e}
      ensures Erasable(old(model), e.key) && model == Add(Erased(old(model), e.key), e, old(EntryOf(e)))
      ensures overwritten == (e.key in old(model).table)
    {
      if e.key in model.table {
        ReplaceIs(model, e, EntryOf(e));
        assert About(model.table[e.key], model.entries[model.table[e.key]]);
      }
      var o := AddEntry(e);
      overwritten := o != null;
      RetireReplaced(o);
    }

    /** An accepted handle goes into the table, and to its caller or to the list. */
    method Admit(e: LRUHandle, hold: bool) returns (overwritten: bool)
      requires Coupled() && e !in model.entries && e != lru && OffList(e) && e.refs == 0
      requires Admissible(model, e, EntryOf(e), hold)
      modifies this, lru, table, table.list, model.entries.Keys, e
      ensures Coupled() && (table.list == old(table.list) || fresh(table.list))
      ensures model.entries.Keys <= old(model).entries.Keys + {e} && overwritten == (e.key in old(model).table)
      ensures Erasable(old(model), e.key)
      ensures var d, x := Erased(old(model), e.key), old(EntryOf(e)).(refs := One(hold));
              && Known(Add(d, e, x).entries, Add(d, e, x).high)
              && model == if hold then Add(d, e, x) else ListInsert(Add(d, e, x), e)
    {
      ghost var d, x := Erased(model, e.key), EntryOf(e);
      overwritten := EnterTable(e);
      HandOver(e, hold, d, x);
    }

    /** The new entry goes to its caller, or to the list. */
    method HandOver(e: LRUHandle, hold: bool, ghost d: Shard<LRUHandle>, ghost x: Entry)
      requires Coupled() && model == Add(d, e, x) && x.refs == 0
      requires !hold ==> && e !in Lru(model) && model.highUsage == SeqCharges(model.entries, model.high)
                         && model.pool >= 0.0
      modifies this, lru, model.entries.Keys
      ensures Coupled() && model.entries.Keys == old(model).entries.Keys
      ensures var y := x.(refs := One(hold));
              && Known(Add(d, e, y).entries, Add(d, e, y).high)
              && model == if hold then Add(d, e, y) else ListInsert(Add(d, e, y), e)
    {
      if hold {
        SetRefs(e, 1);
        UpdateTwice(d.entries, e, x, x.(refs := 1));
      } else {
        InsertInList(e);
      }
    }

    /** A value that is not taken over is freed at once. */
    ghost method DropNew(e: LRUHandle)
      requires Coupled()
      modifies `model
      ensures Coupled() && model == old(model).(freed := old(model).freed + [e])
    {
      model := model.(freed := model.freed + [e]);
    }

    /** What Insert does with the new handle e once room has been made. */
    method Decide(e: LRUHandle, hold: bool) returns (status: Status, handle: LRUHandle?)
      requires Coupled() && e !in model.entries && e != lru && OffList(e) && e.refs == 0
      requires usage + e.charge <= capacity || !(strictCapacityLimit || !hold) ==>
                 Admissible(model, e, EntryOf(e), hold)
      modifies this, lru, table, table.list, model.entries.Keys, e
      ensures Coupled() && (table.list == old(table.list) || fresh(table.list))
      ensures model.entries.Keys <= old(model).entries.Keys + {e}
      ensures Decided(old(model), e, old(EntryOf(e)).(refs := One(hold)), hold, model, status, handle)
    {
      handle := null;
      if usage + e.charge > capacity && (strictCapacityLimit || !hold) {
        if hold {
          status := Incomplete;
        } else {
          status := OkStatus;
          e.inCache := false;
          DropNew(e);
        }
      } else {
        var overwritten := Admit(e, hold);
        status := if overwritten then OkOverwritten else OkStatus;
        if hold {
          handle := e;
        }
      }
    }

    /** Makes room and decides. */
    method InsertHandle(h: LRUHandle, hold: bool) returns (status: Status, handle: LRUHandle?)
      requires Valid() && h !in model.entries && h !in model.freed && h != lru && OffList(h) && h.refs == 0 && h.inCache
      modifies this, lru, table, table.list, model.entries.Keys, h
      ensures Coupled() && (table.list == old(table.list) || fresh(table.list))
      ensures model.entries.Keys <= old(model).entries.Keys + {h} && Sound(old(model))
      ensures Decided(Evict(old(model), h.charge), h, old(EntryOf(h)).(refs := One(hold)), hold, model, status, handle)
    {
      InsertFacts(model, h, EntryOf(h), hold);
      var deleted := EvictFromLRU(h.charge);
      status, handle := Decide(h, hold);
    }

    /** Inserts a value; with hold, the caller gets the handle. e is the new handle. */
    method Insert(key: CacheKey, value: Value, charge: nat, highPri: bool, hold: bool)
      returns (status: Status, handle: LRUHandle?, ghost e: LRUHandle)
      requires Valid()
      modifies this, lru, table, table.list, model.entries.Keys
      ensures Valid() && (table.list == old(table.list) || fresh(table.list))
      ensures fresh(e) && model.entries.Keys <= old(model).entries.Keys + {e}
      ensures Ok(old(model))
      ensures var r := LruOps.Insert(old(model), e, NewEntry(key, value, charge, highPri, hold));
              model == r.shard && status == r.status && handle == if r.accepted && hold then e else null
      ensures Settled(old(model), e, Entry(key, value, charge, One(hold), true, highPri, false), hold,
                      model, status, handle)
    {
      ghost var c := model;
      var h := new LRUHandle(key, value, charge, highPri);
      e := h;
      ghost var x := EntryOf(h);
      status, handle := InsertHandle(h, hold);
      DecidedIsInsert(c, h, x.(refs := One(hold)), hold, model, status, handle);
      InsertKeeps(c, h, x.(refs := One(hold)));
      InsertIsSettled(c, h, x.(refs := One(hold)), hold, status, handle);
    }

    // ----- usage

    method GetUsage() returns (r: nat)
      requires Valid()
      ensures r == Charges(model.entries, model.entries.Keys)
    {
      r := usage;
    }

    method GetPinnedUsage() returns (r: nat)
      requires Valid()
      ensures r == Charges(model.entries, Referenced(model))
    {
      PinnedIsReferenced(model);
      assert usage >= lruUsage;
      r := usage - lruUsage;
    }
  }
}
