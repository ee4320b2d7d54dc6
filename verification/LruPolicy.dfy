/** What LRUCacheShard promises of a single call beyond its invariant: what is evicted, what becomes of
    the entry the call is about, and what stays within which limit. */
module LruPolicy {
  import opened LruModel
  import opened LruOps

  // ----- eviction

  /** Evicting fewer than n entries, oldest first, does not make room for charge. */
  ghost predicate NeedsMore<H>(c: Shard<H>, charge: nat, n: nat)
    requires Known(c.entries, Lru(c)) && n <= |Lru(c)|
  {
    forall m: nat :: m < n ==> c.usage - SeqCharges(c.entries, Lru(c)[..m]) + charge > c.capacity
  }

  ghost function Members<H>(s: seq<H>): set<H> {
    set e | e in s
  }

  ghost predicate ShorterList<H>(c: Shard<H>, n: nat, r: Shard<H>)
    requires Known(c.entries, Lru(c)) && n <= |Lru(c)|
  {
    && Lru(r) == Lru(c)[n..] && r.freed == c.freed + Lru(c)[..n]
    && r.usage == c.usage - SeqCharges(c.entries, Lru(c)[..n])
    && r.capacity == c.capacity && r.strict == c.strict && r.ratio == c.ratio && r.pool == c.pool
  }

  ghost predicate SmallerTable<H>(c: Shard<H>, gone: seq<H>, r: Shard<H>) {
    && (forall k :: k in r.table <==> k in c.table && c.table[k] !in gone)
    && (forall k :: k in r.table ==> r.table[k] == c.table[k])
  }

  /** r is c without its n oldest evictable entries. */
  ghost predicate Shortened<H>(c: Shard<H>, n: nat, r: Shard<H>)
    requires Known(c.entries, Lru(c)) && n <= |Lru(c)|
  {
    && ShorterList(c, n, r) && SmallerTable(c, Lru(c)[..n], r)
    && r.entries == c.entries - Members(Lru(c)[..n])
  }

  lemma ShortenedNone<H>(c: Shard<H>)
    requires Known(c.entries, Lru(c))
    ensures Shortened(c, 0, c)
  {
    assert Lru(c)[..0] == [] && Lru(c)[0..] == Lru(c) && c.freed + [] == c.freed;
  }

  /** one is c without its oldest evictable entry. */
  ghost predicate OneLess<H>(c: Shard<H>, one: Shard<H>) {
    && Lru(c) != [] && Known(c.entries, Lru(c)) && Known(one.entries, Lru(one))
    && var e := Lru(c)[0];
       && Lru(one) == Lru(c)[1..] && one.freed == c.freed + [e] && one.usage == c.usage - c.entries[e].charge
       && one.entries == c.entries - {e} && one.table == c.table - {c.entries[e].key}
       && one.capacity == c.capacity && one.strict == c.strict && one.ratio == c.ratio && one.pool == c.pool
  }

  lemma DiscardIsOneLess<H>(c: Shard<H>)
    requires Sound(c) && Lru(c) != []
    ensures Lru(c)[0] in c.entries && Sound(Discard(c, Lru(c)[0])) && OneLess(c, Discard(c, Lru(c)[0]))
  {
    OldestLeaves(c);
    ListKnown(c);
    ListKnown(Discard(c, Lru(c)[0]));
    DiscardIs(c, Lru(c)[0]);
  }

  lemma ShorterListMore<H>(c: Shard<H>, one: Shard<H>, n: nat, r: Shard<H>)
    requires OneLess(c, one) && n <= |Lru(one)| && ShorterList(one, n, r)
    ensures ShorterList(c, n + 1, r)
  {
    var all := Lru(c);
    assert all[..n + 1] == [all[0]] + all[1..][..n];
    assert all[n + 1..] == all[1..][n..];
    assert (all[..n + 1])[1..] == all[1..][..n];
    SeqChargesSame(one.entries, c.entries, all[1..][..n]);
    assert c.freed + [all[0]] + all[1..][..n] == c.freed + all[..n + 1];
  }

  lemma SmallerTableMore<H>(c: Shard<H>, one: Shard<H>, gone: seq<H>, r: Shard<H>)
    requires Sound(c) && OneLess(c, one) && SmallerTable(one, gone, r)
    ensures SmallerTable(c, [Lru(c)[0]] + gone, r)
  {
    var e := Lru(c)[0];
    assert Listed(c, e) > 0 by {
      assert e in Lru(c);
    }
    assert EntryOk(c, e);
    forall k | k in c.table
      ensures c.table[k] == e <==> k == c.entries[e].key
    {
      assert KeyOk(c, k);
    }
  }

  lemma ShortenedMore<H>(c: Shard<H>, one: Shard<H>, n: nat, r: Shard<H>)
    requires Sound(c) && OneLess(c, one) && n <= |Lru(one)| && Shortened(one, n, r)
    ensures Shortened(c, n + 1, r)
  {
    var e, gone := Lru(c)[0], Lru(one)[..n];
    ShorterListMore(c, one, n, r);
    SmallerTableMore(c, one, gone, r);
    assert Lru(c)[..n + 1] == [e] + gone;
    assert Members([e] + gone) == {e} + Members(gone);
  }

  lemma NeedsMoreAlso<H>(c: Shard<H>, one: Shard<H>, charge: nat, n: nat)
    requires OneLess(c, one) && c.usage + charge > c.capacity && n <= |Lru(one)| && NeedsMore(one, charge, n)
    ensures NeedsMore(c, charge, n + 1)
  {
    var all := Lru(c);
    forall m: nat | m < n + 1
      ensures c.usage - SeqCharges(c.entries, all[..m]) + charge > c.capacity
    {
      if m > 0 {
        assert (all[..m])[1..] == all[1..][..m - 1];
        SeqChargesSame(one.entries, c.entries, all[1..][..m - 1]);
      }
    }
  }

  lemma ListKnown<H>(c: Shard<H>)
    requires Sound(c)
    ensures Known(c.entries, Lru(c))
  {
  }

  /** EvictFromLRU removes the shortest prefix of the list that makes room, or the whole list. */
  lemma {:induction false} EvictsShortestPrefix<H>(c: Shard<H>, charge: nat) returns (n: nat)
    requires Sound(c)
    ensures Known(c.entries, Lru(c)) && n <= |Lru(c)| && Shortened(c, n, Evict(c, charge)) && NeedsMore(c, charge, n)
    ensures n < |Lru(c)| ==> Evict(c, charge).usage + charge <= c.capacity
    decreases |Lru(c)|
  {
    ListKnown(c);
    if c.usage + charge > c.capacity && Lru(c) != [] {
      DiscardIsOneLess(c);
      var one := Discard(c, Lru(c)[0]);
      n := EvictsShortestPrefix(one, charge);
      EvictUnfolds(c, charge);
      ShortenedMore(c, one, n, Evict(one, charge));
      NeedsMoreAlso(c, one, charge, n);
      n := n + 1;
    } else {
      n := 0;
      ShortenedNone(c);
    }
  }

  // ----- recency

  lemma {:induction false} IndexConcat<H>(a: seq<H>, b: seq<H>, e: H)
    requires e in a || e in b
    ensures Index(a + b, e) == if e in a then Index(a, e) else |a| + Index(b, e)
  {
    if a == [] {
      assert a + b == b;
    } else if a[0] != e {
      assert (a + b)[1..] == a[1..] + b;
      assert e in a <==> e in a[1..];
      IndexConcat(a[1..], b, e);
    }
  }

  lemma RemovedFromList<H>(c: Shard<H>, e: H)
    requires e in c.entries && e in Lru(c)
    ensures Lru(ListRemove(c, e)) == Without(Lru(c), e)
  {
    WithoutConcat(c.low, c.high, e);
  }

  lemma WithoutConcat<H>(a: seq<H>, b: seq<H>, e: H)
    requires e in a || e in b
    ensures Without(a + b, e) == if e in a then Without(a, e) + b else a + Without(b, e)
  {
    IndexConcat(a, b, e);
    if e in a {
      CutLeft(a, b, Index(a, e));
    } else {
      CutRight(a, b, Index(b, e));
    }
  }

  lemma AcquiredFields<H>(c: Shard<H>, e: H)
    requires e in c.entries && (c.entries[e].refs == 0 ==> e in Lru(c))
    ensures var held := Acquired(c, e);
            && held.entries == c.entries[e := c.entries[e].(refs := c.entries[e].refs + 1, hit := true)]
            && held.table == c.table && held.usage == c.usage && held.capacity == c.capacity && held.freed == c.freed
            && held.ratio == c.ratio
  {
  }

  lemma LookupIdle<H>(c: Shard<H>, k: CacheKey)
    requires Ok(c) && k in c.table && c.table[k] in Lru(c)
    ensures var e, held := c.table[k], Lookup(c, k);
            && e in c.entries && c.entries[e].refs == 0 && c.entries[e].inCache && c.usage <= c.capacity
            && Ok(held) && held == Acquired(c, e) && Lru(held) == Without(Lru(c), e)
  {
    KeyIsListed(c, k);
    assert KeyOk(c, k);
    LookupKeeps(c, k);
    RemovedFromList(c, c.table[k]);
  }

  lemma ReleaseToNewest<H>(c: Shard<H>, e: H)
    requires Ok(c) && e in c.entries && c.entries[e].refs == 1 && c.entries[e].inCache && c.usage <= c.capacity
    ensures var r := Release(c, e, false);
            && SameButList(Unref(c, e), r) && e in Lru(r)
            && Lru(r) == if GoesHigh(c, c.entries[e]) then Lru(c) + [e] else c.low + [e] + c.high
  {
    UnrefOkBut(c, e);
    ListInsertKeeps(Unref(c, e), e);
  }

  lemma AcquiredAndBack<H>(c: Shard<H>, e: H)
    requires e in c.entries && c.entries[e].refs == 0 && e in Lru(c)
    ensures var m := Acquired(c, e);
            && e in m.entries && m.entries[e].refs == 1
            && Unref(m, e).entries == c.entries[e := c.entries[e].(hit := true)]
  {
    AcquiredFields(c, e);
    var x := c.entries[e];
    UpdateTwice(c.entries, e, x.(refs := 1, hit := true), x.(hit := true));
  }

  /** An entry that is looked up and released becomes the newest of the list, and nothing else changes.
      Without a high-priority pool it becomes the newest of the low-priority one. */
  lemma TouchedIsNewest<H>(c: Shard<H>, k: CacheKey)
    requires Ok(c) && k in c.table && c.table[k] in Lru(c)
    ensures var e, held := c.table[k], Lookup(c, k);
            && Ok(held) && e in c.entries && e in held.entries && held.entries[e].refs == 1
            && Lru(held) == Without(Lru(c), e)
            && var r := Release(held, e, false);
               && Lru(r) == (if c.ratio > 0.0 then Lru(held) + [e] else held.low + [e] + held.high)
               && r.usage == c.usage && r.table == c.table && r.freed == c.freed
               && r.entries == c.entries[e := c.entries[e].(hit := true)]
  {
    LookupIdle(c, k);
    var e, held := c.table[k], Lookup(c, k);
    AcquiredFields(c, e);
    AcquiredAndBack(c, e);
    ReleaseToNewest(held, e);
  }

  // ----- what becomes of the entry a call is about

  lemma ReferencedIsOffList<H>(c: Shard<H>, e: H)
    requires Ok(c) && e in c.entries && c.entries[e].refs > 0
    ensures e !in Lru(c)
  {
    assert EntryOk(c, e);
    assert Times(Lru(c), e) == Listed(c, e);
  }

  /** A hit takes the entry off the list and gives it one more reference. */
  lemma LookupMoves<H>(c: Shard<H>, k: CacheKey)
    requires Ok(c) && k in c.table
    ensures var e, c' := c.table[k], Lookup(c, k);
            && e in c.entries && e !in Lru(c') && c'.table == c.table && c'.freed == c.freed && c'.usage == c.usage
            && c'.entries == c.entries[e := c.entries[e].(refs := c.entries[e].refs + 1, hit := true)]
            && Lru(c') == if c.entries[e].refs == 0 then Without(Lru(c), e) else Lru(c)
  {
    KeyIsListed(c, k);
    LookupKeeps(c, k);
    var e, c' := c.table[k], Lookup(c, k);
    AcquiredFields(c, e);
    ReferencedIsOffList(c', e);
    if c.entries[e].refs == 0 {
      RemovedFromList(c, e);
    }
  }

  /** A last reference frees the entry exactly if it has left the table, the cache is overfull or the
      caller wants it erased; then no key leads to it. Otherwise the list gets it back. */
  lemma ReleaseSettles<H>(c: Shard<H>, e: H, force: bool)
    requires Ok(c) && e in c.entries && c.entries[e].refs > 0
    ensures var x, c' := c.entries[e], Release(c, e, force);
            if x.refs == 1 && (!x.inCache || c.usage > c.capacity || force) then
              && c'.entries == c.entries - {e} && c'.freed == c.freed + [e] && Lru(c') == Lru(c)
              && c'.usage == c.usage - x.charge && forall k :: k in c'.table ==> c'.table[k] != e
            else
              && c'.entries == c.entries[e := x.(refs := x.refs - 1)] && c'.freed == c.freed && c'.table == c.table
              && c'.usage == c.usage && (e in Lru(c') <==> x.refs == 1)
  {
    if ReleaseFrees(c, e, force) {
      ReleaseFreesSettles(c, e, force);
    } else if c.entries[e].refs == 1 {
      UnrefOkBut(c, e);
      ListInsertKeeps(Unref(c, e), e);
    } else {
      ReferencedIsOffList(c, e);
    }
  }

  lemma ReleaseFreesSettles<H>(c: Shard<H>, e: H, force: bool)
    requires Ok(c) && e in c.entries && ReleaseFrees(c, e, force)
    ensures var c' := Release(c, e, force);
            && c'.entries == c.entries - {e} && c'.freed == c.freed + [e] && Lru(c') == Lru(c)
            && c'.usage == c.usage - c.entries[e].charge && forall k :: k in c'.table ==> c'.table[k] != e
  {
    var m := if c.entries[e].inCache then Untable(Unref(c, e), e) else Unref(c, e);
    assert m.entries - {e} == c.entries - {e};
    forall k | k in m.table
      ensures m.table[k] != e
    {
      assert KeyOk(c, k);
    }
  }

  /** An erased entry is freed if nobody refers to it; otherwise its holders keep it. */
  lemma EraseRetires<H>(c: Shard<H>, k: CacheKey)
    requires Ok(c) && k in c.table
    ensures var e, c' := c.table[k], Erase(c, k);
            && e in c.entries && c'.table == c.table - {k}
            && if c.entries[e].refs == 0 then
                 && c'.entries == c.entries - {e} && c'.freed == c.freed + [e]
                 && c'.usage == c.usage - c.entries[e].charge && e in Lru(c) && Lru(c') == Without(Lru(c), e)
               else
                 && c'.entries == c.entries[e := c.entries[e].(inCache := false)] && c'.freed == c.freed
                 && c'.usage == c.usage && Lru(c') == Lru(c)
  {
    KeyIsListed(c, k);
    assert KeyOk(c, k);
    var e := c.table[k];
    if c.entries[e].refs == 0 {
      DiscardIs(c, e);
      RemovedFromList(c, e);
    }
  }

  // ----- limits

  ghost function Referenced<H>(c: Shard<H>): set<H> {
    set e | e in c.entries && c.entries[e].refs > 0
  }

  /** What the callers pin is the charge of the referenced entries. */
  lemma PinnedIsReferenced<H>(c: Shard<H>)
    requires Ok(c)
    ensures c.usage - c.lruUsage == Charges(c.entries, Referenced(c))
  {
    var pinned := Referenced(c);
    var listed := c.entries.Keys - pinned;
    SeqChargesConcat(c.entries, c.low, c.high);
    forall e | e in c.entries
      ensures e in listed <==> e in Lru(c)
      ensures Times(Lru(c), e) <= 1
    {
      assert EntryOk(c, e);
      assert Times(Lru(c), e) == Listed(c, e);
    }
    forall e | e in Lru(c)
      ensures Times(Lru(c), e) <= 1
    {
      assert e in c.entries;
    }
    assert Members(Lru(c)) == listed;
    SeqIsSet(c.entries, Lru(c));
    ChargesSplit(c.entries, c.entries.Keys, listed);
    assert c.entries.Keys - listed == pinned;
  }

  lemma {:induction false} SeqIsSet<H>(entries: map<H, Entry>, s: seq<H>)
    requires Known(entries, s) && forall e :: e in s ==> Times(s, e) <= 1
    ensures Members(s) <= entries.Keys && SeqCharges(entries, s) == Charges(entries, Members(s))
  {
    if s == [] {
      assert Members(s) == {};
    } else {
      var t := s[1..];
      assert s == [s[0]] + t;
      forall e
        ensures Times(s, e) == Times(t, e) + One(e == s[0])
      {
        assert multiset(s) == multiset([s[0]]) + multiset(t);
      }
      SeqIsSet(entries, t);
      assert Times(t, s[0]) == 0;
      assert Members(t) == Members(s) - {s[0]};
      ChargesRemove(entries, Members(s), s[0]);
    }
  }

  lemma {:induction false} ChargesSplit<H>(entries: map<H, Entry>, s: set<H>, part: set<H>)
    requires part <= s <= entries.Keys
    ensures Charges(entries, s) == Charges(entries, part) + Charges(entries, s - part)
    decreases |part|
  {
    if part == {} {
      assert s - part == s;
    } else {
      var e :| e in part;
      ChargesSplit(entries, s - {e}, part - {e});
      ChargesRemove(entries, s, e);
      ChargesRemove(entries, part, e);
      assert s - {e} - (part - {e}) == s - part;
    }
  }

  lemma EvictLimits<H>(c: Shard<H>, charge: nat)
    requires Sound(c)
    ensures var r := Evict(c, charge);
            && r.usage <= c.usage && r.highUsage <= c.highUsage
            && r.capacity == c.capacity && r.strict == c.strict && r.ratio == c.ratio && r.pool == c.pool
    decreases |Lru(c)|
  {
    if c.usage + charge > c.capacity && Lru(c) != [] {
      OldestLeaves(c);
      EvictLimits(Discard(c, Lru(c)[0]), charge);
    }
  }

  // ----- what Insert decides, and what the other calls leave

  /** What remains after the n oldest have gone is the pinned charge and that of the rest of the list. */
  lemma UsageLeft<H>(c: Shard<H>, n: nat)
    requires Ok(c) && n <= |Lru(c)|
    ensures Known(c.entries, Lru(c))
    ensures c.usage - SeqCharges(c.entries, Lru(c)[..n])
         == Charges(c.entries, Referenced(c)) + SeqCharges(c.entries, Lru(c)[n..])
  {
    ListKnown(c);
    PinnedIsReferenced(c);
    SeqChargesConcat(c.entries, c.low, c.high);
    SeqChargesConcat(c.entries, Lru(c)[..n], Lru(c)[n..]);
    assert Lru(c) == Lru(c)[..n] + Lru(c)[n..];
  }

  /** Eviction makes room exactly if charge fits beside what is referenced. */
  lemma EvictMakesRoom<H>(c: Shard<H>, charge: nat)
    requires Ok(c)
    ensures Evict(c, charge).usage + charge <= c.capacity
       <==> Charges(c.entries, Referenced(c)) + charge <= c.capacity
  {
    var n := EvictsShortestPrefix(c, charge);
    UsageLeft(c, n);
    if n == |Lru(c)| {
      assert Lru(c)[n..] == [];
    }
  }

  /** An Insert is accepted: its charge fits beside what is referenced, or the limit is not strict and the
      caller wants the handle. */
  ghost predicate Admits<H>(c: Shard<H>, charge: nat, hold: bool) {
    Charges(c.entries, Referenced(c)) + charge <= c.capacity || (!c.strict && hold)
  }

  /** What Insert does with entry x of the new handle e: exactly if it is accepted the key leads to the
      handle, which carries x. Otherwise a caller that wants the handle gets Incomplete. */
  lemma InsertDecides<H>(c: Shard<H>, e: H, x: Entry)
    requires Ok(c) && e !in c.entries && e !in c.freed && x.inCache
    ensures var r, admitted := Insert(c, e, x), Admits(c, x.charge, x.refs > 0);
            && r.accepted == admitted
            && (r.status.Incomplete? <==> !admitted && x.refs > 0)
            && (e in r.shard.entries <==> admitted)
            && (admitted ==> && r.shard.entries[e] == x
                             && x.key in r.shard.table && r.shard.table[x.key] == e)
  {
    InsertAdmits(c, e, x);
    if Insert(c, e, x).accepted {
      InsertIsPlaced(c, e, x);
    } else {
      InsertIsRefused(c, e, x);
    }
  }

  /** An accepted Insert gives OkOverwritten exactly if the key had an entry that was not among the n oldest
      evicted, which are no more than it takes. */
  lemma OverwritesWhatIsLeft<H>(c: Shard<H>, e: H, x: Entry) returns (n: nat)
    requires Ok(c)
    ensures n <= |Lru(c)| && Known(c.entries, Lru(c)) && NeedsMore(c, x.charge, n)
    ensures Insert(c, e, x).status.OkOverwritten?
       <==> Admits(c, x.charge, x.refs > 0) && x.key in c.table && c.table[x.key] !in Lru(c)[..n]
  {
    n := EvictsShortestPrefix(c, x.charge);
    InsertAdmits(c, e, x);
  }

  lemma InsertAdmits<H>(c: Shard<H>, e: H, x: Entry)
    requires Ok(c)
    ensures var r, c1 := Insert(c, e, x), Evict(c, x.charge);
            && r.accepted == Admits(c, x.charge, x.refs > 0)
            && (r.status.Incomplete? <==> !r.accepted && x.refs > 0)
            && (r.status.OkOverwritten? <==> r.accepted && x.key in c1.table)
  {
    EvictMakesRoom(c, x.charge);
  }

  /** An accepted entry is placed in what the eviction and the erasure of its key leave. */
  lemma InsertIsPlaced<H>(c: Shard<H>, e: H, x: Entry)
    requires Ok(c) && e !in c.entries && e !in c.freed && x.inCache && Insert(c, e, x).accepted
    ensures var c1, r := Evict(c, x.charge), Insert(c, e, x).shard;
            && Ok(c1) && Placeable(c1, e, x) && Ok(Erase(c1, x.key)) && r == Place(Erase(c1, x.key), e, x)
            && r.entries == Erase(c1, x.key).entries[e := x] && r.table == c1.table[x.key := e]
  {
    var c1 := Evict(c, x.charge);
    EvictKeeps(c, x.charge);
    EvictShrinks(c, x.charge);
    assert Placeable(c1, e, x);
    AcceptedIsPlaced(c1, e, x);
  }

  lemma InsertIsRefused<H>(c: Shard<H>, e: H, x: Entry)
    requires Ok(c) && e !in c.entries && e !in c.freed && !Insert(c, e, x).accepted
    ensures var c1, r := Evict(c, x.charge), Insert(c, e, x).shard;
            r.entries == c1.entries && r.table == c1.table && Lru(r) == Lru(c1) && e !in r.entries
  {
    EvictShrinks(c, x.charge);
  }

  /** There is room for x, or it may overflow an empty list. */
  predicate Placeable<H(==)>(c: Shard<H>, e: H, x: Entry) {
    && e !in c.entries && e !in c.freed && x.inCache
    && if x.refs == 0 then c.usage + x.charge <= c.capacity else c.usage + x.charge > c.capacity ==> Lru(c) == []
  }

  lemma AcceptedIsPlaced<H>(c: Shard<H>, e: H, x: Entry)
    requires Ok(c) && Placeable(c, e, x)
    ensures Ok(Erase(c, x.key))
    ensures var d := Erase(c, x.key);
            var r := Place(d, e, x);
            r.entries == d.entries[e := x] && r.table == c.table[x.key := e]
  {
    var d := Erase(c, x.key);
    EraseKeeps(c, x.key);
    EraseShrinks(c, x.key);
    PlaceKeeps(d, e, x);
    ErasedTable(c, x.key);
    PutBack(c.table, x.key, e);
  }

  lemma PutBack<H>(table: map<CacheKey, H>, k: CacheKey, e: H)
    ensures (table - {k})[k := e] == table[k := e]
  {
  }

  /** What is left of the list when the n oldest have gone, and with them the older entry of key k. */
  function KeptList<H(==)>(c: Shard<H>, n: nat, k: CacheKey): seq<H>
    requires n <= |Lru(c)|
  {
    var rest := Lru(c)[n..];
    if k in c.table && c.table[k] in rest then Without(rest, c.table[k]) else rest
  }

  /** The list and the table after Insert: the n oldest, no more than it takes, have gone; an accepted entry
      that nobody wants to hold has joined as the newest of its pool; every other key and entry is as
      before, but for the older entry of the key if the new one is accepted. */
  lemma InsertLeaves<H>(c: Shard<H>, e: H, x: Entry) returns (n: nat)
    requires Ok(c) && e !in c.entries && e !in c.freed && x.inCache
    ensures n <= |Lru(c)| && Known(c.entries, Lru(c)) && NeedsMore(c, x.charge, n)
    ensures TableLeft(c, n, e, x) && ListLeft(c, n, e, x)
    ensures forall f {:trigger Spared(c, n, e, x, f)} :: f in c.entries ==> Spared(c, n, e, x, f)
  {
    n := EvictsShortestPrefix(c, x.charge);
    InsertTable(c, n, e, x);
    InsertList(c, n, e, x);
    forall f | f in c.entries
      ensures Spared(c, n, e, x, f)
    {
      SparedByInsert(c, n, e, x, f);
    }
  }

  /** No key other than that of an accepted entry is affected, but for those of the n oldest. */
  ghost predicate TableLeft<H>(c: Shard<H>, n: nat, e: H, x: Entry)
    requires Ok(c) && n <= |Lru(c)|
  {
    var r, admitted := Insert(c, e, x).shard, Admits(c, x.charge, x.refs > 0);
    && (forall k :: k != x.key || !admitted ==> (k in r.table <==> k in c.table && c.table[k] !in Lru(c)[..n]))
    && (forall k :: k in r.table && (k != x.key || !admitted) ==> r.table[k] == c.table[k])
  }

  ghost predicate ListLeft<H>(c: Shard<H>, n: nat, e: H, x: Entry)
    requires Ok(c) && n <= |Lru(c)|
  {
    var r, kept := Insert(c, e, x).shard, KeptList(c, n, x.key);
    if !Admits(c, x.charge, x.refs > 0) then Lru(r) == Lru(c)[n..]
    else if x.refs > 0 then Lru(r) == kept
    else NewestOfPool(c.ratio > 0.0 && (x.highPri || x.hit), kept, e, r)
  }

  lemma InsertTable<H>(c: Shard<H>, n: nat, e: H, x: Entry)
    requires Ok(c) && e !in c.entries && e !in c.freed && x.inCache
    requires n <= |Lru(c)| && Known(c.entries, Lru(c)) && Shortened(c, n, Evict(c, x.charge))
    ensures TableLeft(c, n, e, x)
  {
    InsertAdmits(c, e, x);
    if Insert(c, e, x).accepted {
      InsertIsPlaced(c, e, x);
    } else {
      InsertIsRefused(c, e, x);
    }
  }

  /** An older entry that is still in the table after the eviction is on the list if it was. */
  lemma OlderIsListed<H>(c: Shard<H>, n: nat, c1: Shard<H>, k: CacheKey)
    requires Ok(c) && n <= |Lru(c)| && Known(c.entries, Lru(c)) && Shortened(c, n, c1)
    ensures k in c1.table && c1.table[k] in Lru(c1) <==> k in c.table && c.table[k] in Lru(c)[n..]
  {
    if k in c.table && c.table[k] in Lru(c)[n..] {
      ListedOnce(c, n, c.table[k]);
    }
  }

  lemma ListedOnce<H>(c: Shard<H>, n: nat, e: H)
    requires Ok(c) && n <= |Lru(c)| && e in Lru(c)[n..]
    ensures e !in Lru(c)[..n]
  {
    assert Lru(c) == Lru(c)[..n] + Lru(c)[n..];
    assert e in Lru(c);
    assert e in c.entries && EntryOk(c, e);
    assert Times(Lru(c), e) == Listed(c, e);
  }

  lemma InsertList<H>(c: Shard<H>, n: nat, e: H, x: Entry)
    requires Ok(c) && e !in c.entries && e !in c.freed && x.inCache
    requires n <= |Lru(c)| && Known(c.entries, Lru(c)) && Shortened(c, n, Evict(c, x.charge))
    ensures ListLeft(c, n, e, x)
  {
    var c1 := Evict(c, x.charge);
    InsertAdmits(c, e, x);
    OlderIsListed(c, n, c1, x.key);
    if Insert(c, e, x).accepted {
      InsertIsPlaced(c, e, x);
      PlacedList(c1, e, x);
    } else {
      InsertIsRefused(c, e, x);
    }
  }

  /** e has joined the list that was kept, as the newest of all or as the newest of the low-priority pool. */
  ghost predicate NewestOfPool<H>(high: bool, kept: seq<H>, e: H, r: Shard<H>) {
    if high then Lru(r) == kept + [e]
    else r.low != [] && r.low[|r.low| - 1] == e && r.low[..|r.low| - 1] + r.high == kept
  }

  /** Entry f of c is as it was, unless it is among the n oldest evicted or is replaced. */
  ghost predicate Spared<H>(c: Shard<H>, n: nat, e: H, x: Entry, f: H)
    requires Ok(c) && n <= |Lru(c)| && f in c.entries
  {
    var r := Insert(c, e, x).shard;
    if f in Lru(c)[..n] then f !in r.entries
    else !(Admits(c, x.charge, x.refs > 0) && x.key in c.table && c.table[x.key] == f) ==>
           f in r.entries && r.entries[f] == c.entries[f]
  }

  lemma ErasedTable<H>(c: Shard<H>, k: CacheKey)
    requires Ok(c)
    ensures Erase(c, k).table == c.table - {k}
  {
    if k in c.table {
      EraseRetires(c, k);
    } else {
      assert c.table - {k} == c.table;
    }
  }

  lemma PlacedList<H>(c: Shard<H>, e: H, x: Entry)
    requires Ok(c) && Placeable(c, e, x)
    ensures Ok(Erase(c, x.key))
    ensures var k, r := x.key, Place(Erase(c, x.key), e, x);
            var kept := if k in c.table && c.table[k] in Lru(c) then Without(Lru(c), c.table[k]) else Lru(c);
            if x.refs > 0 then Lru(r) == kept
            else NewestOfPool(c.ratio > 0.0 && (x.highPri || x.hit), kept, e, r)
  {
    var d := Erase(c, x.key);
    EraseKeeps(c, x.key);
    EraseShrinks(c, x.key);
    ErasedList(c, x.key);
    if x.refs == 0 {
      AddKeeps(d, e, x);
      JoinedPool(Add(d, e, x), e);
    }
  }

  lemma ErasedList<H>(c: Shard<H>, k: CacheKey)
    requires Ok(c)
    ensures Erase(c, k).ratio == c.ratio
    ensures Lru(Erase(c, k))
         == if k in c.table && c.table[k] in Lru(c) then Without(Lru(c), c.table[k]) else Lru(c)
  {
    EraseRatio(c, k);
    if k in c.table {
      EraseRetires(c, k);
      KeyIsListed(c, k);
    }
  }

  lemma JoinedPool<H>(c: Shard<H>, e: H)
    requires OkBut(c, e)
    ensures var x := c.entries[e];
            NewestOfPool(c.ratio > 0.0 && (x.highPri || x.hit), Lru(c), e, ListInsert(c, e))
  {
    ListInsertKeeps(c, e);
    var n := ListInsertPools(c, e);
  }

  lemma EraseRatio<H>(c: Shard<H>, k: CacheKey)
    requires Ok(c)
    ensures Erase(c, k).ratio == c.ratio
  {
    if k in c.table {
      KeyIsListed(c, k);
    }
  }

  lemma SparedByErase<H>(c: Shard<H>, k: CacheKey, f: H)
    requires Ok(c)
    ensures f !in c.entries ==> f !in Erase(c, k).entries
    ensures f in c.entries && !(k in c.table && c.table[k] == f) ==>
              f in Erase(c, k).entries && Erase(c, k).entries[f] == c.entries[f]
  {
    if k in c.table {
      EraseRetires(c, k);
    }
  }

  /** What the eviction leaves of the entries and of the keys. */
  lemma LeftByEvict<H>(c: Shard<H>, n: nat, c1: Shard<H>, f: H, k: CacheKey)
    requires n <= |Lru(c)| && Known(c.entries, Lru(c)) && Shortened(c, n, c1) && f in c.entries
    ensures if f in Lru(c)[..n] then f !in c1.entries else f in c1.entries && c1.entries[f] == c.entries[f]
    ensures k in c1.table ==> k in c.table && c1.table[k] == c.table[k]
  {
  }

  lemma SparedByInsert<H>(c: Shard<H>, n: nat, e: H, x: Entry, f: H)
    requires Ok(c) && e !in c.entries && e !in c.freed && x.inCache && f in c.entries
    requires n <= |Lru(c)| && Known(c.entries, Lru(c)) && Shortened(c, n, Evict(c, x.charge))
    ensures Spared(c, n, e, x, f)
  {
    var c1 := Evict(c, x.charge);
    assert f != e;
    InsertAdmits(c, e, x);
    LeftByEvict(c, n, c1, f, x.key);
    if Insert(c, e, x).accepted {
      InsertIsPlaced(c, e, x);
      SparedByErase(c1, x.key, f);
    } else {
      InsertIsRefused(c, e, x);
    }
  }

  /** SetCapacity takes over the new capacity, and evicts the fewest of the oldest that bring the usage
      within it, or all that can be evicted, and nothing else. */
  lemma SetCapacityEvicts<H>(c: Shard<H>, capacity: nat) returns (n: nat)
    requires Ok(c)
    ensures n <= |Lru(c)| && Known(c.entries, Lru(c)) && NeedsMore(c.(capacity := capacity), 0, n)
    ensures var r := SetCapacity(c, capacity);
            && r.capacity == capacity && r.ratio == c.ratio && r.strict == c.strict
            && r.pool == PoolCapacity(capacity, c.ratio) && (n < |Lru(c)| ==> r.usage <= capacity)
            && Lru(r) == Lru(c)[n..] && r.freed == c.freed + Lru(c)[..n] && SmallerTable(c, Lru(c)[..n], r)
            && r.entries == c.entries - Members(Lru(c)[..n])
  {
    var c' := c.(capacity := capacity, pool := PoolCapacity(capacity, c.ratio));
    ResizeKeeps(c, c');
    n := EvictsShortestPrefix(c', 0);
    SameNeed(c.(capacity := capacity), c', n);
  }

  /** EraseUnRefEntries frees everything on the list, oldest first, and nothing else. */
  lemma {:induction false} EraseUnRefLeaves<H>(c: Shard<H>)
    requires Sound(c)
    ensures Known(c.entries, Lru(c)) && Shortened(c, |Lru(c)|, EraseUnRef(c))
    decreases |Lru(c)|
  {
    ListKnown(c);
    if Lru(c) != [] {
      DiscardIsOneLess(c);
      var one := Discard(c, Lru(c)[0]);
      EraseUnRefLeaves(one);
      EraseUnRefUnfolds(c);
      ShortenedMore(c, one, |Lru(one)|, EraseUnRef(one));
    } else {
      ShortenedNone(c);
    }
  }

  // ----- what single calls do to the limits

  lemma EraseLimits<H>(c: Shard<H>, k: CacheKey)
    requires Ok(c)
    ensures Erase(c, k).strict == c.strict && (PoolBound(c) ==> PoolBound(Erase(c, k)))
  {
    if k in c.table {
      KeyIsListed(c, k);
    }
  }

  lemma PlaceLimits<H>(c: Shard<H>, e: H, x: Entry)
    requires Ok(c) && e !in c.entries && e !in c.freed && x.key !in c.table && x.inCache
    requires if x.refs == 0 then c.usage + x.charge <= c.capacity else c.usage + x.charge > c.capacity ==> Lru(c) == []
    ensures var r := Place(c, e, x); r.usage == c.usage + x.charge && r.capacity == c.capacity && r.strict == c.strict
  {
    PlaceKeeps(c, e, x);
  }

  lemma PlaceUsage<H>(c: Shard<H>, e: H, x: Entry)
    requires Ok(c) && e !in c.entries && e !in c.freed && x.inCache
    requires if x.refs == 0 then c.usage + x.charge <= c.capacity else c.usage + x.charge > c.capacity ==> Lru(c) == []
    ensures Ok(Erase(c, x.key))
    ensures var r := Place(Erase(c, x.key), e, x);
            && r.usage <= c.usage + x.charge && r.capacity == c.capacity && r.strict == c.strict
            && (PoolBound(c) ==> PoolBound(r))
  {
    var d := Erase(c, x.key);
    EraseKeeps(c, x.key);
    EraseLimits(c, x.key);
    assert e !in d.entries && e !in d.freed by {
      EraseShrinks(c, x.key);
    }
    PlaceLimits(d, e, x);
    assert PoolBound(d) ==> PoolBound(Place(d, e, x)) by {
      PlaceKeeps(d, e, x);
    }
  }

  lemma InsertLimits<H>(c: Shard<H>, e: H, x: Entry)
    requires Ok(c) && e !in c.entries && e !in c.freed && x.inCache
    ensures var r := Insert(c, e, x).shard;
            && r.capacity == c.capacity && r.strict == c.strict && (PoolBound(c) ==> PoolBound(r))
            && (c.usage <= c.capacity && (c.strict || x.refs == 0) ==> r.usage <= c.capacity)
  {
    EvictKeeps(c, x.charge);
    EvictShrinks(c, x.charge);
    EvictLimits(c, x.charge);
    var c1 := Evict(c, x.charge);
    if Insert(c, e, x).accepted {
      PlaceUsage(c1, e, x);
    }
  }

  lemma EraseUnRefLimits<H>(c: Shard<H>)
    requires Sound(c)
    ensures EraseUnRef(c).highUsage <= c.highUsage && EraseUnRef(c).pool == c.pool && EraseUnRef(c).strict == c.strict
    decreases |Lru(c)|
  {
    if Lru(c) != [] {
      OldestLeaves(c);
      EraseUnRefLimits(Discard(c, Lru(c)[0]));
    }
  }

  lemma ReleaseUsage<H>(c: Shard<H>, e: H, force: bool)
    requires Ok(c) && e in c.entries && c.entries[e].refs > 0
    ensures Release(c, e, force).usage <= c.usage && Release(c, e, force).capacity == c.capacity
    ensures Release(c, e, force).strict == c.strict
  {
    if !ReleaseFrees(c, e, force) && c.entries[e].refs == 1 {
      UnrefOkBut(c, e);
      ListInsertKeeps(Unref(c, e), e);
    }
  }

  // ----- what SetCapacity does to the pool

  /** Eviction takes the low-priority pool first. */
  lemma {:induction false} EvictTakesLowFirst<H>(c: Shard<H>, charge: nat, n: nat)
    requires Sound(c) && n <= |Lru(c)| && |Lru(Evict(c, charge))| + n == |Lru(c)|
    ensures Evict(c, charge).high == AfterLow(c, n)
    decreases |Lru(c)|
  {
    if c.usage + charge > c.capacity && Lru(c) != [] {
      OldestLeaves(c);
      EvictUnfolds(c, charge);
      var one := Discard(c, Lru(c)[0]);
      EvictsSome(one, charge);
      EvictTakesLowFirst(one, charge, n - 1);
      AfterLowNext(c, n);
    } else {
      assert n == 0 && AfterLow(c, 0) == c.high;
    }
  }

  /** The high-priority pool without the n oldest entries of the list. */
  function AfterLow<H>(c: Shard<H>, n: nat): seq<H>
    requires n <= |Lru(c)|
  {
    if n <= |c.low| then c.high else c.high[n - |c.low|..]
  }

  lemma AfterLowNext<H>(c: Shard<H>, n: nat)
    requires 0 < n <= |Lru(c)| && Lru(c)[0] in c.entries
    ensures var one := Discard(c, Lru(c)[0]); n - 1 <= |Lru(one)| && AfterLow(one, n - 1) == AfterLow(c, n)
  {
    OldestPool(c);
  }

  lemma OldestPool<H>(c: Shard<H>)
    requires Lru(c) != [] && Lru(c)[0] in c.entries
    ensures var one := Discard(c, Lru(c)[0]);
            if c.low != [] then |one.low| == |c.low| - 1 && one.high == c.high
            else one.low == [] && one.high == c.high[1..]
  {
    var e := Lru(c)[0];
    if c.low == [] {
      assert e == c.high[0] && Index(c.high, e) == 0;
    }
  }

  lemma EvictsSome<H>(c: Shard<H>, charge: nat)
    requires Sound(c)
    ensures |Lru(Evict(c, charge))| <= |Lru(c)|
  {
    var n := EvictsShortestPrefix(c, charge);
  }

  lemma HighCharge<H>(c: Shard<H>, charge: nat, n: nat)
    requires Sound(c) && n <= |Lru(c)| && |Lru(Evict(c, charge))| + n == |Lru(c)|
    ensures Known(c.entries, AfterLow(c, n)) && Evict(c, charge).highUsage == SeqCharges(c.entries, AfterLow(c, n))
  {
    EvictTakesLowFirst(c, charge, n);
    EvictKeeps(c, charge);
    EvictShrinks(c, charge);
    var r := Evict(c, charge);
    SeqChargesSame(r.entries, c.entries, r.high);
  }

  /** After SetCapacity the pool is within its new capacity exactly if the high-priority entries that are
      not among the n oldest evicted fit; n is the least number whose eviction brings the usage down
      to the new capacity, or the whole list. */
  lemma PoolAfterSetCapacity<H>(c: Shard<H>, capacity: nat) returns (n: nat)
    requires Ok(c)
    ensures n <= |Lru(c)| && Known(c.entries, Lru(c)) && NeedsMore(c.(capacity := capacity), 0, n)
    ensures n < |Lru(c)| ==> c.usage - SeqCharges(c.entries, Lru(c)[..n]) <= capacity
    ensures Known(c.entries, AfterLow(c, n))
    ensures PoolBound(SetCapacity(c, capacity))
       <==> SeqCharges(c.entries, AfterLow(c, n)) as real <= PoolCapacity(capacity, c.ratio)
  {
    var c' := c.(capacity := capacity, pool := PoolCapacity(capacity, c.ratio));
    ResizeKeeps(c, c');
    n := PoolAfterEvict(c');
    SameNeed(c.(capacity := capacity), c', n);
  }

  lemma PoolAfterEvict<H>(c: Shard<H>) returns (n: nat)
    requires Sound(c)
    ensures n <= |Lru(c)| && Known(c.entries, Lru(c)) && NeedsMore(c, 0, n)
    ensures n < |Lru(c)| ==> c.usage - SeqCharges(c.entries, Lru(c)[..n]) <= c.capacity
    ensures Known(c.entries, AfterLow(c, n))
    ensures PoolBound(Evict(c, 0)) <==> SeqCharges(c.entries, AfterLow(c, n)) as real <= c.pool
  {
    n := EvictsShortestPrefix(c, 0);
    HighCharge(c, 0, n);
  }

  lemma SameNeed<H>(c: Shard<H>, c': Shard<H>, n: nat)
    requires c' == c.(pool := c'.pool) && Known(c.entries, Lru(c)) && n <= |Lru(c)| && NeedsMore(c', 0, n)
    ensures NeedsMore(c, 0, n)
  {
    forall m: nat | m < n
      ensures c.usage - SeqCharges(c.entries, Lru(c)[..m]) + 0 > c.capacity
    {
      assert c'.usage - SeqCharges(c'.entries, Lru(c')[..m]) + 0 > c'.capacity;
    }
  }
}
