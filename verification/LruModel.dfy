/** LRUCacheShard (cache/lru_cache.h, cache/lru_cache.cc) over values: a table, a two-pool list of the
    entries that can be evicted, and three running sums. H is the identity of a handle. */
module LruModel {

  datatype CacheKey = CacheKey(key: string, hash: nat)

  type Value = string

  /** What a handle carries; charge includes the metadata. */
  datatype Entry = Entry(key: CacheKey, value: Value, charge: nat, refs: nat, inCache: bool, highPri: bool, hit: bool)

  /** The LRU list is low + high, oldest first. entries holds the handles that have not been freed and
      freed those whose deleter has run, in order. */
  datatype Shard<H> = Shard(entries: map<H, Entry>, table: map<CacheKey, H>, low: seq<H>, high: seq<H>,
                            usage: int, lruUsage: int, highUsage: int,
                            capacity: nat, strict: bool, ratio: real, pool: real, freed: seq<H>)

  function Lru<H>(c: Shard<H>): seq<H> {
    c.low + c.high
  }

  predicate Evictable(x: Entry) {
    x.inCache && x.refs == 0
  }

  /** The capacity of the high-priority pool. */
  function PoolCapacity(capacity: nat, ratio: real): (r: real)
    ensures ratio >= 0.0 ==> r >= 0.0
  {
    capacity as real * ratio
  }

  /** Each unit of capacity adds the ratio to the pool, and none adds nothing. */
  lemma PoolIsShare(a: nat, b: nat, ratio: real)
    ensures PoolCapacity(0, ratio) == 0.0 && PoolCapacity(1, ratio) == ratio
    ensures PoolCapacity(a + b, ratio) == PoolCapacity(a, ratio) + PoolCapacity(b, ratio)
  {
    assert (a + b) as real == a as real + b as real;
  }

  // ----- sequences without repetition, and sums

  function One(b: bool): nat {
    if b then 1 else 0
  }

  ghost function Times<H>(s: seq<H>, e: H): nat {
    multiset(s)[e]
  }

  function Index<H(==)>(s: seq<H>, e: H): (i: nat)
    requires e in s
    ensures i < |s| && s[i] == e
  {
    if s[0] == e then 0 else Index(s[1..], e) + 1
  }

  function Without<H(==)>(s: seq<H>, e: H): seq<H>
    requires e in s
  {
    var i := Index(s, e);
    s[..i] + s[i + 1..]
  }

  lemma CutLeft<H>(a: seq<H>, b: seq<H>, i: nat)
    requires i < |a|
    ensures (a[..i] + a[i + 1..]) + b == (a + b)[..i] + (a + b)[i + 1..]
  {
    assert (a + b)[..i] == a[..i];
    assert (a + b)[i + 1..] == a[i + 1..] + b;
  }

  lemma CutRight<H>(a: seq<H>, b: seq<H>, j: nat)
    requires j < |b|
    ensures a + (b[..j] + b[j + 1..]) == (a + b)[..|a| + j] + (a + b)[|a| + j + 1..]
  {
    assert (a + b)[..|a| + j] == a + b[..j];
    assert (a + b)[|a| + j + 1..] == b[j + 1..];
  }

  lemma UpdateTwice<H>(entries: map<H, Entry>, e: H, x: Entry, y: Entry)
    ensures entries[e := x][e := y] == entries[e := y]
  {
  }

  lemma TimesWithout<H>(s: seq<H>, e: H, x: H)
    requires e in s
    ensures Times(Without(s, e), x) + One(x == e) == Times(s, x)
  {
    var i := Index(s, e);
    assert s == s[..i] + [e] + s[i + 1..];
  }

  lemma TimesAppend<H>(s: seq<H>, e: H, x: H)
    ensures Times(s + [e], x) == Times(s, x) + One(x == e)
  {
  }

  ghost function Charges<H>(entries: map<H, Entry>, s: set<H>): nat
    requires s <= entries.Keys
  {
    if s == {} then 0
    else
      var e :| e in s;
      entries[e].charge + Charges(entries, s - {e})
  }

  lemma {:induction false} ChargesRemove<H>(entries: map<H, Entry>, s: set<H>, e: H)
    requires s <= entries.Keys && e in s
    ensures Charges(entries, s) == entries[e].charge + Charges(entries, s - {e})
    decreases |s|
  {
    var f :| f in s && Charges(entries, s) == entries[f].charge + Charges(entries, s - {f});
    if f != e {
      ChargesRemove(entries, s - {f}, e);
      ChargesRemove(entries, s - {e}, f);
      assert s - {f} - {e} == s - {e} - {f};
    }
  }

  lemma {:induction false} ChargesSame<H>(entries: map<H, Entry>, entries': map<H, Entry>, s: set<H>)
    requires s <= entries.Keys && s <= entries'.Keys
    requires forall e :: e in s ==> entries'[e].charge == entries[e].charge
    ensures Charges(entries', s) == Charges(entries, s)
    decreases |s|
  {
    if s != {} {
      var e :| e in s;
      ChargesRemove(entries, s, e);
      ChargesRemove(entries', s, e);
      ChargesSame(entries, entries', s - {e});
    }
  }

  predicate Known<H(==)>(entries: map<H, Entry>, s: seq<H>) {
    forall e :: e in s ==> e in entries
  }

  function SeqCharges<H(==)>(entries: map<H, Entry>, s: seq<H>): nat
    requires Known(entries, s)
  {
    if s == [] then 0 else entries[s[0]].charge + SeqCharges(entries, s[1..])
  }

  lemma {:induction false} SeqChargesConcat<H>(entries: map<H, Entry>, s: seq<H>, t: seq<H>)
    requires Known(entries, s) && Known(entries, t)
    ensures Known(entries, s + t) && SeqCharges(entries, s + t) == SeqCharges(entries, s) + SeqCharges(entries, t)
  {
    if s == [] {
      assert s + t == t;
    } else {
      SeqChargesConcat(entries, s[1..], t);
      assert (s + t)[1..] == s[1..] + t;
    }
  }

  lemma SeqChargesOne<H>(entries: map<H, Entry>, s: seq<H>, e: H)
    requires Known(entries, s) && e in entries
    ensures Known(entries, s + [e]) && SeqCharges(entries, s + [e]) == SeqCharges(entries, s) + entries[e].charge
  {
    SeqChargesConcat(entries, s, [e]);
    assert SeqCharges(entries, [e]) == entries[e].charge + SeqCharges(entries, [e][1..]);
  }

  lemma SeqChargesWithout<H>(entries: map<H, Entry>, s: seq<H>, e: H)
    requires Known(entries, s) && e in s
    ensures Known(entries, Without(s, e))
    ensures SeqCharges(entries, s) == SeqCharges(entries, Without(s, e)) + entries[e].charge
  {
    var i := Index(s, e);
    SeqChargesConcat(entries, s[..i], s[i + 1..]);
    SeqChargesConcat(entries, s[..i], s[i..]);
    assert s == s[..i] + s[i..] && s[i..][1..] == s[i + 1..];
  }

  lemma {:induction false} SeqChargesSame<H>(entries: map<H, Entry>, entries': map<H, Entry>, s: seq<H>)
    requires Known(entries, s)
    requires forall e :: e in s ==> e in entries' && entries'[e].charge == entries[e].charge
    ensures SeqCharges(entries', s) == SeqCharges(entries, s)
  {
    if s != [] {
      SeqChargesSame(entries, entries', s[1..]);
    }
  }

  // ----- what holds between operations

  /** How often e is on the list. */
  ghost function Listed<H>(c: Shard<H>, e: H): nat {
    Times(c.low, e) + Times(c.high, e)
  }

  /** The three states of a handle: in the table and on the list; in the table and referenced; or only
      referenced. */
  ghost predicate EntryOk<H>(c: Shard<H>, e: H)
    requires e in c.entries
  {
    var x := c.entries[e];
    && (x.inCache || x.refs > 0)
    && (x.inCache ==> x.key in c.table && c.table[x.key] == e)
    && Listed(c, e) == One(Evictable(x))
    && Times(c.freed, e) == 0
  }

  ghost predicate KeyOk<H>(c: Shard<H>, k: CacheKey)
    requires k in c.table
  {
    var e := c.table[k];
    e in c.entries && c.entries[e].key == k && c.entries[e].inCache
  }

  ghost predicate EntriesOk<H>(c: Shard<H>) {
    forall e {:trigger EntryOk(c, e)} :: e in c.entries ==> EntryOk(c, e)
  }

  ghost predicate TableOk<H>(c: Shard<H>) {
    forall k {:trigger KeyOk(c, k)} :: k in c.table ==> KeyOk(c, k)
  }

  ghost predicate ListOk<H>(c: Shard<H>) {
    && Known(c.entries, c.low) && Known(c.entries, c.high)
    && forall e {:trigger Times(c.freed, e)} :: e in c.freed ==> Times(c.freed, e) == 1
  }

  ghost predicate SumsOk<H>(c: Shard<H>) {
    && Known(c.entries, c.low) && Known(c.entries, c.high)
    && c.usage == Charges(c.entries, c.entries.Keys)
    && c.lruUsage == SeqCharges(c.entries, c.low) + SeqCharges(c.entries, c.high)
    && c.highUsage == SeqCharges(c.entries, c.high)
  }

  ghost predicate Sound<H>(c: Shard<H>) {
    && EntriesOk(c) && TableOk(c) && ListOk(c) && SumsOk(c)
    && c.ratio >= 0.0 && c.pool == PoolCapacity(c.capacity, c.ratio)
  }

  /** With the cache over its capacity, nothing is left to evict. */
  ghost predicate Ok<H>(c: Shard<H>) {
    Sound(c) && (c.usage > c.capacity ==> Lru(c) == [])
  }

  // ----- the list

  /** LRU_Remove. */
  function ListRemove<H(==)>(c: Shard<H>, e: H): Shard<H>
    requires e in c.entries && e in Lru(c)
  {
    var charge := c.entries[e].charge;
    if e in c.low then c.(low := Without(c.low, e), lruUsage := c.lruUsage - charge)
    else c.(high := Without(c.high, e), lruUsage := c.lruUsage - charge, highUsage := c.highUsage - charge)
  }

  /** MaintainPoolSize: overflows the oldest entries of the high-priority pool to the other. */
  function Maintain<H(==)>(c: Shard<H>): Shard<H>
    requires Known(c.entries, c.high)
    decreases |c.high|
  {
    if c.highUsage as real > c.pool && c.high != [] then
      var e := c.high[0];
      Maintain(c.(low := c.low + [e], high := c.high[1..], highUsage := c.highUsage - c.entries[e].charge))
    else c
  }

  function GoesHigh<H>(c: Shard<H>, x: Entry): bool {
    c.ratio > 0.0 && (x.highPri || x.hit)
  }

  function PushHigh<H(==)>(c: Shard<H>, e: H): Shard<H>
    requires e in c.entries
  {
    c.(high := c.high + [e], highUsage := c.highUsage + c.entries[e].charge)
  }

  /** LRU_Insert. */
  function ListInsert<H(==)>(c: Shard<H>, e: H): Shard<H>
    requires e in c.entries && Known(c.entries, c.high)
  {
    var x := c.entries[e];
    if GoesHigh(c, x) then Maintain(PushHigh(c, e)).(lruUsage := c.lruUsage + x.charge)
    else c.(low := c.low + [e], lruUsage := c.lruUsage + x.charge)
  }

  // ----- entries leaving

  function Untable<H(==)>(c: Shard<H>, e: H): Shard<H>
    requires e in c.entries
  {
    var x := c.entries[e];
    c.(table := c.table - {x.key}, entries := c.entries[e := x.(inCache := false)])
  }

  /** The handle is freed: its deleter runs. */
  function Free<H(==)>(c: Shard<H>, e: H): Shard<H>
    requires e in c.entries
  {
    c.(entries := c.entries - {e}, usage := c.usage - c.entries[e].charge, freed := c.freed + [e])
  }

  /** An entry on the list leaves the cache. */
  function Discard<H(==)>(c: Shard<H>, e: H): Shard<H>
    requires e in c.entries && e in Lru(c)
  {
    Free(Untable(ListRemove(c, e), e), e)
  }

  lemma ListRemoved<H>(c: Shard<H>, e: H, x: H)
    requires e in c.entries && e in Lru(c)
    ensures Listed(ListRemove(c, e), x) + One(x == e) == Listed(c, x)
  {
    if e in c.low {
      TimesWithout(c.low, e, x);
    } else {
      TimesWithout(c.high, e, x);
    }
  }

  lemma ListRemovedSums<H>(c: Shard<H>, e: H)
    requires SumsOk(c) && e in c.entries && e in Lru(c)
    ensures SumsOk(ListRemove(c, e))
  {
    if e in c.low {
      SeqChargesWithout(c.entries, c.low, e);
    } else {
      SeqChargesWithout(c.entries, c.high, e);
    }
  }

  /** Changing entries without changing charges leaves the sums over a list as they were. */
  lemma SameSums<H>(c: Shard<H>, entries: map<H, Entry>)
    requires Known(c.entries, c.low) && Known(c.entries, c.high)
    requires forall e :: e in c.entries && Listed(c, e) > 0 ==> e in entries && entries[e].charge == c.entries[e].charge
    ensures Known(entries, c.low) && SeqCharges(entries, c.low) == SeqCharges(c.entries, c.low)
    ensures Known(entries, c.high) && SeqCharges(entries, c.high) == SeqCharges(c.entries, c.high)
  {
    forall e | e in c.low || e in c.high
      ensures e in entries && entries[e].charge == c.entries[e].charge
    {
      assert Listed(c, e) > 0;
    }
    SeqChargesSame(c.entries, entries, c.low);
    SeqChargesSame(c.entries, entries, c.high);
  }

  lemma DiscardEntries<H>(c: Shard<H>, e: H)
    requires Sound(c) && e in c.entries && e in Lru(c)
    ensures EntriesOk(Discard(c, e))
  {
    var c' := Discard(c, e);
    assert EntryOk(c, e);
    forall x | x in c'.entries
      ensures EntryOk(c', x)
    {
      assert EntryOk(c, x);
      ListRemoved(c, e, x);
      TimesAppend(c.freed, e, x);
    }
  }

  lemma DiscardTable<H>(c: Shard<H>, e: H)
    requires Sound(c) && e in c.entries && e in Lru(c)
    ensures TableOk(Discard(c, e))
  {
    var c' := Discard(c, e);
    assert EntryOk(c, e);
    forall k | k in c'.table
      ensures KeyOk(c', k)
    {
      assert KeyOk(c, k);
    }
  }

  lemma DiscardSums<H>(c: Shard<H>, e: H)
    requires Sound(c) && e in c.entries && e in Lru(c)
    ensures ListOk(Discard(c, e)) && SumsOk(Discard(c, e))
  {
    var m, c' := ListRemove(c, e), Discard(c, e);
    assert EntryOk(c, e);
    ListRemoved(c, e, e);
    ListRemovedSums(c, e);
    SameSums(m, c'.entries);
    FreeSums(c, e, c'.entries);
    FreedOnce(c, e);
  }

  lemma DiscardKeeps<H>(c: Shard<H>, e: H)
    requires Sound(c) && e in Lru(c)
    ensures e in c.entries && Sound(Discard(c, e))
    ensures forall x :: Listed(Discard(c, e), x) + One(x == e) == Listed(c, x)
  {
    DiscardEntries(c, e);
    DiscardTable(c, e);
    DiscardSums(c, e);
    forall x
      ensures Listed(Discard(c, e), x) + One(x == e) == Listed(c, x)
    {
      ListRemoved(c, e, x);
    }
  }

  lemma FreeSums<H>(c: Shard<H>, e: H, entries: map<H, Entry>)
    requires e in c.entries && entries.Keys == c.entries.Keys - {e}
    requires forall x :: x in entries ==> entries[x].charge == c.entries[x].charge
    ensures Charges(c.entries, c.entries.Keys) == Charges(entries, entries.Keys) + c.entries[e].charge
  {
    ChargesRemove(c.entries, c.entries.Keys, e);
    ChargesSame(c.entries, entries, entries.Keys);
  }

  lemma FreedOnce<H>(c: Shard<H>, e: H)
    requires ListOk(c) && Times(c.freed, e) == 0
    ensures forall x :: x in c.freed + [e] ==> Times(c.freed + [e], x) == 1
  {
    forall x | x in c.freed + [e]
      ensures Times(c.freed + [e], x) == 1
    {
      TimesAppend(c.freed, e, x);
      if x in c.freed {
        assert Times(c.freed, x) == 1;
      }
    }
  }

  // ----- the two pools

  ghost predicate PoolBound<H>(c: Shard<H>) {
    c.highUsage as real <= c.pool
  }

  /** The first n entries of the high-priority pool move to the other. */
  function Overflow<H(==)>(c: Shard<H>, n: nat): Shard<H>
    requires Known(c.entries, c.high) && n <= |c.high|
  {
    c.(low := c.low + c.high[..n], high := c.high[n..], highUsage := c.highUsage - SeqCharges(c.entries, c.high[..n]))
  }

  lemma OverflowSums<H>(c: Shard<H>, n: nat)
    requires Known(c.entries, c.high) && n <= |c.high|
    ensures SeqCharges(c.entries, c.high) == SeqCharges(c.entries, c.high[..n]) + SeqCharges(c.entries, c.high[n..])
  {
    SeqChargesConcat(c.entries, c.high[..n], c.high[n..]);
    assert c.high == c.high[..n] + c.high[n..];
  }

  lemma OverflowAgain<H>(c: Shard<H>, n: nat)
    requires Known(c.entries, c.high) && n < |c.high|
    ensures var one := Overflow(c, 1);
            Known(one.entries, one.high) && n <= |one.high| && Overflow(one, n) == Overflow(c, n + 1)
  {
    var one := Overflow(c, 1);
    SeqChargesConcat(c.entries, c.high[..1], one.high[..n]);
    assert c.high[..n + 1] == c.high[..1] + one.high[..n];
    assert one.low + one.high[..n] == c.low + c.high[..n + 1];
  }

  lemma OverflowOne<H>(c: Shard<H>)
    requires Known(c.entries, c.high) && c.high != []
    ensures Overflow(c, 1)
         == c.(low := c.low + [c.high[0]], high := c.high[1..], highUsage := c.highUsage - c.entries[c.high[0]].charge)
  {
    assert c.high[..1] == [c.high[0]];
    assert SeqCharges(c.entries, c.high[..1]) == c.entries[c.high[0]].charge + SeqCharges(c.entries, c.high[..1][1..]);
  }

  /** The first n entries do not make enough room: no shorter overflow is enough. */
  ghost predicate Needed<H>(c: Shard<H>, n: nat)
    requires Known(c.entries, c.high) && n <= |c.high|
  {
    forall m: nat :: m < n ==> SeqCharges(c.entries, c.high[m..]) as real > c.pool
  }

  lemma NeededMore<H>(c: Shard<H>, n: nat)
    requires Known(c.entries, c.high) && n < |c.high| && SeqCharges(c.entries, c.high) as real > c.pool
    requires Known(c.entries, c.high[1..]) && Needed(Overflow(c, 1), n)
    ensures Needed(c, n + 1)
  {
    forall m: nat | m < n + 1
      ensures SeqCharges(c.entries, c.high[m..]) as real > c.pool
    {
      if m > 0 {
        assert c.high[1..][m - 1..] == c.high[m..];
      } else {
        assert c.high[0..] == c.high;
      }
    }
  }

  /** MaintainPoolSize overflows the shortest prefix of the high-priority pool that brings the pool
      within its capacity, and never runs into the dummy head. */
  lemma {:induction false} MaintainOverflows<H>(c: Shard<H>) returns (n: nat)
    requires Known(c.entries, c.high) && c.highUsage == SeqCharges(c.entries, c.high) && c.pool >= 0.0
    ensures n <= |c.high| && Maintain(c) == Overflow(c, n) && PoolBound(Maintain(c)) && Needed(c, n)
    decreases |c.high|
  {
    if c.highUsage as real > c.pool {
      MaintainStep(c);
      n := MaintainOverflows(Overflow(c, 1));
      OverflowAgain(c, n);
      NeededMore(c, n);
      n := n + 1;
    } else {
      n := 0;
      OverflowNone(c);
    }
  }

  lemma OverflowNone<H>(c: Shard<H>)
    requires Known(c.entries, c.high)
    ensures Overflow(c, 0) == c
  {
    assert c.low + c.high[..0] == c.low && c.high[0..] == c.high;
  }

  lemma MaintainStep<H>(c: Shard<H>)
    requires Known(c.entries, c.high) && c.highUsage == SeqCharges(c.entries, c.high) && c.pool >= 0.0
    requires c.highUsage as real > c.pool
    ensures c.high != [] && Maintain(c) == Maintain(Overflow(c, 1))
    ensures Overflow(c, 1).highUsage == SeqCharges(c.entries, c.high[1..])
  {
    OverflowOne(c);
    OverflowSums(c, 1);
  }

  lemma OverflowListed<H>(c: Shard<H>, n: nat, e: H)
    requires Known(c.entries, c.high) && n <= |c.high|
    ensures Listed(Overflow(c, n), e) == Listed(c, e)
  {
    assert c.high == c.high[..n] + c.high[n..];
  }

  lemma OverflowKeeps<H>(c: Shard<H>, n: nat)
    requires Sound(c) && n <= |c.high|
    ensures Sound(Overflow(c, n)) && Lru(Overflow(c, n)) == Lru(c)
  {
    var c' := Overflow(c, n);
    forall e | e in c'.entries
      ensures EntryOk(c', e)
    {
      assert EntryOk(c, e);
      OverflowListed(c, n, e);
    }
    forall k | k in c'.table
      ensures KeyOk(c', k)
    {
      assert KeyOk(c, k);
    }
    OverflowKeepsSums(c, n);
  }

  lemma OverflowKeepsSums<H>(c: Shard<H>, n: nat)
    requires ListOk(c) && SumsOk(c) && n <= |c.high|
    ensures ListOk(Overflow(c, n)) && SumsOk(Overflow(c, n)) && Lru(Overflow(c, n)) == Lru(c)
  {
    OverflowSums(c, n);
    SeqChargesConcat(c.entries, c.low, c.high[..n]);
    assert Lru(Overflow(c, n)) == Lru(c);
  }

  /** e could be evicted but is not on the list yet; the rest is in order. */
  ghost predicate OkBut<H>(c: Shard<H>, e: H) {
    && e in c.entries && Evictable(c.entries[e]) && Listed(c, e) == 0 && Times(c.freed, e) == 0
    && c.entries[e].key in c.table && c.table[c.entries[e].key] == e
    && (forall x {:trigger EntryOk(c, x)} :: x in c.entries && x != e ==> EntryOk(c, x))
    && TableOk(c) && ListOk(c) && SumsOk(c) && c.usage <= c.capacity
    && c.ratio >= 0.0 && c.pool == PoolCapacity(c.capacity, c.ratio)
  }

  function Append<H(==)>(c: Shard<H>, e: H, toHigh: bool): Shard<H>
    requires e in c.entries
  {
    var charge := c.entries[e].charge;
    if toHigh then PushHigh(c, e).(lruUsage := c.lruUsage + charge)
    else c.(low := c.low + [e], lruUsage := c.lruUsage + charge)
  }

  lemma AppendKeeps<H>(c: Shard<H>, e: H, toHigh: bool)
    requires OkBut(c, e)
    ensures Ok(Append(c, e, toHigh))
  {
    var c' := Append(c, e, toHigh);
    forall x | x in c'.entries
      ensures EntryOk(c', x)
    {
      TimesAppend(if toHigh then c.high else c.low, e, x);
      if x != e {
        assert EntryOk(c, x);
      }
    }
    forall k | k in c'.table
      ensures KeyOk(c', k)
    {
      assert KeyOk(c, k);
    }
    SeqChargesOne(c.entries, if toHigh then c.high else c.low, e);
  }

  lemma ListInsertIs<H>(c: Shard<H>, e: H) returns (n: nat)
    requires e in c.entries && SumsOk(c) && c.pool >= 0.0
    ensures var high := GoesHigh(c, c.entries[e]);
            var c1 := Append(c, e, high);
            && n <= |c1.high| && Known(c1.entries, c1.high) && ListInsert(c, e) == Overflow(c1, n)
            && (if high then PoolBound(ListInsert(c, e)) else n == 0)
  {
    var high := GoesHigh(c, c.entries[e]);
    var c1 := Append(c, e, high);
    if high {
      SeqChargesOne(c.entries, c.high, e);
      n := MaintainOverflows(PushHigh(c, e));
    } else {
      n := 0;
      OverflowNone(c1);
    }
  }

  /** Only the list and the sums over it differ. */
  predicate SameButList<H(==)>(c: Shard<H>, c': Shard<H>) {
    c' == c.(low := c'.low, high := c'.high, lruUsage := c'.lruUsage, highUsage := c'.highUsage)
  }

  /** LRU_Insert appends to the pool the entry belongs to; a high-priority insertion then overflows
      the pool until it is within its capacity. */
  lemma ListInsertKeeps<H>(c: Shard<H>, e: H)
    requires OkBut(c, e)
    ensures var r := ListInsert(c, e);
            Ok(r) && SameButList(c, r) && (PoolBound(c) || GoesHigh(c, c.entries[e]) ==> PoolBound(r))
    ensures Lru(ListInsert(c, e)) == if GoesHigh(c, c.entries[e]) then Lru(c) + [e] else c.low + [e] + c.high
  {
    var c1 := Append(c, e, GoesHigh(c, c.entries[e]));
    AppendKeeps(c, e, GoesHigh(c, c.entries[e]));
    var n := ListInsertIs(c, e);
    OverflowKeeps(c1, n);
    assert c.low + (c.high + [e]) == Lru(c) + [e];
  }

  /** Which pool an entry joins, and what that does to the pools: without a high-priority pool, or if the
      entry is neither of high priority nor hit before, it becomes the newest of the low-priority pool
      and the other is left alone. Otherwise it becomes the newest of the high-priority pool, of which
      the n oldest, no more than it takes, then move to the low-priority one. */
  lemma ListInsertPools<H>(c: Shard<H>, e: H) returns (n: nat)
    requires OkBut(c, e)
    ensures var x, r := c.entries[e], ListInsert(c, e);
            if c.ratio == 0.0 || (!x.highPri && !x.hit) then
              r.low == c.low + [e] && r.high == c.high && r.highUsage == c.highUsage
            else
              var high := c.high + [e];
              && n <= |high| && r.low == c.low + high[..n] && r.high == high[n..]
              && Known(c.entries, high) && SeqCharges(c.entries, high[n..]) as real <= c.pool
              && forall m: nat :: m < n ==> SeqCharges(c.entries, high[m..]) as real > c.pool
  {
    var x := c.entries[e];
    n := 0;
    if GoesHigh(c, x) {
      SeqChargesOne(c.entries, c.high, e);
      n := MaintainOverflows(PushHigh(c, e));
      OverflowSums(PushHigh(c, e), n);
    }
  }
}
