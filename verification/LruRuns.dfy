/** Sequences of calls of an LRUCacheShard: what they return, what they free and when, and which limits
    they keep. H is the identity of a handle, so the theorems hold of handles in memory too. */
module LruRuns {
  import opened LruModel
  import opened LruOps
  import opened LruPolicy

  /** What became of an Insert: in the cache; freed at once, because no handle was wanted; or refused. */
  datatype Fate = Accepted | Dropped | Refused

  /** at numbers the Inserts in order. */
  datatype Record = Record(at: nat, key: CacheKey, value: Value, charge: nat, fate: Fate)

  /** A shard, and for every handle ever made what its Insert was given. */
  datatype World<H> = World(shard: Shard<H>, log: map<H, Record>)

  /** The calls; e of InsertOp is the handle that the call allocates. */
  datatype Op<H> =
    | InsertOp(e: H, key: CacheKey, value: Value, charge: nat, highPri: bool, hold: bool)
    | LookupOp(key: CacheKey)
    | RefOp(e: H)
    | ReleaseOp(e: H, force: bool)
    | EraseOp(key: CacheKey)
    | SetCapacityOp(capacity: nat)
    | SetStrictOp(strict: bool)
    | SetRatioOp(ratio: real)
    | EraseUnRefOp

  predicate Held<H(==)>(w: World<H>, e: H) {
    e in w.shard.entries && w.shard.entries[e].refs > 0
  }

  /** Callers pass handles that they hold, and a ratio that is not negative; a new handle is new. */
  predicate Legal<H(==)>(w: World<H>, op: Op<H>) {
    match op
    case InsertOp(e, _, _, _, _, _) => e !in w.log
    case RefOp(e) => Held(w, e)
    case ReleaseOp(e, _) => Held(w, e)
    case SetRatioOp(ratio) => ratio >= 0.0
    case _ => true
  }

  // ----- what holds between calls

  predicate Carries<H(==)>(c: Shard<H>, log: map<H, Record>, e: H)
    requires e in c.entries
  {
    && e in log && log[e].fate.Accepted?
    && c.entries[e].key == log[e].key && c.entries[e].value == log[e].value && c.entries[e].charge == log[e].charge
  }

  /** e is the latest Insert of key k to be accepted. */
  ghost predicate IsLatest<H>(log: map<H, Record>, k: CacheKey, e: H) {
    && e in log && log[e].key == k && log[e].fate.Accepted?
    && forall f :: f in log && log[f].key == k && log[f].at > log[e].at ==> !log[f].fate.Accepted?
  }

  ghost predicate Apart<H>(log: map<H, Record>, e: H, f: H) {
    e in log && f in log && e != f ==> log[e].at != log[f].at
  }

  /** No two Inserts have the same number. */
  ghost predicate Numbered<H>(log: map<H, Record>) {
    && (forall e :: e in log ==> log[e].at < |log|)
    && forall e, f {:trigger Apart(log, e, f)} :: e in log && f in log ==> Apart(log, e, f)
  }

  lemma NumberedNext<H>(log: map<H, Record>, e: H, record: Record)
    requires Numbered(log) && e !in log && record.at == |log|
    ensures Numbered(log[e := record])
  {
    var log' := log[e := record];
    forall x, y | x in log' && y in log'
      ensures Apart(log', x, y)
    {
      assert x in log && y in log ==> Apart(log, x, y);
    }
  }

  /** Each handle carries what its Insert was given; accepted ones are live or freed, dropped ones
      freed, refused ones neither; and the table leads to the latest accepted Insert of each key. */
  ghost predicate LogOk<H>(c: Shard<H>, log: map<H, Record>) {
    && (forall e :: e in c.entries ==> Carries(c, log, e))
    && (forall e :: e in c.freed ==> e in log && !log[e].fate.Refused?)
    && (forall e :: e in log && !log[e].fate.Refused? ==> e in c.entries || e in c.freed)
    && (forall k :: k in c.table ==> IsLatest(log, k, c.table[k]))
    && Numbered(log)
  }

  ghost predicate Good<H>(w: World<H>) {
    Ok(w.shard) && LogOk(w.shard, w.log)
  }

  // ----- calls

  function Step<H(==)>(w: World<H>, op: Op<H>): World<H>
    requires Good(w) && Legal(w, op)
  {
    var c := w.shard;
    match op
    case InsertOp(e, key, value, charge, highPri, hold) =>
      var r := Insert(c, e, NewEntry(key, value, charge, highPri, hold));
      var fate := if r.accepted then Accepted else if hold then Refused else Dropped;
      World(r.shard, w.log[e := Record(|w.log|, key, value, charge, fate)])
    case LookupOp(k) => w.(shard := Lookup(c, k))
    case RefOp(e) => w.(shard := Ref(c, e))
    case ReleaseOp(e, force) => w.(shard := Release(c, e, force))
    case EraseOp(k) => w.(shard := Erase(c, k))
    case SetCapacityOp(capacity) => w.(shard := SetCapacity(c, capacity))
    case SetStrictOp(strict) => w.(shard := c.(strict := strict))
    case SetRatioOp(ratio) => w.(shard := SetRatio(c, ratio))
    case EraseUnRefOp => w.(shard := EraseUnRef(c))
  }

  lemma ShrinkingKeepsLog<H>(c: Shard<H>, c': Shard<H>, log: map<H, Record>)
    requires LogOk(c, log) && Shrinks(c, c')
    ensures LogOk(c', log)
  {
  }

  lemma LaterLog<H>(c: Shard<H>, log: map<H, Record>, e: H, record: Record)
    requires LogOk(c, log) && e !in log && record.at == |log| && !record.fate.Accepted?
    ensures LogOk(if record.fate.Dropped? then c.(freed := c.freed + [e]) else c, log[e := record])
  {
    var log' := log[e := record];
    forall k | k in c.table
      ensures IsLatest(log', k, c.table[k])
    {
      assert IsLatest(log, k, c.table[k]);
      StillLatest(log, e, record, k, c.table[k]);
    }
    forall f | f in c.entries
      ensures Carries(c, log', f)
    {
      assert Carries(c, log, f);
    }
    NumberedNext(log, e, record);
  }

  lemma StillLatest<H>(log: map<H, Record>, e: H, record: Record, k: CacheKey, f: H)
    requires IsLatest(log, k, f) && e !in log && (record.key != k || !record.fate.Accepted?)
    ensures IsLatest(log[e := record], k, f)
  {
  }

  lemma PlacedLog<H>(c: Shard<H>, c': Shard<H>, log: map<H, Record>, e: H, x: Entry)
    requires LogOk(c, log) && e !in log
    requires c'.entries == c.entries[e := x] && c'.table == c.table[x.key := e] && c'.freed == c.freed
    ensures LogOk(c', log[e := Record(|log|, x.key, x.value, x.charge, Accepted)])
  {
    var log' := log[e := Record(|log|, x.key, x.value, x.charge, Accepted)];
    forall k | k in c'.table
      ensures IsLatest(log', k, c'.table[k])
    {
      if k != x.key {
        assert IsLatest(log, k, c.table[k]);
        StillLatest(log, e, log'[e], k, c.table[k]);
      }
    }
    forall f | f in c'.entries
      ensures Carries(c', log', f)
    {
      if f != e {
        assert Carries(c, log, f);
      }
    }
    NumberedNext(log, e, log'[e]);
  }

  lemma NotYet<H>(c: Shard<H>, log: map<H, Record>, e: H)
    requires LogOk(c, log) && e !in log
    ensures e !in c.entries && e !in c.freed
  {
    assert forall f :: f in c.entries ==> Carries(c, log, f);
  }

  lemma InsertAcceptedGood<H>(c: Shard<H>, log: map<H, Record>, e: H, x: Entry)
    requires Ok(c) && LogOk(c, log) && e !in log && x.inCache
    requires if x.refs == 0 then c.usage + x.charge <= c.capacity else c.usage + x.charge > c.capacity ==> Lru(c) == []
    ensures Ok(Erase(c, x.key))
    ensures LogOk(Place(Erase(c, x.key), e, x), log[e := Record(|log|, x.key, x.value, x.charge, Accepted)])
  {
    EraseKeeps(c, x.key);
    EraseShrinks(c, x.key);
    ShrinkingKeepsLog(c, Erase(c, x.key), log);
    NotYet(Erase(c, x.key), log, e);
    PlaceKeeps(Erase(c, x.key), e, x);
    PlacedLog(Erase(c, x.key), Place(Erase(c, x.key), e, x), log, e, x);
  }

  lemma InsertGood<H>(w: World<H>, op: Op<H>)
    requires Good(w) && op.InsertOp? && Legal(w, op)
    ensures Good(Step(w, op))
  {
    var c, log := w.shard, w.log;
    var x := NewEntry(op.key, op.value, op.charge, op.highPri, op.hold);
    NotYet(c, log, op.e);
    InsertKeeps(c, op.e, x);
    EvictKeeps(c, x.charge);
    EvictShrinks(c, x.charge);
    var c1 := Evict(c, x.charge);
    ShrinkingKeepsLog(c, c1, log);
    if Insert(c, op.e, x).accepted {
      InsertAcceptedGood(c1, log, op.e, x);
    } else {
      LaterLog(c1, log, op.e, Record(|log|, op.key, op.value, op.charge, if op.hold then Refused else Dropped));
    }
  }

  /** Every call keeps the invariant and the log. */
  lemma StepKeeps<H>(w: World<H>, op: Op<H>)
    requires Good(w) && Legal(w, op)
    ensures Good(Step(w, op))
  {
    var c, c' := w.shard, Step(w, op).shard;
    match op {
      case InsertOp(_, _, _, _, _, _) =>
        InsertGood(w, op);
        return;
      case LookupOp(k) =>
        LookupKeeps(c, k);
        LookupShrinks(c, k);
      case RefOp(e) =>
        RefKeeps(c, e);
      case ReleaseOp(e, force) =>
        ReleaseKeeps(c, e, force);
        ReleaseShrinks(c, e, force);
      case EraseOp(k) =>
        EraseKeeps(c, k);
        EraseShrinks(c, k);
      case SetCapacityOp(capacity) =>
        SetCapacityKeeps(c, capacity);
      case SetStrictOp(strict) =>
        StrictKeeps(c, strict);
      case SetRatioOp(ratio) =>
        SetRatioKeeps(c, ratio);
        SetRatioShrinks(c, ratio);
      case EraseUnRefOp =>
        EraseUnRefKeeps(c);
        EraseUnRefShrinks(c);
    }
    ShrinkingKeepsLog(c, c', w.log);
  }

  // ----- sequences of calls

  /** The calls of ops in order, leaving out those no caller may make. */
  function Run<H(==)>(w: World<H>, ops: seq<Op<H>>): World<H>
    requires Good(w)
    decreases |ops|
  {
    if ops == [] then w
    else if Legal(w, ops[0]) then
      StepKeeps(w, ops[0]);
      Run(Step(w, ops[0]), ops[1..])
    else Run(w, ops[1..])
  }

  lemma {:induction false} RunKeeps<H>(w: World<H>, ops: seq<Op<H>>)
    requires Good(w)
    ensures Good(Run(w, ops))
    decreases |ops|
  {
    if ops != [] {
      if Legal(w, ops[0]) {
        StepKeeps(w, ops[0]);
        RunKeeps(Step(w, ops[0]), ops[1..]);
      } else {
        RunKeeps(w, ops[1..]);
      }
    }
  }

  function NewWorld<H>(capacity: nat, strict: bool, ratio: real): World<H> {
    World(NewShard(capacity, strict, ratio), map[])
  }

  lemma NewIsGood<H>(capacity: nat, strict: bool, ratio: real)
    requires ratio >= 0.0
    ensures Good(NewWorld<H>(capacity, strict, ratio))
  {
    NewShardOk<H>(capacity, strict, ratio);
  }

  /** After any sequence of calls on a new shard: the list holds exactly the table entries without
      references, the three sums are what they stand for, and an overfull cache has nothing to evict. */
  lemma EveryRunKeepsAccounts<H>(capacity: nat, strict: bool, ratio: real, ops: seq<Op<H>>)
    requires ratio >= 0.0
    ensures Good(NewWorld<H>(capacity, strict, ratio))
    ensures var c := Run(NewWorld(capacity, strict, ratio), ops).shard;
            && (forall e :: e in Lru(c) <==> e in c.entries && c.entries[e].inCache && c.entries[e].refs == 0)
            && c.usage == Charges(c.entries, c.entries.Keys)
            && Known(c.entries, Lru(c)) && c.lruUsage == SeqCharges(c.entries, Lru(c))
            && Known(c.entries, c.high) && c.highUsage == SeqCharges(c.entries, c.high)
            && c.usage - c.lruUsage == Charges(c.entries, Referenced(c))
            && (c.usage > c.capacity ==> Lru(c) == [])
  {
    NewIsGood<H>(capacity, strict, ratio);
    RunKeeps(NewWorld(capacity, strict, ratio), ops);
    var c := Run(NewWorld(capacity, strict, ratio), ops).shard;
    ListIsEvictable(c);
    SeqChargesConcat(c.entries, c.low, c.high);
    PinnedIsReferenced(c);
  }

  lemma ListIsEvictable<H>(c: Shard<H>)
    requires Ok(c)
    ensures forall e :: e in Lru(c) <==> e in c.entries && Evictable(c.entries[e])
  {
    forall e | e in c.entries
      ensures e in Lru(c) <==> Evictable(c.entries[e])
    {
      assert EntryOk(c, e);
      assert Times(Lru(c), e) == Listed(c, e);
    }
  }

  /** What the log says of a shard that callers may have used in any way: a key of the table leads to its
      latest accepted Insert, with the value given there; no deleter has run twice, nor for a live
      handle, nor for a refused Insert; and every value taken over is live or has been deleted. */
  ghost predicate ValuesKept<H>(w: World<H>) {
    var c := w.shard;
    && (forall k :: k in c.table ==> && IsLatest(w.log, k, c.table[k]) && c.table[k] in c.entries
                                     && c.entries[c.table[k]].value == w.log[c.table[k]].value)
    && (forall e :: e in c.freed ==> Times(c.freed, e) == 1 && e !in c.entries)
    && (forall e :: e in c.freed ==> e in w.log && !w.log[e].fate.Refused?)
    && (forall e :: e in w.log && !w.log[e].fate.Refused? ==> e in c.entries || e in c.freed)
  }

  lemma GoodKeepsValues<H>(w: World<H>)
    requires Good(w)
    ensures ValuesKept(w)
  {
    var c := w.shard;
    forall k | k in c.table
      ensures c.table[k] in c.entries && c.entries[c.table[k]].value == w.log[c.table[k]].value
    {
      assert KeyOk(c, k);
      assert Carries(c, w.log, c.table[k]);
    }
    forall e | e in c.entries
      ensures e !in c.freed
    {
      assert EntryOk(c, e);
    }
  }

  lemma EveryRunKeepsValues<H>(capacity: nat, strict: bool, ratio: real, ops: seq<Op<H>>)
    requires ratio >= 0.0
    ensures Good(NewWorld<H>(capacity, strict, ratio)) && ValuesKept(Run(NewWorld(capacity, strict, ratio), ops))
  {
    NewIsGood<H>(capacity, strict, ratio);
    RunKeeps(NewWorld(capacity, strict, ratio), ops);
    GoodKeepsValues(Run(NewWorld(capacity, strict, ratio), ops));
  }

  // ----- a held entry stays

  /** How a call changes the references to e. */
  function RefsChange<H(==)>(w: World<H>, op: Op<H>, e: H): int {
    match op
    case LookupOp(k) => One(k in w.shard.table && w.shard.table[k] == e)
    case RefOp(f) => One(f == e)
    case ReleaseOp(f, _) => 0 - One(f == e)
    case _ => 0
  }

  /** The call gives up the last reference to e. */
  predicate LastRelease<H(==)>(w: World<H>, op: Op<H>, e: H) {
    op.ReleaseOp? && op.e == e && e in w.shard.entries && w.shard.entries[e].refs == 1
  }

  /** e is live in c' with the payload it has in c and the given change of its references. */
  predicate Stays<H(==)>(c: Shard<H>, c': Shard<H>, e: H, change: int) {
    && e in c.entries && e in c'.entries && SamePayload(c'.entries[e], c.entries[e])
    && c'.entries[e].refs == c.entries[e].refs + change
  }

  lemma EvictSpares<H>(c: Shard<H>, charge: nat, e: H)
    requires Sound(c) && e in c.entries && c.entries[e].refs > 0
    ensures e in Evict(c, charge).entries && Evict(c, charge).entries[e] == c.entries[e]
  {
    var n := EvictsShortestPrefix(c, charge);
    assert EntryOk(c, e);
    assert Times(Lru(c), e) == Listed(c, e);
  }

  lemma {:induction false} EraseUnRefSpares<H>(c: Shard<H>, e: H)
    requires Sound(c) && e in c.entries && c.entries[e].refs > 0
    ensures e in EraseUnRef(c).entries && EraseUnRef(c).entries[e] == c.entries[e]
    decreases |Lru(c)|
  {
    if Lru(c) != [] {
      OldestLeaves(c);
      EraseUnRefUnfolds(c);
      assert EntryOk(c, e);
      assert Times(Lru(c), e) == Listed(c, e);
      DiscardIs(c, Lru(c)[0]);
      EraseUnRefSpares(Discard(c, Lru(c)[0]), e);
    }
  }

  lemma EraseSpares<H>(c: Shard<H>, k: CacheKey, e: H)
    requires Ok(c) && e in c.entries && c.entries[e].refs > 0
    ensures Stays(c, Erase(c, k), e, 0)
  {
    if k in c.table {
      KeyIsListed(c, k);
      if c.entries[c.table[k]].refs == 0 {
        DiscardIs(c, c.table[k]);
      }
    }
  }

  lemma PlaceSpares<H>(c: Shard<H>, f: H, x: Entry, e: H)
    requires Ok(c) && f !in c.entries && f !in c.freed && x.inCache
    requires if x.refs == 0 then c.usage + x.charge <= c.capacity else c.usage + x.charge > c.capacity ==> Lru(c) == []
    requires e in c.entries && c.entries[e].refs > 0
    ensures Ok(Erase(c, x.key)) && Stays(c, Place(Erase(c, x.key), f, x), e, 0)
  {
    EraseKeeps(c, x.key);
    EraseSpares(c, x.key, e);
    EraseShrinks(c, x.key);
    PlaceKeeps(Erase(c, x.key), f, x);
  }

  lemma InsertSpares<H>(c: Shard<H>, f: H, x: Entry, e: H)
    requires Ok(c) && f !in c.entries && f !in c.freed && x.inCache && e in c.entries && c.entries[e].refs > 0
    ensures Stays(c, Insert(c, f, x).shard, e, 0)
  {
    var c1 := Evict(c, x.charge);
    EvictKeeps(c, x.charge);
    EvictShrinks(c, x.charge);
    EvictSpares(c, x.charge, e);
    if Insert(c, f, x).accepted {
      PlaceSpares(c1, f, x, e);
    }
  }

  lemma ReleaseSpares<H>(c: Shard<H>, f: H, force: bool, e: H)
    requires Ok(c) && f in c.entries && c.entries[f].refs > 0 && e in c.entries && c.entries[e].refs > 0
    requires !(e == f && c.entries[e].refs == 1)
    ensures Stays(c, Release(c, f, force), e, 0 - One(f == e))
  {
    ReleaseSettles(c, f, force);
  }

  lemma SetCapacitySpares<H>(c: Shard<H>, capacity: nat, e: H)
    requires Ok(c) && e in c.entries && c.entries[e].refs > 0
    ensures Stays(c, SetCapacity(c, capacity), e, 0)
  {
    var c' := c.(capacity := capacity, pool := PoolCapacity(capacity, c.ratio));
    ResizeKeeps(c, c');
    EvictSpares(c', 0, e);
  }

  lemma LookupSpares<H>(c: Shard<H>, k: CacheKey, e: H)
    requires Ok(c) && e in c.entries && c.entries[e].refs > 0
    ensures Stays(c, Lookup(c, k), e, One(k in c.table && c.table[k] == e))
  {
    if k in c.table {
      LookupMoves(c, k);
    }
  }

  /** No call but its own last Release ends a hold: the entry stays live with its key, value and charge,
      its references change by exactly what the call does, and its deleter has not run. */
  lemma HeldUntilReleased<H>(w: World<H>, op: Op<H>, e: H)
    requires Good(w) && Legal(w, op) && Held(w, e) && !LastRelease(w, op, e)
    ensures Stays(w.shard, Step(w, op).shard, e, RefsChange(w, op, e)) && e !in Step(w, op).shard.freed
  {
    var c := w.shard;
    match op {
      case InsertOp(f, key, value, charge, highPri, hold) =>
        NotYet(c, w.log, f);
        InsertSpares(c, f, NewEntry(key, value, charge, highPri, hold), e);
      case LookupOp(k) => LookupSpares(c, k, e);
      case ReleaseOp(f, force) => ReleaseSpares(c, f, force, e);
      case EraseOp(k) => EraseSpares(c, k, e);
      case SetCapacityOp(capacity) => SetCapacitySpares(c, capacity, e);
      case SetRatioOp(ratio) => SetRatioKeeps(c, ratio);
      case EraseUnRefOp => EraseUnRefSpares(c, e);
      case _ =>
    }
    StepKeeps(w, op);
    assert EntryOk(Step(w, op).shard, e);
  }

  // ----- what is freed, and when

  /** A step may run the deleter of e: nobody refers to it, or the call gives up the last reference, or
      it is the new handle of an Insert that is dropped. */
  predicate MayFree<H(==)>(w: World<H>, op: Op<H>, e: H) {
    || (e in w.shard.entries && w.shard.entries[e].refs == 0)
    || LastRelease(w, op, e)
    || (op.InsertOp? && op.e == e && !op.hold)
  }

  /** e is gone: not live, and no key leads to it. */
  ghost predicate Gone<H>(c: Shard<H>, e: H) {
    e in c.freed && e !in c.entries && forall k :: k in c.table ==> c.table[k] != e
  }

  lemma FreedIsGone<H>(w: World<H>, e: H)
    requires Good(w) && e in w.shard.freed
    ensures Gone(w.shard, e)
  {
    GoodKeepsValues(w);
  }

  lemma InsertedIsLive<H>(w: World<H>, op: Op<H>)
    requires Good(w) && op.InsertOp? && Legal(w, op)
    ensures Step(w, op).log[op.e].fate.Accepted? ==> op.e in Step(w, op).shard.entries
                                                     && Step(w, op).shard.entries[op.e].refs == One(op.hold)
  {
    var c, x := w.shard, NewEntry(op.key, op.value, op.charge, op.highPri, op.hold);
    EvictKeeps(c, x.charge);
    EvictShrinks(c, x.charge);
    NotYet(c, w.log, op.e);
    if Insert(c, op.e, x).accepted {
      var c1 := Evict(c, x.charge);
      EraseKeeps(c1, x.key);
      EraseShrinks(c1, x.key);
      PlaceKeeps(Erase(c1, x.key), op.e, x);
    }
  }

  /** A deleter runs only for an entry that nobody refers to, other than a caller giving up the last
      reference in this very call, and from then on no key leads to the handle. */
  lemma FreedUnreferenced<H>(w: World<H>, op: Op<H>, e: H)
    requires Good(w) && Legal(w, op) && e !in w.shard.freed && e in Step(w, op).shard.freed
    ensures MayFree(w, op, e) && Gone(Step(w, op).shard, e)
    ensures op.InsertOp? && op.e == e ==> Step(w, op).log[e].fate.Dropped?
  {
    StepKeeps(w, op);
    var w' := Step(w, op);
    FreedIsGone(w', e);
    if op.InsertOp? && op.e == e {
      InsertedIsLive(w, op);
    } else {
      assert e in w.log && w'.log[e] == w.log[e];
      if Held(w, e) && !LastRelease(w, op, e) {
        HeldUntilReleased(w, op, e);
      }
    }
  }

  lemma FreedStays<H>(w: World<H>, op: Op<H>, e: H)
    requires Good(w) && Legal(w, op) && e in w.shard.freed
    ensures e in Step(w, op).shard.freed
  {
    StepKeeps(w, op);
    var w' := Step(w, op);
    assert e in w.log && w'.log[e] == w.log[e];
    FreedIsGone(w, e);
    if e in w'.shard.entries {
      StepAdds(w, op, e);
    }
  }

  /** Only Insert makes an entry live. */
  lemma StepAdds<H>(w: World<H>, op: Op<H>, e: H)
    requires Good(w) && Legal(w, op) && e !in w.shard.entries && e in Step(w, op).shard.entries
    ensures op.InsertOp? && op.e == e
  {
    var c := w.shard;
    match op
    case InsertOp(f, key, value, charge, highPri, hold) =>
      NotYet(c, w.log, f);
      InsertAdds(c, f, NewEntry(key, value, charge, highPri, hold), e);
    case LookupOp(k) => LookupShrinks(c, k);
    case ReleaseOp(f, force) => ReleaseShrinks(c, f, force);
    case EraseOp(k) => EraseShrinks(c, k);
    case SetCapacityOp(capacity) => SetCapacityKeeps(c, capacity);
    case SetRatioOp(ratio) => SetRatioShrinks(c, ratio);
    case EraseUnRefOp => EraseUnRefShrinks(c);
    case _ =>
  }

  lemma InsertAdds<H>(c: Shard<H>, f: H, x: Entry, e: H)
    requires Ok(c) && f !in c.entries && f !in c.freed && x.inCache
    requires e !in c.entries && e in Insert(c, f, x).shard.entries
    ensures e == f
  {
    var c1 := Evict(c, x.charge);
    EvictKeeps(c, x.charge);
    EvictShrinks(c, x.charge);
    if Insert(c, f, x).accepted {
      EraseKeeps(c1, x.key);
      EraseShrinks(c1, x.key);
      PlaceKeeps(Erase(c1, x.key), f, x);
    }
  }

  // ----- the same over whole runs

  /** How often the calls release e. */
  function Releases<H(==)>(ops: seq<Op<H>>, e: H): nat {
    if ops == [] then 0 else One(ops[0].ReleaseOp? && ops[0].e == e) + Releases(ops[1..], e)
  }

  /** How a run changes the references to e. */
  function RunChange<H(==)>(w: World<H>, ops: seq<Op<H>>, e: H): int
    requires Good(w)
    decreases |ops|
  {
    if ops == [] then 0
    else if Legal(w, ops[0]) then
      StepKeeps(w, ops[0]);
      RefsChange(w, ops[0], e) + RunChange(Step(w, ops[0]), ops[1..], e)
    else RunChange(w, ops[1..], e)
  }

  lemma StaysOn<H>(a: Shard<H>, b: Shard<H>, c: Shard<H>, e: H, first: int, second: int)
    requires Stays(a, b, e, first) && Stays(b, c, e, second)
    ensures Stays(a, c, e, first + second)
  {
  }

  /** A holder that gives up fewer references than there are keeps the entry through any sequence of
      calls by anybody: live, unchanged, not deleted, and with its references counted exactly. */
  lemma {:induction false} HeldThroughRun<H>(w: World<H>, ops: seq<Op<H>>, e: H)
    requires Good(w) && e in w.shard.entries && Releases(ops, e) < w.shard.entries[e].refs
    ensures Good(Run(w, ops)) && Stays(w.shard, Run(w, ops).shard, e, RunChange(w, ops, e))
    ensures RunChange(w, ops, e) + Releases(ops, e) >= 0 && e !in Run(w, ops).shard.freed
    decreases |ops|
  {
    RunKeeps(w, ops);
    if ops != [] {
      if Legal(w, ops[0]) {
        var w' := Step(w, ops[0]);
        HeldUntilReleased(w, ops[0], e);
        StepKeeps(w, ops[0]);
        HeldThroughRun(w', ops[1..], e);
        StaysOn(w.shard, w'.shard, Run(w', ops[1..]).shard, e, RefsChange(w, ops[0], e), RunChange(w', ops[1..], e));
      } else {
        HeldThroughRun(w, ops[1..], e);
      }
    }
    assert EntryOk(Run(w, ops).shard, e);
  }

  /** What has been freed is never live again. */
  lemma {:induction false} FreedForGood<H>(w: World<H>, ops: seq<Op<H>>, e: H)
    requires Good(w) && e in w.shard.freed
    ensures Gone(Run(w, ops).shard, e)
    decreases |ops|
  {
    if ops == [] {
      FreedIsGone(w, e);
    } else if Legal(w, ops[0]) {
      StepKeeps(w, ops[0]);
      FreedStays(w, ops[0], e);
      FreedForGood(Step(w, ops[0]), ops[1..], e);
    } else {
      FreedForGood(w, ops[1..], e);
    }
  }

  /** The call runs the deleter of e, which it may, and for good. */
  ghost predicate FreedBy<H>(w: World<H>, op: Op<H>, e: H) {
    && Good(w) && Legal(w, op) && e !in w.shard.freed && MayFree(w, op, e) && Gone(Step(w, op).shard, e)
    && (op.InsertOp? && op.e == e ==> Step(w, op).log[e].fate.Dropped?)
  }

  /** Call n of ops does that. */
  ghost predicate FreedAt<H>(w: World<H>, ops: seq<Op<H>>, e: H, n: nat)
    requires Good(w)
  {
    n < |ops| && FreedBy(Run(w, ops[..n]), ops[n], e)
  }

  lemma RunNext<H>(w: World<H>, ops: seq<Op<H>>, w': World<H>, n: nat)
    requires Good(w) && n < |ops| && Good(w') && if Legal(w, ops[0]) then w' == Step(w, ops[0]) else w' == w
    ensures Run(w, ops[..n + 1]) == Run(w', ops[1..][..n])
  {
    assert ops[..n + 1][1..] == ops[1..][..n];
  }

  /** Whatever a run has freed, some call of it freed: an entry that nobody referred to, or whose last
      reference that call gave up, or the value of a dropped Insert. */
  lemma {:induction false} FreedOnlyUnreferenced<H>(w: World<H>, ops: seq<Op<H>>, e: H) returns (n: nat)
    requires Good(w) && e !in w.shard.freed && e in Run(w, ops).shard.freed
    ensures FreedAt(w, ops, e, n)
    decreases |ops|
  {
    var w' := w;
    if Legal(w, ops[0]) {
      StepKeeps(w, ops[0]);
      w' := Step(w, ops[0]);
    }
    if e in w'.shard.freed {
      n := 0;
      assert ops[..0] == [];
      FreedUnreferenced(w, ops[0], e);
    } else {
      n := FreedOnlyUnreferenced(w', ops[1..], e);
      RunNext(w, ops, w', n);
      n := n + 1;
    }
  }

  /** In any run of a new shard a deleter runs at most once for a handle, at a call that may run it, and
      after that the handle stays out of the table and the cache. */
  lemma EveryRunFreesUnreferenced<H>(capacity: nat, strict: bool, ratio: real, ops: seq<Op<H>>, e: H) returns (n: nat)
    requires ratio >= 0.0
    ensures Good(NewWorld<H>(capacity, strict, ratio))
    ensures var w := NewWorld(capacity, strict, ratio);
            e in Run(w, ops).shard.freed ==>
              && FreedAt(w, ops, e, n) && Times(Run(w, ops).shard.freed, e) == 1 && Gone(Run(w, ops).shard, e)
  {
    NewIsGood<H>(capacity, strict, ratio);
    var w := NewWorld(capacity, strict, ratio);
    n := 0;
    if e in Run(w, ops).shard.freed {
      n := FreedOnlyUnreferenced(w, ops, e);
      RunKeeps(w, ops);
      GoodKeepsValues(Run(w, ops));
    }
  }

  // ----- strict limit and pool bound

  /** While the strict limit is set, only SetCapacity can take the usage above the capacity. */
  lemma StrictLimit<H>(w: World<H>, op: Op<H>)
    requires Good(w) && Legal(w, op) && !op.SetCapacityOp?
    requires w.shard.strict && w.shard.usage <= w.shard.capacity
    ensures Step(w, op).shard.usage <= Step(w, op).shard.capacity == w.shard.capacity
    ensures Step(w, op).shard.strict || op.SetStrictOp?
  {
    var c := w.shard;
    match op {
      case InsertOp(e, k, v, charge, highPri, hold) =>
        NotYet(c, w.log, e);
        InsertLimits(c, e, NewEntry(k, v, charge, highPri, hold));
      case EraseOp(k) => EraseKeeps(c, k);
      case EraseUnRefOp => EraseUnRefKeeps(c);
      case ReleaseOp(e, force) => ReleaseUsage(c, e, force);
      case SetRatioOp(ratio) =>
        var n := MaintainOverflows(c.(ratio := ratio, pool := PoolCapacity(c.capacity, ratio)));
      case _ =>
    }
    if !op.SetStrictOp? {
      LimitsStay(w, op);
    }
  }

  /** Every call but SetCapacity keeps the high-priority pool within its capacity; a change of the ratio
      brings it there. */
  lemma PoolKept<H>(w: World<H>, op: Op<H>)
    requires Good(w) && Legal(w, op) && !op.SetCapacityOp?
    requires PoolBound(w.shard) || op.SetRatioOp?
    ensures PoolBound(Step(w, op).shard)
  {
    var c := w.shard;
    match op
    case InsertOp(e, k, v, charge, highPri, hold) =>
      NotYet(c, w.log, e);
      InsertLimits(c, e, NewEntry(k, v, charge, highPri, hold));
    case LookupOp(k) => LookupKeeps(c, k);
    case ReleaseOp(e, force) => ReleaseKeeps(c, e, force);
    case EraseOp(k) => EraseLimits(c, k);
    case SetRatioOp(ratio) => SetRatioKeeps(c, ratio);
    case EraseUnRefOp => EraseUnRefLimits(c);
    case _ =>
  }

  predicate NoResize<H>(ops: seq<Op<H>>) {
    forall i :: 0 <= i < |ops| ==> !ops[i].SetCapacityOp? && !ops[i].SetStrictOp?
  }

  lemma {:induction false} StrictRun<H>(w: World<H>, ops: seq<Op<H>>)
    requires Good(w) && w.shard.strict && w.shard.usage <= w.shard.capacity && NoResize(ops)
    ensures Run(w, ops).shard.usage <= w.shard.capacity
    decreases |ops|
  {
    if ops != [] {
      if Legal(w, ops[0]) {
        StepKeeps(w, ops[0]);
        StrictLimit(w, ops[0]);
        StrictRun(Step(w, ops[0]), ops[1..]);
      } else {
        StrictRun(w, ops[1..]);
      }
    }
  }

  /** A strict shard whose capacity is left alone never holds more than its capacity. */
  lemma StrictShardStaysWithin<H>(capacity: nat, ratio: real, ops: seq<Op<H>>)
    requires ratio >= 0.0 && NoResize(ops)
    ensures Good(NewWorld<H>(capacity, true, ratio))
    ensures Run(NewWorld(capacity, true, ratio), ops).shard.usage <= capacity
  {
    NewIsGood<H>(capacity, true, ratio);
    StrictRun(NewWorld(capacity, true, ratio), ops);
  }

  /** Only SetCapacity and SetStrictCapacityLimit change the limits. */
  lemma LimitsStay<H>(w: World<H>, op: Op<H>)
    requires Good(w) && Legal(w, op) && !op.SetCapacityOp? && !op.SetStrictOp?
    ensures Step(w, op).shard.capacity == w.shard.capacity && Step(w, op).shard.strict == w.shard.strict
  {
    var c := w.shard;
    match op
    case InsertOp(e, k, v, charge, highPri, hold) =>
      NotYet(c, w.log, e);
      InsertLimits(c, e, NewEntry(k, v, charge, highPri, hold));
    case EraseOp(k) =>
      EraseKeeps(c, k);
      EraseLimits(c, k);
    case EraseUnRefOp =>
      EraseUnRefKeeps(c);
      EraseUnRefLimits(c);
    case ReleaseOp(e, force) => ReleaseUsage(c, e, force);
    case SetRatioOp(ratio) =>
      var n := MaintainOverflows(c.(ratio := ratio, pool := PoolCapacity(c.capacity, ratio)));
    case _ =>
  }

  // ----- SetCapacity can leave the pool over its capacity

  lemma FirstInsert<H>(capacity: nat, strict: bool, ratio: real, e: H, x: Entry)
    requires ratio > 0.0 && x.highPri && x.inCache && x.refs == 0
    requires x.charge <= capacity && x.charge as real <= PoolCapacity(capacity, ratio)
    ensures var c := NewShard<H>(capacity, strict, ratio);
            && Ok(c)
            && Insert(c, e, x) == InsertResult(Append(Add(c, e, x), e, true), OkStatus, true)
  {
    NewShardOk<H>(capacity, strict, ratio);
    var c := NewShard<H>(capacity, strict, ratio);
    assert Evict(c, x.charge) == c && Erase(c, x.key) == c;
    var m := PushHigh(Add(c, e, x), e);
    assert Maintain(m) == m;
  }

  /** After the one call op on a new shard the pool is within its capacity, and a smaller capacity leaves
      it outside. */
  ghost predicate BreaksPool<H>(capacity: nat, smaller: nat, ratio: real, op: Op<H>) {
    && Good(NewWorld<H>(capacity, false, ratio))
    && var w := Run(NewWorld(capacity, false, ratio), [op]);
       Good(w) && PoolBound(w.shard) && !PoolBound(Step(w, SetCapacityOp(smaller)).shard)
  }

  /** So it is for every high-priority Insert whose charge fits the pool before and not after. */
  lemma SmallerCapacityBreaks<H>(capacity: nat, smaller: nat, ratio: real, op: Op<H>)
    requires ratio > 0.0 && op.InsertOp? && op.highPri && !op.hold && op.charge <= smaller <= capacity
    requires PoolCapacity(smaller, ratio) < op.charge as real <= PoolCapacity(capacity, ratio)
    ensures BreaksPool(capacity, smaller, ratio, op)
  {
    NewIsGood<H>(capacity, false, ratio);
    var v := NewWorld<H>(capacity, false, ratio);
    StepKeeps(v, op);
    var w := Step(v, op);
    assert Run(v, [op]) == Run(w, [op][1..]);
    FirstInsert<H>(capacity, false, ratio, op.e, NewEntry(op.key, op.value, op.charge, true, false));
    var c := w.shard.(capacity := smaller, pool := PoolCapacity(smaller, ratio));
    ResizeKeeps(w.shard, c);
    assert Evict(c, 0) == c;
  }

  lemma PoolBoundCanBreak<H>(e: H, key: CacheKey)
    ensures BreaksPool(2, 1, 0.5, InsertOp(e, key, "", 1, true, false))
  {
    SmallerCapacityBreaks(2, 1, 0.5, InsertOp(e, key, "", 1, true, false));
  }
}
