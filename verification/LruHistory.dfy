/** LRUCacheShard with a record of the Inserts so far: every call of the class is a call of LruRuns on the
    handles in memory, so what is proved of runs holds of it. */
module LruHistory {
  import opened LruModel
  import opened LruOps
  import opened LruTable
  import opened LruCache
  import opened LruPolicy
  import opened LruRuns

  /** What Insert returns tells what became of the value, whose handle is e: the caller gets the handle if
      it wanted it and the value was accepted, and Incomplete if the value was refused. */
  ghost predicate Told(w: World<LRUHandle>, e: LRUHandle, hold: bool, status: Status, handle: LRUHandle?) {
    && e in w.log
    && handle == (if hold && w.log[e].fate.Accepted? then e else null)
    && (status.Incomplete? <==> w.log[e].fate.Refused?)
    && (handle != null ==> LruRuns.Held(w, handle))
  }

  lemma InsertOutcome(w: World<LRUHandle>, op: Op<LRUHandle>, c: Shard<LRUHandle>, status: Status, handle: LRUHandle?)
    requires Good(w) && op.InsertOp? && Legal(w, op)
    requires var r := LruOps.Insert(w.shard, op.e, NewEntry(op.key, op.value, op.charge, op.highPri, op.hold));
             c == r.shard && status == r.status && handle == if r.accepted && op.hold then op.e else null
    ensures Good(Step(w, op)) && Step(w, op) == World(c, Step(w, op).log)
    ensures Told(Step(w, op), op.e, op.hold, status, handle)
    ensures Step(w, op).log[op.e].fate.Accepted? <==> Admits(w.shard, op.charge, op.hold)
  {
    NotYet(w.shard, w.log, op.e);
    InsertDecides(w.shard, op.e, NewEntry(op.key, op.value, op.charge, op.highPri, op.hold));
    StepKeeps(w, op);
    InsertedIsLive(w, op);
  }

  lemma LookupOutcome(w: World<LRUHandle>, k: CacheKey, e: LRUHandle)
    requires Good(w) && k in w.shard.table && e == w.shard.table[k]
    ensures var w' := Step(w, LookupOp(k));
            && Good(w') && IsLatest(w'.log, k, e) && LruRuns.Held(w', e) && w'.shard.entries[e].value == w'.log[e].value
  {
    StepKeeps(w, LookupOp(k));
    LookupMoves(w.shard, k);
    assert Carries(Lookup(w.shard, k), w.log, e);
  }

  lemma ReleaseOutcome(w: World<LRUHandle>, e: LRUHandle, force: bool)
    requires Good(w) && Legal(w, ReleaseOp(e, force))
    ensures var w' := Step(w, ReleaseOp(e, force));
            Good(w') && (ReleaseFrees(w.shard, e, force) <==> Gone(w'.shard, e))
  {
    StepKeeps(w, ReleaseOp(e, force));
    ReleaseSettles(w.shard, e, force);
  }

  class RecordedShard {
    const shard: LRUCacheShard
    ghost var log: map<LRUHandle, Record>

    /** The shard and its record, as LruRuns sees them. */
    ghost function Now(): World<LRUHandle>
      reads this, shard
    {
      World(shard.model, log)
    }

    ghost predicate Valid()
      reads this, shard, shard.lru`next, shard.lru`prev, shard.model.entries.Keys
      reads shard.table, shard.table.list, shard.table.nodes`nextHash
    {
      shard.Valid() && Good(Now())
    }

    constructor (capacity: nat, strict: bool, ratio: real)
      requires ratio >= 0.0
      ensures Valid() && Now() == NewWorld(capacity, strict, ratio)
      ensures fresh(shard) && fresh(shard.lru) && fresh(shard.table) && fresh(shard.table.list)
    {
      shard := new LRUCacheShard(capacity, strict, ratio);
      log := map[];
      new;
      NewIsGood<LRUHandle>(capacity, strict, ratio);
    }

    /** Whatever calls were made: a key leads to its latest accepted Insert with the value given there; no
        deleter has run twice, nor for a live handle, nor for a refused Insert; no value is lost. */
    lemma ValuesAreKept()
      requires Valid()
      ensures ValuesKept(Now())
    {
      GoodKeepsValues(Now());
    }

    ghost method Enter(w: World<LRUHandle>, op: Op<LRUHandle>)
      requires shard.Valid() && Good(w) && Legal(w, op) && Good(Step(w, op))
      requires Step(w, op) == World(shard.model, Step(w, op).log)
      modifies `log
      ensures Valid() && Now() == Step(w, op)
    {
      log := Step(w, op).log;
    }

    /** e is the handle that was made for the value. */
    method Insert(key: CacheKey, value: Value, charge: nat, highPri: bool, hold: bool)
      returns (status: Status, handle: LRUHandle?, ghost e: LRUHandle)
      requires Valid()
      modifies `log, shard, shard.lru, shard.table, shard.table.list, shard.model.entries.Keys
      ensures Valid() && fresh(e) && (shard.table.list == old(shard.table.list) || fresh(shard.table.list))
      ensures Good(old(Now())) && e !in old(log)
      ensures Now() == Step(old(Now()), InsertOp(e, key, value, charge, highPri, hold))
      ensures Told(Now(), e, hold, status, handle)
      ensures log[e].fate.Accepted? <==> Admits(old(shard.model), charge, hold)
    {
      ghost var w := Now();
      status, handle, e := shard.Insert(key, value, charge, highPri, hold);
      ghost var op := InsertOp(e, key, value, charge, highPri, hold);
      InsertOutcome(w, op, shard.model, status, handle);
      Enter(w, op);
    }

    /** A hit is the latest accepted Insert of the key, with the value that Insert was given. */
    method Lookup(k: CacheKey) returns (e: LRUHandle?)
      requires Valid()
      modifies shard, shard.lru, shard.model.entries.Keys
      ensures Valid() && log == old(log) && Good(old(Now())) && Now() == Step(old(Now()), LookupOp(k))
      ensures e == null <==> k !in old(shard.model.table)
      ensures e != null ==> IsLatest(log, k, e) && e.value == log[e].value && LruRuns.Held(Now(), e)
    {
      ghost var w := Now();
      e := shard.Lookup(k);
      if e != null {
        LookupOutcome(w, k, e);
        assert About(e, shard.model.entries[e]);
      }
    }

    method Ref(e: LRUHandle)
      requires Valid() && LruRuns.Held(Now(), e)
      modifies shard`model, e`refs
      ensures Valid() && log == old(log) && Good(old(Now())) && LruRuns.Held(old(Now()), e)
      ensures Now() == Step(old(Now()), RefOp(e))
    {
      ghost var w := Now();
      assert Shows(e, shard.model.entries[e]);
      shard.Ref(e);
      StepKeeps(w, RefOp(e));
    }

    /** True if and only if that runs the deleter of the value. */
    method Release(e: LRUHandle, force: bool) returns (freed: bool)
      requires Valid() && LruRuns.Held(Now(), e)
      modifies shard, shard.lru, shard.table, shard.table.list, shard.model.entries.Keys
      ensures Valid() && log == old(log) && shard.table.list == old(shard.table.list)
      ensures Good(old(Now())) && LruRuns.Held(old(Now()), e) && Now() == Step(old(Now()), ReleaseOp(e, force))
      ensures freed <==> Gone(shard.model, e)
    {
      ghost var w := Now();
      assert Shows(e, shard.model.entries[e]);
      freed := shard.Release(e, force);
      ReleaseOutcome(w, e, force);
    }

    method Erase(k: CacheKey)
      requires Valid()
      modifies shard, shard.lru, shard.table, shard.table.list, shard.model.entries.Keys
      ensures Valid() && log == old(log) && shard.table.list == old(shard.table.list)
      ensures Good(old(Now())) && Now() == Step(old(Now()), EraseOp(k))
    {
      ghost var w := Now();
      shard.Erase(k);
      StepKeeps(w, EraseOp(k));
    }

    method SetCapacity(capacity: nat) returns (deleted: seq<LRUHandle>)
      requires Valid()
      modifies shard, shard.lru, shard.table, shard.table.list, shard.model.entries.Keys
      ensures Valid() && log == old(log) && shard.table.list == old(shard.table.list)
      ensures Good(old(Now())) && Now() == Step(old(Now()), SetCapacityOp(capacity))
      ensures shard.model.freed == old(shard.model.freed) + deleted
    {
      ghost var w := Now();
      deleted := shard.SetCapacity(capacity);
      StepKeeps(w, SetCapacityOp(capacity));
    }

    method SetStrictCapacityLimit(strict: bool)
      requires Valid()
      modifies shard`strictCapacityLimit, shard`model
      ensures Valid() && log == old(log) && Good(old(Now())) && Now() == Step(old(Now()), SetStrictOp(strict))
    {
      ghost var w := Now();
      shard.SetStrictCapacityLimit(strict);
      StepKeeps(w, SetStrictOp(strict));
    }

    method SetHighPriorityPoolRatio(ratio: real)
      requires Valid() && ratio >= 0.0
      modifies shard, shard.model.entries.Keys`inHighPriPool
      ensures Valid() && log == old(log) && Good(old(Now())) && Now() == Step(old(Now()), SetRatioOp(ratio))
    {
      ghost var w := Now();
      shard.SetHighPriorityPoolRatio(ratio);
      StepKeeps(w, SetRatioOp(ratio));
    }

    method EraseUnRefEntries() returns (deleted: seq<LRUHandle>)
      requires Valid()
      modifies shard, shard.lru, shard.table, shard.table.list, shard.model.entries.Keys
      ensures Valid() && log == old(log) && shard.table.list == old(shard.table.list)
      ensures Good(old(Now())) && Now() == Step(old(Now()), EraseUnRefOp)
      ensures shard.model.freed == old(shard.model.freed) + deleted
    {
      ghost var w := Now();
      deleted := shard.EraseUnRefEntries();
      StepKeeps(w, EraseUnRefOp);
    }
  }
}
