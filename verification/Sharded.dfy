/** ShardedCache (cache/sharded_cache.h, cache/sharded_cache.cc) over LRU shards: a cache split by the
    highest bits of the hash. */
module Sharded {
  import opened LruModel
  import opened LruOps
  import opened LruPolicy
  import opened LruRuns
  import opened Wrappers

  function Pow2(n: nat): (r: nat)
    ensures r > 0
  {
    if n == 0 then 1 else 2 * Pow2(n - 1)
  }

  /** hash >> n. */
  function ShiftRight(hash: nat, n: nat): nat {
    if n == 0 then hash else ShiftRight(hash / 2, n - 1)
  }

  lemma {:induction false} ShiftInRange(hash: nat, n: nat, bits: nat)
    requires hash < Pow2(bits + n)
    ensures ShiftRight(hash, n) < Pow2(bits)
  {
    if n > 0 {
      assert Pow2(bits + n) == 2 * Pow2(bits + n - 1);
      ShiftInRange(hash / 2, n - 1, bits);
    }
  }

  lemma {:induction false} ShiftDivides(hash: nat, n: nat)
    ensures ShiftRight(hash, n) * Pow2(n) <= hash < (ShiftRight(hash, n) + 1) * Pow2(n)
  {
    if n > 0 {
      ShiftDivides(hash / 2, n - 1);
      Doubles(ShiftRight(hash, n), Pow2(n - 1));
      Doubles(ShiftRight(hash, n) + 1, Pow2(n - 1));
    }
  }

  lemma Doubles(s: nat, p: nat)
    ensures s * (2 * p) == 2 * (s * p)
  {
  }

  /** The number of bits of a hash, and the smallest shard that is worth having. */
  const HASH_BITS: nat := 32
  const MIN_SHARD_SIZE: nat := 512 * 1024

  predicate IsHash(hash: nat) {
    hash < Pow2(HASH_BITS)
  }

  /** The shard of a hash: its highest bits. A shift by all bits is avoided. */
  function ShardOf(bits: nat, hash: nat): nat
    requires bits <= HASH_BITS
  {
    if bits > 0 then ShiftRight(hash, HASH_BITS - bits) else 0
  }

  /** Shard is always in range, and each shard has an interval of hashes of the same length. */
  lemma ShardInRange(bits: nat, hash: nat)
    requires bits <= HASH_BITS && IsHash(hash)
    ensures ShardOf(bits, hash) < Pow2(bits)
    ensures var width := Pow2(HASH_BITS - bits); ShardOf(bits, hash) * width <= hash < (ShardOf(bits, hash) + 1) * width
  {
    ShiftInRange(hash, HASH_BITS - bits, bits);
    ShiftDivides(hash, HASH_BITS - bits);
  }

  /** The capacity each of n shards gets. */
  function PerShard(capacity: nat, n: nat): nat
    requires n > 0
  {
    (capacity + (n - 1)) / n
  }

  /** Together the shards get at least what was asked for, and less than one per shard more. */
  lemma CapacitySplit(capacity: nat, n: nat)
    requires n > 0
    ensures capacity <= n * PerShard(capacity, n) <= capacity + n - 1
  {
    var p := PerShard(capacity, n);
    assert capacity + (n - 1) == p * n + (capacity + (n - 1)) % n;
  }

  function Sum(xs: seq<int>): int {
    if xs == [] then 0 else Sum(xs[..|xs| - 1]) + xs[|xs| - 1]
  }

  lemma {:induction false} SumBound(xs: seq<int>, bound: nat)
    requires forall i :: 0 <= i < |xs| ==> xs[i] <= bound
    ensures Sum(xs) <= |xs| * bound
  {
    if xs != [] {
      SumBound(xs[..|xs| - 1], bound);
      assert |xs| * bound == (|xs| - 1) * bound + bound;
    }
  }

  lemma {:induction false} ShiftAgain(x: nat, n: nat)
    ensures ShiftRight(x, n + 1) == ShiftRight(x, n) / 2
  {
    if n > 0 {
      ShiftAgain(x / 2, n - 1);
    }
  }

  /** The default number of shard bits: at most six, at least 512 KiB for each shard if there is that much
      at all, and no fewer bits than these two allow. */
  method GetDefaultCacheShardBits(capacity: nat) returns (bits: nat)
    ensures bits <= 6
    ensures capacity >= MIN_SHARD_SIZE ==> Pow2(bits) * MIN_SHARD_SIZE <= capacity
    ensures bits < 6 ==> capacity < Pow2(bits + 1) * MIN_SHARD_SIZE
  {
    bits := 0;
    var shards := capacity / MIN_SHARD_SIZE;
    ghost var all := shards;
    shards := shards / 2;
    ShiftAgain(all, 0);
    while shards != 0
      invariant bits < 6 && shards == ShiftRight(all, bits + 1) && (all > 0 ==> ShiftRight(all, bits) > 0)
    {
      bits := bits + 1;
      if bits >= 6 {
        EnoughForBits(capacity, bits);
        return;
      }
      shards := shards / 2;
      ShiftAgain(all, bits);
    }
    EnoughForBits(capacity, bits);
    TooLittleForMore(capacity, bits);
  }

  lemma ScaleMonotone(a: nat, b: nat, c: nat)
    requires a <= b
    ensures a * c <= b * c
  {
  }

  lemma EnoughForBits(capacity: nat, bits: nat)
    requires capacity >= MIN_SHARD_SIZE ==> ShiftRight(capacity / MIN_SHARD_SIZE, bits) > 0
    ensures capacity >= MIN_SHARD_SIZE ==> Pow2(bits) * MIN_SHARD_SIZE <= capacity
  {
    if capacity >= MIN_SHARD_SIZE {
      var all := capacity / MIN_SHARD_SIZE;
      ShiftDivides(all, bits);
      ScaleMonotone(1, ShiftRight(all, bits), Pow2(bits));
      ScaleMonotone(Pow2(bits), all, MIN_SHARD_SIZE);
    }
  }

  lemma TooLittleForMore(capacity: nat, bits: nat)
    requires ShiftRight(capacity / MIN_SHARD_SIZE, bits + 1) == 0
    ensures capacity < Pow2(bits + 1) * MIN_SHARD_SIZE
  {
    var all := capacity / MIN_SHARD_SIZE;
    ShiftDivides(all, bits + 1);
    ScaleMonotone(all + 1, Pow2(bits + 1), MIN_SHARD_SIZE);
  }

  // ----- what holds between calls

  /** Handles of a shard are numbered in the order of the Inserts that made them. */
  type Cell = World<nat>

  /** A handle, as a caller holds it: the number it has in the shard that made it. */
  datatype Handle = Handle(shard: nat, e: nat)

  predicate LeadsTo(bits: nat, hash: nat, s: nat)
    requires bits <= HASH_BITS
  {
    IsHash(hash) && ShardOf(bits, hash) == s
  }

  /** The log of shard s has the keys whose hash leads to it, under the numbers given out so far. */
  ghost predicate OwnLog(w: Cell, bits: nat, s: nat)
    requires bits <= HASH_BITS
  {
    forall e :: e in w.log ==> e < |w.log| && LeadsTo(bits, w.log[e].key.hash, s)
  }

  /** Shard s is in order, keeps its own log, and has its part of the capacity. */
  ghost predicate ShardOk(shards: seq<Cell>, bits: nat, capacity: nat, strict: bool, s: nat)
    requires s < |shards| && bits <= HASH_BITS
  {
    && Good(shards[s]) && OwnLog(shards[s], bits, s)
    && shards[s].shard.capacity == PerShard(capacity, |shards|) && shards[s].shard.strict == strict
  }

  ghost predicate AllOk(shards: seq<Cell>, bits: nat, capacity: nat, strict: bool)
    requires bits <= HASH_BITS
  {
    && |shards| == Pow2(bits)
    && forall s: nat {:trigger ShardOk(shards, bits, capacity, strict, s)} ::
         s < |shards| ==> ShardOk(shards, bits, capacity, strict, s)
  }

  predicate Within(shards: seq<Cell>) {
    forall s :: 0 <= s < |shards| ==> shards[s].shard.usage <= shards[s].shard.capacity
  }

  // ----- calls to one shard

  /** A call that concerns one shard; Insert reaches the shard of its key, and makes the next handle. */
  predicate Routed(w: Cell, bits: nat, op: Op<nat>, s: nat)
    requires bits <= HASH_BITS
  {
    && !op.SetCapacityOp? && !op.SetStrictOp?
    && (op.InsertOp? ==> LeadsTo(bits, op.key.hash, s) && op.e == |w.log|)
  }

  lemma CallKeepsShard(w: Cell, bits: nat, s: nat, op: Op<nat>)
    requires bits <= HASH_BITS && Good(w) && Legal(w, op) && OwnLog(w, bits, s) && Routed(w, bits, op, s)
    ensures var w' := Step(w, op);
            && Good(w') && OwnLog(w', bits, s)
            && w'.shard.capacity == w.shard.capacity && w'.shard.strict == w.shard.strict
            && (w.shard.strict && w.shard.usage <= w.shard.capacity ==> w'.shard.usage <= w.shard.capacity)
  {
    StepKeeps(w, op);
    LimitsStay(w, op);
    if w.shard.strict && w.shard.usage <= w.shard.capacity {
      StrictLimit(w, op);
    }
  }

  lemma ReplaceKeeps(shards: seq<Cell>, bits: nat, capacity: nat, strict: bool, s: nat, w: Cell)
    requires bits <= HASH_BITS && AllOk(shards, bits, capacity, strict) && s < |shards|
    requires Good(w) && OwnLog(w, bits, s)
    requires w.shard.capacity == shards[s].shard.capacity && w.shard.strict == shards[s].shard.strict
    ensures AllOk(shards[s := w], bits, capacity, strict)
  {
    var shards' := shards[s := w];
    forall t: nat | t < |shards'|
      ensures ShardOk(shards', bits, capacity, strict, t)
    {
      assert ShardOk(shards, bits, capacity, strict, t);
    }
  }

  /** A call to one shard keeps the whole in order, and a strict cache within its limits. */
  lemma CallKeeps(shards: seq<Cell>, bits: nat, capacity: nat, strict: bool, s: nat, op: Op<nat>)
    requires bits <= HASH_BITS && AllOk(shards, bits, capacity, strict) && s < |shards|
    requires Good(shards[s]) && Legal(shards[s], op) && Routed(shards[s], bits, op, s)
    ensures var shards' := shards[s := Step(shards[s], op)];
            AllOk(shards', bits, capacity, strict) && (strict && Within(shards) ==> Within(shards'))
  {
    assert ShardOk(shards, bits, capacity, strict, s);
    CallKeepsShard(shards[s], bits, s, op);
    ReplaceKeeps(shards, bits, capacity, strict, s, Step(shards[s], op));
  }

  // ----- holds

  predicate HeldIn(shards: seq<Cell>, h: Handle) {
    h.shard < |shards| && LruRuns.Held(shards[h.shard], h.e)
  }

  function EntryOf(shards: seq<Cell>, h: Handle): Entry
    requires HeldIn(shards, h)
  {
    shards[h.shard].shard.entries[h.e]
  }

  function Change(of: Option<Handle>, delta: int, h: Handle): int {
    if of == Some(h) then delta else 0
  }

  /** Whoever holds a handle keeps it with its key, value and charge; the references to the handle of, if
      any, change by the given number and all others not at all. A handle whose last reference goes is
      no longer held. */
  ghost predicate KeepsHolds(was: seq<Cell>, now: seq<Cell>, of: Option<Handle>, delta: int) {
    forall h {:trigger HeldIn(was, h)} {:trigger HeldIn(now, h)} ::
      HeldIn(was, h) && EntryOf(was, h).refs + Change(of, delta, h) > 0 ==>
        && HeldIn(now, h) && SamePayload(EntryOf(now, h), EntryOf(was, h))
        && EntryOf(now, h).refs == EntryOf(was, h).refs + Change(of, delta, h)
  }

  lemma CallKeepsHolds(shards: seq<Cell>, s: nat, op: Op<nat>, of: Option<Handle>, delta: int)
    requires s < |shards| && Good(shards[s]) && Legal(shards[s], op) && (of.Some? ==> of.value.shard == s)
    requires forall e :: RefsChange(shards[s], op, e) == Change(of, delta, Handle(s, e))
    ensures KeepsHolds(shards, shards[s := Step(shards[s], op)], of, delta)
  {
    var shards' := shards[s := Step(shards[s], op)];
    forall h | HeldIn(shards, h) && EntryOf(shards, h).refs + Change(of, delta, h) > 0
      ensures HeldIn(shards', h) && SamePayload(EntryOf(shards', h), EntryOf(shards, h))
      ensures EntryOf(shards', h).refs == EntryOf(shards, h).refs + Change(of, delta, h)
    {
      if h.shard == s {
        assert h == Handle(s, h.e);
        HeldUntilReleased(shards[s], op, h.e);
      }
    }
  }

  // ----- calls to all shards

  /** A call that every shard gets, and what it does to a shard. */
  predicate Global(op: Op<nat>) {
    op.SetCapacityOp? || op.SetStrictOp? || op.EraseUnRefOp?
  }

  ghost predicate Applied(w: Cell, w': Cell, op: Op<nat>) {
    && Good(w) && Legal(w, op) && w' == Step(w, op) && Good(w') && w'.log == w.log
    && w'.shard.capacity == (if op.SetCapacityOp? then op.capacity else w.shard.capacity)
    && w'.shard.strict == (if op.SetStrictOp? then op.strict else w.shard.strict)
  }

  lemma GlobalApplies(w: Cell, op: Op<nat>)
    requires Good(w) && Global(op)
    ensures Applied(w, Step(w, op), op)
  {
    StepKeeps(w, op);
    if op.SetCapacityOp? {
      var c := w.shard.(capacity := op.capacity, pool := PoolCapacity(op.capacity, w.shard.ratio));
      ResizeKeeps(w.shard, c);
      EvictLimits(c, 0);
    } else if op.EraseUnRefOp? {
      LimitsStay(w, op);
    }
  }

  /** The first n shards have had the call. */
  ghost predicate AppliedUpTo(was: seq<Cell>, now: seq<Cell>, n: nat, op: Op<nat>) {
    && |now| == |was| && n <= |was|
    && (forall t {:trigger Applied(was[t], now[t], op)} :: 0 <= t < n ==> Applied(was[t], now[t], op))
    && (forall t :: n <= t < |was| ==> now[t] == was[t])
  }

  lemma ApplyNext(was: seq<Cell>, now: seq<Cell>, n: nat, op: Op<nat>)
    requires AppliedUpTo(was, now, n, op) && n < |was| && Good(was[n]) && Global(op)
    ensures Good(now[n]) && AppliedUpTo(was, now[n := Step(now[n], op)], n + 1, op)
  {
    GlobalApplies(now[n], op);
    var next := now[n := Step(now[n], op)];
    forall t | 0 <= t < n + 1
      ensures Applied(was[t], next[t], op)
    {
      assert t < n ==> Applied(was[t], now[t], op);
    }
  }

  lemma AllAppliedKeeps(was: seq<Cell>, now: seq<Cell>, bits: nat, before: nat, capacity: nat, strict: bool,
                        op: Op<nat>)
    requires bits <= HASH_BITS && AllOk(was, bits, before, strict) && AppliedUpTo(was, now, |was|, op)
    requires if op.SetCapacityOp? then op.capacity == PerShard(capacity, |was|) else capacity == before
    ensures AllOk(now, bits, capacity, if op.SetStrictOp? then op.strict else strict)
  {
    var strict' := if op.SetStrictOp? then op.strict else strict;
    forall s: nat | s < |now|
      ensures ShardOk(now, bits, capacity, strict', s)
    {
      assert ShardOk(was, bits, before, strict, s) && Applied(was[s], now[s], op);
    }
  }

  lemma AllAppliedKeepsHolds(was: seq<Cell>, now: seq<Cell>, op: Op<nat>)
    requires AppliedUpTo(was, now, |was|, op) && Global(op)
    ensures KeepsHolds(was, now, None, 0)
  {
    forall h | HeldIn(was, h)
      ensures HeldIn(now, h) && SamePayload(EntryOf(now, h), EntryOf(was, h))
      ensures EntryOf(now, h).refs == EntryOf(was, h).refs
    {
      assert Applied(was[h.shard], now[h.shard], op);
      HeldUntilReleased(was[h.shard], op, h.e);
    }
  }

  // ----- usage

  ghost function Usages(shards: seq<Cell>): seq<int> {
    seq(|shards|, i requires 0 <= i < |shards| => shards[i].shard.usage)
  }

  /** A strict cache holds less than one unit per shard more than its capacity. */
  lemma StrictUsageBound(shards: seq<Cell>, bits: nat, capacity: nat, strict: bool)
    requires bits <= HASH_BITS && AllOk(shards, bits, capacity, strict) && Within(shards)
    ensures Sum(Usages(shards)) <= capacity + Pow2(bits) - 1
  {
    var n := |shards|;
    forall i | 0 <= i < n
      ensures Usages(shards)[i] <= PerShard(capacity, n)
    {
      assert ShardOk(shards, bits, capacity, strict, i);
    }
    SumBound(Usages(shards), PerShard(capacity, n));
    CapacitySplit(capacity, n);
  }

  lemma {:induction false} SumLast(xs: seq<int>, x: int)
    ensures Sum(xs + [x]) == Sum(xs) + x
  {
    assert (xs + [x])[..|xs|] == xs;
  }

  lemma UsagesNext(shards: seq<Cell>, bits: nat, capacity: nat, strict: bool, s: nat)
    requires bits <= HASH_BITS && AllOk(shards, bits, capacity, strict) && s < |shards|
    ensures shards[s].shard.usage >= 0
    ensures Sum(Usages(shards)[..s + 1]) == Sum(Usages(shards)[..s]) + shards[s].shard.usage
  {
    assert ShardOk(shards, bits, capacity, strict, s);
    SumLast(Usages(shards)[..s], Usages(shards)[s]);
    assert Usages(shards)[..s] + [Usages(shards)[s]] == Usages(shards)[..s + 1];
  }

  lemma GetUsageBound(shards: seq<Cell>, bits: nat, capacity: nat, strict: bool)
    requires bits <= HASH_BITS && AllOk(shards, bits, capacity, strict)
    ensures Within(shards) ==> Sum(Usages(shards)) <= capacity + Pow2(bits) - 1
  {
    if Within(shards) {
      StrictUsageBound(shards, bits, capacity, strict);
    }
  }

  // ----- what Lookup, Insert and Release return

  predicate NeverSaw(w: Cell, k: CacheKey) {
    forall e :: e in w.log ==> w.log[e].key != k
  }

  /** h is the latest accepted Insert of key k, and no other shard has ever seen the key. */
  ghost predicate LatestInCache(shards: seq<Cell>, k: CacheKey, h: Handle) {
    && h.shard < |shards| && IsLatest(shards[h.shard].log, k, h.e)
    && forall t :: 0 <= t < |shards| && t != h.shard ==> NeverSaw(shards[t], k)
  }

  lemma OnlyOwnShard(shards: seq<Cell>, bits: nat, capacity: nat, strict: bool, k: CacheKey, h: Handle)
    requires bits <= HASH_BITS && AllOk(shards, bits, capacity, strict) && LeadsTo(bits, k.hash, h.shard)
    requires h.shard < |shards| && IsLatest(shards[h.shard].log, k, h.e)
    ensures LatestInCache(shards, k, h)
  {
    forall t | 0 <= t < |shards| && t != h.shard
      ensures NeverSaw(shards[t], k)
    {
      assert ShardOk(shards, bits, capacity, strict, t);
    }
  }

  /** What Lookup finds is held, and is what the latest accepted Insert of the key put in. */
  lemma LookupFinds(w: Cell, k: CacheKey)
    requires Good(w) && k in w.shard.table
    ensures var e, w' := w.shard.table[k], Step(w, LookupOp(k));
            && IsLatest(w.log, k, e) && LruRuns.Held(w', e) && w'.shard.entries[e].value == w.log[e].value
            && forall f :: RefsChange(w, LookupOp(k), f) == One(f == e)
  {
    LookupMoves(w.shard, k);
    assert Carries(w.shard, w.log, w.shard.table[k]);
  }

  /** Insert is Incomplete exactly if the value was refused. */
  lemma InsertTells(w: Cell, op: Op<nat>)
    requires Good(w) && op.InsertOp? && Legal(w, op)
    ensures var r := LruOps.Insert(w.shard, op.e, NewEntry(op.key, op.value, op.charge, op.highPri, op.hold));
            && (Step(w, op).log[op.e].fate.Accepted? <==> Admits(w.shard, op.charge, op.hold))
            && (r.status.Incomplete? <==> Step(w, op).log[op.e].fate.Refused?)
            && (Step(w, op).log[op.e].fate.Accepted? && op.hold ==> LruRuns.Held(Step(w, op), op.e))
  {
    NotYet(w.shard, w.log, op.e);
    InsertDecides(w.shard, op.e, NewEntry(op.key, op.value, op.charge, op.highPri, op.hold));
    InsertedIsLive(w, op);
  }

  lemma ReleaseTells(w: Cell, e: nat, force: bool)
    requires Good(w) && Legal(w, ReleaseOp(e, force))
    ensures ReleaseFrees(w.shard, e, force) <==> Gone(Step(w, ReleaseOp(e, force)).shard, e)
  {
    ReleaseSettles(w.shard, e, force);
    if e in w.shard.freed {
      FreedIsGone(w, e);
    }
  }

  class ShardedCache {
    const numShardBits: nat
    var shards: seq<Cell>
    var capacity: nat
    var strictCapacityLimit: bool

    ghost predicate Valid()
      reads this
    {
      numShardBits <= HASH_BITS && AllOk(shards, numShardBits, capacity, strictCapacityLimit)
    }

    /** The caller holds h: it is live in the shard that made it, and referenced. */
    predicate Held(h: Handle)
      reads this
    {
      HeldIn(shards, h)
    }

    function GetHash(h: Handle): nat
      requires Held(h)
      reads this
    {
      EntryOf(shards, h).key.hash
    }

    /** The hash of a handle leads back to the shard that made it. */
    lemma OwnerFound(h: Handle)
      requires Valid() && Held(h)
      ensures LeadsTo(numShardBits, GetHash(h), h.shard)
    {
      assert ShardOk(shards, numShardBits, capacity, strictCapacityLimit, h.shard);
      assert Carries(shards[h.shard].shard, shards[h.shard].log, h.e);
    }

    constructor (capacity: nat, numShardBits: nat, strict: bool, ratio: real)
      requires numShardBits < 20 && ratio >= 0.0
      ensures Valid() && Within(shards)
      ensures this.capacity == capacity && this.numShardBits == numShardBits && strictCapacityLimit == strict
      ensures forall i :: 0 <= i < |shards| ==> shards[i] == NewWorld(PerShard(capacity, |shards|), strict, ratio)
    {
      var n := Pow2(numShardBits);
      var made: seq<Cell> := [];
      while |made| < n
        invariant |made| <= n
        invariant forall i :: 0 <= i < |made| ==> made[i] == NewWorld(PerShard(capacity, n), strict, ratio)
      {
        made := made + [NewWorld(PerShard(capacity, n), strict, ratio)];
      }
      this.numShardBits, this.shards, this.capacity, strictCapacityLimit := numShardBits, made, capacity, strict;
      NewIsGood<nat>(PerShard(capacity, n), strict, ratio);
    }

    /** Passes a call on to shard s. */
    method Call(s: nat, op: Op<nat>)
      requires Valid() && s < |shards| && Good(shards[s]) && Legal(shards[s], op)
      requires Routed(shards[s], numShardBits, op, s)
      modifies `shards
      ensures Valid() && old(Good(shards[s])) && shards == old(shards)[s := Step(old(shards[s]), op)]
      ensures strictCapacityLimit && Within(old(shards)) ==> Within(shards)
    {
      CallKeeps(shards, numShardBits, capacity, strictCapacityLimit, s, op);
      shards := shards[s := Step(shards[s], op)];
    }

    /** The shard of a hash, with what is known of it. */
    method GetShard(hash: nat) returns (s: nat)
      requires Valid() && IsHash(hash)
      ensures s == ShardOf(numShardBits, hash) && s < |shards| && Good(shards[s]) && OwnLog(shards[s], numShardBits, s)
    {
      ShardInRange(numShardBits, hash);
      s := ShardOf(numShardBits, hash);
      assert ShardOk(shards, numShardBits, capacity, strictCapacityLimit, s);
    }

    /** The handle of an accepted value goes to a caller who wants it; a refused value leaves Incomplete. */
    method Insert(key: CacheKey, value: Value, charge: nat, highPri: bool, hold: bool)
      returns (status: Status, handle: Option<Handle>)
      requires Valid() && IsHash(key.hash)
      modifies `shards
      ensures Valid() && (strictCapacityLimit && Within(old(shards)) ==> Within(shards))
      ensures KeepsHolds(old(shards), shards, None, 0)
      ensures ShardOf(numShardBits, key.hash) < |old(shards)|
      ensures var s, made := ShardOf(numShardBits, key.hash), |old(shards)[ShardOf(numShardBits, key.hash)].log|;
              && Good(old(shards)[s])
              && Legal(old(shards)[s], InsertOp(made, key, value, charge, highPri, hold))
              && shards == old(shards)[s := Step(old(shards)[s], InsertOp(made, key, value, charge, highPri, hold))]
              && handle == (if hold && shards[s].log[made].fate.Accepted? then Some(Handle(s, made)) else None)
              && (handle.Some? ==> Held(handle.value)) && (status.Incomplete? <==> shards[s].log[made].fate.Refused?)
              && (shards[s].log[made].fate.Accepted? <==> Admits(old(shards)[s].shard, charge, hold))
    {
      var s := GetShard(key.hash);
      var made := |shards[s].log|;
      var op := InsertOp(made, key, value, charge, highPri, hold);
      InsertTells(shards[s], op);
      CallKeepsHolds(shards, s, op, None, 0);
      status := LruOps.Insert(shards[s].shard, made, NewEntry(key, value, charge, highPri, hold)).status;
      Call(s, op);
      handle := if hold && shards[s].log[made].fate.Accepted? then Some(Handle(s, made)) else None;
    }

    /** A hit is the latest accepted Insert of the key in the whole cache. */
    method Lookup(key: CacheKey) returns (handle: Option<Handle>)
      requires Valid() && IsHash(key.hash)
      modifies `shards
      ensures Valid() && (strictCapacityLimit && Within(old(shards)) ==> Within(shards))
      ensures KeepsHolds(old(shards), shards, handle, 1)
      ensures var s := ShardOf(numShardBits, key.hash);
              && s < |old(shards)| && Good(old(shards)[s])
              && shards == old(shards)[s := Step(old(shards)[s], LookupOp(key))]
              && (handle.Some? <==> key in old(shards)[s].shard.table)
      ensures handle.Some? ==> && Held(handle.value) && LatestInCache(shards, key, handle.value)
                               && EntryOf(shards, handle.value).value
                                  == shards[handle.value.shard].log[handle.value.e].value
    {
      var s := GetShard(key.hash);
      handle := if key in shards[s].shard.table then Some(Handle(s, shards[s].shard.table[key])) else None;
      if handle.Some? {
        LookupFinds(shards[s], key);
      }
      CallKeepsHolds(shards, s, LookupOp(key), handle, 1);
      Call(s, LookupOp(key));
      if handle.Some? {
        OnlyOwnShard(shards, numShardBits, capacity, strictCapacityLimit, key, handle.value);
      }
    }

    method Ref(h: Handle)
      requires Valid() && Held(h)
      modifies `shards
      ensures Valid() && (strictCapacityLimit && Within(old(shards)) ==> Within(shards))
      ensures Good(old(shards)[h.shard])
      ensures shards == old(shards)[h.shard := Step(old(shards)[h.shard], RefOp(h.e))]
      ensures KeepsHolds(old(shards), shards, Some(h), 1) && Held(h)
    {
      OwnerFound(h);
      var s := GetShard(GetHash(h));
      CallKeepsHolds(shards, s, RefOp(h.e), Some(h), 1);
      Call(s, RefOp(h.e));
    }

    /** True if and only if that runs the deleter of the value. */
    method Release(h: Handle, force: bool) returns (erased: bool)
      requires Valid() && Held(h)
      modifies `shards
      ensures Valid() && (strictCapacityLimit && Within(old(shards)) ==> Within(shards))
      ensures Good(old(shards)[h.shard])
      ensures shards == old(shards)[h.shard := Step(old(shards)[h.shard], ReleaseOp(h.e, force))]
      ensures KeepsHolds(old(shards), shards, Some(h), -1) && (erased <==> Gone(shards[h.shard].shard, h.e))
    {
      OwnerFound(h);
      var s := GetShard(GetHash(h));
      ReleaseTells(shards[s], h.e, force);
      CallKeepsHolds(shards, s, ReleaseOp(h.e, force), Some(h), -1);
      erased := ReleaseFrees(shards[s].shard, h.e, force);
      Call(s, ReleaseOp(h.e, force));
    }

    method Erase(key: CacheKey)
      requires Valid() && IsHash(key.hash)
      modifies `shards
      ensures Valid() && (strictCapacityLimit && Within(old(shards)) ==> Within(shards))
      ensures KeepsHolds(old(shards), shards, None, 0)
      ensures var s := ShardOf(numShardBits, key.hash);
              && s < |old(shards)| && Good(old(shards)[s])
              && shards == old(shards)[s := Step(old(shards)[s], EraseOp(key))] && key !in shards[s].shard.table
    {
      var s := GetShard(key.hash);
      EraseKeeps(shards[s].shard, key);
      CallKeepsHolds(shards, s, EraseOp(key), None, 0);
      Call(s, EraseOp(key));
    }

    /** The usage of all shards. */
    method GetUsage() returns (usage: nat)
      requires Valid()
      ensures usage == Sum(Usages(shards))
      ensures Within(shards) ==> usage <= capacity + Pow2(numShardBits) - 1
    {
      usage := 0;
      assert Usages(shards)[..0] == [];
      for s := 0 to |shards|
        invariant usage == Sum(Usages(shards)[..s])
      {
        UsagesNext(shards, numShardBits, capacity, strictCapacityLimit, s);
        usage := usage + shards[s].shard.usage;
      }
      assert Usages(shards)[..|shards|] == Usages(shards);
      GetUsageBound(shards, numShardBits, capacity, strictCapacityLimit);
    }

    /** Passes a call on to every shard. */
    method CallAll(op: Op<nat>)
      requires Valid() && Global(op)
      modifies `shards
      ensures AppliedUpTo(old(shards), shards, |shards|, op) && KeepsHolds(old(shards), shards, None, 0)
    {
      ghost var was := shards;
      for s := 0 to |shards|
        invariant |shards| == |was| && AppliedUpTo(was, shards, s, op)
      {
        assert ShardOk(was, numShardBits, capacity, strictCapacityLimit, s);
        ApplyNext(was, shards, s, op);
        shards := shards[s := Step(shards[s], op)];
      }
      AllAppliedKeepsHolds(was, shards, op);
    }

    /** Splits the capacity evenly, rounded up. */
    method SetCapacity(capacity: nat)
      requires Valid()
      modifies `shards, `capacity
      ensures Valid() && this.capacity == capacity && KeepsHolds(old(shards), shards, None, 0)
      ensures AppliedUpTo(old(shards), shards, |shards|, SetCapacityOp(PerShard(capacity, |shards|)))
    {
      ghost var was, cap := shards, this.capacity;
      var op := SetCapacityOp((capacity + (|shards| - 1)) / |shards|);
      CallAll(op);
      AllAppliedKeeps(was, shards, numShardBits, cap, capacity, strictCapacityLimit, op);
      this.capacity := capacity;
    }

    method SetStrictCapacityLimit(strict: bool)
      requires Valid()
      modifies `shards, `strictCapacityLimit
      ensures Valid() && strictCapacityLimit == strict && KeepsHolds(old(shards), shards, None, 0)
      ensures AppliedUpTo(old(shards), shards, |shards|, SetStrictOp(strict))
    {
      ghost var was := shards;
      CallAll(SetStrictOp(strict));
      AllAppliedKeeps(was, shards, numShardBits, capacity, capacity, strictCapacityLimit, SetStrictOp(strict));
      strictCapacityLimit := strict;
    }

    method EraseUnRefEntries()
      requires Valid()
      modifies `shards
      ensures Valid() && KeepsHolds(old(shards), shards, None, 0)
      ensures AppliedUpTo(old(shards), shards, |shards|, EraseUnRefOp)
    {
      ghost var was := shards;
      CallAll(EraseUnRefOp);
      AllAppliedKeeps(was, shards, numShardBits, capacity, capacity, strictCapacityLimit, EraseUnRefOp);
    }
  }
}
