/** Insert of the clock cache (cache/clock_cache.cc) as one call under the mutex, with no Ref in between: when
    it is accepted, what it leaves, what it returns, and that the interleaved protocol gets there. */
module ClockInsert {
  import opened ClockCache
  import opened ClockEviction

  function NewHandle(item: Item, stay: nat): Handle {
    Handle(item.key, item.value, item.charge, true, false, One(item.hold), stay)
  }

  /** The handle that Insert takes: the last of the bin, or a new one. */
  function TakenHandle(c: Shard): nat {
    if c.recycle != [] then c.recycle[|c.recycle| - 1] else |c.list|
  }

  function FillHandle(c: Shard, h: Handle): Shard
    requires c.recycle != [] ==> TakenHandle(c) < |c.list|
  {
    if c.recycle != [] then c.(list := c.list[TakenHandle(c) := h], recycle := c.recycle[..|c.recycle| - 1])
    else c.(list := c.list + [h])
  }

  /** UnsetInCache of handle j: it is recycled if nobody refers to it. */
  function UnsetHandle(c: Shard, j: nat): Shard
    requires j < |c.list| && (c.list[j].refs == 0 ==> c.list[j].charge <= c.usage)
  {
    var h := c.list[j].(inCache := false);
    if h.refs == 0 then
      c.(list := c.list[j := h.(key := CacheKey("", h.key.hash), value := "")], recycle := c.recycle + [j],
         usage := c.usage - h.charge)
    else c.(list := c.list[j := h])
  }

  /** The older entry of key k, if any, leaves. */
  ghost predicate CanReplace(c: Shard, k: CacheKey) {
    k in c.table ==> && c.table[k] < |c.list|
                     && (c.list[c.table[k]].refs == 0 ==> c.list[c.table[k]].charge <= c.usage)
  }

  function Replace(c: Shard, k: CacheKey): Shard
    requires CanReplace(c, k)
  {
    if k in c.table then UnsetHandle(c.(table := c.table - {k}), c.table[k]) else c
  }

  function EnterHandle(c: Shard, k: CacheKey, i: nat, charge: nat): Shard {
    c.(table := c.table[k := i], usage := c.usage + charge)
  }

  // ----- the accounts in between

  /** Handle i has been filled, and is neither in the table nor counted yet; the rest is in order. */
  ghost predicate Pending(c: Shard, i: nat) {
    && i < |c.list| && c.list[i].inCache && Binned(c.recycle, i) == 0
    && c.usage + c.list[i].charge == LiveCharge(c.list, c.recycle, |c.list|)
    && (forall j: nat {:trigger SlotOk(c, j)} :: j < |c.list| && j != i ==> SlotOk(c, j))
    && (forall k {:trigger TableEntryOk(c, k)} :: k in c.table ==> TableEntryOk(c, k) && c.table[k] != i)
    && (forall j: nat {:trigger Binned(c.recycle, j)} :: Binned(c.recycle, j) > 0 ==> j < |c.list|)
  }

  /** The last handle of the bin is there once. */
  lemma TakenIsBinned(c: Shard)
    requires ShardOk(c) && c.recycle != []
    ensures TakenHandle(c) < |c.list| && Binned(c.recycle, TakenHandle(c)) == 1
  {
    assert TakenHandle(c) in c.recycle;
    assert Binned(c.recycle, TakenHandle(c)) > 0;
    assert SlotOk(c, TakenHandle(c));
  }

  lemma ReusePends(c: Shard, h: Handle)
    requires ShardOk(c) && c.recycle != [] && h.inCache
    ensures TakenHandle(c) < |c.list| && Pending(FillHandle(c, h), TakenHandle(c))
  {
    TakenIsBinned(c);
    var i, c', n := TakenHandle(c), FillHandle(c, h), |c.recycle| - 1;
    assert SlotOk(c, i);
    assert c.recycle == c.recycle[..n] + [i];
    forall j: nat
      ensures Binned(c'.recycle, j) + One(i == j) == Binned(c.recycle, j)
    {
      BinnedAppend(c.recycle[..n], i, j);
    }
    LiveChargePoint(c.list, c.recycle, c'.list, c'.recycle, i, |c.list|);
    forall j: nat | j < |c'.list| && j != i
      ensures SlotOk(c', j)
    {
      assert SlotOk(c, j);
    }
    forall k | k in c'.table
      ensures TableEntryOk(c', k) && c'.table[k] != i
    {
      assert TableEntryOk(c, k);
    }
  }

  lemma GrowPends(c: Shard, h: Handle)
    requires ShardOk(c) && c.recycle == [] && h.inCache
    ensures Pending(FillHandle(c, h), TakenHandle(c))
  {
    var i, c' := TakenHandle(c), FillHandle(c, h);
    LiveChargeSame(c.list, c.recycle, c'.list, c'.recycle, |c.list|);
    forall j: nat | j < |c'.list| && j != i
      ensures SlotOk(c', j)
    {
      assert SlotOk(c, j);
    }
    forall k | k in c'.table
      ensures TableEntryOk(c', k) && c'.table[k] != i
    {
      assert TableEntryOk(c, k);
    }
  }

  lemma FillPends(c: Shard, h: Handle)
    requires ShardOk(c) && h.inCache
    ensures (c.recycle != [] ==> TakenHandle(c) < |c.list|) && Pending(FillHandle(c, h), TakenHandle(c))
  {
    if c.recycle != [] {
      ReusePends(c, h);
    } else {
      GrowPends(c, h);
    }
  }

  lemma PendingReplaces(c: Shard, i: nat, k: CacheKey)
    requires Pending(c, i)
    ensures CanReplace(c, k)
  {
    if k in c.table {
      assert TableEntryOk(c, k);
      var j := c.table[k];
      assert SlotOk(c, j);
      LiveChargeTwo(c.list, c.recycle, i, j, |c.list|);
    }
  }

  lemma UnsetAccounts(c: Shard, i: nat, j: nat)
    requires Pending(c, i) && j < |c.list| && j != i && c.list[j].inCache && Binned(c.recycle, j) == 0
    requires c.list[j].refs == 0 ==> c.list[j].charge <= c.usage
    ensures var c' := UnsetHandle(c, j);
            && c'.usage + c'.list[i].charge == LiveCharge(c'.list, c'.recycle, |c'.list|)
            && forall m: nat :: Binned(c'.recycle, m) == Binned(c.recycle, m) + One(m == j && c.list[j].refs == 0)
  {
    var c' := UnsetHandle(c, j);
    forall m: nat
      ensures Binned(c'.recycle, m) == Binned(c.recycle, m) + One(m == j && c.list[j].refs == 0)
    {
      BinnedAppend(c.recycle, j, m);
    }
    LiveChargePoint(c.list, c.recycle, c'.list, c'.recycle, j, |c.list|);
  }

  lemma ReplaceKeepsSlots(c: Shard, i: nat, k: CacheKey, m: nat)
    requires Pending(c, i) && CanReplace(c, k) && k in c.table && m < |c.list| && m != i
    ensures SlotOk(Replace(c, k), m)
  {
    var j := c.table[k];
    assert TableEntryOk(c, k) && SlotOk(c, j) && SlotOk(c, m);
    UnsetAccounts(c, i, j);
    assert Binned(Replace(c, k).recycle, m) == Binned(c.recycle, m) + One(m == j && c.list[j].refs == 0);
  }

  lemma ReplacePends(c: Shard, i: nat, k: CacheKey)
    requires Pending(c, i)
    ensures CanReplace(c, k) && Pending(Replace(c, k), i) && k !in Replace(c, k).table
    ensures Replace(c, k).list[i] == c.list[i]
  {
    PendingReplaces(c, i, k);
    if k in c.table {
      var j, c' := c.table[k], Replace(c, k);
      assert TableEntryOk(c, k) && SlotOk(c, j);
      UnsetAccounts(c, i, j);
      forall m: nat | m < |c'.list| && m != i
        ensures SlotOk(c', m)
      {
        ReplaceKeepsSlots(c, i, k, m);
      }
      forall k' | k' in c'.table
        ensures TableEntryOk(c', k') && c'.table[k'] != i
      {
        assert TableEntryOk(c, k');
      }
    }
  }

  lemma EnteredIsOk(c: Shard, i: nat)
    requires Pending(c, i) && c.list[i].key !in c.table
    ensures ShardOk(EnterHandle(c, c.list[i].key, i, c.list[i].charge))
  {
    var c' := EnterHandle(c, c.list[i].key, i, c.list[i].charge);
    forall j: nat | j < |c'.list|
      ensures SlotOk(c', j)
    {
      assert j != i ==> SlotOk(c, j);
    }
    forall k | k in c'.table
      ensures TableEntryOk(c', k)
    {
      assert k in c.table ==> TableEntryOk(c, k);
    }
  }

  /** What an accepted Insert makes of a shard in which room has been made. */
  ghost function Inserted(c: Shard, item: Item, stay: nat): (r: Shard)
    requires ShardOk(c)
    ensures ShardOk(r)
  {
    var h := NewHandle(item, stay);
    FillPends(c, h);
    var filled := FillHandle(c, h);
    ReplacePends(filled, TakenHandle(c), item.key);
    var replaced := Replace(filled, item.key);
    EnteredIsOk(replaced, TakenHandle(c));
    EnterHandle(replaced, item.key, TakenHandle(c), item.charge)
  }

  lemma InsertedSteps(c: Shard, item: Item, stay: nat)
    requires ShardOk(c)
    ensures c.recycle != [] ==> TakenHandle(c) < |c.list|
    ensures var i, filled := TakenHandle(c), FillHandle(c, NewHandle(item, stay));
            && Pending(filled, i) && CanReplace(filled, item.key) && Pending(Replace(filled, item.key), i)
            && Inserted(c, item, stay) == EnterHandle(Replace(filled, item.key), item.key, i, item.charge)
  {
    FillPends(c, NewHandle(item, stay));
    ReplacePends(FillHandle(c, NewHandle(item, stay)), TakenHandle(c), item.key);
  }

  lemma ReplaceTable(c: Shard, k: CacheKey, i: nat)
    requires CanReplace(c, k)
    ensures Replace(c, k).table[k := i] == c.table[k := i] && |Replace(c, k).list| == |c.list|
  {
    assert (c.table - {k})[k := i] == c.table[k := i];
  }

  /** Its key leads to its handle, with what was given for it, and every other key is as before. */
  lemma InsertedIs(c: Shard, item: Item, stay: nat)
    requires ShardOk(c)
    ensures var r, i := Inserted(c, item, stay), TakenHandle(c);
            && i < |r.list| && |c.list| <= |r.list| && r.table == c.table[item.key := i]
            && r.list[i] == Handle(item.key, item.value, item.charge, true, false, if item.hold then 1 else 0, stay)
  {
    InsertedSteps(c, item, stay);
    var filled := FillHandle(c, NewHandle(item, stay));
    ReplaceTable(filled, item.key, TakenHandle(c));
    ReplacePends(filled, TakenHandle(c), item.key);
  }

  /** Every other handle is as before, but for the older entry of the key. */
  lemma InsertedSpares(c: Shard, item: Item, stay: nat, j: nat)
    requires ShardOk(c) && j < |c.list| && j != TakenHandle(c) && !(item.key in c.table && c.table[item.key] == j)
    ensures j < |Inserted(c, item, stay).list| && Inserted(c, item, stay).list[j] == c.list[j]
  {
    InsertedSteps(c, item, stay);
  }

  /** That one has lost its in-cache bit, and is in the bin if nobody refers to it. */
  lemma InsertedRetires(c: Shard, item: Item, stay: nat)
    requires ShardOk(c) && item.key in c.table
    ensures var r, j := Inserted(c, item, stay), c.table[item.key];
            && j < |c.list| && j < |r.list| && !r.list[j].inCache && r.list[j].refs == c.list[j].refs
            && Binned(r.recycle, j) == if c.list[j].refs == 0 then 1 else 0
  {
    InsertedSteps(c, item, stay);
    var i, j, filled := TakenHandle(c), c.table[item.key], FillHandle(c, NewHandle(item, stay));
    assert TableEntryOk(c, item.key) && TableEntryOk(filled, item.key) && SlotOk(filled, j);
    UnsetAccounts(filled, i, j);
    assert Binned(Replace(filled, item.key).recycle, j) == Binned(filled.recycle, j) + One(filled.list[j].refs == 0);
  }

  // ----- Insert within the protocol

  lemma FillReached(s: State) returns (s': State)
    requires Reachable(s) && s.lock.Taken? && Quiet(s) && s.lock.task.wanted.Some?
    requires Admits(s, s.lock.task.wanted.value)
    ensures ShardOk(ShardIn(s)) && Reachable(s') && s'.threads == s.threads
    ensures var c, item := ShardIn(s), s.lock.task.wanted.value;
            && (c.recycle != [] ==> TakenHandle(c) < |c.list|)
            && ShardIn(s') == FillHandle(c, NewHandle(item, |s.inserted|))
            && s'.lock == s.lock.(task := Publish(TakenHandle(c), item))
            && s'.capacity == s.capacity && s'.strict == s.strict
  {
    ReachableInv(s);
    ReachableShardOk(s);
    if s.recycle != [] {
      TakenIsBinned(ShardIn(s));
    }
    s' := ReachableStep(s, s.lock.owner, Fill);
  }

  lemma ReplaceReached(s: State) returns (s': State)
    requires Reachable(s) && s.lock.Taken? && s.lock.chore.Nothing? && s.lock.task.Publish?
    ensures CanReplace(ShardIn(s), s.lock.task.item.key) && Reachable(s') && s'.threads == s.threads
    ensures var i, item := s.lock.task.i, s.lock.task.item;
            && ShardIn(s') == Replace(ShardIn(s), item.key)
            && s'.lock == s.lock.(task := Enter(i, item)) && s'.capacity == s.capacity && s'.strict == s.strict
  {
    ReachableInv(s);
    var t, k := s.lock.owner, s.lock.task.item.key;
    s' := ReachableStep(s, t, Proceed);
    if k in s.table {
      assert EntryOk(s, k);
      s' := UnsetReached(s', s.table[k]);
    }
  }

  lemma UnsetReached(s: State, j: nat) returns (s': State)
    requires Reachable(s) && s.lock.Taken? && s.lock.owner < |s.threads| && s.lock.chore == Unset(j)
    requires j < |s.handles| && s.handles[j].inCache
    ensures s.handles[j].refs == 0 ==> s.handles[j].charge <= s.usage
    ensures Reachable(s') && s'.threads == s.threads && s'.lock == s.lock.(chore := Nothing)
    ensures s'.capacity == s.capacity && s'.strict == s.strict && ShardIn(s') == UnsetHandle(ShardIn(s), j)
  {
    s' := ReachableStep(s, s.lock.owner, Proceed);
    if s.handles[j].refs == 0 {
      s' := ReachableStep(s', s.lock.owner, Proceed);
    }
  }

  lemma EnterReached(s: State) returns (s': State)
    requires Reachable(s) && s.lock.Taken? && s.lock.chore.Nothing? && s.lock.task.Enter?
    ensures Reachable(s') && s'.lock.Free? && s'.capacity == s.capacity && s'.strict == s.strict
    ensures var i, item := s.lock.task.i, s.lock.task.item;
            ShardIn(s') == EnterHandle(ShardIn(s), item.key, i, item.charge)
  {
    ReachableInv(s);
    s' := ReachableStep(s, s.lock.owner, Proceed);
    s' := ReachableStep(s', s.lock.owner, Proceed);
  }

  /** The protocol gets where Insert gets: from a state with the mutex free, by way of the scan that made
      room, to one with the mutex free again. */
  lemma InsertReached(s: State, t: nat, item: Item, trace: seq<Shard>, head: nat) returns (s': State)
    requires Reachable(s) && Ready(s, t, StartInsert(item)) && Traced(trace, head) && trace[0] == ShardIn(s)
    requires var c := trace[|trace| - 1]; c.usage + item.charge <= s.capacity || (!s.strict && item.hold)
    ensures Reachable(s') && s'.lock.Free? && s'.capacity == s.capacity && s'.strict == s.strict
    ensures var c := trace[|trace| - 1]; ShardOk(c) && ShardIn(s') == Inserted(c, item, |s.inserted|)
  {
    s' := ReachableStep(s, t, StartInsert(item));
    s' := ScanReached(s', trace, head, |trace| - 1);
    s' := AcceptReached(s');
  }

  lemma AcceptReached(s: State) returns (s': State)
    requires Reachable(s) && s.lock.Taken? && Quiet(s) && s.lock.task.wanted.Some?
    requires Admits(s, s.lock.task.wanted.value)
    ensures Reachable(s') && s'.lock.Free? && s'.capacity == s.capacity && s'.strict == s.strict
    ensures ShardOk(ShardIn(s))
    ensures ShardIn(s') == Inserted(ShardIn(s), s.lock.task.wanted.value, |s.inserted|)
  {
    ReachableShardOk(s);
    InsertedSteps(ShardIn(s), s.lock.task.wanted.value, |s.inserted|);
    s' := FillReached(s);
    s' := ReplaceReached(s');
    s' := EnterReached(s');
  }
}
