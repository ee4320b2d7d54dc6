/** ClockCacheShard (cache/clock_cache.cc) as a class, for the mutex holder with no Ref in between. */
module ClockShard {
  import opened ClockCache
  import opened ClockEviction
  import opened ClockInsert
  import opened Wrappers

  datatype Status = OkStatus | OkOverwritten | Incomplete

  class ClockCacheShard {
    var list: seq<Handle>
    var recycle: seq<nat>
    var table: map<CacheKey, nat>
    var usage: nat
    var capacity: nat
    var head: nat
    var strictCapacityLimit: bool

    ghost function Contents(): Shard
      reads this
    {
      Shard(list, recycle, table, usage)
    }

    ghost predicate Valid()
      reads this
    {
      ShardOk(Contents()) && if list == [] then head == 0 else head < |list|
    }

    constructor (capacity: nat, strict: bool)
      ensures Valid() && Contents() == Shard([], [], map[], 0)
      ensures this.capacity == capacity && strictCapacityLimit == strict
    {
      list, recycle, table, usage, head := [], [], map[], 0, 0;
      this.capacity, strictCapacityLimit := capacity, strict;
    }

    /** Gives the handle to the recycle bin. */
    method RecycleHandle(i: nat)
      requires i < |list| && FreeHandle(list[i]) && list[i].charge <= usage
      modifies `list, `recycle, `usage
      ensures list == old(list)[i := old(list[i]).(key := CacheKey("", old(list[i]).key.hash), value := "")]
      ensures recycle == old(recycle) + [i] && usage + list[i].charge == old(usage)
    {
      var h := list[i];
      list := list[i := h.(key := CacheKey("", h.key.hash), value := "")];
      recycle := recycle + [i];
      usage := usage - h.charge;
    }

    method TryEvict(i: nat) returns (evicted: bool)
      requires Valid() && i < |list|
      modifies `list, `recycle, `table, `usage
      ensures Valid() && |list| == |old(list)| && TriesToEvict(old(Contents()), i, Contents())
      ensures evicted == old(Evictable(list[i]) && !list[i].usage)
    {
      var h := list[i];
      if h.inCache && !h.usage && h.refs == 0 {
        EvictSlotKeeps(Contents(), i);
        list := list[i := h.(inCache := false)];
        assert h.key in table;
        table := table - {h.key};
        RecycleHandle(i);
        assert list == old(list)[i := Evicted(h)];
        evicted := true;
      } else {
        UnmarkKeeps(Contents(), i);
        list := list[i := h.(usage := false)];
        evicted := false;
      }
    }

    /** Moves the hand until charge fits. The handles evicted are those whose turn came before the hand
        stopped; it stops as soon as charge fits, and gives up at the end of the second round, when
        nothing evictable is left. trace is the states it went through. */
    method EvictFromCache(charge: nat) returns (ok: bool, ghost trace: seq<Shard>)
      requires Valid()
      modifies `list, `recycle, `table, `usage, `head
      ensures Valid() && |list| == |old(list)| && (ok ==> usage + charge <= capacity)
      ensures Verdict(old(Contents()), old(head), charge, capacity, ok)
      ensures trace != [] && trace[0] == old(Contents()) && trace[|trace| - 1] == Contents()
      ensures old(usage) == 0 ==> |trace| == 1 && head == old(head)
      ensures old(usage) > 0 ==> Traced(trace, old(head))
      ensures old(usage) > 0 ==>
                Outcome(old(Contents()), Contents(), old(head), head, |trace| - 1, charge, capacity, ok)
    {
      if usage == 0 {
        EmptyVerdict(Contents(), head, charge, capacity);
        return charge <= capacity, [Contents()];
      }
      ok, trace := Scan(charge);
    }

    /** One turn of the loop: tries the handle at the hand and moves the hand on. */
    method MoveHand(newHead: nat, charge: nat, ghost was: Shard, ghost steps: nat, ghost trace: seq<Shard>)
      returns (next: nat, ghost trace': seq<Shard>)
      requires Valid() && |list| == |was.list| && head < |list| && steps < 2 * |list| && newHead < |list|
      requires Tracing(trace, was, Contents(), head, newHead, steps)
      requires Sweeping(was, Contents(), head, steps, charge, capacity) && usage + charge > capacity
      modifies `list, `recycle, `table, `usage
      ensures Valid() && |list| == |was.list| && next < |list|
      ensures Tracing(trace', was, Contents(), head, next, steps + 1)
      ensures Sweeping(was, Contents(), head, steps + 1, charge, capacity)
      ensures next == head <==> steps + 1 == |list| || steps + 1 == 2 * |list|
    {
      ghost var before := Contents();
      var evicted := TryEvict(newHead);
      TraceAdvances(trace, was, before, head, newHead, steps, Contents());
      SweepAdvances(was, before, head, steps, Contents(), charge, capacity);
      next, trace' := if newHead + 1 >= |list| then 0 else newHead + 1, trace + [Contents()];
    }

    /** The loop of EvictFromCache. */
    method Scan(charge: nat) returns (ok: bool, ghost trace: seq<Shard>)
      requires Valid() && list != []
      modifies `list, `recycle, `table, `usage, `head
      ensures Valid() && |list| == |old(list)| && (ok ==> usage + charge <= capacity)
      ensures Traced(trace, old(head)) && trace[0] == old(Contents()) && trace[|trace| - 1] == Contents()
      ensures Outcome(old(Contents()), Contents(), old(head), head, |trace| - 1, charge, capacity, ok)
    {
      ghost var was, steps := Contents(), 0;
      trace := [was];
      var newHead: nat := head;
      var secondIteration := false;
      SweepStarts(was, head, charge, capacity);
      while usage + charge > capacity
        invariant Valid() && head == old(head) && |list| == |was.list| && newHead < |list| && steps < 2 * |list|
        invariant Tracing(trace, was, Contents(), head, newHead, steps) && secondIteration == (steps >= |list|)
        invariant Sweeping(was, Contents(), head, steps, charge, capacity)
        decreases 2 * |list| - steps
      {
        newHead, trace := MoveHand(newHead, charge, was, steps, trace);
        steps := steps + 1;
        if newHead == head {
          if secondIteration {
            SweepGivesUp(was, Contents(), head, steps, charge, capacity);
            return false, trace;
          }
          secondIteration := true;
        }
      }
      SweepFits(was, Contents(), head, steps, charge, capacity);
      head := newHead;
      ok := true;
    }

    /** What EvictFromCache does at the new capacity, for no further charge. */
    method SetCapacity(capacity: nat) returns (ghost trace: seq<Shard>)
      requires Valid()
      modifies `list, `recycle, `table, `usage, `head, `capacity
      ensures Valid() && this.capacity == capacity && |list| == |old(list)|
      ensures usage <= capacity || NothingLeft(list)
      ensures trace != [] && trace[0] == old(Contents()) && trace[|trace| - 1] == Contents()
      ensures old(usage) == 0 ==> |trace| == 1 && head == old(head)
      ensures old(usage) > 0 ==> Traced(trace, old(head))
      ensures old(usage) > 0 ==>
                var ok := PinnedCharge(old(Contents())) <= capacity
                          && !RefusesThoughItFits(old(Contents()), old(head), 0, capacity);
                Outcome(old(Contents()), Contents(), old(head), head, |trace| - 1, 0, capacity, ok)
    {
      this.capacity := capacity;
      var ok;
      ok, trace := EvictFromCache(0);
    }

    // ----- Insert

    /** Takes the last handle of the bin, or a new one, and fills it. */
    method TakeAndFill(item: Item, stay: nat) returns (i: nat)
      requires Valid()
      modifies `list, `recycle
      ensures i == TakenHandle(old(Contents())) && (old(recycle) != [] ==> i < |old(list)|)
      ensures Contents() == FillHandle(old(Contents()), NewHandle(item, stay)) && Pending(Contents(), i)
    {
      FillPends(Contents(), NewHandle(item, stay));
      var h := Handle(item.key, item.value, item.charge, true, false, if item.hold then 1 else 0, stay);
      if recycle != [] {
        i := recycle[|recycle| - 1];
        recycle := recycle[..|recycle| - 1];
        list := list[i := h];
      } else {
        i := |list|;
        list := list + [h];
      }
    }

    /** Clears the in-cache bit of a handle, and recycles it if nobody refers to it. */
    method UnsetInCache(j: nat)
      requires j < |list| && list[j].inCache && (list[j].refs == 0 ==> list[j].charge <= usage)
      modifies `list, `recycle, `usage
      ensures Contents() == UnsetHandle(old(Contents()), j)
    {
      var h := list[j];
      list := list[j := h.(inCache := false)];
      if h.refs == 0 {
        RecycleHandle(j);
        assert list == old(list)[j := h.(inCache := false, key := CacheKey("", h.key.hash), value := "")];
      }
    }

    /** The older entry of the key of handle i, which has just been filled, leaves. */
    method ReplaceOlder(k: CacheKey, ghost i: nat) returns (overwritten: bool)
      requires Pending(Contents(), i) && k == list[i].key
      modifies `list, `recycle, `table, `usage
      ensures CanReplace(old(Contents()), k) && Contents() == Replace(old(Contents()), k)
      ensures Pending(Contents(), i) && list[i] == old(list[i]) && k !in table && overwritten == (k in old(table))
    {
      ReplacePends(Contents(), i, k);
      overwritten := k in table;
      if overwritten {
        assert TableEntryOk(Contents(), k);
        var existing := table[k];
        table := table - {k};
        UnsetInCache(existing);
      }
    }

    /** What Insert does once it has decided to accept. */
    method Accept(item: Item, stay: nat) returns (i: nat, overwritten: bool)
      requires Valid()
      modifies `list, `recycle, `table, `usage
      ensures Valid() && ShardOk(old(Contents())) && Contents() == Inserted(old(Contents()), item, stay)
      ensures i == TakenHandle(old(Contents())) && overwritten == (item.key in old(table))
    {
      ghost var c := Contents();
      InsertedSteps(c, item, stay);
      InsertedIs(c, item, stay);
      i := TakeAndFill(item, stay);
      overwritten := ReplaceOlder(item.key, i);
      EnterAndCount(i);
    }

    /** The filled handle goes into the table, and its charge is counted. */
    method EnterAndCount(i: nat)
      requires Pending(Contents(), i) && list[i].key !in table && (if list == [] then head == 0 else head < |list|)
      modifies `table, `usage
      ensures Valid() && Contents() == EnterHandle(old(Contents()), list[i].key, i, list[i].charge)
    {
      EnteredIsOk(Contents(), i);
      table := table[list[i].key := i];
      usage := usage + list[i].charge;
    }

    /** Makes room and puts the item in. It is accepted, and its handle returned, exactly if it fits beside
        what cannot be evicted, but for the one case in which the scan does not notice, or if the limit is
        not strict and the caller wants a reference. */
    method Insert(item: Item, stay: nat) returns (handle: Option<nat>, overwritten: bool, ghost trace: seq<Shard>)
      requires Valid()
      modifies `list, `recycle, `table, `usage, `head
      ensures Valid()
      ensures handle.Some? <==> || (!strictCapacityLimit && item.hold)
                                || (PinnedCharge(old(Contents())) + item.charge <= capacity
                                    && !RefusesThoughItFits(old(Contents()), old(head), item.charge, capacity))
      ensures trace != [] && trace[0] == old(Contents()) && (old(usage) > 0 ==> Traced(trace, old(head)))
      ensures old(usage) == 0 ==> |trace| == 1
      ensures var c := trace[|trace| - 1];
              && ShardOk(c) && overwritten == (handle.Some? && item.key in c.table)
              && if handle.Some? then handle.value == TakenHandle(c) && Contents() == Inserted(c, item, stay)
                 else Contents() == c
    {
      overwritten := false;
      var success;
      success, trace := EvictFromCache(item.charge);
      if !success && (strictCapacityLimit || !item.hold) {
        return None, false, trace;
      }
      var i;
      i, overwritten := Accept(item, stay);
      handle := Some(i);
    }

    /** The public Insert: Incomplete exactly if a reference was wanted and the item refused, OkOverwritten
        exactly if an older entry of the key was still there when it was accepted; a reference is
        handed out exactly if it was wanted and the item accepted. */
    method InsertAndReport(item: Item, stay: nat)
      returns (status: Status, out: Option<nat>, ghost accepted: bool, ghost trace: seq<Shard>)
      requires Valid()
      modifies `list, `recycle, `table, `usage, `head
      ensures Valid()
      ensures accepted <==> || (!strictCapacityLimit && item.hold)
                            || (PinnedCharge(old(Contents())) + item.charge <= capacity
                                && !RefusesThoughItFits(old(Contents()), old(head), item.charge, capacity))
      ensures trace != [] && trace[0] == old(Contents()) && (old(usage) > 0 ==> Traced(trace, old(head)))
      ensures status.OkOverwritten? <==> accepted && item.key in trace[|trace| - 1].table
      ensures status.Incomplete? <==> item.hold && !accepted
      ensures out.Some? <==> item.hold && accepted
      ensures accepted ==> && item.key in table && table[item.key] < |list|
                           && list[table[item.key]] == NewHandle(item, stay)
      ensures out.Some? ==> item.key in table && out.value == table[item.key]
    {
      var handle, overwritten;
      handle, overwritten, trace := Insert(item, stay);
      accepted := handle.Some?;
      if handle.Some? {
        InsertedIs(trace[|trace| - 1], item, stay);
      }
      out, status := None, OkStatus;
      if item.hold {
        if handle.None? {
          status := Incomplete;
        } else {
          out := handle;
        }
      }
      if overwritten {
        assert status == OkStatus;
        status := OkOverwritten;
      }
    }
  }
}
