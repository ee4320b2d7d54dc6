/** Lookup of the clock cache (cache/clock_cache.cc) over runs: it finds a handle in the table, refers to it
    later and checks the key later still, while other threads remove, evict and reuse handles. */
module ClockLookup {
  import opened ClockCache
  import opened ClockRuns

  /** The table leads from key k to handle i in its occupancy d. */
  predicate EntryIs(s: State, k: CacheKey, i: nat, d: nat) {
    k in s.table && s.table[k] == i && i < |s.handles| && s.handles[i].stay == d
  }

  /** At some moment of the run it did. */
  predicate WasEntry(s: State, moves: seq<Move>, k: CacheKey, i: nat, d: nat)
    decreases |moves|
  {
    || EntryIs(s, k, i, d)
    || (moves != [] &&
        var t, a := moves[0].thread, moves[0].action;
        if !Ready(s, t, a) then WasEntry(s, moves[1..], k, i, d)
        else Safe(s, t, a) && WasEntry(Step(s, t, a), moves[1..], k, i, d))
  }

  /** At some moment of the run the table had no entry for k. */
  predicate WasMissing(s: State, moves: seq<Move>, k: CacheKey)
    decreases |moves|
  {
    || k !in s.table
    || (moves != [] &&
        var t, a := moves[0].thread, moves[0].action;
        if !Ready(s, t, a) then WasMissing(s, moves[1..], k)
        else Safe(s, t, a) && WasMissing(Step(s, t, a), moves[1..], k))
  }

  /** An Insert has filled handle i and has not yet entered it in the table. */
  predicate Publishing(s: State, i: nat) {
    s.lock.Taken? && (s.lock.task.Publish? || s.lock.task.Enter?) && s.lock.task.i == i
  }

  // ----- one step

  /** How a step changes the entry of k, and how an Insert into handle i goes on. */
  predicate NextEntry(s: State, k: CacheKey, i: nat, s': State)
    requires i < |s.handles| && i < |s'.handles|
  {
    && (k in s.table && k in s'.table ==> s'.table[k] == s.table[k])
    && (if s'.handles[i].stay == s.handles[i].stay then
          && (Publishing(s', i) ==> Publishing(s, i))
          && (Publishing(s, i) && !Publishing(s', i) ==> EntryIs(s', s.handles[i].key, i, s.handles[i].stay))
        else Publishing(s', i))
  }

  lemma StepEntry(s: State, t: nat, a: Action, k: CacheKey, i: nat)
    requires Inv(s) && Ready(s, t, a) && Safe(s, t, a) && i < |s.handles|
    ensures i < |Step(s, t, a).handles| && NextEntry(s, k, i, Step(s, t, a))
  {
    StepStays(s, t, a, i);
    match a
    case Proceed => ProceedEntry(s, t, k, i);
    case Fill => FillEntry(s, t, k, i);
    case StartInsert(_) | Resize(_) | Erase(_) | StartClear | TryEvict(_) | GiveUp => LockEntry(s, t, a, k, i);
    case _ =>
  }

  lemma LockEntry(s: State, t: nat, a: Action, k: CacheKey, i: nat)
    requires LockOk(s) && Ready(s, t, a) && Safe(s, t, a) && i < |s.handles|
    requires a.StartInsert? || a.Resize? || a.Erase? || a.StartClear? || a.TryEvict? || a.GiveUp?
    ensures i < |Step(s, t, a).handles| && NextEntry(s, k, i, Step(s, t, a))
  {
  }

  lemma ProceedEntry(s: State, t: nat, k: CacheKey, i: nat)
    requires LockOk(s) && Ready(s, t, Proceed) && Safe(s, t, Proceed) && i < |s.handles|
    ensures i < |Step(s, t, Proceed).handles| && NextEntry(s, k, i, Step(s, t, Proceed))
  {
    if s.lock.chore.Nothing? {
      TaskEntry(s, t, k, i);
    }
  }

  lemma TaskEntry(s: State, t: nat, k: CacheKey, i: nat)
    requires LockOk(s) && Ready(s, t, Proceed) && Safe(s, t, Proceed) && i < |s.handles| && s.lock.chore.Nothing?
    ensures i < |Step(s, t, Proceed).handles| && NextEntry(s, k, i, Step(s, t, Proceed))
  {
  }

  lemma FillEntry(s: State, t: nat, k: CacheKey, i: nat)
    requires Inv(s) && Ready(s, t, Fill) && Safe(s, t, Fill) && i < |s.handles|
    ensures i < |Step(s, t, Fill).handles| && NextEntry(s, k, i, Step(s, t, Fill))
  {
    assert HandleOk(s, i);
  }

  /** An entry of the table is not one being put in. */
  lemma EntryIsPublished(s: State, k: CacheKey, i: nat, d: nat)
    requires Inv(s) && EntryIs(s, k, i, d)
    ensures !Publishing(s, i)
  {
    assert EntryOk(s, k);
  }

  // ----- runs

  lemma {:induction false} RunStays(s: State, moves: seq<Move>)
    requires Inv(s)
    ensures Execute(s, moves).Some? && Inv(Execute(s, moves).value)
    ensures s.inserted <= Execute(s, moves).value.inserted && |s.handles| <= |Execute(s, moves).value.handles|
    decreases |moves|
  {
    if moves != [] {
      var t, a := moves[0].thread, moves[0].action;
      if Ready(s, t, a) {
        StepKeeps(s, t, a);
        StepStays(s, t, a, 0);
        RunStays(Step(s, t, a), moves[1..]);
      } else {
        RunStays(s, moves[1..]);
      }
    }
  }

  /** If handle i ends up in the cache under key k, then its occupancy was the entry of k at some moment of
      the run, or of the past before it, unless it is still being put in. */
  lemma {:induction false} CachedWasEntry(s: State, moves: seq<Move>, k: CacheKey, i: nat, past: set<nat>)
    requires Inv(s) && i < |s.handles|
    requires s.handles[i].inCache && s.handles[i].key == k ==>
               s.handles[i].stay in past || EntryIs(s, k, i, s.handles[i].stay) || Publishing(s, i)
    ensures Execute(s, moves).Some? && i < |Execute(s, moves).value.handles|
    ensures var u := Execute(s, moves).value;
            u.handles[i].inCache && u.handles[i].key == k ==>
              u.handles[i].stay in past || WasEntry(s, moves, k, i, u.handles[i].stay) || Publishing(u, i)
    decreases |moves|
  {
    if moves != [] {
      var t, a := moves[0].thread, moves[0].action;
      if Ready(s, t, a) {
        StepKeeps(s, t, a);
        StepStays(s, t, a, i);
        StepEntry(s, t, a, k, i);
        assert HandleOk(s, i);
        var d := s.handles[i].stay;
        CachedWasEntry(Step(s, t, a), moves[1..], k, i, if EntryIs(s, k, i, d) then past + {d} else past);
      } else {
        CachedWasEntry(s, moves[1..], k, i, past);
      }
    }
  }

  /** An occupancy is put in once. */
  lemma {:induction false} PublishedForGood(s: State, moves: seq<Move>, i: nat)
    requires Inv(s) && i < |s.handles| && !Publishing(s, i)
    ensures Execute(s, moves).Some? && i < |Execute(s, moves).value.handles|
    ensures var u := Execute(s, moves).value; u.handles[i].stay == s.handles[i].stay ==> !Publishing(u, i)
    decreases |moves|
  {
    RunStays(s, moves);
    if moves != [] {
      var t, a := moves[0].thread, moves[0].action;
      if Ready(s, t, a) {
        StepKeeps(s, t, a);
        StepReplaces(s, t, a, i);
        StepEntry(s, t, a, CacheKey("", 0), i);
        if Step(s, t, a).handles[i].stay == s.handles[i].stay {
          PublishedForGood(Step(s, t, a), moves[1..], i);
        } else {
          OverForGood(Step(s, t, a), moves[1..], s.handles[i].stay, i);
        }
      } else {
        PublishedForGood(s, moves[1..], i);
      }
    }
  }

  lemma {:induction false} EntryWasPublished(s: State, moves: seq<Move>, k: CacheKey, i: nat)
    requires Inv(s) && Execute(s, moves).Some? && i < |Execute(s, moves).value.handles|
    requires WasEntry(s, moves, k, i, Execute(s, moves).value.handles[i].stay)
    ensures !Publishing(Execute(s, moves).value, i)
    decreases |moves|
  {
    var d := Execute(s, moves).value.handles[i].stay;
    if EntryIs(s, k, i, d) {
      EntryIsPublished(s, k, i, d);
      PublishedForGood(s, moves, i);
    } else {
      var t, a := moves[0].thread, moves[0].action;
      if Ready(s, t, a) {
        StepKeeps(s, t, a);
        EntryWasPublished(Step(s, t, a), moves[1..], k, i);
      } else {
        EntryWasPublished(s, moves[1..], k, i);
      }
    }
  }

  /** The entry of a key is replaced only by way of a moment without entry. */
  lemma {:induction false} EntryStays(s: State, moves: seq<Move>, k: CacheKey)
    requires Inv(s) && k in s.table
    ensures Execute(s, moves).Some?
    ensures var u := Execute(s, moves).value; WasMissing(s, moves, k) || (k in u.table && u.table[k] == s.table[k])
    decreases |moves|
  {
    if moves != [] {
      var t, a := moves[0].thread, moves[0].action;
      if Ready(s, t, a) {
        StepKeeps(s, t, a);
        assert EntryOk(s, k);
        StepEntry(s, t, a, k, s.table[k]);
        var s' := Step(s, t, a);
        if k in s'.table {
          EntryStays(s', moves[1..], k);
        } else {
          RunStays(s', moves[1..]);
          assert WasMissing(s', moves[1..], k);
        }
      } else {
        EntryStays(s, moves[1..], k);
      }
    }
  }

  // ----- Lookup

  predicate NotBy(moves: seq<Move>, t: nat) {
    forall j :: 0 <= j < |moves| ==> moves[j].thread != t
  }

  lemma {:induction false} ThreadWaits(s: State, moves: seq<Move>, t: nat)
    requires Inv(s) && NotBy(moves, t) && t < |s.threads| && !s.threads[t].Idle?
    ensures Execute(s, moves).Some?
    ensures var u := Execute(s, moves).value; t < |u.threads| && u.threads[t] == s.threads[t]
    decreases |moves|
  {
    if moves != [] {
      var v, a := moves[0].thread, moves[0].action;
      assert v != t;
      if Ready(s, v, a) {
        StepKeeps(s, v, a);
        StepThreads(s, v, a);
        ThreadWaits(Step(s, v, a), moves[1..], t);
      } else {
        ThreadWaits(s, moves[1..], t);
      }
    }
  }

  /** Handle i is in the cache, filled under key k. */
  predicate Hits(s: State, i: nat, k: CacheKey) {
    && i < |s.handles| && s.handles[i].inCache
    && s.handles[i].stay < |s.inserted| && s.inserted[s.handles[i].stay].key == k
  }

  lemma HitsHasKey(s: State, i: nat, k: CacheKey)
    requires Inv(s) && i < |s.handles|
    ensures Hits(s, i, k) <==> s.handles[i].inCache && s.handles[i].key == k
  {
    assert HandleOk(s, i);
  }

  /** Thread t has found handle i under key k at the start of the run, and refers to it at its end. If it
      then hits, the occupancy it hits was the entry of k at some moment in between, exactly unless an
      Insert is still putting it in. If it does not, the table had no entry for k at some moment in
      between, or the handle is just being evicted. */
  lemma FoundIsExplained(s: State, t: nat, moves: seq<Move>)
    requires Inv(s) && t < |s.threads| && s.threads[t].Found? && NotBy(moves, t)
    requires var k := s.threads[t].want; k in s.table && s.table[k] == s.threads[t].i
    ensures Execute(s, moves).Some?
    ensures var u, i, k := Execute(s, moves).value, s.threads[t].i, s.threads[t].want;
            && Inv(u) && t < |u.threads| && u.threads[t] == s.threads[t] && i < |u.handles|
            && (Hits(u, i, k) ==> (WasEntry(s, moves, k, i, u.handles[i].stay) <==> !Publishing(u, i)))
            && (!Hits(u, i, k) ==> WasMissing(s, moves, k) || Erasing(u.lock, i))
  {
    var i, k := s.threads[t].i, s.threads[t].want;
    assert EntryOk(s, k);
    ThreadWaits(s, moves, t);
    RunStays(s, moves);
    CachedWasEntry(s, moves, k, i, {});
    EntryStays(s, moves, k);
    var u := Execute(s, moves).value;
    HitsHasKey(u, i, k);
    if WasEntry(s, moves, k, i, u.handles[i].stay) {
      EntryWasPublished(s, moves, k, i);
    }
    if k in u.table && u.table[k] == i {
      assert EntryOk(u, k);
    }
  }

  /** Ref and the check of the key turn exactly such a hit into a handle for the caller, whatever others do
      between the two. */
  lemma HitIsReturned(u: State, t: nat, moves: seq<Move>)
    requires Inv(u) && t < |u.threads| && u.threads[t].Found? && NotBy(moves, t)
    ensures Ready(u, t, TryRef) && Safe(u, t, TryRef)
    ensures var i, k, r := u.threads[t].i, u.threads[t].want, Step(u, t, TryRef);
            && i < |u.handles| && (r.threads[t].Idle? <==> !u.handles[i].inCache)
            && (u.handles[i].inCache ==>
                  && Execute(r, moves).Some?
                  && var v := Execute(r, moves).value;
                     && Ready(v, t, CheckKey) && Safe(v, t, CheckKey) && v.threads[t].stay == u.handles[i].stay
                     && (Step(v, t, CheckKey).threads[t].Holding? <==> Hits(u, i, k)))
  {
    StepKeeps(u, t, TryRef);
    var i, k, r := u.threads[t].i, u.threads[t].want, Step(u, t, TryRef);
    assert HandleOk(u, i);
    if u.handles[i].inCache {
      ThreadWaits(r, moves, t);
      RunStays(r, moves);
      var v := Execute(r, moves).value;
      StepKeeps(v, t, CheckKey);
      ReferencedIsLive(v, t);
      assert ThreadOk(v, t) && HandleOk(v, i);
    }
  }

  /** A Lookup from its Find to its return, with any moves of others in between: it is explained by the
      table, at some moment between Find and Ref, except in two cases, an Insert that is still putting
      the entry in and an eviction that has not yet taken it out. */
  lemma LookupIsExplained(s: State, t: nat, k: CacheKey, moves: seq<Move>, later: seq<Move>)
    requires Reachable(s) && Ready(s, t, Find(k)) && NotBy(moves, t) && NotBy(later, t)
    ensures Safe(s, t, Find(k))
    ensures k !in s.table ==> Step(s, t, Find(k)).threads[t].Idle?
    ensures k in s.table ==>
              var f, i := Step(s, t, Find(k)), s.table[k];
              && Execute(f, moves).Some?
              && var u := Execute(f, moves).value;
                 && Ready(u, t, TryRef) && Safe(u, t, TryRef) && i < |u.handles|
                 && if Hits(u, i, k) then
                      && (WasEntry(f, moves, k, i, u.handles[i].stay) <==> !Publishing(u, i))
                      && Returned(Step(u, t, TryRef), t, later, u.handles[i].stay)
                    else
                      && (WasMissing(f, moves, k) || Erasing(u.lock, i))
                      && !Returned(Step(u, t, TryRef), t, later, u.handles[i].stay)
  {
    ReachableInv(s);
    StepKeeps(s, t, Find(k));
    if k in s.table {
      var f := Step(s, t, Find(k));
      FoundIsExplained(f, t, moves);
      HitIsReturned(Execute(f, moves).value, t, later);
    }
  }

  /** Thread t, past its Ref, gets the entry that is stay d once others have made their moves. */
  predicate Returned(r: State, t: nat, moves: seq<Move>, d: nat) {
    && t < |r.threads| && r.threads[t].Referenced? && Execute(r, moves).Some?
    && var v := Execute(r, moves).value;
       && Ready(v, t, CheckKey) && Safe(v, t, CheckKey) && v.threads[t].stay == d
       && Step(v, t, CheckKey).threads[t].Holding?
  }

  /** The first case occurs: a Lookup can return an entry that is not in the table yet, because it found
      the handle when it still carried an older entry of the key. Another Lookup that begins now misses. */
  lemma ReturnedBeforeEntered(k: CacheKey) returns (s: State)
    ensures Reachable(s) && |s.threads| == 2 && s.threads[1].Holding? && s.threads[1].key == k
    ensures k !in s.table && Publishing(s, s.threads[1].i)
  {
    s := ErasedUnderLookup(k);
    s := ReachableStep(s, 0, StartInsert(Item(k, "", 1, false)));
    s := ReachableStep(s, 0, Fill);
    s := ReachableStep(s, 1, TryRef);
    s := ReachableStep(s, 1, CheckKey);
  }

  /** So does the second: a Lookup can miss a key whose entry is in the table, because an eviction has
      cleared the flags of the handle and has yet to take the entry out. */
  lemma MissedBeforeErased(k: CacheKey) returns (s: State)
    ensures Reachable(s) && |s.threads| == 2 && s.threads[1] == Found(0, k) && Ready(s, 1, TryRef) && Safe(s, 1, TryRef)
    ensures k in s.table && s.table[k] == 0 && Erasing(s.lock, 0) && Step(s, 1, TryRef).threads[1].Idle?
  {
    s := FoundByOther(k);
    s := ReachableStep(s, 0, Resize(0));
    s := ReachableStep(s, 0, TryEvict(0));
  }
}
