/** What runs of the clock cache promise beyond safety: the second chance that Release gives, when the
    entry that Lookup returns was in the table, and the capacity limit. */
module ClockRuns {
  import opened ClockCache

  // ----- occupancies over a run

  /** Nobody occupies a handle as stay d any more. */
  predicate Over(s: State, d: nat) {
    d < |s.inserted| && forall i :: 0 <= i < |s.handles| ==> s.handles[i].stay != d
  }

  /** The mutex holder has failed to evict handle i and is about to clear its usage bit. */
  predicate Clearing(s: State, i: nat) {
    s.lock.Taken? && s.lock.chore == ClearUsage(i)
  }

  /** Handle i is marked used, and the mark will be there at the next try. */
  predicate Marked(s: State, i: nat)
    requires i < |s.handles|
  {
    s.handles[i].usage && !Clearing(s, i)
  }

  /** A handle gets the next occupancy; or it keeps the one it has, with its mark unless the hand tries it,
      and with its key while it is in the cache, where it does not come back. */
  predicate NextStay(s: State, a: Action, i: nat, s': State) {
    && s.inserted <= s'.inserted && |s.handles| <= |s'.handles|
    && (i < |s'.handles| ==>
          || (s'.handles[i].stay == |s.inserted| < |s'.inserted|)
          || (i < |s.handles| && s'.handles[i].stay == s.handles[i].stay
              && (Marked(s, i) ==> Marked(s', i) || a == TryEvict(i))
              && (s'.handles[i].inCache ==> s.handles[i].inCache && s'.handles[i].key == s.handles[i].key)))
  }

  lemma StepStays(s: State, t: nat, a: Action, i: nat)
    requires Ready(s, t, a) && Safe(s, t, a)
    ensures NextStay(s, a, i, Step(s, t, a))
  {
    match a
    case Proceed => ProceedStays(s, t, i);
    case Fill => FillStays(s, t, i);
    case _ =>
  }

  lemma ProceedStays(s: State, t: nat, i: nat)
    requires Ready(s, t, Proceed) && Safe(s, t, Proceed)
    ensures NextStay(s, Proceed, i, Step(s, t, Proceed))
  {
  }

  lemma FillStays(s: State, t: nat, i: nat)
    requires Ready(s, t, Fill) && Safe(s, t, Fill)
    ensures NextStay(s, Fill, i, Step(s, t, Fill))
  {
  }

  lemma OverStays(s: State, t: nat, a: Action, d: nat)
    requires Ready(s, t, a) && Safe(s, t, a) && Over(s, d)
    ensures Over(Step(s, t, a), d)
  {
    StepStays(s, t, a, 0);
    forall i: nat | i < |Step(s, t, a).handles|
      ensures Step(s, t, a).handles[i].stay != d
    {
      StepStays(s, t, a, i);
    }
  }

  lemma Replaced(s: State, a: Action, s': State, i: nat)
    requires HandlesOk(s) && StaysOk(s) && i < |s.handles| && i < |s'.handles|
    requires s'.handles[i].stay != s.handles[i].stay && forall j: nat :: NextStay(s, a, j, s')
    ensures Over(s', s.handles[i].stay)
  {
    assert HandleOk(s, i) && NextStay(s, a, i, s');
    forall j: nat | j < |s'.handles|
      ensures s'.handles[j].stay != s.handles[i].stay
    {
      assert NextStay(s, a, j, s');
    }
  }

  /** A step after which handle i has another occupancy ends the one it had. */
  lemma StepReplaces(s: State, t: nat, a: Action, i: nat)
    requires Inv(s) && Ready(s, t, a) && Safe(s, t, a) && i < |s.handles|
    ensures i < |Step(s, t, a).handles|
    ensures Step(s, t, a).handles[i].stay != s.handles[i].stay ==> Over(Step(s, t, a), s.handles[i].stay)
  {
    var s' := Step(s, t, a);
    forall j: nat
      ensures NextStay(s, a, j, s')
    {
      StepStays(s, t, a, j);
    }
    assert NextStay(s, a, i, s');
    if s'.handles[i].stay != s.handles[i].stay {
      Replaced(s, a, s', i);
    }
  }

  // ----- holds and removals over a run

  /** Whoever holds an entry and does not release it holds it through any run: with its key, value and
      charge, and not deleted. */
  lemma {:induction false} HeldThroughRun(s: State, t: nat, moves: seq<Move>)
    requires Reachable(s) && t < |s.threads| && s.threads[t].Holding?
    requires forall j :: 0 <= j < |moves| ==> !(moves[j].thread == t && moves[j].action.Release?)
    ensures Execute(s, moves).Some?
    ensures var u, th := Execute(s, moves).value, s.threads[t];
            && t < |u.threads| && u.threads[t] == th
            && th.i < |u.handles| && u.handles[th.i].stay == th.stay && th.stay !in u.deleted
            && u.handles[th.i].key == th.key && u.handles[th.i].value == th.value && u.handles[th.i].charge == th.charge
    decreases |moves|
  {
    if moves == [] {
      HeldIsLive(s, t);
    } else {
      var u, a := moves[0].thread, moves[0].action;
      assert !(u == t && a.Release?);
      if Ready(s, u, a) {
        HeldUntilReleased(s, t, u, a);
        var s' := ReachableStep(s, u, a);
        HeldThroughRun(s', t, moves[1..]);
      } else {
        HeldThroughRun(s, t, moves[1..]);
      }
    }
  }

  /** The mutex holder is going to clear the in-cache bit of handle i before it unlocks. */
  predicate Doomed(s: State, i: nat) {
    s.lock.Taken? && (s.lock.chore == Unset(i) || (s.lock.task.Clear? && s.lock.task.i <= i))
  }

  lemma StepDooms(s: State, t: nat, a: Action, i: nat)
    requires Inv(s) && Ready(s, t, a) && Safe(s, t, a) && i < |s.handles| && i < |Step(s, t, a).handles|
    requires Doomed(s, i) && Step(s, t, a).handles[i].stay == s.handles[i].stay
    ensures Doomed(Step(s, t, a), i) || !Step(s, t, a).handles[i].inCache
  {
    StepStays(s, t, a, i);
    if a.Proceed? {
      ProceedDooms(s, t, i);
    }
  }

  lemma ProceedDooms(s: State, t: nat, i: nat)
    requires LockOk(s) && Ready(s, t, Proceed) && Safe(s, t, Proceed) && i < |s.handles|
    requires Doomed(s, i)
    ensures i < |Step(s, t, Proceed).handles|
    ensures Doomed(Step(s, t, Proceed), i) || !Step(s, t, Proceed).handles[i].inCache
  {
  }

  /** An occupancy that is doomed has left the cache by the time the mutex is free again, and does not come
      back. */
  lemma {:induction false} DoomedLeaves(s: State, moves: seq<Move>, i: nat)
    requires Inv(s) && i < |s.handles| && (Doomed(s, i) || !s.handles[i].inCache)
    ensures Execute(s, moves).Some? && i < |Execute(s, moves).value.handles|
    ensures var u := Execute(s, moves).value;
            u.lock.Free? ==> !(u.handles[i].stay == s.handles[i].stay && u.handles[i].inCache)
    decreases |moves|
  {
    if moves != [] {
      var t, a := moves[0].thread, moves[0].action;
      if Ready(s, t, a) {
        StepKeeps(s, t, a);
        StepReplaces(s, t, a, i);
        if Step(s, t, a).handles[i].stay == s.handles[i].stay {
          if s.handles[i].inCache {
            StepDooms(s, t, a, i);
          } else {
            StepUncached(s, t, a, i);
          }
          DoomedLeaves(Step(s, t, a), moves[1..], i);
        } else {
          OverForGood(Step(s, t, a), moves[1..], s.handles[i].stay, i);
        }
      } else {
        DoomedLeaves(s, moves[1..], i);
      }
    }
  }

  lemma {:induction false} OverForGood(s: State, moves: seq<Move>, d: nat, i: nat)
    requires Inv(s) && Over(s, d) && i < |s.handles|
    ensures Execute(s, moves).Some? && Over(Execute(s, moves).value, d) && i < |Execute(s, moves).value.handles|
    decreases |moves|
  {
    if moves != [] {
      var t, a := moves[0].thread, moves[0].action;
      if Ready(s, t, a) {
        StepKeeps(s, t, a);
        OverStays(s, t, a, d);
        StepStays(s, t, a, 0);
        OverForGood(Step(s, t, a), moves[1..], d, i);
      } else {
        OverForGood(s, moves[1..], d, i);
      }
    }
  }

  /** Erase takes the key out of the table, whoever refers to its entry, and leaves every other key and all
      handles alone; once the mutex is free again the occupancy the key led to has left the cache. */
  lemma EraseRemoves(s: State, t: nat, k: CacheKey, moves: seq<Move>)
    requires Reachable(s) && Ready(s, t, Erase(k))
    ensures Safe(s, t, Erase(k))
    ensures var s' := Step(s, t, Erase(k));
            && k !in s'.table && s'.handles == s.handles && s'.recycle == s.recycle && s'.usage == s.usage
            && (forall k' :: k' in s.table && k' != k ==> k' in s'.table && s'.table[k'] == s.table[k'])
            && (forall k' :: k' in s'.table ==> k' in s.table)
    ensures k in s.table ==>
              && s.table[k] < |s.handles| && Execute(Step(s, t, Erase(k)), moves).Some?
              && var i, u := s.table[k], Execute(Step(s, t, Erase(k)), moves).value;
                 i < |u.handles| && (u.lock.Free? ==> !(u.handles[i].stay == s.handles[i].stay && u.handles[i].inCache))
  {
    ReachableInv(s);
    StepKeeps(s, t, Erase(k));
    if k in s.table {
      assert EntryOk(s, k);
      DoomedLeaves(Step(s, t, Erase(k)), moves, s.table[k]);
    }
  }

  /** EraseUnRefEntries empties the table, and once the mutex is free again every occupancy that was there
      has left the cache. */
  lemma ClearRemoves(s: State, t: nat, moves: seq<Move>, i: nat)
    requires Reachable(s) && Ready(s, t, StartClear) && i < |s.handles|
    ensures Safe(s, t, StartClear) && Step(s, t, StartClear).table == map[]
    ensures Execute(Step(s, t, StartClear), moves).Some?
    ensures var u := Execute(Step(s, t, StartClear), moves).value;
            i < |u.handles| && (u.lock.Free? ==> !(u.handles[i].stay == s.handles[i].stay && u.handles[i].inCache))
  {
    ReachableInv(s);
    StepKeeps(s, t, StartClear);
    DoomedLeaves(Step(s, t, StartClear), moves, i);
  }

  /** An Insert of a key that has an entry takes that entry out: it too has left by the time the mutex is
      free again. */
  lemma InsertReplaces(s: State, t: nat, moves: seq<Move>)
    requires Reachable(s) && Ready(s, t, Proceed) && s.lock.chore.Nothing? && s.lock.task.Publish?
    requires s.lock.task.item.key in s.table
    ensures Safe(s, t, Proceed) && s.lock.task.item.key !in Step(s, t, Proceed).table
    ensures Execute(Step(s, t, Proceed), moves).Some?
    ensures var i, u := s.table[s.lock.task.item.key], Execute(Step(s, t, Proceed), moves).value;
            && i < |s.handles| && i < |u.handles|
            && (u.lock.Free? ==> !(u.handles[i].stay == s.handles[i].stay && u.handles[i].inCache))
  {
    ReachableInv(s);
    StepKeeps(s, t, Proceed);
    assert EntryOk(s, s.lock.task.item.key);
    DoomedLeaves(Step(s, t, Proceed), moves, s.table[s.lock.task.item.key]);
  }

  /** When Insert unlocks, its key leads to its handle, which is in the cache with what was given for it, the
      charge has been counted, and the caller holds the entry exactly if it wanted to. */
  lemma InsertEnds(s: State, t: nat)
    requires Reachable(s) && Ready(s, t, Proceed) && s.lock.chore.Nothing? && s.lock.task.Account?
    ensures Safe(s, t, Proceed)
    ensures var s', i, item := Step(s, t, Proceed), s.lock.task.i, s.lock.task.item;
            && s'.lock.Free? && i < |s'.handles| && item.key in s'.table && s'.table[item.key] == i
            && s'.handles[i].inCache && s'.handles[i].key == item.key && s'.handles[i].value == item.value
            && s'.handles[i].charge == item.charge && s'.usage == s.usage + item.charge
            && t < |s'.threads|
            && s'.threads[t] == if item.hold then Holding(i, s'.handles[i].stay, item.key, item.value, item.charge)
                                else Idle
  {
    ReachableInv(s);
    StepKeeps(s, t, Proceed);
    assert HandleOk(s, s.lock.task.i);
  }

  /** An Insert may go on exactly if its item fits, or the limit is not strict and the caller wants a
      reference; in the latter case it may not give up. */
  lemma InsertMayGoOn(s: State, t: nat)
    requires s.lock.Taken? && s.lock.owner == t < |s.threads| && s.lock.chore.Nothing?
    requires s.lock.task.Evict? && s.lock.task.wanted.Some?
    ensures var item := s.lock.task.wanted.value;
            && (Ready(s, t, Fill) <==> s.usage + item.charge <= s.capacity || (!s.strict && item.hold))
            && (Ready(s, t, GiveUp) <==> s.strict || !item.hold)
            && (Ready(s, t, Fill) || Ready(s, t, GiveUp))
  {
  }

  /** Ref on a held entry of the cache gives the receiver a hold of its own; otherwise it gives nothing. */
  lemma ShareGivesHold(s: State, t: nat, u: nat)
    requires Reachable(s) && Ready(s, t, Share(u))
    ensures Safe(s, t, Share(u)) && s.threads[t].i < |s.handles|
    ensures var s', h := Step(s, t, Share(u)), s.handles[s.threads[t].i];
            if h.inCache then
              && s'.threads == s.threads[u := s.threads[t]]
              && s'.handles == s.handles[s.threads[t].i := h.(refs := h.refs + 1)]
            else s' == s
  {
    ReachableInv(s);
    StepKeeps(s, t, Share(u));
  }

  /** SetStrictCapacityLimit changes the limit and nothing else. */
  lemma SetStrictTakesOver(s: State, t: nat, strict: bool)
    requires Ready(s, t, SetStrict(strict))
    ensures Safe(s, t, SetStrict(strict)) && Step(s, t, SetStrict(strict)) == s.(strict := strict)
  {
  }

  // ----- progress

  /** Whoever is in the middle of a call can take its next step, or waits for the mutex to recycle. */
  lemma NobodyIsStuck(s: State, t: nat) returns (a: Action)
    requires Reachable(s) && t < |s.threads| && !s.threads[t].Idle? && (s.threads[t].Recycling? ==> s.lock.Free?)
    ensures Ready(s, t, a) && !a.Spawn? && !a.SetStrict?
  {
    ReachableInv(s);
    assert ThreadOk(s, t);
    match s.threads[t]
    case Found(_, _) => a := TryRef;
    case Referenced(_, _, _) => a := CheckKey;
    case Holding(_, _, _, _, _) => a := Release;
    case Unreferencing(_, _) => a := Unref;
    case Recycling(_, _) => a := RecycleOwn;
    case InLock => a := HolderCanMove(s);
  }

  /** The mutex holder can always take a step. */
  lemma HolderCanMove(s: State) returns (a: Action)
    requires Reachable(s) && s.lock.Taken?
    ensures Ready(s, s.lock.owner, a) && (a.Proceed? || a.Fill? || a.GiveUp?)
  {
    ReachableInv(s);
    var t := s.lock.owner;
    if s.lock.chore.Nothing? && s.lock.task.Evict? {
      if s.lock.task.wanted.Some? && Admits(s, s.lock.task.wanted.value) {
        a := Fill;
      } else {
        a := GiveUp;
      }
    } else {
      a := Proceed;
    }
  }

  /** Recycling hands the value to its deleter, bins the handle and takes its charge off, for the thread that
      dropped the last reference as for the mutex holder. */
  lemma RecyclingDeletes(s: State, t: nat, i: nat)
    requires Reachable(s) && t < |s.threads|
    requires || (s.threads[t].Recycling? && s.threads[t].i == i && s.lock.Free?)
             || (Holds(s, t) && s.lock.chore == Recycle(i))
    ensures var a := if Holds(s, t) then Proceed else RecycleOwn;
            && Ready(s, t, a) && Safe(s, t, a) && i < |s.handles| && s.handles[i].stay !in s.deleted
            && var s' := Step(s, t, a);
               && s'.deleted == s.deleted + {s.handles[i].stay} && s'.recycle == s.recycle + [i]
               && s'.usage + s.handles[i].charge == s.usage && s'.table == s.table
  {
    ReachableInv(s);
    StepKeeps(s, t, if Holds(s, t) then Proceed else RecycleOwn);
  }

  // ----- the second chance

  /** How often a run tries to evict handle i. */
  function Tries(s: State, moves: seq<Move>, i: nat): nat
    decreases |moves|
  {
    if moves == [] then 0
    else
      var t, a := moves[0].thread, moves[0].action;
      if !Ready(s, t, a) then Tries(s, moves[1..], i)
      else if !Safe(s, t, a) then 0
      else One(a == TryEvict(i)) + Tries(Step(s, t, a), moves[1..], i)
  }

  /** The step evicts stay d. */
  predicate Evicts(s: State, t: nat, a: Action, d: nat)
    requires Ready(s, t, a) && Safe(s, t, a)
  {
    a.TryEvict? && s.handles[a.i].stay == d && s.handles[a.i].inCache && !Step(s, t, a).handles[a.i].inCache
  }

  /** A run evicts stay d. */
  predicate RunEvicts(s: State, moves: seq<Move>, d: nat)
    decreases |moves|
  {
    moves != [] &&
    var t, a := moves[0].thread, moves[0].action;
    if !Ready(s, t, a) then RunEvicts(s, moves[1..], d)
    else if !Safe(s, t, a) then false
    else Evicts(s, t, a, d) || RunEvicts(Step(s, t, a), moves[1..], d)
  }

  lemma {:induction false} OverIsNotEvicted(s: State, moves: seq<Move>, d: nat)
    requires Over(s, d)
    ensures !RunEvicts(s, moves, d)
    decreases |moves|
  {
    if moves != [] {
      var t, a := moves[0].thread, moves[0].action;
      if Ready(s, t, a) {
        if Safe(s, t, a) {
          OverStays(s, t, a, d);
          OverIsNotEvicted(Step(s, t, a), moves[1..], d);
        }
      } else {
        OverIsNotEvicted(s, moves[1..], d);
      }
    }
  }

  /** A run evicts an occupancy only if it tries its handle: twice, if the handle is marked. */
  lemma {:induction false} EvictedAfterTries(s: State, moves: seq<Move>, i: nat)
    requires Inv(s) && i < |s.handles| && RunEvicts(s, moves, s.handles[i].stay)
    ensures Tries(s, moves, i) >= 1 + One(Marked(s, i))
    decreases |moves|
  {
    var t, a := moves[0].thread, moves[0].action;
    var d := s.handles[i].stay;
    if Ready(s, t, a) {
      StepKeeps(s, t, a);
      var s' := Step(s, t, a);
      StepStays(s, t, a, i);
      StepReplaces(s, t, a, i);
      assert HandleOk(s, i);
      if s'.handles[i].stay != d {
        OverIsNotEvicted(s', moves[1..], d);
      } else if RunEvicts(s', moves[1..], d) {
        EvictedAfterTries(s', moves[1..], i);
      }
    } else {
      EvictedAfterTries(s, moves[1..], i);
    }
  }

  lemma {:induction false} SomeReferrer(ths: seq<Thread>, i: nat) returns (t: nat)
    requires Count(ths, i, Ref) > 0
    ensures t < |ths| && Weight(ths[t], i, Ref) > 0
  {
    var n := |ths| - 1;
    if Weight(ths[n], i, Ref) > 0 {
      t := n;
    } else {
      t := SomeReferrer(ths[..n], i);
    }
  }

  /** What a thread with a reference does next. */
  function NextOf(th: Thread): Action
    requires th.Referenced? || th.Holding? || th.Unreferencing?
  {
    if th.Referenced? then CheckKey else if th.Holding? then Release else Unref
  }

  lemma ReferrerEffect(s: State, t: nat, i: nat)
    requires t < |s.threads| && Weight(s.threads[t], i, Ref) > 0 && i < |s.handles| && s.handles[i].inCache
    requires Ready(s, t, NextOf(s.threads[t])) && Safe(s, t, NextOf(s.threads[t]))
    ensures var s' := Step(s, t, NextOf(s.threads[t]));
            && s'.lock == s.lock && |s'.handles| == |s.handles| && s'.handles[i].inCache
            && s'.handles[i].stay == s.handles[i].stay && s'.threads == s.threads[t := s'.threads[t]]
            && Weight(s'.threads[t], i, Todo) < Weight(s.threads[t], i, Todo)
  {
  }

  /** A referrer of an entry in the cache takes one more step towards dropping its reference. */
  lemma ReferrerSteps(s: State, t: nat, i: nat) returns (s': State)
    requires Inv(s) && t < |s.threads| && Weight(s.threads[t], i, Ref) > 0 && i < |s.handles| && s.handles[i].inCache
    ensures var a := NextOf(s.threads[t]); Ready(s, t, a) && Safe(s, t, a) && s' == Step(s, t, a)
    ensures Inv(s') && s'.lock == s.lock && |s'.handles| == |s.handles|
    ensures s'.handles[i].inCache && s'.handles[i].stay == s.handles[i].stay
    ensures Count(s'.threads, i, Todo) < Count(s.threads, i, Todo)
  {
    var a := NextOf(s.threads[t]);
    StepKeeps(s, t, a);
    s' := Step(s, t, a);
    ReferrerEffect(s, t, i);
    CountUpdate(s.threads, t, s'.threads[t], i, Todo);
  }

  /** With nobody referring to the entry, clearing its usage bit and trying it once evicts it. */
  lemma ClearsAndEvicts(s: State, i: nat) returns (moves: seq<Move>)
    requires Inv(s) && i < |s.handles| && s.handles[i].inCache && s.handles[i].refs == 0 && Clearing(s, i)
    ensures RunEvicts(s, moves, s.handles[i].stay) && Tries(s, moves, i) == 1
  {
    var t, d := s.lock.owner, s.handles[i].stay;
    StepKeeps(s, t, Proceed);
    var s' := Step(s, t, Proceed);
    StepKeeps(s', t, TryEvict(i));
    var last := [Move(t, TryEvict(i))];
    assert RunEvicts(s', last, d) && Tries(s', last, i) == 1;
    moves := [Move(t, Proceed)] + last;
    assert moves[1..] == last;
  }

  /** If the usage bit is about to be cleared, a run can evict the entry with a single try: everybody drops
      their references first, and whatever mark that leaves is cleared. */
  lemma {:induction false} EvictedAfterOneTry(s: State, i: nat) returns (moves: seq<Move>)
    requires Inv(s) && i < |s.handles| && s.handles[i].inCache && Clearing(s, i)
    ensures RunEvicts(s, moves, s.handles[i].stay) && Tries(s, moves, i) == 1
    decreases Count(s.threads, i, Todo)
  {
    assert HandleOk(s, i);
    if s.handles[i].refs == 0 {
      moves := ClearsAndEvicts(s, i);
    } else {
      var t := SomeReferrer(s.threads, i);
      var s' := ReferrerSteps(s, t, i);
      var rest := EvictedAfterOneTry(s', i);
      moves := [Move(t, NextOf(s.threads[t]))] + rest;
      assert moves[1..] == rest;
    }
  }

  /** Release gives the entry a second chance, except in one case: some run evicts it with fewer than two
      tries of its handle exactly if it is in the cache and the mutex holder, having failed to evict it
      already, is about to clear the mark that Release sets. */
  lemma ReleasedIsSparedOnce(s: State, t: nat)
    requires Reachable(s) && Ready(s, t, Release)
    ensures Safe(s, t, Release)
    ensures var s', th := Step(s, t, Release), s.threads[t];
            && th.i < |s.handles| && th.i < |s'.handles| && s'.handles[th.i].stay == th.stay
            && ((exists moves :: RunEvicts(s', moves, th.stay) && Tries(s', moves, th.i) < 2)
                <==> s.handles[th.i].inCache && Clearing(s, th.i))
  {
    ReachableInv(s);
    StepKeeps(s, t, Release);
    assert ThreadOk(s, t);
    var s', th := Step(s, t, Release), s.threads[t];
    if s.handles[th.i].inCache && Clearing(s, th.i) {
      var moves := EvictedAfterOneTry(s', th.i);
    } else {
      forall moves | RunEvicts(s', moves, th.stay)
        ensures Tries(s', moves, th.i) >= 2
      {
        EvictedAfterTries(s', moves, th.i);
        if !s.handles[th.i].inCache {
          GoneIsNotEvicted(s', moves, th.i);
        }
      }
    }
  }

  /** An occupancy that has lost its in-cache bit is not evicted. */
  lemma {:induction false} GoneIsNotEvicted(s: State, moves: seq<Move>, i: nat)
    requires Inv(s) && i < |s.handles| && !s.handles[i].inCache
    ensures !RunEvicts(s, moves, s.handles[i].stay)
    decreases |moves|
  {
    if moves != [] {
      var t, a := moves[0].thread, moves[0].action;
      var d := s.handles[i].stay;
      if Ready(s, t, a) {
        StepKeeps(s, t, a);
        StepReplaces(s, t, a, i);
        assert !Evicts(s, t, a, d) by {
          assert forall j :: 0 <= j < |s.handles| && s.handles[j].stay == d ==> j == i;
        }
        if Step(s, t, a).handles[i].stay == d {
          StepUncached(s, t, a, i);
          GoneIsNotEvicted(Step(s, t, a), moves[1..], i);
        } else {
          OverIsNotEvicted(Step(s, t, a), moves[1..], d);
        }
      } else {
        GoneIsNotEvicted(s, moves[1..], i);
      }
    }
  }

  lemma StepUncached(s: State, t: nat, a: Action, i: nat)
    requires Inv(s) && Ready(s, t, a) && Safe(s, t, a) && i < |s.handles| && i < |Step(s, t, a).handles|
    requires Step(s, t, a).handles[i].stay == s.handles[i].stay && !s.handles[i].inCache
    ensures !Step(s, t, a).handles[i].inCache
  {
    assert HandleOk(s, i);
    StepStays(s, t, a, i);
  }

  lemma LateClearSteps(k: CacheKey) returns (s: State)
    ensures Reachable(s) && |s.threads| == 2 && Ready(s, 0, Release) && s.threads[0].i == 0
    ensures |s.handles| == 1 && s.handles[0].inCache && Clearing(s, 0)
  {
    s := InitReachable(1, false);
    s := ReachableStep(s, 0, Spawn);
    s := InsertsHeld(s, Item(k, "", 1, true));
    s := ReachableStep(s, 1, Resize(0));
    s := ReachableStep(s, 1, TryEvict(0));
  }

  /** That case occurs: one thread holds the only entry when SetCapacity fails to evict it; the thread
      releases it, the mark is cleared at once, and the next try of the same scan evicts it. */
  lemma MarkIsLost(k: CacheKey) returns (s: State, moves: seq<Move>)
    ensures Reachable(s) && Ready(s, 0, Release) && Safe(s, 0, Release) && |s.handles| == 1
    ensures var s' := Step(s, 0, Release);
            RunEvicts(s', moves, s.threads[0].stay) && Tries(s', moves, 0) == 1
  {
    s := LateClearSteps(k);
    ReachableInv(s);
    StepKeeps(s, 0, Release);
    assert ThreadOk(s, 0);
    moves := EvictedAfterOneTry(Step(s, 0, Release), 0);
  }

  // ----- the strict limit

  /** What is in the cache, and what is about to be, fits. */
  predicate Within(s: State) {
    s.usage + PendingCharge(s.lock) <= s.capacity
  }

  /** Only SetCapacity, and an Insert that wants a reference while the limit is not strict, can take the
      usage above the capacity. */
  lemma StepWithin(s: State, t: nat, a: Action)
    requires Inv(s) && Ready(s, t, a) && Safe(s, t, a) && Within(s)
    ensures Within(Step(s, t, a)) || a.Resize? || (a.Fill? && !s.strict && s.lock.task.wanted.value.hold)
    ensures Step(s, t, a).capacity == s.capacity || a.Resize?
    ensures Step(s, t, a).strict == s.strict || a.SetStrict?
  {
    if a.Proceed? {
      ProceedWithin(s, t);
    }
  }

  lemma ProceedWithin(s: State, t: nat)
    requires Inv(s) && Ready(s, t, Proceed) && Safe(s, t, Proceed) && Within(s)
    ensures Within(Step(s, t, Proceed)) && Step(s, t, Proceed).capacity == s.capacity
    ensures Step(s, t, Proceed).strict == s.strict
  {
  }

  predicate LimitsLeftAlone(moves: seq<Move>) {
    forall j :: 0 <= j < |moves| ==> !moves[j].action.Resize? && !moves[j].action.SetStrict?
  }

  lemma {:induction false} RunWithin(s: State, moves: seq<Move>)
    requires Inv(s) && Within(s) && s.strict && LimitsLeftAlone(moves)
    ensures Execute(s, moves).Some? && Within(Execute(s, moves).value)
    ensures Execute(s, moves).value.capacity == s.capacity
    decreases |moves|
  {
    if moves != [] {
      var t, a := moves[0].thread, moves[0].action;
      assert !a.Resize? && !a.SetStrict?;
      if Ready(s, t, a) {
        StepKeeps(s, t, a);
        StepWithin(s, t, a);
        RunWithin(Step(s, t, a), moves[1..]);
      } else {
        RunWithin(s, moves[1..]);
      }
    }
  }

  /** Under the strict limit, and with the capacity left alone, no schedule of any number of threads ever
      takes the charge of the handles outside the bin above the capacity. */
  lemma StrictCacheStaysWithin(capacity: nat, moves: seq<Move>)
    requires LimitsLeftAlone(moves)
    ensures Execute(Init(capacity, true), moves).Some?
    ensures var s := Execute(Init(capacity, true), moves).value;
            s.usage <= LiveCharge(s.handles, s.recycle, |s.handles|) <= capacity
  {
    ExecuteKeeps(Init(capacity, true), moves);
    RunWithin(Init(capacity, true), moves);
  }
}
