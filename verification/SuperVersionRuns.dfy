/** What runs of the super version protocol promise to readers: how fresh a Get is, when it takes no lock,
    how long a slot keeps what was put back, and when Refresh keeps its iterator. */
module SuperVersionRuns {
  import opened SuperVersions
  import opened Wrappers

  predicate NotBy(moves: seq<Move>, t: nat) {
    forall j :: 0 <= j < |moves| ==> moves[j].thread != t
  }

  predicate NoInstall(moves: seq<Move>) {
    forall j :: 0 <= j < |moves| ==> !moves[j].action.Install?
  }

  // ----- freshness

  /** The thread is in a Get, or has what it got. */
  predicate InGet(pc: Pc) {
    || pc.Swapped? || pc.LockWait? || pc.Holding? || pc.Referenced?
    || ((pc.Dropping? || pc.Cleaning?) && pc.next.Acquire?)
  }

  function StartOf(pc: Pc): nat
    requires InGet(pc)
  {
    match pc
    case Swapped(_, start, _) => start
    case LockWait(start, _) => start
    case Holding(_, start, _) => start
    case Referenced(_, start, _) => start
    case Dropping(_, next) => next.start
    case Cleaning(_, next) => next.start
  }

  /** Thread t stays in its Get through the run. */
  predicate StaysInGet(s: State, moves: seq<Move>, t: nat)
    decreases |moves|
  {
    && t < |s.threads| && InGet(s.threads[t].pc)
    && (moves != [] ==>
          var u, a := moves[0].thread, moves[0].action;
          if !Ready(s, u, a) then StaysInGet(s, moves[1..], t)
          else Safe(s, u, a) && StaysInGet(Step(s, u, a), moves[1..], t))
  }

  /** Nobody but thread t, or an installer scraping its slot, touches its record. */
  lemma StepOthers(s: State, u: nat, a: Action, t: nat)
    requires Ready(s, u, a) && Safe(s, u, a) && t < |s.threads| && t != u
    ensures t < |Step(s, u, a).threads|
    ensures Step(s, u, a).threads[t] == s.threads[t]
            || (s.retire.Retire? && s.retire.done == t && Step(s, u, a).threads[t] == s.threads[t].(slot := Obsolete))
  {
  }

  lemma StepKeepsStart(s: State, u: nat, a: Action, t: nat)
    requires Ready(s, u, a) && Safe(s, u, a) && t < |s.threads| && InGet(s.threads[t].pc)
    requires t < |Step(s, u, a).threads| && InGet(Step(s, u, a).threads[t].pc)
    ensures StartOf(Step(s, u, a).threads[t].pc) == StartOf(s.threads[t].pc)
  {
    if u != t {
      StepOthers(s, u, a, t);
    }
  }

  lemma {:induction false} RunKeepsStart(s: State, moves: seq<Move>, t: nat)
    requires Inv(s) && StaysInGet(s, moves, t)
    ensures Execute(s, moves).Some? && Inv(Execute(s, moves).value)
    ensures var u := Execute(s, moves).value;
            t < |u.threads| && InGet(u.threads[t].pc) && StartOf(u.threads[t].pc) == StartOf(s.threads[t].pc)
    decreases |moves|
  {
    if moves != [] {
      var u, a := moves[0].thread, moves[0].action;
      if Ready(s, u, a) {
        StepKeeps(s, u, a);
        RunKeepsStart(Step(s, u, a), moves[1..], t);
        StepKeepsStart(s, u, a, t);
      } else {
        RunKeepsStart(s, moves[1..], t);
      }
    }
  }

  /** Whatever others do while a Get runs, what it gets is no older than what was current when it began. */
  lemma GetIsFreshOverRun(s: State, t: nat, goal: Goal, moves: seq<Move>)
    requires Reachable(s) && Ready(s, t, Swap(goal))
    ensures Safe(s, t, Swap(goal))
    ensures StaysInGet(Step(s, t, Swap(goal)), moves, t) ==>
              && Execute(Step(s, t, Swap(goal)), moves).Some?
              && var u := Execute(Step(s, t, Swap(goal)), moves).value;
                 && t < |u.threads|
                 && (u.threads[t].pc.Holding? || u.threads[t].pc.Referenced? ==>
                       && u.threads[t].pc.sv < |u.svs|
                       && s.svNumber <= u.svs[u.threads[t].pc.sv].number <= u.svNumber)
  {
    ReachableInv(s);
    StepKeeps(s, t, Swap(goal));
    var s' := Step(s, t, Swap(goal));
    if StaysInGet(s', moves, t) {
      RunKeepsStart(s', moves, t);
      var u := Execute(s', moves).value;
      assert ThreadOk(u, t);
      if u.threads[t].pc.Holding? || u.threads[t].pc.Referenced? {
        assert Conserved(u, u.threads[t].pc.sv);
      }
    }
  }

  // ----- the fast path

  /** A Get that found a super version in its slot gets it without the mutex exactly if it is the current
      one. Otherwise it drops what it found, if anything, and goes for the mutex. */
  lemma GetIsLockFree(s: State, t: nat)
    requires Reachable(s) && Ready(s, t, CheckNumber)
    ensures Safe(s, t, CheckNumber)
    ensures var was, now := s.threads[t].pc, Step(s, t, CheckNumber).threads[t].pc;
            if was.ptr.Cached? && s.current == Some(was.ptr.sv) then now == Holding(was.ptr.sv, was.start, was.goal)
            else if was.ptr.Cached? then now == Dropping(was.ptr.sv, Acquire(was.start, was.goal))
            else now == LockWait(was.start, was.goal)
  {
    ReachableInv(s);
    StepKeeps(s, t, CheckNumber);
    assert ThreadOk(s, t);
    if s.threads[t].pc.ptr.Cached? {
      assert Conserved(s, s.threads[t].pc.ptr.sv);
    }
  }

  /** Nothing is being withdrawn from thread t's slot. */
  predicate Undisturbed(s: State, t: nat) {
    s.retire.Retire? ==> t < s.retire.done && s.current.Some?
  }

  /** A thread with a reference to the column family keeps it from being torn down. */
  lemma NoTeardown(s: State, u: nat, t: nat)
    requires Inv(s) && Ready(s, u, ReleaseHandle) && t < |s.threads| && t != u && s.threads[t].handle
    ensures !(s.cfRefs == 2 && s.current.Some?)
  {
    CountTwo(s.threads, t, u, 0, Handle);
    if s.current.Some? {
      assert Conserved(s, s.current.value);
      UnfreedUpdate(s.svs, s.current.value, s.svs[s.current.value]);
    }
  }

  lemma StepLeavesSlot(s: State, u: nat, a: Action, t: nat)
    requires Inv(s) && Ready(s, u, a) && Safe(s, u, a) && !a.Install? && t < |s.threads| && t != u
    requires s.threads[t].handle && Undisturbed(s, t)
    ensures var s' := Step(s, u, a);
            && t < |s'.threads| && s'.threads[t] == s.threads[t] && Undisturbed(s', t)
            && s'.current == s.current && s'.svNumber == s.svNumber
  {
    StepOthers(s, u, a, t);
    if a.ReleaseHandle? {
      NoTeardown(s, u, t);
    }
  }

  lemma {:induction false} RunLeavesSlot(s: State, moves: seq<Move>, t: nat)
    requires Inv(s) && NotBy(moves, t) && NoInstall(moves)
    requires t < |s.threads| && s.threads[t].handle && Undisturbed(s, t)
    ensures Execute(s, moves).Some? && Inv(Execute(s, moves).value)
    ensures var u := Execute(s, moves).value;
            t < |u.threads| && u.threads[t] == s.threads[t] && u.current == s.current && u.svNumber == s.svNumber
    decreases |moves|
  {
    if moves != [] {
      var u, a := moves[0].thread, moves[0].action;
      assert u != t && !a.Install?;
      if Ready(s, u, a) {
        StepKeeps(s, u, a);
        StepLeavesSlot(s, u, a, t);
        RunLeavesSlot(Step(s, u, a), moves[1..], t);
      } else {
        RunLeavesSlot(s, moves[1..], t);
      }
    }
  }

  /** What a thread has put back stays in its slot, and current, until something is installed: its next Get,
      whatever others do before and during it, finds it there and takes no lock. */
  lemma PutBackIsFound(s: State, t: nat, a: Action, moves: seq<Move>, later: seq<Move>)
    requires a.Return? || a.ReturnReferenced?
    requires Reachable(s) && Ready(s, t, a) && s.threads[t].slot.InUse? && Undisturbed(s, t)
    requires NotBy(moves, t) && NoInstall(moves) && NotBy(later, t) && NoInstall(later)
    ensures Safe(s, t, a) && Execute(Step(s, t, a), moves).Some?
    ensures var v, u := s.threads[t].pc.sv, Execute(Step(s, t, a), moves).value;
            && Ready(u, t, Swap(Read)) && Safe(u, t, Swap(Read))
            && Execute(Step(u, t, Swap(Read)), later).Some?
            && var w := Execute(Step(u, t, Swap(Read)), later).value;
               && Ready(w, t, CheckNumber) && Safe(w, t, CheckNumber)
               && Step(w, t, CheckNumber).threads[t].pc == Holding(v, u.svNumber, Read)
  {
    ReachableInv(s);
    assert ThreadOk(s, t);
    StepKeeps(s, t, a);
    var v, s' := s.threads[t].pc.sv, Step(s, t, a);
    assert s'.threads[t].slot == Cached(v) && s'.threads[t].pc.Idle? && s'.current == Some(v);
    RunLeavesSlot(s', moves, t);
    UndisturbedLater(s', moves, t);
    var w := SlotIsFound(Execute(s', moves).value, t, v, later);
  }

  /** A Get of a thread whose slot caches the current super version. */
  lemma SlotIsFound(u: State, t: nat, v: nat, later: seq<Move>) returns (w: State)
    requires Inv(u) && t < |u.threads| && u.threads[t].handle && u.threads[t].pc.Idle?
    requires u.threads[t].slot == Cached(v) && u.current == Some(v) && Undisturbed(u, t)
    requires NotBy(later, t) && NoInstall(later)
    ensures Ready(u, t, Swap(Read)) && Safe(u, t, Swap(Read))
    ensures Execute(Step(u, t, Swap(Read)), later) == Some(w)
    ensures Ready(w, t, CheckNumber) && Safe(w, t, CheckNumber)
    ensures Step(w, t, CheckNumber).threads[t].pc == Holding(v, u.svNumber, Read)
  {
    StepKeeps(u, t, Swap(Read));
    var u' := Step(u, t, Swap(Read));
    RunLeavesSlot(u', later, t);
    w := Execute(u', later).value;
    StepKeeps(w, t, CheckNumber);
    assert ThreadOk(w, t) && Conserved(w, v);
  }

  lemma {:induction false} UndisturbedLater(s: State, moves: seq<Move>, t: nat)
    requires Inv(s) && NotBy(moves, t) && NoInstall(moves)
    requires t < |s.threads| && s.threads[t].handle && Undisturbed(s, t)
    ensures Execute(s, moves).Some? && Undisturbed(Execute(s, moves).value, t)
    decreases |moves|
  {
    if moves != [] {
      var u, a := moves[0].thread, moves[0].action;
      assert u != t && !a.Install?;
      if Ready(s, u, a) {
        StepKeeps(s, u, a);
        StepLeavesSlot(s, u, a, t);
        UndisturbedLater(Step(s, u, a), moves[1..], t);
      } else {
        UndisturbedLater(s, moves[1..], t);
      }
    }
  }

  // ----- progress

  /** The thread needs the mutex for its next step. */
  predicate WaitsForMutex(s: State, t: nat)
    requires t < |s.threads|
  {
    var pc := s.threads[t].pc;
    pc.Cleaning? || pc.LockWait? || (pc.Resetting? && s.retire.Retire? && s.retire.done == |s.threads|)
  }

  /** Whoever is in the middle of something can take its next step, unless it waits for the mutex. */
  lemma NobodyIsStuck(s: State, t: nat) returns (a: Action)
    requires Reachable(s) && t < |s.threads| && !s.threads[t].pc.Idle? && (WaitsForMutex(s, t) ==> s.mutex.None?)
    ensures Ready(s, t, a) && !a.Spawn? && !a.ShareHandle?
  {
    ReachableInv(s);
    assert ThreadOk(s, t);
    match s.threads[t].pc
    case Refreshing(record) => a := Swap(Iterate(Some(record)));
    case Swapped(_, _, _) => a := CheckNumber;
    case Dropping(_, _) => a := Unref;
    case Cleaning(_, _) => a := CleanUp;
    case LockWait(_, _) => a := LockAndRef;
    case Holding(_, _, goal) => a := if goal.Read? then Return else RefAgain;
    case Referenced(_, _, _) => a := ReturnReferenced;
    case Surplus(_) => a := DropSurplus;
    case Scraping(grabbed) =>
      a := if s.retire.done < |s.threads| then ScrapeSlot else if grabbed != [] then UnrefScraped else FinishInstall;
    case Resetting => a := if s.retire.done < |s.threads| then ResetSlot else FinishDrop;
  }

  /** Nor does the mutex stay taken for want of a step: its holder never waits for it. */
  lemma HolderCanMove(s: State) returns (a: Action)
    requires Reachable(s) && s.mutex.Some?
    ensures Ready(s, s.mutex.value, a) && (a.ScrapeSlot? || a.UnrefScraped? || a.FinishInstall?)
  {
    ReachableInv(s);
    a := NobodyIsStuck(s, s.mutex.value);
  }

  // ----- Refresh

  /** Nothing is installed, and thread t does not close its iterator. */
  predicate Undropped(moves: seq<Move>, t: nat) {
    forall j :: 0 <= j < |moves| ==>
                  !moves[j].action.Install? && !(moves[j].thread == t && moves[j].action.CloseIter?)
  }

  lemma StepKeepsIter(s: State, u: nat, a: Action, t: nat)
    requires Inv(s) && Ready(s, u, a) && Safe(s, u, a) && !a.Install? && !(u == t && a.CloseIter?)
    requires t < |s.threads| && s.threads[t].iter.Some? && s.threads[t].iter.value.recorded == s.svNumber
    ensures var s' := Step(s, u, a);
            t < |s'.threads| && s'.threads[t].iter == s.threads[t].iter && s'.svNumber == s.svNumber
  {
    if u != t {
      StepOthers(s, u, a, t);
    } else {
      OwnStepKeepsIter(s, t, a);
    }
  }

  lemma OwnStepKeepsIter(s: State, t: nat, a: Action)
    requires ThreadsOk(s) && Ready(s, t, a) && Safe(s, t, a) && !a.Install? && !a.CloseIter?
    requires t < |s.threads| && s.threads[t].iter.Some? && s.threads[t].iter.value.recorded == s.svNumber
    ensures var s' := Step(s, t, a);
            t < |s'.threads| && s'.threads[t].iter == s.threads[t].iter && s'.svNumber == s.svNumber
  {
    assert ThreadOk(s, t);
  }

  lemma {:induction false} RunKeepsIter(s: State, moves: seq<Move>, t: nat)
    requires Inv(s) && Undropped(moves, t)
    requires t < |s.threads| && s.threads[t].iter.Some? && s.threads[t].iter.value.recorded == s.svNumber
    ensures Execute(s, moves).Some?
    ensures var u := Execute(s, moves).value;
            t < |u.threads| && u.threads[t].iter == s.threads[t].iter && u.svNumber == s.svNumber
    decreases |moves|
  {
    if moves != [] {
      var u, a := moves[0].thread, moves[0].action;
      assert !a.Install? && !(u == t && a.CloseIter?);
      if Ready(s, u, a) {
        StepKeeps(s, u, a);
        StepKeepsIter(s, u, a, t);
        RunKeepsIter(Step(s, u, a), moves[1..], t);
      } else {
        RunKeepsIter(s, moves[1..], t);
      }
    }
  }

  /** An iterator opened on the current super version, or reopened by a Refresh that nothing has overtaken,
      is kept by every Refresh until something is installed, whatever anybody does in between. */
  lemma RefreshKeepsUntilInstall(s: State, t: nat, moves: seq<Move>)
    requires Reachable(s) && Ready(s, t, ReturnReferenced) && Undropped(moves, t)
    ensures Safe(s, t, ReturnReferenced)
    ensures var th := s.threads[t];
            s.current == Some(th.pc.sv) && (th.pc.goal.record.None? || th.pc.goal.record == Some(s.svNumber)) ==>
              && Execute(Step(s, t, ReturnReferenced), moves).Some?
              && var u := Execute(Step(s, t, ReturnReferenced), moves).value;
                 && t < |u.threads| && u.threads[t].iter == Some(Iter(th.pc.sv, s.svNumber))
                 && (Ready(u, t, Refresh) ==> Safe(u, t, Refresh) && Step(u, t, Refresh) == u)
  {
    ReachableInv(s);
    StepKeeps(s, t, ReturnReferenced);
    var th := s.threads[t];
    assert ThreadOk(s, t);
    if s.current == Some(th.pc.sv) && (th.pc.goal.record.None? || th.pc.goal.record == Some(s.svNumber)) {
      assert Conserved(s, th.pc.sv);
      var s' := Step(s, t, ReturnReferenced);
      RunKeepsIter(s', moves, t);
      ExecuteKeeps(s', moves);
      var u := Execute(s', moves).value;
      if Ready(u, t, Refresh) {
        StepKeeps(u, t, Refresh);
      }
    }
  }

  /** Where a thread goes on once it has dropped what it held, by Unref or, if that was the last reference, by
      the Cleanup after it: back to rest, on to the mutex for its Get, or on to reopen its iterator. */
  lemma DropResumes(s: State, t: nat, a: Action)
    requires Reachable(s) && Ready(s, t, a) && (a.Unref? || a.CleanUp?)
    ensures Safe(s, t, a)
    ensures var was, now := s.threads[t].pc, Step(s, t, a).threads[t].pc;
            if a.Unref? && s.svs[was.sv].refs == 1 then now == Cleaning(was.sv, was.next)
            else match was.next
                 case Stop => now == Idle
                 case Acquire(start, goal) => now == LockWait(start, goal)
                 case Begin(record) => now == Refreshing(record)
  {
    ReachableInv(s);
    StepKeeps(s, t, a);
  }

  /** The iterator that GetReferencedSuperVersion opens has what was got, under the number that Refresh saw or,
      for a new iterator, under its own. */
  lemma OpensWhatItGot(s: State, t: nat)
    requires Reachable(s) && Ready(s, t, ReturnReferenced)
    ensures Safe(s, t, ReturnReferenced)
    ensures var th, iter := s.threads[t], Step(s, t, ReturnReferenced).threads[t].iter;
            && iter.Some? && iter.value.sv == th.pc.sv < |s.svs|
            && iter.value.recorded
               == if th.pc.goal.record.Some? then th.pc.goal.record.value else s.svs[th.pc.sv].number
  {
    ReachableInv(s);
    StepKeeps(s, t, ReturnReferenced);
  }

  /** Refresh of an iterator that has been overtaken asks for a new one under the number it saw. */
  lemma RefreshReopens(s: State, t: nat)
    requires Reachable(s) && Ready(s, t, Refresh) && s.threads[t].iter.value.recorded != s.svNumber
    ensures Safe(s, t, Refresh)
    ensures var was, now := s.threads[t], Step(s, t, Refresh).threads[t];
            now.iter.None? && now.pc == Dropping(was.iter.value.sv, Begin(s.svNumber))
  {
    ReachableInv(s);
    StepKeeps(s, t, Refresh);
  }
}
