/** The super version protocol (db/column_family.cc): readers swap a reference-counted pointer in
    and out of a thread-local slot while an installer replaces it and scrapes every slot. Each
    atomic operation is one step; any number of threads interleave freely. */
module SuperVersions {
  import opened Wrappers

  // ----- state

  /** A super version: refs is its reference count, freed says that Cleanup has run. */
  datatype SuperVersion = SuperVersion(number: nat, refs: nat, freed: bool)

  /** A thread-local slot: kSVObsolete, kSVInUse or a cached super version. */
  datatype Slot = Obsolete | InUse | Cached(sv: nat)

  /** An iterator holding a reference, with the version number it recorded. */
  datatype Iter = Iter(sv: nat, recorded: nat)

  /** What a reader wants: a plain read, or a reference for an iterator. Refresh passes the number it
      will record; a new iterator records the number of what it gets. */
  datatype Goal = Read | Iterate(record: Option<nat>)

  /** Where a thread goes once it has dropped a reference. */
  datatype Then = Stop | Acquire(start: nat, goal: Goal) | Begin(record: nat)

  datatype Pc =
    | Idle
    | Refreshing(record: nat)                          // old iterator gone, new one wanted
    | Swapped(ptr: Slot, start: nat, goal: Goal)       // slot swapped to kSVInUse
    | Dropping(sv: nat, next: Then)                    // about to Unref
    | Cleaning(sv: nat, next: Then)                    // Unref was the last; Cleanup is due
    | LockWait(start: nat, goal: Goal)                 // about to lock and Ref the current one
    | Holding(sv: nat, start: nat, goal: Goal)         // GetThreadLocalSuperVersion has returned
    | Referenced(sv: nat, start: nat, goal: Goal)      // one more Ref taken for the iterator
    | Surplus(sv: nat)                                 // return failed; the slot's reference goes
    | Scraping(grabbed: seq<nat>)                      // installer: slots exchanged so far
    | Resetting                                        // deleter: local_sv_.reset()

  /** start is the version number current when the running Get began. */
  datatype Thread = Thread(slot: Slot, pc: Pc, iter: Option<Iter>, handle: bool)

  /** The super version being withdrawn, the slots done so far, and who does it. */
  datatype Retire = NoRetire | Retire(sv: nat, done: nat, owner: nat)

  datatype State = State(svs: seq<SuperVersion>, current: Option<nat>, svNumber: nat,
                         threads: seq<Thread>, mutex: Option<nat>, retire: Retire,
                         cfRefs: nat, cfDeleted: bool)

  // ----- counting

  datatype Kind = Reference | Cleanup | Handle

  function Grabbed(grabbed: seq<nat>, v: nat): nat {
    multiset(grabbed)[v]
  }

  function PcRefs(pc: Pc, v: nat): nat {
    match pc
    case Swapped(ptr, _, _) => if ptr == Cached(v) then 1 else 0
    case Dropping(sv, _) => if sv == v then 1 else 0
    case Holding(sv, _, _) => if sv == v then 1 else 0
    case Referenced(sv, _, _) => if sv == v then 2 else 0
    case Surplus(sv) => if sv == v then 1 else 0
    case Scraping(grabbed) => Grabbed(grabbed, v)
    case _ => 0
  }

  /** What one thread contributes to super version v: references it answers for, a cleanup it owes,
      or (whatever v is) a reference to the column family. */
  function Weight(th: Thread, v: nat, kind: Kind): nat {
    match kind
    case Reference =>
      (if th.slot == Cached(v) then 1 else 0) + PcRefs(th.pc, v)
      + (if th.iter.Some? && th.iter.value.sv == v then 1 else 0)
    case Cleanup => if th.pc.Cleaning? && th.pc.sv == v then 1 else 0
    case Handle => if th.handle then 1 else 0
  }

  function Count(ths: seq<Thread>, v: nat, kind: Kind): nat {
    if ths == [] then 0
    else Count(ths[..|ths| - 1], v, kind) + Weight(ths[|ths| - 1], v, kind)
  }

  lemma {:induction false} CountUpdate(ths: seq<Thread>, t: nat, th: Thread, v: nat, kind: Kind)
    requires t < |ths|
    ensures Count(ths[t := th], v, kind) + Weight(ths[t], v, kind) == Count(ths, v, kind) + Weight(th, v, kind)
    ensures Weight(ths[t], v, kind) <= Count(ths, v, kind)
  {
    var n := |ths| - 1;
    if t < n {
      CountUpdate(ths[..n], t, th, v, kind);
      assert ths[t := th][..n] == ths[..n][t := th];
    } else {
      assert ths[t := th][..n] == ths[..n];
    }
  }

  /** Two threads never contribute more than the total. */
  lemma CountTwo(ths: seq<Thread>, t: nat, u: nat, v: nat, kind: Kind)
    requires t < |ths| && u < |ths| && t != u
    ensures Weight(ths[t], v, kind) + Weight(ths[u], v, kind) <= Count(ths, v, kind)
  {
    var none := Thread(Obsolete, Idle, None, false);
    CountUpdate(ths, t, none, v, kind);
    CountUpdate(ths[t := none], u, none, v, kind);
  }

  lemma CountAppend(ths: seq<Thread>, th: Thread, v: nat, kind: Kind)
    ensures Count(ths + [th], v, kind) == Count(ths, v, kind) + Weight(th, v, kind)
  {
    assert (ths + [th])[..|ths|] == ths;
  }

  /** Super versions whose Cleanup has not run; each holds a reference to the column family. */
  function Unfreed(svs: seq<SuperVersion>): nat {
    if svs == [] then 0 else Unfreed(svs[..|svs| - 1]) + if svs[|svs| - 1].freed then 0 else 1
  }

  lemma {:induction false} UnfreedUpdate(svs: seq<SuperVersion>, v: nat, x: SuperVersion)
    requires v < |svs|
    ensures Unfreed(svs[v := x]) + (if svs[v].freed then 0 else 1) == Unfreed(svs) + if x.freed then 0 else 1
    ensures !svs[v].freed ==> Unfreed(svs) >= 1
  {
    var n := |svs| - 1;
    if v < n {
      UnfreedUpdate(svs[..n], v, x);
      assert svs[v := x][..n] == svs[..n][v := x];
    } else {
      assert svs[v := x][..n] == svs[..n];
    }
  }

  // ----- invariant

  function One(b: bool): nat {
    if b then 1 else 0
  }

  /** Slot t may hold v: v is current, or v is being withdrawn and slot t has not been reached. */
  predicate Permitted(s: State, t: nat, v: nat) {
    s.current == Some(v) || (s.retire.Retire? && s.retire.sv == v && s.retire.done <= t)
  }

  /** v is current or being withdrawn, so one reference to v is not any thread's. */
  predicate Pending(s: State, v: nat) {
    s.current == Some(v) || (s.retire.Retire? && s.retire.sv == v)
  }

  /** The reference count is one for being current, one for a pending withdrawal, and one for every
      reference a thread answers for; at zero exactly one thread owes the cleanup. */
  ghost predicate Conserved(s: State, v: nat)
    requires v < |s.svs|
  {
    var sv := s.svs[v];
    && sv.number == v + 1
    && sv.refs == One(s.current == Some(v)) + One(s.retire.Retire? && s.retire.sv == v) + Count(s.threads, v, Reference)
    && Count(s.threads, v, Cleanup) == One(sv.refs == 0 && !sv.freed)
    && (sv.freed ==> sv.refs == 0)
  }

  ghost predicate AllConserved(s: State) {
    forall v: nat {:trigger Conserved(s, v)} :: v < |s.svs| ==> Conserved(s, v)
  }

  predicate GoalOk(th: Thread, goal: Goal, start: nat) {
    goal.Iterate? ==> th.iter.None? && (goal.record.Some? ==> goal.record.value <= start)
  }

  predicate ThenOk(s: State, th: Thread, next: Then) {
    match next
    case Stop => !th.slot.InUse?
    case Acquire(start, goal) =>
      !th.slot.Cached? && th.handle && s.current.Some? && start <= s.svNumber && GoalOk(th, goal, start)
    case Begin(record) => !th.slot.InUse? && th.handle && s.current.Some? && record <= s.svNumber && th.iter.None?
  }

  /** A Get in progress: the slot is kSVInUse or was scraped, and what is held is fresh. */
  predicate Getting(s: State, t: nat, sv: nat, start: nat, goal: Goal)
    requires t < |s.threads|
  {
    var th := s.threads[t];
    && !th.slot.Cached? && th.handle && s.current.Some? && start <= s.svNumber && GoalOk(th, goal, start)
    && sv < |s.svs| && start <= sv + 1
    && (th.slot.InUse? ==> Permitted(s, t, sv))
  }

  predicate PcOk(s: State, t: nat)
    requires t < |s.threads|
  {
    var th := s.threads[t];
    match th.pc
    case Idle => !th.slot.InUse?
    case Refreshing(record) => ThenOk(s, th, Begin(record))
    case Swapped(ptr, start, goal) =>
      && !th.slot.Cached? && th.handle && s.current.Some? && start <= s.svNumber && GoalOk(th, goal, start)
      && !ptr.InUse?
      && (ptr.Cached? ==> ptr.sv < |s.svs| && (th.slot.InUse? ==> Permitted(s, t, ptr.sv)))
    case Dropping(sv, next) => sv < |s.svs| && ThenOk(s, th, next)
    case Cleaning(sv, next) => sv < |s.svs| && ThenOk(s, th, next)
    case LockWait(start, goal) => ThenOk(s, th, Acquire(start, goal))
    case Holding(sv, start, goal) => Getting(s, t, sv, start, goal)
    case Referenced(sv, start, goal) => Getting(s, t, sv, start, goal) && goal.Iterate?
    case Surplus(sv) => sv < |s.svs| && !th.slot.InUse? && th.iter.Some? && th.iter.value.sv == sv
    case Scraping(grabbed) =>
      && !th.slot.InUse? && th.handle && s.mutex == Some(t)
      && s.retire.Retire? && s.retire.owner == t && forall j :: 0 <= j < |grabbed| ==> Pending(s, grabbed[j])
    case Resetting => !th.slot.InUse? && s.retire.Retire? && s.retire.owner == t && s.current.None?
  }

  predicate ThreadOk(s: State, t: nat)
    requires t < |s.threads|
  {
    var th := s.threads[t];
    && PcOk(s, t)
    && (th.slot.Cached? ==> th.slot.sv < |s.svs| && Permitted(s, t, th.slot.sv))
    && (th.iter.Some? ==> th.iter.value.sv < |s.svs| && th.iter.value.recorded <= th.iter.value.sv + 1)
  }

  predicate Shape(s: State) {
    && s.svNumber == |s.svs|
    && (s.current.Some? ==> s.current.value + 1 == |s.svs|)
    && (s.mutex.Some? ==> s.mutex.value < |s.threads| && s.threads[s.mutex.value].pc.Scraping?)
    && (s.retire.Retire? ==>
          && s.retire.sv < |s.svs| && s.retire.done <= |s.threads| && s.retire.owner < |s.threads|
          && s.current != Some(s.retire.sv)
          && (s.threads[s.retire.owner].pc.Scraping? || s.threads[s.retire.owner].pc.Resetting?))
  }

  ghost predicate Counted(s: State) {
    && s.cfRefs == Count(s.threads, 0, Handle) + Unfreed(s.svs)
    && (s.cfDeleted <==> s.cfRefs == 0)
    && (s.retire.Retire? && s.current.None? ==> Count(s.threads, 0, Handle) == 0)
  }

  ghost predicate Inv(s: State) {
    && Shape(s) && Counted(s)
    && ThreadsOk(s)
    && AllConserved(s)
  }

  ghost predicate ThreadsOk(s: State) {
    forall t: nat {:trigger ThreadOk(s, t)} :: t < |s.threads| ==> ThreadOk(s, t)
  }

  // ----- steps

  function Put(s: State, t: nat, th: Thread): State
    requires t < |s.threads|
  {
    s.(threads := s.threads[t := th])
  }

  function AddRef(s: State, v: nat): State
    requires v < |s.svs|
  {
    s.(svs := s.svs[v := s.svs[v].(refs := s.svs[v].refs + 1)])
  }

  /** fetch_sub on the reference count. */
  function SubRef(s: State, v: nat): State
    requires v < |s.svs| && s.svs[v].refs > 0
  {
    s.(svs := s.svs[v := s.svs[v].(refs := s.svs[v].refs - 1)])
  }

  /** Cleanup: releases what the super version holds, its column family reference included. */
  function Free(s: State, v: nat): State
    requires v < |s.svs| && s.cfRefs > 0
  {
    s.(svs := s.svs[v := s.svs[v].(freed := true)], cfRefs := s.cfRefs - 1, cfDeleted := s.cfRefs == 1)
  }

  function Resume(next: Then): (pc: Pc)
    ensures pc.Idle? || pc.LockWait? || pc.Refreshing?
  {
    match next
    case Stop => Idle
    case Acquire(start, goal) => LockWait(start, goal)
    case Begin(record) => Refreshing(record)
  }

  // The reader: GetThreadLocalSuperVersion, ReturnThreadLocalSuperVersion, GetReferencedSuperVersion.

  function DoSwap(s: State, t: nat, goal: Goal): State
    requires t < |s.threads|
  {
    var th := s.threads[t];
    Put(s, t, th.(slot := InUse, pc := Swapped(th.slot, s.svNumber, goal)))
  }

  function DoCheckNumber(s: State, t: nat): State
    requires t < |s.threads| && s.threads[t].pc.Swapped?
    requires s.threads[t].pc.ptr.Cached? ==> s.threads[t].pc.ptr.sv < |s.svs|
  {
    var th := s.threads[t];
    var ptr, start, goal := th.pc.ptr, th.pc.start, th.pc.goal;
    Put(s, t, th.(pc := if !ptr.Cached? then LockWait(start, goal)
                        else if s.svs[ptr.sv].number != s.svNumber then Dropping(ptr.sv, Acquire(start, goal))
                        else Holding(ptr.sv, start, goal)))
  }

  function DoLockAndRef(s: State, t: nat): State
    requires t < |s.threads| && s.threads[t].pc.LockWait? && s.current.Some? && s.current.value < |s.svs|
  {
    var th := s.threads[t];
    Put(AddRef(s, s.current.value), t, th.(pc := Holding(s.current.value, th.pc.start, th.pc.goal)))
  }

  function DoRefAgain(s: State, t: nat): State
    requires t < |s.threads| && s.threads[t].pc.Holding? && s.threads[t].pc.sv < |s.svs|
  {
    var th := s.threads[t];
    Put(AddRef(s, th.pc.sv), t, th.(pc := Referenced(th.pc.sv, th.pc.start, th.pc.goal)))
  }

  /** The compare-and-swap that puts the pointer back, for a plain read. */
  function DoReturn(s: State, t: nat): State
    requires t < |s.threads| && s.threads[t].pc.Holding?
  {
    var th := s.threads[t];
    if th.slot.InUse? then Put(s, t, th.(slot := Cached(th.pc.sv), pc := Idle))
    else Put(s, t, th.(pc := Dropping(th.pc.sv, Stop)))
  }

  /** The same compare-and-swap inside GetReferencedSuperVersion. */
  function DoReturnReferenced(s: State, t: nat): State
    requires t < |s.threads| && s.threads[t].pc.Referenced? && s.threads[t].pc.goal.Iterate?
    requires s.threads[t].pc.sv < |s.svs|
  {
    var th := s.threads[t];
    var v := th.pc.sv;
    var record := if th.pc.goal.record.Some? then th.pc.goal.record.value else s.svs[v].number;
    if th.slot.InUse? then Put(s, t, th.(slot := Cached(v), iter := Some(Iter(v, record)), pc := Idle))
    else Put(s, t, th.(iter := Some(Iter(v, record)), pc := Surplus(v)))
  }

  function DoCloseIter(s: State, t: nat): State
    requires t < |s.threads| && s.threads[t].iter.Some?
  {
    var th := s.threads[t];
    Put(s, t, th.(iter := None, pc := Dropping(th.iter.value.sv, Stop)))
  }

  /** ArenaWrappedDBIter::Refresh: keeps the iterator when the recorded number is still current. */
  function DoRefresh(s: State, t: nat): State
    requires t < |s.threads| && s.threads[t].iter.Some?
  {
    var th := s.threads[t];
    if th.iter.value.recorded == s.svNumber then s
    else Put(s, t, th.(iter := None, pc := Dropping(th.iter.value.sv, Begin(s.svNumber))))
  }

  // References given up.

  /** SuperVersionUnrefHandle, when a thread exits. */
  function DoExit(s: State, t: nat): State
    requires t < |s.threads|
    requires s.threads[t].slot.Cached? ==> s.threads[t].slot.sv < |s.svs| && s.svs[s.threads[t].slot.sv].refs > 0
  {
    var th := s.threads[t];
    if th.slot.Cached? then Put(SubRef(s, th.slot.sv), t, th.(slot := Obsolete)) else s
  }

  function DoUnref(s: State, t: nat): State
    requires t < |s.threads| && s.threads[t].pc.Dropping?
    requires s.threads[t].pc.sv < |s.svs| && s.svs[s.threads[t].pc.sv].refs > 0
  {
    var th := s.threads[t];
    var last := s.svs[th.pc.sv].refs == 1;
    Put(SubRef(s, th.pc.sv), t, th.(pc := if last then Cleaning(th.pc.sv, th.pc.next) else Resume(th.pc.next)))
  }

  function DoCleanUp(s: State, t: nat): State
    requires t < |s.threads| && s.threads[t].pc.Cleaning? && s.threads[t].pc.sv < |s.svs| && s.cfRefs > 0
  {
    var th := s.threads[t];
    Put(Free(s, th.pc.sv), t, th.(pc := Resume(th.pc.next)))
  }

  function DoDropSurplus(s: State, t: nat): State
    requires t < |s.threads| && s.threads[t].pc.Surplus?
    requires s.threads[t].pc.sv < |s.svs| && s.svs[s.threads[t].pc.sv].refs > 0
  {
    var th := s.threads[t];
    Put(SubRef(s, th.pc.sv), t, th.(pc := Idle))
  }

  // InstallSuperVersion and ResetThreadLocalSuperVersions, under the DB mutex throughout.

  function DoInstall(s: State, t: nat): State
    requires t < |s.threads|
  {
    var s' := s.(svs := s.svs + [SuperVersion(s.svNumber + 1, 1, false)], current := Some(|s.svs|),
                 svNumber := s.svNumber + 1, cfRefs := s.cfRefs + 1);
    if s.current.None? then s'
    else Put(s'.(mutex := Some(t), retire := Retire(s.current.value, 0, t)), t, s.threads[t].(pc := Scraping([])))
  }

  function DoScrapeSlot(s: State, t: nat): State
    requires t < |s.threads| && s.threads[t].pc.Scraping? && s.retire.Retire? && s.retire.done < |s.threads|
  {
    var u := s.retire.done;
    var slot := s.threads[u].slot;
    var s1 := Put(s, u, s.threads[u].(slot := Obsolete)).(retire := s.retire.(done := u + 1));
    if slot.Cached? then Put(s1, t, s1.threads[t].(pc := Scraping(s.threads[t].pc.grabbed + [slot.sv]))) else s1
  }

  function DoUnrefScraped(s: State, t: nat): State
    requires t < |s.threads| && s.threads[t].pc.Scraping? && s.threads[t].pc.grabbed != []
    requires s.threads[t].pc.grabbed[0] < |s.svs| && s.svs[s.threads[t].pc.grabbed[0]].refs > 0
  {
    var th := s.threads[t];
    Put(SubRef(s, th.pc.grabbed[0]), t, th.(pc := Scraping(th.pc.grabbed[1..])))
  }

  /** The last act of an installer, or of a deleter: drop the withdrawn reference. */
  function DoFinish(s: State, t: nat): State
    requires t < |s.threads| && s.retire.Retire? && s.retire.sv < |s.svs|
    requires s.svs[s.retire.sv].refs > 0 && s.cfRefs > 0
  {
    var v := s.retire.sv;
    var s1 := Put(SubRef(s, v), t, s.threads[t].(pc := Idle)).(mutex := None, retire := NoRetire);
    if s.svs[v].refs == 1 then Free(s1, v) else s1
  }

  // Column family references, and UnrefAndTryDelete.

  function DoShareHandle(s: State, t: nat): State
    requires t < |s.threads|
  {
    Put(s, t, s.threads[t].(handle := true)).(cfRefs := s.cfRefs + 1)
  }

  function DoReleaseHandle(s: State, t: nat): State
    requires t < |s.threads| && s.cfRefs > 0
  {
    var s1 := s.(cfRefs := s.cfRefs - 1, cfDeleted := s.cfRefs == 1);
    if s.cfRefs == 2 && s.current.Some? then
      Put(s1, t, s.threads[t].(handle := false, pc := Resetting)).(
      current := None, retire := Retire(s.current.value, 0, t))
    else Put(s1, t, s.threads[t].(handle := false))
  }

  function DoResetSlot(s: State, t: nat): State
    requires s.retire.Retire? && s.retire.done < |s.threads|
    requires var slot := s.threads[s.retire.done].slot; slot.Cached? ==> slot.sv < |s.svs| && s.svs[slot.sv].refs > 0
  {
    var u := s.retire.done;
    var slot := s.threads[u].slot;
    var s1 := if slot.Cached? then SubRef(s, slot.sv) else s;
    Put(s1, u, s.threads[u].(slot := Obsolete)).(retire := s.retire.(done := u + 1))
  }

  function DoSpawn(s: State): State {
    s.(threads := s.threads + [Thread(Obsolete, Idle, None, false)],
       retire := if s.retire.Retire? then s.retire.(done := s.retire.done + 1) else NoRetire)
  }

  datatype Action =
    | Spawn | Exit
    | Swap(goal: Goal) | CheckNumber | Unref | CleanUp | LockAndRef | RefAgain | Return | ReturnReferenced
    | DropSurplus | CloseIter | Refresh
    | Install | ScrapeSlot | UnrefScraped | FinishInstall
    | ShareHandle | ReleaseHandle | ResetSlot | FinishDrop

  /** When thread t may take the step: its control point, the mutex, the thread-local registry, and
      what callers must respect, namely that a Get, a Refresh or an Install runs under a reference
      to a column family whose first super version has been installed. */
  predicate Ready(s: State, t: nat, a: Action) {
    if a.Spawn? then s.retire.Retire? ==> s.retire.done == |s.threads|
    else
      && t < |s.threads|
      && var th := s.threads[t];
         match a
         case Spawn => false
         case Exit => th.pc.Idle?
         case Swap(goal) =>
           && th.handle && s.current.Some?
           && ((th.pc.Idle? && (goal.Iterate? ==> goal.record.None? && th.iter.None?))
               || (th.pc.Refreshing? && goal == Iterate(Some(th.pc.record))))
         case CheckNumber => th.pc.Swapped?
         case Unref => th.pc.Dropping?
         case CleanUp => th.pc.Cleaning? && s.mutex.None?
         case LockAndRef => th.pc.LockWait? && s.mutex.None?
         case RefAgain => th.pc.Holding? && th.pc.goal.Iterate?
         case Return => th.pc.Holding? && th.pc.goal.Read?
         case ReturnReferenced => th.pc.Referenced?
         case DropSurplus => th.pc.Surplus?
         case CloseIter => th.pc.Idle? && th.iter.Some?
         case Refresh => th.pc.Idle? && th.iter.Some? && th.handle && s.current.Some?
         case Install => th.pc.Idle? && th.handle && s.mutex.None?
         case ScrapeSlot => th.pc.Scraping? && s.retire.Retire? && s.retire.done < |s.threads|
         case UnrefScraped =>
           th.pc.Scraping? && s.retire.Retire? && s.retire.done == |s.threads| && th.pc.grabbed != []
         case FinishInstall => th.pc == Scraping([]) && s.retire.Retire? && s.retire.done == |s.threads|
         case ShareHandle => !th.handle && exists u :: 0 <= u < |s.threads| && s.threads[u].handle
         case ReleaseHandle => th.pc.Idle? && th.handle && s.mutex.None?
         case ResetSlot => th.pc.Resetting? && s.retire.Retire? && s.retire.done < |s.threads|
         case FinishDrop => th.pc.Resetting? && s.retire.Retire? && s.retire.done == |s.threads| && s.mutex.None?
  }

  predicate Alive(s: State, v: nat) {
    v < |s.svs| && !s.svs[v].freed
  }

  /** A reference whose loss is not the last one. */
  predicate Shared(s: State, v: nat) {
    Alive(s, v) && s.svs[v].refs > 1
  }

  /** What the code asserts, or relies on, at the step: no super version is touched after its
      Cleanup, no count goes below zero, scraping, resetting and thread exit never drop the last
      reference, a swap never finds kSVInUse, and a failed return finds kSVObsolete. */
  predicate Safe(s: State, t: nat, a: Action)
    requires Ready(s, t, a)
  {
    if a.Spawn? then true
    else
      var th := s.threads[t];
      match a
      case Exit => !th.slot.InUse? && (th.slot.Cached? ==> Shared(s, th.slot.sv))
      case Swap(_) => !th.slot.InUse?
      case CheckNumber => !th.pc.ptr.InUse? && (th.pc.ptr.Cached? ==> Alive(s, th.pc.ptr.sv))
      case Unref => Alive(s, th.pc.sv) && s.svs[th.pc.sv].refs > 0
      case CleanUp => Alive(s, th.pc.sv) && s.svs[th.pc.sv].refs == 0 && s.cfRefs > 0
      case LockAndRef => s.current.Some? && Alive(s, s.current.value)
      case RefAgain => Alive(s, th.pc.sv)
      case Return => Alive(s, th.pc.sv) && !th.slot.Cached?
      case ReturnReferenced => Alive(s, th.pc.sv) && th.pc.goal.Iterate? && !th.slot.Cached?
      case DropSurplus => Shared(s, th.pc.sv)
      case CloseIter => Alive(s, th.iter.value.sv)
      case Refresh => Alive(s, th.iter.value.sv)
      case UnrefScraped => Shared(s, th.pc.grabbed[0])
      case FinishInstall => Alive(s, s.retire.sv) && s.svs[s.retire.sv].refs > 0 && s.cfRefs > 1
      case ReleaseHandle => s.cfRefs > 0 && (s.cfRefs == 1 ==> s.current.None?)
      case ResetSlot =>
        var slot := s.threads[s.retire.done].slot;
        !slot.InUse? && (slot.Cached? ==> Shared(s, slot.sv))
      case FinishDrop => Alive(s, s.retire.sv) && s.svs[s.retire.sv].refs > 0 && s.cfRefs > 0
      case _ => true
  }

  function Step(s: State, t: nat, a: Action): State
    requires Ready(s, t, a) && Safe(s, t, a)
  {
    match a
    case Spawn => DoSpawn(s)
    case Exit => DoExit(s, t)
    case Swap(goal) => DoSwap(s, t, goal)
    case CheckNumber => DoCheckNumber(s, t)
    case Unref => DoUnref(s, t)
    case CleanUp => DoCleanUp(s, t)
    case LockAndRef => DoLockAndRef(s, t)
    case RefAgain => DoRefAgain(s, t)
    case Return => DoReturn(s, t)
    case ReturnReferenced => DoReturnReferenced(s, t)
    case DropSurplus => DoDropSurplus(s, t)
    case CloseIter => DoCloseIter(s, t)
    case Refresh => DoRefresh(s, t)
    case Install => DoInstall(s, t)
    case ScrapeSlot => DoScrapeSlot(s, t)
    case UnrefScraped => DoUnrefScraped(s, t)
    case FinishInstall => DoFinish(s, t)
    case ShareHandle => DoShareHandle(s, t)
    case ReleaseHandle => DoReleaseHandle(s, t)
    case ResetSlot => DoResetSlot(s, t)
    case FinishDrop => DoFinish(s, t)
  }

  // ----- every step keeps the invariant

  /** Whoever holds a reference sees a live super version, and the count covers them. */
  lemma HeldIsAlive(s: State, t: nat, v: nat)
    requires Inv(s) && t < |s.threads| && v < |s.svs| && Weight(s.threads[t], v, Reference) > 0
    ensures !s.svs[v].freed
    ensures s.svs[v].refs >= Weight(s.threads[t], v, Reference) + One(s.current == Some(v))
                             + One(s.retire.Retire? && s.retire.sv == v)
  {
    assert Conserved(s, v);
    CountUpdate(s.threads, t, s.threads[t], v, Reference);
  }

  /** How one thread's step changes one super version. */
  predicate Delta(before: SuperVersion, after: SuperVersion, th: Thread, th': Thread, v: nat) {
    && after.number == before.number && after.freed == before.freed
    && after.refs + Weight(th, v, Reference) == before.refs + Weight(th', v, Reference)
    && Weight(th', v, Cleanup) + One(before.refs == 0 && !before.freed)
       == Weight(th, v, Cleanup) + One(after.refs == 0 && !after.freed)
    && (before.freed ==> Weight(th', v, Reference) <= Weight(th, v, Reference))
  }

  ghost predicate PermitsAsMuch(s: State, s': State, u: nat) {
    forall v: nat {:trigger Permitted(s', u, v)} :: Permitted(s, u, v) ==> Permitted(s', u, v)
  }

  /** A thread's own invariant survives the steps of others: its record is untouched, or its slot is
      scraped; the current super version may be replaced but not removed; and its slot may still hold
      what it could hold before. */
  lemma OtherThreadOk(s: State, s': State, u: nat)
    requires u < |s.threads| && u < |s'.threads| && ThreadOk(s, u)
    requires s'.threads[u] == s.threads[u] || s'.threads[u] == s.threads[u].(slot := Obsolete)
    requires s.threads[u].pc.Scraping? || s.threads[u].pc.Resetting? ==>
               && s'.mutex == s.mutex && s'.current == s.current
               && s'.retire.Retire? && s.retire.Retire?
               && s'.retire.sv == s.retire.sv && s'.retire.owner == s.retire.owner
    requires s.threads[u].handle && s.current.Some? ==> s'.current.Some?
    requires s.svNumber <= s'.svNumber && |s.svs| <= |s'.svs|
    requires s'.threads[u].slot.Obsolete? || PermitsAsMuch(s, s', u)
    ensures ThreadOk(s', u)
  {
  }

  lemma OthersOk(s: State, t: nat, s': State)
    requires ThreadsOk(s) && t < |s.threads| && |s'.threads| == |s.threads| && ThreadOk(s', t)
    requires forall u :: 0 <= u < |s.threads| && u != t ==> s'.threads[u] == s.threads[u]
    requires s'.current == s.current && s'.retire == s.retire && s'.mutex == s.mutex
    requires s'.svNumber == s.svNumber && |s'.svs| == |s.svs|
    ensures ThreadsOk(s')
  {
    forall u: nat | u < |s'.threads|
      ensures ThreadOk(s', u)
    {
      assert ThreadOk(s, u);
      if u != t {
        OtherThreadOk(s, s', u);
      }
    }
  }

  lemma ConservedAfter(s: State, t: nat, th: Thread, s': State, v: nat)
    requires t < |s.threads| && v < |s.svs| == |s'.svs| && Conserved(s, v)
    requires s'.threads == s.threads[t := th] && s'.current == s.current && s'.retire == s.retire
    requires Delta(s.svs[v], s'.svs[v], s.threads[t], th, v)
    ensures Conserved(s', v)
  {
    CountUpdate(s.threads, t, th, v, Reference);
    CountUpdate(s.threads, t, th, v, Cleanup);
  }

  /** A step of one thread that touches only its own record and reference counts. */
  lemma ThreadStepKeeps(s: State, t: nat, th: Thread, s': State)
    requires Inv(s) && t < |s.threads|
    requires s' == s.(svs := s'.svs, threads := s.threads[t := th]) && |s'.svs| == |s.svs|
    requires forall v: nat :: v < |s.svs| ==> Delta(s.svs[v], s'.svs[v], s.threads[t], th, v)
    requires th.handle == s.threads[t].handle
    requires th.pc.Scraping? == s.threads[t].pc.Scraping? && th.pc.Resetting? == s.threads[t].pc.Resetting?
    requires ThreadOk(s', t)
    ensures Inv(s')
  {
    forall v: nat | v < |s'.svs|
      ensures Conserved(s', v)
    {
      assert Conserved(s, v);
      ConservedAfter(s, t, th, s', v);
    }
    OthersOk(s, t, s');
    CountUpdate(s.threads, t, th, 0, Handle);
    UnfreedSame(s.svs, s'.svs);
  }

  lemma {:induction false} UnfreedSame(a: seq<SuperVersion>, b: seq<SuperVersion>)
    requires |a| == |b| && forall v :: 0 <= v < |a| ==> a[v].freed == b[v].freed
    ensures Unfreed(a) == Unfreed(b)
  {
    if a != [] {
      UnfreedSame(a[..|a| - 1], b[..|b| - 1]);
    }
  }

  lemma SwapKeeps(s: State, t: nat, goal: Goal)
    requires Inv(s) && Ready(s, t, Swap(goal))
    ensures !s.threads[t].slot.InUse? && Inv(DoSwap(s, t, goal))
  {
    assert ThreadOk(s, t);
    var s' := DoSwap(s, t, goal);
    ThreadStepKeeps(s, t, s'.threads[t], s');
  }

  lemma CheckKeeps(s: State, t: nat)
    requires Inv(s) && t < |s.threads| && s.threads[t].pc.Swapped?
    ensures var ptr := s.threads[t].pc.ptr; !ptr.InUse? && (ptr.Cached? ==> Alive(s, ptr.sv))
    ensures Inv(DoCheckNumber(s, t))
  {
    assert ThreadOk(s, t);
    var ptr := s.threads[t].pc.ptr;
    if ptr.Cached? {
      HeldIsAlive(s, t, ptr.sv);
      assert Conserved(s, ptr.sv);
    }
    var s' := DoCheckNumber(s, t);
    ThreadStepKeeps(s, t, s'.threads[t], s');
  }

  lemma LockAndRefKeeps(s: State, t: nat)
    requires Inv(s) && t < |s.threads| && s.threads[t].pc.LockWait? && s.mutex.None?
    ensures s.current.Some? && Alive(s, s.current.value) && Inv(DoLockAndRef(s, t))
  {
    assert ThreadOk(s, t);
    assert Conserved(s, s.current.value);
    var s' := DoLockAndRef(s, t);
    ThreadStepKeeps(s, t, s'.threads[t], s');
  }

  lemma RefAgainKeeps(s: State, t: nat)
    requires Inv(s) && t < |s.threads| && s.threads[t].pc.Holding? && s.threads[t].pc.goal.Iterate?
    ensures Alive(s, s.threads[t].pc.sv) && Inv(DoRefAgain(s, t))
  {
    assert ThreadOk(s, t);
    HeldIsAlive(s, t, s.threads[t].pc.sv);
    var s' := DoRefAgain(s, t);
    ThreadStepKeeps(s, t, s'.threads[t], s');
  }

  lemma ReturnKeeps(s: State, t: nat)
    requires Inv(s) && t < |s.threads| && s.threads[t].pc.Holding?
    ensures Alive(s, s.threads[t].pc.sv) && !s.threads[t].slot.Cached? && Inv(DoReturn(s, t))
  {
    assert ThreadOk(s, t);
    HeldIsAlive(s, t, s.threads[t].pc.sv);
    var s' := DoReturn(s, t);
    ThreadStepKeeps(s, t, s'.threads[t], s');
  }

  lemma ReturnReferencedKeeps(s: State, t: nat)
    requires Inv(s) && t < |s.threads| && s.threads[t].pc.Referenced?
    ensures Alive(s, s.threads[t].pc.sv) && s.threads[t].pc.goal.Iterate? && !s.threads[t].slot.Cached?
    ensures Inv(DoReturnReferenced(s, t))
  {
    assert ThreadOk(s, t);
    HeldIsAlive(s, t, s.threads[t].pc.sv);
    assert Conserved(s, s.threads[t].pc.sv);
    var s' := DoReturnReferenced(s, t);
    ThreadStepKeeps(s, t, s'.threads[t], s');
  }

  lemma CloseIterKeeps(s: State, t: nat)
    requires Inv(s) && t < |s.threads| && s.threads[t].pc.Idle? && s.threads[t].iter.Some?
    ensures Alive(s, s.threads[t].iter.value.sv) && Inv(DoCloseIter(s, t))
  {
    assert ThreadOk(s, t);
    HeldIsAlive(s, t, s.threads[t].iter.value.sv);
    var s' := DoCloseIter(s, t);
    ThreadStepKeeps(s, t, s'.threads[t], s');
  }

  lemma RefreshKeeps(s: State, t: nat)
    requires Inv(s) && t < |s.threads| && s.threads[t].pc.Idle? && s.threads[t].iter.Some?
    requires s.threads[t].handle && s.current.Some?
    ensures Alive(s, s.threads[t].iter.value.sv) && Inv(DoRefresh(s, t))
  {
    assert ThreadOk(s, t);
    HeldIsAlive(s, t, s.threads[t].iter.value.sv);
    var s' := DoRefresh(s, t);
    if s' != s {
      ThreadStepKeeps(s, t, s'.threads[t], s');
    }
  }

  /** A thread gives up one reference and moves on to a control point that holds none. */
  lemma SubRefKeeps(s: State, t: nat, th: Thread, v: nat)
    requires Inv(s) && t < |s.threads| && v < |s.svs| && s.svs[v].refs > 0
    requires th.handle == s.threads[t].handle
    requires th.pc.Scraping? == s.threads[t].pc.Scraping? && th.pc.Resetting? == s.threads[t].pc.Resetting?
    requires forall w: nat :: w < |s.svs| ==>
                                && Weight(th, w, Reference) + One(w == v) == Weight(s.threads[t], w, Reference)
                                && Weight(s.threads[t], w, Cleanup) == 0
                                && Weight(th, w, Cleanup) == One(w == v && s.svs[v].refs == 1)
    requires ThreadOk(Put(SubRef(s, v), t, th), t)
    ensures Inv(Put(SubRef(s, v), t, th))
  {
    HeldIsAlive(s, t, v);
    ThreadStepKeeps(s, t, th, Put(SubRef(s, v), t, th));
  }

  lemma UnrefKeeps(s: State, t: nat)
    requires Inv(s) && t < |s.threads| && s.threads[t].pc.Dropping?
    ensures Alive(s, s.threads[t].pc.sv) && s.svs[s.threads[t].pc.sv].refs > 0 && Inv(DoUnref(s, t))
  {
    assert ThreadOk(s, t);
    HeldIsAlive(s, t, s.threads[t].pc.sv);
    SubRefKeeps(s, t, DoUnref(s, t).threads[t], s.threads[t].pc.sv);
  }

  lemma ExitKeeps(s: State, t: nat)
    requires Inv(s) && t < |s.threads| && s.threads[t].pc.Idle?
    ensures var slot := s.threads[t].slot; !slot.InUse? && (slot.Cached? ==> Shared(s, slot.sv))
    ensures Inv(DoExit(s, t)) && DoExit(s, t).threads[t].slot.Obsolete?
  {
    assert ThreadOk(s, t);
    if s.threads[t].slot.Cached? {
      HeldIsAlive(s, t, s.threads[t].slot.sv);
      SubRefKeeps(s, t, DoExit(s, t).threads[t], s.threads[t].slot.sv);
    }
  }

  lemma DropSurplusKeeps(s: State, t: nat)
    requires Inv(s) && t < |s.threads| && s.threads[t].pc.Surplus?
    ensures Shared(s, s.threads[t].pc.sv) && Inv(DoDropSurplus(s, t))
  {
    assert ThreadOk(s, t);
    HeldIsAlive(s, t, s.threads[t].pc.sv);
    SubRefKeeps(s, t, DoDropSurplus(s, t).threads[t], s.threads[t].pc.sv);
  }

  lemma GrabbedTail(grabbed: seq<nat>, w: nat)
    requires grabbed != []
    ensures Grabbed(grabbed, w) == Grabbed(grabbed[1..], w) + One(w == grabbed[0])
  {
    assert grabbed == [grabbed[0]] + grabbed[1..];
  }

  lemma UnrefScrapedKeeps(s: State, t: nat)
    requires Inv(s) && t < |s.threads| && s.threads[t].pc.Scraping? && s.threads[t].pc.grabbed != []
    ensures Shared(s, s.threads[t].pc.grabbed[0]) && Inv(DoUnrefScraped(s, t))
  {
    assert ThreadOk(s, t);
    var grabbed := s.threads[t].pc.grabbed;
    forall w: nat
      ensures Grabbed(grabbed, w) == Grabbed(grabbed[1..], w) + One(w == grabbed[0])
    {
      GrabbedTail(grabbed, w);
    }
    HeldIsAlive(s, t, grabbed[0]);
    SubRefKeeps(s, t, DoUnrefScraped(s, t).threads[t], grabbed[0]);
  }

  lemma CleanUpConserves(s: State, t: nat, v: nat)
    requires t < |s.threads| && s.threads[t].pc.Cleaning? && s.threads[t].pc.sv < |s.svs| && s.cfRefs > 0
    requires s.svs[s.threads[t].pc.sv].refs == 0 && !s.svs[s.threads[t].pc.sv].freed
    requires v < |s.svs| && Conserved(s, v)
    ensures Conserved(DoCleanUp(s, t), v)
  {
    var th' := s.threads[t].(pc := Resume(s.threads[t].pc.next));
    CountUpdate(s.threads, t, th', v, Reference);
    CountUpdate(s.threads, t, th', v, Cleanup);
  }

  lemma CleanUpKeeps(s: State, t: nat)
    requires Inv(s) && t < |s.threads| && s.threads[t].pc.Cleaning?
    ensures Alive(s, s.threads[t].pc.sv) && s.svs[s.threads[t].pc.sv].refs == 0 && s.cfRefs > 0
    ensures Inv(DoCleanUp(s, t))
  {
    assert ThreadOk(s, t);
    var th := s.threads[t];
    var x := th.pc.sv;
    assert Conserved(s, x);
    CountUpdate(s.threads, t, th, x, Cleanup);
    UnfreedUpdate(s.svs, x, s.svs[x].(freed := true));
    var s' := DoCleanUp(s, t);
    forall v: nat | v < |s'.svs|
      ensures Conserved(s', v)
    {
      assert Conserved(s, v);
      CleanUpConserves(s, t, v);
    }
    OthersOk(s, t, s');
    CountUpdate(s.threads, t, s'.threads[t], 0, Handle);
  }

  lemma SpawnKeeps(s: State)
    requires Inv(s) && (s.retire.Retire? ==> s.retire.done == |s.threads|)
    ensures Inv(DoSpawn(s))
  {
    var s' := DoSpawn(s);
    var th := Thread(Obsolete, Idle, None, false);
    forall v: nat | v < |s'.svs|
      ensures Conserved(s', v)
    {
      assert Conserved(s, v);
      CountAppend(s.threads, th, v, Reference);
      CountAppend(s.threads, th, v, Cleanup);
    }
    forall u: nat | u < |s'.threads|
      ensures ThreadOk(s', u)
    {
      if u < |s.threads| {
        assert ThreadOk(s, u);
        OtherThreadOk(s, s', u);
      }
    }
    CountAppend(s.threads, th, 0, Handle);
  }

  /** While some thread holds a reference to the column family and the mutex is free, nothing is
      being withdrawn. */
  lemma NothingRetiring(s: State, t: nat)
    requires Inv(s) && t < |s.threads| && s.threads[t].handle && s.mutex.None?
    ensures s.retire.NoRetire?
  {
    if s.retire.Retire? {
      assert ThreadOk(s, s.retire.owner);
      CountUpdate(s.threads, t, s.threads[t], 0, Handle);
    }
  }

  lemma {:induction false} CountZero(ths: seq<Thread>, v: nat, kind: Kind)
    requires forall t :: 0 <= t < |ths| ==> Weight(ths[t], v, kind) == 0
    ensures Count(ths, v, kind) == 0
  {
    if ths != [] {
      CountZero(ths[..|ths| - 1], v, kind);
    }
  }

  /** A super version that does not exist yet is referenced by no one. */
  lemma NewIsUnreferenced(s: State)
    requires Inv(s) && s.mutex.None?
    ensures Count(s.threads, |s.svs|, Reference) == 0 && Count(s.threads, |s.svs|, Cleanup) == 0
  {
    forall t | 0 <= t < |s.threads|
      ensures Weight(s.threads[t], |s.svs|, Reference) == 0 && Weight(s.threads[t], |s.svs|, Cleanup) == 0
    {
      assert ThreadOk(s, t);
    }
    CountZero(s.threads, |s.svs|, Reference);
    CountZero(s.threads, |s.svs|, Cleanup);
  }

  lemma InstallConserves(s: State, t: nat, v: nat)
    requires t < |s.threads| && s.threads[t].pc.Idle? && s.retire.NoRetire?
    requires s.current.Some? ==> s.current.value < |s.svs|
    requires v < |s.svs| && Conserved(s, v)
    ensures Conserved(DoInstall(s, t), v)
  {
    var s' := DoInstall(s, t);
    var th' := s'.threads[t];
    assert s'.threads == s.threads[t := th'];
    CountUpdate(s.threads, t, th', v, Reference);
    CountUpdate(s.threads, t, th', v, Cleanup);
  }

  lemma InstalledConserved(s: State, t: nat)
    requires Inv(s) && t < |s.threads| && s.threads[t].pc.Idle? && s.mutex.None?
    ensures Conserved(DoInstall(s, t), |s.svs|)
  {
    var s' := DoInstall(s, t);
    var th' := s'.threads[t];
    assert s'.threads == s.threads[t := th'];
    NewIsUnreferenced(s);
    CountUpdate(s.threads, t, th', |s.svs|, Reference);
    CountUpdate(s.threads, t, th', |s.svs|, Cleanup);
  }

  lemma InstallThreadOk(s: State, t: nat, u: nat)
    requires Shape(s) && t < |s.threads| && s.threads[t].pc.Idle? && s.threads[t].handle
    requires s.retire.NoRetire? && s.mutex.None? && u < |s.threads| && ThreadOk(s, u)
    ensures ThreadOk(DoInstall(s, t), u)
  {
    var s' := DoInstall(s, t);
    if u != t {
      OtherThreadOk(s, s', u);
    }
  }

  lemma InstallKeeps(s: State, t: nat)
    requires Inv(s) && t < |s.threads| && s.threads[t].pc.Idle? && s.threads[t].handle && s.mutex.None?
    ensures Inv(DoInstall(s, t))
    ensures var s', v := DoInstall(s, t), |s.svs|;
            && s'.current == Some(v) && v < |s'.svs| && s'.svs[..v] == s.svs
            && s'.svs[v].number == s'.svNumber == s.svNumber + 1
  {
    var s' := DoInstall(s, t);
    NothingRetiring(s, t);
    forall v: nat | v < |s'.svs|
      ensures Conserved(s', v)
    {
      if v < |s.svs| {
        assert Conserved(s, v);
        InstallConserves(s, t, v);
      } else {
        InstalledConserved(s, t);
      }
    }
    forall u: nat | u < |s'.threads|
      ensures ThreadOk(s', u)
    {
      assert ThreadOk(s, u) && ThreadOk(s, t);
      InstallThreadOk(s, t, u);
    }
    assert s'.threads == s.threads[t := s'.threads[t]];
    CountUpdate(s.threads, t, s'.threads[t], 0, Handle);
    assert s'.svs[..|s.svs|] == s.svs;
  }

  lemma GrabWeight(th: Thread, x: nat, v: nat, kind: Kind)
    requires th.pc.Scraping?
    ensures Weight(th.(pc := Scraping(th.pc.grabbed + [x])), v, kind)
         == Weight(th, v, kind) + One(kind.Reference? && x == v)
  {
    assert Grabbed(th.pc.grabbed + [x], v) == Grabbed(th.pc.grabbed, v) + One(x == v);
  }

  /** Scraping moves a reference from a slot to the installer. */
  lemma ScrapeCount(s: State, t: nat, v: nat, kind: Kind)
    requires t < |s.threads| && s.threads[t].pc.Scraping? && s.retire.Retire? && s.retire.done < |s.threads|
    ensures Count(DoScrapeSlot(s, t).threads, v, kind) == Count(s.threads, v, kind)
  {
    var u := s.retire.done;
    var th1 := s.threads[u].(slot := Obsolete);
    var ths1 := s.threads[u := th1];
    CountUpdate(s.threads, u, th1, v, kind);
    if s.threads[u].slot.Cached? {
      var grabbed, x := s.threads[t].pc.grabbed, s.threads[u].slot.sv;
      var th2 := ths1[t].(pc := Scraping(grabbed + [x]));
      GrabWeight(ths1[t], x, v, kind);
      CountUpdate(ths1, t, th2, v, kind);
    }
  }

  lemma ScrapeThreadOk(s: State, t: nat, w: nat)
    requires t < |s.threads| && s.threads[t].pc.Scraping? && s.retire.Retire? && s.retire.done < |s.threads|
    requires w < |s.threads| && ThreadOk(s, w) && ThreadOk(s, t) && ThreadOk(s, s.retire.done)
    ensures ThreadOk(DoScrapeSlot(s, t), w)
  {
    var s' := DoScrapeSlot(s, t);
    if w != t {
      assert w != s.retire.done ==> s'.threads[w] == s.threads[w];
      OtherThreadOk(s, s', w);
    }
  }

  lemma ScrapeKeeps(s: State, t: nat)
    requires Inv(s) && t < |s.threads| && s.threads[t].pc.Scraping?
    requires s.retire.Retire? && s.retire.done < |s.threads|
    ensures Inv(DoScrapeSlot(s, t))
  {
    var s' := DoScrapeSlot(s, t);
    assert ThreadOk(s, s.retire.done) && ThreadOk(s, t);
    forall v: nat | v < |s'.svs|
      ensures Conserved(s', v)
    {
      assert Conserved(s, v);
      ScrapeCount(s, t, v, Reference);
      ScrapeCount(s, t, v, Cleanup);
    }
    forall w: nat | w < |s'.threads|
      ensures ThreadOk(s', w)
    {
      assert ThreadOk(s, w);
      ScrapeThreadOk(s, t, w);
    }
    ScrapeCount(s, t, 0, Handle);
  }

  lemma FinishConserves(s: State, t: nat, v: nat)
    requires t < |s.threads| && (s.threads[t].pc == Scraping([]) || s.threads[t].pc.Resetting?)
    requires s.retire.Retire? && s.retire.sv < |s.svs| && s.svs[s.retire.sv].refs > 0 && s.cfRefs > 0
    requires s.current != Some(s.retire.sv) && v < |s.svs| && Conserved(s, v)
    ensures Conserved(DoFinish(s, t), v)
  {
    var th' := s.threads[t].(pc := Idle);
    CountUpdate(s.threads, t, th', v, Reference);
    CountUpdate(s.threads, t, th', v, Cleanup);
  }

  lemma FinishThreadOk(s: State, t: nat, u: nat)
    requires Shape(s) && t < |s.threads| && s.retire.Retire? && s.retire.done == |s.threads| && s.retire.owner == t
    requires !s.threads[t].slot.InUse? && s.svs[s.retire.sv].refs > 0 && s.cfRefs > 0
    requires u < |s.threads| && ThreadOk(s, u)
    ensures ThreadOk(DoFinish(s, t), u)
  {
    if u != t {
      OtherThreadOk(s, DoFinish(s, t), u);
    }
  }

  lemma FinishIsSafe(s: State, t: nat)
    requires Inv(s) && t < |s.threads| && (s.threads[t].pc == Scraping([]) || s.threads[t].pc.Resetting?)
    requires s.retire.Retire?
    ensures Alive(s, s.retire.sv) && s.svs[s.retire.sv].refs > 0 && s.cfRefs > 0
    ensures s.threads[t].pc.Scraping? ==> s.cfRefs > 1
    ensures s.retire.owner == t && !s.threads[t].slot.InUse?
  {
    var x := s.retire.sv;
    assert ThreadOk(s, t);
    assert Conserved(s, x);
    UnfreedUpdate(s.svs, x, s.svs[x]);
    CountUpdate(s.threads, t, s.threads[t], 0, Handle);
  }

  lemma FinishCounted(s: State, t: nat)
    requires Shape(s) && Counted(s) && t < |s.threads| && s.retire.Retire? && s.retire.owner == t
    requires Alive(s, s.retire.sv) && s.svs[s.retire.sv].refs > 0 && s.cfRefs > 0
    ensures Counted(DoFinish(s, t))
  {
    var x := s.retire.sv;
    var s1 := SubRef(s, x);
    UnfreedUpdate(s.svs, x, s1.svs[x]);
    UnfreedUpdate(s1.svs, x, s1.svs[x].(freed := true));
    CountUpdate(s.threads, t, s.threads[t].(pc := Idle), 0, Handle);
  }

  lemma FinishKeeps(s: State, t: nat)
    requires Inv(s) && t < |s.threads| && (s.threads[t].pc == Scraping([]) || s.threads[t].pc.Resetting?)
    requires s.retire.Retire? && s.retire.done == |s.threads|
    ensures Alive(s, s.retire.sv) && s.svs[s.retire.sv].refs > 0 && s.cfRefs > 0
    ensures s.threads[t].pc.Scraping? ==> s.cfRefs > 1
    ensures Inv(DoFinish(s, t))
  {
    FinishIsSafe(s, t);
    FinishCounted(s, t);
    var s' := DoFinish(s, t);
    forall v: nat | v < |s'.svs|
      ensures Conserved(s', v)
    {
      assert Conserved(s, v);
      FinishConserves(s, t, v);
    }
    forall u: nat | u < |s'.threads|
      ensures ThreadOk(s', u)
    {
      assert ThreadOk(s, u);
      FinishThreadOk(s, t, u);
    }
  }

  lemma ShareHandleKeeps(s: State, t: nat)
    requires Inv(s) && t < |s.threads| && !s.threads[t].handle
    requires exists u :: 0 <= u < |s.threads| && s.threads[u].handle
    ensures Inv(DoShareHandle(s, t))
  {
    var u :| 0 <= u < |s.threads| && s.threads[u].handle;
    CountUpdate(s.threads, u, s.threads[u], 0, Handle);
    var s' := DoShareHandle(s, t);
    HandleKeeps(s, t, true, s');
    CountUpdate(s.threads, t, s'.threads[t], 0, Handle);
  }

  /** Taking or leaving a column family reference changes nothing else. */
  lemma HandleKeeps(s: State, t: nat, handle: bool, s': State)
    requires Inv(s) && t < |s.threads| && (!handle ==> s.threads[t].pc.Idle?)
    requires s'.threads == s.threads[t := s.threads[t].(handle := handle)] && s'.svs == s.svs
    requires s'.current == s.current && s'.retire == s.retire && s'.mutex == s.mutex && s'.svNumber == s.svNumber
    ensures Shape(s')
    ensures AllConserved(s')
    ensures ThreadsOk(s')
  {
    forall v: nat | v < |s'.svs|
      ensures Conserved(s', v)
    {
      assert Conserved(s, v);
      ConservedAfter(s, t, s'.threads[t], s', v);
    }
    assert ThreadOk(s, t);
    HandleThreadOk(s, t, handle, s');
    OthersOk(s, t, s');
  }

  lemma HandleThreadOk(s: State, t: nat, handle: bool, s': State)
    requires t < |s.threads| && ThreadOk(s, t) && (!handle ==> s.threads[t].pc.Idle?)
    requires s'.threads == s.threads[t := s.threads[t].(handle := handle)] && s'.svs == s.svs
    requires s'.current == s.current && s'.retire == s.retire && s'.mutex == s.mutex && s'.svNumber == s.svNumber
    ensures ThreadOk(s', t)
  {
  }

  lemma ResetIsSafe(s: State, t: nat)
    requires Inv(s) && t < |s.threads| && s.threads[t].pc.Resetting? && s.retire.Retire? && s.retire.done < |s.threads|
    ensures var slot := s.threads[s.retire.done].slot; !slot.InUse? && (slot.Cached? ==> Shared(s, slot.sv))
    ensures s.retire.owner == t
  {
    var u := s.retire.done;
    var slot := s.threads[u].slot;
    assert ThreadOk(s, t) && ThreadOk(s, u);
    CountUpdate(s.threads, u, s.threads[u], 0, Handle);
    if slot.Cached? {
      HeldIsAlive(s, u, slot.sv);
    }
  }

  lemma ResetKeeps(s: State, t: nat)
    requires Inv(s) && t < |s.threads| && s.threads[t].pc.Resetting? && s.retire.Retire? && s.retire.done < |s.threads|
    requires s.retire.owner == t
    requires var slot := s.threads[s.retire.done].slot; slot.Cached? ==> Shared(s, slot.sv)
    ensures Inv(DoResetSlot(s, t))
  {
    var u := s.retire.done;
    var s' := DoResetSlot(s, t);
    var th' := s'.threads[u];
    forall v: nat | v < |s'.svs|
      ensures Conserved(s', v)
    {
      assert Conserved(s, v);
      ResetConserves(s, t, v);
    }
    forall w: nat | w < |s'.threads|
      ensures ThreadOk(s', w)
    {
      assert ThreadOk(s, w);
      ResetThreadOk(s, t, w);
    }
    CountUpdate(s.threads, u, th', 0, Handle);
    UnfreedSame(s.svs, s'.svs);
  }

  lemma ResetThreadOk(s: State, t: nat, w: nat)
    requires s.retire.Retire? && s.retire.done < |s.threads| && s.retire.owner == t
    requires var slot := s.threads[s.retire.done].slot; slot.Cached? ==> slot.sv < |s.svs| && s.svs[slot.sv].refs > 0
    requires w < |s.threads| && ThreadOk(s, w)
    ensures ThreadOk(DoResetSlot(s, t), w)
  {
    var s' := DoResetSlot(s, t);
    assert w != s.retire.done ==> s'.threads[w] == s.threads[w];
    OtherThreadOk(s, s', w);
  }

  lemma ResetConserves(s: State, t: nat, v: nat)
    requires s.retire.Retire? && s.retire.done < |s.threads|
    requires var slot := s.threads[s.retire.done].slot;
             slot.Cached? ==> slot.sv < |s.svs| && s.svs[slot.sv].refs > 1
    requires v < |s.svs| && Conserved(s, v)
    ensures Conserved(DoResetSlot(s, t), v)
  {
    var u := s.retire.done;
    CountUpdate(s.threads, u, s.threads[u].(slot := Obsolete), v, Reference);
    CountUpdate(s.threads, u, s.threads[u].(slot := Obsolete), v, Cleanup);
  }

  lemma ReleaseHandleKeeps(s: State, t: nat)
    requires Inv(s) && t < |s.threads| && s.threads[t].pc.Idle? && s.threads[t].handle && s.mutex.None?
    ensures s.cfRefs > 0 && (s.cfRefs == 1 ==> s.current.None?)
    ensures Inv(DoReleaseHandle(s, t))
  {
    assert ThreadOk(s, t);
    CountUpdate(s.threads, t, s.threads[t], 0, Handle);
    NothingRetiring(s, t);
    if s.current.Some? {
      assert Conserved(s, s.current.value);
      UnfreedUpdate(s.svs, s.current.value, s.svs[s.current.value]);
    }
    var s' := DoReleaseHandle(s, t);
    CountUpdate(s.threads, t, s'.threads[t], 0, Handle);
    if s.cfRefs == 2 && s.current.Some? {
      DropKeeps(s, t);
    } else {
      HandleKeeps(s, t, false, s');
    }
  }

  lemma DropKeeps(s: State, t: nat)
    requires Inv(s) && t < |s.threads| && s.threads[t].pc.Idle? && s.threads[t].handle
    requires s.mutex.None? && s.retire.NoRetire? && s.cfRefs == 2 && s.current.Some? && Count(s.threads, 0, Handle) == 1
    ensures var s' := DoReleaseHandle(s, t);
            ThreadsOk(s') && AllConserved(s')
  {
    var s' := DoReleaseHandle(s, t);
    forall v: nat | v < |s'.svs|
      ensures Conserved(s', v)
    {
      assert Conserved(s, v);
      CountUpdate(s.threads, t, s'.threads[t], v, Reference);
      CountUpdate(s.threads, t, s'.threads[t], v, Cleanup);
    }
    forall u: nat | u < |s'.threads|
      ensures ThreadOk(s', u)
    {
      assert ThreadOk(s, u);
      if u != t {
        CountTwo(s.threads, t, u, 0, Handle);
      }
      DropThreadOk(s, t, u);
    }
  }

  /** Once the last column family reference but the super version's own is gone, no Get is running. */
  lemma DropThreadOk(s: State, t: nat, u: nat)
    requires Shape(s) && t < |s.threads| && s.threads[t].pc.Idle? && s.retire.NoRetire? && s.mutex.None?
    requires s.cfRefs == 2 && s.current.Some?
    requires u < |s.threads| && ThreadOk(s, u) && (u != t ==> !s.threads[u].handle)
    ensures ThreadOk(DoReleaseHandle(s, t), u)
  {
  }

  // ----- whole runs

  /** Whenever a step can be taken, everything the code asserts there holds, and the invariant is
      kept. */
  lemma StepKeeps(s: State, t: nat, a: Action)
    requires Inv(s) && Ready(s, t, a)
    ensures Safe(s, t, a) && Inv(Step(s, t, a))
  {
    if a.Spawn? || a.Install? || a.ScrapeSlot? || a.UnrefScraped? || a.FinishInstall? || a.FinishDrop? {
      InstallerStepKeeps(s, t, a);
    } else if a.ShareHandle? || a.ReleaseHandle? || a.ResetSlot? || a.Exit? || a.Unref? || a.CleanUp?
              || a.DropSurplus? {
      DropStepKeeps(s, t, a);
    } else {
      ReaderStepKeeps(s, t, a);
    }
  }

  lemma ReaderStepKeeps(s: State, t: nat, a: Action)
    requires Inv(s) && Ready(s, t, a)
    requires a.Swap? || a.CheckNumber? || a.LockAndRef? || a.RefAgain? || a.Return? || a.ReturnReferenced?
             || a.CloseIter? || a.Refresh?
    ensures Safe(s, t, a) && Inv(Step(s, t, a))
  {
    match a {
      case Swap(goal) => SwapKeeps(s, t, goal);
      case CheckNumber => CheckKeeps(s, t);
      case LockAndRef => LockAndRefKeeps(s, t);
      case RefAgain => RefAgainKeeps(s, t);
      case Return => ReturnKeeps(s, t);
      case ReturnReferenced => ReturnReferencedKeeps(s, t);
      case CloseIter => CloseIterKeeps(s, t);
      case Refresh => RefreshKeeps(s, t);
    }
  }

  lemma DropStepKeeps(s: State, t: nat, a: Action)
    requires Inv(s) && Ready(s, t, a)
    requires a.ShareHandle? || a.ReleaseHandle? || a.ResetSlot? || a.Exit? || a.Unref? || a.CleanUp? || a.DropSurplus?
    ensures Safe(s, t, a) && Inv(Step(s, t, a))
  {
    match a {
      case ShareHandle => ShareHandleKeeps(s, t);
      case ReleaseHandle => ReleaseHandleKeeps(s, t);
      case ResetSlot =>
        ResetIsSafe(s, t);
        ResetKeeps(s, t);
      case Exit => ExitKeeps(s, t);
      case Unref => UnrefKeeps(s, t);
      case CleanUp => CleanUpKeeps(s, t);
      case DropSurplus => DropSurplusKeeps(s, t);
    }
  }

  lemma InstallerStepKeeps(s: State, t: nat, a: Action)
    requires Inv(s) && Ready(s, t, a)
    requires a.Spawn? || a.Install? || a.ScrapeSlot? || a.UnrefScraped? || a.FinishInstall? || a.FinishDrop?
    ensures Safe(s, t, a) && Inv(Step(s, t, a))
  {
    match a {
      case Spawn => SpawnKeeps(s);
      case Install => InstallKeeps(s, t);
      case ScrapeSlot => ScrapeKeeps(s, t);
      case UnrefScraped => UnrefScrapedKeeps(s, t);
      case FinishInstall => FinishKeeps(s, t);
      case FinishDrop => FinishKeeps(s, t);
    }
  }

  datatype Move = Move(thread: nat, action: Action)

  /** One thread, holding the only reference to a column family without super version. */
  function Init(): State {
    State([], None, 0, [Thread(Obsolete, Idle, None, true)], None, NoRetire, 1, false)
  }

  /** Runs a schedule. A move that is blocked does nothing; a move that breaks an assertion of the
      code ends the run with None. */
  function Execute(s: State, moves: seq<Move>): Option<State>
    decreases |moves|
  {
    if moves == [] then Some(s)
    else
      var t, a := moves[0].thread, moves[0].action;
      if !Ready(s, t, a) then Execute(s, moves[1..])
      else if !Safe(s, t, a) then None
      else Execute(Step(s, t, a), moves[1..])
  }

  lemma {:induction false} ExecuteKeeps(s: State, moves: seq<Move>)
    requires Inv(s)
    ensures Execute(s, moves).Some? && Inv(Execute(s, moves).value)
    decreases |moves|
  {
    if moves != [] {
      var t, a := moves[0].thread, moves[0].action;
      if Ready(s, t, a) {
        StepKeeps(s, t, a);
        ExecuteKeeps(Step(s, t, a), moves[1..]);
      } else {
        ExecuteKeeps(s, moves[1..]);
      }
    }
  }

  /** No schedule of any number of threads breaks an assertion: no super version is used after its
      Cleanup, no count underflows, and scraping, resetting and thread exit never drop a last
      reference. Every state reached satisfies the invariant. */
  lemma EveryRunIsSafe(moves: seq<Move>)
    ensures Execute(Init(), moves).Some? && Inv(Execute(Init(), moves).value)
  {
    var s := Init();
    assert Count(s.threads, 0, Handle) == 1 by {
      assert s.threads[..0] == [];
    }
    ExecuteKeeps(s, moves);
  }

  // ----- what the invariant says to readers

  ghost predicate Reachable(s: State) {
    exists moves :: Execute(Init(), moves) == Some(s)
  }

  lemma ReachableInv(s: State)
    requires Reachable(s)
    ensures Inv(s)
  {
    var moves :| Execute(Init(), moves) == Some(s);
    EveryRunIsSafe(moves);
  }

  /** The reference count of a super version that has not been freed is exactly the references in
      existence; a freed one has none. */
  lemma ReferencesAreConserved(s: State, v: nat)
    requires Reachable(s) && v < |s.svs|
    ensures s.svs[v].refs == One(s.current == Some(v)) + One(s.retire.Retire? && s.retire.sv == v)
                             + Count(s.threads, v, Reference)
    ensures s.svs[v].freed ==> s.svs[v].refs == 0
  {
    ReachableInv(s);
    assert Conserved(s, v);
  }

  /** When Cleanup of v is due, nobody else owes it and nobody can reach v. */
  lemma CleanupIsExclusive(s: State, t: nat, u: nat)
    requires Reachable(s) && t < |s.threads| && s.threads[t].pc.Cleaning? && u < |s.threads|
    ensures var v := s.threads[t].pc.sv;
            && v < |s.svs| && !s.svs[v].freed && !Pending(s, v)
            && Weight(s.threads[u], v, Reference) == 0
            && (u != t ==> Weight(s.threads[u], v, Cleanup) == 0)
  {
    ReachableInv(s);
    assert ThreadOk(s, t);
    var v := s.threads[t].pc.sv;
    assert Conserved(s, v);
    CountUpdate(s.threads, t, s.threads[t], v, Cleanup);
    CountUpdate(s.threads, u, s.threads[u], v, Reference);
    if u != t {
      CountTwo(s.threads, t, u, v, Cleanup);
    }
  }

  /** With the mutex free, a slot is in use, obsolete, or caches a super version, and that is the current
      one exactly if there is a current one. There is none only before the first is installed, when no
      slot caches anything, and once the column family is being torn down, when a slot may still cache
      the one being withdrawn. */
  lemma SlotsWithMutexFree(s: State, t: nat)
    requires Reachable(s) && s.mutex.None? && t < |s.threads| && s.threads[t].slot.Cached?
    ensures s.current == Some(s.threads[t].slot.sv) <==> s.current.Some?
    ensures s.current.None? ==> s.retire.Retire? && s.retire.sv == s.threads[t].slot.sv
  {
    ReachableInv(s);
    assert ThreadOk(s, t);
    if s.retire.Retire? {
      assert ThreadOk(s, s.retire.owner);
    }
  }

  /** A Get hands out a super version no older than the one current when it began, and Get never
      began later than now. */
  lemma GetIsFresh(s: State, t: nat)
    requires Reachable(s) && t < |s.threads| && (s.threads[t].pc.Holding? || s.threads[t].pc.Referenced?)
    ensures s.threads[t].pc.sv < |s.svs|
    ensures s.threads[t].pc.start <= s.svs[s.threads[t].pc.sv].number <= s.svNumber
  {
    ReachableInv(s);
    assert ThreadOk(s, t);
    assert Conserved(s, s.threads[t].pc.sv);
  }

  /** Refresh keeps an iterator exactly when its super version is the current one and was recorded
      under its own number; the number recorded never exceeds the real one. */
  lemma RefreshKeepsOnlyCurrent(s: State, t: nat)
    requires Reachable(s) && Ready(s, t, Refresh)
    ensures var iter := s.threads[t].iter.value;
            && iter.sv < |s.svs| && iter.recorded <= s.svs[iter.sv].number
            && (DoRefresh(s, t) == s <==> s.current == Some(iter.sv) && iter.recorded == s.svs[iter.sv].number)
  {
    ReachableInv(s);
    assert ThreadOk(s, t);
    var iter := s.threads[t].iter.value;
    assert Conserved(s, iter.sv);
    assert DoRefresh(s, t).threads[t].iter.None? || iter.recorded == s.svNumber;
  }

  /** A return that succeeds, after a Get or inside GetReferencedSuperVersion, puts back the current super
      version exactly if no installer has already replaced it; and an installer that has replaced it
      still holds the mutex and has yet to scrape this slot. */
  lemma ReturnedIsCurrent(s: State, t: nat)
    requires Reachable(s) && t < |s.threads| && (s.threads[t].pc.Holding? || s.threads[t].pc.Referenced?)
    requires s.threads[t].slot.InUse?
    ensures var v := s.threads[t].pc.sv;
            && (s.current == Some(v) <==> !(s.retire.Retire? && s.retire.sv == v))
            && (s.current != Some(v) ==> s.retire.done <= t && s.mutex == Some(s.retire.owner))
  {
    ReachableInv(s);
    assert ThreadOk(s, t);
    if s.retire.Retire? {
      assert ThreadOk(s, s.retire.owner);
    }
  }

  lemma {:induction false} ExecuteAppend(s: State, moves: seq<Move>, m: Move)
    requires Execute(s, moves).Some?
    ensures Execute(s, moves + [m]) == Execute(Execute(s, moves).value, [m])
    decreases |moves|
  {
    if moves != [] {
      var t, a := moves[0].thread, moves[0].action;
      assert (moves + [m])[1..] == moves[1..] + [m];
      ExecuteAppend(if Ready(s, t, a) then Step(s, t, a) else s, moves[1..], m);
    } else {
      assert moves + [m] == [m];
    }
  }

  lemma ReachableStep(s: State, t: nat, a: Action) returns (s': State)
    requires Reachable(s) && Ready(s, t, a)
    ensures Safe(s, t, a) && s' == Step(s, t, a) && Reachable(s')
  {
    ReachableInv(s);
    StepKeeps(s, t, a);
    s' := Step(s, t, a);
    var moves :| Execute(Init(), moves) == Some(s);
    ExecuteAppend(Init(), moves, Move(t, a));
    assert Execute(Init(), moves + [Move(t, a)]) == Some(s');
  }

  lemma Installed() returns (s: State)
    ensures Reachable(s) && |s.svs| == 1 && s.current == Some(0) && s.svNumber == 1 && s.mutex.None?
    ensures s.threads == [Thread(Obsolete, Idle, None, true)] && s.retire.NoRetire? && s.cfRefs == 2
  {
    s := Init();
    assert Execute(s, []) == Some(s);
    s := ReachableStep(s, 0, Install);
  }

  /** A thread with an obsolete slot gets the current super version. */
  lemma Gets(s: State, t: nat, goal: Goal) returns (s': State)
    requires Reachable(s) && Ready(s, t, Swap(goal)) && s.threads[t].slot.Obsolete? && s.mutex.None?
    requires s.current.value < |s.svs|
    ensures Reachable(s') && |s'.threads| == |s.threads|
    ensures s'.threads == s.threads[t := s'.threads[t]]
    ensures s'.threads[t] == s.threads[t].(slot := InUse, pc := Holding(s.current.value, s.svNumber, goal))
    ensures s' == AddRef(s, s.current.value).(threads := s'.threads)
  {
    s' := ReachableStep(s, t, Swap(goal));
    s' := ReachableStep(s', t, CheckNumber);
    s' := ReachableStep(s', t, LockAndRef);
  }

  lemma TwoThreads() returns (s: State)
    ensures Reachable(s) && |s.svs| == 1 && s.current == Some(0) && s.svNumber == 1 && s.mutex.None?
    ensures var idle := Thread(Obsolete, Idle, None, true); s.threads == [idle, idle]
  {
    s := Installed();
    s := ReachableStep(s, 0, Spawn);
    assert s.threads[0].handle;
    s := ReachableStep(s, 1, ShareHandle);
  }

  /** That exception does occur, at either return: a reader can put back a super version that is no longer
      current. */
  lemma ReturnOfReplaced(again: bool) returns (s: State)
    ensures Reachable(s) && |s.threads| == 2 && s.threads[1].slot.InUse?
    ensures if again then Ready(s, 1, ReturnReferenced) else Ready(s, 1, Return)
    ensures s.current != Some(s.threads[1].pc.sv)
  {
    s := TwoThreads();
    s := Gets(s, 1, if again then Iterate(None) else Read);
    if again {
      s := ReachableStep(s, 1, RefAgain);
    }
    s := ReachableStep(s, 0, Install);
  }

  /** A column family is dropped while a slot still caches its last super version: the mutex is free and
      the slot is not empty, but there is no current super version. */
  lemma CachedDuringTeardown() returns (s: State)
    ensures Reachable(s) && s.mutex.None? && s.current.None? && |s.threads| == 1 && s.threads[0].slot == Cached(0)
  {
    s := Installed();
    s := Gets(s, 0, Read);
    s := ReachableStep(s, 0, Return);
    s := ReachableStep(s, 0, ReleaseHandle);
  }
}
