/** ClockCacheShard (cache/clock_cache.cc): handles that carry one atomic word of flags are reused,
    lookups take no mutex, and every atomic operation is one step of an interleaving. */
module ClockCache {
  import opened Wrappers

  datatype CacheKey = CacheKey(key: string, hash: nat)

  type Value = string

  /** A slot of the circular list. The word of flags is (inCache, usage, refs). stay numbers the
      occupancies of all handles in the order in which they were filled: it is an index into the
      history State.inserted. State.deleted holds the stays whose values were handed to their deleter. */
  datatype Handle = Handle(key: CacheKey, value: Value, charge: nat, inCache: bool, usage: bool, refs: nat, stay: nat)

  /** What Insert is asked to put in; hold says that the caller wants a reference. */
  datatype Item = Item(key: CacheKey, value: Value, charge: nat, hold: bool)

  /** What the mutex holder is working on. */
  datatype Task =
    | Evict(wanted: Option<Item>)          // the eviction scan of Insert or SetCapacity
    | Publish(i: nat, item: Item)          // i is filled, an older entry of the key goes next
    | Enter(i: nat, item: Item)            // i goes into the table
    | Account(i: nat, item: Item)          // the charge of i is added to the usage
    | Clear(i: nat)                        // EraseUnRefEntries, at handle i
    | Done

  /** What it has to do to one handle before it goes on with its task. */
  datatype Chore =
    | Nothing
    | EraseEvicted(i: nat)                 // the flags of i are zero, its table entry goes next
    | ClearUsage(i: nat)                   // TryEvict has failed on i, its usage bit goes next
    | Unset(i: nat)                        // the table entry of i is gone, its in-cache bit goes next
    | Recycle(i: nat)                      // i goes to the recycle bin

  /** A thread, or one of the references it holds: each holds at most one. */
  datatype Thread =
    | Idle
    | Found(i: nat, want: CacheKey)                       // Lookup has left the table
    | Referenced(i: nat, stay: nat, want: CacheKey)       // Ref succeeded, the key is checked next
    | Holding(i: nat, stay: nat, key: CacheKey, value: Value, charge: nat)
    | Unreferencing(i: nat, stay: nat)                    // about to drop the reference
    | Recycling(i: nat, stay: nat)                        // dropped the last reference, wants the mutex
    | InLock

  datatype Lock = Free | Taken(owner: nat, chore: Chore, task: Task)

  datatype State = State(handles: seq<Handle>, recycle: seq<nat>, table: map<CacheKey, nat>, usage: nat,
                         capacity: nat, strict: bool, threads: seq<Thread>, lock: Lock,
                         inserted: seq<Item>, deleted: set<nat>)

  function One(b: bool): nat {
    if b then 1 else 0
  }

  // ----- counting

  datatype Kind = Ref | Owe | Todo

  /** What a thread contributes to handle i: a reference, the duty to recycle it, or the steps it still has
      to take before it has dropped its reference. */
  function Weight(th: Thread, i: nat, kind: Kind): nat {
    match kind
    case Ref => One((th.Referenced? || th.Holding? || th.Unreferencing?) && th.i == i)
    case Owe => One(th.Recycling? && th.i == i)
    case Todo =>
      match th
      case Referenced(j, _, _) => if j == i then 3 else 0
      case Holding(j, _, _, _, _) => if j == i then 2 else 0
      case Unreferencing(j, _) => if j == i then 1 else 0
      case _ => 0
  }

  function Count(ths: seq<Thread>, i: nat, kind: Kind): nat {
    if ths == [] then 0
    else Count(ths[..|ths| - 1], i, kind) + Weight(ths[|ths| - 1], i, kind)
  }

  lemma {:induction false} CountUpdate(ths: seq<Thread>, t: nat, th: Thread, i: nat, kind: Kind)
    requires t < |ths|
    ensures Count(ths[t := th], i, kind) + Weight(ths[t], i, kind) == Count(ths, i, kind) + Weight(th, i, kind)
    ensures Weight(ths[t], i, kind) <= Count(ths, i, kind)
  {
    var n := |ths| - 1;
    if t < n {
      CountUpdate(ths[..n], t, th, i, kind);
      assert ths[t := th][..n] == ths[..n][t := th];
    } else {
      assert ths[t := th][..n] == ths[..n];
    }
  }

  lemma CountAppend(ths: seq<Thread>, th: Thread, i: nat, kind: Kind)
    ensures Count(ths + [th], i, kind) == Count(ths, i, kind) + Weight(th, i, kind)
  {
    assert (ths + [th])[..|ths|] == ths;
  }

  lemma {:induction false} CountZero(ths: seq<Thread>, i: nat, kind: Kind)
    requires forall t :: 0 <= t < |ths| ==> Weight(ths[t], i, kind) == 0
    ensures Count(ths, i, kind) == 0
  {
    if ths != [] {
      CountZero(ths[..|ths| - 1], i, kind);
    }
  }

  predicate Inserting(task: Task) {
    task.Publish? || task.Enter? || task.Account?
  }

  /** The same for the mutex holder. */
  function LockWeight(lock: Lock, i: nat, kind: Kind): nat {
    if lock.Free? then 0
    else match kind
      case Ref => One(Inserting(lock.task) && lock.task.item.hold && lock.task.i == i)
      case Owe => One((lock.chore.EraseEvicted? || lock.chore.Recycle?) && lock.chore.i == i)
      case Todo => 0
  }

  function Total(s: State, i: nat, kind: Kind): nat {
    Count(s.threads, i, kind) + LockWeight(s.lock, i, kind)
  }

  function Binned(recycle: seq<nat>, i: nat): nat {
    multiset(recycle)[i]
  }

  function Contribution(handles: seq<Handle>, recycle: seq<nat>, i: nat): nat
    requires i < |handles|
  {
    if Binned(recycle, i) > 0 then 0 else handles[i].charge
  }

  /** The charge of all handles outside the recycle bin. */
  function LiveCharge(handles: seq<Handle>, recycle: seq<nat>, n: nat): nat
    requires n <= |handles|
  {
    if n == 0 then 0
    else LiveCharge(handles, recycle, n - 1) + Contribution(handles, recycle, n - 1)
  }

  /** A charge about to be added to usage. */
  function PendingCharge(lock: Lock): nat {
    if lock.Taken? && Inserting(lock.task) then lock.task.item.charge else 0
  }

  // ----- invariant

  /** The mutex holder knows that the in-cache handle i is not in the table. */
  predicate LockExcuses(lock: Lock, i: nat) {
    && lock.Taken?
    && ((lock.chore.Unset? && lock.chore.i == i)
        || ((lock.task.Publish? || lock.task.Enter?) && lock.task.i == i)
        || (lock.task.Clear? && lock.task.i <= i))
  }

  predicate Erasing(lock: Lock, i: nat) {
    lock.Taken? && lock.chore == EraseEvicted(i)
  }

  predicate Carries(h: Handle, item: Item) {
    h.key == item.key && h.value == item.value && h.charge == item.charge
  }

  /** A handle is free exactly when its in-cache bit and references are gone, and then it is either
      in the recycle bin once or owed to it by exactly one thread. */
  ghost predicate HandleOk(s: State, i: nat)
    requires i < |s.handles|
  {
    var h := s.handles[i];
    && h.refs == Total(s, i, Ref)
    && Binned(s.recycle, i) + Total(s, i, Owe) == One(!h.inCache && h.refs == 0)
    && h.stay < |s.inserted|
    && (h.stay in s.deleted <==> Binned(s.recycle, i) > 0)
    && (h.stay !in s.deleted ==> Carries(h, s.inserted[h.stay]))
    && (h.inCache && !LockExcuses(s.lock, i) ==> h.key in s.table && s.table[h.key] == i)
  }

  ghost predicate EntryOk(s: State, k: CacheKey)
    requires k in s.table
  {
    var i := s.table[k];
    i < |s.handles| && s.handles[i].key == k && (s.handles[i].inCache || Erasing(s.lock, i))
  }

  predicate ThreadOk(s: State, t: nat)
    requires t < |s.threads|
  {
    match s.threads[t]
    case Idle => true
    case Found(i, _) => i < |s.handles|
    case Referenced(i, stay, _) => i < |s.handles| && s.handles[i].stay == stay
    case Holding(i, stay, key, value, charge) =>
      && i < |s.handles|
      && s.handles[i].stay == stay && s.handles[i].key == key
      && s.handles[i].value == value && s.handles[i].charge == charge
    case Unreferencing(i, stay) => i < |s.handles| && s.handles[i].stay == stay
    case Recycling(i, stay) => i < |s.handles| && s.handles[i].stay == stay
    case InLock => s.lock.Taken? && s.lock.owner == t
  }

  predicate Filled(s: State, i: nat, item: Item) {
    i < |s.handles| && s.handles[i].inCache && Carries(s.handles[i], item)
  }

  predicate TaskOk(s: State, task: Task) {
    match task
    case Evict(_) => true
    case Publish(i, item) => Filled(s, i, item) && (item.key in s.table ==> s.table[item.key] != i)
    case Enter(i, item) => Filled(s, i, item) && item.key !in s.table
    case Account(i, item) => Filled(s, i, item)
    case Clear(_) => s.table == map[]
    case Done => true
  }

  predicate ChoreOk(s: State, chore: Chore, task: Task) {
    match chore
    case Nothing => true
    case EraseEvicted(i) =>
      && i < |s.handles| && task.Evict? && !s.handles[i].inCache
      && s.handles[i].key in s.table && s.table[s.handles[i].key] == i
    case ClearUsage(i) => i < |s.handles| && task.Evict?
    case Unset(i) =>
      && i < |s.handles| && (task.Enter? || task.Clear? || task.Done?)
      && (task.Enter? ==> task.i != i) && (task.Clear? ==> task.i == i + 1)
      && (s.handles[i].key in s.table ==> s.table[s.handles[i].key] != i)
    case Recycle(i) => i < |s.handles| && !task.Publish? && !task.Account?
  }

  ghost predicate LockOk(s: State) {
    s.lock.Taken? ==>
      && s.lock.owner < |s.threads| && s.threads[s.lock.owner].InLock?
      && TaskOk(s, s.lock.task) && ChoreOk(s, s.lock.chore, s.lock.task)
  }

  ghost predicate ThreadsOk(s: State) {
    forall t: nat {:trigger ThreadOk(s, t)} :: t < |s.threads| ==> ThreadOk(s, t)
  }

  ghost predicate HandlesOk(s: State) {
    forall i: nat {:trigger HandleOk(s, i)} :: i < |s.handles| ==> HandleOk(s, i)
  }

  ghost predicate TableOk(s: State) {
    forall k {:trigger EntryOk(s, k)} :: k in s.table ==> EntryOk(s, k)
  }

  /** The bin holds handles, and no two occupancies share a number. */
  ghost predicate StaysOk(s: State) {
    && (forall i: nat {:trigger Binned(s.recycle, i)} :: Binned(s.recycle, i) > 0 ==> i < |s.handles|)
    && (forall i, j :: 0 <= i < j < |s.handles| ==> s.handles[i].stay != s.handles[j].stay)
    && (forall d :: d in s.deleted ==> d < |s.inserted|)
  }

  ghost predicate UsageOk(s: State) {
    s.usage + PendingCharge(s.lock) == LiveCharge(s.handles, s.recycle, |s.handles|)
  }

  ghost predicate Inv(s: State) {
    LockOk(s) && ThreadsOk(s) && HandlesOk(s) && TableOk(s) && StaysOk(s) && UsageOk(s)
  }

  // ----- steps

  function Put(s: State, t: nat, th: Thread): State
    requires t < |s.threads|
  {
    s.(threads := s.threads[t := th])
  }

  function SetHandle(s: State, i: nat, h: Handle): State
    requires i < |s.handles|
  {
    s.(handles := s.handles[i := h])
  }

  /** RecycleHandle: clears the handle, bins it, and hands its value to its deleter. */
  function RecycleHandle(s: State, i: nat): State
    requires i < |s.handles| && s.handles[i].charge <= s.usage
  {
    var h := s.handles[i];
    SetHandle(s, i, h.(key := CacheKey("", h.key.hash), value := "")).(
    recycle := s.recycle + [i], usage := s.usage - h.charge, deleted := s.deleted + {h.stay})
  }

  function LockDo(s: State, chore: Chore, task: Task): State
    requires s.lock.Taken?
  {
    s.(lock := s.lock.(chore := chore, task := task))
  }

  // Lookup, Ref and Release, without the mutex.

  function DoFind(s: State, t: nat, k: CacheKey): State
    requires t < |s.threads|
  {
    if k in s.table then Put(s, t, Found(s.table[k], k)) else s
  }

  /** The compare-and-swap loop of Ref, at its last iteration. */
  function DoTryRef(s: State, t: nat): State
    requires t < |s.threads| && s.threads[t].Found? && s.threads[t].i < |s.handles|
  {
    var i := s.threads[t].i;
    var h := s.handles[i];
    if h.inCache then Put(SetHandle(s, i, h.(refs := h.refs + 1)), t, Referenced(i, h.stay, s.threads[t].want))
    else Put(s, t, Idle)
  }

  function DoCheckKey(s: State, t: nat): State
    requires t < |s.threads| && s.threads[t].Referenced? && s.threads[t].i < |s.handles|
  {
    var i := s.threads[t].i;
    var h := s.handles[i];
    if h.key == s.threads[t].want then Put(s, t, Holding(i, h.stay, h.key, h.value, h.charge))
    else Put(s, t, Unreferencing(i, h.stay))
  }

  /** Ref on a handle that thread t holds, for thread u. */
  function DoShare(s: State, t: nat, u: nat): State
    requires t < |s.threads| && u < |s.threads| && s.threads[t].Holding? && s.threads[t].i < |s.handles|
  {
    var h := s.handles[s.threads[t].i];
    if h.inCache then Put(SetHandle(s, s.threads[t].i, h.(refs := h.refs + 1)), u, s.threads[t]) else s
  }

  /** Release sets the usage bit before it drops the reference. */
  function DoRelease(s: State, t: nat): State
    requires t < |s.threads| && s.threads[t].Holding? && s.threads[t].i < |s.handles|
  {
    var i := s.threads[t].i;
    Put(SetHandle(s, i, s.handles[i].(usage := true)), t, Unreferencing(i, s.threads[t].stay))
  }

  function DoUnref(s: State, t: nat): State
    requires t < |s.threads| && s.threads[t].Unreferencing? && s.threads[t].i < |s.handles|
    requires s.handles[s.threads[t].i].refs > 0
  {
    var i := s.threads[t].i;
    var h := s.handles[i];
    Put(SetHandle(s, i, h.(refs := h.refs - 1)), t,
        if h.refs == 1 && !h.inCache then Recycling(i, s.threads[t].stay) else Idle)
  }

  /** The last reference to an erased entry is gone: lock, recycle, unlock. */
  function DoRecycleOwn(s: State, t: nat): State
    requires t < |s.threads| && s.threads[t].Recycling? && s.threads[t].i < |s.handles|
    requires s.handles[s.threads[t].i].charge <= s.usage
  {
    Put(RecycleHandle(s, s.threads[t].i), t, Idle)
  }

  // Insert, Erase, EraseUnRefEntries and SetCapacity, under the mutex.

  function DoLock(s: State, t: nat, chore: Chore, task: Task): State
    requires t < |s.threads|
  {
    Put(s, t, InLock).(lock := Taken(t, chore, task))
  }

  function DoErase(s: State, t: nat, k: CacheKey): State
    requires t < |s.threads|
  {
    if k in s.table then DoLock(s.(table := s.table - {k}), t, Unset(s.table[k]), Done) else s
  }

  function DoStartClear(s: State, t: nat): State
    requires t < |s.threads|
  {
    DoLock(s.(table := map[]), t, Nothing, Clear(0))
  }

  /** The compare-and-swap of TryEvict. When it fails, clearing the usage bit is an operation of its own. */
  function DoTryEvict(s: State, i: nat): State
    requires s.lock.Taken? && i < |s.handles|
  {
    var h := s.handles[i];
    if h.inCache && !h.usage && h.refs == 0 then
      LockDo(SetHandle(s, i, h.(inCache := false)), EraseEvicted(i), s.lock.task)
    else LockDo(s, ClearUsage(i), s.lock.task)
  }

  function DoClearUsage(s: State): State
    requires s.lock.Taken? && s.lock.chore.ClearUsage? && s.lock.chore.i < |s.handles|
  {
    var i := s.lock.chore.i;
    LockDo(SetHandle(s, i, s.handles[i].(usage := false)), Nothing, s.lock.task)
  }

  function DoEraseEvicted(s: State): State
    requires s.lock.Taken? && s.lock.chore.EraseEvicted? && s.lock.chore.i < |s.handles|
  {
    var i := s.lock.chore.i;
    LockDo(s.(table := s.table - {s.handles[i].key}), Recycle(i), s.lock.task)
  }

  function DoRecycle(s: State): State
    requires s.lock.Taken? && s.lock.chore.Recycle? && s.lock.chore.i < |s.handles|
    requires s.handles[s.lock.chore.i].charge <= s.usage
  {
    LockDo(RecycleHandle(s, s.lock.chore.i), Nothing, s.lock.task)
  }

  /** Takes a handle from the bin, or a new one, and fills it. */
  function DoFill(s: State): State
    requires s.lock.Taken? && s.lock.task.Evict? && s.lock.task.wanted.Some?
    requires s.recycle != [] ==> s.recycle[|s.recycle| - 1] < |s.handles|
  {
    var item := s.lock.task.wanted.value;
    var h := Handle(item.key, item.value, item.charge, true, false, One(item.hold), |s.inserted|);
    var n := |s.recycle|;
    if n > 0 then
      LockDo(SetHandle(s, s.recycle[n - 1], h), Nothing, Publish(s.recycle[n - 1], item)).(
      recycle := s.recycle[..n - 1], inserted := s.inserted + [item])
    else
      LockDo(s.(handles := s.handles + [h], inserted := s.inserted + [item]), Nothing, Publish(|s.handles|, item))
  }

  function DoPublish(s: State): State
    requires s.lock.Taken? && s.lock.task.Publish?
  {
    var i, item := s.lock.task.i, s.lock.task.item;
    if item.key in s.table then
      LockDo(s.(table := s.table - {item.key}), Unset(s.table[item.key]), Enter(i, item))
    else LockDo(s, Nothing, Enter(i, item))
  }

  function DoUnset(s: State): State
    requires s.lock.Taken? && s.lock.chore.Unset? && s.lock.chore.i < |s.handles|
  {
    var i := s.lock.chore.i;
    var h := s.handles[i];
    LockDo(SetHandle(s, i, h.(inCache := false)), if h.inCache && h.refs == 0 then Recycle(i) else Nothing, s.lock.task)
  }

  function DoEnter(s: State): State
    requires s.lock.Taken? && s.lock.task.Enter?
  {
    var i, item := s.lock.task.i, s.lock.task.item;
    LockDo(s.(table := s.table[item.key := i]), Nothing, Account(i, item))
  }

  /** The end of Insert: with a reference wanted, the caller now holds it. */
  function DoAccount(s: State): State
    requires s.lock.Taken? && s.lock.task.Account? && s.lock.task.i < |s.handles| && s.lock.owner < |s.threads|
  {
    var i, item := s.lock.task.i, s.lock.task.item;
    Put(s, s.lock.owner, if item.hold then Holding(i, s.handles[i].stay, item.key, item.value, item.charge) else Idle).(
    usage := s.usage + item.charge, lock := Free)
  }

  function DoClear(s: State): State
    requires s.lock.Taken? && s.lock.task.Clear?
  {
    var i := s.lock.task.i;
    if i < |s.handles| then LockDo(s, Unset(i), Clear(i + 1)) else LockDo(s, Nothing, Done)
  }

  function DoUnlock(s: State): State
    requires s.lock.Taken? && s.lock.owner < |s.threads|
  {
    Put(s, s.lock.owner, Idle).(lock := Free)
  }

  /** SetCapacity: the new capacity, then an eviction scan. */
  function DoResize(s: State, t: nat, capacity: nat): State
    requires t < |s.threads|
  {
    DoLock(s.(capacity := capacity), t, Nothing, Evict(None))
  }

  function DoSpawn(s: State): State {
    s.(threads := s.threads + [Idle])
  }

  // ----- every step keeps the invariant

  /** Changing one handle or one bin entry changes one summand. */
  lemma {:induction false} LiveChargePoint(hs: seq<Handle>, r: seq<nat>, hs': seq<Handle>, r': seq<nat>, i: nat, n: nat)
    requires n <= |hs| && n <= |hs'| && i < |hs| && i < |hs'|
    requires forall j: nat :: j < n && j != i ==> Contribution(hs, r, j) == Contribution(hs', r', j)
    ensures LiveCharge(hs', r', n) + (if i < n then Contribution(hs, r, i) else 0)
         == LiveCharge(hs, r, n) + (if i < n then Contribution(hs', r', i) else 0)
    ensures i < n ==> Contribution(hs, r, i) <= LiveCharge(hs, r, n)
  {
    if n > 0 {
      LiveChargePoint(hs, r, hs', r', i, n - 1);
    }
  }

  lemma {:induction false} LiveChargeSame(hs: seq<Handle>, r: seq<nat>, hs': seq<Handle>, r': seq<nat>, n: nat)
    requires n <= |hs| && n <= |hs'|
    requires forall j: nat :: j < n ==> Contribution(hs, r, j) == Contribution(hs', r', j)
    ensures LiveCharge(hs', r', n) == LiveCharge(hs, r, n)
  {
    if n > 0 {
      LiveChargeSame(hs, r, hs', r', n - 1);
    }
  }

  /** Two handles that differ only in their usage bit and references. */
  predicate SameEntry(h: Handle, h': Handle) {
    h' == h.(usage := h'.usage, refs := h'.refs)
  }

  /** How a thread's step changes the flags of one handle. */
  predicate Delta(h: Handle, h': Handle, th: Thread, th': Thread, i: nat) {
    && SameEntry(h, h')
    && h'.refs + Weight(th, i, Ref) == h.refs + Weight(th', i, Ref)
    && Weight(th', i, Owe) + One(!h.inCache && h.refs == 0) == Weight(th, i, Owe) + One(!h'.inCache && h'.refs == 0)
  }

  lemma DeltaKeeps(s: State, t: nat, th: Thread, s': State, i: nat)
    requires t < |s.threads| && |s'.handles| == |s.handles| && i < |s.handles| && HandleOk(s, i)
    requires s' == s.(threads := s.threads[t := th], handles := s'.handles)
    requires Delta(s.handles[i], s'.handles[i], s.threads[t], th, i)
    ensures HandleOk(s', i)
  {
    CountUpdate(s.threads, t, th, i, Ref);
    CountUpdate(s.threads, t, th, i, Owe);
  }

  /** A step of one thread without the mutex, on its own record and on flags. */
  lemma ReaderKeeps(s: State, t: nat, th: Thread, s': State)
    requires Inv(s) && t < |s.threads| && !s.threads[t].InLock? && !th.InLock?
    requires s' == s.(threads := s.threads[t := th], handles := s'.handles) && |s'.handles| == |s.handles|
    requires forall i: nat :: i < |s.handles| ==> Delta(s.handles[i], s'.handles[i], s.threads[t], th, i)
    requires ThreadOk(s', t)
    ensures Inv(s')
  {
    forall i: nat | i < |s'.handles|
      ensures HandleOk(s', i)
    {
      assert HandleOk(s, i);
      DeltaKeeps(s, t, th, s', i);
    }
    forall u: nat | u < |s'.threads|
      ensures ThreadOk(s', u)
    {
      assert ThreadOk(s, u);
    }
    forall k | k in s'.table
      ensures EntryOk(s', k)
    {
      assert EntryOk(s, k);
    }
    LiveChargeSame(s.handles, s.recycle, s'.handles, s'.recycle, |s.handles|);
  }

  /** A referenced handle has not been recycled. */
  lemma ReferencedIsLive(s: State, t: nat)
    requires Inv(s) && t < |s.threads|
    requires s.threads[t].Referenced? || s.threads[t].Holding? || s.threads[t].Unreferencing?
    ensures var i := s.threads[t].i;
            i < |s.handles| && s.handles[i].refs > 0 && Binned(s.recycle, i) == 0 && s.handles[i].stay !in s.deleted
  {
    assert ThreadOk(s, t);
    var i := s.threads[t].i;
    assert HandleOk(s, i);
    CountUpdate(s.threads, t, s.threads[t], i, Ref);
  }

  lemma FindKeeps(s: State, t: nat, k: CacheKey)
    requires Inv(s) && t < |s.threads| && s.threads[t].Idle?
    ensures Inv(DoFind(s, t, k))
  {
    if k in s.table {
      assert EntryOk(s, k);
      ReaderKeeps(s, t, Found(s.table[k], k), DoFind(s, t, k));
    }
  }

  lemma TryRefKeeps(s: State, t: nat)
    requires Inv(s) && t < |s.threads| && s.threads[t].Found?
    ensures s.threads[t].i < |s.handles| && Inv(DoTryRef(s, t))
  {
    assert ThreadOk(s, t);
    ReaderKeeps(s, t, DoTryRef(s, t).threads[t], DoTryRef(s, t));
  }

  lemma CheckKeyKeeps(s: State, t: nat)
    requires Inv(s) && t < |s.threads| && s.threads[t].Referenced?
    ensures s.threads[t].i < |s.handles| && Inv(DoCheckKey(s, t))
  {
    assert ThreadOk(s, t);
    ReaderKeeps(s, t, DoCheckKey(s, t).threads[t], DoCheckKey(s, t));
  }

  lemma ShareKeeps(s: State, t: nat, u: nat)
    requires Inv(s) && t < |s.threads| && u < |s.threads| && s.threads[t].Holding? && s.threads[u].Idle?
    ensures s.threads[t].i < |s.handles| && Inv(DoShare(s, t, u))
  {
    assert ThreadOk(s, t);
    if s.handles[s.threads[t].i].inCache {
      ReaderKeeps(s, u, s.threads[t], DoShare(s, t, u));
    }
  }

  lemma ReleaseKeeps(s: State, t: nat)
    requires Inv(s) && t < |s.threads| && s.threads[t].Holding?
    ensures s.threads[t].i < |s.handles| && Inv(DoRelease(s, t))
  {
    assert ThreadOk(s, t);
    ReaderKeeps(s, t, DoRelease(s, t).threads[t], DoRelease(s, t));
  }

  lemma UnrefKeeps(s: State, t: nat)
    requires Inv(s) && t < |s.threads| && s.threads[t].Unreferencing?
    ensures s.threads[t].i < |s.handles| && s.handles[s.threads[t].i].refs > 0 && Inv(DoUnref(s, t))
  {
    assert ThreadOk(s, t);
    ReferencedIsLive(s, t);
    ReaderKeeps(s, t, DoUnref(s, t).threads[t], DoUnref(s, t));
  }

  // Recycling.

  lemma BinnedAppend(recycle: seq<nat>, i: nat, j: nat)
    ensures Binned(recycle + [i], j) == Binned(recycle, j) + One(i == j)
  {
  }

  lemma {:induction false} LiveChargeTwo(hs: seq<Handle>, r: seq<nat>, i: nat, j: nat, n: nat)
    requires i < |hs| && j < |hs| && i != j && n <= |hs|
    ensures (if i < n then Contribution(hs, r, i) else 0) + (if j < n then Contribution(hs, r, j) else 0)
         <= LiveCharge(hs, r, n)
  {
    if n > 0 {
      LiveChargeTwo(hs, r, i, j, n - 1);
    }
  }

  /** A handle owed to the bin is free, not yet binned, and its value not yet deleted. */
  lemma OwedIsFree(s: State, i: nat)
    requires Inv(s) && i < |s.handles| && Total(s, i, Owe) > 0
    ensures !s.handles[i].inCache && s.handles[i].refs == 0 && Total(s, i, Owe) == 1
    ensures Binned(s.recycle, i) == 0 && s.handles[i].stay !in s.deleted
    ensures forall t :: 0 <= t < |s.threads| ==> Weight(s.threads[t], i, Ref) == 0
  {
    assert HandleOk(s, i);
    forall t | 0 <= t < |s.threads|
      ensures Weight(s.threads[t], i, Ref) == 0
    {
      CountUpdate(s.threads, t, s.threads[t], i, Ref);
    }
  }

  /** What RecycleHandle does to the accounts and to the numbering. */
  lemma RecycleAccounts(s: State, i: nat)
    requires StaysOk(s) && i < |s.handles| && Binned(s.recycle, i) == 0 && s.handles[i].stay < |s.inserted|
    requires s.handles[i].charge <= s.usage
    ensures var s' := RecycleHandle(s, i);
            && StaysOk(s')
            && LiveCharge(s'.handles, s'.recycle, |s'.handles|) + s.handles[i].charge
               == LiveCharge(s.handles, s.recycle, |s.handles|)
  {
    var s' := RecycleHandle(s, i);
    forall j: nat
      ensures Binned(s'.recycle, j) == Binned(s.recycle, j) + One(i == j)
    {
      BinnedAppend(s.recycle, i, j);
    }
    LiveChargePoint(s.handles, s.recycle, s'.handles, s'.recycle, i, |s.handles|);
  }

  /** Recycling a handle that one party owed, as that party moves on. */
  lemma RecycleKeeps(s: State, i: nat, s': State)
    requires Inv(s) && i < |s.handles| && s.handles[i].charge <= s.usage && Total(s, i, Owe) > 0
    requires s' == RecycleHandle(s, i).(threads := s'.threads, lock := s'.lock)
    requires forall j: nat :: j < |s.handles| ==> Total(s', j, Ref) == Total(s, j, Ref)
                                                  && Total(s', j, Owe) + One(i == j) == Total(s, j, Owe)
    requires forall j: nat :: LockExcuses(s'.lock, j) == LockExcuses(s.lock, j)
    requires (s.lock.Taken? ==> !s.lock.chore.EraseEvicted?) && PendingCharge(s'.lock) == PendingCharge(s.lock)
    requires LockOk(s') && ThreadsOk(s')
    ensures Inv(s')
  {
    OwedIsFree(s, i);
    assert HandleOk(s, i);
    RecycleAccounts(s, i);
    forall j: nat | j < |s'.handles|
      ensures HandleOk(s', j)
    {
      assert HandleOk(s, j);
      BinnedAppend(s.recycle, i, j);
      assert j != i ==> s.handles[j].stay != s.handles[i].stay;
    }
    forall k | k in s'.table
      ensures EntryOk(s', k)
    {
      assert EntryOk(s, k);
    }
  }

  lemma RecycleThreadsOk(s: State, i: nat)
    requires Inv(s) && i < |s.handles| && s.handles[i].charge <= s.usage && Total(s, i, Owe) > 0
    ensures ThreadsOk(RecycleHandle(s, i))
  {
    OwedIsFree(s, i);
    var s' := RecycleHandle(s, i);
    forall t: nat | t < |s'.threads|
      ensures ThreadOk(s', t)
    {
      assert ThreadOk(s, t);
    }
  }

  lemma RecycleOwnKeeps(s: State, t: nat)
    requires Inv(s) && t < |s.threads| && s.threads[t].Recycling? && s.lock.Free?
    ensures var i := s.threads[t].i;
            && i < |s.handles| && !s.handles[i].inCache && s.handles[i].refs == 0
            && s.handles[i].stay !in s.deleted && s.handles[i].charge <= s.usage
    ensures Inv(DoRecycleOwn(s, t))
  {
    assert ThreadOk(s, t);
    var i := s.threads[t].i;
    CountUpdate(s.threads, t, Idle, i, Owe);
    OwedIsFree(s, i);
    LiveChargePoint(s.handles, s.recycle, s.handles, s.recycle, i, |s.handles|);
    RecycleThreadsOk(s, i);
    var s' := DoRecycleOwn(s, t);
    forall j: nat | j < |s.handles|
      ensures Total(s', j, Ref) == Total(s, j, Ref) && Total(s', j, Owe) + One(i == j) == Total(s, j, Owe)
    {
      CountUpdate(s.threads, t, Idle, j, Ref);
      CountUpdate(s.threads, t, Idle, j, Owe);
    }
    forall u: nat | u < |s'.threads|
      ensures ThreadOk(s', u)
    {
      assert ThreadOk(RecycleHandle(s, i), u);
    }
    RecycleKeeps(s, i, s');
  }

  lemma LockRecycleKeeps(s: State)
    requires Inv(s) && s.lock.Taken? && s.lock.chore.Recycle?
    ensures var i := s.lock.chore.i;
            && i < |s.handles| && !s.handles[i].inCache && s.handles[i].refs == 0
            && s.handles[i].stay !in s.deleted && s.handles[i].charge <= s.usage
    ensures Inv(DoRecycle(s))
  {
    var i, task := s.lock.chore.i, s.lock.task;
    OwedIsFree(s, i);
    if task.Enter? {
      assert HandleOk(s, task.i);
      LiveChargeTwo(s.handles, s.recycle, i, task.i, |s.handles|);
    } else {
      LiveChargePoint(s.handles, s.recycle, s.handles, s.recycle, i, |s.handles|);
    }
    RecycleThreadsOk(s, i);
    var s' := DoRecycle(s);
    forall u: nat | u < |s'.threads|
      ensures ThreadOk(s', u)
    {
      assert ThreadOk(RecycleHandle(s, i), u);
    }
    RecycleKeeps(s, i, s');
  }

  // The mutex holder.

  /** A step of the mutex holder that leaves the bin alone: what remains to be shown handle by handle
      and entry by entry. */
  lemma HolderKeeps(s: State, s': State)
    requires Inv(s) && |s'.handles| == |s.handles| && s'.recycle == s.recycle && s'.usage == s.usage
    requires s'.inserted == s.inserted && s'.deleted == s.deleted
    requires forall i :: 0 <= i < |s.handles| ==>
                           var h := s'.handles[i]; h == s.handles[i].(inCache := h.inCache, usage := h.usage)
    requires PendingCharge(s'.lock) == PendingCharge(s.lock)
    requires LockOk(s') && HandlesOk(s') && TableOk(s')
    requires |s'.threads| == |s.threads|
    requires forall t :: 0 <= t < |s.threads| ==>
                           if s'.threads[t] == s.threads[t] then
                             s.threads[t].InLock? ==> s'.lock.Taken? && s'.lock.owner == t
                           else s'.threads[t].Idle? || (s'.threads[t].InLock? && s'.lock.Taken? && s'.lock.owner == t)
    ensures Inv(s')
  {
    forall t: nat | t < |s'.threads|
      ensures ThreadOk(s', t)
    {
      assert ThreadOk(s, t);
    }
    LiveChargeSame(s.handles, s.recycle, s'.handles, s'.recycle, |s.handles|);
  }

  /** Entering or leaving the mutex does not change who refers to what. */
  lemma SwitchHandleOk(s: State, t: nat, th: Thread, s': State, i: nat)
    requires t < |s.threads| && i < |s.handles| && HandleOk(s, i)
    requires (s.threads[t].Idle? || s.threads[t].InLock?) && (th.Idle? || th.InLock?)
    requires s'.threads == s.threads[t := th] && s'.handles == s.handles && s'.recycle == s.recycle
    requires s'.inserted == s.inserted && s'.deleted == s.deleted
    requires LockWeight(s'.lock, i, Ref) == LockWeight(s.lock, i, Ref)
    requires LockWeight(s'.lock, i, Owe) == LockWeight(s.lock, i, Owe)
    requires s.handles[i].inCache && !LockExcuses(s'.lock, i) ==>
               s.handles[i].key in s'.table && s'.table[s.handles[i].key] == i
    ensures HandleOk(s', i)
  {
    CountUpdate(s.threads, t, th, i, Ref);
    CountUpdate(s.threads, t, th, i, Owe);
  }

  lemma LockKeeps(s: State, t: nat, task: Task)
    requires Inv(s) && t < |s.threads| && s.threads[t].Idle? && s.lock.Free? && task.Evict?
    ensures Inv(DoLock(s, t, Nothing, task))
  {
    var s' := DoLock(s, t, Nothing, task);
    forall i: nat | i < |s'.handles|
      ensures HandleOk(s', i)
    {
      assert HandleOk(s, i);
      SwitchHandleOk(s, t, InLock, s', i);
    }
    forall k | k in s'.table
      ensures EntryOk(s', k)
    {
      assert EntryOk(s, k);
    }
    forall u | 0 <= u < |s.threads|
      ensures s.threads[u].InLock? ==> s'.lock.Taken? && s'.lock.owner == u
    {
      assert ThreadOk(s, u);
    }
    HolderKeeps(s, s');
  }

  /** The limits are in nobody's way. */
  lemma LimitsKeep(s: State, s': State)
    requires Inv(s) && s' == s.(capacity := s'.capacity, strict := s'.strict)
    ensures Inv(s')
  {
    forall i: nat | i < |s'.handles|
      ensures HandleOk(s', i)
    {
      assert HandleOk(s, i);
    }
    forall u: nat | u < |s'.threads|
      ensures ThreadOk(s', u)
    {
      assert ThreadOk(s, u);
    }
    forall k | k in s'.table
      ensures EntryOk(s', k)
    {
      assert EntryOk(s, k);
    }
  }

  lemma ResizeKeeps(s: State, t: nat, capacity: nat)
    requires Inv(s) && t < |s.threads| && s.threads[t].Idle? && s.lock.Free?
    ensures Inv(DoResize(s, t, capacity))
  {
    LimitsKeep(s, s.(capacity := capacity));
    LockKeeps(s.(capacity := capacity), t, Evict(None));
  }

  lemma EraseKeeps(s: State, t: nat, k: CacheKey)
    requires Inv(s) && t < |s.threads| && s.threads[t].Idle? && s.lock.Free?
    ensures Inv(DoErase(s, t, k))
  {
    var s' := DoErase(s, t, k);
    if k in s.table {
      assert EntryOk(s, k);
      forall i: nat | i < |s'.handles|
        ensures HandleOk(s', i)
      {
        assert HandleOk(s, i);
        SwitchHandleOk(s, t, InLock, s', i);
      }
      forall k' | k' in s'.table
        ensures EntryOk(s', k')
      {
        assert EntryOk(s, k');
      }
      forall u | 0 <= u < |s.threads|
        ensures s.threads[u].InLock? ==> s'.lock.Taken? && s'.lock.owner == u
      {
        assert ThreadOk(s, u);
      }
      HolderKeeps(s, s');
    }
  }

  lemma StartClearKeeps(s: State, t: nat)
    requires Inv(s) && t < |s.threads| && s.threads[t].Idle? && s.lock.Free?
    ensures Inv(DoStartClear(s, t))
  {
    var s' := DoStartClear(s, t);
    forall i: nat | i < |s'.handles|
      ensures HandleOk(s', i)
    {
      assert HandleOk(s, i);
      SwitchHandleOk(s, t, InLock, s', i);
    }
    forall u | 0 <= u < |s.threads|
      ensures s.threads[u].InLock? ==> s'.lock.Taken? && s'.lock.owner == u
    {
      assert ThreadOk(s, u);
    }
    HolderKeeps(s, s');
  }

  lemma UnlockKeeps(s: State)
    requires Inv(s) && s.lock.Taken? && s.lock.chore.Nothing? && (s.lock.task.Evict? || s.lock.task.Done?)
    ensures s.lock.owner < |s.threads| && Inv(DoUnlock(s))
  {
    var s' := DoUnlock(s);
    forall i: nat | i < |s'.handles|
      ensures HandleOk(s', i)
    {
      assert HandleOk(s, i);
      SwitchHandleOk(s, s.lock.owner, Idle, s', i);
    }
    forall k | k in s'.table
      ensures EntryOk(s', k)
    {
      assert EntryOk(s, k);
    }
    forall u | 0 <= u < |s.threads|
      ensures s.threads[u].InLock? ==> u == s.lock.owner
    {
      assert ThreadOk(s, u);
    }
    HolderKeeps(s, s');
  }

  lemma OnlyOwnerInLock(s: State, s': State)
    requires ThreadsOk(s) && s.lock.Taken? && s'.lock.Taken? && s'.lock.owner == s.lock.owner
    ensures forall u :: 0 <= u < |s.threads| && s.threads[u].InLock? ==> s'.lock.owner == u
  {
    forall u | 0 <= u < |s.threads| && s.threads[u].InLock?
      ensures s'.lock.owner == u
    {
      assert ThreadOk(s, u);
    }
  }

  lemma TryEvictHandleOk(s: State, i: nat, j: nat)
    requires s.lock.Taken? && s.lock.chore.Nothing? && s.lock.task.Evict? && i < |s.handles| && j < |s.handles|
    requires HandleOk(s, j)
    ensures HandleOk(DoTryEvict(s, i), j)
  {
  }

  lemma TryEvictKeeps(s: State, i: nat)
    requires Inv(s) && s.lock.Taken? && s.lock.chore.Nothing? && s.lock.task.Evict? && i < |s.handles|
    ensures Inv(DoTryEvict(s, i))
  {
    var s' := DoTryEvict(s, i);
    assert HandleOk(s, i);
    forall j: nat | j < |s'.handles|
      ensures HandleOk(s', j)
    {
      assert HandleOk(s, j);
      TryEvictHandleOk(s, i, j);
    }
    forall k | k in s'.table
      ensures EntryOk(s', k)
    {
      assert EntryOk(s, k);
    }
    OnlyOwnerInLock(s, s');
    HolderKeeps(s, s');
  }

  lemma ClearUsageKeeps(s: State)
    requires Inv(s) && s.lock.Taken? && s.lock.chore.ClearUsage?
    ensures s.lock.chore.i < |s.handles| && Inv(DoClearUsage(s))
  {
    var s' := DoClearUsage(s);
    forall j: nat | j < |s'.handles|
      ensures HandleOk(s', j)
    {
      assert HandleOk(s, j);
    }
    forall k | k in s'.table
      ensures EntryOk(s', k)
    {
      assert EntryOk(s, k);
    }
    OnlyOwnerInLock(s, s');
    HolderKeeps(s, s');
  }

  lemma EraseEvictedKeeps(s: State)
    requires Inv(s) && s.lock.Taken? && s.lock.chore.EraseEvicted?
    ensures s.lock.chore.i < |s.handles| && s.handles[s.lock.chore.i].key in s.table && Inv(DoEraseEvicted(s))
  {
    var s' := DoEraseEvicted(s);
    forall j: nat | j < |s'.handles|
      ensures HandleOk(s', j)
    {
      assert HandleOk(s, j);
    }
    forall k | k in s'.table
      ensures EntryOk(s', k)
    {
      assert EntryOk(s, k);
    }
    OnlyOwnerInLock(s, s');
    HolderKeeps(s, s');
  }

  lemma PublishKeeps(s: State)
    requires Inv(s) && s.lock.Taken? && s.lock.chore.Nothing? && s.lock.task.Publish?
    ensures Inv(DoPublish(s))
  {
    var s' := DoPublish(s);
    var i, item := s.lock.task.i, s.lock.task.item;
    if item.key in s.table {
      assert EntryOk(s, item.key);
    }
    forall j: nat | j < |s'.handles|
      ensures HandleOk(s', j)
    {
      assert HandleOk(s, j);
    }
    forall k | k in s'.table
      ensures EntryOk(s', k)
    {
      assert EntryOk(s, k);
    }
    OnlyOwnerInLock(s, s');
    HolderKeeps(s, s');
  }

  lemma UnsetKeeps(s: State)
    requires Inv(s) && s.lock.Taken? && s.lock.chore.Unset?
    ensures s.lock.chore.i < |s.handles| && Inv(DoUnset(s))
  {
    var s' := DoUnset(s);
    var i := s.lock.chore.i;
    assert HandleOk(s, i);
    forall j: nat | j < |s'.handles|
      ensures HandleOk(s', j)
    {
      assert HandleOk(s, j);
    }
    forall k | k in s'.table
      ensures EntryOk(s', k)
    {
      assert EntryOk(s, k);
    }
    OnlyOwnerInLock(s, s');
    HolderKeeps(s, s');
  }

  lemma ClearKeeps(s: State)
    requires Inv(s) && s.lock.Taken? && s.lock.chore.Nothing? && s.lock.task.Clear?
    ensures Inv(DoClear(s))
  {
    var s' := DoClear(s);
    forall j: nat | j < |s'.handles|
      ensures HandleOk(s', j)
    {
      assert HandleOk(s, j);
    }
    OnlyOwnerInLock(s, s');
    HolderKeeps(s, s');
  }

  lemma EnterKeeps(s: State)
    requires Inv(s) && s.lock.Taken? && s.lock.chore.Nothing? && s.lock.task.Enter?
    ensures Inv(DoEnter(s))
  {
    var s' := DoEnter(s);
    forall j: nat | j < |s'.handles|
      ensures HandleOk(s', j)
    {
      assert HandleOk(s, j);
    }
    forall k | k in s'.table
      ensures EntryOk(s', k)
    {
      if k in s.table {
        assert EntryOk(s, k);
      }
    }
    OnlyOwnerInLock(s, s');
    HolderKeeps(s, s');
  }

  lemma AccountKeeps(s: State)
    requires Inv(s) && s.lock.Taken? && s.lock.chore.Nothing? && s.lock.task.Account?
    ensures s.lock.task.i < |s.handles| && s.lock.owner < |s.threads| && Inv(DoAccount(s))
  {
    var s' := DoAccount(s);
    var t := s.lock.owner;
    forall i: nat | i < |s'.handles|
      ensures HandleOk(s', i)
    {
      assert HandleOk(s, i);
      CountUpdate(s.threads, t, s'.threads[t], i, Ref);
      CountUpdate(s.threads, t, s'.threads[t], i, Owe);
    }
    forall u: nat | u < |s'.threads|
      ensures ThreadOk(s', u)
    {
      assert ThreadOk(s, u);
    }
    forall k | k in s'.table
      ensures EntryOk(s', k)
    {
      assert EntryOk(s, k);
    }
  }

  /** The last handle of the bin is referenced and owed by nobody, and nothing leads to it. */
  lemma BinnedIsFree(s: State)
    requires Inv(s) && s.recycle != []
    ensures var n := |s.recycle| - 1;
            var i := s.recycle[n];
            && i < |s.handles| && !s.handles[i].inCache && s.handles[i].refs == 0
            && Binned(s.recycle, i) == 1 && Total(s, i, Owe) == 0
            && (forall j :: Binned(s.recycle[..n], j) + One(i == j) == Binned(s.recycle, j))
            && forall t :: 0 <= t < |s.threads| ==>
                             Weight(s.threads[t], i, Ref) == 0 && Weight(s.threads[t], i, Owe) == 0
  {
    var n := |s.recycle| - 1;
    var i := s.recycle[n];
    assert s.recycle == s.recycle[..n] + [i];
    forall j: nat
      ensures Binned(s.recycle[..n], j) + One(i == j) == Binned(s.recycle, j)
    {
      BinnedAppend(s.recycle[..n], i, j);
    }
    assert Binned(s.recycle, i) > 0;
    assert HandleOk(s, i);
    forall t | 0 <= t < |s.threads|
      ensures Weight(s.threads[t], i, Ref) == 0 && Weight(s.threads[t], i, Owe) == 0
    {
      CountUpdate(s.threads, t, s.threads[t], i, Ref);
      CountUpdate(s.threads, t, s.threads[t], i, Owe);
    }
  }

  lemma ReuseKeeps(s: State)
    requires Inv(s) && s.lock.Taken? && s.lock.chore.Nothing? && s.lock.task.Evict? && s.lock.task.wanted.Some?
    requires s.recycle != []
    ensures s.recycle[|s.recycle| - 1] < |s.handles| && Inv(DoFill(s))
  {
    BinnedIsFree(s);
    var s' := DoFill(s);
    var i := s.recycle[|s.recycle| - 1];
    forall j: nat | j < |s'.handles|
      ensures HandleOk(s', j)
    {
      assert HandleOk(s, j);
      assert Binned(s'.recycle, j) + One(i == j) == Binned(s.recycle, j);
    }
    forall u: nat | u < |s'.threads|
      ensures ThreadOk(s', u)
    {
      assert ThreadOk(s, u);
    }
    forall k | k in s'.table
      ensures EntryOk(s', k)
    {
      assert EntryOk(s, k);
    }
    ReuseAccounts(s);
  }

  lemma ReuseAccounts(s: State)
    requires Inv(s) && s.lock.Taken? && s.lock.chore.Nothing? && s.lock.task.Evict? && s.lock.task.wanted.Some?
    requires s.recycle != []
    ensures s.recycle[|s.recycle| - 1] < |s.handles| && StaysOk(DoFill(s)) && UsageOk(DoFill(s)) && LockOk(DoFill(s))
  {
    BinnedIsFree(s);
    var s' := DoFill(s);
    var i := s.recycle[|s.recycle| - 1];
    forall j: nat | j < |s.handles|
      ensures s.handles[j].stay < |s.inserted|
    {
      assert HandleOk(s, j);
    }
    forall j: nat
      ensures Binned(s'.recycle, j) + One(i == j) == Binned(s.recycle, j)
    {
    }
    LiveChargePoint(s.handles, s.recycle, s'.handles, s'.recycle, i, |s.handles|);
    var item := s.lock.task.wanted.value;
    if item.key in s.table {
      assert EntryOk(s, item.key);
    }
  }

  /** Nobody has heard of a handle that does not exist yet. */
  lemma NewIsUnknown(s: State, kind: Kind)
    requires Inv(s)
    ensures Count(s.threads, |s.handles|, kind) == 0 && Binned(s.recycle, |s.handles|) == 0
  {
    forall t | 0 <= t < |s.threads|
      ensures Weight(s.threads[t], |s.handles|, kind) == 0
    {
      assert ThreadOk(s, t);
    }
    CountZero(s.threads, |s.handles|, kind);
  }

  lemma GrowKeeps(s: State)
    requires Inv(s) && s.lock.Taken? && s.lock.chore.Nothing? && s.lock.task.Evict? && s.lock.task.wanted.Some?
    requires s.recycle == []
    ensures Inv(DoFill(s))
  {
    var s' := DoFill(s);
    NewIsUnknown(s, Ref);
    NewIsUnknown(s, Owe);
    forall j: nat | j < |s'.handles|
      ensures HandleOk(s', j)
    {
      if j < |s.handles| {
        assert HandleOk(s, j);
      }
    }
    forall u: nat | u < |s'.threads|
      ensures ThreadOk(s', u)
    {
      assert ThreadOk(s, u);
    }
    forall k | k in s'.table
      ensures EntryOk(s', k)
    {
      assert EntryOk(s, k);
    }
    GrowAccounts(s);
  }

  lemma GrowAccounts(s: State)
    requires Inv(s) && s.lock.Taken? && s.lock.chore.Nothing? && s.lock.task.Evict? && s.lock.task.wanted.Some?
    requires s.recycle == []
    ensures StaysOk(DoFill(s)) && UsageOk(DoFill(s)) && LockOk(DoFill(s))
  {
    var s' := DoFill(s);
    forall j: nat | j < |s.handles|
      ensures s.handles[j].stay < |s.inserted|
    {
      assert HandleOk(s, j);
    }
    NewIsUnknown(s, Ref);
    LiveChargeSame(s.handles, s.recycle, s'.handles, s'.recycle, |s.handles|);
    var item := s.lock.task.wanted.value;
    if item.key in s.table {
      assert EntryOk(s, item.key);
    }
  }

  lemma SpawnKeeps(s: State)
    requires Inv(s)
    ensures Inv(DoSpawn(s))
  {
    var s' := DoSpawn(s);
    forall i: nat | i < |s'.handles|
      ensures HandleOk(s', i)
    {
      assert HandleOk(s, i);
      CountAppend(s.threads, Idle, i, Ref);
      CountAppend(s.threads, Idle, i, Owe);
    }
    forall u: nat | u < |s'.threads|
      ensures ThreadOk(s', u)
    {
      if u < |s.threads| {
        assert ThreadOk(s, u);
      }
    }
    forall k | k in s'.table
      ensures EntryOk(s', k)
    {
      assert EntryOk(s, k);
    }
  }

  // ----- runs

  datatype Action =
    | Spawn
    | Find(key: CacheKey) | TryRef | CheckKey | Share(receiver: nat) | Release | Unref | RecycleOwn
    | StartInsert(item: Item) | Resize(capacity: nat) | SetStrict(strict: bool) | Erase(key: CacheKey) | StartClear
    | TryEvict(i: nat) | Fill | GiveUp | Proceed

  predicate Holds(s: State, t: nat) {
    s.lock.Taken? && s.lock.owner == t
  }

  /** Insert goes on: its item fits, or the limit is not strict and the caller wants a reference. */
  predicate Admits(s: State, item: Item) {
    s.usage + item.charge <= s.capacity || (!s.strict && item.hold)
  }

  /** The mutex holder t has nothing to finish before it goes on. */
  predicate Clean(s: State, t: nat) {
    Holds(s, t) && s.lock.chore.Nothing?
  }

  /** Thread t is at the point where the code does a next. */
  predicate Ready(s: State, t: nat, a: Action) {
    && t < |s.threads|
    && match a
       case Spawn => true
       case Find(_) => s.threads[t].Idle?
       case TryRef => s.threads[t].Found?
       case CheckKey => s.threads[t].Referenced?
       case Share(u) => s.threads[t].Holding? && u < |s.threads| && s.threads[u].Idle?
       case Release => s.threads[t].Holding?
       case Unref => s.threads[t].Unreferencing?
       case RecycleOwn => s.threads[t].Recycling? && s.lock.Free?
       case StartInsert(_) => s.threads[t].Idle? && s.lock.Free?
       case Resize(_) => s.threads[t].Idle? && s.lock.Free?
       case SetStrict(_) => s.threads[t].Idle?
       case Erase(_) => s.threads[t].Idle? && s.lock.Free?
       case StartClear => s.threads[t].Idle? && s.lock.Free?
       case TryEvict(i) => Clean(s, t) && s.lock.task.Evict? && i < |s.handles|
       case Fill =>
         Clean(s, t) && s.lock.task.Evict? && s.lock.task.wanted.Some? && Admits(s, s.lock.task.wanted.value)
       case GiveUp =>
         && Clean(s, t) && s.lock.task.Evict?
         && (s.lock.task.wanted.Some? ==> s.strict || !s.lock.task.wanted.value.hold)
       case Proceed => Holds(s, t) && !(s.lock.chore.Nothing? && s.lock.task.Evict?)
  }

  /** RecycleHandle meets a handle without in-cache bit and references whose value has not been handed
      to its deleter, and usage does not underflow. */
  predicate MayRecycle(s: State, i: nat) {
    && i < |s.handles| && !s.handles[i].inCache && s.handles[i].refs == 0
    && s.handles[i].stay !in s.deleted && s.handles[i].charge <= s.usage
  }

  predicate SafeToProceed(s: State)
    requires s.lock.Taken?
  {
    && s.lock.owner < |s.threads|
    && (s.lock.task.Account? ==> s.lock.task.i < |s.handles|)
    && match s.lock.chore
       case EraseEvicted(i) => i < |s.handles| && s.handles[i].key in s.table
       case ClearUsage(i) => i < |s.handles|
       case Unset(i) => i < |s.handles|
       case Recycle(i) => MayRecycle(s, i)
       case Nothing => true
  }

  /** What the mutex holder does when it is not looking for a handle to evict. */
  function DoProceed(s: State): State
    requires s.lock.Taken? && SafeToProceed(s)
  {
    match s.lock.chore
    case EraseEvicted(_) => DoEraseEvicted(s)
    case ClearUsage(_) => DoClearUsage(s)
    case Unset(_) => DoUnset(s)
    case Recycle(_) => DoRecycle(s)
    case Nothing =>
      match s.lock.task
      case Publish(_, _) => DoPublish(s)
      case Enter(_, _) => DoEnter(s)
      case Account(_, _) => DoAccount(s)
      case Clear(_) => DoClear(s)
      case Evict(_) => s
      case Done => DoUnlock(s)
  }

  /** The assertions the code makes at that point. */
  predicate Safe(s: State, t: nat, a: Action)
    requires Ready(s, t, a)
  {
    match a
    case TryRef | CheckKey | Share(_) | Release => s.threads[t].i < |s.handles|
    case Unref => s.threads[t].i < |s.handles| && s.handles[s.threads[t].i].refs > 0
    case RecycleOwn => MayRecycle(s, s.threads[t].i)
    case Fill => s.recycle != [] ==> s.recycle[|s.recycle| - 1] < |s.handles|
    case GiveUp => s.lock.owner < |s.threads|
    case Proceed => SafeToProceed(s)
    case _ => true
  }

  function Step(s: State, t: nat, a: Action): State
    requires Ready(s, t, a) && Safe(s, t, a)
  {
    match a
    case Spawn => DoSpawn(s)
    case Find(k) => DoFind(s, t, k)
    case TryRef => DoTryRef(s, t)
    case CheckKey => DoCheckKey(s, t)
    case Share(u) => DoShare(s, t, u)
    case Release => DoRelease(s, t)
    case Unref => DoUnref(s, t)
    case RecycleOwn => DoRecycleOwn(s, t)
    case StartInsert(item) => DoLock(s, t, Nothing, Evict(Some(item)))
    case Resize(capacity) => DoResize(s, t, capacity)
    case SetStrict(strict) => s.(strict := strict)
    case Erase(k) => DoErase(s, t, k)
    case StartClear => DoStartClear(s, t)
    case TryEvict(i) => DoTryEvict(s, i)
    case Fill => DoFill(s)
    case GiveUp => DoUnlock(s)
    case Proceed => DoProceed(s)
  }

  lemma ReaderStepKeeps(s: State, t: nat, a: Action)
    requires Inv(s) && Ready(s, t, a)
    requires a.Spawn? || a.Find? || a.TryRef? || a.CheckKey? || a.Share? || a.Release? || a.Unref? || a.RecycleOwn?
    ensures Safe(s, t, a) && Inv(Step(s, t, a))
  {
    match a
    case Spawn => SpawnKeeps(s);
    case Find(k) => FindKeeps(s, t, k);
    case TryRef => TryRefKeeps(s, t);
    case CheckKey => CheckKeyKeeps(s, t);
    case Share(u) => ShareKeeps(s, t, u);
    case Release => ReleaseKeeps(s, t);
    case Unref => UnrefKeeps(s, t);
    case RecycleOwn => RecycleOwnKeeps(s, t);
  }

  lemma LockStepKeeps(s: State, t: nat, a: Action)
    requires Inv(s) && Ready(s, t, a)
    requires a.StartInsert? || a.Resize? || a.Erase? || a.StartClear? || a.TryEvict? || a.Fill? || a.GiveUp?
    ensures Safe(s, t, a) && Inv(Step(s, t, a))
  {
    match a
    case StartInsert(item) => LockKeeps(s, t, Evict(Some(item)));
    case Resize(capacity) => ResizeKeeps(s, t, capacity);
    case Erase(k) => EraseKeeps(s, t, k);
    case StartClear => StartClearKeeps(s, t);
    case TryEvict(i) => TryEvictKeeps(s, i);
    case Fill =>
      if s.recycle != [] {
        ReuseKeeps(s);
      } else {
        GrowKeeps(s);
      }
    case GiveUp => UnlockKeeps(s);
  }

  lemma ProceedKeeps(s: State, t: nat)
    requires Inv(s) && Ready(s, t, Proceed)
    ensures Safe(s, t, Proceed) && Inv(Step(s, t, Proceed))
  {
    match s.lock.chore
    case EraseEvicted(_) => EraseEvictedKeeps(s);
    case ClearUsage(_) => ClearUsageKeeps(s);
    case Unset(_) => UnsetKeeps(s);
    case Recycle(_) => LockRecycleKeeps(s);
    case Nothing =>
      match s.lock.task
      case Publish(_, _) => PublishKeeps(s);
      case Enter(_, _) => EnterKeeps(s);
      case Account(_, _) => AccountKeeps(s);
      case Clear(_) => ClearKeeps(s);
      case Done => UnlockKeeps(s);
  }

  /** From a state that satisfies the invariant, every step the code can take meets its assertions
      and keeps the invariant. */
  lemma StepKeeps(s: State, t: nat, a: Action)
    requires Inv(s) && Ready(s, t, a)
    ensures Safe(s, t, a) && Inv(Step(s, t, a))
  {
    match a
    case StartInsert(_) | Resize(_) | Erase(_) | StartClear | TryEvict(_) | Fill | GiveUp => LockStepKeeps(s, t, a);
    case SetStrict(strict) => LimitsKeep(s, Step(s, t, a));
    case Proceed => ProceedKeeps(s, t);
    case _ => ReaderStepKeeps(s, t, a);
  }

  datatype Move = Move(thread: nat, action: Action)

  function Init(capacity: nat, strict: bool): State {
    State([], [], map[], 0, capacity, strict, [Idle], Free, [], {})
  }

  /** Runs a schedule, passing over moves whose thread is not at that point; None if an assertion fails. */
  function Execute(s: State, moves: seq<Move>): Option<State>
    decreases |moves|
  {
    if moves == [] then Some(s)
    else
      var t, a := moves[0].thread, moves[0].action;
      if !Ready(s, t, a) then Execute(s, moves[1..])
      else if !Safe(s, t, a) then None
      else Execute(Step(s, t, a), moves[1..])
  }

  lemma {:induction false} ExecuteKeeps(s: State, moves: seq<Move>)
    requires Inv(s)
    ensures Execute(s, moves).Some? && Inv(Execute(s, moves).value)
    decreases |moves|
  {
    if moves != [] {
      var t, a := moves[0].thread, moves[0].action;
      if Ready(s, t, a) {
        StepKeeps(s, t, a);
        ExecuteKeeps(Step(s, t, a), moves[1..]);
      } else {
        ExecuteKeeps(s, moves[1..]);
      }
    }
  }

  /** No schedule of any number of threads breaks an assertion: a handle is recycled only when it has
      neither in-cache bit nor references and its value has not been deleted, a reference count is
      never dropped below zero, an evicted handle is found in the table, and usage never underflows. */
  lemma EveryRunIsSafe(capacity: nat, strict: bool, moves: seq<Move>)
    ensures Execute(Init(capacity, strict), moves).Some? && Inv(Execute(Init(capacity, strict), moves).value)
  {
    ExecuteKeeps(Init(capacity, strict), moves);
  }

  ghost predicate Reachable(s: State) {
    exists capacity, strict, moves :: Execute(Init(capacity, strict), moves) == Some(s)
  }

  lemma ReachableInv(s: State)
    requires Reachable(s)
    ensures Inv(s)
  {
    var capacity, strict, moves :| Execute(Init(capacity, strict), moves) == Some(s);
    EveryRunIsSafe(capacity, strict, moves);
  }

  // ----- what the invariant says

  predicate FreeHandle(h: Handle) {
    !h.inCache && h.refs == 0
  }

  predicate Owes(s: State, t: nat, i: nat) {
    || (t < |s.threads| && Weight(s.threads[t], i, Owe) > 0)
    || (Holds(s, t) && LockWeight(s.lock, i, Owe) > 0)
  }

  /** The stay that a move of t hands to its deleter and bins. */
  function Recycled(s: State, t: nat, a: Action): Option<nat>
    requires Ready(s, t, a) && Safe(s, t, a)
  {
    if a.RecycleOwn? then Some(s.handles[s.threads[t].i].stay)
    else if a.Proceed? && s.lock.chore.Recycle? then Some(s.handles[s.lock.chore.i].stay)
    else None
  }

  /** How often a run recycles stay d. */
  function Recyclings(s: State, moves: seq<Move>, d: nat): nat
    decreases |moves|
  {
    if moves == [] then 0
    else
      var t, a := moves[0].thread, moves[0].action;
      if !Ready(s, t, a) then Recyclings(s, moves[1..], d)
      else if !Safe(s, t, a) then 0
      else One(Recycled(s, t, a) == Some(d)) + Recyclings(Step(s, t, a), moves[1..], d)
  }

  lemma StepDeletes(s: State, t: nat, a: Action)
    requires Ready(s, t, a) && Safe(s, t, a)
    ensures match Recycled(s, t, a)
            case None => Step(s, t, a).deleted == s.deleted
            case Some(d) => d !in s.deleted && Step(s, t, a).deleted == s.deleted + {d}
  {
  }

  /** A step changes no record but that of its thread and that of an idle receiver. */
  lemma StepThreads(s: State, t: nat, a: Action)
    requires Ready(s, t, a) && Safe(s, t, a)
    ensures |s.threads| <= |Step(s, t, a).threads|
    ensures forall u :: 0 <= u < |s.threads| && u != t && !s.threads[u].Idle? ==>
                          Step(s, t, a).threads[u] == s.threads[u]
    ensures s.threads[t].Holding? && !a.Release? ==> Holds(s, t) || Step(s, t, a).threads[t] == s.threads[t]
  {
    if a.Proceed? {
      ProceedThreads(s, t);
    }
  }

  lemma ProceedThreads(s: State, t: nat)
    requires Ready(s, t, Proceed) && Safe(s, t, Proceed)
    ensures |s.threads| == |Step(s, t, Proceed).threads|
    ensures forall u :: 0 <= u < |s.threads| && u != t ==> Step(s, t, Proceed).threads[u] == s.threads[u]
  {
  }

  lemma {:induction false} RecyclingsCount(s: State, moves: seq<Move>, d: nat)
    requires Inv(s)
    ensures Execute(s, moves).Some?
    ensures Recyclings(s, moves, d) + One(d in s.deleted) == One(d in Execute(s, moves).value.deleted)
    decreases |moves|
  {
    if moves != [] {
      var t, a := moves[0].thread, moves[0].action;
      if Ready(s, t, a) {
        StepKeeps(s, t, a);
        StepDeletes(s, t, a);
        RecyclingsCount(Step(s, t, a), moves[1..], d);
      } else {
        RecyclingsCount(s, moves[1..], d);
      }
    }
  }

  /** Over any run an occupancy is recycled once if its value has been deleted by the end, and
      otherwise not at all. */
  lemma RecycledAtMostOnce(capacity: nat, strict: bool, moves: seq<Move>, d: nat)
    ensures Execute(Init(capacity, strict), moves).Some?
    ensures Recyclings(Init(capacity, strict), moves, d)
         == One(d in Execute(Init(capacity, strict), moves).value.deleted) <= 1
  {
    RecyclingsCount(Init(capacity, strict), moves, d);
  }

  /** The bin holds handles once each, without in-cache bit or references, with their values deleted. */
  lemma BinHoldsFree(s: State, i: nat)
    requires Reachable(s) && i in s.recycle
    ensures i < |s.handles| && FreeHandle(s.handles[i]) && s.handles[i].stay in s.deleted
    ensures multiset(s.recycle)[i] == 1 && forall t: nat :: !Owes(s, t, i)
  {
    ReachableInv(s);
    assert Binned(s.recycle, i) > 0;
    assert HandleOk(s, i);
    forall t: nat
      ensures !Owes(s, t, i)
    {
      if t < |s.threads| {
        CountUpdate(s.threads, t, s.threads[t], i, Owe);
      }
    }
  }

  lemma FreeingStepOwes(s: State, t: nat, a: Action, i: nat)
    requires Ready(s, t, a) && Safe(s, t, a) && i < |s.handles| && !FreeHandle(s.handles[i])
    ensures i < |Step(s, t, a).handles|
    ensures FreeHandle(Step(s, t, a).handles[i]) ==>
              Step(s, t, a).handles[i].stay == s.handles[i].stay && Owes(Step(s, t, a), t, i)
  {
    if a.Proceed? {
      FreeingProceedOwes(s, t, i);
    }
  }

  lemma FreeingProceedOwes(s: State, t: nat, i: nat)
    requires Ready(s, t, Proceed) && Safe(s, t, Proceed) && i < |s.handles| && !FreeHandle(s.handles[i])
    ensures i < |Step(s, t, Proceed).handles|
    ensures FreeHandle(Step(s, t, Proceed).handles[i]) ==>
              Step(s, t, Proceed).handles[i].stay == s.handles[i].stay && Owes(Step(s, t, Proceed), t, i)
  {
  }

  lemma OwedByOne(s: State, t: nat, u: nat, i: nat)
    requires Inv(s) && i < |s.handles| && Owes(s, t, i) && Owes(s, u, i) && t < |s.threads|
    ensures t == u
  {
    assert HandleOk(s, i);
    CountUpdate(s.threads, t, Idle, i, Owe);
    if t != u && u < |s.threads| {
      CountUpdate(s.threads[t := Idle], u, s.threads[u], i, Owe);
    }
  }

  /** Whoever takes a handle to no in-cache bit and no references owes its recycling, alone. */
  lemma FreedIsOwedOnce(s: State, t: nat, a: Action, i: nat)
    requires Reachable(s) && Ready(s, t, a) && i < |s.handles| && !FreeHandle(s.handles[i])
    ensures Safe(s, t, a) && i < |Step(s, t, a).handles|
    ensures var s' := Step(s, t, a);
            FreeHandle(s'.handles[i]) ==> s'.handles[i].stay == s.handles[i].stay
                                          && forall u: nat :: Owes(s', u, i) <==> u == t
  {
    ReachableInv(s);
    StepKeeps(s, t, a);
    var s' := Step(s, t, a);
    FreeingStepOwes(s, t, a, i);
    if FreeHandle(s'.handles[i]) {
      StepThreads(s, t, a);
      forall u: nat | Owes(s', u, i)
        ensures u == t
      {
        OwedByOne(s', t, u, i);
      }
    }
  }

  /** What a caller holds is the entry that Insert made for that stay, and it has not been deleted. */
  lemma HeldIsLive(s: State, t: nat)
    requires Reachable(s) && t < |s.threads| && s.threads[t].Holding?
    ensures var th := s.threads[t];
            && th.i < |s.handles| && s.handles[th.i].refs > 0 && s.handles[th.i].stay == th.stay
            && th.stay < |s.inserted| && th.stay !in s.deleted
            && Carries(s.handles[th.i], s.inserted[th.stay])
            && th.key == s.handles[th.i].key && th.value == s.handles[th.i].value && th.charge == s.handles[th.i].charge
  {
    ReachableInv(s);
    ReferencedIsLive(s, t);
    assert ThreadOk(s, t);
    assert HandleOk(s, s.threads[t].i);
  }

  /** Nothing but its own Release ends a hold: no step of anyone changes the entry or deletes it. */
  lemma HeldUntilReleased(s: State, t: nat, u: nat, a: Action)
    requires Reachable(s) && t < |s.threads| && s.threads[t].Holding?
    requires Ready(s, u, a) && !(u == t && a.Release?)
    ensures Safe(s, u, a)
    ensures var s', th := Step(s, u, a), s.threads[t];
            && t < |s'.threads| && s'.threads[t] == th
            && th.i < |s'.handles| && s'.handles[th.i].stay == th.stay && th.stay !in s'.deleted
            && s'.handles[th.i].key == th.key && s'.handles[th.i].value == th.value
            && s'.handles[th.i].charge == th.charge
  {
    ReachableInv(s);
    StepKeeps(s, u, a);
    var s' := Step(s, u, a);
    assert ThreadOk(s, t);
    StepThreads(s, u, a);
    ReferencedIsLive(s', t);
    assert ThreadOk(s', t);
  }

  /** Lookup ends holding an entry exactly when the handle it referenced was inserted under the key and
      hash asked for, whatever the handle was reused for in between. */
  lemma LookupReturnsRequested(s: State, t: nat)
    requires Reachable(s) && Ready(s, t, CheckKey)
    ensures Safe(s, t, CheckKey)
    ensures var s', was := Step(s, t, CheckKey), s.threads[t];
            && was.stay < |s.inserted|
            && (s'.threads[t].Holding? <==> s.inserted[was.stay].key == was.want)
            && (s'.threads[t].Holding? ==> s'.threads[t].stay == was.stay
                                           && s'.threads[t].value == s.inserted[was.stay].value)
            && (!s'.threads[t].Holding? ==> s'.threads[t] == Unreferencing(was.i, was.stay))
  {
    ReachableInv(s);
    StepKeeps(s, t, CheckKey);
    ReferencedIsLive(s, t);
    assert ThreadOk(s, t);
    assert HandleOk(s, s.threads[t].i);
  }

  /** With the mutex free, usage is the charge of all handles outside the bin, and the table leads
      exactly to the handles with the in-cache bit. */
  lemma MutexFree(s: State)
    requires Reachable(s) && s.lock.Free?
    ensures s.usage == LiveCharge(s.handles, s.recycle, |s.handles|)
    ensures forall i :: 0 <= i < |s.handles| ==>
                          (s.handles[i].inCache <==> s.handles[i].key in s.table && s.table[s.handles[i].key] == i)
    ensures forall k :: k in s.table ==> s.table[k] < |s.handles| && s.handles[s.table[k]].key == k
  {
    ReachableInv(s);
    forall i: nat | i < |s.handles|
      ensures s.handles[i].inCache <==> s.handles[i].key in s.table && s.table[s.handles[i].key] == i
    {
      assert HandleOk(s, i);
      if s.handles[i].key in s.table {
        assert EntryOk(s, s.handles[i].key);
      }
    }
    forall k | k in s.table
      ensures s.table[k] < |s.handles| && s.handles[s.table[k]].key == k
    {
      assert EntryOk(s, k);
    }
  }

  // ----- runs that show what can happen

  lemma {:induction false} ExecuteAppend(s: State, moves: seq<Move>, m: Move)
    requires Execute(s, moves).Some?
    ensures Execute(s, moves + [m]) == Execute(Execute(s, moves).value, [m])
    decreases |moves|
  {
    if moves != [] {
      var t, a := moves[0].thread, moves[0].action;
      assert (moves + [m])[1..] == moves[1..] + [m];
      ExecuteAppend(if Ready(s, t, a) then Step(s, t, a) else s, moves[1..], m);
    } else {
      assert moves + [m] == [m];
    }
  }

  lemma ReachableStep(s: State, t: nat, a: Action) returns (s': State)
    requires Reachable(s) && Ready(s, t, a)
    ensures Safe(s, t, a) && s' == Step(s, t, a) && Reachable(s')
  {
    ReachableInv(s);
    StepKeeps(s, t, a);
    s' := Step(s, t, a);
    var capacity, strict, moves :| Execute(Init(capacity, strict), moves) == Some(s);
    ExecuteAppend(Init(capacity, strict), moves, Move(t, a));
    assert Execute(Init(capacity, strict), moves + [Move(t, a)]) == Some(s');
  }

  /** Insert of a key that is not in the table, without a reference, into an idle cache. */
  lemma Inserts(s: State, item: Item) returns (s': State)
    requires Reachable(s) && s.threads != [] && s.threads[0].Idle? && s.lock.Free?
    requires item.key !in s.table && !item.hold && s.usage + item.charge <= s.capacity
    requires s.recycle == [] || (|s.recycle| == 1 && s.recycle[0] < |s.handles|)
    ensures Reachable(s') && s'.threads == s.threads && s'.lock.Free? && s'.recycle == []
    ensures s'.usage == s.usage + item.charge && s'.capacity == s.capacity
    ensures var h := Handle(item.key, item.value, item.charge, true, false, 0, |s.inserted|);
            if s.recycle == [] then s'.handles == s.handles + [h] && s'.table == s.table[item.key := |s.handles|]
            else s'.handles == s.handles[s.recycle[0] := h] && s'.table == s.table[item.key := s.recycle[0]]
  {
    s' := ReachableStep(s, 0, StartInsert(item));
    s' := ReachableStep(s', 0, Fill);
    s' := Publishes(s');
    assert s'.threads == s.threads;
  }

  /** The end of an Insert of a key that is not in the table. */
  lemma Publishes(s: State) returns (s': State)
    requires Reachable(s) && s.threads != [] && s.lock.Taken? && s.lock.owner == 0 && s.lock.chore.Nothing?
    requires s.lock.task.Publish? && s.lock.task.item.key !in s.table && s.lock.task.i < |s.handles|
    ensures Reachable(s') && s'.lock.Free?
    ensures var i, item := s.lock.task.i, s.lock.task.item;
            var th := if item.hold then Holding(i, s.handles[i].stay, item.key, item.value, item.charge) else Idle;
            s' == s.(lock := Free, usage := s.usage + item.charge, table := s.table[item.key := i],
                     threads := s.threads[0 := th])
  {
    s' := ReachableStep(s, 0, Proceed);
    s' := ReachableStep(s', 0, Proceed);
    s' := ReachableStep(s', 0, Proceed);
  }

  /** Insert with a reference into an empty cache. */
  lemma InsertsHeld(s: State, item: Item) returns (s': State)
    requires Reachable(s) && s.threads != [] && s.threads[0].Idle? && s.lock.Free?
    requires item.hold && s.usage + item.charge <= s.capacity && s.recycle == [] && s.handles == [] && s.table == map[]
    ensures Reachable(s') && s'.lock.Free?
    ensures s'.handles == [Handle(item.key, item.value, item.charge, true, false, 1, |s.inserted|)]
    ensures s'.threads == s.threads[0 := Holding(0, |s.inserted|, item.key, item.value, item.charge)]
  {
    s' := ReachableStep(s, 0, StartInsert(item));
    s' := ReachableStep(s', 0, Fill);
    s' := Publishes(s');
  }

  lemma RecyclesLast(s: State) returns (s': State)
    requires Reachable(s) && s.threads != [] && s.lock.Taken? && s.lock.owner == 0
    requires s.lock.chore.Recycle? && s.lock.task.Done? && s.lock.chore.i < |s.handles|
    ensures Reachable(s') && s'.lock.Free? && s'.threads == s.threads[0 := Idle] && s'.table == s.table
    ensures s'.recycle == s.recycle + [s.lock.chore.i] && |s'.handles| == |s.handles| && s'.capacity == s.capacity
    ensures s'.usage + s.handles[s.lock.chore.i].charge == s.usage
  {
    s' := ReachableStep(s, 0, Proceed);
    s' := ReachableStep(s', 0, Proceed);
  }

  /** Erase of a key whose handle nobody refers to. */
  lemma Erases(s: State, k: CacheKey) returns (s': State)
    requires Reachable(s) && s.threads != [] && s.threads[0].Idle? && s.lock.Free? && k in s.table
    requires s.table[k] < |s.handles| && s.handles[s.table[k]].inCache && s.handles[s.table[k]].refs == 0
    ensures Reachable(s') && s'.lock.Free? && s'.threads == s.threads && s'.table == s.table - {k}
    ensures s'.recycle == s.recycle + [s.table[k]] && |s'.handles| == |s.handles| && s'.capacity == s.capacity
    ensures s'.usage + s.handles[s.table[k]].charge == s.usage
  {
    var i := s.table[k];
    s' := ReachableStep(s, 0, Erase(k));
    s' := ReachableStep(s', 0, Proceed);
    assert s'.lock == Taken(0, Recycle(i), Done) && s'.handles[i].charge == s.handles[i].charge;
    s' := RecyclesLast(s');
    assert s'.threads == s.threads;
  }

  lemma InitReachable(capacity: nat, strict: bool) returns (s: State)
    ensures s == Init(capacity, strict) && Reachable(s)
  {
    s := Init(capacity, strict);
    assert Execute(s, []) == Some(s);
  }

  /** A second thread has looked key a up in the table. */
  lemma FoundByOther(a: CacheKey) returns (s: State)
    ensures Reachable(s) && s.threads == [Idle, Found(0, a)] && s.lock.Free? && s.table == map[a := 0]
    ensures s.handles == [Handle(a, "", 1, true, false, 0, 0)] && s.recycle == [] && s.usage == 1 && s.capacity == 1
  {
    s := InitReachable(1, false);
    s := ReachableStep(s, 0, Spawn);
    s := Inserts(s, Item(a, "", 1, false));
    s := ReachableStep(s, 1, Find(a));
  }

  /** Then the first erases it and recycles its handle. */
  lemma ErasedUnderLookup(a: CacheKey) returns (s: State)
    ensures Reachable(s) && s.threads == [Idle, Found(0, a)] && s.lock.Free? && s.table == map[]
    ensures s.recycle == [0] && |s.handles| == 1 && s.usage == 0 && s.capacity == 1
  {
    s := FoundByOther(a);
    s := Erases(s, a);
  }

  /** The check of the key after Ref is needed: a lookup can end up referring to another key's entry. */
  lemma HandleReusedUnderLookup(a: CacheKey, b: CacheKey) returns (s: State)
    requires a != b
    ensures Reachable(s) && |s.threads| == 2 && s.threads[1].Referenced? && s.threads[1].want == a
    ensures s.threads[1].i < |s.handles| && s.handles[s.threads[1].i].inCache && s.handles[s.threads[1].i].key == b
  {
    s := ErasedUnderLookup(a);
    s := Inserts(s, Item(b, "", 1, false));
    s := ReachableStep(s, 1, TryRef);
  }
}
