/** EvictFromCache of the clock cache (cache/clock_cache.cc) with the mutex held and no interfering
    Ref: which handles the clock hand evicts, and when it gives up. */
module ClockEviction {
  import opened ClockCache

  /** list_, recycle_, table_ and usage_ of a shard. */
  datatype Shard = Shard(list: seq<Handle>, recycle: seq<nat>, table: map<CacheKey, nat>, usage: nat)

  ghost predicate SlotOk(c: Shard, i: nat)
    requires i < |c.list|
  {
    && Binned(c.recycle, i) <= One(FreeHandle(c.list[i]))
    && (c.list[i].inCache ==> c.list[i].key in c.table && c.table[c.list[i].key] == i)
  }

  ghost predicate TableEntryOk(c: Shard, k: CacheKey)
    requires k in c.table
  {
    var i := c.table[k];
    i < |c.list| && c.list[i].key == k && c.list[i].inCache
  }

  /** What the interleaved model keeps whenever the mutex is free. */
  ghost predicate ShardOk(c: Shard) {
    && c.usage == LiveCharge(c.list, c.recycle, |c.list|)
    && (forall i: nat {:trigger SlotOk(c, i)} :: i < |c.list| ==> SlotOk(c, i))
    && (forall k {:trigger TableEntryOk(c, k)} :: k in c.table ==> TableEntryOk(c, k))
    && (forall i: nat {:trigger Binned(c.recycle, i)} :: Binned(c.recycle, i) > 0 ==> i < |c.list|)
  }

  function ShardIn(s: State): Shard {
    Shard(s.handles, s.recycle, s.table, s.usage)
  }

  /** The mutex is free, or its holder is between two steps of the eviction scan. */
  predicate Quiet(s: State) {
    s.lock.Taken? ==> s.lock.chore.Nothing? && s.lock.task.Evict?
  }

  lemma ReachableShardOk(s: State)
    requires Reachable(s) && Quiet(s)
    ensures ShardOk(ShardIn(s))
  {
    var c := ShardIn(s);
    ReachableInv(s);
    forall i: nat | i < |c.list|
      ensures SlotOk(c, i)
    {
      assert HandleOk(s, i);
    }
    forall k | k in c.table
      ensures TableEntryOk(c, k)
    {
      assert EntryOk(s, k);
    }
  }

  predicate Evictable(h: Handle) {
    h.inCache && h.refs == 0
  }

  function Evicted(h: Handle): Handle {
    h.(key := CacheKey("", h.key.hash), value := "", inCache := false, usage := false)
  }

  /** How many steps the hand takes from head to handle i of n. */
  function Distance(head: nat, i: nat, n: nat): nat
    requires head < n && i < n
  {
    if head <= i then i - head else n - head + i
  }

  /** The step at which the hand would evict handle i: a used one gets a second chance. */
  function Turn(h: Handle, head: nat, i: nat, n: nat): nat
    requires head < n && i < n
  {
    Distance(head, i, n) + if h.usage then n else 0
  }

  /** Handle i once the hand has taken the given number of steps. */
  function Swept(h: Handle, head: nat, i: nat, n: nat, steps: nat): Handle
    requires head < n && i < n
  {
    if Evictable(h) && Turn(h, head, i, n) < steps then Evicted(h)
    else h.(usage := h.usage && steps <= Distance(head, i, n))
  }

  function EvictSlot(c: Shard, i: nat): Shard
    requires i < |c.list| && c.list[i].charge <= c.usage
  {
    var h := c.list[i];
    Shard(c.list[i := Evicted(h)], c.recycle + [i], c.table - {h.key}, c.usage - h.charge)
  }

  /** What TryEvict does: it evicts the handle if it is in the cache, unreferenced and not used since
      the hand came by last, and otherwise takes its usage bit. */
  predicate TriesToEvict(c: Shard, i: nat, c': Shard) {
    && i < |c.list|
    && if Evictable(c.list[i]) && !c.list[i].usage then c.list[i].charge <= c.usage && c' == EvictSlot(c, i)
       else c' == c.(list := c.list[i := c.list[i].(usage := false)])
  }

  lemma EvictSlotKeeps(c: Shard, i: nat)
    requires ShardOk(c) && i < |c.list| && Evictable(c.list[i])
    ensures c.list[i].key in c.table && c.list[i].charge <= c.usage && ShardOk(EvictSlot(c, i))
  {
    assert SlotOk(c, i);
    LiveChargePoint(c.list, c.recycle, c.list, c.recycle, i, |c.list|);
    var c' := EvictSlot(c, i);
    forall j: nat
      ensures Binned(c'.recycle, j) == Binned(c.recycle, j) + One(i == j)
    {
      BinnedAppend(c.recycle, i, j);
    }
    LiveChargePoint(c.list, c.recycle, c'.list, c'.recycle, i, |c.list|);
    forall j: nat | j < |c'.list|
      ensures SlotOk(c', j)
    {
      assert SlotOk(c, j);
    }
    forall k | k in c'.table
      ensures TableEntryOk(c', k)
    {
      assert TableEntryOk(c, k);
    }
  }

  lemma UnmarkKeeps(c: Shard, i: nat)
    requires ShardOk(c) && i < |c.list|
    ensures ShardOk(c.(list := c.list[i := c.list[i].(usage := false)]))
  {
    var c' := c.(list := c.list[i := c.list[i].(usage := false)]);
    LiveChargeSame(c.list, c.recycle, c'.list, c'.recycle, |c.list|);
    forall j: nat | j < |c'.list|
      ensures SlotOk(c', j)
    {
      assert SlotOk(c, j);
    }
    forall k | k in c'.table
      ensures TableEntryOk(c', k)
    {
      assert TableEntryOk(c, k);
    }
  }

  ghost predicate SweptAll(was: seq<Handle>, list: seq<Handle>, head: nat, steps: nat)
    requires head < |was|
  {
    && |list| == |was|
    && forall i :: 0 <= i < |was| ==> list[i] == Swept(was[i], head, i, |was|, steps)
  }

  function Hand(head: nat, n: nat, steps: nat): nat
    requires head < n && steps <= 2 * n
  {
    if head + steps < n then head + steps
    else if head + steps < 2 * n then head + steps - n
    else if head + steps < 3 * n then head + steps - 2 * n
    else 0
  }

  ghost predicate NothingLeft(list: seq<Handle>) {
    forall i :: 0 <= i < |list| ==> !Evictable(list[i])
  }

  lemma NothingEvictable(was: seq<Handle>, list: seq<Handle>, head: nat)
    requires head < |was| && SweptAll(was, list, head, 2 * |was|)
    ensures NothingLeft(list)
  {
    forall i | 0 <= i < |list|
      ensures !Evictable(list[i])
    {
      assert list[i] == Swept(was[i], head, i, |was|, 2 * |was|);
      assert Turn(was[i], head, i, |was|) < 2 * |was|;
    }
  }

  lemma HandMoves(head: nat, n: nat, steps: nat)
    requires head < n && steps < 2 * n
    ensures var i := Hand(head, n, steps);
            && i < n && Hand(head, n, steps + 1) == (if i + 1 >= n then 0 else i + 1)
            && (Hand(head, n, steps + 1) == head <==> steps + 1 == n || steps + 1 == 2 * n)
  {
  }

  /** The charge of the first m handles that is still there once the hand has taken the given steps. */
  function Remaining(list: seq<Handle>, recycle: seq<nat>, head: nat, steps: nat, m: nat): nat
    requires head < |list| && m <= |list|
  {
    if m == 0 then 0
    else
      var h := list[m - 1];
      Remaining(list, recycle, head, steps, m - 1)
      + if Binned(recycle, m - 1) > 0 || (Evictable(h) && Turn(h, head, m - 1, |list|) < steps) then 0 else h.charge
  }

  function UsageAfter(c: Shard, head: nat, steps: nat): nat
    requires head < |c.list|
  {
    Remaining(c.list, c.recycle, head, steps, |c.list|)
  }

  lemma {:induction false} RemainingShrinks(list: seq<Handle>, recycle: seq<nat>, head: nat, p: nat, q: nat, m: nat)
    requires head < |list| && m <= |list| && p <= q
    ensures Remaining(list, recycle, head, q, m) <= Remaining(list, recycle, head, p, m)
  {
    if m > 0 {
      RemainingShrinks(list, recycle, head, p, q, m - 1);
    }
  }

  /** The handles of list have been swept, and those evicted have joined the bin. */
  ghost predicate SweptShard(was: Shard, now: Shard, head: nat, steps: nat)
    requires head < |was.list|
  {
    && SweptAll(was.list, now.list, head, steps)
    && forall i: nat {:trigger Binned(now.recycle, i)} :: i < |was.list| ==>
         Binned(now.recycle, i)
         == Binned(was.recycle, i) + One(Evictable(was.list[i]) && Turn(was.list[i], head, i, |was.list|) < steps)
  }

  lemma {:induction false} RemainingIsLive(was: Shard, now: Shard, head: nat, steps: nat, m: nat)
    requires head < |was.list| && SweptShard(was, now, head, steps) && m <= |was.list|
    ensures LiveCharge(now.list, now.recycle, m) == Remaining(was.list, was.recycle, head, steps, m)
  {
    if m > 0 {
      RemainingIsLive(was, now, head, steps, m - 1);
      assert Binned(now.recycle, m - 1) >= Binned(was.recycle, m - 1);
    }
  }

  /** One step of the hand, as TryEvict makes it. */
  lemma SweepStep(was: Shard, now: Shard, head: nat, steps: nat, next: Shard)
    requires head < |was.list| && steps < 2 * |was.list| && SweptShard(was, now, head, steps)
    requires TriesToEvict(now, Hand(head, |was.list|, steps), next)
    ensures SweptShard(was, next, head, steps + 1)
  {
    var n := |was.list|;
    var i := Hand(head, n, steps);
    assert Distance(head, i, n) == if steps < n then steps else steps - n;
    forall j: nat | j < n
      ensures next.list[j] == Swept(was.list[j], head, j, n, steps + 1)
      ensures Binned(next.recycle, j)
              == Binned(was.recycle, j) + One(Evictable(was.list[j]) && Turn(was.list[j], head, j, n) < steps + 1)
    {
      assert now.list[j] == Swept(was.list[j], head, j, n, steps);
      BinnedAppend(now.recycle, i, j);
      assert Binned(now.recycle, j)
             == Binned(was.recycle, j) + One(Evictable(was.list[j]) && Turn(was.list[j], head, j, n) < steps);
      if j != i {
        assert Distance(head, j, n) != Distance(head, i, n);
      }
    }
  }

  /** Step k of a scan from head leads from state k of the trace to the next. */
  predicate Turned(trace: seq<Shard>, head: nat, k: nat)
    requires k + 1 < |trace| && head < |trace[0].list| && k < 2 * |trace[0].list|
  {
    TriesToEvict(trace[k], Hand(head, |trace[0].list|, k), trace[k + 1])
  }

  /** The states that a scan from head goes through, the first included. */
  ghost predicate Traced(trace: seq<Shard>, head: nat) {
    && trace != [] && head < |trace[0].list| && |trace| <= 2 * |trace[0].list| + 1
    && forall k: nat {:trigger Turned(trace, head, k)} :: k + 1 < |trace| ==> Turned(trace, head, k)
  }

  lemma TraceNext(trace: seq<Shard>, head: nat, next: Shard)
    requires Traced(trace, head) && |trace| <= 2 * |trace[0].list|
    requires TriesToEvict(trace[|trace| - 1], Hand(head, |trace[0].list|, |trace| - 1), next)
    ensures Traced(trace + [next], head)
  {
    var trace' := trace + [next];
    forall k: nat | k + 1 < |trace'|
      ensures Turned(trace', head, k)
    {
      if k + 1 < |trace| {
        assert Turned(trace, head, k);
      }
    }
  }

  /** At no step before the given one did charge fit. */
  ghost predicate Unfit(c: Shard, head: nat, steps: nat, charge: nat, capacity: nat)
    requires head < |c.list|
  {
    forall p: nat {:trigger UsageAfter(c, head, p)} :: p < steps ==> UsageAfter(c, head, p) + charge > capacity
  }

  /** The state after the given steps of the hand, none of which came after charge fitted. */
  ghost predicate Sweeping(was: Shard, now: Shard, head: nat, steps: nat, charge: nat, capacity: nat)
    requires head < |was.list|
  {
    && steps <= 2 * |was.list| && SweptShard(was, now, head, steps)
    && now.usage == UsageAfter(was, head, steps) && Unfit(was, head, steps, charge, capacity)
  }

  lemma SweepStarts(c: Shard, head: nat, charge: nat, capacity: nat)
    requires ShardOk(c) && head < |c.list|
    ensures Sweeping(c, c, head, 0, charge, capacity) && Traced([c], head)
  {
    assert SweptAll(c.list, c.list, head, 0);
    RemainingIsLive(c, c, head, 0, |c.list|);
  }

  lemma SweepAdvances(was: Shard, now: Shard, head: nat, steps: nat, next: Shard, charge: nat, capacity: nat)
    requires head < |was.list| && steps < 2 * |was.list| && Sweeping(was, now, head, steps, charge, capacity)
    requires now.usage + charge > capacity && next.usage == LiveCharge(next.list, next.recycle, |next.list|)
    requires TriesToEvict(now, Hand(head, |was.list|, steps), next)
    ensures Sweeping(was, next, head, steps + 1, charge, capacity)
  {
    SweepStep(was, now, head, steps, next);
    RemainingIsLive(was, next, head, steps + 1, |was.list|);
  }

  // ----- when the scan gives up

  /** The charge of those of the first m handles that are outside the bin and cannot be evicted. */
  function Pinned(list: seq<Handle>, recycle: seq<nat>, m: nat): nat
    requires m <= |list|
  {
    if m == 0 then 0
    else
      Pinned(list, recycle, m - 1)
      + if Binned(recycle, m - 1) > 0 || Evictable(list[m - 1]) then 0 else list[m - 1].charge
  }

  /** The charge that no eviction can remove. */
  function PinnedCharge(c: Shard): nat {
    Pinned(c.list, c.recycle, |c.list|)
  }

  lemma {:induction false} PinnedRemains(c: Shard, head: nat, m: nat)
    requires head < |c.list| && m <= |c.list|
    ensures Remaining(c.list, c.recycle, head, 2 * |c.list|, m) == Pinned(c.list, c.recycle, m)
  {
    if m > 0 {
      PinnedRemains(c, head, m - 1);
      assert Turn(c.list[m - 1], head, m - 1, |c.list|) < 2 * |c.list|;
    }
  }

  /** Two rounds of the hand leave exactly the charge of the handles that cannot be evicted. */
  lemma TwoRoundsLeavePinned(c: Shard, head: nat)
    requires head < |c.list|
    ensures UsageAfter(c, head, 2 * |c.list|) == PinnedCharge(c)
  {
    PinnedRemains(c, head, |c.list|);
  }

  /** The handle just behind head, which the hand reaches last. */
  function Behind(head: nat, n: nat): nat
    requires head < n
  {
    if head == 0 then n - 1 else head - 1
  }

  lemma {:induction false} LastStepRemains(c: Shard, head: nat, m: nat)
    requires ShardOk(c) && head < |c.list| && m <= |c.list|
    ensures var i := Behind(head, |c.list|);
            Remaining(c.list, c.recycle, head, 2 * |c.list| - 1, m)
            == Pinned(c.list, c.recycle, m)
               + if i < m && Evictable(c.list[i]) && c.list[i].usage then c.list[i].charge else 0
  {
    if m > 0 {
      LastStepRemains(c, head, m - 1);
      assert SlotOk(c, m - 1);
      assert Turn(c.list[m - 1], head, m - 1, |c.list|) < 2 * |c.list| - 1
        <==> !(m - 1 == Behind(head, |c.list|) && c.list[m - 1].usage);
    }
  }

  /** The scan refuses although charge would fit: the handle just behind head, marked used, can be
      evicted; its charge is what is missing; and it goes in the very last step, after which the usage
      is not looked at again. */
  predicate RefusesThoughItFits(c: Shard, head: nat, charge: nat, capacity: nat) {
    && head < |c.list|
    && var h, p := c.list[Behind(head, |c.list|)], PinnedCharge(c);
       Evictable(h) && h.usage && p + charge <= capacity < p + h.charge + charge
  }

  /** The scan succeeds exactly if charge fits beside what cannot be evicted, except in that one case. */
  lemma GivesUpRightly(c: Shard, head: nat, charge: nat, capacity: nat)
    requires ShardOk(c) && head < |c.list|
    ensures UsageAfter(c, head, 2 * |c.list| - 1) + charge <= capacity
       <==> PinnedCharge(c) + charge <= capacity && !RefusesThoughItFits(c, head, charge, capacity)
  {
    LastStepRemains(c, head, |c.list|);
  }

  predicate Verdict(c: Shard, head: nat, charge: nat, capacity: nat, ok: bool) {
    ok <==> PinnedCharge(c) + charge <= capacity && !RefusesThoughItFits(c, head, charge, capacity)
  }

  lemma {:induction false} PinnedIsLive(list: seq<Handle>, recycle: seq<nat>, i: nat, m: nat)
    requires m <= |list| && i < |list| && Binned(recycle, i) == 0
    ensures Pinned(list, recycle, m) + (if i < m && Evictable(list[i]) then list[i].charge else 0)
         <= LiveCharge(list, recycle, m)
  {
    if m > 0 {
      PinnedIsLive(list, recycle, i, m - 1);
    }
  }

  lemma {:induction false} PinnedIsLess(list: seq<Handle>, recycle: seq<nat>, m: nat)
    requires m <= |list|
    ensures Pinned(list, recycle, m) <= LiveCharge(list, recycle, m)
  {
    if m > 0 {
      PinnedIsLess(list, recycle, m - 1);
    }
  }

  /** With nothing in the cache, charge alone decides. */
  lemma EmptyVerdict(c: Shard, head: nat, charge: nat, capacity: nat)
    requires ShardOk(c) && c.usage == 0
    ensures Verdict(c, head, charge, capacity, charge <= capacity)
  {
    PinnedIsLess(c.list, c.recycle, |c.list|);
    if head < |c.list| && Evictable(c.list[Behind(head, |c.list|)]) {
      var i := Behind(head, |c.list|);
      assert SlotOk(c, i);
      PinnedIsLive(c.list, c.recycle, i, |c.list|);
    }
  }

  /** How a scan of a shard with nonzero usage ends: as soon as charge fits, with the hand where it
      stopped; or after two rounds with nothing evictable left and head where it was. */
  ghost predicate Outcome(was: Shard, now: Shard, head: nat, head': nat, steps: nat,
                          charge: nat, capacity: nat, ok: bool)
  {
    && head < |was.list| && Sweeping(was, now, head, steps, charge, capacity)
    && Verdict(was, head, charge, capacity, ok)
    && if ok then steps < 2 * |was.list| && head' == Hand(head, |was.list|, steps)
       else head' == head && NothingLeft(now.list)
  }

  lemma SweepGivesUp(was: Shard, now: Shard, head: nat, steps: nat, charge: nat, capacity: nat)
    requires ShardOk(was) && head < |was.list| && steps == 2 * |was.list|
    requires Sweeping(was, now, head, steps, charge, capacity)
    ensures Outcome(was, now, head, head, steps, charge, capacity, false)
  {
    NothingEvictable(was.list, now.list, head);
    GivesUpRightly(was, head, charge, capacity);
    assert UsageAfter(was, head, steps - 1) + charge > capacity;
  }

  lemma SweepFits(was: Shard, now: Shard, head: nat, steps: nat, charge: nat, capacity: nat)
    requires ShardOk(was) && head < |was.list| && steps < 2 * |was.list|
    requires Sweeping(was, now, head, steps, charge, capacity) && now.usage + charge <= capacity
    ensures Outcome(was, now, head, Hand(head, |was.list|, steps), steps, charge, capacity, true)
  {
    RemainingShrinks(was.list, was.recycle, head, steps, 2 * |was.list| - 1, |was.list|);
    GivesUpRightly(was, head, charge, capacity);
  }

  /** The states of the scan so far end with the present one, and the hand is where it should be. */
  ghost predicate Tracing(trace: seq<Shard>, was: Shard, now: Shard, head: nat, newHead: nat, steps: nat) {
    && Traced(trace, head) && |trace| == steps + 1 && trace[0] == was && trace[steps] == now
    && newHead == Hand(head, |was.list|, steps)
  }

  lemma TraceAdvances(trace: seq<Shard>, was: Shard, now: Shard, head: nat, newHead: nat, steps: nat, next: Shard)
    requires Tracing(trace, was, now, head, newHead, steps) && steps < 2 * |was.list|
    requires TriesToEvict(now, newHead, next)
    ensures var n := |was.list|;
            var newHead' := if newHead + 1 >= n then 0 else newHead + 1;
            && Tracing(trace + [next], was, next, head, newHead', steps + 1)
            && (newHead' == head <==> steps + 1 == n || steps + 1 == 2 * n)
  {
    HandMoves(head, |was.list|, steps);
    TraceNext(trace, head, next);
  }

  // ----- the scan within the protocol

  /** One step of the hand is at most three moves of the mutex holder. */
  lemma TryEvictReached(s: State, i: nat) returns (s': State)
    requires Reachable(s) && s.lock.Taken? && Quiet(s) && i < |s.handles|
    ensures Reachable(s') && s'.lock == s.lock && s'.threads == s.threads
    ensures s'.capacity == s.capacity && s'.strict == s.strict && s'.inserted == s.inserted
    ensures TriesToEvict(ShardIn(s), i, ShardIn(s'))
  {
    ReachableInv(s);
    s' := ReachableStep(s, s.lock.owner, TryEvict(i));
    if s'.lock.chore.EraseEvicted? {
      s' := EvictionReached(s', i);
      assert s'.handles == s.handles[i := Evicted(s.handles[i])];
    } else {
      s' := UnmarkReached(s', i);
    }
  }

  lemma UnmarkReached(s: State, i: nat) returns (s': State)
    requires Reachable(s) && s.lock.Taken? && s.lock.owner < |s.threads|
    requires s.lock.chore == ClearUsage(i) && i < |s.handles|
    ensures Reachable(s')
    ensures s' == s.(lock := s.lock.(chore := Nothing), handles := s.handles[i := s.handles[i].(usage := false)])
  {
    s' := ReachableStep(s, s.lock.owner, Proceed);
  }

  lemma EvictionReached(s: State, i: nat) returns (s': State)
    requires Reachable(s) && s.lock.Taken? && s.lock.owner < |s.threads|
    requires s.lock.chore == EraseEvicted(i) && i < |s.handles|
    ensures Reachable(s') && s'.lock == s.lock.(chore := Nothing) && s'.threads == s.threads
    ensures s'.capacity == s.capacity && s'.strict == s.strict && s'.inserted == s.inserted
    ensures var h := s.handles[i];
            && h.charge <= s.usage && s'.handles == s.handles[i := h.(key := CacheKey("", h.key.hash), value := "")]
            && s'.recycle == s.recycle + [i] && s'.table == s.table - {h.key} && s'.usage == s.usage - h.charge
  {
    s' := ReachableStep(s, s.lock.owner, Proceed);
    s' := ReachableStep(s', s.lock.owner, Proceed);
  }

  /** So wherever the hand stops, the protocol gets there too. */
  lemma {:induction false} ScanReached(s: State, trace: seq<Shard>, head: nat, k: nat) returns (s': State)
    requires Reachable(s) && s.lock.Taken? && Quiet(s) && Traced(trace, head) && trace[0] == ShardIn(s) && k < |trace|
    ensures Reachable(s') && s'.lock == s.lock && s'.threads == s.threads
    ensures s'.capacity == s.capacity && s'.strict == s.strict && s'.inserted == s.inserted
    ensures ShardIn(s') == trace[k]
  {
    if k == 0 {
      s' := s;
    } else {
      var before := ScanReached(s, trace, head, k - 1);
      assert Turned(trace, head, k - 1);
      s' := TryEvictReached(before, Hand(head, |trace[0].list|, k - 1));
      SameTry(trace[k - 1], Hand(head, |trace[0].list|, k - 1), ShardIn(s'), trace[k]);
    }
  }

  lemma SameTry(c: Shard, i: nat, a: Shard, b: Shard)
    requires TriesToEvict(c, i, a) && TriesToEvict(c, i, b)
    ensures a == b
  {
  }

  /** What EvictFromCache leaves behind when SetCapacity calls it is a state of the protocol with the mutex
      free: every theorem about reachable states goes on to hold. */
  lemma SetCapacityReached(s: State, t: nat, capacity: nat, trace: seq<Shard>, head: nat) returns (s': State)
    requires Reachable(s) && Ready(s, t, Resize(capacity)) && Traced(trace, head) && trace[0] == ShardIn(s)
    ensures Reachable(s') && s'.lock.Free? && s'.threads == s.threads && s'.capacity == capacity
    ensures ShardIn(s') == trace[|trace| - 1]
  {
    s' := ReachableStep(s, t, Resize(capacity));
    s' := ScanReached(s', trace, head, |trace| - 1);
    s' := ReachableStep(s', t, GiveUp);
    assert s'.threads == s.threads;
  }

  /** Lookup and Release of a key in the table whose handle nobody refers to. */
  lemma UsedOnce(s: State, k: CacheKey) returns (s': State)
    requires Reachable(s) && s.threads == [Idle] && k in s.table && s.table[k] < |s.handles|
    requires var h := s.handles[s.table[k]]; h.inCache && h.key == k && h.refs == 0
    ensures Reachable(s')
    ensures s' == s.(handles := s.handles[s.table[k] := s.handles[s.table[k]].(usage := true)])
  {
    s' := ReachableStep(s, 0, Find(k));
    s' := ReachableStep(s', 0, TryRef);
    s' := ReachableStep(s', 0, CheckKey);
    s' := GivesBack(s');
  }

  lemma GivesBack(s: State) returns (s': State)
    requires Reachable(s) && |s.threads| == 1 && s.threads[0].Holding? && s.threads[0].i < |s.handles|
    requires var h := s.handles[s.threads[0].i]; h.refs == 1 && h.inCache
    ensures Reachable(s')
    ensures var i := s.threads[0].i;
            s' == s.(threads := [Idle], handles := s.handles[i := s.handles[i].(usage := true, refs := 0)])
  {
    s' := ReachableStep(s, 0, Release);
    s' := ReachableStep(s', 0, Unref);
  }

  /** EvictFromCache can give up although charge would fit: one entry that has been looked up and released
      fills the cache, and a second of the same charge is refused. */
  lemma GivesUpThoughItFits(k: CacheKey) returns (s: State)
    ensures Reachable(s) && s.lock.Free? && |s.handles| == 1 && s.usage == s.capacity == 1
    ensures RefusesThoughItFits(ShardIn(s), 0, 1, s.capacity)
  {
    s := InitReachable(1, true);
    s := Inserts(s, Item(k, "", 1, false));
    s := UsedOnce(s, k);
    assert Pinned(s.handles, s.recycle, 0) == 0;
  }
}
