/** DBIter: a bidirectional user-key cursor over a sorted stream of versioned entries
    (db/db_iter.cc, db/db_iter.h). */
module DbIter {
  import opened DbFormat
  import opened SnapshotView
  import opened Wrappers

  // ----- merge operands with lazy reversal (db/merge_context.h)

  function Reversed(s: seq<Value>): seq<Value> {
    seq(|s|, i requires 0 <= i < |s| => s[|s| - 1 - i])
  }

  datatype MergeContext = MergeContext(list: seq<Value>, reversed: bool)
  {
    /** Oldest to newest. */
    function Operands(): seq<Value> {
      if reversed then Reversed(list) else list
    }

    method Clear() returns (c: MergeContext)
      ensures c.Operands() == []
    {
      c := MergeContext([], reversed);
    }

    /** Adds an operand older than all the others. */
    method PushOperand(v: Value) returns (c: MergeContext)
      ensures c.Operands() == [v] + Operands()
    {
      var backward := if reversed then list else Reversed(list);
      c := MergeContext(backward + [v], true);
    }

    /** Adds an operand newer than all the others. */
    method PushOperandBack(v: Value) returns (c: MergeContext)
      ensures c.Operands() == Operands() + [v]
    {
      var forward := if reversed then Reversed(list) else list;
      c := MergeContext(forward + [v], false);
    }
  }

  datatype Direction = Forward | Reverse

  datatype Status = Ok | IncompleteStatus

  /** The type a version contributes during the backward, old-to-new scan. */
  datatype ScanType = ScanDeletion | ScanSingleDeletion | ScanRangeDeletion | ScanValue | ScanMerge

  // ----- positions in the stream

  /** Seek, and SeekToLast when that runs off the end. */
  function SeekOrLast(es: seq<Entry>, t: Target): int {
    var r := FirstAtOrAfter(es, t);
    if r < |es| then r else |es| - 1
  }

  /** The newest version of k visible at snap, or where it would be. */
  function FirstVisible(es: seq<Entry>, snap: nat, k: UserKey): (r: nat)
    ensures r <= |es|
  {
    FirstAtOrAfter(es, Target(k, snap, VALUE_TYPE_FOR_SEEK))
  }

  lemma FirstVisibleSplits(es: seq<Entry>, snap: nat, k: UserKey)
    requires Sorted(es)
    ensures var r := FirstVisible(es, snap, k);
            && (forall j :: 0 <= j < r ==> es[j].key < k || (es[j].key == k && es[j].sequence > snap))
            && (forall j :: r <= j < |es| ==> es[j].key > k || (es[j].key == k && es[j].sequence <= snap))
  {
    FirstAtOrAfterSplits(es, Target(k, snap, VALUE_TYPE_FOR_SEEK));
  }

  /** The number of entries with a smaller user key. */
  function FirstOf(es: seq<Entry>, k: UserKey): (r: nat)
    ensures r <= |es|
  {
    FirstAtOrAfter(es, Target(k, MAX_SEQUENCE_NUMBER, VALUE_TYPE_FOR_SEEK))
  }

  lemma FirstOfSplits(es: seq<Entry>, k: UserKey)
    requires Sorted(es)
    ensures forall j :: 0 <= j < FirstOf(es, k) ==> es[j].key < k
    ensures forall j :: FirstOf(es, k) <= j < |es| ==> es[j].key >= k
  {
    SortedFacts(es);
    FirstAtOrAfterSplits(es, Target(k, MAX_SEQUENCE_NUMBER, VALUE_TYPE_FOR_SEEK));
  }

  lemma FirstIsBefore(es: seq<Entry>, k: UserKey, i: nat)
    requires Sorted(es) && i < |es| && es[i].key == k
    ensures FirstOf(es, k) <= i
  {
    FirstOfSplits(es, k);
  }

  /** The number of entries whose user key is not larger. */
  function Past(es: seq<Entry>, k: UserKey): (r: nat)
    ensures r <= |es|
  {
    LastAtOrBefore(es, Target(k, 0, VALUE_TYPE_FOR_SEEK_FOR_PREV), |es|) + 1
  }

  lemma PastSplits(es: seq<Entry>, k: UserKey)
    requires Sorted(es)
    ensures forall j :: 0 <= j < Past(es, k) ==> es[j].key <= k
    ensures forall j :: Past(es, k) <= j < |es| ==> es[j].key > k
  {
    SortedFacts(es);
    LastAtOrBeforeSplits(es, Target(k, 0, VALUE_TYPE_FOR_SEEK_FOR_PREV), |es|);
  }

  lemma Splits(es: seq<Entry>, snap: nat, k: UserKey)
    requires Sorted(es)
    ensures FirstOf(es, k) <= FirstVisible(es, snap, k) <= Past(es, k)
    ensures forall j :: 0 <= j < FirstOf(es, k) ==> es[j].key < k
    ensures forall j :: FirstOf(es, k) <= j < FirstVisible(es, snap, k) ==> es[j].key == k && es[j].sequence > snap
    ensures forall j :: FirstVisible(es, snap, k) <= j < Past(es, k) ==> es[j].key == k && es[j].sequence <= snap
    ensures forall j :: Past(es, k) <= j < |es| ==> es[j].key > k
  {
    FirstOfSplits(es, k);
    FirstVisibleSplits(es, snap, k);
    PastSplits(es, k);
    var f, v, p := FirstOf(es, k), FirstVisible(es, snap, k), Past(es, k);
    assert v < |es| ==> es[v].key >= k;
    assert p < |es| ==> es[p].key > k;
  }

  /** Just past the last entry that a merge reading on from i consumes: a put or a deletion ends
      it, and so does another user key. */
  function MergeEnd(es: seq<Entry>, k: UserKey, i: nat): (r: nat)
    requires i <= |es|
    ensures i <= r <= |es|
    ensures forall j :: i <= j < r ==> es[j].key == k
    decreases |es| - i
  {
    if i == |es| || es[i].key != k then i
    else if Dead(es[i]) || es[i].kind.Put? then i + 1
    else MergeEnd(es, k, i + 1)
  }

  lemma OutcomeAtFirstVisible(es: seq<Entry>, snap: nat, k: UserKey, i: nat)
    requires Sorted(es) && i <= |es|
    requires forall j :: 0 <= j < i ==> es[j].key < k || (es[j].key == k && es[j].sequence > snap)
    ensures OutcomeOf(es, snap, k) == OutcomeFrom(es, snap, k, i)
    ensures i < |es| && Match(es[i], snap, k) ==> i == FirstVisible(es, snap, k)
  {
    SkipUnmatched(es, snap, k, 0, i);
    FirstVisibleSplits(es, snap, k);
    var r := FirstVisible(es, snap, k);
    assert r >= |es| || es[r].key > k || Match(es[r], snap, k);
  }

  /** The operands of es[start..i], oldest first. */
  function OperandsOf(es: seq<Entry>, start: nat, i: nat): seq<Value>
    requires start < i <= |es|
    decreases i
  {
    if i == start + 1 then [es[start].value] else [es[i - 1].value] + OperandsOf(es, start, i - 1)
  }

  ghost predicate AllOperands(es: seq<Entry>, k: UserKey, start: nat, i: nat)
    requires i <= |es|
  {
    forall j: nat {:trigger IsOperand(es, k, j)} :: start <= j < i ==> IsOperand(es, k, j)
  }

  predicate IsOperand(es: seq<Entry>, k: UserKey, j: nat)
    requires j < |es|
  {
    es[j].key == k && !Dead(es[j]) && es[j].kind.Merge?
  }

  lemma {:induction false} OperandsApply(es: seq<Entry>, snap: nat, k: UserKey, start: nat, i: nat)
    requires start < i <= |es| && AllOperands(es, k, start, i)
    requires forall j :: start <= j < i ==> Match(es[j], snap, k)
    ensures OutcomeFrom(es, snap, k, start) == Apply(OutcomeFrom(es, snap, k, i), OperandsOf(es, start, i))
    decreases i
  {
    var older, v := OutcomeFrom(es, snap, k, i), es[i - 1].value;
    assert IsOperand(es, k, i - 1);
    assert OutcomeFrom(es, snap, k, i - 1) == Apply(older, [v]);
    if start + 1 < i {
      OperandsApply(es, snap, k, start, i - 1);
      ApplyTwice(older, v, OperandsOf(es, start, i - 1));
    }
  }

  lemma {:induction false} OperandsPass(es: seq<Entry>, k: UserKey, start: nat, i: nat)
    requires start < i <= |es| && AllOperands(es, k, start, i)
    ensures MergeEnd(es, k, start + 1) == MergeEnd(es, k, i)
    decreases i
  {
    if start + 1 < i {
      assert IsOperand(es, k, i - 1);
      OperandsPass(es, k, start, i - 1);
    }
  }

  lemma ApplyTwice(older: Outcome, v: Value, operands: seq<Value>)
    ensures Apply(Apply(older, [v]), operands) == Apply(older, [v] + operands)
  {
    if older.Merged? {
      assert older.operands + [v] + operands == older.operands + ([v] + operands);
    }
  }

  /** A put or a deletion at i, or nothing more of k: the merge begun at start is complete. */
  lemma MergeStops(es: seq<Entry>, snap: nat, k: UserKey, start: nat, i: nat)
    requires Sorted(es) && start == FirstVisible(es, snap, k) < i <= |es| && AllOperands(es, k, start, i)
    requires i == |es| || es[i].key != k || Dead(es[i]) || es[i].kind.Put?
    ensures var more := i < |es| && es[i].key == k;
            && MergeEnd(es, k, start + 1) == (if more then i + 1 else i)
            && OutcomeOf(es, snap, k)
               == Merged(if more && !Dead(es[i]) then Some(es[i].value) else None, OperandsOf(es, start, i))
  {
    SortedFacts(es);
    FirstVisibleSplits(es, snap, k);
    OutcomeAtFirstVisible(es, snap, k, start);
    forall j | start <= j < i
      ensures Match(es[j], snap, k)
    {
      assert IsOperand(es, k, j);
    }
    OperandsApply(es, snap, k, start, i);
    OperandsPass(es, k, start, i);
    if i == |es| || es[i].key != k {
      assert forall j :: i <= j < |es| ==> es[j].key != k;
      NothingLeft(es, snap, k, i);
    }
  }

  /** Operands are read no further than just past their key. */
  lemma OperandsWithin(es: seq<Entry>, k: UserKey, start: nat, i: nat)
    requires Sorted(es) && start < i <= |es| && AllOperands(es, k, start, i)
    ensures i <= Past(es, k)
  {
    PastSplits(es, k);
    assert IsOperand(es, k, i - 1);
  }

  lemma NothingLeft(es: seq<Entry>, snap: nat, k: UserKey, i: nat)
    requires i <= |es|
    requires forall j :: i <= j < |es| ==> es[j].key != k
    ensures OutcomeFrom(es, snap, k, i) == Absent
  {
    SkipUnmatched(es, snap, k, i, |es|);
  }

  /** What the newest visible version alone settles. */
  lemma NewestDecides(es: seq<Entry>, snap: nat, k: UserKey)
    requires Sorted(es)
    ensures var i, outcome := FirstVisible(es, snap, k), OutcomeOf(es, snap, k);
            && FirstOf(es, k) <= i <= Past(es, k)
            && (i < |es| && es[i].key == k <==> i < Past(es, k))
            && (i == Past(es, k) ==> outcome == Absent)
            && (i < Past(es, k) ==>
                  && Match(es[i], snap, k)
                  && (Dead(es[i]) ==> outcome == Absent)
                  && (!Dead(es[i]) && es[i].kind.Put? ==> outcome == Stored(es[i].value)))
  {
    var i := FirstVisible(es, snap, k);
    Splits(es, snap, k);
    OutcomeAtFirstVisible(es, snap, k, i);
    if i == Past(es, k) {
      NothingLeft(es, snap, k, i);
    }
  }

  // ----- the forward search

  /** Every key from the bound up to saved (or up to and including it, when it is being skipped)
      is settled as dead, and i is still at or before the first version that matters. */
  ghost predicate Searching(es: seq<Entry>, snap: nat, from: Bound, i: int, saved: UserKey, skipping: bool) {
    && FirstOf(es, saved) <= i <= (if skipping then Past(es, saved) else FirstVisible(es, snap, saved))
    && DeadBetween(es, snap, from, if skipping then Inclusive(saved) else Exclusive(saved))
    && (from.Unbounded? || from.key < saved || (from.key == saved && (skipping || from.Inclusive?)))
  }

  lemma SearchSkips(es: seq<Entry>, snap: nat, from: Bound, i: nat, saved: UserKey)
    requires Sorted(es) && i < |es| && es[i].key <= saved
    requires Searching(es, snap, from, i, saved, true)
    ensures Searching(es, snap, from, i + 1, saved, true)
    ensures es[i].sequence == 0 ==> Past(es, saved) <= i + 1
    ensures i <= FirstAtOrAfter(es, Target(saved, 0, TYPE_DELETION))
    ensures Searching(es, snap, from, FirstAtOrAfter(es, Target(saved, 0, TYPE_DELETION)), saved, true)
  {
    Splits(es, snap, saved);
    SortedFacts(es);
    assert i + 1 < Past(es, saved) ==> es[i + 1].sequence < es[i].sequence;
    SearchReseeksPast(es, snap, from, i, saved);
  }

  lemma SearchPassesInvisible(es: seq<Entry>, snap: nat, from: Bound, i: nat, saved: UserKey)
    requires Sorted(es) && i < |es| && es[i].key == saved && es[i].sequence > snap
    requires Searching(es, snap, from, i, saved, false)
    ensures Searching(es, snap, from, i + 1, saved, false)
    ensures i < FirstVisible(es, snap, saved) && Searching(es, snap, from, FirstVisible(es, snap, saved), saved, false)
  {
    Splits(es, snap, saved);
  }

  /** The search has left saved behind: every key below the one at i is settled. */
  lemma SearchReaches(es: seq<Entry>, snap: nat, from: Bound, i: nat, saved: UserKey, skipping: bool)
    requires Sorted(es) && i < |es|
    requires Searching(es, snap, from, i, saved, skipping)
    requires es[i].key > saved || !skipping || Past(es, saved) <= i
    ensures es[i].key >= saved && Above(from, es[i].key)
    ensures DeadBetween(es, snap, from, Exclusive(es[i].key))
    ensures FirstOf(es, es[i].key) <= i <= FirstVisible(es, snap, es[i].key)
    ensures es[i].sequence <= snap ==> i == FirstVisible(es, snap, es[i].key)
    ensures es[i].sequence <= snap && es[i].kind.Put? && !Dead(es[i]) ==>
              OutcomeOf(es, snap, es[i].key) == Stored(es[i].value)
    ensures es[i].sequence <= snap && Dead(es[i]) ==> OutcomeOf(es, snap, es[i].key) == Absent
    ensures es[i].sequence == 0 ==> Past(es, es[i].key) <= i + 1
  {
    Splits(es, snap, saved);
    Splits(es, snap, es[i].key);
    SortedFacts(es);
    var k := es[i].key;
    assert i + 1 < Past(es, k) ==> es[i + 1].sequence < es[i].sequence;
    if k > saved {
      GapIsDead(es, snap, i, Exclusive(saved), Exclusive(k));
      if !skipping {
        SkipUnmatched(es, snap, saved, 0, |es|);
      }
    }
    if es[i].sequence <= snap {
      OutcomeAtFirstVisible(es, snap, k, i);
    }
  }

  lemma SearchMeetsInvisible(es: seq<Entry>, snap: nat, from: Bound, i: nat, saved: UserKey, skipping: bool)
    requires Sorted(es) && i < |es| && es[i].key != saved && es[i].sequence > snap
    requires Searching(es, snap, from, i, saved, skipping)
    ensures Searching(es, snap, from, i + 1, es[i].key, false)
  {
    FirstOfSplits(es, saved);
    SearchReaches(es, snap, from, i, saved, skipping);
    Splits(es, snap, es[i].key);
  }

  lemma SearchMeetsDead(es: seq<Entry>, snap: nat, from: Bound, i: nat, saved: UserKey, skipping: bool)
    requires Sorted(es) && i < |es| && es[i].sequence <= snap && Dead(es[i])
    requires Searching(es, snap, from, i, saved, skipping)
    requires es[i].key > saved || !skipping || Past(es, saved) <= i
    ensures Searching(es, snap, from, i + 1, es[i].key, true)
    ensures es[i].sequence == 0 ==> Past(es, es[i].key) <= i + 1
  {
    var k := es[i].key;
    SearchReaches(es, snap, from, i, saved, skipping);
    Splits(es, snap, k);
  }

  /** Seeking past all versions of the skipped key never moves back, though it may stay. */
  lemma SearchReseeksPast(es: seq<Entry>, snap: nat, from: Bound, i: nat, saved: UserKey)
    requires Sorted(es) && i < |es| && es[i].key <= saved
    requires Searching(es, snap, from, i, saved, true)
    ensures i <= FirstAtOrAfter(es, Target(saved, 0, TYPE_DELETION))
    ensures Searching(es, snap, from, FirstAtOrAfter(es, Target(saved, 0, TYPE_DELETION)), saved, true)
  {
    var t := Target(saved, 0, TYPE_DELETION);
    var r := FirstAtOrAfter(es, t);
    Splits(es, snap, saved);
    SortedFacts(es);
    FirstAtOrAfterSplits(es, t);
    assert r < |es| ==> es[r].key >= saved;
    assert Past(es, saved) < |es| ==> !Before(es[Past(es, saved)], t);
  }

  /** When the stream ends or leaves the upper bound, nothing more is live. */
  lemma SearchFails(es: seq<Entry>, snap: nat, from: Bound, i: nat, saved: UserKey, skipping: bool, to: Bound)
    requires Sorted(es) && i <= |es|
    requires Searching(es, snap, from, i, saved, skipping)
    requires i < |es| ==> !Below(to, es[i].key)
    requires !to.Inclusive?
    ensures DeadBetween(es, snap, from, to)
  {
    Splits(es, snap, saved);
    SortedFacts(es);
    if i == |es| || es[i].key > saved {
      GapIsDead(es, snap, i, Exclusive(saved), to);
      if !skipping {
        SkipUnmatched(es, snap, saved, 0, |es|);
      }
    }
  }

  /** From a valid forward position, where Next resumes the search. */
  lemma NextStarts(es: seq<Entry>, snap: nat, k: UserKey)
    requires Sorted(es) && FirstVisible(es, snap, k) < Past(es, k)
    ensures var first := FirstVisible(es, snap, k);
            && Searching(es, snap, Exclusive(k), first + 1, k, true)
            && Searching(es, snap, Exclusive(k), MergeEnd(es, k, first + 1), k, true)
            && Searching(es, snap, Exclusive(k), FirstOf(es, k), k, true)
            && (es[first].sequence == 0 ==> Past(es, k) <= first + 1)
  {
    var first := FirstVisible(es, snap, k);
    Splits(es, snap, k);
    SortedFacts(es);
    assert first + 1 < Past(es, k) ==> es[first + 1].sequence < es[first].sequence;
    var e := MergeEnd(es, k, first + 1);
    assert e > first + 1 ==> es[e - 1].key == k;
  }

  /** The bound raised to the iterator's lower limit, and lowered to its upper one. */
  function TightenLow(b: Bound, lower: Option<UserKey>): Bound {
    if lower.None? || (!b.Unbounded? && lower.value <= b.key) then b else Inclusive(lower.value)
  }

  function TightenHigh(b: Bound, upper: Option<UserKey>): Bound {
    if upper.None? || (!b.Unbounded? && b.key < upper.value) then b else Exclusive(upper.value)
  }

  lemma SeekStarts(es: seq<Entry>, snap: nat, k: UserKey)
    requires Sorted(es)
    ensures Searching(es, snap, Inclusive(k), FirstVisible(es, snap, k), k, false)
  {
    Splits(es, snap, k);
  }

  lemma FirstStarts(es: seq<Entry>, snap: nat)
    requires Sorted(es) && |es| > 0
    ensures Searching(es, snap, Unbounded, 0, es[0].key, false)
  {
    SortedFacts(es);
    Splits(es, snap, es[0].key);
    GapIsDead(es, snap, 0, Unbounded, Exclusive(es[0].key));
  }

  // ----- the backward search

  /** Every key above the one at i and inside the bound is settled as dead, and i is the last
      entry of its key. */
  ghost predicate SearchingBack(es: seq<Entry>, snap: nat, to: Bound, i: int) {
    && -1 <= i < |es|
    && DeadBetween(es, snap, if i < 0 then Unbounded else Exclusive(es[i].key), to)
    && (0 <= i ==> i + 1 == Past(es, es[i].key) && Below(to, es[i].key))
  }

  lemma StepsBack(es: seq<Entry>, k: UserKey, i: nat)
    requires Sorted(es) && i < |es| && FirstOf(es, k) - 1 <= i
    ensures if es[i].key < k then i == FirstOf(es, k) - 1 else FirstOf(es, k) <= i
  {
    FirstOfSplits(es, k);
  }

  lemma BackStarts(es: seq<Entry>, snap: nat, to: Bound, i: int)
    requires Sorted(es) && -1 <= i < |es|
    requires forall j :: 0 <= j <= i ==> Below(to, es[j].key)
    requires forall j :: i < j < |es| ==> !Below(to, es[j].key)
    ensures SearchingBack(es, snap, to, i)
  {
    SortedFacts(es);
    if i < 0 {
      GapIsDead(es, snap, 0, Unbounded, to);
    } else {
      PastSplits(es, es[i].key);
      assert i + 1 < |es| ==> !Below(to, es[i + 1].key);
      GapIsDead(es, snap, i + 1, Exclusive(es[i].key), to);
    }
  }

  lemma BackPasses(es: seq<Entry>, snap: nat, to: Bound, i: nat)
    requires Sorted(es) && i < |es| && SearchingBack(es, snap, to, i)
    requires OutcomeOf(es, snap, es[i].key).Absent?
    ensures SearchingBack(es, snap, to, FirstOf(es, es[i].key) - 1)
  {
    var k := es[i].key;
    var j := FirstOf(es, k) - 1;
    FirstOfSplits(es, k);
    if j < 0 {
      GapIsDead(es, snap, 0, Unbounded, Exclusive(k));
    } else {
      SortedFacts(es);
      PastSplits(es, es[j].key);
      assert es[j + 1].key >= k;
      GapIsDead(es, snap, j + 1, Exclusive(es[j].key), Exclusive(k));
    }
  }

  /** What the old-to-new scan has established about the versions read so far. */
  function ScanOutcome(last: ScanType, lastNotMerge: ScanType, pinned: Value, operands: seq<Value>): Outcome {
    match last
    case ScanValue => Stored(pinned)
    case ScanMerge => Merged(if lastNotMerge.ScanValue? then Some(pinned) else None, operands)
    case _ => Absent
  }

  ghost predicate Scanned(es: seq<Entry>, snap: nat, k: UserKey, i: int,
                          last: ScanType, lastNotMerge: ScanType, pinned: Value, operands: seq<Value>)
  {
    && FirstOf(es, k) - 1 <= i < Past(es, k)
    && OutcomeFrom(es, snap, k, i + 1) == ScanOutcome(last, lastNotMerge, pinned, operands)
    && (!last.ScanMerge? ==> operands == [] && lastNotMerge == last)
    && !lastNotMerge.ScanMerge?
  }

  lemma ScanStarts(es: seq<Entry>, snap: nat, k: UserKey, i: nat, pinned: Value)
    requires Sorted(es) && i < |es| && es[i].key == k && i + 1 == Past(es, k)
    ensures Scanned(es, snap, k, i, ScanDeletion, ScanDeletion, pinned, [])
  {
    Splits(es, snap, k);
    NothingLeft(es, snap, k, i + 1);
  }

  lemma ScanReads(es: seq<Entry>, snap: nat, k: UserKey, i: nat,
                  last: ScanType, lastNotMerge: ScanType, pinned: Value, operands: seq<Value>)
    requires Sorted(es) && i < |es| && Match(es[i], snap, k)
    requires Scanned(es, snap, k, i, last, lastNotMerge, pinned, operands)
    ensures Dead(es[i]) ==>
              && Scanned(es, snap, k, i - 1, ScanDeletion, ScanDeletion, pinned, [])
              && Scanned(es, snap, k, i - 1, ScanSingleDeletion, ScanSingleDeletion, pinned, [])
              && Scanned(es, snap, k, i - 1, ScanRangeDeletion, ScanRangeDeletion, pinned, [])
    ensures !Dead(es[i]) && es[i].kind.Put? ==>
              Scanned(es, snap, k, i - 1, ScanValue, ScanValue, es[i].value, [])
    ensures !Dead(es[i]) && es[i].kind.Merge? ==>
              Scanned(es, snap, k, i - 1, ScanMerge, lastNotMerge, pinned, operands + [es[i].value])
  {
    Splits(es, snap, k);
  }

  lemma VisibleExists(es: seq<Entry>, snap: nat, k: UserKey, i: nat)
    requires Sorted(es) && i < |es| && Match(es[i], snap, k)
    ensures FirstVisible(es, snap, k) < Past(es, k)
  {
    Splits(es, snap, k);
  }

  lemma ScanEnds(es: seq<Entry>, snap: nat, k: UserKey, i: int,
                 last: ScanType, lastNotMerge: ScanType, pinned: Value, operands: seq<Value>)
    requires Sorted(es) && i < |es| && (i < 0 || !Match(es[i], snap, k))
    requires Scanned(es, snap, k, i, last, lastNotMerge, pinned, operands)
    ensures OutcomeOf(es, snap, k) == ScanOutcome(last, lastNotMerge, pinned, operands)
  {
    Splits(es, snap, k);
    SkipUnmatched(es, snap, k, 0, i + 1);
  }

  // ----- what a client may see

  /** No call skips more entries than this. It is more than the number of entries, because a reseek can
      land on an entry that has been counted, and because going backward the versions of a key are
      first read and then stepped over. */
  function MostSkips(es: seq<Entry>): nat {
    3 * |es|
  }

  /** One call explained by the cursor, or by a limit on skipped internal keys that can be exceeded. */
  ghost predicate Explained(es: seq<Entry>, snap: nat, rd: Reader, before: Observation, op: Op,
                            now: Observation, limit: nat)
  {
    now == CursorStep(View(es, snap, rd), before, op) || (now.Incomplete? && 0 < limit < MostSkips(es))
  }

  function SequenceAt(snap: nat, ops: seq<Op>, n: nat): nat
    requires n <= |ops|
  {
    if n == 0 then snap else SequenceAfter(SequenceAt(snap, ops, n - 1), ops[n - 1])
  }

  lemma {:induction false} SequenceAtShift(snap: nat, ops: seq<Op>, n: nat)
    requires n < |ops|
    ensures SequenceAt(SequenceAfter(snap, ops[0]), ops[1..], n) == SequenceAt(snap, ops, n + 1)
  {
    if n > 0 {
      SequenceAtShift(snap, ops, n - 1);
    }
  }

  /** The i-th call of a run, explained from what the client saw before it. */
  ghost predicate CallExplained(es: seq<Entry>, snap: nat, rd: Reader, before: Observation, ops: seq<Op>,
                                seen: seq<Observation>, limit: nat, i: nat)
    requires i < |seen| <= |ops|
  {
    Explained(es, SequenceAt(snap, ops, i), rd, if i == 0 then before else seen[i - 1], ops[i], seen[i], limit)
  }

  ghost predicate AllExplained(es: seq<Entry>, snap: nat, rd: Reader, before: Observation, ops: seq<Op>,
                               seen: seq<Observation>, limit: nat)
    requires |seen| <= |ops|
  {
    forall i: nat {:trigger CallExplained(es, snap, rd, before, ops, seen, limit, i)} ::
      i < |seen| ==> CallExplained(es, snap, rd, before, ops, seen, limit, i)
  }

  lemma ExplainedGrows(es: seq<Entry>, snap: nat, rd: Reader, before: Observation, ops: seq<Op>,
                       seen: seq<Observation>, now: Observation, limit: nat)
    requires |seen| < |ops| && AllExplained(es, snap, rd, before, ops, seen, limit)
    requires Explained(es, SequenceAt(snap, ops, |seen|), rd, if |seen| == 0 then before else seen[|seen| - 1],
                       ops[|seen|], now, limit)
    ensures AllExplained(es, snap, rd, before, ops, seen + [now], limit)
  {
    forall i: nat | i <= |seen|
      ensures CallExplained(es, snap, rd, before, ops, seen + [now], limit, i)
    {
      assert i < |seen| ==> CallExplained(es, snap, rd, before, ops, seen, limit, i);
    }
  }

  /** Without a limit, or with one that no call exceeds, step-by-step explanations add up to the whole
      cursor run. */
  lemma {:induction false} ExplainedRun(es: seq<Entry>, snap: nat, rd: Reader, before: Observation,
                                        ops: seq<Op>, seen: seq<Observation>, limit: nat)
    requires |seen| == |ops| && AllExplained(es, snap, rd, before, ops, seen, limit)
    requires limit == 0 || limit >= MostSkips(es)
    ensures seen == CursorRun(es, snap, rd, before, ops)
    decreases |ops|
  {
    if ops != [] {
      assert CallExplained(es, snap, rd, before, ops, seen, limit, 0);
      var snap' := SequenceAfter(snap, ops[0]);
      forall i: nat | i < |seen[1..]|
        ensures CallExplained(es, snap', rd, seen[0], ops[1..], seen[1..], limit, i)
      {
        SequenceAtShift(snap, ops, i);
        assert CallExplained(es, snap, rd, before, ops, seen, limit, i + 1);
      }
      ExplainedRun(es, snap', rd, seen[0], ops[1..], seen[1..], limit);
    }
  }

  class DBIter {
    const entries: seq<Entry>
    const reader: Reader
    const maxSkip: nat
    const maxSkippableInternalKeys: nat

    var sequence: nat
    /** The inner iterator: on entries[pos], before the first entry, or past the last one. */
    var pos: int
    var savedKey: UserKey
    var savedValue: Value
    var pinnedValue: Value
    var mergeContext: MergeContext
    var status: Status
    var direction: Direction
    var valid: bool
    var currentEntryIsMerged: bool
    var isKeySeqnumZero: bool
    var numInternalKeysSkipped: nat

    constructor (entries: seq<Entry>, reader: Reader, sequence: nat, maxSkip: nat, maxSkippableInternalKeys: nat)
      requires Sorted(entries)
      ensures Inv() && !valid && status.Ok?
      ensures this.entries == entries && this.reader == reader && this.sequence == sequence
      ensures this.maxSkip == maxSkip && this.maxSkippableInternalKeys == maxSkippableInternalKeys
    {
      this.entries, this.reader, this.sequence := entries, reader, sequence;
      this.maxSkip, this.maxSkippableInternalKeys := maxSkip, maxSkippableInternalKeys;
      pos, savedKey, savedValue, pinnedValue := -1, 0.0, [], [];
      mergeContext := MergeContext([], true);
      status, direction, valid := Ok, Forward, false;
      currentEntryIsMerged, isKeySeqnumZero, numInternalKeysSkipped := false, false, 0;
    }

    predicate IterValid()
      reads this`pos
    {
      0 <= pos < |entries|
    }

    function Key(): UserKey
      requires valid
      reads this`valid, this`savedKey
    {
      savedKey
    }

    function CurrentValue(): Value
      requires valid
      requires !currentEntryIsMerged && direction.Forward? ==> IterValid()
      reads this
    {
      if currentEntryIsMerged then savedValue
      else if direction.Reverse? then pinnedValue
      else entries[pos].value
    }

    function Observe(): Observation
      requires valid && !currentEntryIsMerged && direction.Forward? ==> IterValid()
      reads this
    {
      if valid then At(Key(), CurrentValue())
      else if status.Ok? then Invalid
      else Incomplete
    }

    /** Rules (1a), (1b) and (2) on where the inner iterator stands when the cursor is valid. */
    ghost predicate Positioned()
      requires Sorted(entries)
      reads this
    {
      match direction
      case Forward =>
        var first := FirstVisible(entries, sequence, savedKey);
        if currentEntryIsMerged then
          && first < |entries| && pos == MergeEnd(entries, savedKey, first + 1)
          && (isKeySeqnumZero ==> Past(entries, savedKey) <= pos)
        else
          && pos == first && IterValid()
          && (isKeySeqnumZero ==> entries[pos].sequence == 0)
      case Reverse => pos == FirstOf(entries, savedKey) - 1
    }

    ghost predicate Inv()
      reads this
    {
      && Sorted(entries)
      && -1 <= pos <= |entries|
      && (!status.Ok? ==> !valid && LimitMatters())
      && (valid ==>
            && Positioned()
            && Shown(entries, sequence, reader, savedKey)
            && CurrentValue() == Display(reader.op, savedKey, OutcomeOf(entries, sequence, savedKey)))
    }

    /** There is a limit on skipped internal keys, and a call can exceed it. */
    predicate LimitMatters() {
      0 < maxSkippableInternalKeys < MostSkips(entries)
    }

    method TooManyInternalKeysSkipped(increment: bool) returns (tooMany: bool)
      modifies this`valid, this`status, this`numInternalKeysSkipped
      ensures tooMany <==> maxSkippableInternalKeys > 0 && old(numInternalKeysSkipped) > maxSkippableInternalKeys
      ensures numInternalKeysSkipped == old(numInternalKeysSkipped) + if increment && !tooMany then 1 else 0
      ensures tooMany ==> !valid && status == IncompleteStatus
      ensures !tooMany ==> valid == old(valid) && status == old(status)
    {
      if maxSkippableInternalKeys > 0 && numInternalKeysSkipped > maxSkippableInternalKeys {
        valid := false;
        status := IncompleteStatus;
        return true;
      } else if increment {
        numInternalKeysSkipped := numInternalKeysSkipped + 1;
      }
      return false;
    }

    // ----- moving forward

    /** The cursor stands on the first live key past the bound, or there is none. */
    ghost predicate FoundForward(from: Bound)
      requires Sorted(entries)
      reads this
    {
      && -1 <= pos <= |entries|
      && status.Ok?
      && if valid then
           && direction.Forward? && Positioned()
           && Above(from, savedKey) && Below(UpperLimit(reader.upper), savedKey)
           && DeadBetween(entries, sequence, from, Exclusive(savedKey))
           && !OutcomeOf(entries, sequence, savedKey).Absent?
           && CurrentValue() == Display(reader.op, savedKey, OutcomeOf(entries, sequence, savedKey))
         else
           DeadBetween(entries, sequence, from, UpperLimit(reader.upper))
    }

    /** Where a reseek of the forward search goes. */
    function ReseekPos(skipping: bool): nat
      reads this`savedKey, this`sequence
    {
      FirstAtOrAfter(entries, if skipping then Target(savedKey, 0, TYPE_DELETION)
                              else Target(savedKey, sequence, VALUE_TYPE_FOR_SEEK))
    }

    method FindNextUserEntry(skippingSavedKey: bool, ghost from: Bound) returns (ok: bool)
      requires Sorted(entries) && IterValid() && status.Ok? && direction.Forward?
      requires Searching(entries, sequence, from, pos, savedKey, skippingSavedKey)
      requires isKeySeqnumZero && skippingSavedKey ==> Past(entries, savedKey) <= pos
      requires numInternalKeysSkipped == 0
      modifies this`pos, this`savedKey, this`savedValue, this`mergeContext, this`status, this`valid,
               this`currentEntryIsMerged, this`isKeySeqnumZero, this`numInternalKeysSkipped
      ensures ok ==> FoundForward(from)
      ensures !ok ==> !valid && status == IncompleteStatus && LimitMatters() && -1 <= pos <= |entries|
    {
      var skipping := skippingSavedKey;
      currentEntryIsMerged := false;
      var numSkipped: nat := 0;
      var reseekDone := false;
      while IterValid()
        invariant 0 <= pos <= |entries| && status.Ok? && !currentEntryIsMerged
        invariant Searching(entries, sequence, from, pos, savedKey, skipping)
        invariant isKeySeqnumZero && skipping ==> Past(entries, savedKey) <= pos
        invariant numInternalKeysSkipped + (if reseekDone then 0 else 1) <= 2 * pos + 1
        decreases |entries| - pos, if reseekDone then 0 else 1
      {
        var isPrevKeySeqnumZero := isKeySeqnumZero;
        isKeySeqnumZero := entries[pos].sequence == 0;
        if reader.upper.Some? && entries[pos].key >= reader.upper.value {
          break;
        }
        var tooMany := TooManyInternalKeysSkipped(true);
        if tooMany {
          return false;
        }
        var found;
        found, skipping, numSkipped, reseekDone :=
          SearchOn(skipping, numSkipped, reseekDone, isPrevKeySeqnumZero, from);
        if found {
          return true;
        }
      }
      valid := false;
      SearchFails(entries, sequence, from, pos, savedKey, skipping, UpperLimit(reader.upper));
      return true;
    }

    /** An iteration of the forward search: yields the entry under the inner iterator, or moves on. It comes
        no nearer to the end at most once in a row, when a reseek lands where it started. */
    method SearchOn(skipping: bool, numSkipped: nat, reseekDone: bool, isPrevKeySeqnumZero: bool, ghost from: Bound)
      returns (found: bool, skipping': bool, numSkipped': nat, reseekDone': bool)
      requires Sorted(entries) && IterValid() && status.Ok? && direction.Forward? && !currentEntryIsMerged
      requires Searching(entries, sequence, from, pos, savedKey, skipping)
      requires isPrevKeySeqnumZero && skipping ==> Past(entries, savedKey) <= pos
      requires isKeySeqnumZero == (entries[pos].sequence == 0)
      requires Below(UpperLimit(reader.upper), entries[pos].key)
      modifies this`pos, this`savedKey, this`savedValue, this`mergeContext, this`valid, this`currentEntryIsMerged,
               this`isKeySeqnumZero
      ensures found ==> FoundForward(from)
      ensures !found ==> 0 <= pos <= |entries| && !currentEntryIsMerged
      ensures !found ==> Searching(entries, sequence, from, pos, savedKey, skipping')
      ensures !found && isKeySeqnumZero && skipping' ==> Past(entries, savedKey) <= pos
      ensures !found ==> pos > old(pos) || (pos == old(pos) && reseekDone' && !reseekDone)
    {
      found, skipping', numSkipped', reseekDone' :=
        ConsiderEntry(skipping, numSkipped, reseekDone, isPrevKeySeqnumZero, from);
      if !found {
        numSkipped', reseekDone' := StepOrReseek(skipping', numSkipped', reseekDone', from);
      }
    }

    /** The end of an iteration of the forward search: after too many skips a reseek, otherwise a step. */
    method StepOrReseek(skipping: bool, numSkipped: nat, reseekDone: bool, ghost from: Bound)
      returns (numSkipped': nat, reseekDone': bool)
      requires Sorted(entries) && IterValid() && Searching(entries, sequence, from, pos + 1, savedKey, skipping)
      requires isKeySeqnumZero && skipping ==> Past(entries, savedKey) <= pos + 1
      requires numSkipped > 0 ==>
                 && pos <= ReseekPos(skipping)
                 && Searching(entries, sequence, from, ReseekPos(skipping), savedKey, skipping)
      modifies this`pos, this`isKeySeqnumZero
      ensures 0 <= pos <= |entries| && Searching(entries, sequence, from, pos, savedKey, skipping)
      ensures isKeySeqnumZero && skipping ==> Past(entries, savedKey) <= pos
      ensures if reseekDone' == reseekDone then pos > old(pos) else pos >= old(pos) && reseekDone' && numSkipped > 0
    {
      numSkipped', reseekDone' := numSkipped, reseekDone;
      if numSkipped > maxSkip && !reseekDone {
        isKeySeqnumZero := false;
        numSkipped' := 0;
        reseekDone' := true;
        pos := ReseekPos(skipping);
      } else {
        pos := pos + 1;
      }
    }

    /** The body of the forward search: yields the entry under the inner iterator, or records what
        it settles. */
    method ConsiderEntry(skipping: bool, numSkipped: nat, reseekDone: bool, isPrevKeySeqnumZero: bool,
                         ghost from: Bound)
      returns (found: bool, skipping': bool, numSkipped': nat, reseekDone': bool)
      requires Sorted(entries) && IterValid() && status.Ok? && direction.Forward? && !currentEntryIsMerged
      requires Searching(entries, sequence, from, pos, savedKey, skipping)
      requires isPrevKeySeqnumZero && skipping ==> Past(entries, savedKey) <= pos
      requires isKeySeqnumZero == (entries[pos].sequence == 0)
      requires Below(UpperLimit(reader.upper), entries[pos].key)
      modifies this`pos, this`savedKey, this`savedValue, this`mergeContext, this`valid, this`currentEntryIsMerged
      ensures found ==> FoundForward(from)
      ensures !found ==> pos == old(pos) && !currentEntryIsMerged
      ensures !found ==> Searching(entries, sequence, from, pos + 1, savedKey, skipping')
      ensures !found && isKeySeqnumZero && skipping' ==> Past(entries, savedKey) <= pos + 1
      ensures !found && numSkipped' > 0 ==>
                && pos <= ReseekPos(skipping') && reseekDone' == reseekDone
                && Searching(entries, sequence, from, ReseekPos(skipping'), savedKey, skipping')
    {
      var ikey := entries[pos];
      skipping', numSkipped', reseekDone' := skipping, numSkipped, reseekDone;
      if ikey.sequence <= sequence {
        if !isPrevKeySeqnumZero && skipping && ikey.key <= savedKey {
          SearchSkips(entries, sequence, from, pos, savedKey);
          numSkipped' := numSkipped + 1;
        } else {
          numSkipped' := 0;
          reseekDone' := false;
          if ikey.kind.Deletion? || ikey.kind.SingleDeletion? || ikey.covered {
            SearchMeetsDead(entries, sequence, from, pos, savedKey, skipping);
            savedKey := ikey.key;
            skipping' := true;
          } else {
            YieldEntry(skipping, from);
            return true, skipping', numSkipped', reseekDone';
          }
        }
      } else if ikey.key == savedKey || (skipping && ikey.key < savedKey) {
        if skipping {
          SearchSkips(entries, sequence, from, pos, savedKey);
        } else {
          SearchPassesInvisible(entries, sequence, from, pos, savedKey);
        }
        numSkipped' := numSkipped + 1;
      } else {
        SearchMeetsInvisible(entries, sequence, from, pos, savedKey, skipping);
        savedKey := ikey.key;
        skipping' := false;
        numSkipped' := 0;
        reseekDone' := false;
      }
      found := false;
    }

    /** The entry under the inner iterator is the newest visible version of a live key. */
    method YieldEntry(ghost skipping: bool, ghost from: Bound)
      requires Sorted(entries) && IterValid() && status.Ok? && direction.Forward? && !currentEntryIsMerged
      requires Searching(entries, sequence, from, pos, savedKey, skipping)
      requires entries[pos].key > savedKey || !skipping || Past(entries, savedKey) <= pos
      requires entries[pos].sequence <= sequence && !Dead(entries[pos])
      requires isKeySeqnumZero == (entries[pos].sequence == 0)
      requires Below(UpperLimit(reader.upper), entries[pos].key)
      modifies this`pos, this`savedKey, this`savedValue, this`mergeContext, this`valid, this`currentEntryIsMerged
      ensures FoundForward(from)
    {
      SearchReaches(entries, sequence, from, pos, savedKey, skipping);
      savedKey := entries[pos].key;
      valid := true;
      if entries[pos].kind.Merge? {
        currentEntryIsMerged := true;
        MergeValuesNewToOld();
      }
    }

    /** The operands of savedKey from start down to the inner iterator have been pushed. */
    ghost predicate Reading(start: nat)
      reads this`pos, this`mergeContext, this`savedKey
    {
      && start < pos <= |entries| && AllOperands(entries, savedKey, start, pos)
      && mergeContext.Operands() == OperandsOf(entries, start, pos)
    }

    /** Pushes the operands of savedKey from the newest version down, and stops on the entry that
        ends the merge. The loop that MergeValuesNewToOld and FindValueForCurrentKeyUsingSeek share. */
    method ReadOperands() returns (base: Option<Value>)
      requires IterValid() && IsOperand(entries, savedKey, pos)
      modifies this`mergeContext, this`pos
      ensures Reading(old(pos))
      ensures IterValid() && entries[pos].key == savedKey ==> Dead(entries[pos]) || entries[pos].kind.Put?
      ensures base == if IterValid() && entries[pos].key == savedKey && !Dead(entries[pos])
                      then Some(entries[pos].value) else None
    {
      ghost var start := pos;
      base := None;
      mergeContext := mergeContext.Clear();
      PushAndStep(start);
      while IterValid()
        invariant Reading(start) && base == None
        decreases |entries| - pos
      {
        if entries[pos].key != savedKey {
          break;
        }
        if entries[pos].kind.Deletion? || entries[pos].kind.SingleDeletion? || entries[pos].covered {
          break;
        }
        if entries[pos].kind.Put? {
          base := Some(entries[pos].value);
          break;
        }
        PushAndStep(start);
      }
    }

    method PushAndStep(ghost start: nat)
      requires IterValid() && IsOperand(entries, savedKey, pos)
      requires (pos == start && mergeContext.Operands() == []) || Reading(start)
      modifies this`mergeContext, this`pos
      ensures Reading(start) && pos == old(pos) + 1
    {
      mergeContext := mergeContext.PushOperand(entries[pos].value);
      pos := pos + 1;
    }

    method MergeValuesNewToOld()
      requires Sorted(entries) && IterValid() && pos == FirstVisible(entries, sequence, savedKey)
      requires Match(entries[pos], sequence, savedKey) && !Dead(entries[pos]) && entries[pos].kind.Merge?
      modifies this`mergeContext, this`pos, this`savedValue
      ensures pos == MergeEnd(entries, savedKey, old(pos) + 1)
      ensures !OutcomeOf(entries, sequence, savedKey).Absent?
      ensures savedValue == Display(reader.op, savedKey, OutcomeOf(entries, sequence, savedKey))
    {
      ghost var start := pos;
      var base := ReadOperands();
      MergeStops(entries, sequence, savedKey, start, pos);
      savedValue := reader.op(savedKey, base, mergeContext.Operands());
      if IterValid() && entries[pos].key == savedKey {
        pos := pos + 1;
      }
    }

    method ReverseToForward()
      requires Sorted(entries) && pos == FirstOf(entries, savedKey) - 1 < |entries| - 1
      modifies this`pos, this`direction
      ensures pos == FirstOf(entries, savedKey) && direction.Forward?
    {
      FirstOfSplits(entries, savedKey);
      if !IterValid() {
        pos := FirstOf(entries, savedKey);
      }
      direction := Forward;
      while IterValid() && entries[pos].key < savedKey
        invariant 0 <= pos <= FirstOf(entries, savedKey) && direction.Forward?
        decreases |entries| - pos
      {
        pos := pos + 1;
      }
    }

    /** Leaves the current row: the inner iterator ends up at or past savedKey, going forward. */
    method StepOffCurrent()
      requires Inv() && valid
      modifies this`pos, this`direction, this`isKeySeqnumZero
      ensures direction.Forward? && 0 <= pos <= |entries|
      ensures Searching(entries, sequence, Exclusive(savedKey), pos, savedKey, true)
      ensures isKeySeqnumZero ==> Past(entries, savedKey) <= pos
    {
      NewestDecides(entries, sequence, savedKey);
      NextStarts(entries, sequence, savedKey);
      if direction.Reverse? {
        isKeySeqnumZero := false;
        ReverseToForward();
      } else if !currentEntryIsMerged {
        pos := pos + 1;
      }
    }

    method Next()
      requires Inv() && valid
      modifies this
      ensures Inv() && sequence == old(sequence)
      ensures status.Ok? ==> IsFirstShown(entries, sequence, reader, Exclusive(old(savedKey)), Observe())
    {
      numInternalKeysSkipped := 0;
      ghost var from := Exclusive(savedKey);
      StepOffCurrent();
      if IterValid() {
        var ok := FindNextUserEntry(true, from);
      } else {
        isKeySeqnumZero := false;
        valid := false;
        SearchFails(entries, sequence, from, pos, savedKey, true, UpperLimit(reader.upper));
      }
      if status.Ok? {
        FoundForwardIsFirst(from, from);
      }
    }

    method SetSavedKeyToSeekTarget(target: UserKey)
      modifies this`isKeySeqnumZero, this`savedKey
      ensures !isKeySeqnumZero && Inclusive(savedKey) == TightenLow(Inclusive(target), reader.lower)
    {
      isKeySeqnumZero := false;
      savedKey := target;
      if reader.lower.Some? && savedKey < reader.lower.value {
        savedKey := reader.lower.value;
      }
    }

    method Seek(target: UserKey)
      requires Inv()
      modifies this
      ensures Inv() && sequence == old(sequence)
      ensures status.Ok? ==> IsFirstShown(entries, sequence, reader, Inclusive(target), Observe())
    {
      status := Ok;
      numInternalKeysSkipped := 0;
      SetSavedKeyToSeekTarget(target);
      ghost var from := Inclusive(savedKey);
      pos := FirstAtOrAfter(entries, Target(savedKey, sequence, VALUE_TYPE_FOR_SEEK));
      SeekStarts(entries, sequence, savedKey);
      if !IterValid() {
        valid := false;
        SearchFails(entries, sequence, from, pos, savedKey, false, UpperLimit(reader.upper));
      } else {
        direction := Forward;
        savedValue := [];
        var ok := FindNextUserEntry(false, from);
      }
      if status.Ok? {
        FoundForwardIsFirst(Inclusive(target), from);
      }
    }

    method SeekToFirst()
      requires Inv()
      modifies this
      ensures Inv() && sequence == old(sequence)
      ensures status.Ok? ==> IsFirstShown(entries, sequence, reader, Unbounded, Observe())
    {
      if reader.lower.Some? {
        Seek(reader.lower.value);
        return;
      }
      status := Ok;
      direction := Forward;
      numInternalKeysSkipped := 0;
      savedValue := [];
      isKeySeqnumZero := false;
      pos := 0;
      if IterValid() {
        savedKey := entries[pos].key;
        FirstStarts(entries, sequence);
        var ok := FindNextUserEntry(false, Unbounded);
      } else {
        valid := false;
        GapIsDead(entries, sequence, 0, Unbounded, UpperLimit(reader.upper));
      }
      if status.Ok? {
        FoundForwardIsFirst(Unbounded, Unbounded);
      }
    }

    /** Standing on the first live key past the tightened bound is standing on the first shown row. */
    lemma FoundForwardIsFirst(b: Bound, from: Bound)
      requires Sorted(entries) && FoundForward(from) && from == TightenLow(b, reader.lower)
      ensures Inv()
      ensures IsFirstShown(entries, sequence, reader, b, Observe())
    {
    }

    // ----- moving backward

    method FindUserKeyBeforeSavedKey() returns (ok: bool)
      requires Sorted(entries) && status.Ok? && FirstOf(entries, savedKey) - 1 <= pos < |entries|
      modifies this`pos, this`status, this`valid, this`numInternalKeysSkipped
      ensures ok ==> pos == FirstOf(entries, savedKey) - 1 && status.Ok? && valid == old(valid)
      ensures !ok ==> !valid && status == IncompleteStatus && 0 < maxSkippableInternalKeys < numInternalKeysSkipped
      ensures numInternalKeysSkipped <= old(numInternalKeysSkipped) + old(pos) - FirstOf(entries, savedKey) + 1
      ensures -1 <= pos <= |entries|
    {
      var numSkipped: nat := 0;
      while IterValid()
        invariant FirstOf(entries, savedKey) - 1 <= pos < |entries|
        invariant status.Ok? && valid == old(valid)
        invariant numInternalKeysSkipped + pos <= old(numInternalKeysSkipped) + old(pos)
        decreases pos
      {
        StepsBack(entries, savedKey, pos);
        if entries[pos].key < savedKey {
          return true;
        }
        var tooMany := TooManyInternalKeysSkipped(true);
        if tooMany {
          return false;
        }
        if numSkipped >= maxSkip {
          numSkipped := 0;
          pos := FirstOf(entries, savedKey);
          if !IterValid() {
            break;
          }
        } else {
          numSkipped := numSkipped + 1;
        }
        pos := pos - 1;
      }
      return true;
    }

    /** The value of savedKey as the backward direction presents it. */
    ghost predicate ResolvedBack()
      reads this
    {
      var outcome := OutcomeOf(entries, sequence, savedKey);
      && valid == !outcome.Absent?
      && (valid ==>
            Display(reader.op, savedKey, outcome) == if currentEntryIsMerged then savedValue else pinnedValue)
    }

    method FindValueForCurrentKey() returns (ok: bool)
      requires Sorted(entries) && status.Ok? && IterValid()
      requires entries[pos].key == savedKey && pos + 1 == Past(entries, savedKey)
      modifies this`pos, this`savedValue, this`pinnedValue, this`mergeContext, this`status, this`valid,
               this`currentEntryIsMerged, this`numInternalKeysSkipped
      ensures ok ==> status.Ok? && pos < |entries| && ResolvedBack()
      ensures ok ==> FirstOf(entries, savedKey) - 1 <= pos <= Past(entries, savedKey)
      ensures !ok ==> !valid && status == IncompleteStatus && 0 < maxSkippableInternalKeys < numInternalKeysSkipped
      ensures numInternalKeysSkipped <= old(numInternalKeysSkipped) + old(pos) - FirstOf(entries, savedKey) + 1
      ensures -1 <= pos <= |entries|
    {
      mergeContext := mergeContext.Clear();
      currentEntryIsMerged := false;
      FirstIsBefore(entries, savedKey, pos);
      ScanStarts(entries, sequence, savedKey, pos, pinnedValue);
      var resolved, lastKeyEntryType, lastNotMergeType;
      ok, resolved, lastKeyEntryType, lastNotMergeType := ScanOldToNew();
      if ok && !resolved {
        ScanEnds(entries, sequence, savedKey, pos, lastKeyEntryType, lastNotMergeType, pinnedValue,
                 mergeContext.Operands());
        SettleKey(lastKeyEntryType, lastNotMergeType);
      }
    }

    /** The loop of FindValueForCurrentKey; resolved says that it has fallen back to a seek. */
    method ScanOldToNew() returns (ok: bool, resolved: bool, last: ScanType, lastNotMerge: ScanType)
      requires Sorted(entries) && status.Ok? && IterValid() && !currentEntryIsMerged
      requires FirstOf(entries, savedKey) <= pos < Past(entries, savedKey)
      requires Scanned(entries, sequence, savedKey, pos, ScanDeletion, ScanDeletion, pinnedValue,
                       mergeContext.Operands())
      modifies this`pos, this`savedValue, this`pinnedValue, this`mergeContext, this`status, this`valid,
               this`currentEntryIsMerged, this`numInternalKeysSkipped
      ensures ok ==> status.Ok? && FirstOf(entries, savedKey) - 1 <= pos <= Past(entries, savedKey) && pos < |entries|
      ensures ok && resolved ==> ResolvedBack()
      ensures ok && !resolved ==>
                && !currentEntryIsMerged && (pos < 0 || !Match(entries[pos], sequence, savedKey))
                && Scanned(entries, sequence, savedKey, pos, last, lastNotMerge, pinnedValue, mergeContext.Operands())
      ensures !ok ==> !valid && status == IncompleteStatus && 0 < maxSkippableInternalKeys < numInternalKeysSkipped
      ensures numInternalKeysSkipped <= old(numInternalKeysSkipped) + old(pos) - FirstOf(entries, savedKey) + 1
      ensures -1 <= pos <= |entries|
    {
      last, lastNotMerge := ScanDeletion, ScanDeletion;
      var numSkipped: nat := 0;
      while IterValid()
        invariant FirstOf(entries, savedKey) - 1 <= pos < Past(entries, savedKey) && status.Ok? && !currentEntryIsMerged
        invariant numInternalKeysSkipped + pos <= old(numInternalKeysSkipped) + old(pos)
        invariant Scanned(entries, sequence, savedKey, pos, last, lastNotMerge, pinnedValue, mergeContext.Operands())
        decreases pos
      {
        if entries[pos].sequence > sequence || entries[pos].key != savedKey {
          break;
        }
        FirstIsBefore(entries, savedKey, pos);
        var tooMany := TooManyInternalKeysSkipped(true);
        if tooMany {
          return false, false, last, lastNotMerge;
        }
        if numSkipped >= maxSkip {
          VisibleExists(entries, sequence, savedKey, pos);
          FindValueForCurrentKeyUsingSeek();
          return true, true, last, lastNotMerge;
        }
        last, lastNotMerge := ScanEntry(last, lastNotMerge);
        pos := pos - 1;
        numSkipped := numSkipped + 1;
      }
      return true, false, last, lastNotMerge;
    }

    /** The switch at the end of FindValueForCurrentKey. */
    method SettleKey(last: ScanType, lastNotMerge: ScanType)
      requires !currentEntryIsMerged
      requires OutcomeOf(entries, sequence, savedKey)
            == ScanOutcome(last, lastNotMerge, pinnedValue, mergeContext.Operands())
      modifies this`savedValue, this`valid, this`currentEntryIsMerged
      ensures ResolvedBack()
    {
      match last {
        case ScanDeletion => valid := false;
        case ScanSingleDeletion => valid := false;
        case ScanRangeDeletion => valid := false;
        case ScanMerge =>
          currentEntryIsMerged := true;
          var base := if lastNotMerge.ScanValue? then Some(pinnedValue) else None;
          savedValue := reader.op(savedKey, base, mergeContext.Operands());
          valid := true;
        case ScanValue => valid := true;
      }
    }

    /** The switch of FindValueForCurrentKey on one version. */
    method ScanEntry(last: ScanType, lastNotMerge: ScanType) returns (last': ScanType, lastNotMerge': ScanType)
      requires Sorted(entries) && IterValid() && Match(entries[pos], sequence, savedKey)
      requires Scanned(entries, sequence, savedKey, pos, last, lastNotMerge, pinnedValue, mergeContext.Operands())
      modifies this`pinnedValue, this`mergeContext
      ensures Scanned(entries, sequence, savedKey, pos - 1, last', lastNotMerge', pinnedValue, mergeContext.Operands())
    {
      ScanReads(entries, sequence, savedKey, pos, last, lastNotMerge, pinnedValue, mergeContext.Operands());
      var ikey := entries[pos];
      lastNotMerge' := lastNotMerge;
      match ikey.kind {
        case Put =>
          if ikey.covered {
            last' := ScanRangeDeletion;
          } else {
            last' := ScanValue;
            pinnedValue := ikey.value;
          }
          mergeContext := mergeContext.Clear();
          lastNotMerge' := last';
        case Deletion =>
          last' := ScanDeletion;
          mergeContext := mergeContext.Clear();
          lastNotMerge' := last';
        case SingleDeletion =>
          last' := ScanSingleDeletion;
          mergeContext := mergeContext.Clear();
          lastNotMerge' := last';
        case Merge =>
          if ikey.covered {
            mergeContext := mergeContext.Clear();
            last' := ScanRangeDeletion;
            lastNotMerge' := last';
          } else {
            last' := ScanMerge;
            mergeContext := mergeContext.PushOperandBack(ikey.value);
          }
      }
    }

    /** Seeks to the newest visible version and reads down from there. Without a read callback the
        seek lands on a visible version, or on none of this key. */
    method FindValueForCurrentKeyUsingSeek()
      requires Sorted(entries) && !currentEntryIsMerged
      modifies this`pos, this`savedValue, this`pinnedValue, this`mergeContext, this`valid, this`currentEntryIsMerged
      ensures ResolvedBack()
      ensures FirstOf(entries, savedKey) <= pos <= Past(entries, savedKey) <= |entries|
      ensures FirstVisible(entries, sequence, savedKey) < Past(entries, savedKey) ==> pos < |entries|
    {
      pos := FirstVisible(entries, sequence, savedKey);
      NewestDecides(entries, sequence, savedKey);
      if !IterValid() || entries[pos].key != savedKey {
        valid := false;
        return;
      }
      var ikey := entries[pos];
      if ikey.kind.Deletion? || ikey.kind.SingleDeletion? || ikey.covered {
        valid := false;
        return;
      }
      valid := true;
      if ikey.kind.Put? {
        pinnedValue := ikey.value;
        return;
      }
      currentEntryIsMerged := true;
      ghost var start := pos;
      var base := ReadOperands();
      OperandsWithin(entries, savedKey, start, pos);
      MergeStops(entries, sequence, savedKey, start, pos);
      savedValue := reader.op(savedKey, base, mergeContext.Operands());
      if !IterValid() {
        pos := SeekOrLast(entries, Target(savedKey, sequence, VALUE_TYPE_FOR_SEEK));
      }
    }

    ghost predicate FoundBackward(to: Bound)
      requires Sorted(entries)
      reads this
    {
      && -1 <= pos <= |entries|
      && status.Ok?
      && if valid then
           && direction.Reverse? && Positioned()
           && Below(to, savedKey) && Above(LowerLimit(reader.lower), savedKey)
           && DeadBetween(entries, sequence, Exclusive(savedKey), to)
           && ResolvedBack()
         else
           DeadBetween(entries, sequence, LowerLimit(reader.lower), to)
    }

    /** Finds the value of savedKey, if it has one, and moves on to the key before it. */
    method ResolveAndStepBack() returns (ok: bool)
      requires Sorted(entries) && status.Ok? && IterValid()
      requires entries[pos].key == savedKey && pos + 1 == Past(entries, savedKey)
      requires numInternalKeysSkipped + 3 * (pos + 1) <= MostSkips(entries)
      modifies this`pos, this`savedValue, this`pinnedValue, this`mergeContext, this`status, this`valid,
               this`currentEntryIsMerged, this`numInternalKeysSkipped
      ensures ok ==> status.Ok? && ResolvedBack() && pos == FirstOf(entries, savedKey) - 1 < old(pos)
      ensures ok ==> numInternalKeysSkipped + 3 * (pos + 1) <= MostSkips(entries)
      ensures !ok ==> !valid && !status.Ok? && LimitMatters()
      ensures -1 <= pos <= |entries|
    {
      FirstIsBefore(entries, savedKey, pos);
      ok := FindValueForCurrentKey();
      if ok {
        ok := FindUserKeyBeforeSavedKey();
      }
    }

    method PrevInternal(ghost to: Bound)
      requires Sorted(entries) && status.Ok? && direction.Reverse?
      requires SearchingBack(entries, sequence, to, pos)
      modifies this`pos, this`savedKey, this`savedValue, this`pinnedValue, this`mergeContext, this`status,
               this`valid, this`currentEntryIsMerged, this`numInternalKeysSkipped
      requires numInternalKeysSkipped + 3 * (pos + 1) <= MostSkips(entries)
      ensures status.Ok? ==> FoundBackward(to)
      ensures !status.Ok? ==> !valid && LimitMatters() && -1 <= pos <= |entries|
    {
      while IterValid()
        invariant status.Ok? && SearchingBack(entries, sequence, to, pos)
        invariant numInternalKeysSkipped + 3 * (pos + 1) <= MostSkips(entries)
        decreases pos
      {
        savedKey := entries[pos].key;
        ghost var at := pos;
        if reader.lower.Some? && savedKey < reader.lower.value {
          valid := false;
          return;
        }
        var ok := ResolveAndStepBack();
        if !ok || valid {
          return;
        }
        BackPasses(entries, sequence, to, at);
        FirstOfSplits(entries, savedKey);
        var tooMany := TooManyInternalKeysSkipped(false);
        if tooMany {
          return;
        }
      }
      valid := false;
    }

    method ReverseToBackward() returns (ok: bool)
      requires Inv() && valid && direction.Forward?
      modifies this`pos, this`direction, this`status, this`valid, this`numInternalKeysSkipped
      requires numInternalKeysSkipped == 0
      ensures ok ==> pos == FirstOf(entries, savedKey) - 1 && status.Ok? && direction.Reverse?
      ensures ok ==> numInternalKeysSkipped + 3 * (pos + 1) <= MostSkips(entries)
      ensures !ok ==> !valid && status == IncompleteStatus && LimitMatters()
      ensures -1 <= pos <= |entries|
    {
      NewestDecides(entries, sequence, savedKey);
      if currentEntryIsMerged && !IterValid() {
        pos := SeekOrLast(entries, Target(savedKey, MAX_SEQUENCE_NUMBER, VALUE_TYPE_FOR_SEEK));
      }
      direction := Reverse;
      ok := FindUserKeyBeforeSavedKey();
    }

    method Prev()
      requires Inv() && valid
      modifies this
      ensures Inv() && sequence == old(sequence)
      ensures status.Ok? ==> IsLastShown(entries, sequence, reader, Exclusive(old(savedKey)), Observe())
    {
      numInternalKeysSkipped := 0;
      ghost var to := Exclusive(savedKey);
      var ok := true;
      if direction.Forward? {
        ok := ReverseToBackward();
      }
      if ok {
        FirstOfSplits(entries, savedKey);
        BackStarts(entries, sequence, to, pos);
        PrevInternal(to);
        if status.Ok? {
          FoundBackwardIsLast(to, to);
        }
      }
    }

    /** The seek position of SetSavedKeyToSeekForPrevTarget. */
    method SeekForPrevPosition(target: UserKey)
      requires Sorted(entries)
      modifies this`isKeySeqnumZero, this`savedKey, this`pos
      ensures SearchingBack(entries, sequence, TightenHigh(Inclusive(target), reader.upper), pos)
    {
      isKeySeqnumZero := false;
      savedKey := target;
      var t := Target(savedKey, 0, VALUE_TYPE_FOR_SEEK_FOR_PREV);
      if reader.upper.Some? && savedKey >= reader.upper.value {
        savedKey := reader.upper.value;
        t := Target(savedKey, MAX_SEQUENCE_NUMBER, VALUE_TYPE_FOR_SEEK);
      }
      pos := LastAtOrBefore(entries, t, |entries|);
      LastAtOrBeforeSplits(entries, t, |entries|);
      SortedFacts(entries);
      BackStarts(entries, sequence, TightenHigh(Inclusive(target), reader.upper), pos);
    }

    method SeekForPrev(target: UserKey)
      requires Inv()
      modifies this
      ensures Inv() && sequence == old(sequence)
      ensures status.Ok? ==> IsLastShown(entries, sequence, reader, Inclusive(target), Observe())
    {
      status := Ok;
      numInternalKeysSkipped := 0;
      SeekForPrevPosition(target);
      ghost var to := TightenHigh(Inclusive(target), reader.upper);
      if !IterValid() {
        valid := false;
      } else {
        direction := Reverse;
        savedValue := [];
        PrevInternal(to);
      }
      if status.Ok? {
        FoundBackwardIsLast(Inclusive(target), to);
      }
    }

    method SeekToLast()
      requires Inv()
      modifies this
      ensures Inv() && sequence == old(sequence)
      ensures status.Ok? ==> IsLastShown(entries, sequence, reader, Unbounded, Observe())
    {
      if reader.upper.Some? {
        SeekForPrev(reader.upper.value);
        if valid && savedKey == reader.upper.value {
          // SeekForPrev already stays strictly below the upper bound.
          assert false;
        }
        return;
      }
      status := Ok;
      direction := Reverse;
      numInternalKeysSkipped := 0;
      savedValue := [];
      isKeySeqnumZero := false;
      pos := |entries| - 1;
      BackStarts(entries, sequence, Unbounded, pos);
      PrevInternal(Unbounded);
      if status.Ok? {
        FoundBackwardIsLast(Unbounded, Unbounded);
      }
    }

    lemma FoundBackwardIsLast(b: Bound, to: Bound)
      requires Sorted(entries) && FoundBackward(to) && to == TightenHigh(b, reader.upper)
      ensures Inv()
      ensures IsLastShown(entries, sequence, reader, b, Observe())
    {
    }

    /** Refresh on an unchanged super version: a new snapshot, and no position. */
    method SetSequence(s: nat)
      requires Inv()
      modifies this`sequence, this`valid
      ensures Inv() && sequence == s && !valid
    {
      sequence := s;
      valid := false;
    }

    /** Issues a sequence of calls, Next and Prev only when the iterator is valid. Every call either
        does what the plain cursor over the snapshot view does, or runs into the limit on skipped
        internal keys. */
    method Run(ops: seq<Op>) returns (seen: seq<Observation>)
      requires Inv()
      modifies this
      ensures Inv() && |seen| == |ops|
      ensures AllExplained(entries, old(sequence), reader, old(Observe()), ops, seen, maxSkippableInternalKeys)
      ensures maxSkippableInternalKeys == 0 || maxSkippableInternalKeys >= MostSkips(entries) ==>
                seen == CursorRun(entries, old(sequence), reader, old(Observe()), ops)
    {
      seen := [];
      ghost var snap, before := sequence, Observe();
      for n := 0 to |ops|
        invariant Inv() && |seen| == n && sequence == SequenceAt(snap, ops, n)
        invariant Observe() == if n == 0 then before else seen[n - 1]
        invariant AllExplained(entries, snap, reader, before, ops, seen, maxSkippableInternalKeys)
      {
        Call(ops[n]);
        ExplainedGrows(entries, snap, reader, before, ops, seen, Observe(), maxSkippableInternalKeys);
        seen := seen + [Observe()];
      }
      if maxSkippableInternalKeys == 0 || maxSkippableInternalKeys >= MostSkips(entries) {
        ExplainedRun(entries, snap, reader, before, ops, seen, maxSkippableInternalKeys);
      }
    }

    method Call(op: Op)
      requires Inv()
      modifies this
      ensures Inv() && sequence == SequenceAfter(old(sequence), op)
      ensures Explained(entries, old(sequence), reader, old(Observe()), op, Observe(), maxSkippableInternalKeys)
    {
      match op {
        case Seek(t) =>
          Seek(t);
          FirstShownIsFirstRow(entries, sequence, reader, Inclusive(t), Observe());
        case SeekForPrev(t) =>
          SeekForPrev(t);
          LastShownIsLastRow(entries, sequence, reader, Inclusive(t), Observe());
        case SeekToFirst =>
          SeekToFirst();
          FirstShownIsFirstRow(entries, sequence, reader, Unbounded, Observe());
        case SeekToLast =>
          SeekToLast();
          LastShownIsLastRow(entries, sequence, reader, Unbounded, Observe());
        case Next =>
          if valid {
            ghost var k := savedKey;
            Next();
            FirstShownIsFirstRow(entries, sequence, reader, Exclusive(k), Observe());
          }
        case Prev =>
          if valid {
            ghost var k := savedKey;
            Prev();
            LastShownIsLastRow(entries, sequence, reader, Exclusive(k), Observe());
          }
        case SetSequence(s) =>
          SetSequence(s);
      }
    }
  }

  /** Two iterators over the same stream show the same rows, however early or late each of them
      gives up stepping and seeks instead. */
  method SkipLimitIsInvisible(entries: seq<Entry>, reader: Reader, sequence: nat, skip1: nat, skip2: nat, ops: seq<Op>)
    returns (seen1: seq<Observation>, seen2: seq<Observation>)
    requires Sorted(entries)
    ensures seen1 == seen2 == CursorRun(entries, sequence, reader, Invalid, ops)
  {
    var it1 := new DBIter(entries, reader, sequence, skip1, 0);
    seen1 := it1.Run(ops);
    var it2 := new DBIter(entries, reader, sequence, skip2, 0);
    seen2 := it2.Run(ops);
  }
}
