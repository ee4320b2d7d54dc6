/** The snapshot view and the plain cursor, said of the fields of entries and of keys alone: what a key's
    versions have to be for it to have a row, which value the row has, and where each call ends. */
module ViewMeaning {
  import opened DbFormat
  import opened SnapshotView
  import opened DbIter
  import opened Wrappers

  /** es[i] is the version of k with the greatest sequence number not above snap. */
  ghost predicate IsNewest(es: seq<Entry>, snap: nat, k: UserKey, i: nat) {
    && i < |es| && es[i].key == k && es[i].sequence <= snap
    && forall j :: 0 <= j < |es| && es[j].key == k && es[j].sequence <= snap ==> es[j].sequence <= es[i].sequence
  }

  /** es[i] is a merge operand of k outside every range deletion. */
  predicate IsLiveMerge(es: seq<Entry>, k: UserKey, i: nat) {
    i < |es| && es[i].key == k && es[i].kind == DbFormat.Merge && !es[i].covered
  }

  /** es[i] is a put of k outside every range deletion. */
  predicate IsLivePut(es: seq<Entry>, k: UserKey, i: nat) {
    i < |es| && es[i].key == k && es[i].kind == DbFormat.Put && !es[i].covered
  }

  /** The values of es[i..j], from the last to the first, that is, from the oldest to the newest. */
  function OldestFirst(es: seq<Entry>, i: nat, j: nat): seq<Value>
    requires i <= j <= |es|
  {
    seq(j - i, n requires 0 <= n < j - i => es[j - 1 - n].value)
  }

  /** The versions of k amount to v: es[i] is the newest visible one, es[i..j] are all the live merge
      operands from there on, and es[j] is what they apply to. */
  ghost predicate Gives(es: seq<Entry>, snap: nat, op: MergeOperator, k: UserKey, i: nat, j: nat, v: Value) {
    && IsNewest(es, snap, k, i) && i <= j <= |es|
    && (forall m :: i <= m < j ==> IsLiveMerge(es, k, m)) && !IsLiveMerge(es, k, j)
    && if i == j then IsLivePut(es, k, i) && v == es[i].value
       else v == op(k, if IsLivePut(es, k, j) then Some(es[j].value) else None, OldestFirst(es, i, j))
  }

  predicate Inside(rd: Reader, k: UserKey) {
    (rd.lower.Some? ==> rd.lower.value <= k) && (rd.upper.Some? ==> k < rd.upper.value)
  }

  lemma NewestIsFirstVisible(es: seq<Entry>, snap: nat, k: UserKey, i: nat)
    requires Sorted(es)
    ensures IsNewest(es, snap, k, i) <==> i == FirstVisible(es, snap, k) && i < |es| && es[i].key == k
  {
    SortedFacts(es);
    FirstVisibleSplits(es, snap, k);
    var r := FirstVisible(es, snap, k);
    if i < |es| && es[i].key == k && es[i].sequence <= snap {
      assert r <= i && es[r].key == k;
    }
  }

  /** Where the operands that begin at i end. */
  lemma {:induction false} OperandsEnd(es: seq<Entry>, k: UserKey, i: nat) returns (j: nat)
    requires i <= |es|
    ensures i <= j <= |es| && (forall m :: i <= m < j ==> IsLiveMerge(es, k, m)) && !IsLiveMerge(es, k, j)
    decreases |es| - i
  {
    if IsLiveMerge(es, k, i) {
      j := OperandsEnd(es, k, i + 1);
    } else {
      j := i;
    }
  }

  lemma {:induction false} OperandsAre(es: seq<Entry>, i: nat, j: nat)
    requires i < j <= |es|
    ensures OperandsOf(es, i, j) == OldestFirst(es, i, j)
    decreases j
  {
    if i + 1 < j {
      OperandsAre(es, i, j - 1);
      assert OldestFirst(es, i, j) == [es[j - 1].value] + OldestFirst(es, i, j - 1);
    }
  }

  /** The outcome of a key whose newest visible version is es[i], and whose operands end at j. */
  lemma OutcomeIs(es: seq<Entry>, snap: nat, k: UserKey, i: nat, j: nat)
    requires Sorted(es) && IsNewest(es, snap, k, i) && i <= j <= |es|
    requires (forall m :: i <= m < j ==> IsLiveMerge(es, k, m)) && !IsLiveMerge(es, k, j)
    ensures OutcomeOf(es, snap, k)
         == if i < j then Merged(if IsLivePut(es, k, j) then Some(es[j].value) else None, OldestFirst(es, i, j))
            else if IsLivePut(es, k, i) then Stored(es[i].value)
            else Absent
  {
    NewestIsFirstVisible(es, snap, k, i);
    NewestDecides(es, snap, k);
    if i < j {
      forall m: nat | i <= m < j
        ensures IsOperand(es, k, m)
      {
        assert IsLiveMerge(es, k, m);
      }
      OperandsAre(es, i, j);
      MergeStops(es, snap, k, i, j);
    }
  }

  lemma NoVersionNoOutcome(es: seq<Entry>, snap: nat, k: UserKey)
    requires Sorted(es) && forall i: nat :: !IsNewest(es, snap, k, i)
    ensures OutcomeOf(es, snap, k).Absent?
  {
    NewestDecides(es, snap, k);
    NewestIsFirstVisible(es, snap, k, FirstVisible(es, snap, k));
  }

  /** The view has a row for k with value v exactly if k is inside the bounds and its versions give v: the
      newest visible one is a put outside every range deletion and v its value, or it begins a run of
      such merge operands and v is their merge, oldest first, over the put that ends the run, if any.
      A deletion, or a range deletion, of the newest version leaves no row. */
  lemma ViewByFields(es: seq<Entry>, snap: nat, rd: Reader, k: UserKey, v: Value)
    requires Sorted(es)
    ensures HasRow(View(es, snap, rd), k, v) <==>
            Inside(rd, k) && exists i: nat, j: nat :: Gives(es, snap, rd.op, k, i, j, v)
  {
    ViewIsLiveKeys(es, snap, rd, k, v);
    if i: nat :| IsNewest(es, snap, k, i) {
      var j := OperandsEnd(es, k, i);
      OutcomeIs(es, snap, k, i, j);
      NewestIsFirstVisible(es, snap, k, i);
      if HasRow(View(es, snap, rd), k, v) {
        assert Gives(es, snap, rd.op, k, i, j, v);
      }
      forall i': nat, j': nat | Gives(es, snap, rd.op, k, i', j', v)
        ensures i' == i && j' == j
      {
        NewestIsFirstVisible(es, snap, k, i');
      }
    } else {
      NoVersionNoOutcome(es, snap, k);
    }
  }

  /** In particular a deleted or range-deleted newest version hides the key, whatever lies below it. */
  lemma ErasedHasNoRow(es: seq<Entry>, snap: nat, rd: Reader, k: UserKey, i: nat, v: Value)
    requires Sorted(es) && IsNewest(es, snap, k, i)
    requires es[i].covered || es[i].kind == DbFormat.Deletion || es[i].kind == DbFormat.SingleDeletion
    ensures !HasRow(View(es, snap, rd), k, v)
  {
    ViewIsLiveKeys(es, snap, rd, k, v);
    OutcomeIs(es, snap, k, i, i);
  }

  // ----- the cursor

  /** now is on the row of the least key that is past x, or at x if that counts; Invalid if there is none. */
  ghost predicate OnFirst(rows: seq<Row>, x: Option<UserKey>, orAt: bool, now: Observation) {
    match now
    case At(k, v) =>
      && HasRow(rows, k, v) && (x.Some? ==> x.value < k || (orAt && x.value == k))
      && forall r :: 0 <= r < |rows| && (x.Some? ==> x.value < rows[r].key || (orAt && x.value == rows[r].key)) ==>
                       k <= rows[r].key
    case Invalid => forall r :: 0 <= r < |rows| ==>
                                  x.Some? && (rows[r].key < x.value || (!orAt && rows[r].key == x.value))
    case Incomplete => false
  }

  /** The same for the greatest key before x. */
  ghost predicate OnLast(rows: seq<Row>, x: Option<UserKey>, orAt: bool, now: Observation) {
    match now
    case At(k, v) =>
      && HasRow(rows, k, v) && (x.Some? ==> k < x.value || (orAt && x.value == k))
      && forall r :: 0 <= r < |rows| && (x.Some? ==> rows[r].key < x.value || (orAt && x.value == rows[r].key)) ==>
                       rows[r].key <= k
    case Invalid => forall r :: 0 <= r < |rows| ==>
                                  x.Some? && (x.value < rows[r].key || (!orAt && rows[r].key == x.value))
    case Incomplete => false
  }

  /** Seek and SeekForPrev end at the nearest row at or past, or at or before, the target; SeekToFirst and
      SeekToLast on the first and the last row; Next and Prev on the neighbouring row. */
  lemma CursorByKeys(rows: seq<Row>, cur: Observation, op: Op)
    requires Ascending(rows)
    ensures var now := CursorStep(rows, cur, op);
            match op
            case Seek(t) => OnFirst(rows, Some(t), true, now)
            case SeekForPrev(t) => OnLast(rows, Some(t), true, now)
            case SeekToFirst => OnFirst(rows, None, true, now)
            case SeekToLast => OnLast(rows, None, true, now)
            case Next => if cur.At? then OnFirst(rows, Some(cur.key), false, now) else now == cur
            case Prev => if cur.At? then OnLast(rows, Some(cur.key), false, now) else now == cur
            case SetSequence(_) => now == Invalid
  {
    match op
    case Seek(t) => FirstRowFound(rows, Inclusive(t));
    case SeekForPrev(t) => LastRowFound(rows, Inclusive(t));
    case SeekToFirst => FirstRowFound(rows, Unbounded);
    case SeekToLast => LastRowFound(rows, Unbounded);
    case Next =>
      if cur.At? {
        FirstRowFound(rows, Exclusive(cur.key));
      }
    case Prev =>
      if cur.At? {
        LastRowFound(rows, Exclusive(cur.key));
      }
    case SetSequence(_) =>
  }

  /** The snapshot at call n: the last one set before it, or the first one. */
  ghost predicate SnapshotAt(snap: nat, ops: seq<Op>, n: nat, s: nat)
    requires n <= |ops|
  {
    || (s == snap && forall m :: 0 <= m < n ==> !ops[m].SetSequence?)
    || exists m :: 0 <= m < n && ops[m] == SetSequence(s) && forall l :: m < l < n ==> !ops[l].SetSequence?
  }

  lemma SnapshotAtNext(snap: nat, ops: seq<Op>, n: nat, s: nat)
    requires 0 < n <= |ops| && SnapshotAt(snap, ops, n, s)
    ensures SnapshotAt(SequenceAfter(snap, ops[0]), ops[1..], n - 1, s)
  {
    var rest := ops[1..];
    if m :| 0 <= m < n && ops[m] == SetSequence(s) && forall l :: m < l < n ==> !ops[l].SetSequence? {
      if m > 0 {
        assert rest[m - 1] == SetSequence(s);
      } else {
        assert forall l :: 0 <= l < n - 1 ==> rest[l] == ops[l + 1];
      }
    } else {
      assert forall l :: 0 <= l < n - 1 ==> rest[l] == ops[l + 1];
    }
  }

  /** Call n of a run is one step of the cursor, over the view at the snapshot then in force, from what the
      call before it showed. */
  lemma {:induction false} CursorRunAt(es: seq<Entry>, snap: nat, rd: Reader, cur: Observation, ops: seq<Op>,
                                       n: nat, s: nat)
    requires n < |ops| && SnapshotAt(snap, ops, n, s)
    ensures var seen := CursorRun(es, snap, rd, cur, ops);
            |seen| == |ops| && seen[n] == CursorStep(View(es, s, rd), if n == 0 then cur else seen[n - 1], ops[n])
    decreases n
  {
    RunLength(es, snap, rd, cur, ops);
    if n > 0 {
      SnapshotAtNext(snap, ops, n, s);
      var cur' := CursorStep(View(es, snap, rd), cur, ops[0]);
      CursorRunAt(es, SequenceAfter(snap, ops[0]), rd, cur', ops[1..], n - 1, s);
    }
  }

  lemma {:induction false} RunLength(es: seq<Entry>, snap: nat, rd: Reader, cur: Observation, ops: seq<Op>)
    ensures |CursorRun(es, snap, rd, cur, ops)| == |ops|
    decreases |ops|
  {
    if ops != [] {
      RunLength(es, SequenceAfter(snap, ops[0]), rd, CursorStep(View(es, snap, rd), cur, ops[0]), ops[1..]);
    }
  }
}
