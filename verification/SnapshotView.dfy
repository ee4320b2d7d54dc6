/** What a reader at a snapshot should see: the reference meaning of a key's versions, the
    table of live rows, and a plain cursor over that table. */
module SnapshotView {
  import opened DbFormat
  import opened Wrappers

  /** What the versions of one key amount to. Operands are listed oldest to newest. */
  datatype Outcome = Absent | Stored(value: Value) | Merged(base: Option<Value>, operands: seq<Value>)

  type MergeOperator = (UserKey, Option<Value>, seq<Value>) -> Value

  predicate Dead(e: Entry) {
    e.kind.Deletion? || e.kind.SingleDeletion? || e.covered
  }

  /** Merge operands applied, oldest first, on top of an older outcome. */
  function Apply(older: Outcome, operands: seq<Value>): Outcome {
    match older
    case Absent => Merged(None, operands)
    case Stored(base) => Merged(Some(base), operands)
    case Merged(base, earlier) => Merged(base, earlier + operands)
  }

  /** The effect of writing e on top of what was there before it. */
  function Write(e: Entry, older: Outcome): Outcome {
    if Dead(e) then Absent
    else if e.kind.Put? then Stored(e.value)
    else Apply(older, [e.value])
  }

  predicate Match(e: Entry, snap: nat, k: UserKey) {
    e.key == k && e.sequence <= snap
  }

  /** The outcome of the versions of k visible at snap among es[i..], newest first. */
  function OutcomeFrom(es: seq<Entry>, snap: nat, k: UserKey, i: nat): Outcome
    requires i <= |es|
    decreases |es| - i
  {
    if i == |es| then Absent
    else if Match(es[i], snap, k) then Write(es[i], OutcomeFrom(es, snap, k, i + 1))
    else OutcomeFrom(es, snap, k, i + 1)
  }

  function OutcomeOf(es: seq<Entry>, snap: nat, k: UserKey): Outcome {
    OutcomeFrom(es, snap, k, 0)
  }

  lemma {:induction false} SkipUnmatched(es: seq<Entry>, snap: nat, k: UserKey, i: nat, j: nat)
    requires i <= j <= |es|
    requires forall m :: i <= m < j ==> !Match(es[m], snap, k)
    ensures OutcomeFrom(es, snap, k, i) == OutcomeFrom(es, snap, k, j)
    decreases j - i
  {
    if i < j {
      SkipUnmatched(es, snap, k, i + 1, j);
    }
  }

  function Display(op: MergeOperator, k: UserKey, o: Outcome): Value
    requires !o.Absent?
  {
    match o
    case Stored(v) => v
    case Merged(base, operands) => op(k, base, operands)
  }

  // ----- one side of a key interval

  datatype Bound = Unbounded | Inclusive(key: UserKey) | Exclusive(key: UserKey)

  predicate Above(b: Bound, k: UserKey) {
    match b
    case Unbounded => true
    case Inclusive(x) => x <= k
    case Exclusive(x) => x < k
  }

  predicate Below(b: Bound, k: UserKey) {
    match b
    case Unbounded => true
    case Inclusive(x) => k <= x
    case Exclusive(x) => k < x
  }

  /** The lower limit of the iterator (inclusive) and the upper one (exclusive). */
  function LowerLimit(lower: Option<UserKey>): Bound {
    if lower.None? then Unbounded else Inclusive(lower.value)
  }

  function UpperLimit(upper: Option<UserKey>): Bound {
    if upper.None? then Unbounded else Exclusive(upper.value)
  }

  ghost predicate DeadBetween(es: seq<Entry>, snap: nat, from: Bound, to: Bound) {
    forall k: UserKey :: Above(from, k) && Below(to, k) ==> OutcomeOf(es, snap, k).Absent?
  }

  /** No key strictly between two neighbouring keys of the stream has a version. */
  lemma GapIsDead(es: seq<Entry>, snap: nat, i: nat, from: Bound, to: Bound)
    requires i <= |es|
    requires forall j :: 0 <= j < i ==> !Above(from, es[j].key)
    requires forall j :: i <= j < |es| ==> !Below(to, es[j].key)
    ensures DeadBetween(es, snap, from, to)
  {
    forall k: UserKey | Above(from, k) && Below(to, k)
      ensures OutcomeOf(es, snap, k).Absent?
    {
      SkipUnmatched(es, snap, k, 0, |es|);
    }
  }

  // ----- the table of live rows

  datatype Row = Row(key: UserKey, value: Value)

  datatype Reader = Reader(op: MergeOperator, lower: Option<UserKey>, upper: Option<UserKey>)
  {
    predicate InBounds(k: UserKey) {
      Above(LowerLimit(lower), k) && Below(UpperLimit(upper), k)
    }
  }

  predicate Shown(es: seq<Entry>, snap: nat, rd: Reader, k: UserKey) {
    rd.InBounds(k) && !OutcomeOf(es, snap, k).Absent?
  }

  function ViewFrom(es: seq<Entry>, snap: nat, rd: Reader, i: nat): seq<Row>
    requires i <= |es|
    decreases |es| - i
  {
    if i == |es| then []
    else
      var k := es[i].key;
      if (i > 0 && es[i - 1].key == k) || !Shown(es, snap, rd, k) then ViewFrom(es, snap, rd, i + 1)
      else [Row(k, Display(rd.op, k, OutcomeOf(es, snap, k)))] + ViewFrom(es, snap, rd, i + 1)
  }

  /** The snapshot view: one row per live user key inside the bounds, in key order. */
  function View(es: seq<Entry>, snap: nat, rd: Reader): seq<Row> {
    ViewFrom(es, snap, rd, 0)
  }

  // ----- a plain cursor over rows

  datatype Observation = Invalid | At(key: UserKey, value: Value) | Incomplete

  datatype Op = Seek(target: UserKey) | SeekForPrev(target: UserKey) | SeekToFirst | SeekToLast
              | Next | Prev | SetSequence(sequence: nat)

  function FirstRow(rows: seq<Row>, b: Bound): Observation {
    if rows == [] then Invalid
    else if Above(b, rows[0].key) then At(rows[0].key, rows[0].value)
    else FirstRow(rows[1..], b)
  }

  function LastRow(rows: seq<Row>, b: Bound): Observation {
    if rows == [] then Invalid
    else
      var last := rows[|rows| - 1];
      if Below(b, last.key) then At(last.key, last.value) else LastRow(rows[..|rows| - 1], b)
  }

  /** A call moves the cursor; Next and Prev are issued only when it is on a row. */
  function CursorStep(rows: seq<Row>, cur: Observation, op: Op): Observation {
    match op
    case Seek(t) => FirstRow(rows, Inclusive(t))
    case SeekForPrev(t) => LastRow(rows, Inclusive(t))
    case SeekToFirst => FirstRow(rows, Unbounded)
    case SeekToLast => LastRow(rows, Unbounded)
    case Next => if cur.At? then FirstRow(rows, Exclusive(cur.key)) else cur
    case Prev => if cur.At? then LastRow(rows, Exclusive(cur.key)) else cur
    case SetSequence(_) => Invalid
  }

  function SequenceAfter(snap: nat, op: Op): nat {
    if op.SetSequence? then op.sequence else snap
  }

  function CursorRun(es: seq<Entry>, snap: nat, rd: Reader, cur: Observation, ops: seq<Op>): seq<Observation>
    decreases |ops|
  {
    if ops == [] then []
    else
      var cur' := CursorStep(View(es, snap, rd), cur, ops[0]);
      [cur'] + CursorRun(es, SequenceAfter(snap, ops[0]), rd, cur', ops[1..])
  }

  // ----- the rows are exactly the live keys, in order

  predicate HasRow(rows: seq<Row>, k: UserKey, v: Value) {
    exists r :: 0 <= r < |rows| && rows[r] == Row(k, v)
  }

  ghost predicate Ascending(rows: seq<Row>) {
    forall a, b :: 0 <= a < b < |rows| ==> rows[a].key < rows[b].key
  }

  lemma {:induction false} ViewFromRows(es: seq<Entry>, snap: nat, rd: Reader, i: nat)
    requires Sorted(es) && i <= |es|
    ensures Ascending(ViewFrom(es, snap, rd, i))
    ensures forall r :: 0 <= r < |ViewFrom(es, snap, rd, i)| ==>
                          && var k := ViewFrom(es, snap, rd, i)[r].key;
                          && (i < |es| ==> k >= es[i].key)
                          && (0 < i < |es| && es[i - 1].key == es[i].key ==> k > es[i].key)
                          && Shown(es, snap, rd, k)
                          && ViewFrom(es, snap, rd, i)[r].value == Display(rd.op, k, OutcomeOf(es, snap, k))
    decreases |es| - i
  {
    SortedFacts(es);
    if i < |es| {
      ViewFromRows(es, snap, rd, i + 1);
    }
  }

  lemma {:induction false} ViewFromComplete(es: seq<Entry>, snap: nat, rd: Reader, i: nat, m: nat)
    requires Sorted(es) && i <= m < |es|
    requires m == 0 || es[m - 1].key != es[m].key
    requires Shown(es, snap, rd, es[m].key)
    ensures HasRow(ViewFrom(es, snap, rd, i), es[m].key, Display(rd.op, es[m].key, OutcomeOf(es, snap, es[m].key)))
    decreases |es| - i
  {
    var rows := ViewFrom(es, snap, rd, i);
    var k := es[m].key;
    var v := Display(rd.op, k, OutcomeOf(es, snap, k));
    if i == m {
      assert rows[0] == Row(k, v);
    } else {
      var rest := ViewFrom(es, snap, rd, i + 1);
      ViewFromComplete(es, snap, rd, i + 1, m);
      var r :| 0 <= r < |rest| && rest[r] == Row(k, v);
      if rows != rest {
        assert rows[r + 1] == Row(k, v);
      }
    }
  }

  /** The view has a row for k exactly when k is inside the bounds and its visible versions leave
      a value, and that row carries the value. */
  lemma ViewIsLiveKeys(es: seq<Entry>, snap: nat, rd: Reader, k: UserKey, v: Value)
    requires Sorted(es)
    ensures Ascending(View(es, snap, rd))
    ensures HasRow(View(es, snap, rd), k, v) <==>
            Shown(es, snap, rd, k) && v == Display(rd.op, k, OutcomeOf(es, snap, k))
  {
    ViewFromRows(es, snap, rd, 0);
    if Shown(es, snap, rd, k) {
      SortedFacts(es);
      FirstAtOrAfterSplits(es, Target(k, MAX_SEQUENCE_NUMBER, VALUE_TYPE_FOR_SEEK));
      var m := FirstAtOrAfter(es, Target(k, MAX_SEQUENCE_NUMBER, VALUE_TYPE_FOR_SEEK));
      if m == |es| || es[m].key != k {
        SkipUnmatched(es, snap, k, 0, |es|);
      } else {
        ViewFromComplete(es, snap, rd, 0, m);
      }
    }
  }

  /** cur is the first row at or past the bound b, or Invalid when there is none. */
  ghost predicate IsFirstShown(es: seq<Entry>, snap: nat, rd: Reader, b: Bound, cur: Observation) {
    match cur
    case At(k, v) =>
      && Shown(es, snap, rd, k) && v == Display(rd.op, k, OutcomeOf(es, snap, k)) && Above(b, k)
      && forall x: UserKey :: Shown(es, snap, rd, x) && Above(b, x) ==> k <= x
    case Invalid => forall x: UserKey :: Shown(es, snap, rd, x) ==> !Above(b, x)
    case Incomplete => false
  }

  ghost predicate IsLastShown(es: seq<Entry>, snap: nat, rd: Reader, b: Bound, cur: Observation) {
    match cur
    case At(k, v) =>
      && Shown(es, snap, rd, k) && v == Display(rd.op, k, OutcomeOf(es, snap, k)) && Below(b, k)
      && forall x: UserKey :: Shown(es, snap, rd, x) && Below(b, x) ==> x <= k
    case Invalid => forall x: UserKey :: Shown(es, snap, rd, x) ==> !Below(b, x)
    case Incomplete => false
  }

  /** The least live key past a bound is what the cursor finds, and nothing else is. */
  lemma FirstShownIsFirstRow(es: seq<Entry>, snap: nat, rd: Reader, b: Bound, cur: Observation)
    requires Sorted(es)
    ensures IsFirstShown(es, snap, rd, b, cur) <==> cur == FirstRow(View(es, snap, rd), b)
  {
    var found := FirstRow(View(es, snap, rd), b);
    ShownRows(es, snap, rd);
    FirstRowFound(View(es, snap, rd), b);
    if found.At? {
      ViewIsLiveKeys(es, snap, rd, found.key, found.value);
    }
    assert IsFirstShown(es, snap, rd, b, found);
  }

  lemma LastShownIsLastRow(es: seq<Entry>, snap: nat, rd: Reader, b: Bound, cur: Observation)
    requires Sorted(es)
    ensures IsLastShown(es, snap, rd, b, cur) <==> cur == LastRow(View(es, snap, rd), b)
  {
    var found := LastRow(View(es, snap, rd), b);
    ShownRows(es, snap, rd);
    LastRowFound(View(es, snap, rd), b);
    if found.At? {
      ViewIsLiveKeys(es, snap, rd, found.key, found.value);
    }
    assert IsLastShown(es, snap, rd, b, found);
  }

  lemma ShownRows(es: seq<Entry>, snap: nat, rd: Reader)
    requires Sorted(es)
    ensures Ascending(View(es, snap, rd))
    ensures forall x: UserKey :: Shown(es, snap, rd, x) ==>
                                   exists r :: 0 <= r < |View(es, snap, rd)| && View(es, snap, rd)[r].key == x
  {
    ViewFromRows(es, snap, rd, 0);
    forall x: UserKey | Shown(es, snap, rd, x)
      ensures exists r :: 0 <= r < |View(es, snap, rd)| && View(es, snap, rd)[r].key == x
    {
      ViewIsLiveKeys(es, snap, rd, x, Display(rd.op, x, OutcomeOf(es, snap, x)));
    }
  }

  lemma {:induction false} FirstRowFound(rows: seq<Row>, b: Bound)
    requires Ascending(rows)
    ensures match FirstRow(rows, b)
            case At(k, v) => HasRow(rows, k, v) && Above(b, k)
                             && forall r :: 0 <= r < |rows| && Above(b, rows[r].key) ==> k <= rows[r].key
            case Invalid => forall r :: 0 <= r < |rows| ==> !Above(b, rows[r].key)
            case Incomplete => false
  {
    if rows != [] {
      FirstRowFound(rows[1..], b);
      if Above(b, rows[0].key) {
        assert rows[0] == Row(rows[0].key, rows[0].value);
      } else {
        forall r | 0 <= r < |rows| && Above(b, rows[r].key)
          ensures r > 0 && rows[r] == rows[1..][r - 1]
        {
        }
        if FirstRow(rows, b).At? {
          var cur := FirstRow(rows, b);
          var r :| 0 <= r < |rows[1..]| && rows[1..][r] == Row(cur.key, cur.value);
          assert rows[r + 1] == Row(cur.key, cur.value);
        }
      }
    }
  }

  lemma {:induction false} LastRowFound(rows: seq<Row>, b: Bound)
    requires Ascending(rows)
    ensures match LastRow(rows, b)
            case At(k, v) => HasRow(rows, k, v) && Below(b, k)
                             && forall r :: 0 <= r < |rows| && Below(b, rows[r].key) ==> rows[r].key <= k
            case Invalid => forall r :: 0 <= r < |rows| ==> !Below(b, rows[r].key)
            case Incomplete => false
  {
    if rows != [] {
      var n := |rows| - 1;
      LastRowFound(rows[..n], b);
      if Below(b, rows[n].key) {
        assert rows[n] == Row(rows[n].key, rows[n].value);
      } else {
        forall r | 0 <= r < |rows| && Below(b, rows[r].key)
          ensures r < n && rows[r] == rows[..n][r]
        {
        }
        if LastRow(rows, b).At? {
          var cur := LastRow(rows, b);
          var r :| 0 <= r < n && rows[..n][r] == Row(cur.key, cur.value);
          assert rows[r] == Row(cur.key, cur.value);
        }
      }
    }
  }
}
