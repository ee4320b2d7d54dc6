/** Internal keys and the sorted stream of versioned entries that the inner iterator walks
    (db/dbformat.h). */
module DbFormat {

  /** A user key, seen only through the user comparator. Byte strings are countable, and every
      total order on a countable set embeds in the reals, so comparing reals stands for any
      comparator. */
  type UserKey = real

  type Value = string

  datatype Kind = Deletion | Put | Merge | SingleDeletion

  /** One stored version. `covered` is the answer of the range deletion aggregator for it. */
  datatype Entry = Entry(key: UserKey, sequence: nat, kind: Kind, value: Value, covered: bool)

  /** A seek target: user key, sequence number and value type code. */
  datatype Target = Target(key: UserKey, sequence: nat, code: nat)

  const MAX_SEQUENCE_NUMBER: nat := 0xFF_FFFF_FFFF_FFFF
  const TYPE_DELETION: nat := 0x0
  const VALUE_TYPE_FOR_SEEK: nat := 0x14
  const VALUE_TYPE_FOR_SEEK_FOR_PREV: nat := 0x0

  function TypeCode(kind: Kind): nat {
    match kind
    case Deletion => 0x0
    case Put => 0x1
    case Merge => 0x2
    case SingleDeletion => 0x7
  }

  /** Key ascending, then sequence and type descending: e sorts strictly before t. */
  predicate Before(e: Entry, t: Target) {
    e.key < t.key ||
    (e.key == t.key && (e.sequence > t.sequence || (e.sequence == t.sequence && TypeCode(e.kind) > t.code)))
  }

  /** e sorts strictly after t. */
  predicate After(e: Entry, t: Target) {
    e.key > t.key ||
    (e.key == t.key && (e.sequence < t.sequence || (e.sequence == t.sequence && TypeCode(e.kind) < t.code)))
  }

  predicate Ordered(es: seq<Entry>, i: nat, j: nat)
    requires i < j < |es|
  {
    es[i].key < es[j].key || (es[i].key == es[j].key && es[i].sequence > es[j].sequence)
  }

  predicate Numbered(es: seq<Entry>, i: nat)
    requires i < |es|
  {
    es[i].sequence < MAX_SEQUENCE_NUMBER
  }

  /** Sorted, with at most one entry per user key and sequence number. The quantifiers fire on
      Ordered and Numbered only; SortedFacts turns them into facts about es[i]. */
  ghost predicate Sorted(es: seq<Entry>) {
    && (forall i: nat {:trigger Numbered(es, i)} :: i < |es| ==> Numbered(es, i))
    && (forall i: nat, j: nat {:trigger Ordered(es, i, j)} :: i < j < |es| ==> Ordered(es, i, j))
  }

  lemma SortedFacts(es: seq<Entry>)
    requires Sorted(es)
    ensures forall i :: 0 <= i < |es| ==> es[i].sequence < MAX_SEQUENCE_NUMBER
    ensures forall i, j :: 0 <= i < j < |es| ==>
                             es[i].key < es[j].key || (es[i].key == es[j].key && es[i].sequence > es[j].sequence)
  {
    forall i | 0 <= i < |es|
      ensures es[i].sequence < MAX_SEQUENCE_NUMBER
    {
      assert Numbered(es, i);
    }
    forall i, j | 0 <= i < j < |es|
      ensures es[i].key < es[j].key || (es[i].key == es[j].key && es[i].sequence > es[j].sequence)
    {
      assert Ordered(es, i, j);
    }
  }

  /** Where the inner iterator lands on Seek(t): the first entry not before t. */
  function FirstAtOrAfter(es: seq<Entry>, t: Target, i: nat := 0): (r: nat)
    requires i <= |es|
    ensures i <= r <= |es|
    decreases |es| - i
  {
    if i == |es| || !Before(es[i], t) then i else FirstAtOrAfter(es, t, i + 1)
  }

  /** Where the inner iterator lands on SeekForPrev(t): the last of es[..n] not after t, or -1. */
  function LastAtOrBefore(es: seq<Entry>, t: Target, n: nat): (r: int)
    requires n <= |es|
    ensures -1 <= r < n
  {
    if n == 0 || !After(es[n - 1], t) then n - 1 else LastAtOrBefore(es, t, n - 1)
  }

  lemma {:induction false} FirstAtOrAfterSplits(es: seq<Entry>, t: Target, i: nat := 0)
    requires Sorted(es) && i <= |es|
    ensures forall j :: i <= j < FirstAtOrAfter(es, t, i) ==> Before(es[j], t)
    ensures forall j :: FirstAtOrAfter(es, t, i) <= j < |es| ==> !Before(es[j], t)
    decreases |es| - i
  {
    SortedFacts(es);
    if i < |es| && Before(es[i], t) {
      FirstAtOrAfterSplits(es, t, i + 1);
    }
  }

  lemma {:induction false} LastAtOrBeforeSplits(es: seq<Entry>, t: Target, n: nat)
    requires Sorted(es) && n <= |es|
    ensures forall j :: 0 <= j <= LastAtOrBefore(es, t, n) ==> !After(es[j], t)
    ensures forall j :: LastAtOrBefore(es, t, n) < j < n ==> After(es[j], t)
  {
    SortedFacts(es);
    if n > 0 && After(es[n - 1], t) {
      LastAtOrBeforeSplits(es, t, n - 1);
    }
  }
}
