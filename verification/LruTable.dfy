/** LRUHandle and LRUHandleTable (cache/lru_cache.h, cache/lru_cache.cc): a hash table whose chains run
    through the handles themselves. */
module LruTable {
  import opened LruModel

  class LRUHandle {
    const key: CacheKey
    const value: Value
    const charge: nat
    const highPri: bool
    var refs: nat
    var inCache: bool
    var inHighPriPool: bool
    var hit: bool
    var nextHash: LRUHandle?
    var next: LRUHandle?
    var prev: LRUHandle?

    constructor (key: CacheKey, value: Value, charge: nat, highPri: bool)
      ensures this.key == key && this.value == value && this.charge == charge && this.highPri == highPri
      ensures refs == 0 && inCache && !inHighPriPool && !hit && next == null && prev == null
    {
      this.key, this.value, this.charge, this.highPri := key, value, charge, highPri;
      refs, inCache, inHighPriPool, hit := 0, true, false, false;
      nextHash, next, prev := null, null, null;
    }
  }

  function At(chain: seq<LRUHandle>, j: nat): LRUHandle? {
    if j < |chain| then chain[j] else null
  }

  /** The handles of chain are linked in order, from head to null. */
  ghost predicate Chained(head: LRUHandle?, chain: seq<LRUHandle>)
    reads chain`nextHash
  {
    && head == At(chain, 0)
    && forall j: nat {:trigger chain[j].nextHash} :: j < |chain| ==> chain[j].nextHash == At(chain, j + 1)
  }

  predicate IsPowerOfTwo(n: nat) {
    n == 1 || (n > 1 && n % 2 == 0 && IsPowerOfTwo(n / 2))
  }

  /** x & y. */
  function BitAnd(x: nat, y: nat): nat
    decreases y
  {
    if y == 0 then 0 else (if x % 2 == 1 && y % 2 == 1 then 1 else 0) + 2 * BitAnd(x / 2, y / 2)
  }

  /** Masking with a power of two less one takes the remainder. */
  lemma {:induction false} MaskIsRemainder(x: nat, n: nat)
    requires IsPowerOfTwo(n)
    ensures BitAnd(x, n - 1) == x % n
  {
    if n > 1 {
      var h := n / 2;
      MaskIsRemainder(x / 2, h);
      HalvesAgree(x, h);
      assert (n - 1) / 2 == h - 1 && (n - 1) % 2 == 1;
    }
  }

  lemma HalvesAgree(x: nat, h: nat)
    requires h > 0
    ensures x % (2 * h) == x % 2 + 2 * ((x / 2) % h)
  {
    var q, m := x / 2 / h, (x / 2) % h;
    assert x / 2 == h * q + m;
    assert x == (2 * h) * q + (x % 2 + 2 * m);
    RemainderIs(x, 2 * h, q, x % 2 + 2 * m);
  }

  lemma RemainderIs(x: nat, n: nat, q: nat, r: nat)
    requires r < n && x == n * q + r
    ensures x % n == r
  {
    var d := x / n;
    assert d < q ==> n * (d + 1) <= n * q;
    assert d > q ==> n * (q + 1) <= n * d;
  }

  function Bucket(k: CacheKey, length: nat): nat
    requires length > 0
  {
    k.hash % length
  }

  ghost predicate Distinct(chain: seq<LRUHandle>) {
    forall i, j :: 0 <= i < j < |chain| ==> chain[i] != chain[j]
  }

  ghost predicate Placed(chains: seq<seq<LRUHandle>>, e: LRUHandle)
    requires |chains| > 0
  {
    e in chains[Bucket(e.key, |chains|)]
  }

  ghost predicate BucketOk(chains: seq<seq<LRUHandle>>, nodes: set<LRUHandle>, b: nat)
    requires b < |chains|
  {
    Distinct(chains[b]) && forall e :: e in chains[b] ==> e in nodes && Bucket(e.key, |chains|) == b
  }

  /** Every handle stands once in the chain of its bucket. */
  ghost predicate Sorted(chains: seq<seq<LRUHandle>>, nodes: set<LRUHandle>)
    requires |chains| > 0
  {
    && (forall e {:trigger Placed(chains, e)} :: e in nodes ==> Placed(chains, e))
    && (forall b: nat {:trigger BucketOk(chains, nodes, b)} :: b < |chains| ==> BucketOk(chains, nodes, b))
  }

  ghost predicate Mapped(contents: map<CacheKey, LRUHandle>, e: LRUHandle) {
    e.key in contents && contents[e.key] == e
  }

  ghost predicate Keyed(nodes: set<LRUHandle>, contents: map<CacheKey, LRUHandle>, k: CacheKey) {
    k in contents ==> contents[k] in nodes && contents[k].key == k
  }

  /** nodes and contents are two views of a map. */
  ghost predicate SameMap(nodes: set<LRUHandle>, contents: map<CacheKey, LRUHandle>) {
    && (forall e {:trigger Mapped(contents, e)} :: e in nodes ==> Mapped(contents, e))
    && (forall k {:trigger Keyed(nodes, contents, k)} :: Keyed(nodes, contents, k))
  }

  /** A chain with h in place j, which may be its end. */
  function PutAt(chain: seq<LRUHandle>, j: nat, h: LRUHandle): seq<LRUHandle>
    requires j <= |chain|
  {
    if j < |chain| then chain[j := h] else chain + [h]
  }

  function NodesWith(nodes: set<LRUHandle>, e: LRUHandle?, h: LRUHandle): set<LRUHandle> {
    (if e == null then nodes else nodes - {e}) + {h}
  }

  lemma PutSorted(chains: seq<seq<LRUHandle>>, nodes: set<LRUHandle>, b: nat, j: nat, h: LRUHandle)
    requires |chains| > 0 && Sorted(chains, nodes) && h !in nodes && b == Bucket(h.key, |chains|) && j <= |chains[b]|
    ensures Sorted(chains[b := PutAt(chains[b], j, h)], NodesWith(nodes, At(chains[b], j), h))
  {
    var chain := chains[b];
    var chain' := PutAt(chain, j, h);
    var chains', nodes' := chains[b := chain'], NodesWith(nodes, At(chain, j), h);
    assert BucketOk(chains, nodes, b);
    forall a: nat | a < |chains'|
      ensures BucketOk(chains', nodes', a)
    {
      assert BucketOk(chains, nodes, a);
    }
    forall e | e in nodes'
      ensures Placed(chains', e)
    {
      if e == h {
        assert chain'[j] == h;
      } else {
        assert Placed(chains, e);
        if Bucket(e.key, |chains|) == b {
          var i :| 0 <= i < |chain| && chain[i] == e;
          assert chain'[i] == e;
        }
      }
    }
  }

  lemma CutSorted(chains: seq<seq<LRUHandle>>, nodes: set<LRUHandle>, b: nat, j: nat)
    requires |chains| > 0 && Sorted(chains, nodes) && b < |chains| && j < |chains[b]|
    ensures Sorted(chains[b := chains[b][..j] + chains[b][j + 1..]], nodes - {chains[b][j]})
  {
    var chain := chains[b];
    var chain' := chain[..j] + chain[j + 1..];
    var chains', nodes' := chains[b := chain'], nodes - {chain[j]};
    assert BucketOk(chains, nodes, b);
    forall a: nat | a < |chains'|
      ensures BucketOk(chains', nodes', a)
    {
      assert BucketOk(chains, nodes, a);
    }
    forall e | e in nodes'
      ensures Placed(chains', e)
    {
      assert Placed(chains, e);
      if Bucket(e.key, |chains|) == b {
        var i :| 0 <= i < |chain| && chain[i] == e;
        assert chain'[if i < j then i else i - 1] == e;
      }
    }
  }

  lemma MapPut(nodes: set<LRUHandle>, contents: map<CacheKey, LRUHandle>, e: LRUHandle?, h: LRUHandle)
    requires SameMap(nodes, contents) && e == (if h.key in contents then contents[h.key] else null)
    ensures SameMap(NodesWith(nodes, e, h), contents[h.key := h])
  {
    var nodes', contents' := NodesWith(nodes, e, h), contents[h.key := h];
    forall x | x in nodes'
      ensures Mapped(contents', x)
    {
      if x != h {
        assert Mapped(contents, x);
      }
    }
    forall k
      ensures Keyed(nodes', contents', k)
    {
      assert Keyed(nodes, contents, k) && Keyed(nodes, contents, h.key);
    }
  }

  lemma MapCut(nodes: set<LRUHandle>, contents: map<CacheKey, LRUHandle>, k: CacheKey)
    requires SameMap(nodes, contents) && k in contents
    ensures SameMap(nodes - {contents[k]}, contents - {k})
  {
    var nodes', contents' := nodes - {contents[k]}, contents - {k};
    forall x | x in nodes'
      ensures Mapped(contents', x)
    {
      assert Mapped(contents, x);
    }
    forall k'
      ensures Keyed(nodes', contents', k')
    {
      assert Keyed(nodes, contents, k') && Keyed(nodes, contents, k);
    }
  }

  lemma PushSorted(chains: seq<seq<LRUHandle>>, nodes: set<LRUHandle>, h: LRUHandle)
    requires |chains| > 0 && Sorted(chains, nodes) && h !in nodes
    ensures var b := Bucket(h.key, |chains|); Sorted(chains[b := [h] + chains[b]], nodes + {h})
  {
    var b := Bucket(h.key, |chains|);
    var chain' := [h] + chains[b];
    var chains', nodes' := chains[b := chain'], nodes + {h};
    assert BucketOk(chains, nodes, b);
    forall a: nat | a < |chains'|
      ensures BucketOk(chains', nodes', a)
    {
      assert BucketOk(chains, nodes, a);
    }
    forall e | e in nodes'
      ensures Placed(chains', e)
    {
      if e == h {
        assert chain'[0] == h;
      } else {
        assert Placed(chains, e);
        if Bucket(e.key, |chains|) == b {
          var i :| 0 <= i < |chains[b]| && chains[b][i] == e;
          assert chain'[i + 1] == e;
        }
      }
    }
  }

  /** The handles of the buckets before i and the first j of bucket i. */
  ghost predicate Moved(chains: seq<seq<LRUHandle>>, nodes: set<LRUHandle>, moved: set<LRUHandle>, i: nat, j: nat)
    requires |chains| > 0
  {
    && moved <= nodes
    && forall e :: e in nodes ==>
         (e in moved <==>
          var b := Bucket(e.key, |chains|); b < i || (b == i && j <= |chains[b]| && e in chains[b][..j]))
  }

  lemma MovedOne(chains: seq<seq<LRUHandle>>, nodes: set<LRUHandle>, moved: set<LRUHandle>, i: nat, j: nat)
    requires |chains| > 0 && Sorted(chains, nodes) && i < |chains| && j < |chains[i]|
    requires Moved(chains, nodes, moved, i, j)
    ensures chains[i][j] in nodes - moved && Moved(chains, nodes, moved + {chains[i][j]}, i, j + 1)
  {
    var chain := chains[i];
    assert BucketOk(chains, nodes, i);
    assert chain[..j + 1] == chain[..j] + [chain[j]];
    assert chain[j] in chain;
  }

  lemma MovedBucket(chains: seq<seq<LRUHandle>>, nodes: set<LRUHandle>, moved: set<LRUHandle>, i: nat)
    requires |chains| > 0 && Sorted(chains, nodes) && i < |chains| && Moved(chains, nodes, moved, i, |chains[i]|)
    ensures Moved(chains, nodes, moved, i + 1, 0)
  {
    assert chains[i][..|chains[i]|] == chains[i];
    forall e | e in nodes
      ensures e in moved <==> Bucket(e.key, |chains|) < i + 1
    {
      assert Placed(chains, e);
    }
  }

  class LRUHandleTable {
    var list: array<LRUHandle?>
    var elems: nat
    ghost var chains: seq<seq<LRUHandle>>
    ghost var nodes: set<LRUHandle>
    ghost var contents: map<CacheKey, LRUHandle>

    ghost predicate Linked()
      reads `chains, `nodes, `list, list, nodes`nextHash
    {
      && |chains| == list.Length > 0
      && Sorted(chains, nodes)
      && forall b: nat {:trigger Row(b)} :: b < |chains| ==> BucketOk(chains, nodes, b) && Row(b)
    }

    ghost predicate Row(b: nat)
      requires |chains| == list.Length && b < |chains|
      reads `chains, `list, list, (if b < |chains| then set e | e in chains[b] else {})`nextHash
    {
      Chained(list[b], chains[b])
    }

    ghost predicate Valid()
      reads this, list, nodes`nextHash
    {
      Linked() && SameMap(nodes, contents) && IsPowerOfTwo(list.Length) && elems == |nodes| <= list.Length
    }

    /** Every chain holds exactly the handles whose hash leads to its bucket. */
    lemma ChainedByHash(b: nat, e: LRUHandle)
      requires Valid() && b < list.Length && e in nodes
      ensures |chains| == list.Length && (e in chains[b] <==> e.key.hash % list.Length == b)
    {
      assert BucketOk(chains, nodes, b) && Placed(chains, e);
    }

    /** An empty table, with the sixteen buckets that Resize gives it. */
    constructor ()
      ensures Valid() && fresh(list) && contents == map[] && nodes == {}
    {
      list := new LRUHandle?[16](_ => null);
      elems, nodes, contents := 0, {}, map[];
      chains := seq(16, _ => []);
      assert IsPowerOfTwo(2) && IsPowerOfTwo(4) && IsPowerOfTwo(8);
    }

    /** The slot that leads to the handle of key k, or to the end of its chain: pred is the handle whose
        nextHash it is, or null for the bucket itself. */
    method FindPointer(k: CacheKey) returns (b: nat, pred: LRUHandle?, e: LRUHandle?, ghost j: nat)
      requires Linked() && IsPowerOfTwo(list.Length)
      ensures b == Bucket(k, list.Length) && j <= |chains[b]| && e == At(chains[b], j)
      ensures pred == if j == 0 then null else chains[b][j - 1]
      ensures (e == null || e.key == k) && forall i :: 0 <= i < j ==> chains[b][i].key != k
    {
      MaskIsRemainder(k.hash, list.Length);
      b, pred, j := BitAnd(k.hash, list.Length - 1), null, 0;
      e := list[b];
      assert Row(b);
      while e != null && e.key != k
        invariant j <= |chains[b]| && e == At(chains[b], j)
        invariant pred == if j == 0 then null else chains[b][j - 1]
        invariant forall i :: 0 <= i < j ==> chains[b][i].key != k
        decreases |chains[b]| - j
      {
        pred, e, j := e, e.nextHash, j + 1;
      }
    }

    method Lookup(k: CacheKey) returns (e: LRUHandle?)
      requires Valid()
      ensures e == if k in contents then contents[k] else null
    {
      var b, pred, found, j := FindPointer(k);
      e := found;
      FoundIs(k, b, e, j);
    }

    /** pred is the slot before place j of chain b, as FindPointer gives it. */
    ghost predicate Slot(b: nat, pred: LRUHandle?, j: nat)
      reads this, list
    {
      && |chains| == list.Length && b < |chains| && j <= |chains[b]|
      && pred == if j == 0 then null else chains[b][j - 1]
    }

    /** Writes through the slot before place j of chain b: what follows it there is replaced by rest. */
    method SetSlot(b: nat, pred: LRUHandle?, v: LRUHandle?,
                   ghost j: nat, ghost rest: seq<LRUHandle>, ghost after: set<LRUHandle>)
      requires Linked() && Slot(b, pred, j)
      requires Chained(v, rest) && forall i :: 0 <= i < j ==> chains[b][i] !in rest
      requires Sorted(chains[b := chains[b][..j] + rest], after)
      modifies list, `chains, `nodes, (if pred == null then {} else {pred})`nextHash
      ensures chains == old(chains)[b := old(chains)[b][..j] + rest] && nodes == after && Linked()
    {
      ghost var chain := chains[b];
      assert Row(b) && BucketOk(chains, nodes, b);
      ghost var chain' := chain[..j] + rest;
      if pred == null {
        list[b] := v;
        assert chain' == rest;
      } else {
        pred.nextHash := v;
        forall i: nat | i < |chain'|
          ensures chain'[i].nextHash == At(chain', i + 1)
        {
          if i + 1 < j {
            assert chain'[i] == chain[i];
          } else if i >= j {
            assert chain'[i] == rest[i - j];
          }
        }
      }
      chains, nodes := chains[b := chain'], after;
      forall a: nat | a < |chains|
        ensures BucketOk(chains, nodes, a) && Row(a)
      {
        if a != b {
          assert old(Row(a)) && old(BucketOk(chains, nodes, a));
          assert pred == null || (pred in chain && pred !in chains[a]);
          assert forall i: nat :: i < |chains[a]| ==> chains[a][i].nextHash == old(chains[a][i].nextHash);
        }
      }
    }

    /** What FindPointer has found is what the map says. */
    lemma FoundIs(k: CacheKey, b: nat, e: LRUHandle?, j: nat)
      requires Valid() && b == Bucket(k, list.Length) && j <= |chains[b]| && e == At(chains[b], j)
      requires (e == null || e.key == k) && forall i :: 0 <= i < j ==> chains[b][i].key != k
      ensures e == if k in contents then contents[k] else null
      ensures e != null ==> e in nodes
    {
      assert Row(b) && BucketOk(chains, nodes, b) && Keyed(nodes, contents, k);
      if k in contents {
        assert Placed(chains, contents[k]);
      }
      if e != null {
        assert Mapped(contents, e);
      }
    }

    /** Puts h at place j of its chain, instead of e if there is a handle. */
    method LinkAt(h: LRUHandle, b: nat, pred: LRUHandle?, e: LRUHandle?, ghost j: nat)
      requires Linked() && Slot(b, pred, j) && b == Bucket(h.key, list.Length) && e == At(chains[b], j) && h !in nodes
      modifies `chains, `nodes, list, nodes`nextHash, h`nextHash
      ensures Linked() && nodes == NodesWith(old(nodes), e, h)
    {
      ghost var chain := chains[b];
      ghost var tail := if j < |chain| then chain[j + 1..] else [];
      assert Row(b) && BucketOk(chains, nodes, b);
      PutSorted(chains, nodes, b, j, h);
      h.nextHash := if e == null then null else e.nextHash;
      assert Chained(h, [h] + tail);
      assert chain[..j] + ([h] + tail) == PutAt(chain, j, h);
      SetSlot(b, pred, h, j, [h] + tail, NodesWith(nodes, e, h));
    }

    /** Puts h in the place of the handle of its key, or at the end of its chain. */
    method Link(h: LRUHandle) returns (replaced: LRUHandle?)
      requires Valid() && h !in nodes
      modifies `chains, `nodes, `contents, list, nodes`nextHash, h`nextHash
      ensures Linked() && SameMap(nodes, contents) && contents == old(contents)[h.key := h]
      ensures replaced == old(if h.key in contents then contents[h.key] else null)
      ensures nodes == NodesWith(old(nodes), replaced, h) && (replaced != null ==> replaced in old(nodes))
    {
      var b, pred, e, j := FindPointer(h.key);
      replaced := e;
      FoundIs(h.key, b, e, j);
      MapPut(nodes, contents, e, h);
      LinkAt(h, b, pred, e, j);
      contents := contents[h.key := h];
    }

    method Remove(k: CacheKey) returns (removed: LRUHandle?)
      requires Valid()
      modifies this, list, nodes`nextHash
      ensures Valid() && list == old(list) && contents == old(contents) - {k}
      ensures removed == old(if k in contents then contents[k] else null)
      ensures nodes == if removed == null then old(nodes) else old(nodes) - {removed}
    {
      var b, pred, e, j := FindPointer(k);
      removed := e;
      FoundIs(k, b, e, j);
      if e != null {
        ghost var chain := chains[b];
        assert Row(b) && BucketOk(chains, nodes, b);
        CutSorted(chains, nodes, b, j);
        MapCut(nodes, contents, k);
        assert Chained(e.nextHash, chain[j + 1..]);
        SetSlot(b, pred, e.nextHash, j, chain[j + 1..], nodes - {e});
        elems := elems - 1;
        contents := contents - {k};
      } else {
        assert contents - {k} == contents;
      }
    }

    /** The length that Resize chooses: a power of two, at least 16 and one and a half times elems. */
    method NewLength() returns (length: nat)
      ensures IsPowerOfTwo(length) && length >= 16 && 2 * length >= 3 * elems
    {
      length := 16;
      assert IsPowerOfTwo(2) && IsPowerOfTwo(4) && IsPowerOfTwo(8);
      while 2 * length < 3 * elems
        invariant IsPowerOfTwo(length) && length >= 16
        decreases 3 * elems - 2 * length
      {
        length := length * 2;
      }
    }

    /** Puts h at the head of its bucket in another list of buckets. */
    static method PushFront(other: array<LRUHandle?>, ghost chains: seq<seq<LRUHandle>>, ghost moved: set<LRUHandle>,
                            h: LRUHandle)
      returns (ghost chains': seq<seq<LRUHandle>>)
      requires |chains| == other.Length > 0 && IsPowerOfTwo(other.Length) && Sorted(chains, moved) && h !in moved
      requires forall b: nat {:trigger chains[b]} :: b < |chains| ==> Chained(other[b], chains[b])
      modifies other, h`nextHash
      ensures |chains'| == |chains| && Sorted(chains', moved + {h})
      ensures forall b: nat {:trigger chains'[b]} :: b < |chains'| ==> Chained(other[b], chains'[b])
    {
      MaskIsRemainder(h.key.hash, other.Length);
      var b := BitAnd(h.key.hash, other.Length - 1);
      ghost var chain := chains[b];
      assert Chained(other[b], chain) && BucketOk(chains, moved, b);
      PushSorted(chains, moved, h);
      h.nextHash := other[b];
      other[b] := h;
      chains' := chains[b := [h] + chain];
      forall a: nat | a < |chains'|
        ensures Chained(other[a], chains'[a])
      {
        assert BucketOk(chains, moved, a);
        if a == b {
          forall i: nat | i < |chain| + 1
            ensures ([h] + chain)[i].nextHash == At([h] + chain, i + 1)
          {
            if i > 0 {
              assert chain[i - 1].nextHash == At(chain, i);
            }
          }
        } else {
          assert old(Chained(other[a], chains[a]));
          assert forall i: nat :: i < |chains[a]| ==> chains[a][i].nextHash == old(chains[a][i].nextHash);
        }
      }
    }

    /** The buckets from i on are still linked as they were. */
    ghost predicate Ahead(i: nat)
      reads `chains, `list, `nodes, list, nodes`nextHash
    {
      && |chains| == list.Length > 0 && Sorted(chains, nodes)
      && forall b: nat {:trigger Row(b)} :: i <= b < |chains| ==> BucketOk(chains, nodes, b) && Row(b)
    }

    /** The buckets of another list, with the handles moved there. */
    ghost predicate Filled(other: array<LRUHandle?>, into: seq<seq<LRUHandle>>, moved: set<LRUHandle>)
      reads other, moved`nextHash
    {
      && |into| == other.Length > 0 && IsPowerOfTwo(other.Length) && Sorted(into, moved)
      && forall b: nat {:trigger into[b]} :: b < |into| ==> BucketOk(into, moved, b) && Chained(other[b], into[b])
    }

    /** Moves handle j of chain i. */
    method MoveOne(i: nat, ghost j: nat, h: LRUHandle, other: array<LRUHandle?>,
                   ghost into: seq<seq<LRUHandle>>, ghost moved: set<LRUHandle>)
      returns (next: LRUHandle?, ghost into': seq<seq<LRUHandle>>)
      requires other != list && Ahead(i + 1) && i < |chains| && j < |chains[i]| && h == chains[i][j]
      requires Chained(h, chains[i][j..]) && Moved(chains, nodes, moved, i, j) && Filled(other, into, moved)
      modifies other, h`nextHash
      ensures Ahead(i + 1) && next == At(chains[i], j + 1) && Chained(next, chains[i][j + 1..])
      ensures |into'| == |into| && Filled(other, into', moved + {h})
    {
      ghost var chain := chains[i];
      ghost var tail := chain[j + 1..];
      assert BucketOk(chains, nodes, i) && chain[j..][0] == h;
      MovedOne(chains, nodes, moved, i, j);
      next := h.nextHash;
      into' := PushFront(other, into, moved, h);
      forall b: nat | i + 1 <= b < |chains|
        ensures BucketOk(chains, nodes, b) && Row(b)
      {
        assert old(Row(b)) && BucketOk(chains, nodes, b);
        assert forall x: nat :: x < |chains[b]| ==> chains[b][x].nextHash == old(chains[b][x].nextHash);
      }
      forall x: nat | x < |tail|
        ensures tail[x].nextHash == At(tail, x + 1)
      {
        assert tail[x] == chain[j..][x + 1] && tail[x] != h;
        assert old(chain[j..][x + 1].nextHash) == At(chain[j..], x + 2);
      }
    }

    /** Moves chain i, handle by handle. */
    method MoveChain(i: nat, other: array<LRUHandle?>,
                     ghost into: seq<seq<LRUHandle>>, ghost moved: set<LRUHandle>, count: nat)
      returns (ghost into': seq<seq<LRUHandle>>, ghost moved': set<LRUHandle>, count': nat)
      requires other != list && Ahead(i) && i < |chains|
      requires Moved(chains, nodes, moved, i, 0) && Filled(other, into, moved) && count == |moved|
      modifies other, nodes`nextHash
      ensures Ahead(i + 1) && Moved(chains, nodes, moved', i + 1, 0)
      ensures |into'| == |into| && Filled(other, into', moved') && count' == |moved'|
    {
      assert Row(i) && BucketOk(chains, nodes, i);
      var h := list[i];
      ghost var j := 0;
      assert chains[i][0..] == chains[i];
      into', moved', count' := into, moved, count;
      while h != null
        invariant Ahead(i + 1) && j <= |chains[i]| && h == At(chains[i], j) && Chained(h, chains[i][j..])
        invariant Moved(chains, nodes, moved', i, j) && |into'| == |into|
        invariant Filled(other, into', moved') && count' == |moved'|
        decreases |chains[i]| - j
      {
        MovedOne(chains, nodes, moved', i, j);
        ghost var e := h;
        h, into' := MoveOne(i, j, h, other, into', moved');
        moved', j, count' := moved' + {e}, j + 1, count' + 1;
      }
      MovedBucket(chains, nodes, moved', i);
    }

    /** Relinks every handle into a longer list of buckets; the map stays what it was. */
    method Resize()
      requires Linked() && SameMap(nodes, contents) && elems == |nodes|
      modifies this, nodes`nextHash
      ensures Valid() && fresh(list) && nodes == old(nodes) && contents == old(contents) && elems == old(elems)
    {
      var length := NewLength();
      var other := new LRUHandle?[length](_ => null);
      ghost var into: seq<seq<LRUHandle>> := seq(length, _ => []);
      ghost var moved: set<LRUHandle> := {};
      var count, i := 0, 0;
      while i < list.Length
        invariant i <= list.Length && list == old(list) && chains == old(chains) && nodes == old(nodes)
        invariant contents == old(contents) && elems == old(elems)
        invariant fresh(other) && other.Length == length && Ahead(i) && Moved(chains, nodes, moved, i, 0)
        invariant Filled(other, into, moved) && count == |moved|
      {
        into, moved, count := MoveChain(i, other, into, moved, count);
        i := i + 1;
      }
      assert moved == nodes;
      assert elems == count;
      list := other;
      chains := into;
      forall b: nat | b < |chains|
        ensures BucketOk(chains, nodes, b) && Row(b)
      {
        assert Chained(other[b], into[b]);
      }
    }

    method Insert(h: LRUHandle) returns (replaced: LRUHandle?)
      requires Valid() && h !in nodes
      modifies this, list, nodes`nextHash, h`nextHash
      ensures Valid() && (list == old(list) || fresh(list)) && contents == old(contents)[h.key := h]
      ensures replaced == old(if h.key in contents then contents[h.key] else null)
      ensures nodes == NodesWith(old(nodes), replaced, h)
    {
      replaced := Link(h);
      if replaced == null {
        elems := elems + 1;
        if elems > list.Length {
          Resize();
        }
      }
    }
  }
}
