/** The priority queue of gzip.c: a binary heap of tree nodes ordered by frequency, then depth. */
module HuffmanHeap {
  import opened Bits
  import opened Sums

  /** The order of SMALLER as one number: frequency first, subtree depth as tie breaker. */
  ghost function Keys(freq: seq<nat>, depth: seq<byte>): (key: seq<nat>)
    requires |freq| <= |depth|
    ensures |key| == |freq| && forall n :: 0 <= n < |freq| ==> key[n] == 256 * freq[n] + depth[n]
  {
    seq(|freq|, n requires 0 <= n < |freq| => 256 * freq[n] + depth[n])
  }

  ghost predicate Nodes(h: seq<nat>, len: nat, key: seq<nat>) {
    len < |h| && forall i :: 1 <= i <= len ==> h[i] < |key|
  }

  /** Every father from position `lo` on is no larger than its sons; position 0 is not used. */
  ghost predicate HeapFrom(h: seq<nat>, len: nat, key: seq<nat>, lo: nat)
    requires Nodes(h, len, key) && lo >= 1
  {
    forall c :: 2 * lo <= c <= len ==> key[h[c / 2]] <= key[h[c]]
  }

  /** A heap from `lo` on, except that the node at the hole `k` may be larger than its sons. */
  ghost predicate Sifting(h: seq<nat>, len: nat, key: seq<nat>, lo: nat, k: nat)
    requires Nodes(h, len, key) && lo >= 1
  {
    && lo <= k <= len
    && (forall c :: 2 * lo <= c <= len && c / 2 != k ==> key[h[c / 2]] <= key[h[c]])
    && (k >= 2 * lo ==> forall c :: 2 * k <= c <= 2 * k + 1 && c <= len ==> key[h[k / 2]] <= key[h[c]])
  }

  function Swap(h: seq<nat>, i: nat, j: nat): seq<nat>
    requires i < |h| && j < |h|
  {
    h[i := h[j]][j := h[i]]
  }

  /** The same nodes are in the heap proper, and what follows it is untouched. */
  ghost predicate Permuted(h: seq<nat>, g: seq<nat>, len: nat) {
    && |h| == |g| && len < |h|
    && multiset(h[1..len + 1]) == multiset(g[1..len + 1])
    && h[len + 1..] == g[len + 1..]
  }

  lemma SwapPermutes(h: seq<nat>, g: seq<nat>, len: nat, i: nat, j: nat)
    requires Permuted(h, g, len) && 1 <= i <= len && 1 <= j <= len
    ensures Permuted(Swap(h, i, j), g, len)
  {
    var s := h[1..len + 1];
    assert Swap(h, i, j)[1..len + 1] == s[i - 1 := s[j - 1]][j - 1 := s[i - 1]];
    assert Swap(h, i, j)[len + 1..] == h[len + 1..];
  }

  /** Exchanging the hole with its smallest, smaller son moves the hole down. */
  lemma SiftStep(h: seq<nat>, len: nat, key: seq<nat>, lo: nat, k: nat, j: nat)
    requires Nodes(h, len, key) && lo >= 1 && Sifting(h, len, key, lo, k)
    requires j / 2 == k && j <= len && key[h[j]] <= key[h[k]]
    requires forall c :: 2 * k <= c <= 2 * k + 1 && c <= len ==> key[h[j]] <= key[h[c]]
    ensures Nodes(Swap(h, k, j), len, key) && Sifting(Swap(h, k, j), len, key, lo, j)
  {
    var s := Swap(h, k, j);
    forall c | 2 * lo <= c <= len && c / 2 != j
      ensures key[s[c / 2]] <= key[s[c]]
    {
      assert key[h[j]] <= key[h[c]] || c / 2 != k;
      assert c == k ==> key[h[k / 2]] <= key[h[j]];
    }
    forall c | 2 * j <= c <= 2 * j + 1 && c <= len
      ensures key[s[j / 2]] <= key[s[c]]
    {
      assert c / 2 == j && key[h[c / 2]] <= key[h[c]];
    }
  }

  lemma SiftDone(h: seq<nat>, len: nat, key: seq<nat>, lo: nat, k: nat)
    requires Nodes(h, len, key) && lo >= 1 && Sifting(h, len, key, lo, k)
    requires forall c :: 2 * k <= c <= 2 * k + 1 && c <= len ==> key[h[k]] <= key[h[c]]
    ensures HeapFrom(h, len, key, lo)
  {}

  /** The root of a heap is its smallest node. */
  lemma {:induction false} RootIsLeast(h: seq<nat>, len: nat, key: seq<nat>, i: nat)
    requires Nodes(h, len, key) && HeapFrom(h, len, key, 1) && 1 <= i <= len
    ensures key[h[1]] <= key[h[i]]
  {
    if i > 1 {
      RootIsLeast(h, len, key, i / 2);
    }
  }

  class Heap {
    const heap: array<nat>
    const depth: array<byte>
    var heapLen: nat
    var heapMax: nat

    constructor (heapSize: nat)
      ensures heap.Length == heapSize && depth.Length == heapSize && fresh(heap) && fresh(depth)
    {
      heap := new nat[heapSize];
      depth := new byte[heapSize];
    }

    predicate Smaller(freq: array<nat>, n: nat, m: nat)
      requires n < freq.Length && m < freq.Length && n < depth.Length && m < depth.Length
      reads freq, depth
    {
      freq[n] < freq[m] || (freq[n] == freq[m] && depth[n] <= depth[m])
    }

    /** `key` lists the keys of all nodes. */
    ghost predicate Keyed(freq: array<nat>, key: seq<nat>)
      reads freq, depth
    {
      freq.Length <= depth.Length && key == Keys(freq[..], depth[..])
    }

    lemma SmallerIsKey(freq: array<nat>, key: seq<nat>, n: nat, m: nat)
      requires Keyed(freq, key) && n < |key| && m < |key|
      ensures Smaller(freq, n, m) <==> key[n] <= key[m]
    {}

    /** The smaller of the two sons `j` and `j + 1`. */
    method SmallestSon(freq: array<nat>, j: nat, ghost key: seq<nat>) returns (s: nat)
      requires 1 <= j <= heapLen < heap.Length && Keyed(freq, key)
      requires forall i :: j <= i <= j + 1 && i <= heapLen ==> heap[i] < |key|
      ensures j <= s <= j + 1 && s <= heapLen
      ensures forall i :: j <= i <= j + 1 && i <= heapLen ==> key[heap[s]] <= key[heap[i]]
    {
      s := j;
      if j < heapLen {
        SmallerIsKey(freq, key, heap[j + 1], heap[j]);
        if Smaller(freq, heap[j + 1], heap[j]) { s := j + 1; }
      }
    }

    /** The heap is `hp`, but that position `k`, where `v` belongs, may hold something else. */
    ghost predicate Hollow(hp: seq<nat>, k: nat, v: nat)
      reads heap
    {
      |hp| == heap.Length && k < |hp| && hp[k] == v && forall i :: 0 <= i < |hp| && i != k ==> heap[i] == hp[i]
    }

    /** Moves the smaller son of `k` up, unless `v` is smaller still. */
    method MoveUp(freq: array<nat>, k: nat, v: nat, ghost hp: seq<nat>, ghost key: seq<nat>)
      returns (j: nat, up: bool)
      requires freq != heap && Keyed(freq, key) && 1 <= k && 2 * k <= heapLen && Nodes(hp, heapLen, key)
      requires Hollow(hp, k, v)
      modifies heap
      ensures 2 * k <= j <= 2 * k + 1 && j <= heapLen
      ensures !up ==> Hollow(hp, k, v)
      ensures !up ==> forall c :: 2 * k <= c <= 2 * k + 1 && c <= heapLen ==> key[hp[k]] <= key[hp[c]]
      ensures up ==> Hollow(Swap(hp, k, j), j, v) && key[hp[j]] <= key[hp[k]]
      ensures up ==> forall c :: 2 * k <= c <= 2 * k + 1 && c <= heapLen ==> key[hp[j]] <= key[hp[c]]
    {
      hide Keys, Keyed, Smaller;
      KeyedSizes(freq, key);
      j := SmallestSon(freq, 2 * k, key);
      SmallerIsKey(freq, key, v, heap[j]);
      up := !Smaller(freq, v, heap[j]);
      if up { heap[k] := heap[j]; }
    }

    /** Restores the heap from position `k0` on by moving its node down. */
    method PqDownHeap(freq: array<nat>, k0: nat, ghost key: seq<nat>)
      requires freq != heap && Keyed(freq, key)
      requires 1 <= k0 <= heapLen && Nodes(heap[..], heapLen, key) && HeapFrom(heap[..], heapLen, key, k0 + 1)
      modifies heap
      ensures Nodes(heap[..], heapLen, key) && HeapFrom(heap[..], heapLen, key, k0)
      ensures Permuted(heap[..], old(heap[..]), heapLen)
    {
      ghost var hp := heap[..];
      SiftStart(hp, heapLen, key, k0);
      assert Permuted(hp, hp, heapLen);
      hide Sifting, HeapFrom, Keyed, Permuted, Swap;
      var k := k0;
      var v := heap[k];
      while 2 * k <= heapLen
        invariant 1 <= k <= heapLen && Keyed(freq, key) && Hollow(hp, k, v)
        invariant Nodes(hp, heapLen, key) && Sifting(hp, heapLen, key, k0, k)
        invariant Permuted(hp, old(heap[..]), heapLen)
        decreases heapLen - k
      {
        var j, up := MoveUp(freq, k, v, hp, key);
        if !up { break; }
        SiftStep(hp, heapLen, key, k0, k, j);
        SwapPermutes(hp, old(heap[..]), heapLen, k, j);
        hp := Swap(hp, k, j);
        k := j;
      }
      SiftDone(hp, heapLen, key, k0, k);
      heap[k] := v;
      assert heap[..] == hp;
    }

    /** The nodes already joined. */
    ghost function Placed(): seq<nat>
      reads this, heap
      requires heapMax <= heap.Length
    {
      heap[heapMax..]
    }

    /** The nodes still in the heap. */
    ghost function Roots(): seq<nat>
      reads this, heap
      requires heapLen < heap.Length
    {
      heap[1..heapLen + 1]
    }

    /** Removes the least node and recreates the heap. */
    method PqRemove(freq: array<nat>, ghost key: seq<nat>) returns (top: nat)
      requires freq != heap && Keyed(freq, key) && 2 <= heapLen < heapMax <= heap.Length
      requires Nodes(heap[..], heapLen, key) && HeapFrom(heap[..], heapLen, key, 1)
      modifies heap, this`heapLen
      ensures heapLen == old(heapLen) - 1
      ensures Nodes(heap[..], heapLen, key) && HeapFrom(heap[..], heapLen, key, 1)
      ensures top < |key| && forall i :: 1 <= i <= heapLen ==> key[top] <= key[heap[i]]
      ensures multiset(Roots()) + multiset{top} == old(multiset(Roots()))
      ensures Placed() == old(Placed())
    {
      hide Keys, Smaller, Keyed, HeapFrom, Permuted, Nodes, Placed, Roots;
      ghost var h, n := heap[..], heapLen;
      Views();
      NodesLength(h, n, key);
      RemoveFacts(h, n, key);
      top := heap[1];
      heap[1] := heap[heapLen];
      heapLen := heapLen - 1;
      assert heap[..] == h[1 := h[n]];
      PqDownHeap(freq, 1, key);
      RemovedTop(h, heap[..], n, key);
      SameTail(h, heap[..], n + 1, heapMax);
      Views();
    }

    /** Both lists as parts of the heap's contents. */
    lemma Views()
      requires heapLen < heap.Length && heapMax <= heap.Length
      ensures Roots() == heap[..][1..heapLen + 1] && Placed() == heap[..][heapMax..]
    {}

    /** Keeps a joined node in front of the others. */
    method Place(x: nat)
      requires heapLen < heapMax - 1 && heapMax <= heap.Length
      modifies heap, this`heapMax
      ensures heapMax == old(heapMax) - 1 && Placed() == [x] + old(Placed())
      ensures Roots() == old(Roots())
      ensures forall i :: 0 <= i < heapMax ==> heap[i] == old(heap[i])
    {
      heapMax := heapMax - 1;
      heap[heapMax] := x;
    }

    /** Takes the two least nodes off the front; the second stays at the root to be replaced. */
    method TakeTwo(freq: array<nat>, ghost key: seq<nat>) returns (n: nat, m: nat, ghost rest: seq<nat>)
      requires freq != heap && Keyed(freq, key) && 2 <= heapLen && heapLen + 2 <= heapMax <= heap.Length
      requires Nodes(heap[..], heapLen, key) && HeapFrom(heap[..], heapLen, key, 1)
      modifies heap, this`heapLen, this`heapMax
      ensures heapLen == old(heapLen) - 1 && heapMax == old(heapMax) - 2
      ensures Nodes(heap[..], heapLen, key) && HeapFrom(heap[..], heapLen, key, 1)
      ensures Placed() == [m, n] + old(Placed())
      ensures rest == heap[2..heapLen + 1] && old(multiset(Roots())) == multiset{n, m} + multiset(rest)
      ensures n < |key| && m < |key| && key[n] <= key[m]
      ensures forall r :: r in rest ==> r < |key| && key[m] <= key[r]
    {
      hide HeapFrom, Keyed, Keys, Placed, Roots, Nodes;
      n := PqRemove(freq, key);
      ghost var h := heap[..];
      Place(n);
      SameBelow(h, heap[..], heapLen, key);
      m, rest := TakeRoot(key);
      Assoc([m], [n], old(Placed()));
    }

    /** Places the node at the root, which stays there to be replaced. */
    method TakeRoot(ghost key: seq<nat>) returns (m: nat, ghost rest: seq<nat>)
      requires 1 <= heapLen && heapLen + 2 <= heapMax <= heap.Length
      requires Nodes(heap[..], heapLen, key) && HeapFrom(heap[..], heapLen, key, 1)
      modifies heap, this`heapMax
      ensures heapMax == old(heapMax) - 1 && m == old(heap[1])
      ensures Nodes(heap[..], heapLen, key) && HeapFrom(heap[..], heapLen, key, 1)
      ensures Placed() == [m] + old(Placed())
      ensures rest == heap[2..heapLen + 1] && old(multiset(Roots())) == multiset{m} + multiset(rest)
      ensures m < |key| && forall r :: r in rest ==> r < |key| && key[m] <= key[r]
    {
      hide HeapFrom, Placed, Nodes, Roots;
      ghost var h := heap[..];
      NodesLength(h, heapLen, key);
      Views();
      m := heap[1];
      RestAfterRoot(h, heapLen, key);
      Place(m);
      SameBelow(h, heap[..], heapLen, key);
      rest := heap[..][2..heapLen + 1];
      assert rest == heap[2..heapLen + 1];
    }

    /** Puts a new node at the root, where one was removed, and restores the heap. */
    method PqReplace(freq: array<nat>, node: nat, ghost key: seq<nat>)
      requires freq != heap && Keyed(freq, key) && 1 <= heapLen < heapMax <= heap.Length && node < |key|
      requires Nodes(heap[..], heapLen, key) && HeapFrom(heap[..], heapLen, key, 2)
      modifies heap
      ensures Nodes(heap[..], heapLen, key) && HeapFrom(heap[..], heapLen, key, 1)
      ensures multiset(Roots()) == multiset{node} + old(multiset(heap[2..heapLen + 1]))
      ensures Placed() == old(Placed())
    {
      hide Keys, Smaller, Keyed, HeapFrom, Nodes, Placed, Roots;
      ghost var h := heap[..];
      Views();
      NodesLength(h, heapLen, key);
      NewRoot(h, heapLen, key, node);
      heap[1] := node;
      ghost var g := heap[..];
      assert g == h[1 := node];
      PqDownHeap(freq, 1, key);
      SameTail(g, heap[..], heapLen + 1, heapMax);
      SameTail(h, g, 2, heapMax);
      Views();
    }

    lemma KeyedSizes(freq: array<nat>, key: seq<nat>)
      requires Keyed(freq, key)
      ensures |key| == freq.Length <= depth.Length
    {}
  }

  lemma SiftStart(h: seq<nat>, len: nat, key: seq<nat>, lo: nat)
    requires Nodes(h, len, key) && 1 <= lo <= len && HeapFrom(h, len, key, lo + 1)
    ensures Sifting(h, len, key, lo, lo)
  {}

  /** Moving the last node to the root keeps the heap below the root. */
  lemma RemoveFacts(h: seq<nat>, len: nat, key: seq<nat>)
    requires len >= 2 && Nodes(h, len, key) && HeapFrom(h, len, key, 1)
    ensures Nodes(h[1 := h[len]], len - 1, key) && HeapFrom(h[1 := h[len]], len - 1, key, 2)
  {}

  lemma RemovedTop(h: seq<nat>, h': seq<nat>, len: nat, key: seq<nat>)
    requires len >= 2 && Nodes(h, len, key) && HeapFrom(h, len, key, 1)
    requires Permuted(h', h[1 := h[len]], len - 1) && Nodes(h', len - 1, key)
    ensures multiset(h'[1..len]) + multiset{h[1]} == multiset(h[1..len + 1])
    ensures forall i :: 1 <= i <= len - 1 ==> key[h[1]] <= key[h'[i]]
    ensures h'[len + 1..] == h[len + 1..]
  {
    var g := h[1 := h[len]];
    assert h[1..len + 1] == [h[1]] + h[2..len] + [h[len]];
    assert g[1..len] == [h[len]] + h[2..len];
    forall i | 1 <= i <= len - 1 ensures key[h[1]] <= key[h'[i]] {
      assert h'[i] == h'[1..len][i - 1];
      MemberOf(h'[1..len], h[1..len + 1], h[1], h'[i]);
      var j := IndexIn(h[1..len + 1], h'[i]);
      RootIsLeast(h, len, key, j + 1);
    }
    SameTail(g, h', len, len + 1);
    SameTail(h, g, len, len + 1);
  }

  lemma MemberOf(s: seq<nat>, t: seq<nat>, x: nat, y: nat)
    requires multiset(s) + multiset{x} == multiset(t) && y in s
    ensures y in t
  {
    assert y in multiset(s);
    assert y in multiset(t);
  }

  /** The heap property only concerns the heap proper. */
  lemma SameBelow(h: seq<nat>, h': seq<nat>, len: nat, key: seq<nat>)
    requires len >= 1 && Nodes(h, len, key) && HeapFrom(h, len, key, 1) && |h'| == |h|
    requires forall i :: 1 <= i <= len ==> h'[i] == h[i]
    ensures Nodes(h', len, key) && HeapFrom(h', len, key, 1) && h'[2..len + 1] == h[2..len + 1]
  {}

  lemma RestAfterRoot(h: seq<nat>, len: nat, key: seq<nat>)
    requires len >= 1 && Nodes(h, len, key) && HeapFrom(h, len, key, 1)
    ensures multiset(h[1..len + 1]) == multiset{h[1]} + multiset(h[2..len + 1])
    ensures forall r :: r in h[2..len + 1] ==> r < |key| && key[h[1]] <= key[r]
  {
    assert h[1..len + 1] == [h[1]] + h[2..len + 1];
    forall i | 2 <= i <= len ensures key[h[1]] <= key[h[i]] { RootIsLeast(h, len, key, i); }
  }

  lemma NewRoot(h: seq<nat>, len: nat, key: seq<nat>, node: nat)
    requires 1 <= len && Nodes(h, len, key) && HeapFrom(h, len, key, 2) && node < |key|
    ensures Nodes(h[1 := node], len, key) && HeapFrom(h[1 := node], len, key, 2)
    ensures multiset(h[1 := node][1..len + 1]) == multiset{node} + multiset(h[2..len + 1])
    ensures h[1 := node][2..] == h[2..]
  {
    assert h[1 := node][1..len + 1] == [node] + h[2..len + 1];
  }

  lemma SameTail(h: seq<nat>, h': seq<nat>, a: nat, b: nat)
    requires |h| == |h'| && a <= b <= |h| && h'[a..] == h[a..]
    ensures h'[b..] == h[b..]
  {
    SliceOfSuffix(h, a, b - a, |h| - a);
    SliceOfSuffix(h', a, b - a, |h| - a);
  }

  lemma NodesLength(h: seq<nat>, len: nat, key: seq<nat>)
    requires Nodes(h, len, key)
    ensures len < |h| && (len >= 1 ==> h[1] < |key|)
  {}
}
