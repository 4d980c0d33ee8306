// The in-place heap sort that fsck.wfs uses to order the log offsets of the
// live inodes before it compacts the disk image.  Elements are `off_t`
// values, modelled as unbounded integers; indices are the C `int`s.

module FsckHeapSort {

  /** Index of the parent of node `c` in the implicit binary tree. */
  function Parent(c: nat): nat
    requires c > 0
  {
    (c - 1) / 2
  }

  /** Every node `c < len` whose parent is at or above `start` is no larger
      than that parent: the max-heap property of the subtrees rooted at
      `start` and beyond. */
  ghost predicate HeapFrom(s: seq<int>, len: nat, start: nat)
    requires len <= |s|
  {
    forall c :: 0 < c < len && Parent(c) >= start ==> s[Parent(c)] >= s[c]
  }

  /** The whole prefix `s[..len]` is a max-heap. */
  ghost predicate IsMaxHeap(s: seq<int>, len: nat)
    requires len <= |s|
  {
    HeapFrom(s, len, 0)
  }

  /** The invariant of a sift-down that started at `start` and has reached
      `idx`: the heap property holds everywhere below `start` except between
      `idx` and its children, and the parent of `idx` already dominates those
      children. */
  ghost predicate HeapExcept(s: seq<int>, len: nat, start: nat, idx: nat)
    requires len <= |s|
  {
    (forall c :: 0 < c < len && Parent(c) >= start && Parent(c) != idx ==> s[Parent(c)] >= s[c]) &&
    (idx > start && idx < len ==>
      forall c :: 0 < c < len && Parent(c) == idx ==> s[Parent(idx)] >= s[c])
  }

  ghost predicate SortedBetween(s: seq<int>, lo: nat, hi: nat)
    requires lo <= hi <= |s|
  {
    forall i, j :: lo <= i < j < hi ==> s[i] <= s[j]
  }

  /** swap(a, b) of fsck.wfs.c: exchanges two slots. */
  method Swap(a: array<int>, i: nat, j: nat)
    requires i < a.Length && j < a.Length
    modifies a
    ensures a[i] == old(a[j]) && a[j] == old(a[i])
    ensures forall k :: 0 <= k < a.Length && k != i && k != j ==> a[k] == old(a[k])
    ensures multiset(a[..]) == multiset(old(a[..]))
  {
    var t := a[i];
    a[i] := a[j];
    a[j] := t;
  }

  /** In a max-heap the root is at least every element of the heap. */
  lemma {:induction false} RootIsMax(s: seq<int>, len: nat, k: nat)
    requires len <= |s| && IsMaxHeap(s, len) && k < len
    ensures s[0] >= s[k]
    decreases k
  {
    if k > 0 {
      RootIsMax(s, len, Parent(k));
    }
  }

  /** heapify(arr, len, idx): sifts `arr[idx]` down, swapping it with its
      strictly larger child until neither child is larger.  Given that the
      subtrees below `start` are heaps, it leaves the subtree at `start` a
      heap, permuting only slots at or after `start` and before `len`. */
  method Heapify(a: array<int>, len: nat, start: nat)
    requires len <= a.Length
    requires HeapExcept(a[..], len, start, start)
    modifies a
    ensures HeapFrom(a[..], len, start)
    ensures multiset(a[..]) == multiset(old(a[..]))
    ensures forall k :: 0 <= k < a.Length && (k < start || k >= len) ==> a[k] == old(a[k])
  {
    var idx := start;
    while true
      invariant start <= idx
      invariant HeapExcept(a[..], len, start, idx)
      invariant multiset(a[..]) == multiset(old(a[..]))
      invariant forall k :: 0 <= k < a.Length && (k < start || k >= len) ==> a[k] == old(a[k])
      decreases a.Length - idx
    {
      var left := 2 * idx + 1;
      var right := left + 1;
      var max := idx;
      if left < len && a[left] > a[max] {
        max := left;
      }
      if right < len && a[right] > a[max] {
        max := right;
      }
      if max != idx {
        ghost var before := a[..];
        Swap(a, idx, max);
        assert a[..] == before[idx := before[max]][max := before[idx]];
        SiftStep(before, a[..], len, start, idx, max);
        idx := max;
      } else {
        SiftDone(a[..], len, start, idx);
        break;
      }
    }
  }

  /** One swap of heapify: exchanging `idx` with its strictly larger child
      `max`, the larger of the two children, moves the break in the heap
      down to `max`. */
  lemma SiftStep(s: seq<int>, t: seq<int>, len: nat, start: nat, idx: nat, max: nat)
    requires len <= |s| && start <= idx && HeapExcept(s, len, start, idx)
    requires max < len && (max == 2 * idx + 1 || max == 2 * idx + 2)
    requires s[max] > s[idx]
    requires 2 * idx + 1 < len ==> s[max] >= s[2 * idx + 1]
    requires 2 * idx + 2 < len ==> s[max] >= s[2 * idx + 2]
    requires t == s[idx := s[max]][max := s[idx]]
    ensures HeapExcept(t, len, start, max)
  {
    assert Parent(max) == idx;
    forall c | 0 < c < len && Parent(c) >= start && Parent(c) != max
      ensures t[Parent(c)] >= t[c]
    {
      if c == max {
      } else if c == idx {
      } else if Parent(c) == idx {
        assert c == 2 * idx + 1 || c == 2 * idx + 2;
      }
    }
    forall c | 0 < c < len && Parent(c) == max
      ensures t[Parent(max)] >= t[c]
    {
      assert s[max] >= s[c];
    }
  }

  /** When neither child of `idx` is larger than it, the break in the heap
      has closed and the subtree at `start` is a heap. */
  lemma SiftDone(s: seq<int>, len: nat, start: nat, idx: nat)
    requires len <= |s| && start <= idx && HeapExcept(s, len, start, idx)
    requires 2 * idx + 1 < len ==> s[idx] >= s[2 * idx + 1]
    requires 2 * idx + 2 < len ==> s[idx] >= s[2 * idx + 2]
    ensures HeapFrom(s, len, start)
  {
    forall c | 0 < c < len && Parent(c) == idx
      ensures s[Parent(c)] >= s[c]
    {
      assert c == 2 * idx + 1 || c == 2 * idx + 2;
    }
  }

  /** The first loop of heap_sort: heapify every node that has a child, from
      the last such node up to the root.  Afterwards `arr[..n]` is a max-heap. */
  method BuildMaxHeap(a: array<int>, n: nat)
    requires n <= a.Length
    modifies a
    ensures IsMaxHeap(a[..], n)
    ensures multiset(a[..]) == multiset(old(a[..]))
    ensures forall k :: n <= k < a.Length ==> a[k] == old(a[k])
  {
    var i: int := n / 2 - 1;
    while i >= 0
      invariant -1 <= i <= n / 2 - 1 || (n < 2 && i == -1)
      invariant HeapFrom(a[..], n, i + 1)
      invariant multiset(a[..]) == multiset(old(a[..]))
      invariant forall k :: n <= k < a.Length ==> a[k] == old(a[k])
    {
      Heapify(a, n, i);
      i := i - 1;
    }
  }

  /** heap_sort(arr, n): sorts `arr[..n]` into non-decreasing order in place;
      the result is a permutation of the input and the rest of the array is
      untouched. */
  method HeapSort(a: array<int>, n: nat)
    requires n <= a.Length
    modifies a
    ensures SortedBetween(a[..], 0, n)
    ensures multiset(a[..n]) == multiset(old(a[..n]))
    ensures forall k :: n <= k < a.Length ==> a[k] == old(a[k])
    ensures n <= 1 ==> a[..] == old(a[..])
  {
    BuildMaxHeap(a, n);
    var i: int := n - 1;
    while i >= 0
      invariant -1 <= i < n
      invariant IsMaxHeap(a[..], i + 1)
      invariant SortedBetween(a[..], i + 1, n)
      invariant i + 1 < n ==> forall p :: 0 <= p <= i ==> a[p] <= a[i + 1]
      invariant multiset(a[..]) == multiset(old(a[..]))
      invariant forall k :: n <= k < a.Length ==> a[k] == old(a[k])
    {
      ExtractMax(a, n, i);
      i := i - 1;
    }
    PrefixMultiset(a[..], old(a[..]), n);
    if n <= 1 {
      ShortSortIsIdentity(a[..n], old(a[..n]));
      assert a[..] == a[..n] + a[n..];
      assert old(a[..]) == old(a[..n]) + old(a[n..]);
    }
  }

  /** One round of the second loop of heap_sort: swap the root of the heap
      `arr[..i+1]` into slot `i`, then heapify the remaining `arr[..i]`. */
  method ExtractMax(a: array<int>, n: nat, i: nat)
    requires i < n <= a.Length
    requires IsMaxHeap(a[..], i + 1)
    requires SortedBetween(a[..], i + 1, n)
    requires i + 1 < n ==> forall p :: 0 <= p <= i ==> a[p] <= a[i + 1]
    modifies a
    ensures IsMaxHeap(a[..], i)
    ensures SortedBetween(a[..], i, n)
    ensures forall p :: 0 <= p < i ==> a[p] <= a[i]
    ensures multiset(a[..]) == multiset(old(a[..]))
    ensures forall k :: n <= k < a.Length ==> a[k] == old(a[k])
  {
    ghost var s := a[..];
    Swap(a, 0, i);
    ghost var sw := a[..];
    assert sw == s[0 := s[i]][i := s[0]];
    SwapKeepsHeapExcept(s, sw, i);
    Heapify(a, i, 0);
    PrefixMultiset(a[..], sw, i);
    assert a[..][i..] == sw[i..];
    ExtractStep(s, sw, a[..], n, i);
  }

  /** Moving the root of the heap `s[..i+1]` to slot `i` leaves `s[..i]` a
      heap everywhere except at its new root. */
  lemma SwapKeepsHeapExcept(s: seq<int>, sw: seq<int>, i: nat)
    requires i < |s| == |sw|
    requires IsMaxHeap(s, i + 1)
    requires sw == s[0 := s[i]][i := s[0]]
    ensures HeapExcept(sw, i, 0, 0)
  {
    forall c | 0 < c < i && Parent(c) != 0
      ensures sw[Parent(c)] >= sw[c]
    {
      assert s[Parent(c)] >= s[c];
    }
  }

  /** One round of the extraction loop: the maximum of the heap joins the
      front of the sorted suffix, and everything left in the heap stays no
      larger than it. */
  lemma ExtractStep(s: seq<int>, sw: seq<int>, t: seq<int>, n: nat, i: nat)
    requires |s| == |sw| == |t| && i < n <= |s|
    requires IsMaxHeap(s, i + 1)
    requires SortedBetween(s, i + 1, n)
    requires i + 1 < n ==> forall p :: 0 <= p <= i ==> s[p] <= s[i + 1]
    requires sw == s[0 := s[i]][i := s[0]]
    requires multiset(t[..i]) == multiset(sw[..i])
    requires t[i..] == sw[i..]
    ensures SortedBetween(t, i, n)
    ensures forall p :: 0 <= p < i ==> t[p] <= t[i]
  {
    assert t[i] == s[0] by { assert t[i..][0] == sw[i..][0]; }
    forall k | i < k < n
      ensures t[k] == s[k]
    {
      assert t[i..][k - i] == sw[i..][k - i];
    }
    forall k | 0 <= k <= i
      ensures s[k] <= s[0]
    {
      RootIsMax(s, i + 1, k);
    }
    forall p | 0 <= p < i
      ensures t[p] <= t[i]
    {
      assert t[..i][p] in multiset(sw[..i]);
      var j :| 0 <= j < i && sw[..i][j] == t[p];
    }
  }

  /** Two arrays with equal multisets that agree from `n` on have equal
      multisets on their first `n` slots. */
  lemma PrefixMultiset(s: seq<int>, t: seq<int>, n: nat)
    requires |s| == |t| && n <= |s|
    requires multiset(s) == multiset(t)
    requires s[n..] == t[n..]
    ensures multiset(s[..n]) == multiset(t[..n])
  {
    assert s == s[..n] + s[n..];
    assert t == t[..n] + t[n..];
    calc {
      multiset(s[..n]);
      multiset(s[..n]) + multiset(s[n..]) - multiset(s[n..]);
      multiset(s) - multiset(s[n..]);
      multiset(t) - multiset(t[n..]);
      multiset(t[..n]) + multiset(t[n..]) - multiset(t[n..]);
      multiset(t[..n]);
    }
  }

  /** Heap sort leaves arrays of fewer than two elements as they were. */
  lemma ShortSortIsIdentity(s: seq<int>, t: seq<int>)
    requires |s| == |t| <= 1
    requires multiset(s) == multiset(t)
    ensures s == t
  {
    if |s| == 1 {
      assert s[0] in multiset(t);
    }
  }
}
