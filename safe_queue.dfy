// The bounded max-priority queue shared by the proxy's listener and worker
// threads (safequeue.c).  The queue is an array of `capacity` element slots of
// which the first `size` form a binary max-heap on the priority.  The mutex
// that serialises every operation is not modelled: each method below is the
// body of one critical section.

module SafeQueue {

  import opened Wrappers

  /** pq_element: an unsigned priority and an opaque payload. */
  datatype Element<V> = Element(priority: nat, value: V)

  /** parent_idx: the parent of node `idx`, and 0 for the root. */
  function ParentIdx(idx: nat): (r: nat)
    ensures idx == 0 ==> r == 0
    ensures idx > 0 ==> r < idx && (LeftChild(r) == idx || RightChild(r) == idx)
  {
    if idx == 0 then idx else (idx - 1) / 2
  }

  /** lchld */
  function LeftChild(idx: nat): nat
  {
    2 * idx + 1
  }

  /** rchld */
  function RightChild(idx: nat): nat
  {
    2 * idx + 2
  }

  /** Both children of a node have that node as their parent. */
  lemma ChildrenHaveParent(idx: nat)
    ensures ParentIdx(LeftChild(idx)) == idx
    ensures ParentIdx(RightChild(idx)) == idx
  {
  }

  /** The first `n` slots of `q` form a max-heap on the priority. */
  ghost predicate IsHeap<V>(q: seq<Element<V>>, n: nat)
    requires n <= |q|
  {
    forall c :: 0 < c < n ==> q[ParentIdx(c)].priority >= q[c].priority
  }

  /** Percolate-up invariant: the heap property holds except between `idx`
      and its parent, and the parent of `idx` dominates the children of
      `idx`. */
  ghost predicate HeapExceptUp<V>(q: seq<Element<V>>, n: nat, idx: nat)
    requires n <= |q|
  {
    (forall c :: 0 < c < n && c != idx ==> q[ParentIdx(c)].priority >= q[c].priority) &&
    (0 < idx < n ==>
      forall c :: 0 < c < n && ParentIdx(c) == idx ==> q[ParentIdx(idx)].priority >= q[c].priority)
  }

  /** Percolate-down invariant: the heap property holds except between `idx`
      and its children, and the parent of `idx` dominates those children. */
  ghost predicate HeapExceptDown<V>(q: seq<Element<V>>, n: nat, idx: nat)
    requires n <= |q|
  {
    (forall c :: 0 < c < n && ParentIdx(c) != idx ==> q[ParentIdx(c)].priority >= q[c].priority) &&
    (0 < idx < n ==>
      forall c :: 0 < c < n && ParentIdx(c) == idx ==> q[ParentIdx(idx)].priority >= q[c].priority)
  }

  /** The root of a max-heap has the greatest priority of the heap. */
  lemma {:induction false} RootHasMaxPriority<V>(q: seq<Element<V>>, n: nat, k: nat)
    requires n <= |q| && IsHeap(q, n) && k < n
    ensures q[0].priority >= q[k].priority
    decreases k
  {
    if k > 0 {
      RootHasMaxPriority(q, n, ParentIdx(k));
    }
  }

  /** `e` has the greatest priority among the elements of `m`. */
  ghost predicate IsMaxOf<V>(e: Element<V>, m: multiset<Element<V>>)
  {
    e in m && forall x :: x in m ==> x.priority <= e.priority
  }

  /** Two dequeues in a row, with no enqueue between them, return
      priorities in non-increasing order. */
  lemma DequeueOrderNonIncreasing<V>(m: multiset<Element<V>>, e1: Element<V>, e2: Element<V>)
    requires IsMaxOf(e1, m)
    requires IsMaxOf(e2, m - multiset{e1})
    ensures e2.priority <= e1.priority
  {
    assert e2 in m;
  }

  /** The root of a non-empty heap is an element of greatest priority. */
  lemma RootIsMaxOf<V>(q: seq<Element<V>>, n: nat)
    requires 0 < n <= |q| && IsHeap(q, n)
    ensures IsMaxOf(q[0], multiset(q[..n]))
  {
    forall x | x in multiset(q[..n])
      ensures x.priority <= q[0].priority
    {
      var k :| 0 <= k < n && q[..n][k] == x;
      RootHasMaxPriority(q, n, k);
    }
    assert q[..n][0] == q[0];
  }

  /** Moving the last element of a heap to the root takes the root out of
      the contents. */
  lemma RemoveRootContents<V>(q0: seq<Element<V>>, n0: nat, q: seq<Element<V>>)
    requires 0 < n0 <= |q0|
    requires q == q0[0 := q0[n0 - 1]]
    ensures multiset(q[..n0 - 1]) == multiset(q0[..n0]) - multiset{q0[0]}
  {
    if n0 > 1 {
      assert q0[..n0] == [q0[0]] + q0[1..n0 - 1] + [q0[n0 - 1]];
      assert q[..n0 - 1] == [q0[n0 - 1]] + q0[1..n0 - 1];
    } else {
      assert q0[..n0] == [q0[0]];
    }
  }

  /** Moving the last element of a heap to the root leaves a heap broken at
      most at the root. */
  lemma RemoveRootHeap<V>(q0: seq<Element<V>>, n0: nat, q: seq<Element<V>>)
    requires 0 < n0 <= |q0| && IsHeap(q0, n0)
    requires q == q0[0 := q0[n0 - 1]]
    ensures HeapExceptDown(q, n0 - 1, 0)
  {
    forall c | 0 < c < n0 - 1 && ParentIdx(c) != 0
      ensures q[ParentIdx(c)].priority >= q[c].priority
    {
      assert q0[ParentIdx(c)].priority >= q0[c].priority;
    }
  }

  /** One percolate-up swap of a child that outranks its parent moves the
      break in the heap one level up. */
  lemma SiftUpStep<V>(q0: seq<Element<V>>, q: seq<Element<V>>, n: nat, idx: nat)
    requires n <= |q0| && idx < n && HeapExceptUp(q0, n, idx)
    requires q0[idx].priority > q0[ParentIdx(idx)].priority
    requires q == q0[idx := q0[ParentIdx(idx)]][ParentIdx(idx) := q0[idx]]
    ensures HeapExceptUp(q, n, ParentIdx(idx))
  {
    var p := ParentIdx(idx);
    forall c | 0 < c < n && c != p
      ensures q[ParentIdx(c)].priority >= q[c].priority
    {
      if c == idx {
      } else if ParentIdx(c) == idx {
      } else if ParentIdx(c) == p {
        assert q0[ParentIdx(c)].priority >= q0[c].priority;
      }
    }
    if 0 < p {
      forall c | 0 < c < n && ParentIdx(c) == p
        ensures q[ParentIdx(p)].priority >= q[c].priority
      {
        assert q0[ParentIdx(p)].priority >= q0[p].priority;
        if c != idx {
          assert q0[p].priority >= q0[c].priority;
        }
      }
    }
  }

  /** One percolate-down swap of a node with a child that is at least as
      high as it and as its sibling moves the break in the heap one level
      down. */
  lemma SiftDownStep<V>(q0: seq<Element<V>>, q: seq<Element<V>>, n: nat, idx: nat, m: nat)
    requires n <= |q0| && HeapExceptDown(q0, n, idx)
    requires m < n && (m == LeftChild(idx) || m == RightChild(idx))
    requires q0[m].priority >= q0[idx].priority
    requires LeftChild(idx) < n ==> q0[m].priority >= q0[LeftChild(idx)].priority
    requires RightChild(idx) < n ==> q0[m].priority >= q0[RightChild(idx)].priority
    requires q == q0[idx := q0[m]][m := q0[idx]]
    ensures HeapExceptDown(q, n, m)
  {
    ChildrenHaveParent(idx);
    forall c | 0 < c < n && ParentIdx(c) != m
      ensures q[ParentIdx(c)].priority >= q[c].priority
    {
      if c == m {
      } else if c == idx {
      } else if ParentIdx(c) == idx {
        assert c == LeftChild(idx) || c == RightChild(idx);
      }
    }
    forall c | 0 < c < n && ParentIdx(c) == m
      ensures q[ParentIdx(m)].priority >= q[c].priority
    {
      assert q0[m].priority >= q0[c].priority;
    }
  }

  class PriorityQueue<V(0)> {
    var size: nat
    var capacity: nat
    var queue: array<Element<V>>

    ghost predicate Valid()
      reads this, queue
    {
      queue.Length == capacity && size <= capacity && IsHeap(queue[..], size)
    }

    /** The elements currently held, in no particular order. */
    ghost function Contents(): multiset<Element<V>>
      reads this, queue
      requires size <= queue.Length
    {
      multiset(queue[..size])
    }

    /** pq_init for a non-zero capacity: an empty queue of that capacity. */
    constructor (cap: nat)
      requires cap > 0
      ensures Valid() && fresh(queue)
      ensures size == 0 && capacity == cap
    {
      size := 0;
      capacity := cap;
      queue := new Element<V>[cap];
    }

    /** is_full */
    predicate IsFull()
      reads this
    {
      size == capacity
    }

    /** is_empty */
    predicate IsEmpty()
      reads this
    {
      size == 0
    }

    /** pq_enqueue: a full queue refuses the element with -1 and is left as
        it was; otherwise the element joins the queue, the heap is restored
        by percolating it up, and the result is 0. */
    method Enqueue(elem: Element<V>) returns (r: int)
      requires Valid()
      modifies this, queue
      ensures Valid() && queue == old(queue) && capacity == old(capacity)
      ensures old(size) == old(capacity) ==> r == -1 && size == old(size) && queue[..] == old(queue[..])
      ensures old(size) < old(capacity) ==>
        r == 0 && size == old(size) + 1 && Contents() == old(Contents()) + multiset{elem}
    {
      if IsFull() {
        return -1;
      }
      queue[size] := elem;
      size := size + 1;
      assert queue[..size] == old(queue[..size]) + [elem];
      assert HeapExceptUp(queue[..], size, size - 1);
      PercolateUp(size - 1);
      return 0;
    }

    /** The percolate-up loop of pq_enqueue: while the node at `idx` has a
        strictly higher priority than its parent, swap the two. */
    method PercolateUp(start: nat)
      requires queue.Length == capacity && size <= capacity && start < size
      requires HeapExceptUp(queue[..], size, start)
      modifies queue
      ensures Valid()
      ensures multiset(queue[..size]) == old(multiset(queue[..size]))
    {
      var idx: nat := start;
      var p: nat := ParentIdx(idx);
      while queue[idx].priority > queue[p].priority
        invariant idx < size && p == ParentIdx(idx)
        invariant HeapExceptUp(queue[..], size, idx)
        invariant multiset(queue[..size]) == old(multiset(queue[..size]))
        decreases idx
      {
        ghost var before := queue[..];
        SwapSlots(idx, p);
        SiftUpStep(before, queue[..], size, idx);
        idx := p;
        p := ParentIdx(idx);
      }
    }

    /** pq_dequeue: an empty queue yields no value (NULL) and is left as it
        was; otherwise the value of an element of greatest priority is
        returned and that element leaves the queue, the last element taking
        its place and percolating down. */
    method Dequeue() returns (v: Option<V>, ghost top: Element<V>)
      requires Valid()
      modifies this, queue
      ensures Valid() && queue == old(queue) && capacity == old(capacity)
      ensures old(size) == 0 ==> v == None && size == 0 && queue[..] == old(queue[..])
      ensures old(size) > 0 ==>
        size == old(size) - 1 &&
        IsMaxOf(top, old(Contents())) && v == Some(top.value) &&
        Contents() == old(Contents()) - multiset{top}
    {
      if IsEmpty() {
        top :| true;
        return None, top;
      }
      ghost var q0 := queue[..];
      ghost var n0 := size;
      assert old(Contents()) == multiset(q0[..n0]);
      top := queue[0];
      v := Some(queue[0].value);
      size := size - 1;
      queue[0] := queue[size];
      ghost var q1 := queue[..];
      assert q1 == q0[0 := q0[n0 - 1]];
      RootIsMaxOf(q0, n0);
      RemoveRootContents(q0, n0, q1);
      RemoveRootHeap(q0, n0, q1);
      PercolateDown();
      assert Contents() == multiset(q1[..n0 - 1]);
    }

    /** The percolate-down loop of pq_dequeue: starting from the root, swap a
        node with its greater child while that child's priority is at least
        the node's (ties go to the child, the right one winning), until
        neither child qualifies. */
    method PercolateDown()
      requires queue.Length == capacity && size <= capacity
      requires HeapExceptDown(queue[..], size, 0)
      modifies queue
      ensures Valid()
      ensures multiset(queue[..size]) == old(multiset(queue[..size]))
    {
      var idx: nat := 0;
      var left := LeftChild(idx);
      var right := RightChild(idx);
      while left < size
        invariant left == LeftChild(idx) && right == RightChild(idx)
        invariant HeapExceptDown(queue[..], size, idx)
        invariant multiset(queue[..size]) == old(multiset(queue[..size]))
        decreases size - idx
      {
        var swap := idx;
        if queue[left].priority >= queue[swap].priority {
          swap := left;
        }
        if right < size && queue[right].priority >= queue[swap].priority {
          swap := right;
        }
        if swap == idx {
          break;
        }
        ghost var before := queue[..];
        SwapSlots(idx, swap);
        SiftDownStep(before, queue[..], size, idx, swap);
        idx := swap;
        left := LeftChild(idx);
        right := RightChild(idx);
      }
    }

    /** _PQ_SWAP_: exchanges two occupied slots. */
    method SwapSlots(i: nat, j: nat)
      requires i < size && j < size && size <= queue.Length
      modifies queue
      ensures queue[..] == old(queue[..])[i := old(queue[j])][j := old(queue[i])]
      ensures multiset(queue[..size]) == old(multiset(queue[..size]))
    {
      var t := queue[i];
      queue[i] := queue[j];
      queue[j] := t;
      assert queue[..size] == old(queue[..size])[i := old(queue[j])][j := old(queue[i])];
    }
  }

  /** pq_init: a zero capacity yields no queue (NULL); any other capacity an
      empty queue of that capacity. */
  method Init<V(0)>(cap: nat) returns (pq: PriorityQueue?<V>)
    ensures cap == 0 ==> pq == null
    ensures cap > 0 ==> pq != null && fresh(pq) && fresh(pq.queue) && pq.Valid() &&
                        pq.size == 0 && pq.capacity == cap
  {
    if cap == 0 {
      return null;
    }
    pq := new PriorityQueue(cap);
  }

  /** The elements of priority and value `k` for every `k < j`. */
  ghost function Ladder(j: nat): multiset<Element<nat>>
  {
    if j == 0 then multiset{} else Ladder(j - 1) + multiset{Element(j - 1, j - 1)}
  }

  lemma {:induction false} LadderMembers(j: nat, x: Element<nat>)
    ensures x in Ladder(j) <==> x.priority == x.value && x.value < j
  {
    if j > 0 {
      LadderMembers(j - 1, x);
    }
  }

  /** The only element of greatest priority in `Ladder(j)` is the one of
      priority `j - 1`. */
  lemma LadderMax(j: nat, e: Element<nat>)
    requires j > 0 && IsMaxOf(e, Ladder(j))
    ensures e == Element(j - 1, j - 1)
  {
    LadderMembers(j, e);
    LadderMembers(j, Element(j - 1, j - 1));
  }

  /** Removing the top rung of the ladder leaves the ladder below it. */
  lemma LadderRemoveTop(j: nat)
    requires j > 0
    ensures Ladder(j) - multiset{Element(j - 1, j - 1)} == Ladder(j - 1)
  {
    assert Ladder(j) == Ladder(j - 1) + multiset{Element(j - 1, j - 1)};
  }

  /** Enqueues the elements of priority and value 0, 1, ..., n - 1 into an
      empty queue of capacity `n`, collecting the results. */
  method FillLadder(pq: PriorityQueue<nat>, n: nat) returns (results: seq<int>)
    requires pq.Valid() && pq.capacity == n && pq.size == 0
    modifies pq, pq.queue
    ensures pq.Valid() && pq.capacity == n && pq.size == n && pq.queue == old(pq.queue)
    ensures pq.Contents() == Ladder(n)
    ensures results == seq(n, k => 0)
  {
    results := [];
    var i := 0;
    while i < n
      invariant 0 <= i <= n
      invariant pq.Valid() && pq.capacity == n && pq.size == i && pq.queue == old(pq.queue)
      invariant pq.Contents() == Ladder(i)
      invariant results == seq(i, k => 0)
    {
      var r := EnqueueOntoLadder(pq, n, i);
      results := results + [r];
      i := i + 1;
    }
  }

  /** One enqueue onto a queue of capacity `n` holding `Ladder(i)`, with
      `i < n`, succeeds and makes it hold `Ladder(i + 1)`. */
  method EnqueueOntoLadder(pq: PriorityQueue<nat>, n: nat, i: nat) returns (r: int)
    requires pq.Valid() && pq.capacity == n && pq.size == i < n && pq.Contents() == Ladder(i)
    modifies pq, pq.queue
    ensures pq.Valid() && pq.capacity == n && pq.size == i + 1 && pq.queue == old(pq.queue)
    ensures pq.Contents() == Ladder(i + 1)
    ensures r == 0
  {
    r := pq.Enqueue(Element(i, i));
  }

  /** One dequeue from a queue holding `Ladder(j)` returns `j - 1`. */
  method DequeueFromLadder(pq: PriorityQueue<nat>, j: nat) returns (v: nat)
    requires pq.Valid() && pq.size == j > 0 && pq.Contents() == Ladder(j)
    modifies pq, pq.queue
    ensures pq.Valid() && pq.size == j - 1 && pq.queue == old(pq.queue)
    ensures pq.Contents() == Ladder(j - 1)
    ensures v == j - 1
  {
    ghost var m := pq.Contents();
    var r, e := pq.Dequeue();
    assert IsMaxOf(e, Ladder(j));
    LadderMax(j, e);
    LadderRemoveTop(j);
    v := r.value;
  }

  /** Dequeues every element of a queue holding `Ladder(n)`, collecting the
      values. */
  method DrainLadder(pq: PriorityQueue<nat>, n: nat) returns (values: seq<nat>)
    requires pq.Valid() && pq.size == n && pq.Contents() == Ladder(n)
    modifies pq, pq.queue
    ensures |values| == n && forall k :: 0 <= k < n ==> values[k] == n - 1 - k
  {
    values := [];
    var i := n;
    while i > 0
      invariant 0 <= i <= n
      invariant pq.Valid() && pq.size == i && pq.queue == old(pq.queue)
      invariant pq.Contents() == Ladder(i)
      invariant |values| == n - i && forall k :: 0 <= k < n - i ==> values[k] == n - 1 - k
    {
      var v := DequeueFromLadder(pq, i);
      values := values + [v];
      i := i - 1;
    }
  }

  /** The ordering test of the queue's tester: a queue of capacity `n`
      accepts the elements of priority 0, 1, ..., n - 1 in that order, each
      enqueue answering 0, and then hands their values back from the highest
      priority down. */
  method OrderScenario(n: nat) returns (results: seq<int>, values: seq<nat>)
    requires n > 0
    ensures results == seq(n, k => 0)
    ensures |values| == n && forall k :: 0 <= k < n ==> values[k] == n - 1 - k
  {
    var pq := new PriorityQueue<nat>(n);
    results := FillLadder(pq, n);
    values := DrainLadder(pq, n);
  }
}
