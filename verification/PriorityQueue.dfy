/**
  The scheduler's priority queue: a slice of jobs kept as a binary heap by container/heap.
  Higher priority first, older first among equals.
 */
module PriorityQueue {
  import opened Jobs

  predicate Less(a: Job, b: Job) {
    if a.priority == b.priority then a.createdAt < b.createdAt else a.priority > b.priority
  }

  /** No job may come before one that is strictly ahead of it. */
  ghost predicate InOrder(order: seq<Job>) {
    forall i, j | 0 <= i < j < |order| :: !Less(order[j], order[i])
  }

  function Parent(i: nat): nat
    requires i > 0
  {
    (i - 1) / 2
  }

  /** The heap condition for every element of s[..n] whose parent is at `from` or later. */
  ghost predicate HeapFrom(s: seq<Job>, n: nat, from: nat)
    requires n <= |s|
  {
    forall k: nat | 0 < k < n && Parent(k) >= from :: !Less(s[k], s[Parent(k)])
  }

  ghost predicate IsHeap(s: seq<Job>) {
    HeapFrom(s, |s|, 0)
  }

  /** Nothing in a heap is ahead of its root. */
  lemma {:induction false} RootIsFirst(s: seq<Job>, k: nat)
    requires IsHeap(s) && k < |s|
    ensures !Less(s[k], s[0])
    decreases k
  {
    if k > 0 {
      RootIsFirst(s, Parent(k));
      assert !Less(s[k], s[Parent(k)]);
    }
  }

  /** The heap condition while an element sinks from `from` and has reached i. */
  ghost predicate Sinking(s: seq<Job>, n: nat, from: nat, i: nat)
    requires n <= |s|
  {
    && from <= i
    && (forall k: nat | 0 < k < n && Parent(k) >= from && Parent(k) != i :: !Less(s[k], s[Parent(k)]))
    && (i > from ==>
          i > 0 && Parent(i) >= from && forall k: nat | 0 < k < n && Parent(k) == i :: !Less(s[k], s[Parent(i)]))
  }

  function SwapItems(s: seq<Job>, i: nat, j: nat): (r: seq<Job>)
    requires i < |s| && j < |s|
    ensures |r| == |s| && multiset(r) == multiset(s)
    ensures r[i] == s[j] && r[j] == s[i] && forall k | 0 <= k < |s| && k != i && k != j :: r[k] == s[k]
  {
    s[i := s[j]][j := s[i]]
  }

  /** The smaller child of i, if i has one. */
  function SmallerChild(s: seq<Job>, n: nat, i: nat): (j: nat)
    requires 2 * i + 1 < n <= |s|
    ensures j < n && j > 0 && Parent(j) == i
    ensures forall k: nat | 0 < k < n && Parent(k) == i :: !Less(s[k], s[j])
  {
    if 2 * i + 2 < n && Less(s[2 * i + 2], s[2 * i + 1]) then 2 * i + 2 else 2 * i + 1
  }

  lemma SinkStep(s: seq<Job>, n: nat, from: nat, i: nat, j: nat)
    requires n <= |s| && Sinking(s, n, from, i) && 2 * i + 1 < n && j == SmallerChild(s, n, i) && Less(s[j], s[i])
    ensures Sinking(SwapItems(s, i, j), n, from, j)
  {
    var r := SwapItems(s, i, j);
    forall k: nat | 0 < k < n && Parent(k) >= from && Parent(k) != j ensures !Less(r[k], r[Parent(k)]) {
      if k == i {
        assert !Less(s[j], s[Parent(i)]);
      }
    }
    forall k: nat | 0 < k < n && Parent(k) == j ensures !Less(r[k], r[Parent(j)]) {
      assert k != i && k != j;
      assert !Less(s[k], s[Parent(k)]);
    }
  }

  class Queue {
    var items: seq<Job>

    /** heap.down. */
    method Down(from: nat, n: nat)
      requires from <= n <= |items| && HeapFrom(items, n, from + 1)
      modifies this
      ensures |items| == |old(items)| && multiset(items) == multiset(old(items))
      ensures HeapFrom(items, n, from)
      ensures items[n..] == old(items[n..])
    {
      var i := from;
      while true
        invariant n <= |items| == |old(items)| && multiset(items) == multiset(old(items))
        invariant items[n..] == old(items[n..])
        invariant Sinking(items, n, from, i)
        decreases n - i
      {
        if 2 * i + 1 >= n {
          break;
        }
        var j := SmallerChild(items, n, i);
        if !Less(items[j], items[i]) {
          break;
        }
        SinkStep(items, n, from, i, j);
        items := SwapItems(items, i, j);
        i := j;
      }
    }

    /** NewPriorityQueue: take the items as they are and heapify. */
    constructor (items: seq<Job>)
      ensures multiset(this.items) == multiset(items) && IsHeap(this.items)
    {
      this.items := items;
      new;
      var n := |items|;
      var i := n / 2;
      while i > 0
        invariant 0 <= i <= n / 2 && |this.items| == n && multiset(this.items) == multiset(items)
        invariant HeapFrom(this.items, n, i)
      {
        i := i - 1;
        Down(i, n);
      }
    }

    /** heap.Pop: the popped job is one no other job is ahead of. */
    method Pop() returns (job: Job)
      requires items != [] && IsHeap(items)
      modifies this
      ensures IsHeap(items)
      ensures multiset(old(items)) == multiset(items) + multiset{job}
      ensures |items| == |old(items)| - 1
      ensures forall other | other in old(items) :: !Less(other, job)
      ensures forall other | other in old(items) ::
                other.priority < job.priority || (other.priority == job.priority && other.createdAt >= job.createdAt)
    {
      var n := |items| - 1;
      forall other | other in items ensures !Less(other, items[0]) {
        var k :| 0 <= k < |items| && items[k] == other;
        RootIsFirst(items, k);
      }
      assert forall other | other in items ::
          other.priority < items[0].priority || (other.priority == items[0].priority && other.createdAt >= items[0].createdAt);
      hide Less, HeapFrom;
      items := SwapItems(items, 0, n);
      Down(0, n);
      job := items[n];
      assert items[n..] == [job];
      assert items == items[..n] + [job];
      items := items[..n];
    }
  }
}
