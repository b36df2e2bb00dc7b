/** The binary-heap primitives the task queue relies on (Python's `heapq`):
    a heap is a list whose element at index i is never greater than its
    children at 2i+1 and 2i+2. Elements are the queue's `[time, count, task]`
    entries, compared by (time, count). */
module HeapQ {

  /** What the last cell of an entry holds: the task, or the removal sentinel. */
  datatype Slot<T> = Live(task: T) | Removed

  /** One `[time, count, task]` list. The queue and the task index share the
      same object, so overwriting `slot` through the index is seen by the heap.
      Time and count are never written after creation. */
  class Entry<T> {
    const time: real
    const count: nat
    var slot: Slot<T>

    constructor (time: real, count: nat, task: T)
      ensures this.time == time && this.count == count && slot == Live(task)
    {
      this.time := time;
      this.count := count;
      slot := Live(task);
    }
  }

  /** Lexicographic `<=` on (time, count); counts are unique in a queue, so the
      third cell is never compared. */
  predicate KeyLe<T>(a: Entry<T>, b: Entry<T>) {
    a.time < b.time || (a.time == b.time && a.count <= b.count)
  }

  /** Lexicographic `<` on (time, count). */
  predicate Before<T>(a: Entry<T>, b: Entry<T>) {
    a.time < b.time || (a.time == b.time && a.count < b.count)
  }

  /** The entry at `j` is no less than its parent. */
  ghost predicate ParentLe<T>(h: seq<Entry<T>>, j: nat)
    requires 0 < j < |h|
  {
    KeyLe(h[(j - 1) / 2], h[j])
  }

  ghost predicate IsHeap<T>(h: seq<Entry<T>>) {
    forall j :: 0 < j < |h| ==> ParentLe(h, j)
  }

  /** The heap is ordered everywhere except between `i` and its parent, and
      `i`'s parent is no greater than `i`'s children. */
  ghost predicate HeapExceptUp<T>(h: seq<Entry<T>>, i: nat) {
    && i < |h|
    && (forall j :: 0 < j < |h| && j != i ==> ParentLe(h, j))
    && (i > 0 ==> forall j :: 0 < j < |h| && (j - 1) / 2 == i ==> KeyLe(h[(i - 1) / 2], h[j]))
  }

  /** The root of a heap is a least element. */
  lemma {:induction false} HeapRootMin<T>(h: seq<Entry<T>>, i: nat)
    requires IsHeap(h) && i < |h|
    ensures KeyLe(h[0], h[i])
    decreases i
  {
    if i > 0 {
      HeapRootMin(h, (i - 1) / 2);
      assert ParentLe(h, i);
    }
  }

  /** Exchanges two cells of a list, as the sift loops of heapq do. */
  function Swap<T>(h: seq<T>, i: nat, j: nat): (s: seq<T>)
    requires i < |h| && j < |h|
    ensures |s| == |h| && s[i] == h[j] && s[j] == h[i]
    ensures forall m :: 0 <= m < |h| && m != i && m != j ==> s[m] == h[m]
    ensures multiset(s) == multiset(h)
  {
    var t := h[i := h[j]];
    assert multiset(t) == multiset(h) - multiset{h[i]} + multiset{h[j]};
    assert multiset(t[j := h[i]]) == multiset(t) - multiset{t[j]} + multiset{h[i]};
    t[j := h[i]]
  }

  /** One step of bubbling up keeps the heap ordered except at the parent. */
  lemma SwapUpStep<T>(r: seq<Entry<T>>, k: nat)
    requires HeapExceptUp(r, k) && k > 0 && Before(r[k], r[(k - 1) / 2])
    ensures HeapExceptUp(Swap(r, k, (k - 1) / 2), (k - 1) / 2)
  {
    var p := (k - 1) / 2;
    var s := Swap(r, k, p);
    forall j | 0 < j < |s| && j != p
      ensures ParentLe(s, j)
    {
      if (j - 1) / 2 == p && j != k {
        assert ParentLe(r, j);
      } else if j != k && (j - 1) / 2 != k {
        assert ParentLe(r, j);
      }
    }
    if p > 0 {
      assert ParentLe(r, p);
      forall j | 0 < j < |s| && (j - 1) / 2 == p
        ensures KeyLe(s[(p - 1) / 2], s[j])
      {
        if j != k {
          assert ParentLe(r, j);
        }
      }
    }
  }

  /** One step of sinking, trading places with child `c`, the smaller child. */
  lemma SwapDownStep<T>(r: seq<Entry<T>>, k: nat, c: nat)
    requires k < |r| && (c == 2 * k + 1 || c == 2 * k + 2) && c < |r|
    requires forall j :: 0 < j < |r| && (j - 1) / 2 == k ==> KeyLe(r[c], r[j])
    requires forall j :: 0 < j < |r| && j != k && (j - 1) / 2 != k ==> ParentLe(r, j)
    requires k > 0 ==> forall j :: 0 < j < |r| && (j - 1) / 2 == k ==> KeyLe(r[(k - 1) / 2], r[j])
    ensures forall j :: 0 < j < |r| && j != c && (j - 1) / 2 != c ==> ParentLe(Swap(r, k, c), j)
    ensures forall j :: 0 < j < |r| && (j - 1) / 2 == c ==> KeyLe(r[c], r[j])
  {
    var s := Swap(r, k, c);
    forall j | 0 < j < |s| && j != c && (j - 1) / 2 != c
      ensures ParentLe(s, j)
    {
      if j != k && (j - 1) / 2 != k {
        assert ParentLe(r, j);
      }
    }
    forall j | 0 < j < |r| && (j - 1) / 2 == c
      ensures KeyLe(r[c], r[j])
    {
      assert ParentLe(r, j);
    }
  }

  /** heapq's `_siftdown(heap, 0, pos)`: moves the element at `i` toward the
      root while it is strictly less than its parent. */
  method BubbleUp<T>(h: seq<Entry<T>>, i: nat) returns (r: seq<Entry<T>>)
    requires HeapExceptUp(h, i)
    ensures IsHeap(r)
    ensures multiset(r) == multiset(h) && |r| == |h|
    ensures (i == 0 || !Before(h[i], h[(i - 1) / 2])) ==> r == h
  {
    r := h;
    var k: nat := i;
    while k > 0 && Before(r[k], r[(k - 1) / 2])
      invariant HeapExceptUp(r, k)
      invariant multiset(r) == multiset(h) && |r| == |h|
      invariant (i == 0 || !Before(h[i], h[(i - 1) / 2])) ==> r == h && k == i
      decreases k
    {
      var p := (k - 1) / 2;
      SwapUpStep(r, k);
      r := Swap(r, k, p);
      k := p;
    }
  }

  /** heapq's `heappush`: append, then bubble the new element up. An element
      no less than its would-be parent stays at the end. */
  method HeapPush<T>(h: seq<Entry<T>>, e: Entry<T>) returns (r: seq<Entry<T>>)
    requires IsHeap(h)
    ensures IsHeap(r)
    ensures multiset(r) == multiset(h) + multiset{e}
    ensures (|h| == 0 || KeyLe(h[(|h| - 1) / 2], e)) ==> r == h + [e]
  {
    var g := h + [e];
    assert HeapExceptUp(g, |h|) by {
      forall j | 0 < j < |g| && j != |h|
        ensures ParentLe(g, j)
      {
        assert ParentLe(h, j);
      }
    }
    r := BubbleUp(g, |h|);
  }

  /** heapq's `_siftup(heap, 0)` phase one: the element at `i` sinks to a leaf,
      each step trading places with the smaller child (the right one on ties),
      without comparing against the sinking element. */
  method SinkToLeaf<T>(h: seq<Entry<T>>) returns (r: seq<Entry<T>>, k: nat)
    requires |h| > 0
    requires forall j :: 0 < j < |h| && (j - 1) / 2 != 0 ==> ParentLe(h, j)
    ensures HeapExceptUp(r, k) && 2 * k + 1 >= |r|
    ensures multiset(r) == multiset(h) && |r| == |h|
  {
    r, k := h, 0;
    while 2 * k + 1 < |r|
      invariant k < |r| && |r| == |h|
      invariant multiset(r) == multiset(h)
      invariant forall j :: 0 < j < |r| && j != k && (j - 1) / 2 != k ==> ParentLe(r, j)
      invariant k > 0 ==> forall j :: 0 < j < |r| && (j - 1) / 2 == k ==> KeyLe(r[(k - 1) / 2], r[j])
      decreases |r| - k
    {
      var c := 2 * k + 1;
      if c + 1 < |r| && !Before(r[c], r[c + 1]) {
        c := c + 1;
      }
      SwapDownStep(r, k, c);
      r := Swap(r, k, c);
      k := c;
    }
  }

  /** heapq's `heappop`: the root is returned; the last element takes its
      place, sinks to a leaf and bubbles back up. */
  method HeapPop<T>(h: seq<Entry<T>>) returns (top: Entry<T>, r: seq<Entry<T>>)
    requires IsHeap(h) && |h| > 0
    ensures top == h[0]
    ensures IsHeap(r)
    ensures multiset(r) + multiset{top} == multiset(h) && |r| == |h| - 1
    ensures forall e :: e in r ==> KeyLe(top, e)
  {
    top := h[0];
    forall e | e in h ensures KeyLe(top, e) {
      var i :| 0 <= i < |h| && h[i] == e;
      HeapRootMin(h, i);
    }
    var last := h[|h| - 1];
    var rest := h[..|h| - 1];
    assert h == rest + [last];
    if rest == [] {
      r := rest;
    } else {
      var g := rest[0 := last];
      forall j | 0 < j < |g| && (j - 1) / 2 != 0
        ensures ParentLe(g, j)
      {
        assert ParentLe(h, j);
      }
      assert multiset(g) == multiset(rest) - multiset{top} + multiset{last};
      var k;
      g, k := SinkToLeaf(g);
      r := BubbleUp(g, k);
      forall e | e in r ensures KeyLe(top, e) {
        assert e in multiset(r);
      }
    }
  }
}
