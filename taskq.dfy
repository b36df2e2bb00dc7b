/** `TaskQueue` (sc3/seq/_taskq.py): a heap of `[time, count, task]` entries
    with lazy deletion. An index maps each live task to its entry; removing a
    task overwrites the entry's task cell with a sentinel (a tombstone) that
    `pop` discards when it meets it. */
module TaskQ {
  import opened Wrappers
  import opened HeapQ

  /** The KeyError the queue raises. */
  datatype QueueError = KeyError(message: string)

  class TaskQueue<T(==)> {
    var queue: seq<Entry<T>>
    var entryFinder: map<T, Entry<T>>
    /** The next value of the `itertools.count()` counter. */
    var counter: nat
    var removedCounter: int

    /** The entries in the heap, and the tombstones among them. */
    ghost var Elements: set<Entry<T>>
    ghost var Tombs: set<Entry<T>>

    /** The live entries: the heap's entries that are not tombstones. */
    ghost function Lives(): set<Entry<T>>
      reads this
    {
      Elements - Tombs
    }

    /** Entries by counter value: the counter never repeats, so no two
        entries share a count. */
    ghost var ByCount: map<nat, Entry<T>>
    /** What each entry's task cell holds, mirrored so that the bookkeeping
        invariant does not depend on the heap. */
    ghost var SlotOf: map<Entry<T>, Slot<T>>

    ghost predicate Valid()
      reads this, Elements
    {
      && Shape(queue, Elements, ByCount, counter)
      && Slots(Elements, Tombs, entryFinder, SlotOf)
      && Mirrors(Elements, SlotOf)
      && removedCounter == |Tombs|
    }

    /** A fresh queue is in the initial state of `_init`. */
    constructor ()
      ensures Valid() && Initial()
    {
      queue := [];
      entryFinder := map[];
      counter := 0;
      removedCounter := 0;
      Elements, Tombs, ByCount, SlotOf := {}, {}, map[], map[];
    }

    /** The state `_init` establishes: no entries, an empty index, a counter
        starting afresh and no tombstones. */
    ghost predicate Initial()
      reads this
    {
      && queue == [] && entryFinder == map[] && counter == 0 && removedCounter == 0
      && Elements == {} && Tombs == {}
    }

    /** `_init`, also used by `clear`. */
    method Init()
      modifies this
      ensures Valid() && Initial()
    {
      queue := [];
      entryFinder := map[];
      counter := 0;
      removedCounter := 0;
      Elements, Tombs, ByCount, SlotOf := {}, {}, map[], map[];
    }

    /** Adds `task` at `time`; a task already present is first removed, so its
        old entry becomes a tombstone and the task keeps one live entry. */
    method Add(time: real, task: T) returns (ghost entry: Entry<T>)
      requires Valid()
      modifies this, if task in entryFinder then {entryFinder[task]} else {}
      ensures Valid() && fresh(entry)
      ensures entry.time == time && entry.count == old(counter) && entry.slot == Live(task)
      ensures entryFinder == old(entryFinder)[task := entry]
      ensures counter == old(counter) + 1
      ensures Elements == old(Elements) + {entry}
      ensures forall f :: f in old(Elements) ==> f.count < entry.count
      ensures task in old(entryFinder) ==>
        && old(entryFinder[task]).slot == Removed
        && Tombs == old(Tombs) + {old(entryFinder[task])}
        && removedCounter == old(removedCounter) + 1
      ensures task !in old(entryFinder) ==> Tombs == old(Tombs) && removedCounter == old(removedCounter)
      ensures (|old(queue)| == 0 || KeyLe(old(queue)[(|old(queue)| - 1) / 2], entry)) ==>
        queue == old(queue) + [entry]
    {
      if task in entryFinder {
        var _ := Remove(task);
      }
      entry := Insert(time, task);
    }

    /** The part of `add` after the optional removal: a fresh entry with the
        next count goes into the index and onto the heap. */
    method Insert(time: real, task: T) returns (ghost entry: Entry<T>)
      requires Valid() && task !in entryFinder
      modifies this
      ensures Valid() && fresh(entry)
      ensures entry.time == time && entry.count == old(counter) && entry.slot == Live(task)
      ensures entryFinder == old(entryFinder)[task := entry]
      ensures counter == old(counter) + 1
      ensures Elements == old(Elements) + {entry} && Tombs == old(Tombs)
      ensures forall f :: f in old(Elements) ==> f.count < entry.count
      ensures removedCounter == old(removedCounter)
      ensures (|old(queue)| == 0 || KeyLe(old(queue)[(|old(queue)| - 1) / 2], entry)) ==>
        queue == old(queue) + [entry]
    {
      var e := new Entry(time, counter, task);
      ghost var E0, S0 := Elements, SlotOf;
      Push(e);
      SlotsAfterAdd(E0, Tombs, entryFinder, S0, e, task);
      MirrorsAfterAdd(E0, S0, e, task);
      entryFinder := entryFinder[task := e];
      SlotOf := SlotOf[e := Live(task)];
      entry := e;
    }

    /** The `heappush` of `add`: the entry carrying the next count joins the
        heap and the count advances; the index is left to the caller. */
    method Push(e: Entry<T>)
      requires Shape(queue, Elements, ByCount, counter)
      requires e !in Elements && e.count == counter
      modifies this
      ensures Shape(queue, Elements, ByCount, counter)
      ensures Elements == old(Elements) + {e} && counter == old(counter) + 1
      ensures forall f :: f in old(Elements) ==> f.count < e.count
      ensures entryFinder == old(entryFinder) && SlotOf == old(SlotOf)
      ensures Tombs == old(Tombs) && removedCounter == old(removedCounter)
      ensures (|old(queue)| == 0 || KeyLe(old(queue)[(|old(queue)| - 1) / 2], e)) ==>
        queue == old(queue) + [e]
    {
      forall f | f in Elements ensures f.count < counter {
        assert Counted(ByCount, counter, f);
      }
      var q := HeapPush(queue, e);
      ShapeAfterPush(queue, Elements, ByCount, counter, e, q);
      queue, Elements, ByCount, counter := q, Elements + {e}, ByCount[counter := e], counter + 1;
    }

    /** Tombstones the live entry of `task`; a task with no live entry raises
        KeyError before anything is changed. */
    method Remove(task: T) returns (r: Result<(), QueueError>)
      requires Valid()
      modifies this, if task in entryFinder then {entryFinder[task]} else {}
      ensures Valid()
      ensures r.Err? <==> task !in old(entryFinder)
      ensures r.Err? ==> unchanged(this) && r.error == KeyError("task not found")
      ensures r.Ok? ==>
        && old(entryFinder[task]).slot == Removed
        && entryFinder == old(entryFinder) - {task}
        && Lives() == old(Lives()) - {old(entryFinder[task])}
        && Tombs == old(Tombs) + {old(entryFinder[task])}
        && removedCounter == old(removedCounter) + 1
        && queue == old(queue) && Elements == old(Elements) && counter == old(counter)
    {
      if task !in entryFinder {
        return Err(KeyError("task not found"));
      }
      var entry := entryFinder[task];
      SlotsAfterRemove(Elements, Tombs, entryFinder, SlotOf, task);
      entryFinder := entryFinder - {task};
      entry.slot := Removed;
      removedCounter := removedCounter + 1;
      Tombs, SlotOf := Tombs + {entry}, SlotOf[entry := Removed];
      r := Ok(());
    }

    /** Pops tombstones until a live entry comes out and returns its time and
        task. The entry returned is the least live one by (time, count); every
        entry at or before it leaves the heap, every later one stays. With no
        live entry the heap is emptied and KeyError is raised. */
    method Pop() returns (r: Result<(real, T), QueueError>, ghost popped: Entry?<T>)
      requires Valid()
      modifies this
      ensures Valid() && counter == old(counter)
      ensures r.Err? <==> old(Lives()) == {}
      ensures r.Err? ==> r.error == KeyError("pop from an empty task queue")
      ensures r.Err? ==> queue == [] && removedCounter == 0 && Elements == {} && entryFinder == old(entryFinder)
      ensures r.Ok? ==>
        && popped != null && popped in old(Lives()) && popped.slot.Live?
        && r.value == (popped.time, popped.slot.task)
        && (forall f :: f in old(Lives()) && f != popped ==> Before(popped, f))
        && Elements == (set f | f in old(Elements) && Before(popped, f))
        && Lives() == old(Lives()) - {popped}
        && entryFinder == old(entryFinder) - {popped.slot.task}
    {
      ghost var gone: set<Entry<T>> := {};
      ghost var q0, E0 := queue, Elements;
      while |queue| > 0
        invariant Valid() && counter == old(counter) && ByCount == old(ByCount)
        invariant entryFinder == old(entryFinder)
        invariant gone <= old(Tombs) && Tombs == old(Tombs) - gone && Elements == old(Elements) - gone
        invariant forall f, g :: f in gone && g in Elements ==> KeyLe(f, g)
        decreases |queue|
      {
        var top := PopRoot();
        if top.slot.Live? {
          forall f | f in gone ensures f.count != top.count {
            DistinctCounts(q0, E0, ByCount, counter, f, top);
          }
          PopOutcome(old(Elements), old(Tombs), gone, top);
          return Ok((top.time, top.slot.task)), top;
        }
        gone := gone + {top};
      }
      assert multiset(Elements) == multiset{};
      r, popped := Err(KeyError("pop from an empty task queue")), null;
    }

    /** One turn of `pop`'s loop: the root leaves the heap; a live root also
        leaves the index, a tombstone leaves the tombstone count. */
    method PopRoot() returns (top: Entry<T>)
      requires Valid() && |queue| > 0
      modifies this
      ensures Valid() && counter == old(counter) && ByCount == old(ByCount)
      ensures top in old(Elements) && Elements == old(Elements) - {top} && |queue| == |old(queue)| - 1
      ensures forall g :: g in Elements ==> Before(top, g)
      ensures top.slot.Live? ==>
        && top !in old(Tombs) && Tombs == old(Tombs) && removedCounter == old(removedCounter)
        && entryFinder == old(entryFinder) - {top.slot.task}
      ensures top.slot == Removed ==>
        && top in old(Tombs) && Tombs == old(Tombs) - {top} && removedCounter == old(removedCounter) - 1
        && entryFinder == old(entryFinder)
    {
      var rest;
      top, rest := HeapPop(queue);
      ShapeAfterPop(queue, Elements, ByCount, counter, top, rest);
      SlotsAt(Elements, Tombs, entryFinder, SlotOf, top);
      assert top.slot == SlotOf[top];
      if top.slot.Live? {
        SlotsAfterPopLive(Elements, Tombs, entryFinder, SlotOf, top);
        entryFinder := entryFinder - {top.slot.task};
      } else {
        SlotsAfterPopTomb(Elements, Tombs, entryFinder, SlotOf, top);
        removedCounter := removedCounter - 1;
        Tombs := Tombs - {top};
      }
      queue := rest;
      Elements := Elements - {top};
    }

    /** Scans the heap list in index order and returns the first live entry.
        This is the least live entry whenever the root is live; with a
        tombstone at the root a later, larger entry can come first. */
    method Peek() returns (r: Result<(real, T), QueueError>)
      requires Valid()
      ensures r.Err? <==> Lives() == {}
      ensures r.Err? ==> r.error == KeyError("peek from an empty task queue")
      ensures r.Ok? ==> exists i :: 0 <= i < |queue| && IsFirstLive(i) && r.value == (queue[i].time, queue[i].slot.task)
      ensures |queue| > 0 && queue[0].slot.Live? ==>
        && r == Ok((queue[0].time, queue[0].slot.task))
        && forall f :: f in Lives() && f != queue[0] ==> Before(queue[0], f)
    {
      if |queue| > 0 && queue[0].slot.Live? {
        RootIsLeastLive();
      }
      var i := 0;
      while i < |queue|
        invariant 0 <= i <= |queue|
        invariant forall j :: 0 <= j < i ==> queue[j].slot == Removed
      {
        var entry := queue[i];
        if entry.slot.Live? {
          assert IsFirstLive(i) && entry in multiset(Elements);
          EntryState(entry);
          return Ok((entry.time, entry.slot.task));
        }
        i := i + 1;
      }
      forall e | e in Lives() ensures false {
        assert e in multiset(queue);
        EntryState(e);
      }
      r := Err(KeyError("peek from an empty task queue"));
    }

    /** Index `i` holds the first live entry of the heap list. */
    ghost predicate IsFirstLive(i: nat)
      reads this, queue
      requires i < |queue|
    {
      queue[i].slot.Live? && forall j :: 0 <= j < i ==> queue[j].slot == Removed
    }

    /** The lowest live entry, as `peek`'s documentation promises: it equals
        what `pop` would return. */
    method PeekMin() returns (r: Result<(real, T), QueueError>)
      requires Valid()
      ensures r.Err? <==> Lives() == {}
      ensures r.Err? ==> r.error == KeyError("peek from an empty task queue")
      ensures r.Ok? ==> exists e :: && e in Lives() && e.slot.Live? && r.value == (e.time, e.slot.task)
                                    && forall f :: f in Lives() && f != e ==> Before(e, f)
    {
      var best: Entry?<T> := null;
      var i := 0;
      while i < |queue|
        invariant 0 <= i <= |queue|
        invariant best == null <==> forall j :: 0 <= j < i ==> queue[j].slot == Removed
        invariant best != null ==> && best in queue[..i] && best.slot.Live?
                                   && forall j :: 0 <= j < i && queue[j].slot.Live? ==> KeyLe(best, queue[j])
      {
        var entry := queue[i];
        if entry.slot.Live? && (best == null || Before(entry, best)) {
          best := entry;
        }
        i := i + 1;
      }
      if best == null {
        forall e | e in Lives() ensures false {
          assert e in multiset(queue);
          EntryState(e);
        }
        return Err(KeyError("peek from an empty task queue"));
      }
      assert best in multiset(Elements) by {
        assert best in multiset(queue);
      }
      EntryState(best);
      forall f | f in Lives() && f != best ensures Before(best, f) {
        assert f in multiset(queue);
        EntryState(f);
        var j :| 0 <= j < |queue| && queue[j] == f;
        KeyLeIsBefore(queue, Elements, ByCount, counter, best, f);
      }
      r := Ok((best.time, best.slot.task));
    }

    /** `empty()`: the heap length minus the tombstone count is zero exactly
        when no live entry remains. */
    method Empty() returns (b: bool)
      requires Valid()
      ensures b <==> Lives() == {}
      ensures b <==> entryFinder == map[]
    {
      LiveCount();
      if Lives() != {} {
        var e :| e in Lives();
        EntryState(e);
      }
      if entryFinder != map[] {
        var t :| t in entryFinder;
        FinderAt(Elements, Tombs, entryFinder, SlotOf, t);
      }
      b := |queue| - removedCounter == 0;
    }

    /** `clear()`: back to the initial state. */
    method Clear()
      modifies this
      ensures Valid() && Initial()
    {
      Init();
    }

    /** A live root is the least live entry. */
    lemma RootIsLeastLive()
      requires Valid() && |queue| > 0 && queue[0].slot.Live?
      ensures forall f :: f in Lives() && f != queue[0] ==> Before(queue[0], f)
    {
      assert queue[0] in multiset(Elements);
      forall f | f in Lives() && f != queue[0] ensures Before(queue[0], f) {
        assert f in multiset(queue);
        var j :| 0 <= j < |queue| && queue[j] == f;
        HeapRootMin(queue, j);
        KeyLeIsBefore(queue, Elements, ByCount, counter, queue[0], f);
      }
    }

    /** A heap entry is live exactly when its task cell holds a task, and
        then the index maps that task to it. */
    lemma EntryState(e: Entry<T>)
      requires Valid() && e in Elements
      ensures e in Lives() <==> e.slot.Live?
      ensures e.slot.Live? ==> e.slot.task in entryFinder && entryFinder[e.slot.task] == e
    {
      SlotsAt(Elements, Tombs, entryFinder, SlotOf, e);
    }

    /** No task has two live entries. */
    lemma OneLiveEntryPerTask(e: Entry<T>, f: Entry<T>)
      requires Valid() && e in Lives() && f in Lives()
      ensures e.slot == f.slot ==> e == f
    {
      EntryState(e);
      EntryState(f);
    }

    /** The index's keys are exactly the tasks of the live entries. */
    lemma IndexIsLiveTasks(t: T)
      requires Valid()
      ensures t in entryFinder <==> exists e :: e in Lives() && e.slot == Live(t)
    {
      if t in entryFinder {
        FinderAt(Elements, Tombs, entryFinder, SlotOf, t);
        var e := entryFinder[t];
        assert e.slot == SlotOf[e];
      }
      if e :| e in Lives() && e.slot == Live(t) {
        EntryState(e);
      }
    }

    /** Heap length minus the tombstone count is the number of live entries. */
    lemma LiveCount()
      requires Valid()
      ensures |queue| - removedCounter == |Lives()|
    {
      SizeOfMultisetOfSet(Elements);
      assert |queue| == |multiset(queue)|;
      assert Elements == Lives() + Tombs && Lives() * Tombs == {};
    }

    /** Two pops in a row come out in (time, count) order: by time, and in
        insertion order among equal times. */
    method PopTwice() returns (r1: Result<(real, T), QueueError>, r2: Result<(real, T), QueueError>,
                               ghost p1: Entry?<T>, ghost p2: Entry?<T>)
      requires Valid()
      modifies this
      ensures Valid()
      ensures r1.Ok? && r2.Ok? ==>
        && p1 != null && p2 != null && Before(p1, p2)
        && r1.value.0 <= r2.value.0
        && (r1.value.0 == r2.value.0 ==> p1.count < p2.count)
      ensures r1.Err? ==> r2.Err?
    {
      r1, p1 := Pop();
      r2, p2 := Pop();
    }
  }

  /** The heap list holds exactly the entries of `elems`, in heap order, and
      `byCount` finds each entry by its count, which is below `counter`. */
  ghost predicate Shape<T>(q: seq<Entry<T>>, elems: set<Entry<T>>, byCount: map<nat, Entry<T>>, counter: nat) {
    && multiset(q) == multiset(elems)
    && IsHeap(q)
    && (forall e {:trigger Counted(byCount, counter, e)} :: e in elems ==> Counted(byCount, counter, e))
  }

  /** `e` was numbered before `counter` and is the entry under its count. */
  ghost predicate Counted<T>(byCount: map<nat, Entry<T>>, counter: nat, e: Entry<T>) {
    e.count < counter && e.count in byCount && byCount[e.count] == e
  }

  /** The tombstones are the entries whose task cell holds the sentinel; the
      index maps each task to its one live entry and nothing else. */
  ghost predicate Slots<T>(elems: set<Entry<T>>, tombs: set<Entry<T>>, finder: map<T, Entry<T>>,
                           slotOf: map<Entry<T>, Slot<T>>) {
    && tombs <= elems
    && (forall e {:trigger SlotOk(tombs, finder, slotOf, e)} :: e in elems ==> SlotOk(tombs, finder, slotOf, e))
    && (forall t {:trigger Indexed(elems, tombs, finder, slotOf, t)} :: t in finder ==> Indexed(elems, tombs, finder, slotOf, t))
  }

  /** An entry's cell is the sentinel exactly when it is a tombstone, and a
      live entry is the one the index holds for its task. */
  ghost predicate SlotOk<T>(tombs: set<Entry<T>>, finder: map<T, Entry<T>>, slotOf: map<Entry<T>, Slot<T>>, e: Entry<T>) {
    && e in slotOf
    && (e in tombs <==> slotOf[e] == Removed)
    && (slotOf[e].Live? ==> slotOf[e].task in finder && finder[slotOf[e].task] == e)
  }

  /** The index holds, for `t`, a live heap entry whose cell holds `t`. */
  ghost predicate Indexed<T>(elems: set<Entry<T>>, tombs: set<Entry<T>>, finder: map<T, Entry<T>>,
                             slotOf: map<Entry<T>, Slot<T>>, t: T) {
    t in finder && finder[t] in elems && finder[t] !in tombs && finder[t] in slotOf && slotOf[finder[t]] == Live(t)
  }

  /** `slotOf` agrees with the task cells of the heap's entries. */
  ghost predicate Mirrors<T>(elems: set<Entry<T>>, slotOf: map<Entry<T>, Slot<T>>)
    reads elems
  {
    forall e {:trigger e.slot} :: e in elems && e in slotOf ==> e.slot == slotOf[e]
  }

  /** Distinct entries have distinct counts, so `<=` between them is `<`. */
  lemma KeyLeIsBefore<T>(q: seq<Entry<T>>, elems: set<Entry<T>>, byCount: map<nat, Entry<T>>, counter: nat,
                         e: Entry<T>, f: Entry<T>)
    requires Shape(q, elems, byCount, counter) && e in elems && f in elems && e != f && KeyLe(e, f)
    ensures Before(e, f)
  {
    DistinctCounts(q, elems, byCount, counter, e, f);
  }

  lemma DistinctCounts<T>(q: seq<Entry<T>>, elems: set<Entry<T>>, byCount: map<nat, Entry<T>>, counter: nat,
                          e: Entry<T>, f: Entry<T>)
    requires Shape(q, elems, byCount, counter) && e in elems && f in elems && e != f
    ensures e.count != f.count
  {
    assert Counted(byCount, counter, e) && Counted(byCount, counter, f);
  }

  lemma SlotsAt<T>(elems: set<Entry<T>>, tombs: set<Entry<T>>, finder: map<T, Entry<T>>,
                   slotOf: map<Entry<T>, Slot<T>>, e: Entry<T>)
    requires Slots(elems, tombs, finder, slotOf) && e in elems
    ensures SlotOk(tombs, finder, slotOf, e)
  {
  }

  lemma FinderAt<T>(elems: set<Entry<T>>, tombs: set<Entry<T>>, finder: map<T, Entry<T>>,
                    slotOf: map<Entry<T>, Slot<T>>, t: T)
    requires Slots(elems, tombs, finder, slotOf) && t in finder
    ensures Indexed(elems, tombs, finder, slotOf, t)
  {
  }

  lemma ShapeAfterPush<T>(q: seq<Entry<T>>, elems: set<Entry<T>>, byCount: map<nat, Entry<T>>, counter: nat,
                          entry: Entry<T>, q': seq<Entry<T>>)
    requires Shape(q, elems, byCount, counter) && entry.count == counter
    requires IsHeap(q') && multiset(q') == multiset(q) + multiset{entry}
    ensures entry !in elems
    ensures Shape(q', elems + {entry}, byCount[counter := entry], counter + 1)
  {
    forall e | e in elems ensures e != entry && Counted(byCount[counter := entry], counter + 1, e) {
      assert Counted(byCount, counter, e);
    }
    MultisetOfSetPlus(elems, entry);
    assert Counted(byCount[counter := entry], counter + 1, entry);
  }

  lemma ShapeAfterPop<T>(q: seq<Entry<T>>, elems: set<Entry<T>>, byCount: map<nat, Entry<T>>, counter: nat,
                         top: Entry<T>, rest: seq<Entry<T>>)
    requires Shape(q, elems, byCount, counter) && IsHeap(rest)
    requires multiset(rest) + multiset{top} == multiset(q)
    requires forall e :: e in rest ==> KeyLe(top, e)
    ensures top in elems && Shape(rest, elems - {top}, byCount, counter)
    ensures forall g :: g in elems - {top} ==> Before(top, g)
  {
    assert top in multiset(q);
    MultisetOfSetMinus(elems, top);
    forall g | g in elems - {top} ensures Before(top, g) {
      assert g in multiset(q);
      assert g in multiset(rest);
      assert g in rest;
      DistinctCounts(q, elems, byCount, counter, top, g);
    }
  }

  lemma SlotsAfterAdd<T>(elems: set<Entry<T>>, tombs: set<Entry<T>>, finder: map<T, Entry<T>>,
                         slotOf: map<Entry<T>, Slot<T>>, entry: Entry<T>, task: T)
    requires Slots(elems, tombs, finder, slotOf) && entry !in elems && task !in finder
    ensures Slots(elems + {entry}, tombs, finder[task := entry], slotOf[entry := Live(task)])
  {
    var finder', slotOf' := finder[task := entry], slotOf[entry := Live(task)];
    forall e | e in elems + {entry} ensures SlotOk(tombs, finder', slotOf', e) {
      if e != entry {
        assert SlotOk(tombs, finder, slotOf, e);
      }
    }
    forall t | t in finder' ensures Indexed(elems + {entry}, tombs, finder', slotOf', t) {
      if t != task {
        assert Indexed(elems, tombs, finder, slotOf, t);
      }
    }
  }

  /** A new entry joins the mirrored entries. */
  lemma MirrorsAfterAdd<T>(elems: set<Entry<T>>, slotOf: map<Entry<T>, Slot<T>>, entry: Entry<T>, task: T)
    requires Mirrors(elems, slotOf) && entry !in elems && entry.slot == Live(task)
    ensures Mirrors(elems + {entry}, slotOf[entry := Live(task)])
  {
  }

  lemma SlotsAfterRemove<T>(elems: set<Entry<T>>, tombs: set<Entry<T>>, finder: map<T, Entry<T>>,
                            slotOf: map<Entry<T>, Slot<T>>, task: T)
    requires Slots(elems, tombs, finder, slotOf) && task in finder
    ensures finder[task] in elems && finder[task] !in tombs
    ensures Slots(elems, tombs + {finder[task]}, finder - {task}, slotOf[finder[task] := Removed])
  {
    var x := finder[task];
    assert Indexed(elems, tombs, finder, slotOf, task);
    var tombs', finder', slotOf' := tombs + {x}, finder - {task}, slotOf[x := Removed];
    forall e | e in elems ensures SlotOk(tombs', finder', slotOf', e) {
      assert SlotOk(tombs, finder, slotOf, e);
    }
    forall t | t in finder' ensures Indexed(elems, tombs', finder', slotOf', t) {
      assert Indexed(elems, tombs, finder, slotOf, t);
    }
  }

  lemma SlotsAfterPopLive<T>(elems: set<Entry<T>>, tombs: set<Entry<T>>, finder: map<T, Entry<T>>,
                             slotOf: map<Entry<T>, Slot<T>>, top: Entry<T>)
    requires Slots(elems, tombs, finder, slotOf) && top in elems && top in slotOf && slotOf[top].Live?
    ensures top !in tombs && slotOf[top].task in finder
    ensures Slots(elems - {top}, tombs, finder - {slotOf[top].task}, slotOf)
  {
    assert SlotOk(tombs, finder, slotOf, top);
    var finder' := finder - {slotOf[top].task};
    forall e | e in elems - {top} ensures SlotOk(tombs, finder', slotOf, e) {
      assert SlotOk(tombs, finder, slotOf, e);
    }
    forall t | t in finder' ensures Indexed(elems - {top}, tombs, finder', slotOf, t) {
      assert Indexed(elems, tombs, finder, slotOf, t);
    }
  }

  lemma SlotsAfterPopTomb<T>(elems: set<Entry<T>>, tombs: set<Entry<T>>, finder: map<T, Entry<T>>,
                             slotOf: map<Entry<T>, Slot<T>>, top: Entry<T>)
    requires Slots(elems, tombs, finder, slotOf) && top in elems && top in slotOf && slotOf[top] == Removed
    ensures top in tombs && Slots(elems - {top}, tombs - {top}, finder, slotOf)
  {
    assert SlotOk(tombs, finder, slotOf, top);
    forall e | e in elems - {top} ensures SlotOk(tombs - {top}, finder, slotOf, e) {
      assert SlotOk(tombs, finder, slotOf, e);
    }
    forall t | t in finder ensures Indexed(elems - {top}, tombs - {top}, finder, slotOf, t) {
      assert Indexed(elems, tombs, finder, slotOf, t);
    }
  }

  /** What pop has done when it stops at the live entry `top`, having
      discarded the tombstones `gone` on the way. */
  lemma PopOutcome<T>(elems: set<Entry<T>>, tombs: set<Entry<T>>, gone: set<Entry<T>>, top: Entry<T>)
    requires gone <= tombs && top in elems - gone && top !in tombs
    requires forall f, g :: f in gone && g in elems - gone ==> KeyLe(f, g)
    requires forall g :: g in elems - gone - {top} ==> Before(top, g)
    requires forall f :: f in gone ==> f.count != top.count
    ensures top in elems - tombs
    ensures forall f :: f in elems - tombs && f != top ==> Before(top, f)
    ensures elems - gone - {top} == (set f | f in elems && Before(top, f))
    ensures (elems - gone - {top}) - (tombs - gone) == (elems - tombs) - {top}
  {
    forall f | f in elems ensures f in elems - gone - {top} <==> Before(top, f) {
      if f in gone {
        assert KeyLe(f, top);
      }
    }
  }

  lemma MultisetOfSetMinus<X>(s: set<X>, x: X)
    requires x in s
    ensures multiset(s - {x}) == multiset(s) - multiset{x}
  {
    assert s == (s - {x}) + {x};
  }

  lemma MultisetOfSetPlus<X>(s: set<X>, x: X)
    requires x !in s
    ensures multiset(s + {x}) == multiset(s) + multiset{x}
  {
  }

  lemma SizeOfMultisetOfSet<X>(s: set<X>)
    ensures |multiset(s)| == |s|
  {
    if s != {} {
      var x :| x in s;
      MultisetOfSetMinus(s, x);
      SizeOfMultisetOfSet(s - {x});
    }
  }

  /** Scenario step for PeekMissesMinimum, not an operation of the queue.
      add(1.0, 1), add(5.0, 2): the second entry is no less than the root,
      so it stays where it was appended. */
  method TwoAppended() returns (q: TaskQueue<int>, ghost a: Entry<int>, ghost b: Entry<int>)
    ensures fresh(q) && fresh(a) && q.Valid() && q.queue == [a, b] && q.Lives() == {a, b}
    ensures q.entryFinder == map[1 := a, 2 := b]
    ensures a.time == 1.0 && b.time == 5.0 && b.slot == Live(2)
  {
    q := new TaskQueue<int>();
    a := q.Add(1.0, 1);
    b := q.Add(5.0, 2);
  }

  /** Scenario step for PeekMissesMinimum. Then add(2.0, 3): again no
      less than its would-be parent, the root. */
  method ThreeAppended() returns (q: TaskQueue<int>, ghost a: Entry<int>, ghost b: Entry<int>, ghost c: Entry<int>)
    ensures fresh(q) && fresh(a) && q.Valid() && q.queue == [a, b, c] && q.Lives() == {a, b, c}
    ensures q.entryFinder == map[1 := a, 2 := b, 3 := c]
    ensures b.time == 5.0 && b.slot == Live(2) && c.time == 2.0 && c.slot == Live(3)
  {
    q, a, b := TwoAppended();
    c := q.Add(2.0, 3);
  }

  /** Scenario step for PeekMissesMinimum. Then remove(1): the root
      becomes a tombstone. */
  method RootTombstoned() returns (q: TaskQueue<int>, ghost b: Entry<int>, ghost c: Entry<int>)
    ensures fresh(q) && q.Valid()
    ensures |q.queue| == 3 && q.queue[0].slot == Removed && q.queue[1] == b && q.queue[2] == c
    ensures b.time == 5.0 && b.slot == Live(2) && c.time == 2.0 && c.slot == Live(3)
    ensures q.Lives() == {b, c}
  {
    ghost var a;
    q, a, b, c := ThreeAppended();
    var _ := q.Remove(1);
  }

  /** With the root tombstoned, `peek` reports the entry at index 1 while a
      lower live entry sits at index 2, which is what `pop` returns. */
  method PeekMissesMinimum() returns (peeked: Result<(real, int), QueueError>,
                                      least: Result<(real, int), QueueError>,
                                      popped: Result<(real, int), QueueError>)
    ensures peeked == Ok((5.0, 2))
    ensures least == Ok((2.0, 3)) && popped == least
  {
    var q, b, c := RootTombstoned();
    peeked := q.Peek();
    ghost var i :| 0 <= i < |q.queue| && q.IsFirstLive(i) && peeked.value == (q.queue[i].time, q.queue[i].slot.task);
    assert i == 1;
    least := q.PeekMin();
    ghost var e :| e in q.Lives() && e.slot.Live? && least.value == (e.time, e.slot.task)
                   && forall f :: f in q.Lives() && f != e ==> Before(e, f);
    assert !Before(b, c);
    ghost var p;
    popped, p := q.Pop();
    assert p == c;
  }

  /** A pop whose least live entry is known in advance returns it. */
  method PopKnown<T>(q: TaskQueue<T>, ghost e: Entry<T>) returns (r: Result<(real, T), QueueError>)
    requires q.Valid() && e in q.Lives() && e.slot.Live?
    requires forall f :: f in q.Lives() && f != e ==> Before(e, f)
    modifies q
    ensures q.Valid() && q.Lives() == old(q.Lives()) - {e} && r == Ok((e.time, e.slot.task))
  {
    ghost var p;
    r, p := q.Pop();
    assert !(Before(e, p) && Before(p, e));
  }

  /** Scenario step for PopOrder, not an operation of the queue.
      add(1.0, 'A'), add(0.5, 'B'). */
  method TwoTasks() returns (q: TaskQueue<char>, ghost a: Entry<char>, ghost b: Entry<char>)
    ensures fresh(q) && fresh(a) && fresh(b) && q.Valid() && q.Lives() == {a, b}
    ensures q.entryFinder == map['A' := a, 'B' := b] && q.counter == 2 && a.count == 0
    ensures a.time == 1.0 && a.slot == Live('A') && b.time == 0.5 && b.slot == Live('B')
  {
    q := new TaskQueue<char>();
    a := q.Add(1.0, 'A');
    b := q.Add(0.5, 'B');
  }

  /** Scenario step for PopOrder. Then add(1.0, 'C'). */
  method ThreeTasks() returns (q: TaskQueue<char>, ghost a: Entry<char>, ghost b: Entry<char>, ghost c: Entry<char>)
    ensures fresh(q) && q.Valid() && q.Lives() == {a, b, c}
    ensures a.time == 1.0 && a.slot == Live('A') && b.time == 0.5 && b.slot == Live('B')
    ensures c.time == 1.0 && c.slot == Live('C') && a.count < c.count
  {
    q, a, b := TwoTasks();
    c := q.Add(1.0, 'C');
  }

  /** Equal times pop in insertion order: B (0.5), then A and C (both 1.0)
      in the order they were added; a fourth pop finds the queue empty. */
  method PopOrder() returns (r1: Result<(real, char), QueueError>, r2: Result<(real, char), QueueError>,
                             r3: Result<(real, char), QueueError>, r4: Result<(real, char), QueueError>)
    ensures r1 == Ok((0.5, 'B')) && r2 == Ok((1.0, 'A')) && r3 == Ok((1.0, 'C'))
    ensures r4 == Err(KeyError("pop from an empty task queue"))
  {
    var q, a, b, c := ThreeTasks();
    r1 := PopKnown(q, b);
    r2 := PopKnown(q, a);
    r3 := PopKnown(q, c);
    ghost var p;
    r4, p := q.Pop();
  }
}
