/** `SystemClock` (clock.py) taken one sequential step at a time: the
    conversion between elapsed seconds and 32.32 fixed-point OSC time tags
    (the NTP timestamp format of section 6 of RFC 5905), the scheduler queue
    with its insertion and wake-up rule, the guards against scheduling at
    infinity, one drain pass of the run loop, `clear` and the one-instance
    rule. Threads, waits and the wall clock are left out: the sampled "now"
    and what each task answers when resumed are parameters. */
module SystemClock {
  import opened Wrappers

  // ----- time tags -------------------------------------------------------

  /** `_SECONDS_TO_OSC`, 2^32. */
  const SecondsToOsc: real := 4294967296.0

  /** `_OSC_TO_SECONDS`: the double nearest to 2.328306436538696e-10 is
      (2^53 - 1) / 2^85, one unit in the last place below 2^-32. */
  const OscToSeconds: real := 9007199254740991.0 / 38685626227668133590597632.0

  /** One OSC tick in seconds, 2^-32. */
  const Tick: real := 1.0 / 4294967296.0

  /** Python's `int()` on a float: truncation toward zero. */
  function Trunc(x: real): (n: int)
    ensures x >= 0.0 ==> n as real <= x < n as real + 1.0
    ensures x <= 0.0 ==> n as real - 1.0 < x <= n as real
  {
    if x >= 0.0 then x.Floor else -((-x).Floor)
  }

  /** `elapsed_time_to_osc`: seconds scaled to ticks, truncated, plus the
      clock's offset. */
  function ElapsedToOsc(elapsed: real, offset: int): (osc: int)
    ensures elapsed >= 0.0 ==> offset <= osc && (osc - offset) as real <= elapsed * SecondsToOsc < (osc - offset + 1) as real
    ensures elapsed <= 0.0 ==> osc <= offset && (osc - offset - 1) as real < elapsed * SecondsToOsc <= (osc - offset) as real
  {
    Trunc(elapsed * SecondsToOsc) + offset
  }

  /** `osc_to_elapsed_time`: ticks relative to the offset, scaled back. */
  function OscToElapsed(osc: int, offset: int): (elapsed: real)
    ensures osc == offset ==> elapsed == 0.0
    ensures osc > offset ==> elapsed > 0.0
    ensures osc < offset ==> elapsed < 0.0
  {
    (osc - offset) as real * OscToSeconds
  }

  /** From a non-negative elapsed time to a tag and back, the time comes back
      no later than it was, and less than one tick (plus the scale error of
      the constant, e / 2^53) earlier; a positive time always comes back
      strictly earlier. */
  lemma RoundTripNotLater(e: real, offset: int)
    requires e >= 0.0
    ensures var t := OscToElapsed(ElapsedToOsc(e, offset), offset);
      && t <= e
      && e - t < Tick + e / 9007199254740992.0
      && (e > 0.0 ==> t < e)
  {
    var n := Trunc(e * SecondsToOsc);
    assert ElapsedToOsc(e, offset) - offset == n;
    assert n >= 0;
  }

  /** Truncation is toward zero, so a negative time comes back no earlier
      than it was. */
  lemma RoundTripNotEarlier(e: real, offset: int)
    requires e <= 0.0
    ensures var t := OscToElapsed(ElapsedToOsc(e, offset), offset);
      && e <= t
      && t - e < Tick - e / 9007199254740992.0
  {
    var n := Trunc(e * SecondsToOsc);
    assert ElapsedToOsc(e, offset) - offset == n;
    assert n <= 0;
  }

  /** Later elapsed times never get earlier tags. */
  lemma ElapsedToOscMonotone(e1: real, e2: real, offset: int)
    requires e1 <= e2
    ensures ElapsedToOsc(e1, offset) <= ElapsedToOsc(e2, offset)
  {
  }

  // ----- the scheduler queue ---------------------------------------------

  /** A schedulable task. A `TimeThread` carries `next_beat`, the time it is
      queued for. */
  class Routine {
    const isTimeThread: bool
    var nextBeat: Option<real>

    constructor (isTimeThread: bool)
      ensures this.isTimeThread == isTimeThread && nextBeat == None
    {
      this.isTimeThread := isTimeThread;
      nextBeat := None;
    }
  }

  /** What resuming a task with `next()` gives: a number that is not a bool
      (the delay to its next run), any other value, StopIteration, or any
      other exception. */
  datatype Reply = Delay(delta: real) | Other | Stopped | Raised

  /** A queue item `(secs, task)`. */
  type Item = (real, Routine)

  datatype ClockError =
    | InvalidSchedule(message: string)
    | AlreadyInitialized(message: string)
    | NoInstance(message: string)

  /** The AttributeError a class-level call raises before any clock exists. */
  const NoInstanceMessage := "'NoneType' object has no attribute '_sched_add'"

  /** A scheduling time as the float the caller passes: finite, or +inf. */
  datatype Time = Finite(secs: real) | Infinity

  /** The priority queue's order: by time. Items with equal times are
      ordered by comparing the tasks, which is left unspecified. */
  predicate Sorted(q: seq<Item>) {
    forall i, j :: 0 <= i < j < |q| ==> q[i].0 <= q[j].0
  }

  /** `q` with `x` placed at index `i`. */
  function InsertAt(q: seq<Item>, i: nat, x: Item): (r: seq<Item>)
    requires i <= |q|
    ensures |r| == |q| + 1 && multiset(r) == multiset(q) + multiset{x}
  {
    assert q == q[..i] + q[i..];
    q[..i] + [x] + q[i..]
  }

  /** The number of leading items not later than `t`. */
  function CountNotAfter(q: seq<Item>, t: real): (n: nat)
    ensures n <= |q|
  {
    if q == [] || q[0].0 > t then 0 else 1 + CountNotAfter(q[1..], t)
  }

  /** Placing `x` after the items not later than its time keeps a sorted
      queue sorted. */
  lemma {:induction false} SortedInsertion(q: seq<Item>, x: Item)
    requires Sorted(q)
    ensures Sorted(InsertAt(q, CountNotAfter(q, x.0), x))
  {
    CountNotAfterSplits(q, x.0);
  }

  lemma {:induction false} CountNotAfterSplits(q: seq<Item>, t: real)
    requires Sorted(q)
    ensures forall j :: 0 <= j < CountNotAfter(q, t) ==> q[j].0 <= t
    ensures forall j :: CountNotAfter(q, t) <= j < |q| ==> q[j].0 > t
  {
    if q != [] && q[0].0 <= t {
      assert Sorted(q[1..]);
      CountNotAfterSplits(q[1..], t);
    }
  }

  /** The time `_sched_add` compares the head against: the head's time, or
      -1e10 for an empty queue. */
  function HeadTime(q: seq<Item>): real {
    if q == [] then -10000000000.0 else q[0].0
  }

  /** Adding an item at `secs` changes the head's time: it goes before the
      head, or an empty queue gets a time other than the placeholder. */
  predicate Wakes(q: seq<Item>, secs: real) {
    if q == [] then secs != -10000000000.0 else secs < q[0].0
  }

  /** The item is due at the sampled `now` for a clock started at `t0`. */
  predicate Due(now: real, t0: real, secs: real) {
    now >= t0 + secs
  }

  /** The items the drain pass puts back: each fired item whose task answered
      a delay returns at its scheduled time plus that delay. */
  function Requeued(fired: seq<Item>, replies: seq<Reply>): (r: seq<Item>)
    requires |fired| <= |replies|
    ensures |r| <= |fired|
  {
    if fired == [] then []
    else
      var k := |fired| - 1;
      Requeued(fired[..k], replies) + Back(fired[k], replies[k])
  }

  /** What goes back into the queue after `item` fires and its task answers
      `reply`: the task at the item's own time plus the delay, or nothing. */
  function Back(item: Item, reply: Reply): (r: seq<Item>)
    ensures |r| <= 1
  {
    if reply.Delay? then [(item.0 + reply.delta, item.1)] else []
  }

  /** A TimeThread's `next_beat` after it fired with `reply`: the time it
      was put back at, or `None` when it was not put back. */
  function BeatAfter(item: Item, reply: Reply): (b: Option<real>)
    ensures b.Some? <==> |Back(item, reply)| == 1
    ensures b.Some? ==> Back(item, reply) == [(b.value, item.1)]
  {
    if reply.Delay? then Some(item.0 + reply.delta) else None
  }

  /** The k-th fired item is the last firing of its task in the pass. */
  predicate LastFiring(fired: seq<Item>, k: int)
    requires 0 <= k < |fired|
  {
    forall j :: k < j < |fired| ==> fired[j].1 != fired[k].1
  }

  /** The `next_beat` each fired TimeThread is left with: the one its last
      firing in `fired` set. */
  function LastBeats(fired: seq<Item>, replies: seq<Reply>): map<Routine, Option<real>>
    requires |fired| <= |replies|
  {
    if fired == [] then map[]
    else
      var k := |fired| - 1;
      var m := LastBeats(fired[..k], replies);
      if fired[k].1.isTimeThread then m[fired[k].1 := BeatAfter(fired[k], replies[k])] else m
  }

  lemma LastBeatsSnoc(fired: seq<Item>, item: Item, replies: seq<Reply>)
    requires |fired| < |replies|
    ensures LastBeats(fired + [item], replies) ==
      if item.1.isTimeThread then LastBeats(fired, replies)[item.1 := BeatAfter(item, replies[|fired|])]
      else LastBeats(fired, replies)
  {
    assert (fired + [item])[..|fired|] == fired;
  }

  /** During a drain pass: every fired TimeThread holds the `next_beat` of
      its last firing, and every other task the one it had at the start. */
  ghost predicate BeatsKept(fired: seq<Item>, replies: seq<Reply>, orig: map<Routine, Option<real>>)
    requires |fired| <= |replies|
    reads LastBeats(fired, replies).Keys, orig.Keys
  {
    && (forall r :: r in LastBeats(fired, replies) ==> r.nextBeat == LastBeats(fired, replies)[r])
    && (forall r :: r in orig && r !in LastBeats(fired, replies) ==> r.nextBeat == orig[r])
  }

  /** Only fired TimeThreads are in `LastBeats`. */
  lemma {:induction false} LastBeatsFired(fired: seq<Item>, replies: seq<Reply>, r: Routine)
    requires |fired| <= |replies| && r in LastBeats(fired, replies)
    ensures r.isTimeThread && exists k :: 0 <= k < |fired| && fired[k].1 == r
  {
    var n := |fired| - 1;
    var prior := fired[..n];
    LastBeatsSnoc(prior, fired[n], replies);
    assert fired == prior + [fired[n]];
    if r != fired[n].1 || !fired[n].1.isTimeThread {
      LastBeatsFired(prior, replies, r);
      var k :| 0 <= k < |prior| && prior[k].1 == r;
      assert fired[k] == prior[k];
    }
  }

  /** Every fired TimeThread is in `LastBeats`, with the `next_beat` its
      last firing set. */
  lemma {:induction false} LastBeatsLast(fired: seq<Item>, replies: seq<Reply>, k: nat)
    requires |fired| <= |replies| && k < |fired| && fired[k].1.isTimeThread && LastFiring(fired, k)
    ensures fired[k].1 in LastBeats(fired, replies)
    ensures LastBeats(fired, replies)[fired[k].1] == BeatAfter(fired[k], replies[k])
  {
    var n := |fired| - 1;
    var prior := fired[..n];
    LastBeatsSnoc(prior, fired[n], replies);
    assert fired == prior + [fired[n]];
    if k < n {
      assert fired[n].1 != fired[k].1 && fired[k] == prior[k];
      assert LastFiring(prior, k);
      LastBeatsLast(prior, replies, k);
    }
  }

  /** No task answered a negative delay. */
  predicate NoNegativeDelay(replies: seq<Reply>) {
    forall k :: 0 <= k < |replies| && replies[k].Delay? ==> replies[k].delta >= 0.0
  }

  /** Every fired item was due at `now`. */
  predicate AllDue(now: real, t0: real, fired: seq<Item>) {
    forall k :: 0 <= k < |fired| ==> Due(now, t0, fired[k].0)
  }

  lemma AllDueSnoc(now: real, t0: real, fired: seq<Item>, item: Item)
    requires AllDue(now, t0, fired) && Due(now, t0, item.0)
    ensures AllDue(now, t0, fired + [item])
  {
    forall k | 0 <= k < |fired| + 1 ensures Due(now, t0, (fired + [item])[k].0) {
      if k < |fired| {
        assert (fired + [item])[k] == fired[k];
      }
    }
  }

  /** The tasks held by a queue. */
  function TasksOf(q: seq<Item>): set<Routine> {
    set x | x in q :: x.1
  }

  class SystemClock {
    var queue: seq<Item>
    /** How many times `_sched_cond.notify_all()` has woken the run loop. */
    var wakeups: nat
    /** `_time_of_initialization`, the wall-clock time the clock started. */
    const t0: real
    /** `_elapsed_osc_offset`. */
    var elapsedOscOffset: int

    ghost predicate Valid()
      reads this
    {
      Sorted(queue)
    }

    /** A clock as `__new__` leaves it: empty queue, started at `t0`. */
    constructor (t0: real, offset: int)
      ensures Valid() && queue == [] && wakeups == 0 && this.t0 == t0 && elapsedOscOffset == offset
    {
      queue := [];
      wakeups := 0;
      this.t0 := t0;
      elapsedOscOffset := offset;
    }

    /** `_sched_add`: the item joins the queue in time order; a TimeThread
        records the time in `next_beat`; the run loop is woken only when the
        head's time has changed. */
    method SchedAdd(secs: real, task: Routine)
      requires Valid()
      modifies this, task
      ensures Valid() && elapsedOscOffset == old(elapsedOscOffset)
      ensures multiset(queue) == multiset(old(queue)) + multiset{(secs, task)}
      ensures task.isTimeThread ==> task.nextBeat == Some(secs)
      ensures !task.isTimeThread ==> task.nextBeat == old(task.nextBeat)
      ensures wakeups == old(wakeups) + if HeadTime(queue) != HeadTime(old(queue)) then 1 else 0
      ensures HeadTime(queue) != HeadTime(old(queue)) <==> Wakes(old(queue), secs)
    {
      var prevTime := HeadTime(queue);
      var i := CountNotAfter(queue, secs);
      SortedInsertion(queue, (secs, task));
      HeadAfterInsert(queue, i, (secs, task));
      queue := InsertAt(queue, i, (secs, task));
      if task.isTimeThread {
        task.nextBeat := Some(secs);
      }
      if HeadTime(queue) != prevTime {
        wakeups := wakeups + 1;
      }
    }

    /** `sched(delta, item)`: the target is the calling thread's `seconds`
        plus `delta`. A target at infinity raises before the queue is
        touched; otherwise the item is added and the run loop woken. */
    method Sched(seconds: real, delta: Time, task: Routine) returns (r: Result<(), ClockError>)
      requires Valid()
      modifies this, task
      ensures Valid() && elapsedOscOffset == old(elapsedOscOffset)
      ensures r.Err? <==> delta == Infinity
      ensures r.Err? ==> r.error == InvalidSchedule("won't schedule to infinity") && unchanged(this, task)
      ensures r.Ok? ==> multiset(queue) == multiset(old(queue)) + multiset{(seconds + delta.secs, task)}
      ensures r.Ok? && task.isTimeThread ==> task.nextBeat == Some(seconds + delta.secs)
      ensures r.Ok? && !task.isTimeThread ==> task.nextBeat == old(task.nextBeat)
      ensures r.Ok? ==> wakeups == old(wakeups) + 1 + if Wakes(old(queue), seconds + delta.secs) then 1 else 0
    {
      if delta == Infinity {
        return Err(InvalidSchedule("won't schedule to infinity"));
      }
      SchedAdd(seconds + delta.secs, task);
      wakeups := wakeups + 1;
      r := Ok(());
    }

    /** `sched_abs(time, item)`: the same guard, at an absolute time. */
    method SchedAbs(time: Time, task: Routine) returns (r: Result<(), ClockError>)
      requires Valid()
      modifies this, task
      ensures Valid() && elapsedOscOffset == old(elapsedOscOffset)
      ensures r.Err? <==> time == Infinity
      ensures r.Err? ==> r.error == InvalidSchedule("sched_abs won't schedule to infinity") && unchanged(this, task)
      ensures r.Ok? ==> multiset(queue) == multiset(old(queue)) + multiset{(time.secs, task)}
      ensures r.Ok? && task.isTimeThread ==> task.nextBeat == Some(time.secs)
      ensures r.Ok? && !task.isTimeThread ==> task.nextBeat == old(task.nextBeat)
      ensures r.Ok? ==> wakeups == old(wakeups) + 1 + if Wakes(old(queue), time.secs) then 1 else 0
    {
      if time == Infinity {
        return Err(InvalidSchedule("sched_abs won't schedule to infinity"));
      }
      SchedAdd(time.secs, task);
      wakeups := wakeups + 1;
      r := Ok(());
    }

    /** The head leaves the queue (`heappop`); a TimeThread's `next_beat`
        is cleared while it runs. */
    method TakeHead() returns (item: Item)
      requires Valid() && queue != []
      modifies this, queue[0].1
      ensures Valid() && item == old(queue[0]) && queue == old(queue)[1..]
      ensures wakeups == old(wakeups) && elapsedOscOffset == old(elapsedOscOffset)
      ensures item.1.nextBeat == if item.1.isTimeThread then None else old(item.1.nextBeat)
    {
      item := queue[0];
      queue := queue[1..];
      if item.1.isTimeThread {
        item.1.nextBeat := None;
      }
    }

    /** One turn of the drain loop: the head is taken off; a TimeThread's
        `next_beat` is cleared; the task is resumed, and a delay puts it back
        at its scheduled time plus the delay, not at `now` plus the delay.
        Any other answer, StopIteration or an exception drops it. */
    method FireHead(reply: Reply) returns (item: Item)
      requires Valid() && queue != []
      modifies this, queue[0].1
      ensures Valid() && elapsedOscOffset == old(elapsedOscOffset)
      ensures item == old(queue[0])
      ensures multiset(queue) == multiset(old(queue)[1..]) + multiset(Back(item, reply))
      ensures wakeups == old(wakeups) + if reply.Delay? && Wakes(old(queue)[1..], item.0 + reply.delta) then 1 else 0
      ensures item.1.isTimeThread ==> item.1.nextBeat == BeatAfter(item, reply)
      ensures !item.1.isTimeThread ==> item.1.nextBeat == old(item.1.nextBeat)
      ensures TasksOf(queue) <= TasksOf(old(queue))
    {
      ghost var before := queue;
      item := TakeHead();
      if reply.Delay? {
        SchedAdd(item.0 + reply.delta, item.1);
      }
      TasksAfterFire(before, queue, reply);
    }

    /** One drain pass at the sampled `now`: items are fired while the head
        is due. `replies[k]` is what the k-th fired task answers; the pass
        also ends when the replies run out. Every fired item was due; the
        pass stops early only at an empty queue or a head not yet due; what
        leaves the queue is exactly what was fired, less what was put back;
        without negative delays the items fire in time order; each fired
        TimeThread keeps the `next_beat` of its last firing; the run loop is
        woken at most once per item put back; the OSC offset stays. */
    method DrainPass(now: real, replies: seq<Reply>) returns (fired: seq<Item>)
      requires Valid()
      modifies this, TasksOf(queue)
      ensures Valid() && elapsedOscOffset == old(elapsedOscOffset)
      ensures |fired| <= |replies|
      ensures AllDue(now, t0, fired)
      ensures |fired| < |replies| ==> queue == [] || !Due(now, t0, queue[0].0)
      ensures multiset(queue) + multiset(fired) == multiset(old(queue)) + multiset(Requeued(fired, replies))
      ensures NoNegativeDelay(replies) ==> forall i, j :: 0 <= i < j < |fired| ==> fired[i].0 <= fired[j].0
      ensures old(wakeups) <= wakeups <= old(wakeups) + |Requeued(fired, replies)|
      ensures forall r :: r in LastBeats(fired, replies) ==> r.nextBeat == LastBeats(fired, replies)[r]
      ensures forall r :: r in TasksOf(old(queue)) && r !in LastBeats(fired, replies) ==> r.nextBeat == old(r.nextBeat)
    {
      ghost var tasks := TasksOf(queue);
      ghost var orig := map r | r in tasks :: r.nextBeat;
      fired := [];
      while queue != [] && Due(now, t0, queue[0].0) && |fired| < |replies|
        invariant Valid() && |fired| <= |replies|
        invariant TasksOf(queue) <= tasks
        invariant AllDue(now, t0, fired)
        invariant multiset(queue) + multiset(fired) == multiset(old(queue)) + multiset(Requeued(fired, replies))
        invariant NoNegativeDelay(replies) ==> FiredInOrder(fired, queue)
        invariant elapsedOscOffset == old(elapsedOscOffset)
        invariant old(wakeups) <= wakeups <= old(wakeups) + |Requeued(fired, replies)|
        invariant BeatsKept(fired, replies, orig)
        decreases |replies| - |fired|
      {
        assert queue[0] in queue;
        var item := DrainTurn(now, replies, fired, old(queue), tasks, orig);
        fired := fired + [item];
      }
    }

    /** One turn of the drain loop: the due head is fired with the next
        reply, and what the pass keeps account of carries over to the
        longer list of fired items. */
    method DrainTurn(now: real, replies: seq<Reply>, fired: seq<Item>, ghost start: seq<Item>, ghost tasks: set<Routine>,
                     ghost orig: map<Routine, Option<real>>)
      returns (item: Item)
      requires Valid() && queue != [] && Due(now, t0, queue[0].0) && |fired| < |replies|
      requires TasksOf(queue) <= tasks && AllDue(now, t0, fired)
      requires multiset(queue) + multiset(fired) == multiset(start) + multiset(Requeued(fired, replies))
      requires NoNegativeDelay(replies) ==> FiredInOrder(fired, queue)
      requires BeatsKept(fired, replies, orig)
      modifies this, queue[0].1
      ensures Valid() && elapsedOscOffset == old(elapsedOscOffset) && item == old(queue[0])
      ensures TasksOf(queue) <= tasks && AllDue(now, t0, fired + [item])
      ensures multiset(queue) + multiset(fired + [item]) == multiset(start) + multiset(Requeued(fired + [item], replies))
      ensures NoNegativeDelay(replies) ==> FiredInOrder(fired + [item], queue)
      ensures BeatsKept(fired + [item], replies, orig)
      ensures old(wakeups) <= wakeups <= old(wakeups) + |Requeued(fired + [item], replies)| - |Requeued(fired, replies)|
    {
      ghost var before := queue;
      item := FireHead(replies[|fired|]);
      AllDueSnoc(now, t0, fired, item);
      DrainAccounting(start, before, queue, fired, item, replies);
      if NoNegativeDelay(replies) {
        OrderAfterFire(fired, before, queue, item, replies[|fired|]);
      }
      RequeuedSnoc(fired, item, replies);
      LastBeatsSnoc(fired, item, replies);
      forall r | r in LastBeats(fired + [item], replies)
        ensures r.nextBeat == LastBeats(fired + [item], replies)[r]
      {
        if r != item.1 {
          LastBeatsFired(fired, replies, r);
        }
      }
      forall r | r in orig && r !in LastBeats(fired + [item], replies)
        ensures r.nextBeat == orig[r]
      {
        assert r !in LastBeats(fired, replies);
      }
    }

    /** The head after a sorted insertion: the new item when it went first,
        the old head otherwise. */
    lemma HeadAfterInsert(q: seq<Item>, i: nat, x: Item)
      requires Sorted(q) && i <= |q| && Sorted(InsertAt(q, i, x))
      ensures HeadTime(InsertAt(q, i, x)) != HeadTime(q) <==> Wakes(q, x.0)
    {
      var r := InsertAt(q, i, x);
      if q != [] {
        if i == 0 {
          assert r[0] == x && r[1] == q[0];
        } else {
          assert r[0] == q[0] && r[i] == x;
        }
      }
    }
  }

  /** The class-level `_instance` slot that makes the clock a singleton. */
  class Registry {
    var instance: SystemClock?

    constructor ()
      ensures instance == null
    {
      instance := null;
    }

    /** `SystemClock()`: the first call creates the one clock; any later
        call raises instead of handing back the existing one. */
    method New(t0: real, offset: int) returns (r: Result<SystemClock, ClockError>)
      modifies this
      ensures old(instance) == null ==>
        && r.Ok? && fresh(r.value) && instance == r.value
        && r.value.Valid() && r.value.queue == [] && r.value.t0 == t0
        && r.value.elapsedOscOffset == offset && r.value.wakeups == 0
      ensures old(instance) != null ==>
        && r == Err(AlreadyInitialized("there is one SystemClock instance already"))
        && instance == old(instance)
    {
      if instance == null {
        var clock := new SystemClock(t0, offset);
        instance := clock;
        return Ok(clock);
      }
      r := Err(AlreadyInitialized("there is one SystemClock instance already"));
    }

    /** `SystemClock.clear()`: with no clock, nothing happens; otherwise the
        queue is drained item by item and the run loop woken. */
    method Clear()
      requires instance != null ==> instance.Valid()
      modifies instance
      ensures instance == old(instance)
      ensures instance != null ==>
        && instance.Valid() && instance.queue == [] && instance.wakeups == old(instance.wakeups) + 1
        && instance.elapsedOscOffset == old(instance.elapsedOscOffset)
    {
      if instance == null {
        return;
      }
      var clock := instance;
      while clock.queue != []
        invariant clock.Valid() && clock.wakeups == old(clock.wakeups)
        invariant clock.elapsedOscOffset == old(clock.elapsedOscOffset)
        decreases |clock.queue|
      {
        clock.queue := clock.queue[1..];
      }
      clock.wakeups := clock.wakeups + 1;
    }

    /** `SystemClock.sched(delta, item)` called on the class: the infinity
        check comes first; past it, a class with no clock yet fails on
        `cls._instance._sched_add` with an AttributeError on `None`. */
    method Sched(seconds: real, delta: Time, task: Routine) returns (r: Result<(), ClockError>)
      requires instance != null ==> instance.Valid()
      modifies instance, task
      ensures r.Err? <==> delta == Infinity || instance == null
      ensures delta == Infinity ==> r == Err(InvalidSchedule("won't schedule to infinity"))
      ensures delta != Infinity && instance == null ==> r == Err(NoInstance(NoInstanceMessage))
      ensures r.Err? ==> unchanged(task) && (instance != null ==> unchanged(instance))
      ensures instance != null ==> instance.Valid() && instance.elapsedOscOffset == old(instance.elapsedOscOffset)
      ensures r.Ok? ==>
        && multiset(instance.queue) == multiset(old(instance.queue)) + multiset{(seconds + delta.secs, task)}
        && (task.isTimeThread ==> task.nextBeat == Some(seconds + delta.secs))
        && (!task.isTimeThread ==> task.nextBeat == old(task.nextBeat))
        && instance.wakeups == old(instance.wakeups) + 1 + if Wakes(old(instance.queue), seconds + delta.secs) then 1 else 0
    {
      if delta == Infinity {
        return Err(InvalidSchedule("won't schedule to infinity"));
      }
      if instance == null {
        return Err(NoInstance(NoInstanceMessage));
      }
      r := instance.Sched(seconds, delta, task);
    }

    /** `SystemClock.sched_abs(time, item)` called on the class, with the
        same order of checks. */
    method SchedAbs(time: Time, task: Routine) returns (r: Result<(), ClockError>)
      requires instance != null ==> instance.Valid()
      modifies instance, task
      ensures r.Err? <==> time == Infinity || instance == null
      ensures time == Infinity ==> r == Err(InvalidSchedule("sched_abs won't schedule to infinity"))
      ensures time != Infinity && instance == null ==> r == Err(NoInstance(NoInstanceMessage))
      ensures r.Err? ==> unchanged(task) && (instance != null ==> unchanged(instance))
      ensures instance != null ==> instance.Valid() && instance.elapsedOscOffset == old(instance.elapsedOscOffset)
      ensures r.Ok? ==>
        && multiset(instance.queue) == multiset(old(instance.queue)) + multiset{(time.secs, task)}
        && (task.isTimeThread ==> task.nextBeat == Some(time.secs))
        && (!task.isTimeThread ==> task.nextBeat == old(task.nextBeat))
        && instance.wakeups == old(instance.wakeups) + 1 + if Wakes(old(instance.queue), time.secs) then 1 else 0
    {
      if time == Infinity {
        return Err(InvalidSchedule("sched_abs won't schedule to infinity"));
      }
      if instance == null {
        return Err(NoInstance(NoInstanceMessage));
      }
      r := instance.SchedAbs(time, task);
    }
  }

  /** A second construction fails and leaves the first clock in place. */
  method SecondClockRaises() returns (first: Result<SystemClock, ClockError>, second: Result<SystemClock, ClockError>)
    ensures first.Ok? && second == Err(AlreadyInitialized("there is one SystemClock instance already"))
  {
    var registry := new Registry();
    first := registry.New(0.0, 0);
    second := registry.New(1.0, 0);
  }

  /** Appending one fired item appends at most its requeued copy. */
  lemma RequeuedSnoc(fired: seq<Item>, item: Item, replies: seq<Reply>)
    requires |fired| < |replies|
    ensures Requeued(fired + [item], replies) == Requeued(fired, replies) + Back(item, replies[|fired|])
  {
    assert (fired + [item])[..|fired|] == fired;
  }

  /** Firing the head only puts back a task the queue already held. */
  lemma TasksAfterFire(before: seq<Item>, after: seq<Item>, reply: Reply)
    requires before != []
    requires multiset(after) == multiset(before[1..]) + multiset(Back(before[0], reply))
    ensures TasksOf(after) <= TasksOf(before)
  {
    forall x | x in after ensures x.1 in TasksOf(before) {
      assert x in multiset(after);
      if x in multiset(before[1..]) {
        assert x in before[1..];
      } else {
        assert x.1 == before[0].1;
      }
    }
  }

  /** The items fired so far are in time order, and none still queued is
      earlier than the last of them. */
  ghost predicate FiredInOrder(fired: seq<Item>, queue: seq<Item>) {
    && (forall i, j :: 0 <= i < j < |fired| ==> fired[i].0 <= fired[j].0)
    && (fired != [] ==> forall x :: x in queue ==> fired[|fired| - 1].0 <= x.0)
  }

  /** Firing the head of a sorted queue with a non-negative delay keeps the
      fired items in order. */
  lemma OrderAfterFire(fired: seq<Item>, before: seq<Item>, after: seq<Item>, item: Item, reply: Reply)
    requires Sorted(before) && before != [] && item == before[0]
    requires FiredInOrder(fired, before)
    requires multiset(after) == multiset(before[1..]) + multiset(Back(item, reply))
    requires reply.Delay? ==> reply.delta >= 0.0
    ensures FiredInOrder(fired + [item], after)
  {
    forall x | x in after ensures item.0 <= x.0 {
      assert x in multiset(after);
      if x in multiset(before[1..]) {
        var j :| 0 <= j < |before[1..]| && before[1..][j] == x;
        assert before[j + 1] == x;
      }
    }
    if fired != [] {
      assert fired[|fired| - 1].0 <= item.0 by {
        assert item in before;
      }
    }
    var f := fired + [item];
    forall i, j | 0 <= i < j < |f| ensures f[i].0 <= f[j].0 {
      if j == |fired| && i < |fired| - 1 {
        assert fired[i].0 <= fired[|fired| - 1].0;
      }
    }
  }

  /** Firing one item keeps the drain pass's books: queue plus fired equals
      the starting queue plus what was put back. */
  lemma DrainAccounting(start: seq<Item>, before: seq<Item>, after: seq<Item>, fired: seq<Item>,
                        item: Item, replies: seq<Reply>)
    requires |fired| < |replies| && before != [] && item == before[0]
    requires multiset(before) + multiset(fired) == multiset(start) + multiset(Requeued(fired, replies))
    requires multiset(after) == multiset(before[1..]) + multiset(Back(item, replies[|fired|]))
    ensures multiset(after) + multiset(fired + [item]) ==
      multiset(start) + multiset(Requeued(fired + [item], replies))
  {
    RequeuedSnoc(fired, item, replies);
    HeadSplit(before);
    Shuffle(multiset(before[1..]), multiset(before), multiset(fired), multiset(start),
            multiset(Requeued(fired, replies)), multiset(Back(item, replies[|fired|])), item);
  }

  lemma HeadSplit<T>(s: seq<T>)
    requires s != []
    ensures multiset(s) == multiset(s[1..]) + multiset{s[0]}
  {
    assert s == [s[0]] + s[1..];
  }

  /** The bookkeeping behind `DrainAccounting`, on plain multisets. */
  lemma Shuffle<T>(rest: multiset<T>, before: multiset<T>, fired: multiset<T>, start: multiset<T>,
                   requeued: multiset<T>, back: multiset<T>, x: T)
    requires before == rest + multiset{x}
    requires before + fired == start + requeued
    ensures (rest + back) + (fired + multiset{x}) == start + (requeued + back)
  {
    var lhs := (rest + back) + (fired + multiset{x});
    var rhs := start + (requeued + back);
    forall y ensures lhs[y] == rhs[y] {
      assert (before + fired)[y] == (start + requeued)[y];
    }
  }
}
