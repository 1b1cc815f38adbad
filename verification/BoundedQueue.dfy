/**
 * `BoundedQueue` (include/bounded_queue.hpp): the ring of optional slots as a
 * value, the queue object that updates it in place, and the step machine of any
 * number of blocking, timed and non-blocking callers over the two condition
 * variables.
 */
module BoundedQueueModel {
  import opened Common

  // ---- The ring -----------------------------------------------------------

  datatype Buffer<T> = Buffer(slots: seq<Option<T>>, head: nat, tail: nat, size: nat, closed: bool) {

    function Capacity(): nat { |slots| }

    predicate WellIndexed() { 0 < |slots| && head < |slots| && tail < |slots| && size <= |slots| }

    /** Distance of slot `j` behind `tail_`. */
    function Age(j: nat): (n: nat)
      requires tail < |slots| && j < |slots|
      ensures n < |slots| && Wrap(tail + n, |slots|) == j
    {
      if tail <= j then j - tail else j + |slots| - tail
    }

    ghost predicate Valid() {
      && WellIndexed()
      && head == Wrap(tail + size, |slots|)
      && forall j :: 0 <= j < |slots| ==> (slots[j].Some? <==> Age(j) < size)
    }

    /** The queued values, oldest first. */
    ghost function Contents(): (c: seq<T>)
      requires Valid()
      ensures |c| == size
    {
      seq(size, i requires 0 <= i < size =>
        assert Age(Wrap(tail + i, |slots|)) == i; slots[Wrap(tail + i, |slots|)].value)
    }

    /** What every accepted push does once it has the lock. */
    function Enqueue(x: T): Buffer<T>
      requires WellIndexed()
    {
      this.(slots := slots[head := Some(x)], head := Wrap(head + 1, |slots|), size := size + 1)
    }

    /** `pop_locked()`: the value moved out and the ring left behind. */
    function PopLocked(): (Option<T>, Buffer<T>)
      requires WellIndexed() && size > 0
    {
      (slots[tail], this.(slots := slots[tail := None], tail := Wrap(tail + 1, |slots|), size := size - 1))
    }
  }

  function EmptyBuffer<T>(capacity: nat): Buffer<T>
  {
    Buffer(seq(capacity, i => None), 0, 0, 0, false)
  }

  lemma EnqueueAppends<T>(b: Buffer<T>, x: T)
    requires b.Valid() && b.size < b.Capacity()
    ensures b.slots[b.head].None?
    ensures b.Enqueue(x).Valid() && b.Enqueue(x).Contents() == b.Contents() + [x]
  {
    var b' := b.Enqueue(x);
    assert b.Age(b.head) == b.size;
    forall j | 0 <= j < b.Capacity() ensures b'.Age(j) == b.Age(j) {}
    forall i | 0 <= i < b.size ensures b'.Contents()[i] == b.Contents()[i] {
      assert b.Age(Wrap(b.tail + i, b.Capacity())) == i;
    }
    assert b'.Contents() == b.Contents() + [x];
  }

  lemma PopRemovesOldest<T>(b: Buffer<T>)
    requires b.Valid() && b.size > 0
    ensures var (x, b') := b.PopLocked();
            b'.Valid() && x.Some? && b.Contents() == [x.value] + b'.Contents()
  {
    var (x, b') := b.PopLocked();
    assert b.Age(b.tail) == 0;
    forall j | 0 <= j < b.Capacity()
      ensures b'.Age(j) == if j == b.tail then b.Capacity() - 1 else b.Age(j) - 1 {}
    assert b'.Valid();
    forall i | 0 <= i < b'.size ensures b'.Contents()[i] == b.Contents()[i + 1] {
      assert Wrap(b'.tail + i, b.Capacity()) == Wrap(b.tail + (i + 1), b.Capacity());
      assert b.Age(Wrap(b.tail + (i + 1), b.Capacity())) == i + 1;
    }
    assert b.Contents() == [x.value] + b'.Contents();
  }

  // ---- The queue object ---------------------------------------------------

  class BoundedQueue<T> {
    const capacity: nat
    const buffer: array<Option<T>>
    var head: nat
    var tail: nat
    var size: nat
    var closed: bool

    ghost function Abs(): Buffer<T>
      reads this, buffer
    {
      Buffer(buffer[..], head, tail, size, closed)
    }

    ghost predicate Valid()
      reads this, buffer
    {
      buffer.Length == capacity && Abs().Valid()
    }

    constructor (capacity: nat)
      requires capacity > 0   // zero is refused in `Create`
      ensures Valid() && fresh(buffer) && this.capacity == capacity
      ensures Abs().Contents() == [] && !closed
    {
      this.capacity := capacity;
      buffer := new Option<T>[capacity](i => None);
      head, tail, size, closed := 0, 0, 0, false;
    }

    /** Construction; a zero capacity throws `std::invalid_argument`. */
    static method Create(capacity: nat) returns (q: BoundedQueue?<T>)
      ensures q == null <==> capacity == 0
      ensures q != null ==> fresh(q) && q.Valid() && q.capacity == capacity && q.Abs().Contents() == [] && !q.closed
    {
      if capacity == 0 { return null; }
      q := new BoundedQueue(capacity);
    }

    method Enqueue(x: T)
      requires Valid() && size < capacity
      modifies this, buffer
      ensures Valid() && Abs() == old(Abs()).Enqueue(x)
      ensures Abs().Contents() == old(Abs().Contents()) + [x] && closed == old(closed)
    {
      EnqueueAppends(Abs(), x);
      buffer[head] := Some(x);
      WrapIsMod(head + 1, capacity);
      head := (head + 1) % capacity;
      size := size + 1;
      assert Abs() == old(Abs()).Enqueue(x);
    }

    method PopLocked() returns (r: Option<T>)
      requires Valid() && size > 0
      modifies this, buffer
      ensures Valid() && (r, Abs()) == old(Abs()).PopLocked()
      ensures r.Some? && old(Abs().Contents()) == [r.value] + Abs().Contents() && closed == old(closed)
    {
      PopRemovesOldest(Abs());
      r := buffer[tail];
      buffer[tail] := None;
      WrapIsMod(tail + 1, capacity);
      tail := (tail + 1) % capacity;
      size := size - 1;
      assert Abs() == old(Abs()).PopLocked().1;
    }

    /** `push` once its wait predicate holds. */
    method PushReady(x: T) returns (accepted: bool)
      requires Valid() && (size < capacity || closed)
      modifies this, buffer
      ensures Valid() && closed == old(closed) && accepted == !closed
      ensures Abs().Contents() == old(Abs().Contents()) + if accepted then [x] else []
    {
      if closed { return false; }
      Enqueue(x);
      return true;
    }

    method TryPush(x: T) returns (accepted: bool)
      requires Valid()
      modifies this, buffer
      ensures Valid() && closed == old(closed)
      ensures accepted <==> !closed && |old(Abs().Contents())| < capacity
      ensures Abs().Contents() == old(Abs().Contents()) + if accepted then [x] else []
    {
      if closed || size >= capacity { return false; }
      Enqueue(x);
      return true;
    }

    /** `pop` once its wait predicate holds, and `try_pop` at any time. */
    method TryPop() returns (r: Option<T>)
      requires Valid()
      modifies this, buffer
      ensures Valid() && closed == old(closed)
      ensures r.Some? <==> old(Abs().Contents()) != []
      ensures old(Abs().Contents()) == (if r.Some? then [r.value] else []) + Abs().Contents()
    {
      if size == 0 { return None; }
      r := PopLocked();
    }

    method Shutdown()
      requires Valid()
      modifies this
      ensures Valid() && closed && Abs() == old(Abs()).(closed := true)
      ensures Abs().Contents() == old(Abs().Contents())
    {
      closed := true;
    }
  }

  // ---- The concurrent machine ---------------------------------------------

  /** How a call waits: `try_*`, the blocking call, or `try_*_for`. */
  datatype Mode = Try | Blocking | Timed

  datatype Pc<T> =
    | Idle
    | PushParked(x: T, mode: Mode)                  // on `not_full_`
    | PushWoken(x: T, mode: Mode, expired: bool)    // left the wait set, lock not yet retaken
    | PopParked(mode: Mode)                         // on `not_empty_`
    | PopWoken(mode: Mode, expired: bool)

  predicate IsPushParked<T>(p: Pc<T>) { p.PushParked? }
  predicate IsPushWoken<T>(p: Pc<T>) { p.PushWoken? }
  predicate IsPopParked<T>(p: Pc<T>) { p.PopParked? }
  predicate IsPopWoken<T>(p: Pc<T>) { p.PopWoken? }

  datatype State<T> = State(buf: Buffer<T>, threads: seq<Pc<T>>, accepted: seq<T>, popped: seq<T>)

  /** A step holds the lock from one wait (or the call) to the next wait (or the
      return). `wake` is the waiter `notify_one` picks, when there is one. */
  datatype Event<T> =
    | PushCall(t: nat, x: T, mode: Mode, wake: nat)
    | PushResume(t: nat, wake: nat)
    | PopCall(t: nat, mode: Mode, wake: nat)
    | PopResume(t: nat, wake: nat)
    | Spurious(t: nat)
    | Timeout(t: nat)
    | Shutdown

  /** What the caller sees when the step ends. */
  datatype Outcome<T> = Waiting | Pushed(ok: bool) | Popped(item: Option<T>) | Silent

  function Init<T>(capacity: nat, n: nat): State<T>
  {
    State(EmptyBuffer(capacity), seq(n, i => Idle), [], [])
  }

  /** Taking a thread out of its wait set. */
  function Wake<T>(p: Pc<T>, expired: bool): Pc<T>
  {
    match p
    case PushParked(x, mode) => PushWoken(x, mode, expired)
    case PopParked(mode) => PopWoken(mode, expired)
    case _ => p
  }

  /** `notify_one` on the wait set `parked`: wakes `wake`, which must be waiting
      unless nobody is. */
  ghost function NotifyOne<T>(ts: seq<Pc<T>>, parked: Pc<T> -> bool, wake: nat): Option<seq<Pc<T>>>
  {
    if wake < |ts| && parked(ts[wake]) then Some(ts[wake := Wake(ts[wake], false)])
    else if exists i :: 0 <= i < |ts| && parked(ts[i]) then None
    else Some(ts)
  }

  function NotifyAll<T>(ts: seq<Pc<T>>): seq<Pc<T>>
  {
    seq(|ts|, i requires 0 <= i < |ts| => Wake(ts[i], false))
  }

  /** A producer holding the lock: `mayWait` is false for `try_push` and once the
      deadline has passed. */
  ghost function TryFinishPush<T>(s: State<T>, t: nat, x: T, mode: Mode, mayWait: bool, wake: nat)
    : Option<(State<T>, Outcome<T>)>
    requires s.buf.WellIndexed() && t < |s.threads|
  {
    if s.buf.closed then Some((s.(threads := s.threads[t := Idle]), Pushed(false)))
    else if s.buf.size < s.buf.Capacity() then
      match NotifyOne(s.threads[t := Idle], IsPopParked, wake)
      case None => None
      case Some(ts) => Some((State(s.buf.Enqueue(x), ts, s.accepted + [x], s.popped), Pushed(true)))
    else if mayWait then Some((s.(threads := s.threads[t := PushParked(x, mode)]), Waiting))
    else Some((s.(threads := s.threads[t := Idle]), Pushed(false)))
  }

  /** A consumer holding the lock. */
  ghost function TryFinishPop<T>(s: State<T>, t: nat, mode: Mode, mayWait: bool, wake: nat)
    : Option<(State<T>, Outcome<T>)>
    requires s.buf.Valid() && t < |s.threads|
  {
    if s.buf.size > 0 then
      match NotifyOne(s.threads[t := Idle], IsPushParked, wake)
      case None => None
      case Some(ts) =>
        var (r, b) := s.buf.PopLocked();
        PopRemovesOldest(s.buf);
        Some((State(b, ts, s.accepted, s.popped + [r.value]), Popped(r)))
    else if mayWait && !s.buf.closed then Some((s.(threads := s.threads[t := PopParked(mode)]), Waiting))
    else Some((s.(threads := s.threads[t := Idle]), Popped(None)))
  }

  /** The step, or `None` when it cannot happen now. */
  ghost function Step<T>(s: State<T>, e: Event<T>): Option<(State<T>, Outcome<T>)>
    requires s.buf.Valid()
  {
    match e
    case PushCall(t, x, mode, wake) =>
      if t < |s.threads| && s.threads[t].Idle? then TryFinishPush(s, t, x, mode, mode != Try, wake) else None
    case PushResume(t, wake) =>
      if t < |s.threads| && s.threads[t].PushWoken?
      then TryFinishPush(s, t, s.threads[t].x, s.threads[t].mode, !s.threads[t].expired, wake) else None
    case PopCall(t, mode, wake) =>
      if t < |s.threads| && s.threads[t].Idle? then TryFinishPop(s, t, mode, mode != Try, wake) else None
    case PopResume(t, wake) =>
      if t < |s.threads| && s.threads[t].PopWoken?
      then TryFinishPop(s, t, s.threads[t].mode, !s.threads[t].expired, wake) else None
    case Spurious(t) =>
      if t < |s.threads| && (s.threads[t].PushParked? || s.threads[t].PopParked?)
      then Some((s.(threads := s.threads[t := Wake(s.threads[t], false)]), Silent)) else None
    case Timeout(t) =>
      if t < |s.threads| && (s.threads[t].PushParked? || s.threads[t].PopParked?) && s.threads[t].mode == Timed
      then Some((s.(threads := s.threads[t := Wake(s.threads[t], true)]), Silent)) else None
    case Shutdown =>
      Some((s.(buf := s.buf.(closed := true), threads := NotifyAll(s.threads)), Silent))
  }

  /** A blocked call can only be of a mode that waits, and only a timed one expires. */
  ghost predicate ModesOk<T>(ts: seq<Pc<T>>)
  {
    forall i :: 0 <= i < |ts| ==>
      match ts[i]
      case Idle => true
      case PushParked(_, m) => m != Try
      case PopParked(m) => m != Try
      case PushWoken(_, m, expired) => m != Try && (expired ==> m == Timed)
      case PopWoken(m, expired) => m != Try && (expired ==> m == Timed)
  }

  /** No lost wakeup: while open, waiting consumers are covered by woken ones for
      every queued value and waiting producers for every free slot; once closed,
      nobody waits. */
  ghost predicate NoLostWakeup<T>(s: State<T>)
    requires s.buf.WellIndexed()
  {
    if s.buf.closed then
      Count(s.threads, IsPopParked) == 0 && Count(s.threads, IsPushParked) == 0
    else
      && (Count(s.threads, IsPopParked) > 0 ==> Count(s.threads, IsPopWoken) >= s.buf.size)
      && (Count(s.threads, IsPushParked) > 0 ==> Count(s.threads, IsPushWoken) >= s.buf.Capacity() - s.buf.size)
  }

  ghost predicate Inv<T>(s: State<T>, capacity: nat)
  {
    && s.buf.Valid() && s.buf.Capacity() == capacity
    && s.accepted == s.popped + s.buf.Contents()
    && NoLostWakeup(s)
    && ModesOk(s.threads)
  }

  // ---- Counting lemmas ----------------------------------------------------

  lemma MoveCounts<T>(ts: seq<Pc<T>>, t: nat, p: Pc<T>)
    requires t < |ts|
    ensures var us := ts[t := p];
            && Count(us, IsPushParked) - Count(ts, IsPushParked)
               == (if p.PushParked? then 1 else 0) - (if ts[t].PushParked? then 1 else 0)
            && Count(us, IsPushWoken) - Count(ts, IsPushWoken)
               == (if p.PushWoken? then 1 else 0) - (if ts[t].PushWoken? then 1 else 0)
            && Count(us, IsPopParked) - Count(ts, IsPopParked)
               == (if p.PopParked? then 1 else 0) - (if ts[t].PopParked? then 1 else 0)
            && Count(us, IsPopWoken) - Count(ts, IsPopWoken)
               == (if p.PopWoken? then 1 else 0) - (if ts[t].PopWoken? then 1 else 0)
  {
    CountUpdate(ts, t, p, IsPushParked);
    CountUpdate(ts, t, p, IsPushWoken);
    CountUpdate(ts, t, p, IsPopParked);
    CountUpdate(ts, t, p, IsPopWoken);
  }

  /** After `notify_all` nobody is parked. */
  lemma NotifyAllEmpties<T>(ts: seq<Pc<T>>)
    ensures Count(NotifyAll(ts), IsPushParked) == 0 && Count(NotifyAll(ts), IsPopParked) == 0
  {
    CountPositive(NotifyAll(ts), IsPushParked);
    CountPositive(NotifyAll(ts), IsPopParked);
  }

  /** `notify_one` moves one waiter over, or finds the wait set empty. */
  lemma NotifyConsumer<T>(ts: seq<Pc<T>>, wake: nat)
    requires NotifyOne(ts, IsPopParked, wake).Some?
    ensures var us := NotifyOne(ts, IsPopParked, wake).value;
            && Count(us, IsPushParked) == Count(ts, IsPushParked) && Count(us, IsPushWoken) == Count(ts, IsPushWoken)
            && (Count(us, IsPopParked) == 0 || Count(us, IsPopWoken) == Count(ts, IsPopWoken) + 1)
            && (Count(us, IsPopParked) > 0 ==> Count(ts, IsPopParked) > 0)
            && (ModesOk(ts) ==> ModesOk(us))
  {
    CountPositive(ts, IsPopParked);
    if wake < |ts| && IsPopParked(ts[wake]) { MoveCounts(ts, wake, Wake(ts[wake], false)); }
  }

  lemma NotifyProducer<T>(ts: seq<Pc<T>>, wake: nat)
    requires NotifyOne(ts, IsPushParked, wake).Some?
    ensures var us := NotifyOne(ts, IsPushParked, wake).value;
            && Count(us, IsPopParked) == Count(ts, IsPopParked) && Count(us, IsPopWoken) == Count(ts, IsPopWoken)
            && (Count(us, IsPushParked) == 0 || Count(us, IsPushWoken) == Count(ts, IsPushWoken) + 1)
            && (Count(us, IsPushParked) > 0 ==> Count(ts, IsPushParked) > 0)
            && (ModesOk(ts) ==> ModesOk(us))
  {
    CountPositive(ts, IsPushParked);
    if wake < |ts| && IsPushParked(ts[wake]) { MoveCounts(ts, wake, Wake(ts[wake], false)); }
  }

  // ---- Steps --------------------------------------------------------------

  lemma PushKeepsInv<T>(s: State<T>, capacity: nat, t: nat, x: T, mode: Mode, mayWait: bool, wake: nat)
    requires Inv(s, capacity) && t < |s.threads| && (s.threads[t].Idle? || s.threads[t].PushWoken?)
    requires mayWait ==> mode != Try
    requires TryFinishPush(s, t, x, mode, mayWait, wake).Some?
    ensures Inv(TryFinishPush(s, t, x, mode, mayWait, wake).value.0, capacity)
  {
    MoveCounts(s.threads, t, Idle);
    if s.buf.closed {
    } else if s.buf.size < s.buf.Capacity() {
      EnqueueAppends(s.buf, x);
      NotifyConsumer(s.threads[t := Idle], wake);
      assert s.popped + s.buf.Contents() + [x] == s.popped + (s.buf.Contents() + [x]);
    } else if mayWait {
      MoveCounts(s.threads, t, PushParked(x, mode));
    }
  }

  lemma PopKeepsInv<T>(s: State<T>, capacity: nat, t: nat, mode: Mode, mayWait: bool, wake: nat)
    requires Inv(s, capacity) && t < |s.threads| && (s.threads[t].Idle? || s.threads[t].PopWoken?)
    requires mayWait ==> mode != Try
    requires TryFinishPop(s, t, mode, mayWait, wake).Some?
    ensures Inv(TryFinishPop(s, t, mode, mayWait, wake).value.0, capacity)
  {
    MoveCounts(s.threads, t, Idle);
    if s.buf.size > 0 {
      PopRemovesOldest(s.buf);
      NotifyProducer(s.threads[t := Idle], wake);
      var (r, b) := s.buf.PopLocked();
      assert s.popped + ([r.value] + b.Contents()) == s.popped + [r.value] + b.Contents();
    } else if mayWait && !s.buf.closed {
      MoveCounts(s.threads, t, PopParked(mode));
    }
  }

  lemma WakeKeepsInv<T>(s: State<T>, capacity: nat, t: nat, expired: bool)
    requires Inv(s, capacity) && t < |s.threads| && (s.threads[t].PushParked? || s.threads[t].PopParked?)
    requires expired ==> s.threads[t].mode == Timed
    ensures Inv(s.(threads := s.threads[t := Wake(s.threads[t], expired)]), capacity)
  {
    MoveCounts(s.threads, t, Wake(s.threads[t], expired));
  }

  lemma ShutdownKeepsInv<T>(s: State<T>, capacity: nat)
    requires Inv(s, capacity)
    ensures Inv(s.(buf := s.buf.(closed := true), threads := NotifyAll(s.threads)), capacity)
  {
    NotifyAllEmpties(s.threads);
    assert s.buf.(closed := true).Contents() == s.buf.Contents();
  }

  lemma StepKeepsInv<T>(s: State<T>, e: Event<T>, capacity: nat)
    requires Inv(s, capacity) && Step(s, e).Some?
    ensures Inv(Step(s, e).value.0, capacity)
  {
    match e
    case PushCall(t, x, mode, wake) => PushKeepsInv(s, capacity, t, x, mode, mode != Try, wake);
    case PushResume(t, wake) =>
      PushKeepsInv(s, capacity, t, s.threads[t].x, s.threads[t].mode, !s.threads[t].expired, wake);
    case PopCall(t, mode, wake) => PopKeepsInv(s, capacity, t, mode, mode != Try, wake);
    case PopResume(t, wake) => PopKeepsInv(s, capacity, t, s.threads[t].mode, !s.threads[t].expired, wake);
    case Spurious(t) => WakeKeepsInv(s, capacity, t, false);
    case Timeout(t) => WakeKeepsInv(s, capacity, t, true);
    case Shutdown => ShutdownKeepsInv(s, capacity);
  }

  // ---- Runs ---------------------------------------------------------------

  /** `states` is a run from `states[0]` by the steps of `run`. */
  ghost predicate IsRun<T>(states: seq<State<T>>, run: seq<Event<T>>)
  {
    && |states| == |run| + 1
    && forall i :: 0 <= i < |run| ==> StepsTo(states[i], run[i], states[i + 1])
  }

  ghost predicate StepsTo<T>(s: State<T>, e: Event<T>, s': State<T>)
  {
    s.buf.Valid() && Step(s, e).Some? && Step(s, e).value.0 == s'
  }

  /** Every state of every run of any number of threads satisfies the invariant:
      FIFO conservation, ring shape and no lost wakeup. */
  lemma {:induction false} EveryRunKeepsInv<T>(capacity: nat, n: nat, states: seq<State<T>>, run: seq<Event<T>>, i: nat)
    requires capacity > 0 && IsRun(states, run) && states[0] == Init(capacity, n) && i < |states|
    ensures Inv(states[i], capacity)
  {
    if i == 0 {
      var s := states[0];
      CountPositive(s.threads, IsPopParked);
      CountPositive(s.threads, IsPushParked);
    } else {
      EveryRunKeepsInv(capacity, n, states, run, i - 1);
      assert StepsTo(states[i - 1], run[i - 1], states[i - 1 + 1]);
      StepKeepsInv(states[i - 1], run[i - 1], capacity);
    }
  }

  /** When no woken thread is on its way, a waiting consumer means an empty queue
      and a waiting producer a full one; so both never wait at once. */
  lemma SettledWaitersAreRight<T>(capacity: nat, n: nat, states: seq<State<T>>, run: seq<Event<T>>, i: nat)
    requires capacity > 0 && IsRun(states, run) && states[0] == Init(capacity, n) && i < |states|
    requires forall p :: p in states[i].threads ==> !p.PopWoken? && !p.PushWoken?
    ensures (exists p :: p in states[i].threads && p.PopParked?) ==> states[i].buf.size == 0 && !states[i].buf.closed
    ensures (exists p :: p in states[i].threads && p.PushParked?)
            ==> states[i].buf.size == capacity && !states[i].buf.closed
    ensures !(&& (exists p :: p in states[i].threads && p.PopParked?)
              && (exists p :: p in states[i].threads && p.PushParked?))
  {
    EveryRunKeepsInv(capacity, n, states, run, i);
    var ts := states[i].threads;
    CountPositive(ts, IsPopWoken);
    CountPositive(ts, IsPushWoken);
    CountPositive(ts, IsPopParked);
    CountPositive(ts, IsPushParked);
    if p :| p in ts && p.PopParked? {
      var k :| 0 <= k < |ts| && ts[k] == p;
      assert IsPopParked(ts[k]);
    }
    if p :| p in ts && p.PushParked? {
      var k :| 0 <= k < |ts| && ts[k] == p;
      assert IsPushParked(ts[k]);
    }
  }

  /** Whenever a consumer waits on a queue that holds a value, some consumer has
      already been woken and its next step pops a value. */
  lemma WaitingConsumerIsServed<T>(capacity: nat, n: nat, states: seq<State<T>>, run: seq<Event<T>>, i: nat, c: nat)
    returns (t: nat, wake: nat)
    requires capacity > 0 && IsRun(states, run) && states[0] == Init(capacity, n) && i < |states|
    requires c < |states[i].threads| && states[i].threads[c].PopParked? && states[i].buf.size > 0
    ensures states[i].buf.Valid() && t < |states[i].threads| && states[i].threads[t].PopWoken?
    ensures Step(states[i], PopResume(t, wake)).Some?
    ensures Step(states[i], PopResume(t, wake)).value.1 == Popped(Some(states[i].buf.Contents()[0]))
  {
    EveryRunKeepsInv(capacity, n, states, run, i);
    var s := states[i];
    CountPositive(s.threads, IsPopParked);
    assert IsPopParked(s.threads[c]);
    CountPositive(s.threads, IsPopWoken);
    t :| t < |s.threads| && IsPopWoken(s.threads[t]);
    wake := SomeWaiter(s.threads[t := Idle], IsPushParked);
    PopRemovesOldest(s.buf);
  }

  /** Likewise a producer waiting while there is room. */
  lemma WaitingProducerIsServed<T>(capacity: nat, n: nat, states: seq<State<T>>, run: seq<Event<T>>, i: nat, c: nat)
    returns (t: nat, wake: nat)
    requires capacity > 0 && IsRun(states, run) && states[0] == Init(capacity, n) && i < |states|
    requires c < |states[i].threads| && states[i].threads[c].PushParked? && states[i].buf.size < capacity
    ensures states[i].buf.Valid() && t < |states[i].threads| && states[i].threads[t].PushWoken?
    ensures Step(states[i], PushResume(t, wake)).Some?
    ensures Step(states[i], PushResume(t, wake)).value.1 == Pushed(true)
  {
    EveryRunKeepsInv(capacity, n, states, run, i);
    var s := states[i];
    CountPositive(s.threads, IsPushParked);
    assert IsPushParked(s.threads[c]);
    CountPositive(s.threads, IsPushWoken);
    t :| t < |s.threads| && IsPushWoken(s.threads[t]);
    wake := SomeWaiter(s.threads[t := Idle], IsPopParked);
  }

  lemma SomeWaiter<T>(ts: seq<Pc<T>>, parked: Pc<T> -> bool) returns (wake: nat)
    ensures NotifyOne(ts, parked, wake).Some?
  {
    if i :| 0 <= i < |ts| && parked(ts[i]) { return i; }
    return 0;
  }

  /** A blocking `pop` returns empty only after shutdown and only when every
      accepted value has been popped; a blocking `push` fails only after shutdown. */
  lemma EmptyPopMeansDrained<T>(capacity: nat, n: nat, states: seq<State<T>>, run: seq<Event<T>>, i: nat)
    requires capacity > 0 && IsRun(states, run) && states[0] == Init(capacity, n) && i < |run|
    requires states[i].buf.Valid() && Step(states[i], run[i]).Some?
    ensures var s := states[i];
            var e := run[i];
            var out := Step(s, e).value.1;
            && (out == Popped(None)
                && (if e.PopCall? then e.mode == Blocking else e.PopResume? && s.threads[e.t].mode == Blocking)
                ==> s.buf.closed && s.accepted == s.popped)
            && (out == Pushed(false)
                && (if e.PushCall? then e.mode == Blocking else e.PushResume? && s.threads[e.t].mode == Blocking)
                ==> s.buf.closed)
  {
    EveryRunKeepsInv(capacity, n, states, run, i);
  }

  /** After shutdown nothing more is accepted, for the rest of the run. */
  lemma {:induction false} ClosedAcceptsNothing<T>(states: seq<State<T>>, run: seq<Event<T>>, i: nat, j: nat)
    requires IsRun(states, run) && i <= j < |states| && states[i].buf.closed
    ensures states[j].buf.closed && states[j].accepted == states[i].accepted
    ensures states[i].popped <= states[j].popped
    decreases j - i
  {
    if i < j {
      ClosedAcceptsNothing(states, run, i, j - 1);
      assert StepsTo(states[j - 1], run[j - 1], states[j - 1 + 1]);
    }
  }

  // ---- What callers get ---------------------------------------------------

  predicate IsPush<T>(e: Event<T>) { e.PushCall? || e.PushResume? }
  predicate IsPop<T>(e: Event<T>) { e.PopCall? || e.PopResume? }

  /** Whether an event is a step of thread `t`. */
  predicate Own<T>(e: Event<T>, t: nat) { !e.Shutdown? && e.t == t }

  /** The last call that thread `t` has made. */
  function LastCall<T>(run: seq<Event<T>>, t: nat): Option<Event<T>> {
    if run == [] then None
    else if Own(run[|run| - 1], t) && (run[|run| - 1].PushCall? || run[|run| - 1].PopCall?) then Some(run[|run| - 1])
    else LastCall(run[..|run| - 1], t)
  }

  /** Whether the last thing that happened to thread `t` on its own is that its time
      ran out. */
  predicate TimedOut<T>(run: seq<Event<T>>, t: nat) {
    run != [] && if Own(run[|run| - 1], t) then run[|run| - 1].Timeout? else TimedOut(run[..|run| - 1], t)
  }

  /** A waiting thread waits on behalf of the call it made, and has expired exactly
      if its time ran out. */
  ghost predicate Follows<T>(p: Pc<T>, call: Option<Event<T>>, late: bool) {
    match p
    case Idle => !late
    case PushParked(x, mode) =>
      call.Some? && call.value.PushCall? && call.value.x == x && call.value.mode == mode && !late
    case PushWoken(x, mode, expired) =>
      call.Some? && call.value.PushCall? && call.value.x == x && call.value.mode == mode && expired == late
    case PopParked(mode) => call.Some? && call.value.PopCall? && call.value.mode == mode && !late
    case PopWoken(mode, expired) => call.Some? && call.value.PopCall? && call.value.mode == mode && expired == late
  }

  lemma OtherStepFollows<T>(s: State<T>, e: Event<T>, t: nat, call: Option<Event<T>>, late: bool)
    requires s.buf.Valid() && Step(s, e).Some? && t < |s.threads| && !Own(e, t) && Follows(s.threads[t], call, late)
    ensures |Step(s, e).value.0.threads| == |s.threads| && Follows(Step(s, e).value.0.threads[t], call, late)
  {
  }

  lemma OwnStepFollows<T>(s: State<T>, e: Event<T>, t: nat, call: Option<Event<T>>, late: bool)
    requires s.buf.Valid() && Step(s, e).Some? && t < |s.threads| && Own(e, t) && Follows(s.threads[t], call, late)
    ensures var call' := if e.PushCall? || e.PopCall? then Some(e) else call;
            && |Step(s, e).value.0.threads| == |s.threads|
            && Follows(Step(s, e).value.0.threads[t], call', e.Timeout?)
  {
  }

  /** In every run every waiting thread is where its own calls have brought it. */
  lemma {:induction false} ThreadsFollowTheirCalls<T>(capacity: nat, n: nat, states: seq<State<T>>, run: seq<Event<T>>,
                                                      i: nat, t: nat)
    requires capacity > 0 && IsRun(states, run) && states[0] == Init(capacity, n) && i < |states| && t < n
    ensures |states[i].threads| == n
    ensures Follows(states[i].threads[t], LastCall(run[..i], t), TimedOut(run[..i], t))
  {
    if i > 0 {
      ThreadsFollowTheirCalls(capacity, n, states, run, i - 1, t);
      assert StepsTo(states[i - 1], run[i - 1], states[i - 1 + 1]);
      assert run[..i][..i - 1] == run[..i - 1];
      var call, late := LastCall(run[..i - 1], t), TimedOut(run[..i - 1], t);
      if Own(run[i - 1], t) { OwnStepFollows(states[i - 1], run[i - 1], t, call, late); }
      else { OtherStepFollows(states[i - 1], run[i - 1], t, call, late); }
    }
  }

  lemma {:induction false} RunKeepsThreads<T>(capacity: nat, n: nat, states: seq<State<T>>, run: seq<Event<T>>, i: nat)
    requires capacity > 0 && IsRun(states, run) && states[0] == Init(capacity, n) && i < |states|
    ensures |states[i].threads| == n
  {
    if i > 0 {
      RunKeepsThreads(capacity, n, states, run, i - 1);
      assert StepsTo(states[i - 1], run[i - 1], states[i - 1 + 1]);
    }
  }

  /** What a step of a push does, `late` being that it may no longer wait. */
  ghost predicate PushAnswer<T>(s: State<T>, s': State<T>, t: nat, out: Outcome<T>, x: T, late: bool)
    requires t < |s'.threads|
  {
    var full := |s.accepted| - |s.popped| == s.buf.Capacity();
    && (out == Pushed(true) <==> !s.buf.closed && !full)
    && (out == Pushed(false) <==> s.buf.closed || (full && late))
    && (out == Waiting <==> !s.buf.closed && full && !late)
    && s'.accepted == s.accepted + (if out == Pushed(true) then [x] else []) && s'.popped == s.popped
    && s'.buf.closed == s.buf.closed && (s'.threads[t].Idle? <==> out != Waiting)
  }

  /** What a step of a pop does. */
  ghost predicate PopAnswer<T>(s: State<T>, s': State<T>, t: nat, out: Outcome<T>, late: bool)
    requires t < |s'.threads|
  {
    var got := |s.popped| < |s.accepted|;
    && (out == (if got then Popped(Some(s.accepted[|s.popped|]))
                else if s.buf.closed || late then Popped(None) else Waiting))
    && s'.popped == s.popped + (if got then [s.accepted[|s.popped|]] else []) && s'.accepted == s.accepted
    && s'.buf.closed == s.buf.closed && (s'.threads[t].Idle? <==> out != Waiting)
  }

  lemma PushStepAnswers<T>(s: State<T>, capacity: nat, t: nat, x: T, mode: Mode, mayWait: bool, wake: nat)
    requires Inv(s, capacity) && t < |s.threads| && TryFinishPush(s, t, x, mode, mayWait, wake).Some?
    ensures var (s', out) := TryFinishPush(s, t, x, mode, mayWait, wake).value;
            |s'.threads| == |s.threads| && PushAnswer(s, s', t, out, x, !mayWait)
  {
    assert s.accepted + [] == s.accepted;
  }

  lemma PopStepAnswers<T>(s: State<T>, capacity: nat, t: nat, mode: Mode, mayWait: bool, wake: nat)
    requires Inv(s, capacity) && t < |s.threads| && TryFinishPop(s, t, mode, mayWait, wake).Some?
    ensures var (s', out) := TryFinishPop(s, t, mode, mayWait, wake).value;
            |s'.threads| == |s.threads| && PopAnswer(s, s', t, out, !mayWait)
  {
    assert s.popped + [] == s.popped;
    if s.buf.size > 0 {
      PopRemovesOldest(s.buf);
      assert s.accepted[|s.popped|] == s.buf.Contents()[0];
    }
  }

  /** The answer of every step of every run: a push is accepted, with its caller's
      value, exactly when the queue is open and has room; it fails exactly when closed,
      or full for a call that may not wait any longer; a pop gives the oldest value
      exactly when there is one and nothing exactly when there is none and it is closed
      or too late; and exactly the other calls wait. */
  lemma {:induction false} AnswersAreExact<T>(capacity: nat, n: nat, states: seq<State<T>>, run: seq<Event<T>>, i: nat)
    requires capacity > 0 && IsRun(states, run) && states[0] == Init(capacity, n) && i < |run|
    ensures states[i].buf.Valid() && Step(states[i], run[i]).Some?
    ensures var s, e, s' := states[i], run[i], states[i + 1];
            var out := Step(s, e).value.1;
            if e.Shutdown? then
              && out == Silent && s' == s.(buf := s.buf.(closed := true), threads := s'.threads)
              && forall p :: p in s'.threads ==> !p.PushParked? && !p.PopParked?
            else
              var call := LastCall(run[..i + 1], e.t);
              && e.t < |s'.threads|
              && (IsPush(e) ==>
                    && call.Some? && call.value.PushCall?
                    && PushAnswer(s, s', e.t, out, call.value.x, call.value.mode == Try || TimedOut(run[..i], e.t)))
              && (IsPop(e) ==>
                    && call.Some? && call.value.PopCall?
                    && PopAnswer(s, s', e.t, out, call.value.mode == Try || TimedOut(run[..i], e.t)))
              && (!IsPush(e) && !IsPop(e) ==> out == Silent && s' == s.(threads := s'.threads))
  {
    EveryRunKeepsInv(capacity, n, states, run, i);
    assert StepsTo(states[i], run[i], states[i + 1]);
    var s, e := states[i], run[i];
    if !e.Shutdown? {
      RunKeepsThreads(capacity, n, states, run, i);
      ThreadsFollowTheirCalls(capacity, n, states, run, i, e.t);
      assert run[..i + 1][..i] == run[..i];
      match e
      case PushCall(t, x, mode, wake) => PushStepAnswers(s, capacity, t, x, mode, mode != Try, wake);
      case PushResume(t, wake) =>
        PushStepAnswers(s, capacity, t, s.threads[t].x, s.threads[t].mode, !s.threads[t].expired, wake);
      case PopCall(t, mode, wake) => PopStepAnswers(s, capacity, t, mode, mode != Try, wake);
      case PopResume(t, wake) => PopStepAnswers(s, capacity, t, s.threads[t].mode, !s.threads[t].expired, wake);
      case _ =>
    }
  }

  /** Every thread can always go on, and the queue can always be shut down. */
  lemma NobodyIsStuck<T>(s: State<T>, t: nat, x: T, mode: Mode) returns (push: nat, pop: nat)
    requires s.buf.Valid() && t < |s.threads|
    ensures Step(s, Shutdown).Some?
    ensures match s.threads[t]
            case Idle => Step(s, PushCall(t, x, mode, push)).Some? && Step(s, PopCall(t, mode, pop)).Some?
            case PushWoken(_, _, _) => Step(s, PushResume(t, push)).Some?
            case PopWoken(_, _) => Step(s, PopResume(t, pop)).Some?
            case PushParked(_, m) => Step(s, Spurious(t)).Some? && (Step(s, Timeout(t)).Some? <==> m == Timed)
            case PopParked(m) => Step(s, Spurious(t)).Some? && (Step(s, Timeout(t)).Some? <==> m == Timed)
  {
    push := SomeWaiter(s.threads[t := Idle], IsPopParked);
    pop := SomeWaiter(s.threads[t := Idle], IsPushParked);
  }
}
