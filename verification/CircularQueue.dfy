/**
 * The semaphore-gated ring `CircularQueue` (include/util.hpp) over `Semaphore`
 * (include/jthread.hpp): the ring as a value, the queue object that updates its
 * node array in place, and the step machine of any number of producers,
 * consumers and `unlock_queue` callers with the wait sets of both semaphores.
 */
module CircularQueueModel {
  import opened Common
  import SemaphoreModel

  const SUCCESS := 0
  const BUFFER_FULL := -1
  const BUFFER_EMPTY := -2

  // ---- The ring -----------------------------------------------------------

  datatype Node<T> = Node(data: T, inUse: bool)

  datatype Ring<T> = Ring(nodes: seq<Node<T>>, front: nat, rear: nat, zero: T) {

    function Max(): nat { |nodes| }

    predicate WellIndexed() { |nodes| > 1 && front < |nodes| && rear < |nodes| }

    /** Number of slots from `front` up to `rear`. */
    function Occupied(): (n: nat)
      requires WellIndexed()
      ensures n < Max()
      ensures Wrap(front + n, Max()) == rear
    {
      if front <= rear then rear - front else rear + Max() - front
    }

    /** Distance of slot `j` behind `front`. */
    function Age(j: nat): (n: nat)
      requires WellIndexed() && j < Max()
      ensures n < Max() && Wrap(front + n, Max()) == j
    {
      if front <= j then j - front else j + Max() - front
    }

    /** `in_use_` marks exactly the window from `front_` to `rear_`. */
    ghost predicate Valid() {
      && WellIndexed()
      && forall j :: 0 <= j < Max() ==> (nodes[j].inUse <==> Age(j) < Occupied())
    }

    /** The payloads in the window, oldest first. */
    ghost function Window(): (w: seq<T>)
      requires WellIndexed()
      ensures |w| == Occupied()
    {
      seq(Occupied(), i requires 0 <= i < Occupied() => nodes[Wrap(front + i, Max())].data)
    }

    /** The locked section of `put_impl`; `None` is the full fallback. */
    function Put(x: T): Option<Ring<T>>
      requires WellIndexed()
    {
      if Wrap(rear + 1, Max()) == front then None
      else Some(this.(nodes := nodes[rear := Node(x, true)], rear := Wrap(rear + 1, Max())))
    }

    /** The locked section of `get_impl`; `None` is the empty fallback. */
    function Get(): Option<(T, Ring<T>)>
      requires WellIndexed()
    {
      if front == rear then None
      else Some((nodes[front].data,
                 this.(nodes := nodes[front := Node(zero, false)], front := Wrap(front + 1, Max()))))
    }
  }

  function EmptyRing<T>(max: nat, zero: T): Ring<T>
    requires max > 1
  {
    Ring(seq(max, i => Node(zero, false)), 0, 0, zero)
  }

  /** The full fallback is taken exactly when `MAX - 1` slots are live; otherwise
      the payload goes behind the window, into a slot that was not live. */
  lemma PutAppends<T>(r: Ring<T>, x: T)
    requires r.Valid()
    ensures r.Put(x).None? <==> r.Occupied() == r.Max() - 1
    ensures r.Put(x).Some? ==>
              var r' := r.Put(x).value;
              && r'.Valid() && r'.Max() == r.Max()
              && r'.Window() == r.Window() + [x]
              && !r.nodes[r.rear].inUse
              && (forall j :: 0 <= j < r.Max() && r.nodes[j].inUse ==> r'.nodes[j] == r.nodes[j])
  {
    if r.Put(x).Some? {
      var r' := r.Put(x).value;
      assert r'.Occupied() == r.Occupied() + 1;
      assert r.Age(r.rear) == r.Occupied();
      forall j | 0 <= j < r.Max() ensures r'.Age(j) == r.Age(j) {}
      forall i | 0 <= i < r.Occupied() ensures r'.Window()[i] == r.Window()[i] {
        assert Wrap(r.front + i, r.Max()) != r.rear;
      }
      assert r'.Window() == r.Window() + [x];
    }
  }

  /** The empty fallback is taken exactly when no slot is live; otherwise the
      oldest payload leaves and its slot is cleared. */
  lemma GetRemovesOldest<T>(r: Ring<T>)
    requires r.Valid()
    ensures r.Get().None? <==> r.Occupied() == 0
    ensures r.Get().Some? ==>
              var (x, r') := r.Get().value;
              && r'.Valid() && r'.Max() == r.Max()
              && r.Window() == [x] + r'.Window()
              && r'.nodes == r.nodes[r.front := Node(r.zero, false)]
  {
    if r.Get().Some? {
      var (x, r') := r.Get().value;
      assert r'.Occupied() == r.Occupied() - 1;
      forall j | 0 <= j < r.Max() ensures r'.Age(j) == if j == r.front then r.Max() - 1 else r.Age(j) - 1 {}
      forall i | 0 <= i < r'.Occupied() ensures r'.Window()[i] == r.Window()[i + 1] {
        assert Wrap(r'.front + i, r.Max()) == Wrap(r.front + (i + 1), r.Max());
        assert Wrap(r'.front + i, r.Max()) != r.front;
      }
      assert r.Window() == [x] + r'.Window();
    }
  }

  // ---- The queue object ---------------------------------------------------

  /** `CircularQueue` used by one caller at a time: no operation is in flight
      between two calls, so its permit sums have no in-flight terms. */
  class CircularQueue<T> {
    const max: nat
    const zero: T
    const nodes: array<Node<T>>
    var front: nat
    var rear: nat
    const semPut: SemaphoreModel.Semaphore
    const semGet: SemaphoreModel.Semaphore
    ghost var unlocks: nat   // `unlock_queue` calls since the last `initialize`

    ghost function Abs(): Ring<T>
      reads this, nodes
    {
      Ring(nodes[..], front, rear, zero)
    }

    ghost predicate Valid()
      reads this, nodes, semPut, semGet
    {
      && nodes.Length == max && semPut != semGet
      && Abs().Valid()
      && semPut.count + Abs().Occupied() == max - 1 + unlocks
      && semGet.count == Abs().Occupied() + unlocks
    }

    constructor (max: nat, zero: T)
      requires max > 1
      ensures Valid() && this.max == max && Abs().Window() == [] && unlocks == 0
      ensures fresh(nodes) && fresh(semPut) && fresh(semGet)
    {
      this.max, this.zero := max, zero;
      this.nodes := new Node<T>[max](i => Node(zero, false));
      front, rear, unlocks := 0, 0, 0;
      semPut := new SemaphoreModel.Semaphore(max - 1);
      semGet := new SemaphoreModel.Semaphore(0);
      new;
      Initialize();
    }

    /** `initialize()`, also reached through `reset()`. */
    method Initialize()
      requires nodes.Length == max > 1 && semPut != semGet
      modifies this, nodes, semPut, semGet
      ensures Valid() && Abs() == EmptyRing(max, zero) && Abs().Window() == [] && unlocks == 0
    {
      for i := 0 to max
        invariant forall j :: 0 <= j < i ==> nodes[j] == Node(zero, false)
      {
        nodes[i] := Node(zero, false);
      }
      front, rear := 0, 0;
      semPut.ResetCount(max - 1);
      semGet.ResetCount(0);
      unlocks := 0;
      assert Abs() == EmptyRing(max, zero);
    }

    method UnlockQueue()
      requires Valid()
      modifies this`unlocks, semPut, semGet
      ensures Valid() && unlocks == old(unlocks) + 1 && Abs() == old(Abs())
    {
      semPut.Signal();
      semGet.Signal();
      unlocks := unlocks + 1;
    }

    /** The `crit_sec_` section of `put_impl`. */
    method PutSection(x: T) returns (published: bool)
      requires nodes.Length == max && Abs().Valid()
      modifies this`rear, nodes
      ensures published <==> old(Abs()).Put(x).Some?
      ensures Abs() == if published then old(Abs()).Put(x).value else old(Abs())
    {
      WrapIsMod(rear + 1, max);
      var nextRear := (rear + 1) % max;
      if nextRear == front { return false; }
      nodes[rear] := Node(x, true);
      rear := nextRear;
      return true;
    }

    /** The `crit_sec_` section of `get_impl`. */
    method GetSection() returns (r: Option<T>)
      requires nodes.Length == max && Abs().Valid()
      modifies this`front, nodes
      ensures r.Some? <==> old(Abs()).Get().Some?
      ensures r.Some? ==> old(Abs()).Get().value == (r.value, Abs())
      ensures r.None? ==> Abs() == old(Abs())
    {
      if front == rear { return None; }
      r := Some(nodes[front].data);
      nodes[front] := Node(zero, false);
      WrapIsMod(front + 1, max);
      front := (front + 1) % max;
    }

    /** `try_put`: accepts exactly while fewer than `MAX - 1` payloads are live,
        however many stray permits `unlock_queue` has added. */
    method TryPut(x: T) returns (code: int)
      requires Valid()
      modifies this`front, this`rear, nodes, semPut, semGet
      ensures Valid()
      ensures code == if |old(Abs().Window())| < max - 1 then 0 else -1
      ensures Abs().Window() == old(Abs().Window()) + if code == 0 then [x] else []
    {
      var ok := semPut.TryWait();
      if !ok { return BUFFER_FULL; }
      PutAppends(Abs(), x);
      var published := PutSection(x);
      if !published {
        semPut.Signal();
        return BUFFER_FULL;
      }
      semGet.Signal();
      return SUCCESS;
    }

    /** `try_get`: returns the oldest payload exactly when one is live. */
    method TryGet() returns (code: int, r: Option<T>)
      requires Valid()
      modifies this`front, this`rear, nodes, semPut, semGet
      ensures Valid()
      ensures code == if old(Abs().Window()) != [] then 0 else -2
      ensures code == 0 <==> r.Some?
      ensures old(Abs().Window()) == (if r.Some? then [r.value] else []) + Abs().Window()
    {
      var ok := semGet.TryWait();
      if !ok { return BUFFER_EMPTY, None; }
      GetRemovesOldest(Abs());
      r := GetSection();
      if r.None? {
        semGet.Signal();
        return BUFFER_EMPTY, None;
      }
      semPut.Signal();
      code := SUCCESS;
    }
  }

  // ---- The concurrent machine ---------------------------------------------

  /** Where a thread is. Each locked section of a semaphore and of the ring is one
      atomic step, so a thread can be stopped in any of these. */
  datatype Pc<T> =
    | Idle
    | PutParked(x: T, timed: bool)                  // in the wait set of `sem_put_`
    | PutWoken(x: T, timed: bool, expired: bool)    // notified, or out of time
    | PutHolding(x: T)     // took a put permit, not yet in the section
    | PutPublished         // payload committed, get permit not yet posted
    | PutRefused           // saw a full ring, put permit not yet restored
    | GetParked(timed: bool)                        // in the wait set of `sem_get_`
    | GetWoken(timed: bool, expired: bool)
    | GetHolding           // took a get permit, not yet in the section
    | GetRemoved(got: T)   // took the payload, put permit not yet posted
    | GetRefused           // saw an empty ring, get permit not yet restored
    | HalfUnlocked         // between the two posts of `unlock_queue`

  predicate IsPutHolding<T>(p: Pc<T>) { p.PutHolding? || p.PutRefused? }
  predicate IsPutPublished<T>(p: Pc<T>) { p.PutPublished? }
  predicate IsGetHolding<T>(p: Pc<T>) { p.GetHolding? || p.GetRefused? }
  predicate IsGetRemoved<T>(p: Pc<T>) { p.GetRemoved? }
  predicate IsHalfUnlocked<T>(p: Pc<T>) { p.HalfUnlocked? }
  predicate IsPutParked<T>(p: Pc<T>) { p.PutParked? }
  predicate IsPutWoken<T>(p: Pc<T>) { p.PutWoken? }
  predicate IsGetParked<T>(p: Pc<T>) { p.GetParked? }
  predicate IsGetWoken<T>(p: Pc<T>) { p.GetWoken? }

  /** Before an operation, or waiting for its permit. */
  predicate Outside<T>(p: Pc<T>) { p.Idle? || p.PutParked? || p.PutWoken? || p.GetParked? || p.GetWoken? }

  /** Shared state, thread table, and the two histories. */
  datatype State<T> = State(
    ring: Ring<T>, putPermits: nat, getPermits: nat, threads: seq<Pc<T>>,
    enqueued: seq<T>, dequeued: seq<T>)

  /** One atomic step of thread `t`; `wake` is the waiter that the `notify_one` of a
      post picks. */
  datatype Event<T> =
    | CallPut(t: nat, x: T, timed: bool)   // `try_put` is timed, with no time left
    | ResumePut(t: nat)
    | PutSection(t: nat)
    | PostGet(t: nat, wake: nat)
    | RestorePut(t: nat, wake: nat)
    | CallGet(t: nat, timed: bool)
    | ResumeGet(t: nat)
    | GetSection(t: nat)
    | PostPut(t: nat, wake: nat)
    | RestoreGet(t: nat, wake: nat)
    | UnlockPut(t: nat, wake: nat)         // first post of `unlock_queue`
    | UnlockGet(t: nat, wake: nat)         // second post of `unlock_queue`
    | Spurious(t: nat)
    | Timeout(t: nat)

  function Init<T>(max: nat, zero: T, n: nat): State<T>
    requires max > 1
  {
    State(EmptyRing(max, zero), max - 1, 0, seq(n, i => Idle), [], [])
  }

  function Goto<T>(s: State<T>, t: nat, p: Pc<T>): State<T>
    requires t < |s.threads|
  {
    s.(threads := s.threads[t := p])
  }

  /** A thread inside `sem_put_` tests for a permit. */
  function TestPut<T>(s: State<T>, t: nat, x: T, timed: bool, expired: bool): State<T>
    requires t < |s.threads|
  {
    if s.putPermits > 0 then Goto(s, t, PutHolding(x)).(putPermits := s.putPermits - 1)
    else if expired then Goto(s, t, Idle)   // `BUFFER_FULL`
    else Goto(s, t, PutParked(x, timed))
  }

  function TestGet<T>(s: State<T>, t: nat, timed: bool, expired: bool): State<T>
    requires t < |s.threads|
  {
    if s.getPermits > 0 then Goto(s, t, GetHolding).(getPermits := s.getPermits - 1)
    else if expired then Goto(s, t, Idle)   // `BUFFER_EMPTY`
    else Goto(s, t, GetParked(timed))
  }

  /** `sem_put_.signal()`: if anyone is parked, `wake` must be one of them. */
  function SignalPut<T>(s: State<T>, wake: nat): Option<State<T>> {
    if wake < |s.threads| && s.threads[wake].PutParked?
    then var p := s.threads[wake];
         Some(Goto(s, wake, PutWoken(p.x, p.timed, false)).(putPermits := s.putPermits + 1))
    else if exists i :: 0 <= i < |s.threads| && s.threads[i].PutParked? then None
    else Some(s.(putPermits := s.putPermits + 1))
  }

  function SignalGet<T>(s: State<T>, wake: nat): Option<State<T>> {
    if wake < |s.threads| && s.threads[wake].GetParked?
    then Some(Goto(s, wake, GetWoken(s.threads[wake].timed, false)).(getPermits := s.getPermits + 1))
    else if exists i :: 0 <= i < |s.threads| && s.threads[i].GetParked? then None
    else Some(s.(getPermits := s.getPermits + 1))
  }

  /** A parked thread that stops waiting. */
  function Woken<T>(p: Pc<T>, expired: bool): Pc<T>
    requires p.PutParked? || p.GetParked?
  {
    if p.PutParked? then PutWoken(p.x, p.timed, expired) else GetWoken(p.timed, expired)
  }

  /** The step, or `None` when thread `t` cannot take it now. */
  function Step<T>(s: State<T>, e: Event<T>): Option<State<T>>
  {
    if !(s.ring.WellIndexed() && e.t < |s.threads|) then None else
    match (e, s.threads[e.t])
    case (CallPut(t, x, timed), Idle) => Some(TestPut(s, t, x, timed, false))
    case (ResumePut(t), PutWoken(x, timed, expired)) => Some(TestPut(s, t, x, timed, expired))
    case (PutSection(t), PutHolding(x)) =>
      (match s.ring.Put(x)
       case None => Some(Goto(s, t, PutRefused))
       case Some(r) => Some(Goto(s, t, PutPublished).(ring := r, enqueued := s.enqueued + [x])))
    case (PostGet(t, wake), PutPublished) => SignalGet(Goto(s, t, Idle), wake)
    case (RestorePut(t, wake), PutRefused) => SignalPut(Goto(s, t, Idle), wake)
    case (CallGet(t, timed), Idle) => Some(TestGet(s, t, timed, false))
    case (ResumeGet(t), GetWoken(timed, expired)) => Some(TestGet(s, t, timed, expired))
    case (GetSection(t), GetHolding) =>
      (match s.ring.Get()
       case None => Some(Goto(s, t, GetRefused))
       case Some((x, r)) => Some(Goto(s, t, GetRemoved(x)).(ring := r, dequeued := s.dequeued + [x])))
    case (PostPut(t, wake), GetRemoved(x)) => SignalPut(Goto(s, t, Idle), wake)
    case (RestoreGet(t, wake), GetRefused) => SignalGet(Goto(s, t, Idle), wake)
    case (UnlockPut(t, wake), Idle) => SignalPut(Goto(s, t, HalfUnlocked), wake)
    case (UnlockGet(t, wake), HalfUnlocked) => SignalGet(Goto(s, t, Idle), wake)
    case (Spurious(t), _) =>
      if s.threads[t].PutParked? || s.threads[t].GetParked? then Some(Goto(s, t, Woken(s.threads[t], false))) else None
    case (Timeout(t), _) =>
      if (s.threads[t].PutParked? || s.threads[t].GetParked?) && s.threads[t].timed
      then Some(Goto(s, t, Woken(s.threads[t], true))) else None
    case _ => None
  }

  /** Every step of the run in order, or `None` if one of them is not possible. */
  function Exec<T>(s: State<T>, run: seq<Event<T>>): Option<State<T>>
  {
    if run == [] then Some(s) else
    match Exec(s, run[..|run| - 1])
    case None => None
    case Some(m) => Step(m, run[|run| - 1])
  }

  /** How many `unlock_queue` calls of a run have begun. */
  function Unlocks<T>(run: seq<Event<T>>): nat
  {
    if run == [] then 0 else Unlocks(run[..|run| - 1]) + if run[|run| - 1].UnlockPut? then 1 else 0
  }

  // ---- The invariant ------------------------------------------------------

  /** Put permits, free slots and the threads in between: with `k` begun
      `unlock_queue` calls the sum is `k` too large. */
  ghost predicate PutSum<T>(s: State<T>, k: nat)
    requires s.ring.WellIndexed()
  {
    s.putPermits + Count(s.threads, IsPutHolding) + s.ring.Occupied() + Count(s.threads, IsGetRemoved)
    == s.ring.Max() - 1 + k
  }

  ghost predicate GetSum<T>(s: State<T>, k: nat)
    requires s.ring.WellIndexed()
  {
    s.getPermits + Count(s.threads, IsGetHolding) + Count(s.threads, IsPutPublished)
    + Count(s.threads, IsHalfUnlocked) == s.ring.Occupied() + k
  }

  /** No lost wakeup: while someone is parked, every permit has a woken thread. */
  ghost predicate PutCover<T>(s: State<T>) {
    Count(s.threads, IsPutParked) > 0 ==> Count(s.threads, IsPutWoken) >= s.putPermits
  }

  ghost predicate GetCover<T>(s: State<T>) {
    Count(s.threads, IsGetParked) > 0 ==> Count(s.threads, IsGetWoken) >= s.getPermits
  }

  ghost predicate Inv<T>(s: State<T>, max: nat, k: nat)
  {
    && s.ring.Valid() && s.ring.Max() == max
    && PutSum(s, k) && GetSum(s, k)
    && PutCover(s) && GetCover(s)
    && s.enqueued == s.dequeued + s.ring.Window()
  }

  lemma {:induction false} OutsideCounts<T>(ts: seq<Pc<T>>)
    requires forall i :: 0 <= i < |ts| ==> Outside(ts[i])
    ensures Count(ts, IsPutHolding) == Count(ts, IsPutPublished) == Count(ts, IsGetHolding) == 0
    ensures Count(ts, IsGetRemoved) == Count(ts, IsHalfUnlocked) == 0
  {
    if ts != [] { OutsideCounts(ts[1..]); }
  }

  lemma {:induction false} NobodyParked<T>(ts: seq<Pc<T>>)
    requires forall i :: 0 <= i < |ts| ==> ts[i].Idle?
    ensures Count(ts, IsPutParked) == Count(ts, IsGetParked) == 0
  {
    if ts != [] { NobodyParked(ts[1..]); }
  }

  lemma GotoCounts<T>(ts: seq<Pc<T>>, t: nat, p: Pc<T>)
    requires t < |ts|
    ensures Count(ts[t := p], IsPutHolding) == Count(ts, IsPutHolding) + One(IsPutHolding(p)) - One(IsPutHolding(ts[t]))
    ensures Count(ts[t := p], IsPutPublished)
            == Count(ts, IsPutPublished) + One(p.PutPublished?) - One(ts[t].PutPublished?)
    ensures Count(ts[t := p], IsGetHolding) == Count(ts, IsGetHolding) + One(IsGetHolding(p)) - One(IsGetHolding(ts[t]))
    ensures Count(ts[t := p], IsGetRemoved) == Count(ts, IsGetRemoved) + One(p.GetRemoved?) - One(ts[t].GetRemoved?)
    ensures Count(ts[t := p], IsHalfUnlocked)
            == Count(ts, IsHalfUnlocked) + One(p.HalfUnlocked?) - One(ts[t].HalfUnlocked?)
  {
    CountUpdate(ts, t, p, IsPutHolding);
    CountUpdate(ts, t, p, IsPutPublished);
    CountUpdate(ts, t, p, IsGetHolding);
    CountUpdate(ts, t, p, IsGetRemoved);
    CountUpdate(ts, t, p, IsHalfUnlocked);
  }

  lemma WaitCounts<T>(ts: seq<Pc<T>>, t: nat, p: Pc<T>)
    requires t < |ts|
    ensures Count(ts[t := p], IsPutParked) == Count(ts, IsPutParked) + One(p.PutParked?) - One(ts[t].PutParked?)
    ensures Count(ts[t := p], IsPutWoken) == Count(ts, IsPutWoken) + One(p.PutWoken?) - One(ts[t].PutWoken?)
    ensures Count(ts[t := p], IsGetParked) == Count(ts, IsGetParked) + One(p.GetParked?) - One(ts[t].GetParked?)
    ensures Count(ts[t := p], IsGetWoken) == Count(ts, IsGetWoken) + One(p.GetWoken?) - One(ts[t].GetWoken?)
  {
    CountUpdate(ts, t, p, IsPutParked);
    CountUpdate(ts, t, p, IsPutWoken);
    CountUpdate(ts, t, p, IsGetParked);
    CountUpdate(ts, t, p, IsGetWoken);
  }

  /** A move between places that are neither parked nor woken. */
  lemma MoveKeepsCover<T>(s: State<T>, t: nat, p: Pc<T>)
    requires PutCover(s) && GetCover(s) && t < |s.threads|
    requires (Outside(s.threads[t]) ==> s.threads[t].Idle?) && (Outside(p) ==> p.Idle?)
    ensures PutCover(Goto(s, t, p)) && GetCover(Goto(s, t, p))
  {
    WaitCounts(s.threads, t, p);
  }

  /** A post gives its permit a woken thread, if anyone waits at all. */
  lemma SignalPutIs<T>(s: State<T>, wake: nat)
    requires SignalPut(s, wake).Some?
    ensures var s' := SignalPut(s, wake).value;
            && s' == s.(putPermits := s.putPermits + 1, threads := s'.threads)
            && (PutCover(s) ==> PutCover(s')) && (GetCover(s) ==> GetCover(s'))
            && Count(s'.threads, IsPutHolding) == Count(s.threads, IsPutHolding)
            && Count(s'.threads, IsPutPublished) == Count(s.threads, IsPutPublished)
            && Count(s'.threads, IsGetHolding) == Count(s.threads, IsGetHolding)
            && Count(s'.threads, IsGetRemoved) == Count(s.threads, IsGetRemoved)
            && Count(s'.threads, IsHalfUnlocked) == Count(s.threads, IsHalfUnlocked)
  {
    CountPositive(s.threads, IsPutParked);
    if wake < |s.threads| && s.threads[wake].PutParked? {
      GotoCounts(s.threads, wake, SignalPut(s, wake).value.threads[wake]);
      WaitCounts(s.threads, wake, SignalPut(s, wake).value.threads[wake]);
    }
  }

  lemma SignalGetIs<T>(s: State<T>, wake: nat)
    requires SignalGet(s, wake).Some?
    ensures var s' := SignalGet(s, wake).value;
            && s' == s.(getPermits := s.getPermits + 1, threads := s'.threads)
            && (PutCover(s) ==> PutCover(s')) && (GetCover(s) ==> GetCover(s'))
            && Count(s'.threads, IsPutHolding) == Count(s.threads, IsPutHolding)
            && Count(s'.threads, IsPutPublished) == Count(s.threads, IsPutPublished)
            && Count(s'.threads, IsGetHolding) == Count(s.threads, IsGetHolding)
            && Count(s'.threads, IsGetRemoved) == Count(s.threads, IsGetRemoved)
            && Count(s'.threads, IsHalfUnlocked) == Count(s.threads, IsHalfUnlocked)
  {
    CountPositive(s.threads, IsGetParked);
    if wake < |s.threads| && s.threads[wake].GetParked? {
      GotoCounts(s.threads, wake, SignalGet(s, wake).value.threads[wake]);
      WaitCounts(s.threads, wake, SignalGet(s, wake).value.threads[wake]);
    }
  }

  lemma PutSectionKeepsInv<T>(s: State<T>, t: nat, max: nat, k: nat)
    requires Inv(s, max, k) && Step(s, PutSection(t)).Some?
    ensures Inv(Step(s, PutSection(t)).value, max, k)
  {
    var x := s.threads[t].x;
    var p := if s.ring.Put(x).None? then PutRefused else PutPublished;
    GotoCounts(s.threads, t, p);
    MoveKeepsCover(s, t, p);
    PutAppends(s.ring, x);
  }

  lemma GetSectionKeepsInv<T>(s: State<T>, t: nat, max: nat, k: nat)
    requires Inv(s, max, k) && Step(s, GetSection(t)).Some?
    ensures Inv(Step(s, GetSection(t)).value, max, k)
  {
    GetRemovesOldest(s.ring);
    match s.ring.Get()
    case None =>
      GotoCounts(s.threads, t, GetRefused);
      MoveKeepsCover(s, t, GetRefused);
    case Some((x, r)) =>
      GotoCounts(s.threads, t, GetRemoved(x));
      MoveKeepsCover(s, t, GetRemoved(x));
      ConcatAssoc(s.dequeued, [x], r.Window());
  }

  lemma TestPutKeepsCover<T>(s: State<T>, t: nat, x: T, timed: bool, expired: bool)
    requires PutCover(s) && GetCover(s) && t < |s.threads| && (s.threads[t].Idle? || s.threads[t].PutWoken?)
    ensures PutCover(TestPut(s, t, x, timed, expired)) && GetCover(TestPut(s, t, x, timed, expired))
  {
    WaitCounts(s.threads, t, TestPut(s, t, x, timed, expired).threads[t]);
  }

  lemma TestPutKeepsSums<T>(s: State<T>, t: nat, x: T, timed: bool, expired: bool, k: nat)
    requires s.ring.WellIndexed() && PutSum(s, k) && GetSum(s, k)
    requires t < |s.threads| && (s.threads[t].Idle? || s.threads[t].PutWoken?)
    ensures PutSum(TestPut(s, t, x, timed, expired), k) && GetSum(TestPut(s, t, x, timed, expired), k)
  {
    if s.putPermits > 0 { GotoCounts(s.threads, t, PutHolding(x)); }
    else if expired { GotoCounts(s.threads, t, Idle); }
    else { GotoCounts(s.threads, t, PutParked(x, timed)); }
  }

  lemma TestPutKeepsInv<T>(s: State<T>, t: nat, x: T, timed: bool, expired: bool, max: nat, k: nat)
    requires Inv(s, max, k) && t < |s.threads| && (s.threads[t].Idle? || s.threads[t].PutWoken?)
    ensures Inv(TestPut(s, t, x, timed, expired), max, k)
  {
    TestPutKeepsCover(s, t, x, timed, expired);
    TestPutKeepsSums(s, t, x, timed, expired, k);
  }

  lemma TestGetKeepsCover<T>(s: State<T>, t: nat, timed: bool, expired: bool)
    requires PutCover(s) && GetCover(s) && t < |s.threads| && (s.threads[t].Idle? || s.threads[t].GetWoken?)
    ensures PutCover(TestGet(s, t, timed, expired)) && GetCover(TestGet(s, t, timed, expired))
  {
    WaitCounts(s.threads, t, TestGet(s, t, timed, expired).threads[t]);
  }

  lemma TestGetKeepsSums<T>(s: State<T>, t: nat, timed: bool, expired: bool, k: nat)
    requires s.ring.WellIndexed() && PutSum(s, k) && GetSum(s, k)
    requires t < |s.threads| && (s.threads[t].Idle? || s.threads[t].GetWoken?)
    ensures PutSum(TestGet(s, t, timed, expired), k) && GetSum(TestGet(s, t, timed, expired), k)
  {
    if s.getPermits > 0 { GotoCounts(s.threads, t, GetHolding); }
    else if expired { GotoCounts(s.threads, t, Idle); }
    else { GotoCounts(s.threads, t, GetParked(timed)); }
  }

  lemma TestGetKeepsInv<T>(s: State<T>, t: nat, timed: bool, expired: bool, max: nat, k: nat)
    requires Inv(s, max, k) && t < |s.threads| && (s.threads[t].Idle? || s.threads[t].GetWoken?)
    ensures Inv(TestGet(s, t, timed, expired), max, k)
  {
    TestGetKeepsCover(s, t, timed, expired);
    TestGetKeepsSums(s, t, timed, expired, k);
  }

  lemma PostPutKeepsInv<T>(s: State<T>, e: Event<T>, max: nat, k: nat)
    requires Inv(s, max, k) && Step(s, e).Some? && (e.RestorePut? || e.PostPut? || e.UnlockPut?)
    ensures Inv(Step(s, e).value, max, k + if e.UnlockPut? then 1 else 0)
  {
    var p: Pc<T> := if e.UnlockPut? then HalfUnlocked else Idle;
    GotoCounts(s.threads, e.t, p);
    MoveKeepsCover(s, e.t, p);
    SignalPutIs(Goto(s, e.t, p), e.wake);
  }

  lemma PostGetKeepsInv<T>(s: State<T>, e: Event<T>, max: nat, k: nat)
    requires Inv(s, max, k) && Step(s, e).Some? && (e.PostGet? || e.RestoreGet? || e.UnlockGet?)
    ensures Inv(Step(s, e).value, max, k)
  {
    GotoCounts(s.threads, e.t, Idle);
    MoveKeepsCover(s, e.t, Idle);
    SignalGetIs(Goto(s, e.t, Idle), e.wake);
  }

  lemma WakeKeepsInv<T>(s: State<T>, e: Event<T>, max: nat, k: nat)
    requires Inv(s, max, k) && Step(s, e).Some? && (e.Spurious? || e.Timeout?)
    ensures Inv(Step(s, e).value, max, k)
  {
    var p := Step(s, e).value.threads[e.t];
    GotoCounts(s.threads, e.t, p);
    WaitCounts(s.threads, e.t, p);
  }

  lemma StepKeepsInv<T>(s: State<T>, e: Event<T>, max: nat, k: nat)
    requires Inv(s, max, k) && Step(s, e).Some?
    ensures Inv(Step(s, e).value, max, k + if e.UnlockPut? then 1 else 0)
  {
    match e
    case CallPut(t, x, timed) => TestPutKeepsInv(s, t, x, timed, false, max, k);
    case ResumePut(t) => var p := s.threads[t]; TestPutKeepsInv(s, t, p.x, p.timed, p.expired, max, k);
    case PutSection(t) => PutSectionKeepsInv(s, t, max, k);
    case CallGet(t, timed) => TestGetKeepsInv(s, t, timed, false, max, k);
    case ResumeGet(t) => var p := s.threads[t]; TestGetKeepsInv(s, t, p.timed, p.expired, max, k);
    case GetSection(t) => GetSectionKeepsInv(s, t, max, k);
    case _ =>
      if e.Spurious? || e.Timeout? { WakeKeepsInv(s, e, max, k); }
      else if e.PostGet? || e.RestoreGet? || e.UnlockGet? { PostGetKeepsInv(s, e, max, k); }
      else { PostPutKeepsInv(s, e, max, k); }
  }

  /** Every interleaving, with any number of `unlock_queue` calls anywhere in it:
      both permit sums are off by exactly the number of those calls, no wakeup is
      lost, `in_use_` marks the window, and what went in is what came out followed by
      the window. */
  lemma {:induction false} EveryRunKeepsInv<T>(max: nat, zero: T, n: nat, run: seq<Event<T>>)
    requires max > 1 && Exec(Init(max, zero, n), run).Some?
    ensures Inv(Exec(Init(max, zero, n), run).value, max, Unlocks(run))
  {
    if run == [] {
      OutsideCounts(Init(max, zero, n).threads);
      NobodyParked(Init(max, zero, n).threads);
    } else {
      var before := run[..|run| - 1];
      EveryRunKeepsInv(max, zero, n, before);
      StepKeepsInv(Exec(Init(max, zero, n), before).value, run[|run| - 1], max, Unlocks(before));
    }
  }

  // ---- Fallbacks ----------------------------------------------------------

  /** Without `unlock_queue`, a thread that holds a permit always finds the ring
      as the permit promised: neither fallback branch is ever taken. */
  lemma FallbacksUnreachable<T>(max: nat, zero: T, n: nat, run: seq<Event<T>>, t: nat)
    requires max > 1 && Exec(Init(max, zero, n), run).Some?
    requires Unlocks(run) == 0
    requires t < |Exec(Init(max, zero, n), run).value.threads|
    ensures var s := Exec(Init(max, zero, n), run).value;
            && s.ring.WellIndexed()
            && (s.threads[t].PutHolding? ==> s.ring.Put(s.threads[t].x).Some?)
            && (s.threads[t].GetHolding? ==> s.ring.Get().Some?)
  {
    EveryRunKeepsInv(max, zero, n, run);
    var s := Exec(Init(max, zero, n), run).value;
    CountUpdate(s.threads, t, Idle, IsPutHolding);
    CountUpdate(s.threads, t, Idle, IsGetHolding);
    if s.threads[t].PutHolding? { PutAppends(s.ring, s.threads[t].x); }
  }

  /** The full or the empty fallback has just been taken by some thread. */
  ghost predicate TakesFallback<T>(s: State<T>, full: bool) {
    exists t :: 0 <= t < |s.threads| && if full then s.threads[t].PutRefused? else s.threads[t].GetRefused?
  }

  lemma {:induction false} NeverRefused<T>(max: nat, zero: T, n: nat, run: seq<Event<T>>)
    requires max > 1 && Exec(Init(max, zero, n), run).Some? && Unlocks(run) == 0
    ensures forall p :: p in Exec(Init(max, zero, n), run).value.threads ==> !p.PutRefused? && !p.GetRefused?
  {
    if run != [] {
      var before, e := run[..|run| - 1], run[|run| - 1];
      NeverRefused(max, zero, n, before);
      FallbacksUnreachable(max, zero, n, before, e.t);
    }
  }

  lemma {:induction false} ExecAppend<T>(s: State<T>, run: seq<Event<T>>, e: Event<T>)
    requires Exec(s, run).Some?
    ensures Exec(s, run + [e]) == Step(Exec(s, run).value, e)
    ensures Unlocks(run + [e]) == Unlocks(run) + if e.UnlockPut? then 1 else 0
  {
    assert (run + [e])[..|run|] == run;
  }

  lemma {:induction false} ExecTwo<T>(s: State<T>, before: seq<Event<T>>, e: Event<T>, f: Event<T>, m: State<T>,
                                      u: State<T>) returns (run: seq<Event<T>>)
    requires Exec(s, before).Some? && Step(Exec(s, before).value, e) == Some(m) && Step(m, f) == Some(u)
    ensures Exec(s, run) == Some(u)
    ensures Unlocks(run) == Unlocks(before) + One(e.UnlockPut?) + One(f.UnlockPut?)
  {
    ExecAppend(s, before, e);
    ExecAppend(s, before + [e], f);
    run := before + [e] + [f];
  }

  function Posted<T>(s: State<T>, k: nat): State<T> {
    s.(putPermits := s.putPermits + k, getPermits := s.getPermits + k)
  }

  /** One `unlock_queue` by an only thread. */
  lemma UnlockSteps<T>(s: State<T>, k: nat) returns (m: State<T>)
    requires s.ring.WellIndexed() && s.threads == [Idle]
    ensures Step(Posted(s, k), UnlockPut(0, 0)) == Some(m)
    ensures Step(m, UnlockGet(0, 0)) == Some(Posted(s, k + 1))
  {
    m := Step(Posted(s, k), UnlockPut(0, 0)).value;
    assert m.threads[0 := Idle] == s.threads;
  }

  /** The only thread of a queue calls `unlock_queue` `k` times. */
  lemma {:induction false} UnlockTimes<T>(s: State<T>, k: nat) returns (run: seq<Event<T>>)
    requires s.ring.WellIndexed() && s.threads == [Idle]
    ensures Exec(s, run) == Some(Posted(s, k)) && Unlocks(run) == k
  {
    if k == 0 {
      run := [];
    } else {
      var before := UnlockTimes(s, k - 1);
      var m := UnlockSteps(s, k - 1);
      run := ExecTwo(s, before, UnlockPut(0, 0), UnlockGet(0, 0), m, Posted(s, k));
    }
  }

  /** It then puts `m` payloads. */
  lemma {:induction false} FillTo<T>(max: nat, zero: T, k: nat, m: nat) returns (run: seq<Event<T>>)
    requires max > 1 && m < max
    ensures Unlocks(run) == k && Exec(Init(max, zero, 1), run).Some?
    ensures var s := Exec(Init(max, zero, 1), run).value;
            && s.ring.WellIndexed() && s.ring.Occupied() == m && s.threads == [Idle]
            && s.putPermits == max - 1 - m + k && s.getPermits == m + k
  {
    if m == 0 {
      assert Init(max, zero, 1).threads == [Idle];
      run := UnlockTimes(Init(max, zero, 1), k);
    } else {
      var before := FillTo(max, zero, k, m - 1);
      EveryRunKeepsInv(max, zero, 1, before);
      run := OnePut(max, zero, before);
    }
  }

  lemma {:induction false} OnePut<T>(max: nat, zero: T, before: seq<Event<T>>) returns (run: seq<Event<T>>)
    requires max > 1 && Exec(Init(max, zero, 1), before).Some?
    requires var s := Exec(Init(max, zero, 1), before).value;
             && s.ring.Valid() && s.ring.Max() == max && s.ring.Occupied() < max - 1
             && s.threads == [Idle] && s.putPermits > 0
    ensures Unlocks(run) == Unlocks(before) && Exec(Init(max, zero, 1), run).Some?
    ensures var s, s' := Exec(Init(max, zero, 1), before).value, Exec(Init(max, zero, 1), run).value;
            && s'.ring.WellIndexed() && s'.ring.Occupied() == s.ring.Occupied() + 1 && s'.threads == [Idle]
            && s'.putPermits == s.putPermits - 1 && s'.getPermits == s.getPermits + 1
  {
    PutAppends(Exec(Init(max, zero, 1), before).value.ring, zero);
    ExecAppend(Init(max, zero, 1), before, CallPut(0, zero, false));
    run := before + [CallPut(0, zero, false)];
    ExecAppend(Init(max, zero, 1), run, PutSection(0));
    run := run + [PutSection(0)];
    ExecAppend(Init(max, zero, 1), run, PostGet(0, 0));
    run := run + [PostGet(0, 0)];
  }

  /** A permit that stands for nothing is taken to the section and refused there. */
  lemma RefusedPut<T>(s: State<T>, x: T) returns (m: State<T>)
    requires s.ring.Valid() && s.ring.Occupied() == s.ring.Max() - 1 && s.threads == [Idle] && s.putPermits > 0
    ensures Step(s, CallPut(0, x, false)) == Some(m) && Step(m, PutSection(0)).Some?
    ensures TakesFallback(Step(m, PutSection(0)).value, true)
  {
    m := Step(s, CallPut(0, x, false)).value;
    PutAppends(s.ring, x);
    assert Step(m, PutSection(0)).value.threads[0] == PutRefused;
  }

  lemma RefusedGet<T>(s: State<T>) returns (m: State<T>)
    requires s.ring.Valid() && s.ring.Occupied() == 0 && s.threads == [Idle] && s.getPermits > 0
    ensures Step(s, CallGet(0, false)) == Some(m) && Step(m, GetSection(0)).Some?
    ensures TakesFallback(Step(m, GetSection(0)).value, false)
  {
    m := Step(s, CallGet(0, false)).value;
    GetRemovesOldest(s.ring);
    assert Step(m, GetSection(0)).value.threads[0] == GetRefused;
  }

  lemma {:induction false} ReachFallback<T>(max: nat, zero: T, k: nat, full: bool) returns (run: seq<Event<T>>)
    requires max > 1 && k > 0
    ensures Exec(Init(max, zero, 1), run).Some? && Unlocks(run) == k
    ensures TakesFallback(Exec(Init(max, zero, 1), run).value, full)
  {
    var before := FillTo(max, zero, k, if full then max - 1 else 0);
    EveryRunKeepsInv(max, zero, 1, before);
    if full {
      var m := RefusedPut(Exec(Init(max, zero, 1), before).value, zero);
      run := ExecTwo(Init(max, zero, 1), before, CallPut(0, zero, false), PutSection(0), m,
                     Step(m, PutSection(0)).value);
    } else {
      var m := RefusedGet(Exec(Init(max, zero, 1), before).value);
      run := ExecTwo(Init(max, zero, 1), before, CallGet(0, false), GetSection(0), m, Step(m, GetSection(0)).value);
    }
  }

  /** Each fallback is reached by some run with `k` calls of `unlock_queue` exactly
      when `k` is positive. */
  lemma UnlockReachesFallback<T>(max: nat, zero: T, k: nat, full: bool)
    requires max > 1
    ensures (exists n, run: seq<Event<T>> :: && Exec(Init(max, zero, n), run).Some? && Unlocks(run) == k
                                             && TakesFallback(Exec(Init(max, zero, n), run).value, full)) <==> k > 0
  {
    if k > 0 { var run := ReachFallback(max, zero, k, full); }
    else {
      forall n: nat, run: seq<Event<T>> | Exec(Init(max, zero, n), run).Some? && Unlocks(run) == 0
        ensures !TakesFallback(Exec(Init(max, zero, n), run).value, full)
      {
        NeverRefused(max, zero, n, run);
      }
    }
  }

  /** No live payload is ever overwritten or dropped, whatever the run: a step
      leaves every live node alone except the oldest one, which `GetSection` hands out. */
  lemma LivePayloadsKept<T>(max: nat, zero: T, n: nat, run: seq<Event<T>>, e: Event<T>, j: nat)
    requires max > 1 && Exec(Init(max, zero, n), run).Some?
    requires j < max && Step(Exec(Init(max, zero, n), run).value, e).Some?
    ensures var s := Exec(Init(max, zero, n), run).value;
            var s' := Step(s, e).value;
            && s.ring.Max() == s'.ring.Max() == max
            && (s.ring.nodes[j].inUse && s'.ring.nodes[j] != s.ring.nodes[j] ==>
                  e.GetSection? && j == s.ring.front && s'.dequeued == s.dequeued + [s.ring.nodes[j].data])
  {
    EveryRunKeepsInv(max, zero, n, run);
    var s := Exec(Init(max, zero, n), run).value;
    if e.PutSection? { PutAppends(s.ring, s.threads[e.t].x); }
  }

  /** When nobody is inside an operation the permits count the slots exactly. */
  lemma QuiescentPermits<T>(max: nat, zero: T, n: nat, run: seq<Event<T>>)
    requires max > 1 && Exec(Init(max, zero, n), run).Some?
    requires forall p :: p in Exec(Init(max, zero, n), run).value.threads ==> Outside(p)
    ensures var s := Exec(Init(max, zero, n), run).value;
            && |s.enqueued| - |s.dequeued| <= max - 1
            && s.getPermits == |s.enqueued| - |s.dequeued| + Unlocks(run)
            && s.putPermits == max - 1 - (|s.enqueued| - |s.dequeued|) + Unlocks(run)
  {
    EveryRunKeepsInv(max, zero, n, run);
    OutsideCounts(Exec(Init(max, zero, n), run).value.threads);
  }

  // ---- Waiting ------------------------------------------------------------

  /** When nothing is left to do but wait, a parked producer means a full ring and a
      parked consumer an empty one; and nobody is parked once `unlock_queue` has been
      called. */
  lemma SettledWaitersAreRight<T>(max: nat, zero: T, n: nat, run: seq<Event<T>>, t: nat)
    requires max > 1 && Exec(Init(max, zero, n), run).Some?
    requires var s := Exec(Init(max, zero, n), run).value;
             && (forall p :: p in s.threads ==> p.Idle? || p.PutParked? || p.GetParked?)
             && t < |s.threads| && !s.threads[t].Idle?
    ensures var s := Exec(Init(max, zero, n), run).value;
            && Unlocks(run) == 0
            && |s.enqueued| - |s.dequeued| == if s.threads[t].PutParked? then max - 1 else 0
  {
    QuiescentPermits(max, zero, n, run);
    EveryRunKeepsInv(max, zero, n, run);
    var s := Exec(Init(max, zero, n), run).value;
    NobodyWoken(s.threads);
    CountUpdate(s.threads, t, Idle, IsPutParked);
    CountUpdate(s.threads, t, Idle, IsGetParked);
  }

  lemma {:induction false} NobodyWoken<T>(ts: seq<Pc<T>>)
    requires forall i :: 0 <= i < |ts| ==> ts[i].Idle? || ts[i].PutParked? || ts[i].GetParked?
    ensures Count(ts, IsPutWoken) == Count(ts, IsGetWoken) == 0
  {
    if ts != [] { NobodyWoken(ts[1..]); }
  }

  lemma WokenProducer<T>(s: State<T>, max: nat, k: nat, c: nat) returns (t: nat)
    requires Inv(s, max, k) && c < |s.threads| && s.threads[c].PutParked? && s.putPermits > 0
    ensures t < |s.threads| && s.threads[t].PutWoken?
    ensures Step(s, ResumePut(t)) == Some(Goto(s, t, PutHolding(s.threads[t].x)).(putPermits := s.putPermits - 1))
  {
    CountPositive(s.threads, IsPutParked);
    assert IsPutParked(s.threads[c]);
    CountPositive(s.threads, IsPutWoken);
    t :| 0 <= t < |s.threads| && IsPutWoken(s.threads[t]);
  }

  lemma PermitPublishes<T>(s: State<T>, max: nat, t: nat, x: T)
    requires Inv(s, max, 0) && t < |s.threads| && s.putPermits > 0
    ensures var m := Goto(s, t, PutHolding(x)).(putPermits := s.putPermits - 1);
            Step(m, PutSection(t)).Some? && Step(m, PutSection(t)).value.enqueued == s.enqueued + [x]
  {
    PutAppends(s.ring, x);
  }

  /** While a producer is parked although a put permit is there, some woken producer
      takes it in its next step; and without `unlock_queue` it publishes its payload
      in the step after that. */
  lemma {:induction false} WaitingProducerIsServed<T>(max: nat, zero: T, n: nat, run: seq<Event<T>>, c: nat)
    returns (t: nat)
    requires max > 1 && Exec(Init(max, zero, n), run).Some?
    requires var s := Exec(Init(max, zero, n), run).value;
             c < |s.threads| && s.threads[c].PutParked? && s.putPermits > 0
    ensures var s := Exec(Init(max, zero, n), run).value;
            && t < |s.threads| && s.threads[t].PutWoken?
            && Step(s, ResumePut(t)) == Some(Goto(s, t, PutHolding(s.threads[t].x)).(putPermits := s.putPermits - 1))
            && (Unlocks(run) == 0 ==>
                  var m := Step(s, ResumePut(t)).value;
                  && Step(m, PutSection(t)).Some?
                  && Step(m, PutSection(t)).value.enqueued == s.enqueued + [s.threads[t].x])
  {
    EveryRunKeepsInv(max, zero, n, run);
    var s := Exec(Init(max, zero, n), run).value;
    t := WokenProducer(s, max, Unlocks(run), c);
    if Unlocks(run) == 0 { PermitPublishes(s, max, t, s.threads[t].x); }
  }

  lemma WokenConsumer<T>(s: State<T>, max: nat, k: nat, c: nat) returns (t: nat)
    requires Inv(s, max, k) && c < |s.threads| && s.threads[c].GetParked? && s.getPermits > 0
    ensures t < |s.threads| && s.threads[t].GetWoken?
    ensures Step(s, ResumeGet(t)) == Some(Goto(s, t, GetHolding).(getPermits := s.getPermits - 1))
  {
    CountPositive(s.threads, IsGetParked);
    assert IsGetParked(s.threads[c]);
    CountPositive(s.threads, IsGetWoken);
    t :| 0 <= t < |s.threads| && IsGetWoken(s.threads[t]);
  }

  lemma PermitRemoves<T>(s: State<T>, max: nat, t: nat)
    requires Inv(s, max, 0) && t < |s.threads| && s.getPermits > 0
    ensures |s.dequeued| < |s.enqueued|
    ensures var m := Goto(s, t, GetHolding).(getPermits := s.getPermits - 1);
            && Step(m, GetSection(t)).Some?
            && Step(m, GetSection(t)).value.dequeued == s.dequeued + [s.enqueued[|s.dequeued|]]
  {
    GetRemovesOldest(s.ring);
  }

  /** The same for consumers: the woken one takes the oldest payload. */
  lemma {:induction false} WaitingConsumerIsServed<T>(max: nat, zero: T, n: nat, run: seq<Event<T>>, c: nat)
    returns (t: nat)
    requires max > 1 && Exec(Init(max, zero, n), run).Some?
    requires var s := Exec(Init(max, zero, n), run).value;
             c < |s.threads| && s.threads[c].GetParked? && s.getPermits > 0
    ensures var s := Exec(Init(max, zero, n), run).value;
            && t < |s.threads| && s.threads[t].GetWoken?
            && Step(s, ResumeGet(t)) == Some(Goto(s, t, GetHolding).(getPermits := s.getPermits - 1))
            && (Unlocks(run) == 0 ==>
                  var m := Step(s, ResumeGet(t)).value;
                  && Step(m, GetSection(t)).Some? && |s.dequeued| < |s.enqueued|
                  && Step(m, GetSection(t)).value.dequeued == s.dequeued + [s.enqueued[|s.dequeued|]])
  {
    EveryRunKeepsInv(max, zero, n, run);
    var s := Exec(Init(max, zero, n), run).value;
    t := WokenConsumer(s, max, Unlocks(run), c);
    if Unlocks(run) == 0 { PermitRemoves(s, max, t); }
  }

  // ---- What callers get ---------------------------------------------------

  /** A thread as its events tell it: its last call, its last step, and what its own
      steps have added to the two histories since that call. */
  datatype Trace<T> = Trace(call: Option<Event<T>>, own: Option<Event<T>>, published: seq<T>, removed: seq<T>)

  /** What a history gained. */
  function Gained<T>(before: seq<T>, after: seq<T>): seq<T> {
    if |before| <= |after| then after[|before|..] else []
  }

  function Record<T>(tr: Trace<T>, e: Event<T>, published: seq<T>, removed: seq<T>): Trace<T> {
    if e.CallPut? || e.CallGet? || e.UnlockPut? then Trace(Some(e), Some(e), published, removed)
    else Trace(tr.call, Some(e), tr.published + published, tr.removed + removed)
  }

  function TraceOf<T>(s: State<T>, run: seq<Event<T>>, t: nat): Trace<T>
    requires Exec(s, run).Some?
  {
    if run == [] then Trace(None, None, [], [])
    else
      var before, e := run[..|run| - 1], run[|run| - 1];
      var m, m' := Exec(s, before).value, Exec(s, run).value;
      var tr := TraceOf(s, before, t);
      if e.t != t then tr
      else Record(tr, e, Gained(m.enqueued, m'.enqueued), Gained(m.dequeued, m'.dequeued))
  }

  predicate PutCalled<T>(tr: Trace<T>) { tr.call.Some? && tr.call.value.CallPut? }
  predicate GetCalled<T>(tr: Trace<T>) { tr.call.Some? && tr.call.value.CallGet? }
  predicate TimedOut<T>(tr: Trace<T>) { tr.own.Some? && tr.own.value.Timeout? }

  /** Where a thread may be after these events: on behalf of the call it made, with
      that call's payload, and with nothing added to a history except what its own
      section added. */
  ghost predicate Follows<T>(p: Pc<T>, tr: Trace<T>) {
    p.Idle? || (
      && tr.published == (if p.PutPublished? && PutCalled(tr) then [tr.call.value.x] else [])
      && tr.removed == (if p.GetRemoved? then [p.got] else [])
      && match p
         case PutParked(x, timed) =>
           PutCalled(tr) && tr.call.value.x == x && tr.call.value.timed == timed && !TimedOut(tr)
         case PutWoken(x, timed, expired) =>
           && PutCalled(tr) && tr.call.value.x == x && tr.call.value.timed == timed
           && (expired <==> TimedOut(tr)) && (expired ==> timed)
         case PutHolding(x) => PutCalled(tr) && tr.call.value.x == x
         case GetParked(timed) => GetCalled(tr) && tr.call.value.timed == timed && !TimedOut(tr)
         case GetWoken(timed, expired) =>
           GetCalled(tr) && tr.call.value.timed == timed && (expired <==> TimedOut(tr)) && (expired ==> timed)
         case HalfUnlocked => tr.call.Some? && tr.call.value.UnlockPut?
         case _ => if p.PutPublished? || p.PutRefused? then PutCalled(tr) else GetCalled(tr))
  }

  lemma GainedNothing<T>(h: seq<T>)
    ensures Gained(h, h) == []
  {
  }

  lemma GainedOne<T>(h: seq<T>, x: T)
    ensures Gained(h, h + [x]) == [x]
  {
  }

  /** The step of another thread can only wake this one. */
  lemma OtherStepFollows<T>(s: State<T>, e: Event<T>, t: nat, tr: Trace<T>)
    requires Step(s, e).Some? && t < |s.threads| && e.t != t && Follows(s.threads[t], tr)
    ensures |Step(s, e).value.threads| == |s.threads| && Follows(Step(s, e).value.threads[t], tr)
  {
  }

  /** A thread's own step that is not a section touches no history. */
  lemma OwnStepFollows<T>(s: State<T>, e: Event<T>, tr: Trace<T>)
    requires Step(s, e).Some? && Follows(s.threads[e.t], tr) && !e.PutSection? && !e.GetSection?
    ensures var s' := Step(s, e).value;
            && |s'.threads| == |s.threads| && s'.enqueued == s.enqueued && s'.dequeued == s.dequeued
            && Follows(s'.threads[e.t], Record(tr, e, [], []))
  {
    var r := Record(tr, e, [], []);
    assert tr.published + [] == tr.published && tr.removed + [] == tr.removed;
  }

  lemma PutSectionFollows<T>(s: State<T>, t: nat, tr: Trace<T>)
    requires Step(s, PutSection(t)).Some? && Follows(s.threads[t], tr)
    ensures var s' := Step(s, PutSection(t)).value;
            && |s'.threads| == |s.threads|
            && Follows(s'.threads[t], Record(tr, PutSection(t), Gained(s.enqueued, s'.enqueued),
                                             Gained(s.dequeued, s'.dequeued)))
  {
    GainedNothing(s.enqueued);
    GainedNothing(s.dequeued);
    GainedOne(s.enqueued, s.threads[t].x);
    assert [] + [s.threads[t].x] == [s.threads[t].x];
  }

  lemma GetSectionFollows<T>(s: State<T>, t: nat, tr: Trace<T>)
    requires Step(s, GetSection(t)).Some? && Follows(s.threads[t], tr)
    ensures var s' := Step(s, GetSection(t)).value;
            && |s'.threads| == |s.threads|
            && Follows(s'.threads[t], Record(tr, GetSection(t), Gained(s.enqueued, s'.enqueued),
                                             Gained(s.dequeued, s'.dequeued)))
  {
    GainedNothing(s.enqueued);
    GainedNothing(s.dequeued);
    if s.ring.Get().Some? {
      var x := s.ring.Get().value.0;
      GainedOne(s.dequeued, x);
      assert [] + [x] == [x];
    }
  }

  lemma StepFollows<T>(s: State<T>, e: Event<T>, tr: Trace<T>)
    requires Step(s, e).Some? && Follows(s.threads[e.t], tr)
    ensures var s' := Step(s, e).value;
            && |s'.threads| == |s.threads|
            && Follows(s'.threads[e.t], Record(tr, e, Gained(s.enqueued, s'.enqueued), Gained(s.dequeued, s'.dequeued)))
  {
    if e.PutSection? { PutSectionFollows(s, e.t, tr); }
    else if e.GetSection? { GetSectionFollows(s, e.t, tr); }
    else {
      OwnStepFollows(s, e, tr);
      GainedNothing(s.enqueued);
      GainedNothing(s.dequeued);
    }
  }

  /** In every run every thread is where its own calls have brought it. */
  lemma {:induction false} ThreadsFollowTheirCalls<T>(max: nat, zero: T, n: nat, run: seq<Event<T>>, t: nat)
    requires max > 1 && t < n && Exec(Init(max, zero, n), run).Some?
    ensures var s := Exec(Init(max, zero, n), run).value;
            |s.threads| == n && Follows(s.threads[t], TraceOf(Init(max, zero, n), run, t))
  {
    if run != [] {
      var before, e := run[..|run| - 1], run[|run| - 1];
      ThreadsFollowTheirCalls(max, zero, n, before, t);
      var s, tr := Exec(Init(max, zero, n), before).value, TraceOf(Init(max, zero, n), before, t);
      if e.t == t { StepFollows(s, e, tr); } else { OtherStepFollows(s, e, t, tr); }
    }
  }

  /** What a call returns at the end of a step. */
  datatype Answer<T> = Continues | PutReturns(ok: bool) | GetReturns(item: Option<T>) | UnlockReturns

  function AnswerOf<T>(s: State<T>, e: Event<T>): Answer<T>
    requires Step(s, e).Some?
  {
    if !Step(s, e).value.threads[e.t].Idle? then Continues else
    match s.threads[e.t]
    case PutPublished => PutReturns(true)
    case PutRefused => PutReturns(false)
    case PutWoken(_, _, _) => PutReturns(false)
    case GetRemoved(x) => GetReturns(Some(x))
    case GetRefused => GetReturns(None)
    case GetWoken(_, _) => GetReturns(None)
    case HalfUnlocked => UnlockReturns
    case _ => Continues
  }

  /** The answers of every call in every run. A put that returns success has added
      exactly its caller's payload to the queue, one that returns full has added
      nothing; a get returns exactly the payload it has removed, or has removed
      nothing. A call gives up only when its time has run out and it finds no permit,
      or after an `unlock_queue`. */
  lemma {:induction false} AnswersAreExact<T>(max: nat, zero: T, n: nat, run: seq<Event<T>>, e: Event<T>)
    requires max > 1 && Exec(Init(max, zero, n), run).Some? && Step(Exec(Init(max, zero, n), run).value, e).Some?
    ensures var s := Exec(Init(max, zero, n), run).value;
            var tr := TraceOf(Init(max, zero, n), run, e.t);
            match AnswerOf(s, e)
            case Continues => !Step(s, e).value.threads[e.t].Idle?
            case UnlockReturns => tr.call.Some? && tr.call.value.UnlockPut? && tr.published == [] && tr.removed == []
            case PutReturns(ok) =>
              && PutCalled(tr) && tr.published == (if ok then [tr.call.value.x] else []) && tr.removed == []
              && (!ok ==> (tr.call.value.timed && TimedOut(tr) && s.putPermits == 0) || Unlocks(run) > 0)
            case GetReturns(item) =>
              && GetCalled(tr) && tr.published == [] && tr.removed == (if item.Some? then [item.value] else [])
              && (item.None? ==> (tr.call.value.timed && TimedOut(tr) && s.getPermits == 0) || Unlocks(run) > 0)
  {
    var s := Exec(Init(max, zero, n), run).value;
    RunKeepsThreads(max, zero, n, run);
    ThreadsFollowTheirCalls(max, zero, n, run, e.t);
    if Unlocks(run) == 0 {
      NeverRefused(max, zero, n, run);
      assert s.threads[e.t] in s.threads;
    }
  }

  lemma {:induction false} RunKeepsThreads<T>(max: nat, zero: T, n: nat, run: seq<Event<T>>)
    requires max > 1 && Exec(Init(max, zero, n), run).Some?
    ensures |Exec(Init(max, zero, n), run).value.threads| == n
  {
    if n > 0 { ThreadsFollowTheirCalls(max, zero, n, run, 0); }
    else if run != [] { RunKeepsThreads(max, zero, n, run[..|run| - 1]); }
  }

  /** What a thread at a semaphore does in every run: it takes a permit exactly when
      there is one, gives up exactly when there is none and its time has run out, and
      waits otherwise, always on behalf of its own call. */
  lemma {:induction false} WaitsAreExact<T>(max: nat, zero: T, n: nat, run: seq<Event<T>>, e: Event<T>)
    requires max > 1 && Exec(Init(max, zero, n), run).Some? && Step(Exec(Init(max, zero, n), run).value, e).Some?
    requires e.CallPut? || e.ResumePut? || e.CallGet? || e.ResumeGet?
    ensures var s := Exec(Init(max, zero, n), run).value;
            var s', tr := Step(s, e).value, TraceOf(Init(max, zero, n), run, e.t);
            var resumes := e.ResumePut? || e.ResumeGet?;
            var call, late := if resumes then tr.call else Some(e), resumes && TimedOut(tr);
            && call.Some? && s'.ring == s.ring && e.t < |s'.threads|
            && (e.CallPut? || e.ResumePut? ==>
                  && call.value.CallPut? && s'.getPermits == s.getPermits
                  && s'.putPermits == s.putPermits - One(s.putPermits > 0)
                  && s'.threads[e.t] == if s.putPermits > 0 then PutHolding(call.value.x) else if late then Idle
                                        else PutParked(call.value.x, call.value.timed))
            && (e.CallGet? || e.ResumeGet? ==>
                  && call.value.CallGet? && s'.putPermits == s.putPermits
                  && s'.getPermits == s.getPermits - One(s.getPermits > 0)
                  && s'.threads[e.t] == if s.getPermits > 0 then GetHolding else if late then Idle
                                        else GetParked(call.value.timed))
  {
    RunKeepsThreads(max, zero, n, run);
    ThreadsFollowTheirCalls(max, zero, n, run, e.t);
  }

  /** A section that publishes adds its own caller's payload, and one that removes
      hands its thread the payload it took off the history of the queue. */
  lemma {:induction false} SectionsServeTheirCallers<T>(max: nat, zero: T, n: nat, run: seq<Event<T>>, e: Event<T>)
    requires max > 1 && Exec(Init(max, zero, n), run).Some? && Step(Exec(Init(max, zero, n), run).value, e).Some?
    ensures var s := Exec(Init(max, zero, n), run).value;
            var s', tr := Step(s, e).value, TraceOf(Init(max, zero, n), run, e.t);
            && (s'.enqueued != s.enqueued ==>
                  e.PutSection? && PutCalled(tr) && s'.enqueued == s.enqueued + [tr.call.value.x])
            && (s'.dequeued != s.dequeued ==>
                  && e.GetSection? && GetCalled(tr) && s'.threads[e.t].GetRemoved?
                  && s'.dequeued == s.dequeued + [s'.threads[e.t].got])
  {
    RunKeepsThreads(max, zero, n, run);
    ThreadsFollowTheirCalls(max, zero, n, run, e.t);
  }

  /** Every thread can always go on: a call can be made by any idle thread, a woken
      thread can resume, and a thread inside an operation can take its next step. */
  lemma NobodyIsStuck<T>(s: State<T>, t: nat, x: T, timed: bool) returns (wake: nat)
    requires s.ring.WellIndexed() && t < |s.threads|
    ensures match s.threads[t]
            case Idle =>
              && Step(s, CallPut(t, x, timed)).Some? && Step(s, CallGet(t, timed)).Some?
              && Step(s, UnlockPut(t, wake)).Some?
            case PutParked(_, limited) => Step(s, Spurious(t)).Some? && (Step(s, Timeout(t)).Some? <==> limited)
            case GetParked(limited) => Step(s, Spurious(t)).Some? && (Step(s, Timeout(t)).Some? <==> limited)
            case PutWoken(_, _, _) => Step(s, ResumePut(t)).Some?
            case GetWoken(_, _) => Step(s, ResumeGet(t)).Some?
            case PutHolding(_) => Step(s, PutSection(t)).Some?
            case GetHolding => Step(s, GetSection(t)).Some?
            case PutPublished => Step(s, PostGet(t, wake)).Some?
            case PutRefused => Step(s, RestorePut(t, wake)).Some?
            case GetRemoved(_) => Step(s, PostPut(t, wake)).Some?
            case GetRefused => Step(s, RestoreGet(t, wake)).Some?
            case HalfUnlocked => Step(s, UnlockGet(t, wake)).Some?
  {
    var p := s.threads[t];
    wake := SomeWaiter(s.threads, p.Idle? || p.PutRefused? || p.GetRemoved?);
  }

  lemma SomeWaiter<T>(ts: seq<Pc<T>>, put: bool) returns (wake: nat)
    ensures (wake < |ts| && if put then ts[wake].PutParked? else ts[wake].GetParked?)
            || forall i :: 0 <= i < |ts| ==> if put then !ts[i].PutParked? else !ts[i].GetParked?
  {
    wake := 0;
    if put {
      if i :| 0 <= i < |ts| && ts[i].PutParked? { return i; }
    } else {
      if i :| 0 <= i < |ts| && ts[i].GetParked? { return i; }
    }
  }
}
