/**
 * `PgConnectionPool` and `PgGuard` (src/pgpool.cpp, include/pgpool.hpp): the pool
 * object, and the step machine in which any number of threads wait for, acquire,
 * release and move guards. A connection is known by its address; libpq is a choice of
 * what the health check finds.
 */
module PgPool {
  import opened Common
  import SemaphoreModel

  type Conn = nat

  /** What `release` finds: sound (at once or after `reset`), rebuilt as a new
      object, or still broken because the reconnect threw. */
  datatype Health = Sound | Rebuilt(replacement: Conn) | StillBroken

  /** Index of the first occurrence of `c`. */
  function IndexOf(owned: seq<Conn>, c: Conn): (i: nat)
    requires c in owned
    ensures i < |owned| && owned[i] == c && c !in owned[..i]
  {
    if owned[0] == c then 0 else 1 + IndexOf(owned[1..], c)
  }

  ghost predicate Distinct(cs: seq<Conn>)
  {
    forall i, j :: 0 <= i < j < |cs| ==> cs[i] != cs[j]
  }

  // ---- The pool object ----------------------------------------------------

  /** The pool used by one caller at a time, so that the permit count and the
      length of the free list agree between calls. */
  class PgConnectionPool {
    var owned: seq<Conn>       // `all_connections_`
    var available: seq<Conn>   // `available_pool_`
    const slots: SemaphoreModel.Semaphore   // `available_slots_`

    ghost predicate Valid()
      reads this, slots
    {
      && Distinct(owned) && Distinct(available)
      && |available| == slots.count
      && forall c :: c in available ==> c in owned
    }

    constructor (poolSize: nat)
      ensures owned == [] && available == [] && slots.count == poolSize && fresh(slots)
    {
      owned, available := [], [];
      slots := new SemaphoreModel.Semaphore(poolSize);
    }

    /** Construction: `connects[i]` is what the i-th connection attempt gives. A
        failed attempt throws, and so does reserving a negative size. */
    static method Create(poolSize: int, connects: seq<Option<Conn>>) returns (pool: PgConnectionPool?)
      requires poolSize <= |connects|
      requires forall i, j :: 0 <= i < j < |connects| && connects[i].Some? && connects[j].Some?
                 ==> connects[i].value != connects[j].value   // live objects have distinct addresses
      ensures pool != null <==> poolSize >= 0 && forall i :: 0 <= i < poolSize ==> connects[i].Some?
      ensures pool != null ==> && fresh(pool) && fresh(pool.slots) && pool.Valid()
                               && pool.slots.count == |pool.owned| == poolSize
                               && pool.available == pool.owned
    {
      if poolSize < 0 { return null; }
      var p := new PgConnectionPool(poolSize);
      for i := 0 to poolSize
        invariant fresh(p) && fresh(p.slots) && p.slots.count == poolSize
        invariant |p.owned| == i && p.available == p.owned
        invariant forall j :: 0 <= j < i ==> connects[j] == Some(p.owned[j])
      {
        if connects[i].None? { return null; }
        p.owned := p.owned + [connects[i].value];
        p.available := p.available + [p.owned[|p.owned| - 1]];
      }
      return p;
    }

    /** `acquire` and `try_acquire`: `None` is the timeout. */
    method Acquire() returns (r: Option<Conn>)
      requires Valid()
      modifies this`available, slots
      ensures Valid()
      ensures r.None? <==> old(available) == []
      ensures old(available) == (if r.Some? then [r.value] else []) + available
    {
      var ok := slots.TryWait();
      if !ok { return None; }
      r := Some(available[0]);
      available := available[1..];
    }

    /** `release`, with the search loop of the in-place rebuild. */
    method Release(conn: Conn, h: Health)
      requires Valid() && conn in owned && conn !in available
      requires h.Rebuilt? ==> h.replacement !in owned   // a live object has its own address
      modifies this, slots
      ensures Valid() && |owned| == |old(owned)|
      ensures match h
              case Rebuilt(new_) =>
                && owned == old(owned)[IndexOf(old(owned), conn) := new_]
                && available == old(available) + [new_]
              case _ => owned == old(owned) && available == old(available) + [conn]
    {
      var c := conn;
      if h != Sound {
        var i := 0;
        while i < |owned|
          invariant 0 <= i <= |owned|
          invariant conn !in owned[..i] && owned == old(owned)
          invariant c == conn && available == old(available)
        {
          if owned[i] == conn {
            assert IndexOf(owned, conn) == i;
            match h {
              case Rebuilt(replacement) =>
                owned := owned[i := replacement];
                c := replacement;
              case StillBroken =>
                c := owned[i];
            }
            break;
          }
          i := i + 1;
        }
      }
      available := available + [c];
      slots.Signal();
      if h.Rebuilt? { RebuildKeeps(old(owned), conn, h.replacement); }
    }
  }

  /** A rebuild replaces exactly one connection. */
  lemma RebuildKeeps(owned: seq<Conn>, c: Conn, new_: Conn)
    requires c in owned && new_ !in owned
    ensures var after := owned[IndexOf(owned, c) := new_];
            new_ in after && forall a :: a in owned && a != c ==> a in after
  {
    var after := owned[IndexOf(owned, c) := new_];
    assert after[IndexOf(owned, c)] == new_;
    forall a | a in owned && a != c ensures a in after {
      var i :| 0 <= i < |owned| && owned[i] == a;
      assert after[i] == a;
    }
  }

  // ---- The concurrent machine ---------------------------------------------

  /** A `PgGuard` variable. `Building` is one that an `acquire` is to return, and
      `Releasing` one whose owner is inside `release()`. */
  datatype Guard = Null | Building | Holding(c: Conn) | Releasing

  /** `from` is the source guard of a move assignment. */
  datatype Pc =
    | Idle
    | Parked(g: nat)                                      // in the wait set of `available_slots_`
    | Woken(g: nat, expired: bool)                        // notified, or out of time
    | Acquiring(g: nat)                                   // past the wait, free list not yet popped
    | Checking(g: nat, c: Conn, from: Option<nat>)        // in the health check, outside the lock
    | Scanning(g: nat, c: Conn, from: Option<nat>, i: nat)    // about to compare slot `i` with `c`, outside the lock
    | Replacing(g: nat, c: Conn, from: Option<nat>, i: nat)   // found `c` in slot `i`
    | Returning(g: nat, c: Conn, from: Option<nat>)       // checked, not yet on the free list
    | Posting(g: nat, from: Option<nat>)                  // on the free list, permit not yet signalled
    | Finishing(g: nat, from: Option<nat>)                // signalled, guard fields not yet overwritten

  predicate IsParked(p: Pc) { p.Parked? }
  predicate IsWoken(p: Pc) { p.Woken? }
  predicate IsAcquiring(p: Pc) { p.Acquiring? }
  predicate IsPosting(p: Pc) { p.Posting? }
  predicate IsCarrying(p: Pc) { p.Checking? || p.Scanning? || p.Replacing? || p.Returning? }
  predicate IsHolding(g: Guard) { g.Holding? }

  datatype State = State(owned: seq<Conn>, free: seq<Conn>, permits: nat, guards: seq<Guard>, threads: seq<Pc>)

  datatype Event =
    | Call(t: nat, g: nat)                   // `try_acquire` has no time left
    | Resume(t: nat)
    | Spurious(t: nat)
    | Timeout(t: nat)
    | PopFront(t: nat)
    | MoveConstruct(g: nat, h: nat)          // `PgGuard g(std::move(h))`
    | Drop(t: nat, g: nat)                   // `g` goes out of scope
    | MoveAssign(t: nat, g: nat, h: nat)     // `g = std::move(h)`
    | Check(t: nat, sound: bool)             // valid at once or after `reset`
    | Scan(t: nat)
    | Replace(t: nat, rebuilt: Option<Conn>) // `None` when the reconnect throws
    | PushBack(t: nat)
    | Signal(t: nat, wake: nat)              // `wake` is the waiter `notify_one` picks
    | Finish(t: nat)

  function Init(conns: seq<Conn>, guards: nat, threads: nat): State {
    State(conns, conns, |conns|, seq(guards, i => Null), seq(threads, i => Idle))
  }

  function Goto(s: State, t: nat, p: Pc): State
    requires t < |s.threads|
  {
    s.(threads := s.threads[t := p])
  }

  predicate Free(gs: seq<Guard>, g: nat) { g < |gs| && (gs[g].Null? || gs[g].Holding?) }

  /** The two fields of `h` taken over by `g`, and nulled in `h`. */
  function MoveInto(gs: seq<Guard>, g: nat, h: nat): seq<Guard>
    requires g < |gs| && h < |gs|
  {
    gs[g := gs[h]][h := Null]
  }

  /** A thread inside `available_slots_` tests for a permit. */
  function Test(s: State, t: nat, g: nat, expired: bool): State
    requires t < |s.threads| && g < |s.guards|
  {
    if s.permits > 0 then Goto(s, t, Acquiring(g)).(permits := s.permits - 1)
    else if expired then Goto(s, t, Idle).(guards := s.guards[g := Null])   // timed out
    else Goto(s, t, Parked(g))
  }

  /** `available_slots_.signal()`: if anyone is parked, `wake` must be one of them. */
  function Post(s: State, wake: nat): Option<State> {
    if wake < |s.threads| && s.threads[wake].Parked?
    then Some(Goto(s, wake, Woken(s.threads[wake].g, false)).(permits := s.permits + 1))
    else if exists i :: 0 <= i < |s.threads| && s.threads[i].Parked? then None
    else Some(s.(permits := s.permits + 1))
  }

  /** One round of the search loop of `release`. */
  function AfterScan(owned: seq<Conn>, p: Pc): Pc
    requires p.Scanning?
  {
    if p.i >= |owned| then Returning(p.g, p.c, p.from)
    else if owned[p.i] == p.c then Replacing(p.g, p.c, p.from, p.i)
    else Scanning(p.g, p.c, p.from, p.i + 1)
  }

  /** The step, or `None` when it cannot happen now. Two threads never work on one
      guard variable at once, so a busy guard is not available to an event. */
  function Step(s: State, e: Event): Option<State> {
    match e
    case Call(t, g) =>
      if t < |s.threads| && s.threads[t].Idle? && g < |s.guards| && s.guards[g].Null?
      then Some(Test(s.(guards := s.guards[g := Building]), t, g, false)) else None
    case Resume(t) =>
      if t < |s.threads| && s.threads[t].Woken? && s.threads[t].g < |s.guards|
      then Some(Test(s, t, s.threads[t].g, s.threads[t].expired)) else None
    case Spurious(t) =>
      if t < |s.threads| && s.threads[t].Parked? then Some(Goto(s, t, Woken(s.threads[t].g, false))) else None
    case Timeout(t) =>
      if t < |s.threads| && s.threads[t].Parked? then Some(Goto(s, t, Woken(s.threads[t].g, true))) else None
    case PopFront(t) =>
      if t < |s.threads| && s.threads[t].Acquiring? && s.threads[t].g < |s.guards|
         && s.guards[s.threads[t].g].Building? && s.free != []
      then var guards := s.guards[s.threads[t].g := Holding(s.free[0])];
           Some(Goto(s, t, Idle).(free := s.free[1..], guards := guards))
      else None
    case MoveConstruct(g, h) =>
      if g != h && g < |s.guards| && s.guards[g].Null? && Free(s.guards, h)
      then Some(s.(guards := MoveInto(s.guards, g, h))) else None
    case Drop(t, g) =>
      if !(t < |s.threads| && s.threads[t].Idle? && Free(s.guards, g)) then None
      else if s.guards[g].Null? then Some(s)
      else Some(Goto(s, t, Checking(g, s.guards[g].c, None)).(guards := s.guards[g := Releasing]))
    case MoveAssign(t, g, h) =>
      if !(t < |s.threads| && s.threads[t].Idle? && Free(s.guards, g) && Free(s.guards, h)) then None
      else if g == h then Some(s)
      else if s.guards[g].Null? then Some(s.(guards := MoveInto(s.guards, g, h)))
      else Some(Goto(s, t, Checking(g, s.guards[g].c, Some(h))).(guards := s.guards[g := Releasing]))
    case Check(t, sound) =>
      if !(t < |s.threads| && s.threads[t].Checking?) then None
      else
        var p := s.threads[t];
        Some(Goto(s, t, if sound then Returning(p.g, p.c, p.from) else Scanning(p.g, p.c, p.from, 0)))
    case Scan(t) =>
      if t < |s.threads| && s.threads[t].Scanning? then Some(Goto(s, t, AfterScan(s.owned, s.threads[t]))) else None
    case Replace(t, rebuilt) =>
      if !(t < |s.threads| && s.threads[t].Replacing? && s.threads[t].i < |s.owned|) then None
      else
        var p := s.threads[t];
        (match rebuilt
         case None => Some(Goto(s, t, Returning(p.g, s.owned[p.i], p.from)))
         case Some(new_) =>
           if new_ in s.owned then None   // a live object has its own address
           else Some(Goto(s, t, Returning(p.g, new_, p.from)).(owned := s.owned[p.i := new_])))
    case PushBack(t) =>
      if t < |s.threads| && s.threads[t].Returning?
      then Some(Goto(s, t, Posting(s.threads[t].g, s.threads[t].from)).(free := s.free + [s.threads[t].c])) else None
    case Signal(t, wake) =>
      if t < |s.threads| && s.threads[t].Posting?
      then Post(Goto(s, t, Finishing(s.threads[t].g, s.threads[t].from)), wake) else None
    case Finish(t) =>
      if t < |s.threads| && s.threads[t].Finishing? && s.threads[t].g < |s.guards|
         && s.guards[s.threads[t].g].Releasing?
      then match s.threads[t].from
           case None => Some(Goto(s, t, Idle).(guards := s.guards[s.threads[t].g := Null]))
           case Some(h) =>
             if Free(s.guards, h) then Some(Goto(s, t, Idle).(guards := MoveInto(s.guards, s.threads[t].g, h)))
             else None
      else None
  }

  function Exec(s: State, run: seq<Event>): Option<State> {
    if run == [] then Some(s) else
    match Exec(s, run[..|run| - 1])
    case None => None
    case Some(m) => Step(m, run[|run| - 1])
  }

  // ---- Who has which connection -------------------------------------------

  function Is(c: Conn): Conn -> bool { x => x == c }
  function GuardHas(c: Conn): Guard -> bool { g => g == Holding(c) }
  function ThreadHas(c: Conn): Pc -> bool { (p: Pc) => IsCarrying(p) && p.c == c }

  /** In how many places `c` is: the free list, a guard, or a thread between a
      guard and the free list. */
  ghost function Places(s: State, c: Conn): nat {
    Count(s.free, Is(c)) + Count(s.guards, GuardHas(c)) + Count(s.threads, ThreadHas(c))
  }

  ghost function Owned(s: State, c: Conn): nat { Count(s.owned, Is(c)) }

  /** The owned connections are distinct and each is in exactly one place; any
      other address is in none. */
  ghost predicate Partitioned(s: State) {
    forall c :: Places(s, c) == Owned(s, c) <= 1
  }

  /** The threads between the semaphore and the free list. */
  ghost function Between(threads: seq<Pc>): nat { Count(threads, IsAcquiring) + Count(threads, IsPosting) }

  /** Free list = permits + acquirers past the wait + releasers not yet signalled. */
  ghost predicate PermitSum(s: State) {
    |s.free| == s.permits + Between(s.threads)
  }

  /** As many connections as ever, wherever they are. */
  ghost predicate Conserved(s: State) {
    |s.owned| == |s.free| + Count(s.guards, IsHolding) + Count(s.threads, IsCarrying)
  }

  /** A searching thread has not passed its connection, and a replacing one stands
      on it, whatever other threads have done to the list meanwhile. */
  ghost predicate OnTrack(owned: seq<Conn>, p: Pc) {
    && (p.Scanning? ==> p.i <= |owned| && p.c !in owned[..p.i])
    && (p.Replacing? ==> p.i < |owned| && owned[p.i] == p.c)
  }

  ghost predicate AllOnTrack(s: State) { forall t :: 0 <= t < |s.threads| ==> OnTrack(s.owned, s.threads[t]) }

  /** No lost wakeup: while someone is parked, every permit has a woken thread. */
  ghost predicate Cover(s: State) {
    Count(s.threads, IsParked) > 0 ==> Count(s.threads, IsWoken) >= s.permits
  }

  predicate Builds(p: Pc) { p.Parked? || p.Woken? || p.Acquiring? }

  /** The source of a move assignment in progress, if `p` is inside one. */
  function SourceOf(p: Pc): Option<nat> { if p.Idle? || Builds(p) then None else p.from }

  /** A thread in `acquire` or `release` is alone with its guard. */
  ghost predicate GuardsOk(gs: seq<Guard>, ts: seq<Pc>) {
    && (forall t :: 0 <= t < |ts| && !ts[t].Idle? ==>
          ts[t].g < |gs| && gs[ts[t].g] == if Builds(ts[t]) then Building else Releasing)
    && (forall t, u | 0 <= t < |ts| && 0 <= u < |ts| ::
          t != u && !ts[t].Idle? && !ts[u].Idle? ==> ts[t].g != ts[u].g)
    && (forall t :: 0 <= t < |ts| && SourceOf(ts[t]).Some? ==>
          SourceOf(ts[t]).value < |gs| && SourceOf(ts[t]).value != ts[t].g)
  }

  ghost predicate Inv(s: State, poolSize: nat) {
    && |s.owned| == poolSize && Partitioned(s) && AllOnTrack(s) && PermitSum(s) && Conserved(s)
    && Cover(s) && GuardsOk(s.guards, s.threads)
  }

  // ---- Counting lemmas ----------------------------------------------------

  lemma OwnedIffMember(cs: seq<Conn>, c: Conn)
    ensures Count(cs, Is(c)) > 0 <==> c in cs
  {
  }

  lemma {:induction false} CountAppend(cs: seq<Conn>, c: Conn, at: Conn -> bool)
    ensures Count(cs + [c], at) == Count(cs, at) + if at(c) then 1 else 0
  {
    if cs != [] {
      assert (cs + [c])[1..] == cs[1..] + [c];
      CountAppend(cs[1..], c, at);
    }
  }

  lemma {:induction false} DistinctCount(cs: seq<Conn>, c: Conn)
    requires Distinct(cs)
    ensures Count(cs, Is(c)) <= 1
  {
    if cs != [] {
      DistinctCount(cs[1..], c);
      if cs[0] == c { OwnedIffMember(cs[1..], c); }
    }
  }

  lemma {:induction false} NoneHeld<P>(ps: seq<P>, at: P -> bool)
    requires forall p :: p in ps ==> !at(p)
    ensures Count(ps, at) == 0
  {
    if ps != [] { NoneHeld(ps[1..], at); }
  }

  /** Moving between two guards, the target holding nothing. */
  lemma MoveKeepsCount(gs: seq<Guard>, g: nat, h: nat, c: Conn)
    requires g < |gs| && h < |gs| && g != h && !gs[g].Holding?
    ensures Count(MoveInto(gs, g, h), GuardHas(c)) == Count(gs, GuardHas(c))
  {
    CountUpdate(gs, g, gs[h], GuardHas(c));
    CountUpdate(gs[g := gs[h]], h, Null, GuardHas(c));
  }

  /** A thread between a guard and the free list has a connection of the pool. */
  lemma CarriedIsOwned(s: State, t: nat)
    requires Partitioned(s) && t < |s.threads| && IsCarrying(s.threads[t])
    ensures s.threads[t].c in s.owned
  {
    var c := s.threads[t].c;
    CountUpdate(s.threads, t, Idle, ThreadHas(c));
    assert Places(s, c) == Owned(s, c);
    OwnedIffMember(s.owned, c);
  }

  /** No two threads carry the same connection. */
  lemma CarriedIsUnique(s: State, t: nat, u: nat)
    requires Partitioned(s) && t < |s.threads| && u < |s.threads| && t != u
    requires IsCarrying(s.threads[t]) && IsCarrying(s.threads[u])
    ensures s.threads[t].c != s.threads[u].c
  {
    var c := s.threads[t].c;
    assert Places(s, c) == Owned(s, c) <= 1;
    CountUpdate(s.threads, t, Idle, ThreadHas(c));
    CountUpdate(s.threads[t := Idle], u, Idle, ThreadHas(c));
  }

  // ---- Each step keeps each connection in its one place -------------------

  lemma TestKeepsPlaces(s: State, t: nat, g: nat, expired: bool, c: Conn)
    requires t < |s.threads| && !IsCarrying(s.threads[t]) && g < |s.guards| && s.guards[g].Building?
    ensures Places(Test(s, t, g, expired), c) == Places(s, c)
  {
    CountUpdate(s.threads, t, Test(s, t, g, expired).threads[t], ThreadHas(c));
    CountUpdate(s.guards, g, Null, GuardHas(c));
  }

  lemma AcquireKeepsPlaces(s: State, e: Event, c: Conn)
    requires Step(s, e).Some? && GuardsOk(s.guards, s.threads) && (e.Call? || e.Resume? || e.PopFront?)
    ensures Places(Step(s, e).value, c) == Places(s, c)
  {
    match e
    case Call(t, g) =>
      CountUpdate(s.guards, g, Building, GuardHas(c));
      TestKeepsPlaces(s.(guards := s.guards[g := Building]), t, g, false, c);
    case Resume(t) =>
      TestKeepsPlaces(s, t, s.threads[t].g, s.threads[t].expired, c);
    case PopFront(t) =>
      CountUpdate(s.threads, t, Idle, ThreadHas(c));
      CountUpdate(s.guards, s.threads[t].g, Holding(s.free[0]), GuardHas(c));
  }

  lemma TakeFromGuardKeepsPlaces(s: State, t: nat, g: nat, from: Option<nat>, c: Conn)
    requires t < |s.threads| && s.threads[t].Idle? && g < |s.guards| && s.guards[g].Holding?
    ensures Places(Goto(s, t, Checking(g, s.guards[g].c, from)).(guards := s.guards[g := Releasing]), c) == Places(s, c)
  {
    CountUpdate(s.threads, t, Checking(g, s.guards[g].c, from), ThreadHas(c));
    CountUpdate(s.guards, g, Releasing, GuardHas(c));
  }

  lemma GuardStepKeepsPlaces(s: State, e: Event, c: Conn)
    requires Step(s, e).Some? && (e.MoveConstruct? || e.Drop? || e.MoveAssign? || e.Finish?)
    ensures Places(Step(s, e).value, c) == Places(s, c)
  {
    match e
    case MoveConstruct(g, h) => MoveKeepsCount(s.guards, g, h, c);
    case Drop(t, g) =>
      if s.guards[g].Holding? { TakeFromGuardKeepsPlaces(s, t, g, None, c); }
    case MoveAssign(t, g, h) =>
      if g != h {
        if s.guards[g].Null? { MoveKeepsCount(s.guards, g, h, c); }
        else { TakeFromGuardKeepsPlaces(s, t, g, Some(h), c); }
      }
    case Finish(t) =>
      var p := s.threads[t];
      CountUpdate(s.threads, t, Idle, ThreadHas(c));
      CountUpdate(s.guards, p.g, Null, GuardHas(c));
      if p.from.Some? { MoveKeepsCount(s.guards, p.g, p.from.value, c); }
  }

  /** An in-place rebuild replaces the connection both in `all_connections_` and
      in the hands of the releasing thread. */
  lemma ReplaceKeepsPlaces(s: State, t: nat, rebuilt: Option<Conn>, c: Conn)
    requires Partitioned(s) && AllOnTrack(s) && Step(s, Replace(t, rebuilt)).Some?
    ensures var s' := Step(s, Replace(t, rebuilt)).value; Places(s', c) == Owned(s', c) <= 1
  {
    var p := s.threads[t];
    assert OnTrack(s.owned, p);
    CountUpdate(s.threads, t, Step(s, Replace(t, rebuilt)).value.threads[t], ThreadHas(c));
    assert Places(s, c) == Owned(s, c) <= 1;
    if rebuilt.Some? {
      CountUpdate(s.owned, p.i, rebuilt.value, Is(c));
      OwnedIffMember(s.owned, rebuilt.value);
    }
  }

  lemma SearchKeepsPlaces(s: State, e: Event, c: Conn)
    requires Step(s, e).Some? && (e.Check? || e.Scan? || e.Spurious? || e.Timeout?)
    ensures Places(Step(s, e).value, c) == Places(s, c)
  {
    CountUpdate(s.threads, e.t, Step(s, e).value.threads[e.t], ThreadHas(c));
  }

  lemma PushKeepsPlaces(s: State, t: nat, c: Conn)
    requires Step(s, PushBack(t)).Some?
    ensures Places(Step(s, PushBack(t)).value, c) == Places(s, c)
  {
    var p := s.threads[t];
    CountUpdate(s.threads, t, Posting(p.g, p.from), ThreadHas(c));
    CountAppend(s.free, p.c, Is(c));
  }

  /** What a post does: a permit more, and at most one parked thread woken. */
  lemma PostIs(s: State, wake: nat, at: Pc -> bool)
    requires Post(s, wake).Some? && forall p: Pc :: p.Parked? || p.Woken? ==> !at(p)
    ensures var s' := Post(s, wake).value;
            && s' == s.(permits := s.permits + 1, threads := s'.threads)
            && |s'.threads| == |s.threads| && Count(s'.threads, at) == Count(s.threads, at)
  {
    if wake < |s.threads| && s.threads[wake].Parked? {
      CountUpdate(s.threads, wake, Woken(s.threads[wake].g, false), at);
    }
  }

  lemma SignalKeepsPlaces(s: State, t: nat, wake: nat, c: Conn)
    requires Step(s, Signal(t, wake)).Some?
    ensures var s' := Step(s, Signal(t, wake)).value; Places(s', c) == Places(s, c) && s'.owned == s.owned
  {
    var p := Finishing(s.threads[t].g, s.threads[t].from);
    CountUpdate(s.threads, t, p, ThreadHas(c));
    PostIs(Goto(s, t, p), wake, ThreadHas(c));
  }

  lemma StepKeepsPartition(s: State, e: Event)
    requires Partitioned(s) && AllOnTrack(s) && GuardsOk(s.guards, s.threads) && Step(s, e).Some?
    ensures Partitioned(Step(s, e).value)
  {
    var s' := Step(s, e).value;
    forall c ensures Places(s', c) == Owned(s', c) <= 1 {
      assert Places(s, c) == Owned(s, c) <= 1;
      match e
      case Replace(t, rebuilt) => ReplaceKeepsPlaces(s, t, rebuilt, c);
      case PushBack(t) => PushKeepsPlaces(s, t, c);
      case Signal(t, wake) => SignalKeepsPlaces(s, t, wake, c);
      case _ =>
        if e.Check? || e.Scan? || e.Spurious? || e.Timeout? { SearchKeepsPlaces(s, e, c); }
        else if e.Call? || e.Resume? || e.PopFront? { AcquireKeepsPlaces(s, e, c); }
        else { GuardStepKeepsPlaces(s, e, c); }
    }
  }

  /** Another thread's replacement disturbs no search. */
  lemma ReplaceKeepsTrack(s: State, t: nat, rebuilt: Option<Conn>, u: nat)
    requires Partitioned(s) && AllOnTrack(s) && Step(s, Replace(t, rebuilt)).Some?
    requires u < |s.threads| && u != t
    ensures OnTrack(Step(s, Replace(t, rebuilt)).value.owned, s.threads[u])
  {
    assert OnTrack(s.owned, s.threads[t]) && OnTrack(s.owned, s.threads[u]);
    if s.threads[u].Scanning? || s.threads[u].Replacing? {
      CarriedIsUnique(s, t, u);
      CarriedIsOwned(s, u);
    }
  }

  lemma ScanKeepsTrack(owned: seq<Conn>, p: Pc)
    requires p.Scanning? && OnTrack(owned, p)
    ensures OnTrack(owned, AfterScan(owned, p))
  {
    if p.i < |owned| { TakeSnoc(owned, p.i); }
  }

  /** A step that neither searches nor replaces. */
  lemma OtherKeepsTrack(s: State, e: Event)
    requires AllOnTrack(s) && Step(s, e).Some? && !e.Replace? && !e.Scan? && !e.Signal?
    ensures AllOnTrack(Step(s, e).value)
  {
    var s' := Step(s, e).value;
    forall u | 0 <= u < |s'.threads| ensures OnTrack(s'.owned, s'.threads[u]) {
      assert OnTrack(s.owned, s.threads[u]);
    }
  }

  lemma StepKeepsTrack(s: State, e: Event)
    requires Partitioned(s) && AllOnTrack(s) && Step(s, e).Some?
    ensures AllOnTrack(Step(s, e).value)
  {
    var s' := Step(s, e).value;
    if !e.Replace? && !e.Scan? && !e.Signal? {
      OtherKeepsTrack(s, e);
    } else {
      forall u | 0 <= u < |s'.threads| ensures OnTrack(s'.owned, s'.threads[u]) {
        assert OnTrack(s.owned, s.threads[u]);
        if e.Replace? && u != e.t { ReplaceKeepsTrack(s, e.t, e.rebuilt, u); }
        if e.Scan? && u == e.t { ScanKeepsTrack(s.owned, s.threads[u]); }
      }
    }
  }

  lemma BetweenUpdate(threads: seq<Pc>, t: nat, p: Pc)
    requires t < |threads|
    ensures Between(threads[t := p]) - Between(threads)
            == (if p.Acquiring? || p.Posting? then 1 else 0)
               - (if threads[t].Acquiring? || threads[t].Posting? then 1 else 0)
  {
    CountUpdate(threads, t, p, IsAcquiring);
    CountUpdate(threads, t, p, IsPosting);
  }

  lemma SignalKeepsSums(s: State, t: nat, wake: nat)
    requires Step(s, Signal(t, wake)).Some?
    ensures var s' := Step(s, Signal(t, wake)).value;
            (PermitSum(s) ==> PermitSum(s')) && (Conserved(s) ==> Conserved(s')) && |s'.owned| == |s.owned|
  {
    var p := Finishing(s.threads[t].g, s.threads[t].from);
    var m := Goto(s, t, p);
    BetweenUpdate(s.threads, t, p);
    CountUpdate(s.threads, t, p, IsCarrying);
    PostIs(m, wake, IsAcquiring);
    PostIs(m, wake, IsPosting);
    PostIs(m, wake, IsCarrying);
  }

  lemma StepKeepsPermitSum(s: State, e: Event)
    requires PermitSum(s) && Step(s, e).Some?
    ensures PermitSum(Step(s, e).value) && |Step(s, e).value.owned| == |s.owned|
  {
    if e.Signal? { SignalKeepsSums(s, e.t, e.wake); }
    else if !e.MoveConstruct? { BetweenUpdate(s.threads, e.t, Step(s, e).value.threads[e.t]); }
  }

  lemma MoveKeepsHolders(gs: seq<Guard>, g: nat, h: nat)
    requires g < |gs| && h < |gs| && g != h && !gs[g].Holding?
    ensures Count(MoveInto(gs, g, h), IsHolding) == Count(gs, IsHolding)
  {
    CountUpdate(gs, g, gs[h], IsHolding);
    CountUpdate(gs[g := gs[h]], h, Null, IsHolding);
  }

  lemma TestConserves(s: State, t: nat, g: nat, expired: bool)
    requires Conserved(s) && t < |s.threads| && !IsCarrying(s.threads[t]) && g < |s.guards| && s.guards[g].Building?
    ensures Conserved(Test(s, t, g, expired))
  {
    CountUpdate(s.threads, t, Test(s, t, g, expired).threads[t], IsCarrying);
    CountUpdate(s.guards, g, Null, IsHolding);
  }

  lemma AcquireStepConserves(s: State, e: Event)
    requires Conserved(s) && GuardsOk(s.guards, s.threads) && Step(s, e).Some? && (e.Call? || e.Resume? || e.PopFront?)
    ensures Conserved(Step(s, e).value)
  {
    match e
    case Call(t, g) =>
      CountUpdate(s.guards, g, Building, IsHolding);
      TestConserves(s.(guards := s.guards[g := Building]), t, g, false);
    case Resume(t) => TestConserves(s, t, s.threads[t].g, s.threads[t].expired);
    case PopFront(t) =>
      CountUpdate(s.threads, t, Idle, IsCarrying);
      CountUpdate(s.guards, s.threads[t].g, Holding(s.free[0]), IsHolding);
  }

  lemma ReleaseStepConserves(s: State, e: Event)
    requires Conserved(s) && Step(s, e).Some?
    requires e.Drop? || e.Spurious? || e.Timeout? || e.Check? || e.Scan? || e.Replace? || e.PushBack?
    ensures Conserved(Step(s, e).value)
  {
    CountUpdate(s.threads, e.t, Step(s, e).value.threads[e.t], IsCarrying);
    if e.Drop? { CountUpdate(s.guards, e.g, Releasing, IsHolding); }
  }

  lemma FinishConserves(s: State, t: nat)
    requires Conserved(s) && Step(s, Finish(t)).Some?
    ensures Conserved(Step(s, Finish(t)).value)
  {
    var p := s.threads[t];
    CountUpdate(s.threads, t, Idle, IsCarrying);
    CountUpdate(s.guards, p.g, Null, IsHolding);
    if p.from.Some? { MoveKeepsHolders(s.guards, p.g, p.from.value); }
  }

  lemma MoveStepConserves(s: State, e: Event)
    requires Conserved(s) && Step(s, e).Some? && (e.MoveConstruct? || e.MoveAssign?)
    ensures Conserved(Step(s, e).value)
  {
    match e
    case MoveConstruct(g, h) => MoveKeepsHolders(s.guards, g, h);
    case MoveAssign(t, g, h) =>
      if g != h && s.guards[g].Null? {
        MoveKeepsHolders(s.guards, g, h);
      } else if g != h {
        CountUpdate(s.threads, t, Checking(g, s.guards[g].c, Some(h)), IsCarrying);
        CountUpdate(s.guards, g, Releasing, IsHolding);
      }
  }

  lemma StepConserves(s: State, e: Event)
    requires Conserved(s) && GuardsOk(s.guards, s.threads) && Step(s, e).Some?
    ensures Conserved(Step(s, e).value)
  {
    if e.Finish? { FinishConserves(s, e.t); }
    else if e.Signal? { SignalKeepsSums(s, e.t, e.wake); }
    else if e.MoveConstruct? || e.MoveAssign? { MoveStepConserves(s, e); }
    else if e.Call? || e.Resume? || e.PopFront? { AcquireStepConserves(s, e); }
    else { ReleaseStepConserves(s, e); }
  }

  // ---- Waiting ------------------------------------------------------------

  lemma WaitCounts(ts: seq<Pc>, t: nat, p: Pc)
    requires t < |ts|
    ensures Count(ts[t := p], IsParked) == Count(ts, IsParked) + One(p.Parked?) - One(ts[t].Parked?)
    ensures Count(ts[t := p], IsWoken) == Count(ts, IsWoken) + One(p.Woken?) - One(ts[t].Woken?)
  {
    CountUpdate(ts, t, p, IsParked);
    CountUpdate(ts, t, p, IsWoken);
  }

  lemma PostKeepsCover(s: State, wake: nat)
    requires Cover(s) && Post(s, wake).Some?
    ensures Cover(Post(s, wake).value)
  {
    CountPositive(s.threads, IsParked);
    if wake < |s.threads| && s.threads[wake].Parked? {
      WaitCounts(s.threads, wake, Woken(s.threads[wake].g, false));
    }
  }

  lemma TestKeepsCover(s: State, t: nat, g: nat, expired: bool)
    requires Cover(s) && t < |s.threads| && !s.threads[t].Parked? && g < |s.guards|
    ensures Cover(Test(s, t, g, expired))
  {
    WaitCounts(s.threads, t, Test(s, t, g, expired).threads[t]);
  }

  lemma SignalKeepsCover(s: State, t: nat, wake: nat)
    requires Cover(s) && Step(s, Signal(t, wake)).Some?
    ensures Cover(Step(s, Signal(t, wake)).value)
  {
    var p := Finishing(s.threads[t].g, s.threads[t].from);
    WaitCounts(s.threads, t, p);
    PostKeepsCover(Goto(s, t, p), wake);
  }

  lemma MoveKeepsCover(s: State, s': State, t: nat, p: Pc)
    requires Cover(s) && t < |s.threads| && s'.permits == s.permits && s'.threads == s.threads[t := p]
    requires !p.Parked? && (s.threads[t].Woken? ==> p.Woken?)
    ensures Cover(s')
  {
    WaitCounts(s.threads, t, p);
  }

  lemma ReleaseKeepsCover(s: State, e: Event)
    requires Cover(s) && Step(s, e).Some?
    requires e.Check? || e.Scan? || e.Replace? || e.PushBack? || e.Spurious? || e.Timeout?
    ensures Cover(Step(s, e).value)
  {
    MoveKeepsCover(s, Step(s, e).value, e.t, Step(s, e).value.threads[e.t]);
  }

  lemma GuardStepKeepsCover(s: State, e: Event)
    requires Cover(s) && Step(s, e).Some? && (e.PopFront? || e.Drop? || e.MoveAssign? || e.Finish?)
    ensures Cover(Step(s, e).value)
  {
    MoveKeepsCover(s, Step(s, e).value, e.t, Step(s, e).value.threads[e.t]);
  }

  lemma StepKeepsCover(s: State, e: Event)
    requires Cover(s) && Step(s, e).Some?
    ensures Cover(Step(s, e).value)
  {
    match e
    case Call(t, g) => TestKeepsCover(s.(guards := s.guards[g := Building]), t, g, false);
    case Resume(t) => TestKeepsCover(s, t, s.threads[t].g, s.threads[t].expired);
    case Signal(t, wake) => SignalKeepsCover(s, t, wake);
    case MoveConstruct(_, _) =>
    case _ =>
      if e.PopFront? || e.Drop? || e.MoveAssign? || e.Finish? { GuardStepKeepsCover(s, e); }
      else { ReleaseKeepsCover(s, e); }
  }

  predicate Busy(g: Guard) { g.Building? || g.Releasing? }

  /** Guards that no thread is busy with may change. */
  lemma GuardsMayChange(gs: seq<Guard>, gs': seq<Guard>, ts: seq<Pc>)
    requires GuardsOk(gs, ts) && |gs'| == |gs| && forall g :: 0 <= g < |gs| && Busy(gs[g]) ==> gs'[g] == gs[g]
    ensures GuardsOk(gs', ts)
  {
  }

  /** A thread goes on with its guard. */
  lemma ThreadMayMove(gs: seq<Guard>, ts: seq<Pc>, t: nat, p: Pc)
    requires GuardsOk(gs, ts) && t < |ts| && !p.Idle? && !ts[t].Idle? && p.g == ts[t].g
    requires (Builds(p) <==> Builds(ts[t])) && SourceOf(p) == SourceOf(ts[t])
    ensures GuardsOk(gs, ts[t := p])
  {
  }

  /** A thread begins to work on a guard. */
  lemma ThreadMayBegin(gs: seq<Guard>, ts: seq<Pc>, t: nat, p: Pc)
    requires GuardsOk(gs, ts) && t < |ts| && !p.Idle? && p.g < |gs| && !Busy(gs[p.g])
    requires SourceOf(p).Some? ==> SourceOf(p).value < |gs| && SourceOf(p).value != p.g
    ensures GuardsOk(gs[p.g := if Builds(p) then Building else Releasing], ts[t := p])
  {
  }

  /** A thread is done with its guard. */
  lemma ThreadMayFinish(gs: seq<Guard>, ts: seq<Pc>, t: nat, done: Guard)
    requires GuardsOk(gs, ts) && t < |ts| && !ts[t].Idle?
    ensures ts[t].g < |gs| && GuardsOk(gs[ts[t].g := done], ts[t := Idle])
  {
  }

  lemma AcquireKeepsGuards(s: State, e: Event)
    requires GuardsOk(s.guards, s.threads) && Step(s, e).Some? && (e.Call? || e.Resume? || e.PopFront?)
    ensures var s' := Step(s, e).value; GuardsOk(s'.guards, s'.threads)
  {
    var p := Step(s, e).value.threads[e.t];
    match e
    case Call(t, _) => ThreadMayBegin(s.guards, s.threads, t, p);
    case Resume(t) =>
      if p.Idle? { ThreadMayFinish(s.guards, s.threads, t, Null); } else { ThreadMayMove(s.guards, s.threads, t, p); }
    case PopFront(t) => ThreadMayFinish(s.guards, s.threads, t, Holding(s.free[0]));
  }

  lemma SignalKeepsGuards(s: State, t: nat, wake: nat)
    requires GuardsOk(s.guards, s.threads) && Step(s, Signal(t, wake)).Some?
    ensures var s' := Step(s, Signal(t, wake)).value; GuardsOk(s'.guards, s'.threads)
  {
    var m := Goto(s, t, Finishing(s.threads[t].g, s.threads[t].from));
    ThreadMayMove(s.guards, s.threads, t, m.threads[t]);
    if wake < |m.threads| && m.threads[wake].Parked? {
      ThreadMayMove(m.guards, m.threads, wake, Woken(m.threads[wake].g, false));
    }
  }

  lemma ReleaseKeepsGuards(s: State, e: Event)
    requires GuardsOk(s.guards, s.threads) && Step(s, e).Some?
    requires e.Check? || e.Scan? || e.Replace? || e.PushBack? || e.Spurious? || e.Timeout?
    ensures var s' := Step(s, e).value; GuardsOk(s'.guards, s'.threads)
  {
    ThreadMayMove(s.guards, s.threads, e.t, Step(s, e).value.threads[e.t]);
  }

  lemma DropKeepsGuards(s: State, e: Event)
    requires GuardsOk(s.guards, s.threads) && Step(s, e).Some? && (e.Drop? || e.MoveAssign? || e.MoveConstruct?)
    ensures var s' := Step(s, e).value; GuardsOk(s'.guards, s'.threads)
  {
    var s' := Step(s, e).value;
    if e.MoveConstruct? || s'.threads == s.threads { GuardsMayChange(s.guards, s'.guards, s.threads); }
    else { ThreadMayBegin(s.guards, s.threads, e.t, s'.threads[e.t]); }
  }

  lemma FinishKeepsGuards(s: State, t: nat)
    requires GuardsOk(s.guards, s.threads) && Step(s, Finish(t)).Some?
    ensures var s' := Step(s, Finish(t)).value; GuardsOk(s'.guards, s'.threads)
  {
    var p := s.threads[t];
    match p.from
    case None => ThreadMayFinish(s.guards, s.threads, t, Null);
    case Some(h) =>
      ThreadMayFinish(s.guards, s.threads, t, s.guards[h]);
      var gs := s.guards[p.g := s.guards[h]];
      GuardsMayChange(gs, gs[h := Null], s.threads[t := Idle]);
  }

  lemma StepKeepsGuards(s: State, e: Event)
    requires GuardsOk(s.guards, s.threads) && Step(s, e).Some?
    ensures var s' := Step(s, e).value; GuardsOk(s'.guards, s'.threads)
  {
    if e.Call? || e.Resume? || e.PopFront? { AcquireKeepsGuards(s, e); }
    else if e.Signal? { SignalKeepsGuards(s, e.t, e.wake); }
    else if e.Finish? { FinishKeepsGuards(s, e.t); }
    else if e.MoveConstruct? || e.Drop? || e.MoveAssign? { DropKeepsGuards(s, e); }
    else { ReleaseKeepsGuards(s, e); }
  }

  // ---- Runs ---------------------------------------------------------------

  /** Pool safety in every interleaving, across rebuilds and guard moves: always
      `pool_size` distinct connections, each in exactly one place, and a free list
      as long as the permits plus the threads between semaphore and list. */
  lemma {:induction false} EveryRunKeepsInv(conns: seq<Conn>, guards: nat, threads: nat, run: seq<Event>)
    requires Distinct(conns) && Exec(Init(conns, guards, threads), run).Some?
    ensures Inv(Exec(Init(conns, guards, threads), run).value, |conns|)
  {
    if run == [] {
      var s := Init(conns, guards, threads);
      NoneHeld(s.threads, IsAcquiring);
      NoneHeld(s.threads, IsPosting);
      NoneHeld(s.threads, IsCarrying);
      NoneHeld(s.threads, IsParked);
      NoneHeld(s.guards, IsHolding);
      forall c ensures Places(s, c) == Owned(s, c) <= 1 {
        NoneHeld(s.guards, GuardHas(c));
        NoneHeld(s.threads, ThreadHas(c));
        DistinctCount(conns, c);
      }
    } else {
      var before := run[..|run| - 1];
      EveryRunKeepsInv(conns, guards, threads, before);
      var s, e := Exec(Init(conns, guards, threads), before).value, run[|run| - 1];
      StepKeepsPartition(s, e);
      StepKeepsTrack(s, e);
      StepKeepsPermitSum(s, e);
      StepConserves(s, e);
      StepKeepsCover(s, e);
      StepKeepsGuards(s, e);
    }
  }

  /** While a thread is parked in `acquire` although a permit is there, some woken
      thread takes it in its next step and the connection freed longest ago in the
      step after that. */
  lemma WaitingThreadIsServed(conns: seq<Conn>, guards: nat, threads: nat, run: seq<Event>, c: nat) returns (t: nat)
    requires Distinct(conns) && Exec(Init(conns, guards, threads), run).Some?
    requires var s := Exec(Init(conns, guards, threads), run).value;
             c < |s.threads| && s.threads[c].Parked? && s.permits > 0
    ensures var s := Exec(Init(conns, guards, threads), run).value;
            && t < |s.threads| && s.threads[t].Woken? && s.free != [] && Step(s, Resume(t)).Some?
            && var m := Step(s, Resume(t)).value;
               Step(m, PopFront(t)).Some? && Step(m, PopFront(t)).value.guards[s.threads[t].g] == Holding(s.free[0])
  {
    EveryRunKeepsInv(conns, guards, threads, run);
    t := WokenThread(Exec(Init(conns, guards, threads), run).value, |conns|, c);
  }

  lemma WokenThread(s: State, poolSize: nat, c: nat) returns (t: nat)
    requires Inv(s, poolSize) && c < |s.threads| && s.threads[c].Parked? && s.permits > 0
    ensures t < |s.threads| && s.threads[t].Woken? && s.free != [] && Step(s, Resume(t)).Some?
    ensures var m := Step(s, Resume(t)).value;
            Step(m, PopFront(t)).Some? && Step(m, PopFront(t)).value.guards[s.threads[t].g] == Holding(s.free[0])
  {
    CountPositive(s.threads, IsParked);
    assert IsParked(s.threads[c]);
    CountPositive(s.threads, IsWoken);
    t :| 0 <= t < |s.threads| && IsWoken(s.threads[t]);
    assert Builds(s.threads[t]);
  }

  /** When every thread is idle or parked and someone is parked, every connection is
      in a guard. */
  lemma SettledWaitersAreRight(conns: seq<Conn>, guards: nat, threads: nat, run: seq<Event>, c: nat)
    requires Distinct(conns) && Exec(Init(conns, guards, threads), run).Some?
    requires var s := Exec(Init(conns, guards, threads), run).value;
             && (forall p :: p in s.threads ==> p.Idle? || p.Parked?)
             && c < |s.threads| && s.threads[c].Parked?
    ensures var s := Exec(Init(conns, guards, threads), run).value;
            s.permits == 0 && s.free == [] && Count(s.guards, IsHolding) == |conns|
  {
    EveryRunKeepsInv(conns, guards, threads, run);
    var s := Exec(Init(conns, guards, threads), run).value;
    NoneHeld(s.threads, IsAcquiring);
    NoneHeld(s.threads, IsPosting);
    NoneHeld(s.threads, IsCarrying);
    NoneHeld(s.threads, IsWoken);
    CountUpdate(s.threads, c, Idle, IsParked);
  }

  /** `available_pool_.front()` is never taken on an empty list. */
  lemma FrontIsNeverEmpty(conns: seq<Conn>, guards: nat, threads: nat, run: seq<Event>, t: nat)
    requires Distinct(conns) && Exec(Init(conns, guards, threads), run).Some?
    requires t < |Exec(Init(conns, guards, threads), run).value.threads|
    requires Exec(Init(conns, guards, threads), run).value.threads[t].Acquiring?
    ensures Exec(Init(conns, guards, threads), run).value.free != []
  {
    EveryRunKeepsInv(conns, guards, threads, run);
    CountUpdate(Exec(Init(conns, guards, threads), run).value.threads, t, Idle, IsAcquiring);
  }

  /** No connection is in two guards, or in a guard and on the free list, and a
      guard's connection is owned by the pool. */
  lemma GuardsAreExclusive(conns: seq<Conn>, guards: nat, threads: nat, run: seq<Event>, g: nat, h: nat)
    requires Distinct(conns) && Exec(Init(conns, guards, threads), run).Some?
    requires var s := Exec(Init(conns, guards, threads), run).value;
             g < |s.guards| && h < |s.guards| && g != h && s.guards[g].Holding?
    ensures var s := Exec(Init(conns, guards, threads), run).value;
            s.guards[g].c in s.owned && s.guards[g].c !in s.free && s.guards[h] != s.guards[g]
  {
    EveryRunKeepsInv(conns, guards, threads, run);
    var s := Exec(Init(conns, guards, threads), run).value;
    var c := s.guards[g].c;
    assert Places(s, c) == Owned(s, c) <= 1;
    CountUpdate(s.guards, g, Null, GuardHas(c));
    CountUpdate(s.guards[g := Null], h, Null, GuardHas(c));
    OwnedIffMember(s.owned, c);
    OwnedIffMember(s.free, c);
  }

  /** The unlocked search never runs off the end of `all_connections_`, and it
      stops at the first slot of its connection as the list is at that moment. */
  lemma SearchFindsItsSlot(conns: seq<Conn>, guards: nat, threads: nat, run: seq<Event>, t: nat)
    requires Distinct(conns) && Exec(Init(conns, guards, threads), run).Some?
    requires t < |Exec(Init(conns, guards, threads), run).value.threads|
    ensures var s := Exec(Init(conns, guards, threads), run).value;
            var p := s.threads[t];
            && (p.Scanning? ==> p.i < |s.owned| && p.c in s.owned[p.i..])
            && (p.Replacing? ==> p.c in s.owned && p.i == IndexOf(s.owned, p.c))
  {
    EveryRunKeepsInv(conns, guards, threads, run);
    var s := Exec(Init(conns, guards, threads), run).value;
    var p := s.threads[t];
    assert OnTrack(s.owned, p);
    if p.Scanning? || p.Replacing? { CarriedIsOwned(s, t); }
    if p.Replacing? { OnlySlot(s, p.i, IndexOf(s.owned, p.c)); }
  }

  /** The owned connections are distinct. */
  lemma OnlySlot(s: State, i: nat, j: nat)
    requires Partitioned(s) && i < |s.owned| && j < |s.owned| && s.owned[i] == s.owned[j]
    ensures i == j
  {
    var c := s.owned[i];
    assert Places(s, c) == Owned(s, c) <= 1;
    if i != j {
      CountUpdate(s.owned, i, c + 1, Is(c));
      CountUpdate(s.owned[i := c + 1], j, c + 1, Is(c));
    }
  }

  /** Two releasers never replace the same slot of `all_connections_`. */
  lemma RebuildsTouchDistinctSlots(conns: seq<Conn>, guards: nat, threads: nat, run: seq<Event>, t: nat, u: nat)
    requires Distinct(conns) && Exec(Init(conns, guards, threads), run).Some?
    requires var s := Exec(Init(conns, guards, threads), run).value;
             t < |s.threads| && u < |s.threads| && t != u && s.threads[t].Replacing? && s.threads[u].Replacing?
    ensures var s := Exec(Init(conns, guards, threads), run).value;
            && s.threads[t].i < |s.owned| && s.threads[u].i < |s.owned| && s.threads[t].i != s.threads[u].i
  {
    EveryRunKeepsInv(conns, guards, threads, run);
    var s := Exec(Init(conns, guards, threads), run).value;
    assert OnTrack(s.owned, s.threads[t]) && OnTrack(s.owned, s.threads[u]);
    CarriedIsUnique(s, t, u);
  }

  /** Once every guard is empty and no thread is inside the pool, all connections
      are back on the free list and all permits are available again. */
  lemma AllReturned(conns: seq<Conn>, guards: nat, threads: nat, run: seq<Event>)
    requires Distinct(conns) && Exec(Init(conns, guards, threads), run).Some?
    requires forall p :: p in Exec(Init(conns, guards, threads), run).value.threads ==> p.Idle?
    requires forall g :: g in Exec(Init(conns, guards, threads), run).value.guards ==> g.Null?
    ensures var s := Exec(Init(conns, guards, threads), run).value;
            && s.permits == |s.free| == |s.owned| == |conns|
            && forall c :: c in s.free <==> c in s.owned
  {
    EveryRunKeepsInv(conns, guards, threads, run);
    var s := Exec(Init(conns, guards, threads), run).value;
    NoneHeld(s.threads, IsAcquiring);
    NoneHeld(s.threads, IsPosting);
    NoneHeld(s.threads, IsCarrying);
    NoneHeld(s.guards, IsHolding);
    forall c ensures c in s.free <==> c in s.owned {
      assert Places(s, c) == Owned(s, c);
      NoneHeld(s.guards, GuardHas(c));
      NoneHeld(s.threads, ThreadHas(c));
      OwnedIffMember(s.owned, c);
      OwnedIffMember(s.free, c);
    }
  }

  // ---- What callers get ---------------------------------------------------

  /** Whether an event is a step of thread `t`. */
  predicate Own(e: Event, t: nat) { !e.MoveConstruct? && e.t == t }

  /** The last call that thread `t` has made. */
  function LastCall(run: seq<Event>, t: nat): Option<Event> {
    if run == [] then None
    else
      var e := run[|run| - 1];
      if Own(e, t) && (e.Call? || e.Drop? || e.MoveAssign?) then Some(e) else LastCall(run[..|run| - 1], t)
  }

  /** Whether the last thing that happened to thread `t` on its own is that its time
      ran out. */
  predicate TimedOut(run: seq<Event>, t: nat) {
    run != [] && if Own(run[|run| - 1], t) then run[|run| - 1].Timeout? else TimedOut(run[..|run| - 1], t)
  }

  /** The connection thread `t` has to bring back: the one in the guard it gave up, or
      what it was rebuilt as. */
  function Carried(s: State, run: seq<Event>, t: nat): Option<Conn> {
    if run == [] then None
    else
      var before, e := run[..|run| - 1], run[|run| - 1];
      if !Own(e, t) then Carried(s, before, t)
      else if e.Replace? && e.rebuilt.Some? then e.rebuilt
      else if (e.Drop? || e.MoveAssign?) && Exec(s, before).Some? && e.g < |Exec(s, before).value.guards|
              && Exec(s, before).value.guards[e.g].Holding?
      then Some(Exec(s, before).value.guards[e.g].c)
      else Carried(s, before, t)
  }

  /** Where a thread may be: on behalf of the call it made, with that call's guard
      and the connection it has to bring back. */
  predicate Follows(p: Pc, t: nat, call: Option<Event>, late: bool, conn: Option<Conn>) {
    match p
    case Idle => !late
    case Parked(g) => call == Some(Call(t, g)) && !late
    case Woken(g, expired) => call == Some(Call(t, g)) && expired == late
    case Acquiring(g) => call == Some(Call(t, g)) && !late
    case _ =>
      && call == Some(if p.from.None? then Drop(t, p.g) else MoveAssign(t, p.g, p.from.value)) && !late
      && (IsCarrying(p) ==> conn == Some(p.c))
  }

  lemma OtherStepFollows(s: State, e: Event, t: nat, call: Option<Event>, late: bool, conn: Option<Conn>)
    requires Step(s, e).Some? && t < |s.threads| && !Own(e, t) && Follows(s.threads[t], t, call, late, conn)
    ensures |Step(s, e).value.threads| == |s.threads| && Follows(Step(s, e).value.threads[t], t, call, late, conn)
  {
  }

  lemma OwnStepFollows(s: State, e: Event, t: nat, call: Option<Event>, late: bool, conn: Option<Conn>)
    requires Step(s, e).Some? && t < |s.threads| && Own(e, t) && Follows(s.threads[t], t, call, late, conn)
    requires OnTrack(s.owned, s.threads[t])
    ensures var call' := if e.Call? || e.Drop? || e.MoveAssign? then Some(e) else call;
            var conn' := if e.Replace? && e.rebuilt.Some? then e.rebuilt
                         else if (e.Drop? || e.MoveAssign?) && e.g < |s.guards| && s.guards[e.g].Holding?
                         then Some(s.guards[e.g].c) else conn;
            && |Step(s, e).value.threads| == |s.threads|
            && Follows(Step(s, e).value.threads[t], t, call', e.Timeout?, conn')
  {
  }

  /** In every run every thread is where its own calls have brought it. */
  lemma {:induction false} ThreadsFollowTheirCalls(conns: seq<Conn>, guards: nat, threads: nat, run: seq<Event>, t: nat)
    requires Distinct(conns) && Exec(Init(conns, guards, threads), run).Some? && t < threads
    ensures var s := Exec(Init(conns, guards, threads), run).value;
            && |s.threads| == threads
            && Follows(s.threads[t], t, LastCall(run, t), TimedOut(run, t),
                       Carried(Init(conns, guards, threads), run, t))
  {
    if run != [] {
      var s0, before, e := Init(conns, guards, threads), run[..|run| - 1], run[|run| - 1];
      ThreadsFollowTheirCalls(conns, guards, threads, before, t);
      EveryRunKeepsInv(conns, guards, threads, before);
      var s := Exec(s0, before).value;
      assert OnTrack(s.owned, s.threads[t]);
      var call, late, conn := LastCall(before, t), TimedOut(before, t), Carried(s0, before, t);
      if Own(e, t) { OwnStepFollows(s, e, t, call, late, conn); } else { OtherStepFollows(s, e, t, call, late, conn); }
    }
  }

  lemma {:induction false} RunKeepsThreads(conns: seq<Conn>, guards: nat, threads: nat, run: seq<Event>)
    requires Exec(Init(conns, guards, threads), run).Some?
    ensures |Exec(Init(conns, guards, threads), run).value.threads| == threads
  {
    if run != [] { RunKeepsThreads(conns, guards, threads, run[..|run| - 1]); }
  }

  /** A thread at `available_slots_` takes a permit exactly when there is one, gives up
      exactly when there is none and it is too late, and waits otherwise. */
  ghost predicate TakesOrWaits(s: State, s': State, t: nat, g: nat, late: bool) {
    && t < |s'.threads| && g < |s.guards|
    && s'.owned == s.owned && s'.free == s.free && s'.permits == s.permits - One(s.permits > 0)
    && s'.threads[t] == (if s.permits > 0 then Acquiring(g) else if late then Idle else Parked(g))
    && s'.guards == s.guards[g := if s'.threads[t].Idle? then Null else Building]
  }

  /** The connection freed longest ago goes into guard `g`. */
  ghost predicate Fills(s: State, s': State, t: nat, g: nat) {
    && t < |s'.threads| && g < |s.guards| && s.free != []
    && s'.owned == s.owned && s'.free == s.free[1..] && s'.permits == s.permits
    && s'.guards == s.guards[g := Holding(s.free[0])] && s'.threads[t].Idle?
  }

  /** What `acquire` does in every run, always for the guard it was called for. */
  lemma {:induction false} AcquireIsExact(conns: seq<Conn>, guards: nat, threads: nat, run: seq<Event>, e: Event)
    requires Distinct(conns) && Exec(Init(conns, guards, threads), run).Some?
    requires Step(Exec(Init(conns, guards, threads), run).value, e).Some? && (e.Call? || e.Resume? || e.PopFront?)
    ensures var s := Exec(Init(conns, guards, threads), run).value;
            var s', call := Step(s, e).value, if e.Call? then Some(e) else LastCall(run, e.t);
            && call.Some? && call.value.Call?
            && if e.PopFront? then Fills(s, s', e.t, call.value.g)
               else TakesOrWaits(s, s', e.t, call.value.g, TimedOut(run, e.t))
  {
    RunKeepsThreads(conns, guards, threads, run);
    ThreadsFollowTheirCalls(conns, guards, threads, run, e.t);
    EveryRunKeepsInv(conns, guards, threads, run);
    var s := Exec(Init(conns, guards, threads), run).value;
    if e.Resume? { assert s.guards[s.threads[e.t].g := Building] == s.guards; }
  }

  /** What `release` does in every run: a sound connection goes back as it is; one that
      is not is searched for from the first slot on and replaced, if at all, in its own
      slot; what is appended to the free list is the connection of the guard given up,
      or its replacement; and one permit is posted after that. */
  lemma {:induction false} ReleaseIsExact(conns: seq<Conn>, guards: nat, threads: nat, run: seq<Event>, e: Event)
    requires Distinct(conns) && Exec(Init(conns, guards, threads), run).Some?
    requires Step(Exec(Init(conns, guards, threads), run).value, e).Some?
    requires e.Check? || e.Scan? || e.Replace? || e.PushBack? || e.Signal?
    ensures var s := Exec(Init(conns, guards, threads), run).value;
            var s', c := Step(s, e).value, Carried(Init(conns, guards, threads), run, e.t);
            && s'.guards == s.guards
            && (e.Check? ==> && s'.owned == s.owned && s'.free == s.free && s'.permits == s.permits && c.Some?
                             && (if e.sound then s'.threads[e.t].Returning? && s'.threads[e.t].c == c.value
                                 else s'.threads[e.t].Scanning? && s'.threads[e.t].i == 0))
            && (e.Scan? ==> && s'.owned == s.owned && s'.free == s.free && s'.permits == s.permits && c.Some?
                            && s.threads[e.t].i < |s.owned|
                            && (if s.owned[s.threads[e.t].i] == c.value then s'.threads[e.t].Replacing?
                                else s'.threads[e.t].Scanning? && s'.threads[e.t].i == s.threads[e.t].i + 1))
            && (e.Replace? ==> && s'.free == s.free && s'.permits == s.permits && c.Some? && c.value in s.owned
                               && s'.threads[e.t].Returning?
                               && s'.owned == (if e.rebuilt.None? then s.owned
                                               else s.owned[IndexOf(s.owned, c.value) := e.rebuilt.value]))
            && (e.PushBack? ==> && c.Some? && s'.owned == s.owned && s'.free == s.free + [c.value]
                                && s'.permits == s.permits)
            && (e.Signal? ==> s'.owned == s.owned && s'.free == s.free && s'.permits == s.permits + 1)
  {
    RunKeepsThreads(conns, guards, threads, run);
    ThreadsFollowTheirCalls(conns, guards, threads, run, e.t);
    SearchFindsItsSlot(conns, guards, threads, run, e.t);
  }

  /** The contents of `h` are in `g`, `h` is empty, and no other guard has changed. */
  ghost predicate TakenOver(before: seq<Guard>, after: seq<Guard>, g: nat, h: nat) {
    && |after| == |before| && g < |before| && h < |before| && g != h
    && after[g] == before[h] && after[h] == Null
    && forall k :: 0 <= k < |before| && k != g && k != h ==> after[k] == before[k]
  }

  /** What dropping and moving guards does in every run. */
  lemma {:induction false} MovesAreExact(conns: seq<Conn>, guards: nat, threads: nat, run: seq<Event>, e: Event)
    requires Distinct(conns) && Exec(Init(conns, guards, threads), run).Some?
    requires Step(Exec(Init(conns, guards, threads), run).value, e).Some?
    requires e.MoveConstruct? || e.Drop? || e.MoveAssign? || e.Finish?
    ensures var s := Exec(Init(conns, guards, threads), run).value;
            var s', call := Step(s, e).value, if e.MoveConstruct? then None else LastCall(run, e.t);
            && s'.owned == s.owned && s'.free == s.free && s'.permits == s.permits
            && match e
               case MoveConstruct(g, h) => TakenOver(s.guards, s'.guards, g, h)
               case Drop(t, g) =>
                 if s.guards[g].Null? then s' == s
                 else s'.guards == s.guards[g := Releasing] && s'.threads[t] == Checking(g, s.guards[g].c, None)
               case MoveAssign(t, g, h) =>
                 if g == h then s' == s
                 else if s.guards[g].Null? then TakenOver(s.guards, s'.guards, g, h) && s'.threads == s.threads
                 else s'.guards == s.guards[g := Releasing] && s'.threads[t] == Checking(g, s.guards[g].c, Some(h))
               case Finish(t) =>
                 && call.Some? && s'.threads[t].Idle?
                 && if call.value.MoveAssign? then TakenOver(s.guards, s'.guards, call.value.g, call.value.h)
                    else call.value.Drop? && call.value.g < |s.guards| && s'.guards == s.guards[call.value.g := Null]
               case _ => true
  {
    EveryRunKeepsInv(conns, guards, threads, run);
    if e.Finish? {
      RunKeepsThreads(conns, guards, threads, run);
      ThreadsFollowTheirCalls(conns, guards, threads, run, e.t);
    }
  }

  /** Every idle or acquiring thread can always go on. */
  lemma AcquirersAreNotStuck(s: State, poolSize: nat, t: nat)
    requires Inv(s, poolSize) && t < |s.threads| && (s.threads[t].Idle? || Builds(s.threads[t]))
    ensures var p := s.threads[t];
            && (p.Idle? ==> forall g :: 0 <= g < |s.guards| && !Busy(s.guards[g]) ==>
                              Step(s, Drop(t, g)).Some? && (s.guards[g].Null? ==> Step(s, Call(t, g)).Some?))
            && (p.Parked? ==> Step(s, Spurious(t)).Some? && Step(s, Timeout(t)).Some?)
            && (p.Woken? ==> Step(s, Resume(t)).Some?)
            && (p.Acquiring? ==> Step(s, PopFront(t)).Some?)
  {
    if s.threads[t].Acquiring? { CountUpdate(s.threads, t, Idle, IsAcquiring); }
  }

  /** So can every releasing thread, except that the end of a move assignment waits
      while another thread is busy with the source guard. */
  lemma ReleasersAreNotStuck(s: State, poolSize: nat, t: nat) returns (wake: nat)
    requires Inv(s, poolSize) && t < |s.threads| && !s.threads[t].Idle? && !Builds(s.threads[t])
    ensures var p := s.threads[t];
            && (p.Checking? ==> Step(s, Check(t, true)).Some? && Step(s, Check(t, false)).Some?)
            && (p.Scanning? ==> Step(s, Scan(t)).Some?)
            && (p.Replacing? ==>
                  Step(s, Replace(t, None)).Some? && forall c :: c !in s.owned ==> Step(s, Replace(t, Some(c))).Some?)
            && (p.Returning? ==> Step(s, PushBack(t)).Some?)
            && (p.Posting? ==> Step(s, Signal(t, wake)).Some?)
            && (p.Finishing? && p.from.None? ==> Step(s, Finish(t)).Some?)
            && (p.Finishing? && p.from.Some? ==>
                  p.from.value < |s.guards| && (Step(s, Finish(t)).Some? <==> !Busy(s.guards[p.from.value])))
  {
    wake := 0;
    assert OnTrack(s.owned, s.threads[t]);
    if i :| 0 <= i < |s.threads| && s.threads[i].Parked? { wake := i; }
  }
}
