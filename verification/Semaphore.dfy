/**
 * `Semaphore` (include/jthread.hpp): the counter, and the step machine of any
 * number of blocking and timed waiters over its condition variable. The queue
 * and pool objects hold `Semaphore` objects, and their step machines contain the
 * same wait sets.
 */
module SemaphoreModel {
  import opened Common

  class Semaphore {
    var count: nat

    constructor (value: nat)
      ensures count == value
    {
      count := value;
    }

    method ResetCount(value: nat)
      modifies this
      ensures count == value
    {
      count := value;
    }

    /** `wait(msecs)` at its deadline, and `wait()` once its predicate holds. */
    method TryWait() returns (ok: bool)
      modifies this
      ensures ok <==> old(count) > 0
      ensures count == if ok then old(count) - 1 else old(count)
    {
      ok := count > 0;
      if ok { count := count - 1; }
    }

    method Signal()
      modifies this
      ensures count == old(count) + 1
    {
      count := count + 1;
    }

    /** `unlock(lCount)`. */
    method Unlock(n: int)
      modifies this
      ensures count == old(count) + if n > 0 then n else 0
    {
      var i := 0;
      while i < n
        invariant 0 <= i && (n > 0 ==> i <= n) && (n <= 0 ==> i == 0)
        invariant count == old(count) + i
      {
        Signal();
        i := i + 1;
      }
    }
  }

  // ---- The concurrent machine ---------------------------------------------

  datatype Pc = Idle | Parked(timed: bool) | Woken(timed: bool, expired: bool)

  predicate IsParked(p: Pc) { p.Parked? }
  predicate IsWoken(p: Pc) { p.Woken? }

  datatype State = State(count: nat, threads: seq<Pc>)

  datatype Event =
    | WaitCall(t: nat, timed: bool)
    | Resume(t: nat)               // a woken thread has the lock again
    | Signal(wake: nat)            // `wake` is the waiter `notify_one` picks
    | Spurious(t: nat)
    | Timeout(t: nat)

  datatype Outcome = Waiting | Returned(ok: bool) | Silent

  function Init(value: nat, n: nat): State { State(value, seq(n, i => Idle)) }

  /** A thread holding the lock tests the predicate. */
  function Test(s: State, t: nat, timed: bool, expired: bool): (State, Outcome)
    requires t < |s.threads|
  {
    if s.count > 0 then (State(s.count - 1, s.threads[t := Idle]), Returned(true))
    else if expired then (s.(threads := s.threads[t := Idle]), Returned(false))
    else (s.(threads := s.threads[t := Parked(timed)]), Waiting)
  }

  function Step(s: State, e: Event): Option<(State, Outcome)> {
    match e
    case WaitCall(t, timed) =>
      if t < |s.threads| && s.threads[t].Idle? then Some(Test(s, t, timed, false)) else None
    case Resume(t) =>
      if t < |s.threads| && s.threads[t].Woken?
      then Some(Test(s, t, s.threads[t].timed, s.threads[t].expired)) else None
    case Signal(wake) =>
      if wake < |s.threads| && s.threads[wake].Parked?
      then Some((State(s.count + 1, s.threads[wake := Woken(s.threads[wake].timed, false)]), Silent))
      else if exists i :: 0 <= i < |s.threads| && s.threads[i].Parked? then None
      else Some((s.(count := s.count + 1), Silent))
    case Spurious(t) =>
      if t < |s.threads| && s.threads[t].Parked?
      then Some((s.(threads := s.threads[t := Woken(s.threads[t].timed, false)]), Silent)) else None
    case Timeout(t) =>
      if t < |s.threads| && s.threads[t].Parked? && s.threads[t].timed
      then Some((s.(threads := s.threads[t := Woken(true, true)]), Silent)) else None
  }

  function Exec(s: State, run: seq<Event>): Option<State> {
    if run == [] then Some(s) else
    match Exec(s, run[..|run| - 1])
    case None => None
    case Some(m) => if Step(m, run[|run| - 1]).None? then None else Some(Step(m, run[|run| - 1]).value.0)
  }

  /** Permits posted so far, and permits handed out so far. */
  function Signals(run: seq<Event>): nat {
    if run == [] then 0 else Signals(run[..|run| - 1]) + if run[|run| - 1].Signal? then 1 else 0
  }

  function Grants(s: State, run: seq<Event>): nat {
    if run == [] then 0 else
    Grants(s, run[..|run| - 1]) +
    match Exec(s, run[..|run| - 1])
    case None => 0
    case Some(m) => if Step(m, run[|run| - 1]).Some? && Step(m, run[|run| - 1]).value.1 == Returned(true) then 1 else 0
  }

  /** No lost wakeup: while someone waits, every permit has a woken thread. */
  ghost predicate Inv(s: State) {
    && (Count(s.threads, IsParked) > 0 ==> Count(s.threads, IsWoken) >= s.count)
    && (forall i :: 0 <= i < |s.threads| && s.threads[i].Woken? && s.threads[i].expired ==> s.threads[i].timed)
  }

  lemma MoveCounts(ts: seq<Pc>, t: nat, p: Pc)
    requires t < |ts|
    ensures Count(ts[t := p], IsParked) - Count(ts, IsParked)
            == (if p.Parked? then 1 else 0) - (if ts[t].Parked? then 1 else 0)
    ensures Count(ts[t := p], IsWoken) - Count(ts, IsWoken)
            == (if p.Woken? then 1 else 0) - (if ts[t].Woken? then 1 else 0)
  {
    CountUpdate(ts, t, p, IsParked);
    CountUpdate(ts, t, p, IsWoken);
  }

  lemma TestKeepsInv(s: State, t: nat, timed: bool, expired: bool)
    requires Inv(s) && t < |s.threads| && !s.threads[t].Parked?
    ensures Inv(Test(s, t, timed, expired).0)
  {
    MoveCounts(s.threads, t, Idle);
    MoveCounts(s.threads, t, Parked(timed));
  }

  lemma SignalKeepsInv(s: State, wake: nat)
    requires Inv(s) && Step(s, Signal(wake)).Some?
    ensures Inv(Step(s, Signal(wake)).value.0)
  {
    CountPositive(s.threads, IsParked);
    if wake < |s.threads| && s.threads[wake].Parked? {
      MoveCounts(s.threads, wake, Woken(s.threads[wake].timed, false));
    }
  }

  lemma StepKeepsInv(s: State, e: Event)
    requires Inv(s) && Step(s, e).Some?
    ensures Inv(Step(s, e).value.0)
  {
    match e
    case WaitCall(t, timed) => TestKeepsInv(s, t, timed, false);
    case Resume(t) => TestKeepsInv(s, t, s.threads[t].timed, s.threads[t].expired);
    case Signal(wake) => SignalKeepsInv(s, wake);
    case Spurious(t) => MoveCounts(s.threads, t, Woken(s.threads[t].timed, false));
    case Timeout(t) => MoveCounts(s.threads, t, Woken(true, true));
  }

  /** Over every run: permits are conserved, and no wakeup is lost. */
  lemma {:induction false} EveryRunKeepsInv(value: nat, n: nat, run: seq<Event>)
    requires Exec(Init(value, n), run).Some?
    ensures var s := Exec(Init(value, n), run).value;
            Inv(s) && s.count + Grants(Init(value, n), run) == value + Signals(run)
  {
    if run == [] {
      CountPositive(Init(value, n).threads, IsParked);
    } else {
      var before := run[..|run| - 1];
      EveryRunKeepsInv(value, n, before);
      StepKeepsInv(Exec(Init(value, n), before).value, run[|run| - 1]);
    }
  }

  /** While a thread waits and a permit is there, some woken thread's next step
      takes it; and a wait fails only if it is timed and finds no permit. */
  lemma WaiterIsServed(value: nat, n: nat, run: seq<Event>, c: nat) returns (t: nat)
    requires Exec(Init(value, n), run).Some?
    requires var s := Exec(Init(value, n), run).value; c < |s.threads| && s.threads[c].Parked? && s.count > 0
    ensures var s := Exec(Init(value, n), run).value;
            Step(s, Resume(t)).Some? && Step(s, Resume(t)).value.1 == Returned(true)
  {
    EveryRunKeepsInv(value, n, run);
    var s := Exec(Init(value, n), run).value;
    CountPositive(s.threads, IsParked);
    assert IsParked(s.threads[c]);
    CountPositive(s.threads, IsWoken);
    t :| t < |s.threads| && IsWoken(s.threads[t]);
  }

  lemma FailedWaitIsTimed(value: nat, n: nat, run: seq<Event>, e: Event)
    requires Exec(Init(value, n), run).Some? && Step(Exec(Init(value, n), run).value, e).Some?
    requires Step(Exec(Init(value, n), run).value, e).value.1 == Returned(false)
    ensures var s := Exec(Init(value, n), run).value; e.Resume? && s.threads[e.t].timed && s.count == 0
  {
    EveryRunKeepsInv(value, n, run);
  }

  // ---- What callers get ---------------------------------------------------

  /** Whether an event is a step of thread `t`. */
  predicate Own(e: Event, t: nat) { !e.Signal? && e.t == t }

  /** The last wait that thread `t` has called. */
  function LastWait(run: seq<Event>, t: nat): Option<Event> {
    if run == [] then None
    else if Own(run[|run| - 1], t) && run[|run| - 1].WaitCall? then Some(run[|run| - 1])
    else LastWait(run[..|run| - 1], t)
  }

  /** Whether the last thing that happened to thread `t` on its own is that its time
      ran out. */
  predicate TimedOut(run: seq<Event>, t: nat) {
    run != [] && if Own(run[|run| - 1], t) then run[|run| - 1].Timeout? else TimedOut(run[..|run| - 1], t)
  }

  /** A waiting thread waits as it was called, and has expired exactly if its time
      ran out. */
  predicate Follows(p: Pc, call: Option<Event>, late: bool) {
    match p
    case Idle => !late
    case Parked(timed) => call.Some? && call.value.WaitCall? && call.value.timed == timed && !late
    case Woken(timed, expired) => call.Some? && call.value.WaitCall? && call.value.timed == timed && expired == late
  }

  lemma StepFollows(s: State, e: Event, t: nat, call: Option<Event>, late: bool)
    requires Step(s, e).Some? && t < |s.threads| && Follows(s.threads[t], call, late)
    ensures var call' := if Own(e, t) && e.WaitCall? then Some(e) else call;
            && |Step(s, e).value.0.threads| == |s.threads|
            && Follows(Step(s, e).value.0.threads[t], call', if Own(e, t) then e.Timeout? else late)
  {
  }

  lemma {:induction false} ThreadsFollowTheirCalls(value: nat, n: nat, run: seq<Event>, t: nat)
    requires t < n && Exec(Init(value, n), run).Some?
    ensures var s := Exec(Init(value, n), run).value;
            |s.threads| == n && Follows(s.threads[t], LastWait(run, t), TimedOut(run, t))
  {
    if run != [] {
      var before := run[..|run| - 1];
      ThreadsFollowTheirCalls(value, n, before, t);
      StepFollows(Exec(Init(value, n), before).value, run[|run| - 1], t, LastWait(before, t), TimedOut(before, t));
    }
  }

  lemma {:induction false} RunKeepsThreads(value: nat, n: nat, run: seq<Event>)
    requires Exec(Init(value, n), run).Some?
    ensures |Exec(Init(value, n), run).value.threads| == n
  {
    if run != [] { RunKeepsThreads(value, n, run[..|run| - 1]); }
  }

  /** The answer of every step of every run: a wait is granted, for one permit,
      exactly when there is one; it fails exactly when there is none and its own time
      has run out; and exactly the other waits go on. */
  lemma {:induction false} AnswersAreExact(value: nat, n: nat, run: seq<Event>, e: Event)
    requires Exec(Init(value, n), run).Some? && Step(Exec(Init(value, n), run).value, e).Some?
    ensures var s := Exec(Init(value, n), run).value;
            var (s', out) := Step(s, e).value;
            if e.WaitCall? || e.Resume? then
              && out == (if s.count > 0 then Returned(true)
                         else if TimedOut(run, e.t) then Returned(false) else Waiting)
              && s'.count == s.count - One(s.count > 0)
              && (s'.threads[e.t].Idle? <==> out != Waiting)
              && (TimedOut(run, e.t) ==> LastWait(run, e.t).Some? && LastWait(run, e.t).value == WaitCall(e.t, true))
            else
              out == Silent && s'.count == s.count + One(e.Signal?)
  {
    RunKeepsThreads(value, n, run);
    if !e.Signal? {
      ThreadsFollowTheirCalls(value, n, run, e.t);
      EveryRunKeepsInv(value, n, run);
      LastWaitIsOwn(run, e.t);
    }
  }

  lemma {:induction false} LastWaitIsOwn(run: seq<Event>, t: nat)
    ensures LastWait(run, t).Some? ==> LastWait(run, t).value.WaitCall? && LastWait(run, t).value.t == t
  {
    if run != [] { LastWaitIsOwn(run[..|run| - 1], t); }
  }

  /** Every thread can always go on, and a permit can always be posted. */
  lemma NobodyIsStuck(s: State, t: nat, timed: bool) returns (wake: nat)
    requires t < |s.threads|
    ensures Step(s, Signal(wake)).Some?
    ensures match s.threads[t]
            case Idle => Step(s, WaitCall(t, timed)).Some?
            case Woken(_, _) => Step(s, Resume(t)).Some?
            case Parked(limited) => Step(s, Spurious(t)).Some? && (Step(s, Timeout(t)).Some? <==> limited)
  {
    wake := 0;
    if i :| 0 <= i < |s.threads| && s.threads[i].Parked? { wake := i; }
  }
}
