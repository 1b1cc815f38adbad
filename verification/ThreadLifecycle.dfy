/**
 * The lifecycle of `Thread` (src/jthread.cpp, include/jthread.hpp): the locked
 * sections of `create`, `close_pre` and `close_post` as an object, and the step
 * machine in which any number of clients run them against the worker threads.
 * Workers are numbered in launch order; `stop_source_` objects are numbered by
 * generation. A client is never a worker of the same `Thread`.
 */
module ThreadLifecycle {

  /** `thread_`: disengaged, engaged with a joinable thread, or engaged with a
      thread that has been moved out. */
  datatype Handle = NoThread | Joinable(w: nat) | MovedFrom

  /** The fields guarded by `mutex_`, and which stop sources have been triggered. */
  datatype Core = Core(handle: Handle, gen: nat, stopped: set<nat>, closing: bool) {

    /** `create` past its gate, launching worker `w`. */
    function Launch(w: nat): Core {
      this.(handle := Joinable(w), gen := if gen in stopped then gen + 1 else gen)
    }
    function RequestStop(): Core { this.(stopped := stopped + {gen}) }
    /** The first locked section of `close_post`. */
    function Claim(): Core { this.(handle := MovedFrom, closing := true) }
    /** Its last locked section. */
    function Reset(): Core { this.(handle := NoThread, closing := false) }
  }

  /** The object itself; each method is one locked section. */
  class Thread {
    var handle: Handle
    var gen: nat
    var stopped: set<nat>
    var closing: bool
    var launched: nat

    ghost function Abs(): Core
      reads this
    {
      Core(handle, gen, stopped, closing)
    }

    constructor ()
      ensures Abs() == Core(NoThread, 0, {}, false) && launched == 0
    {
      handle, gen, stopped, closing, launched := NoThread, 0, {}, false, 0;
    }

    /** `create` once `!closing_`; a joinable worker, running or not, is left alone. */
    method Create() returns (code: int)
      requires !closing
      modifies this
      ensures code == 1
      ensures old(handle).Joinable? ==> Abs() == old(Abs()) && launched == old(launched)
      ensures !old(handle).Joinable? ==> Abs() == old(Abs()).Launch(old(launched)) && launched == old(launched) + 1
    {
      if handle.Joinable? { return 1; }
      if gen in stopped {
        gen := gen + 1;
      }
      handle := Joinable(launched);
      launched := launched + 1;
      return 1;
    }

    method ClosePre()
      modifies this`stopped
      ensures Abs() == old(Abs()).RequestStop()
    {
      stopped := stopped + {gen};
    }

    /** `joins` is the moved-out handle, or `NoThread` when there is nothing to do. */
    method Claim() returns (joins: Handle)
      modifies this
      ensures joins == if old(closing) then NoThread else old(handle)
      ensures Abs() == if joins.NoThread? then old(Abs()) else old(Abs()).Claim()
      ensures launched == old(launched)
    {
      if closing || handle.NoThread? { return NoThread; }
      closing := true;
      joins, handle := handle, MovedFrom;
    }

    method Reset()
      modifies this
      ensures Abs() == old(Abs()).Reset() && launched == old(launched)
    {
      handle := NoThread;
      closing := false;
    }

    /** What holds between the calls of an only client: a held worker is the newest
        one and has not been told to stop. */
    ghost predicate Quiet()
      reads this
    {
      && !closing && !handle.MovedFrom? && (forall g :: g in stopped ==> g <= gen)
      && (handle.Joinable? ==> handle.w + 1 == launched && gen !in stopped)
    }

    /** `close()` by an only client: `joins` is the worker that was held, told to
        stop before it is joined, and nothing is held afterwards. */
    method Close() returns (joins: Handle)
      requires Quiet()
      modifies this
      ensures Quiet() && handle.NoThread? && launched == old(launched)
      ensures joins == old(handle)
      ensures gen == old(gen) && gen in stopped
    {
      ClosePre();
      joins := Claim();
      if !joins.NoThread? {
        Reset();   // after the join
      }
    }
  }

  datatype Call = Start | Stop

  /** Any sequence of `create` and `close` calls by an only client: the workers are
      joined in launch order, once each, and only the newest may be left, running
      under a stop source that nobody has triggered. */
  method RunClient(calls: seq<Call>) returns (thread: Thread, joined: seq<nat>)
    ensures thread.Quiet()
    ensures |joined| == thread.launched - if thread.handle.Joinable? then 1 else 0
    ensures forall i :: 0 <= i < |joined| ==> joined[i] == i
  {
    thread := new Thread();
    joined := [];
    for k := 0 to |calls|
      invariant fresh(thread) && thread.Quiet()
      invariant |joined| == thread.launched - if thread.handle.Joinable? then 1 else 0
      invariant forall i :: 0 <= i < |joined| ==> joined[i] == i
    {
      match calls[k] {
        case Start =>
          var _ := thread.Create();
        case Stop =>
          var joins := thread.Close();
          if joins.Joinable? { joined := joined + [joins.w]; }
      }
    }
  }

  // ---- The concurrent machine ---------------------------------------------

  /** `source` is the stop source in force at launch; `sawStop` records that
      `do_exit()` has returned true to this worker. */
  datatype Worker = Worker(source: nat, running: bool, sawStop: bool, claims: nat, joins: nat)

  /** `pre` is the number of workers launched before this client's `close_pre`. */
  datatype Pc =
    | Idle
    | CreateParked               // waiting on `cv_`
    | CreateWoken
    | PreDone(pre: nat)
    | Joining(w: nat, pre: nat)  // holds the moved-out thread, outside the lock
    | Joined

  /** `lastPre` is `pre` of the most recent `close_pre` of any client. */
  datatype State = State(core: Core, workers: seq<Worker>, clients: seq<Pc>, lastPre: nat)

  datatype Event =
    | Create(t: nat)
    | Spurious(t: nat)
    | ClosePre(t: nat)
    | Leave(t: nat)        // `close_pre` used on its own
    | Claim(t: nat)
    | Join(t: nat)
    | Reset(t: nat)
    | Poll(w: nat)         // worker `w` calls `do_exit()`
    | Exit(w: nat)         // worker `w` returns from `thread_proc()`

  function Init(n: nat): State {
    State(Core(NoThread, 0, {}, false), [], seq(n, i => Idle), 0)
  }

  function Goto(s: State, t: nat, p: Pc): State
    requires t < |s.clients|
  {
    s.(clients := s.clients[t := p])
  }

  /** `cv_.notify_all()`. */
  function WakeAll(ps: seq<Pc>): seq<Pc> {
    seq(|ps|, i requires 0 <= i < |ps| => if ps[i].CreateParked? then CreateWoken else ps[i])
  }

  predicate HoldsThread(p: Pc) { p.Joining? || p.Joined? }

  /** The relation of one atomic step. */
  ghost predicate Next(s: State, e: Event, s': State) {
    match e
    case Create(t) =>
      && t < |s.clients| && (s.clients[t].Idle? || s.clients[t].CreateWoken?)
      && s' == (if s.core.closing then Goto(s, t, CreateParked)
                else if s.core.handle.Joinable? then Goto(s, t, Idle)
                else var c := s.core.Launch(|s.workers|);
                     Goto(s, t, Idle).(core := c, workers := s.workers + [Worker(c.gen, true, false, 0, 0)]))
    case Spurious(t) =>
      t < |s.clients| && s.clients[t].CreateParked? && s' == Goto(s, t, CreateWoken)
    case ClosePre(t) =>
      && t < |s.clients| && (s.clients[t].Idle? || s.clients[t].PreDone?)
      && s' == Goto(s, t, PreDone(|s.workers|)).(core := s.core.RequestStop(), lastPre := |s.workers|)
    case Leave(t) =>
      t < |s.clients| && s.clients[t].PreDone? && s' == Goto(s, t, Idle)
    case Claim(t) =>
      && t < |s.clients| && (s.clients[t].Idle? || s.clients[t].PreDone?)
      && (s.core.handle.Joinable? ==> s.core.handle.w < |s.workers|)
      && var pre := if s.clients[t].PreDone? then s.clients[t].pre else 0;
         s' == (if s.core.closing || s.core.handle.NoThread? then Goto(s, t, Idle)
                else if s.core.handle.MovedFrom? then Goto(s, t, Joined).(core := s.core.Claim())
                else var w := s.core.handle.w;
                     Goto(s, t, Joining(w, pre)).(core := s.core.Claim(),
                       workers := s.workers[w := s.workers[w].(claims := s.workers[w].claims + 1)]))
    case Join(t) =>
      && t < |s.clients| && s.clients[t].Joining?
      && var w := s.clients[t].w;
         && w < |s.workers| && !s.workers[w].running
         && s' == Goto(s, t, Joined).(workers := s.workers[w := s.workers[w].(joins := s.workers[w].joins + 1)])
    case Reset(t) =>
      && t < |s.clients| && s.clients[t].Joined?
      && s' == s.(core := s.core.Reset(), clients := WakeAll(s.clients[t := Idle]))
    case Poll(w) =>
      && w < |s.workers| && s.workers[w].running
      && var saw := s.workers[w].sawStop || s.core.gen in s.core.stopped;
         s' == s.(workers := s.workers[w := s.workers[w].(sawStop := saw)])
    case Exit(w) =>
      && w < |s.workers| && s.workers[w].running
      && s' == s.(workers := s.workers[w := s.workers[w].(running := false)])
  }

  ghost predicate IsRun(states: seq<State>, run: seq<Event>) {
    && |states| == |run| + 1
    && forall i :: 0 <= i < |run| ==> Next(states[i], run[i], states[i + 1])
  }

  // ---- The invariant ------------------------------------------------------

  /** Claimed once, joined once, and therefore finished. */
  predicate Settled(w: Worker) { !w.running && w.claims == 1 && w.joins == 1 }

  /** Every worker but the newest is settled, and who holds the newest follows
      from the locked fields. */
  ghost predicate WorkersOk(s: State) {
    && (forall w :: 0 <= w < |s.workers| - 1 ==> Settled(s.workers[w]))
    && (s.core.closing <==> s.core.handle.MovedFrom?)
    && match s.core.handle
       case NoThread => |s.workers| > 0 ==> Settled(s.workers[|s.workers| - 1])
       case Joinable(w) => w == |s.workers| - 1 && s.workers[w].claims == s.workers[w].joins == 0
       case MovedFrom => |s.workers| > 0
  }

  /** `closing_` is true exactly while one client holds the moved-out thread. */
  ghost predicate ClosersOk(s: State) {
    && (s.core.closing <==> exists t :: 0 <= t < |s.clients| && HoldsThread(s.clients[t]))
    && (forall t, u | 0 <= t < |s.clients| && 0 <= u < |s.clients| ::
          HoldsThread(s.clients[t]) && HoldsThread(s.clients[u]) ==> t == u)
    && (forall t :: 0 <= t < |s.clients| && s.clients[t].Joining? ==>
          var w := s.clients[t].w;
          w == |s.workers| - 1 && s.workers[w].claims == 1 && s.workers[w].joins == 0)
    && (forall t :: 0 <= t < |s.clients| && s.clients[t].Joined? ==>
          |s.workers| > 0 && Settled(s.workers[|s.workers| - 1]))
    && (forall t :: 0 <= t < |s.clients| && s.clients[t].CreateParked? ==> s.core.closing)
  }

  /** A worker that has not been joined still runs under its own stop source,
      which has been triggered exactly if a `close_pre` came after its launch. */
  ghost predicate SourcesOk(s: State) {
    && (forall g :: g in s.core.stopped ==> g <= s.core.gen)
    && s.lastPre <= |s.workers|
    && (forall w :: 0 <= w < |s.workers| && s.workers[w].joins == 0 ==>
          && s.workers[w].source == s.core.gen
          && (s.workers[w].sawStop ==> s.core.gen in s.core.stopped)
          && (s.core.gen in s.core.stopped <==> w < s.lastPre))
    && (forall t :: 0 <= t < |s.clients| && s.clients[t].PreDone? ==> s.clients[t].pre <= s.lastPre)
    && (forall t :: 0 <= t < |s.clients| && s.clients[t].Joining? ==> s.clients[t].pre <= s.lastPre)
  }

  ghost predicate Inv(s: State) { WorkersOk(s) && ClosersOk(s) && SourcesOk(s) }

  /** A client that holds no thread moves on to a place where it holds none either,
      and nothing else changes. */
  lemma MoveKeepsInv(s: State, t: nat, p: Pc)
    requires Inv(s) && t < |s.clients| && !HoldsThread(s.clients[t]) && !HoldsThread(p)
    requires (p.CreateParked? ==> s.core.closing) && (p.PreDone? ==> p.pre <= s.lastPre)
    ensures Inv(Goto(s, t, p))
  {
    MoveKeepsClosers(s, t, p);
    assert SourcesOk(Goto(s, t, p));
  }

  lemma MoveKeepsClosers(s: State, t: nat, p: Pc)
    requires ClosersOk(s) && t < |s.clients| && !HoldsThread(s.clients[t]) && !HoldsThread(p)
    requires p.CreateParked? ==> s.core.closing
    ensures ClosersOk(Goto(s, t, p))
  {
    if s.core.closing { var _ := HolderStays(s, t, p); }
  }

  lemma LaunchKeepsInv(s: State, t: nat, s': State)
    requires Inv(s) && Next(s, Create(t), s') && !s.core.closing && !s.core.handle.Joinable?
    ensures Inv(s')
  {
    assert WorkersOk(s') && ClosersOk(s');
  }

  lemma CreateKeepsInv(s: State, t: nat, s': State)
    requires Inv(s) && Next(s, Create(t), s')
    ensures Inv(s')
  {
    if s.core.closing { MoveKeepsInv(s, t, CreateParked); }
    else if s.core.handle.Joinable? { MoveKeepsInv(s, t, Idle); }
    else { LaunchKeepsInv(s, t, s'); }
  }

  lemma ClaimKeepsInv(s: State, t: nat, s': State)
    requires Inv(s) && Next(s, Claim(t), s') && !s.core.closing && s.core.handle.Joinable?
    ensures Inv(s')
  {
    assert HoldsThread(s'.clients[t]);
    assert WorkersOk(s') && ClosersOk(s');
  }

  lemma JoinKeepsInv(s: State, t: nat, s': State)
    requires Inv(s) && Next(s, Join(t), s')
    ensures Inv(s')
  {
    assert HoldsThread(s.clients[t]) && HoldsThread(s'.clients[t]);
  }

  lemma ResetKeepsInv(s: State, t: nat, s': State)
    requires Inv(s) && Next(s, Reset(t), s')
    ensures Inv(s')
  {
    assert HoldsThread(s.clients[t]);
    forall u | 0 <= u < |s'.clients| ensures !HoldsThread(s'.clients[u]) {
      if u != t { assert !HoldsThread(s.clients[u]); }
    }
  }

  /** A closer goes on holding the thread through any step of another client. */
  lemma HolderStays(s: State, t: nat, p: Pc) returns (u: nat)
    requires ClosersOk(s) && t < |s.clients| && !HoldsThread(s.clients[t]) && s.core.closing
    ensures u < |s.clients| && HoldsThread(s.clients[t := p][u])
  {
    u :| 0 <= u < |s.clients| && HoldsThread(s.clients[u]);
  }

  lemma ClosePreKeepsInv(s: State, t: nat, s': State)
    requires Inv(s) && Next(s, ClosePre(t), s')
    ensures Inv(s')
  {
    if s.core.closing { var _ := HolderStays(s, t, PreDone(|s.workers|)); }
    assert WorkersOk(s') && ClosersOk(s');
  }

  lemma PollKeepsInv(s: State, w: nat, s': State)
    requires Inv(s) && Next(s, Poll(w), s')
    ensures Inv(s')
  {
    assert ClosersOk(s') && SourcesOk(s');
  }

  lemma ExitKeepsInv(s: State, w: nat, s': State)
    requires Inv(s) && Next(s, Exit(w), s')
    ensures Inv(s')
  {
    assert ClosersOk(s') && SourcesOk(s');
  }

  lemma StepKeepsInv(s: State, e: Event, s': State)
    requires Inv(s) && Next(s, e, s')
    ensures Inv(s')
  {
    match e
    case Create(t) => CreateKeepsInv(s, t, s');
    case Claim(t) =>
      if s.core.closing || s.core.handle.NoThread? { MoveKeepsInv(s, t, Idle); } else { ClaimKeepsInv(s, t, s'); }
    case Join(t) => JoinKeepsInv(s, t, s');
    case Reset(t) => ResetKeepsInv(s, t, s');
    case ClosePre(t) => ClosePreKeepsInv(s, t, s');
    case Poll(w) => PollKeepsInv(s, w, s');
    case Exit(w) => ExitKeepsInv(s, w, s');
    case _ => MoveKeepsInv(s, e.t, s'.clients[e.t]);
  }

  lemma {:induction false} EveryRunKeepsInv(n: nat, states: seq<State>, run: seq<Event>, i: nat)
    requires IsRun(states, run) && states[0] == Init(n) && i < |states|
    ensures Inv(states[i])
  {
    if i > 0 {
      EveryRunKeepsInv(n, states, run, i - 1);
      StepKeepsInv(states[i - 1], run[i - 1], states[i]);
    }
  }

  // ---- What the lifecycle guarantees --------------------------------------

  /** At most one worker runs, and every worker is claimed and joined at most
      once; all but the newest have been, exactly once. */
  lemma OneWorkerAtATime(n: nat, states: seq<State>, run: seq<Event>, i: nat)
    requires IsRun(states, run) && states[0] == Init(n) && i < |states|
    ensures forall v, w | 0 <= v < |states[i].workers| && 0 <= w < |states[i].workers| ::
              states[i].workers[v].running && states[i].workers[w].running ==> v == w
    ensures forall w :: 0 <= w < |states[i].workers| ==> states[i].workers[w].joins <= states[i].workers[w].claims <= 1
    ensures forall w :: 0 <= w < |states[i].workers| - 1 ==> Settled(states[i].workers[w])
  {
    EveryRunKeepsInv(n, states, run, i);
    var s := states[i];
    if s.core.handle.MovedFrom? {
      var t :| 0 <= t < |s.clients| && HoldsThread(s.clients[t]);
    }
  }

  /** `closing_` holds exactly while exactly one client has the moved-out thread,
      and only then is a `create` waiting. */
  lemma ClosingMeansOneHolder(n: nat, states: seq<State>, run: seq<Event>, i: nat)
    requires IsRun(states, run) && states[0] == Init(n) && i < |states|
    ensures states[i].core.closing <==>
              exists t :: && 0 <= t < |states[i].clients| && HoldsThread(states[i].clients[t])
                          && forall u :: 0 <= u < |states[i].clients| && HoldsThread(states[i].clients[u]) ==> u == t
    ensures forall t :: 0 <= t < |states[i].clients| && states[i].clients[t].CreateParked? ==> states[i].core.closing
  {
    EveryRunKeepsInv(n, states, run, i);
  }

  /** `stop_source_` is replaced only when every worker so far has been joined. */
  lemma SourceReplacedOnlyWhenIdle(n: nat, states: seq<State>, run: seq<Event>, i: nat)
    requires IsRun(states, run) && states[0] == Init(n) && i < |run|
    requires states[i + 1].core.gen != states[i].core.gen
    ensures forall w :: 0 <= w < |states[i].workers| ==> Settled(states[i].workers[w])
  {
    EveryRunKeepsInv(n, states, run, i);
    assert Next(states[i], run[i], states[i + 1]);
  }

  /** A stop a running worker has seen is never taken back: `do_exit()` keeps
      returning true for as long as the worker runs. */
  lemma SeenStopStays(n: nat, states: seq<State>, run: seq<Event>, i: nat, w: nat)
    requires IsRun(states, run) && states[0] == Init(n) && i < |states|
    requires w < |states[i].workers| && states[i].workers[w].running && states[i].workers[w].sawStop
    ensures states[i].core.gen in states[i].core.stopped
  {
    OneWorkerAtATime(n, states, run, i);
    EveryRunKeepsInv(n, states, run, i);
    var s := states[i];
    if s.core.handle.MovedFrom? {
      var t :| 0 <= t < |s.clients| && HoldsThread(s.clients[t]);
    }
  }

  /** While a closer waits in `join()`, the joined worker's own stop source has
      been triggered exactly if some `close_pre` came after its launch; in
      particular if this closer's own one did. */
  lemma JoinedWorkerWasToldToStop(n: nat, states: seq<State>, run: seq<Event>, i: nat, t: nat)
    requires IsRun(states, run) && states[0] == Init(n) && i < |states|
    requires t < |states[i].clients| && states[i].clients[t].Joining?
    ensures var s := states[i];
            var w := s.clients[t].w;
            && w < |s.workers|
            && (s.workers[w].source in s.core.stopped <==> w < s.lastPre)
            && (w < s.clients[t].pre ==> s.workers[w].source in s.core.stopped)
  {
    EveryRunKeepsInv(n, states, run, i);
  }

  /** Some `close_pre` of the first `i` steps came when worker `w` was there. */
  ghost predicate ToldToStop(states: seq<State>, run: seq<Event>, i: nat, w: nat)
    requires i <= |run| < |states|
  {
    exists j :: 0 <= j < i && run[j].ClosePre? && w < |states[j].workers|
  }

  /** The last `close_pre` is the one that counts, because workers are never removed. */
  lemma {:induction false} LastPreIsLast(n: nat, states: seq<State>, run: seq<Event>, i: nat, w: nat)
    requires IsRun(states, run) && states[0] == Init(n) && i < |states|
    ensures w < states[i].lastPre <==> ToldToStop(states, run, i, w)
    ensures forall j :: 0 <= j <= i ==> |states[j].workers| <= |states[i].workers|
  {
    if i > 0 {
      LastPreIsLast(n, states, run, i - 1, w);
      assert Next(states[i - 1], run[i - 1], states[i - 1 + 1]);
      var e := run[i - 1];
      if ToldToStop(states, run, i, w) && !e.ClosePre? { assert ToldToStop(states, run, i - 1, w); }
      if w < states[i].lastPre {
        if e.ClosePre? { assert run[i - 1].ClosePre? && w < |states[i - 1].workers|; }
      }
    }
  }

  /** The stop source of a worker that has not been joined is triggered exactly if
      some client has called `close_pre` since its launch. */
  lemma TriggeredIffToldToStop(n: nat, states: seq<State>, run: seq<Event>, i: nat, w: nat)
    requires IsRun(states, run) && states[0] == Init(n) && i < |states|
    requires w < |states[i].workers| && states[i].workers[w].joins == 0
    ensures states[i].workers[w].source in states[i].core.stopped <==> ToldToStop(states, run, i, w)
  {
    EveryRunKeepsInv(n, states, run, i);
    LastPreIsLast(n, states, run, i, w);
  }

  /** A running worker has not been joined. */
  lemma RunningIsUnjoined(n: nat, states: seq<State>, run: seq<Event>, i: nat, w: nat)
    requires IsRun(states, run) && states[0] == Init(n) && i < |states|
    requires w < |states[i].workers| && states[i].workers[w].running
    ensures states[i].workers[w].joins == 0
  {
    EveryRunKeepsInv(n, states, run, i);
    var s := states[i];
    if s.core.handle.MovedFrom? {
      var t :| 0 <= t < |s.clients| && HoldsThread(s.clients[t]);
    }
  }

  /** What `do_exit()` answers to a worker: that its own source is triggered, which
      is that some client has called `close_pre` since its launch. */
  lemma PollIsExact(n: nat, states: seq<State>, run: seq<Event>, i: nat, w: nat)
    requires IsRun(states, run) && states[0] == Init(n) && i < |run| && run[i] == Poll(w)
    ensures w < |states[i].workers| && w < |states[i + 1].workers|
    ensures states[i + 1].workers[w].sawStop <==> states[i].workers[w].source in states[i].core.stopped
    ensures states[i + 1].workers[w].sawStop <==> ToldToStop(states, run, i, w)
  {
    assert Next(states[i], run[i], states[i + 1]);
    EveryRunKeepsInv(n, states, run, i);
    RunningIsUnjoined(n, states, run, i, w);
    TriggeredIffToldToStop(n, states, run, i, w);
  }

  /** A worker runs from its launch until it returns. */
  lemma {:induction false} RunsUntilExit(n: nat, states: seq<State>, run: seq<Event>, i: nat, w: nat)
    requires IsRun(states, run) && states[0] == Init(n) && i < |states|
    ensures (exists j :: 0 <= j < i && run[j] == Exit(w)) ==> w < |states[i].workers|
    ensures w < |states[i].workers| ==>
              (states[i].workers[w].running <==> !exists j :: 0 <= j < i && run[j] == Exit(w))
  {
    if i > 0 {
      RunsUntilExit(n, states, run, i - 1, w);
      assert Next(states[i - 1], run[i - 1], states[i - 1 + 1]);
      if run[i - 1] == Exit(w) { assert 0 <= i - 1 < i; }
      else if j :| 0 <= j < i && run[j] == Exit(w) { assert 0 <= j < i - 1; }
    }
  }

  /** What a `create` does: it waits exactly during a close, returns exactly for a
      joinable thread, and otherwise launches one worker under a source that nobody
      has triggered. */
  lemma CreateIsExact(n: nat, states: seq<State>, run: seq<Event>, i: nat, t: nat)
    requires IsRun(states, run) && states[0] == Init(n) && i < |run| && run[i] == Create(t)
    ensures var s, s' := states[i], states[i + 1];
            && t < |s'.clients| && (s'.clients[t].CreateParked? <==> s.core.closing)
            && (!s'.clients[t].CreateParked? ==> s'.clients[t].Idle? && s'.core.handle.Joinable?)
            && if s.core.closing || s.core.handle.Joinable? then s'.workers == s.workers && s'.core == s.core
               else && |s'.workers| == |s.workers| + 1 && s'.workers[..|s.workers|] == s.workers
                    && s'.core.handle == Joinable(|s.workers|)
                    && s'.workers[|s.workers|] == Worker(s'.core.gen, true, false, 0, 0)
                    && s'.core.gen !in s'.core.stopped && s'.core.stopped == s.core.stopped
  {
    assert Next(states[i], run[i], states[i + 1]);
    EveryRunKeepsInv(n, states, run, i);
  }

  /** What the steps of a `close_post` do: the newest worker is claimed exactly when a
      thread is held and nobody else is closing. */
  lemma ClaimIsExact(n: nat, states: seq<State>, run: seq<Event>, i: nat, t: nat)
    requires IsRun(states, run) && states[0] == Init(n) && i < |run| && run[i] == Claim(t)
    ensures var s, s' := states[i], states[i + 1];
            && t < |s.clients|
            && if s.core.closing || s.core.handle.NoThread? then s' == s.(clients := s.clients[t := Idle])
               else && t < |s'.clients| && s'.clients[t].Joining? && s'.clients[t].w == |s.workers| - 1
                    && s'.core == Core(MovedFrom, s.core.gen, s.core.stopped, true)
  {
    assert Next(states[i], run[i], states[i + 1]);
    EveryRunKeepsInv(n, states, run, i);
  }

  /** Its join ends only when the worker has returned. */
  lemma JoinIsExact(n: nat, states: seq<State>, run: seq<Event>, i: nat, t: nat)
    requires IsRun(states, run) && states[0] == Init(n) && i < |run| && run[i] == Join(t)
    ensures var s, s' := states[i], states[i + 1];
            && t < |s.clients| && s.clients[t].Joining? && s.clients[t].w == |s.workers| - 1 == |s'.workers| - 1
            && s'.core == s.core && s'.clients == s.clients[t := Joined]
            && !s.workers[|s.workers| - 1].running && Settled(s'.workers[|s.workers| - 1])
  {
    assert Next(states[i], run[i], states[i + 1]);
    EveryRunKeepsInv(n, states, run, i);
  }

  /** After that nothing is held, nobody is closing, and every waiting `create` is
      woken. */
  lemma ResetIsExact(n: nat, states: seq<State>, run: seq<Event>, i: nat, t: nat)
    requires IsRun(states, run) && states[0] == Init(n) && i < |run| && run[i] == Reset(t)
    ensures var s, s' := states[i], states[i + 1];
            && s'.workers == s.workers && s'.core == Core(NoThread, s.core.gen, s.core.stopped, false)
            && t < |s.clients| == |s'.clients| && s'.clients[t].Idle?
            && (forall u :: 0 <= u < |s.clients| && u != t && s.clients[u].CreateParked? ==> s'.clients[u].CreateWoken?)
            && (forall u :: 0 <= u < |s.clients| && u != t && !s.clients[u].CreateParked? ==>
                  s'.clients[u] == s.clients[u])
  {
    assert Next(states[i], run[i], states[i + 1]);
    EveryRunKeepsInv(n, states, run, i);
  }

  ghost predicate CanStep(s: State, e: Event) { exists s' :: Next(s, e, s') }

  /** Every client can always go on, except that a closer waits in `join()` until its
      worker has returned; and a running worker can always poll and return. */
  lemma NobodyIsStuck(n: nat, states: seq<State>, run: seq<Event>, i: nat, t: nat)
    requires IsRun(states, run) && states[0] == Init(n) && i < |states| && t < |states[i].clients|
    ensures var s := states[i];
            match s.clients[t]
            case Idle => CanStep(s, Create(t)) && CanStep(s, ClosePre(t)) && CanStep(s, Claim(t))
            case CreateParked => CanStep(s, Spurious(t))
            case CreateWoken => CanStep(s, Create(t))
            case PreDone(_) => CanStep(s, Claim(t)) && CanStep(s, Leave(t))
            case Joining(w, _) => w < |s.workers| && (CanStep(s, Join(t)) <==> !s.workers[w].running)
            case Joined => CanStep(s, Reset(t))
    ensures forall w :: 0 <= w < |states[i].workers| && states[i].workers[w].running ==>
              CanStep(states[i], Poll(w)) && CanStep(states[i], Exit(w))
  {
    EveryRunKeepsInv(n, states, run, i);
    var s := states[i];
    match s.clients[t] {
      case Idle =>
        CreateStep(s, t);
        ClosePreStep(s, t);
        ClaimStep(s, t);
      case CreateParked => assert Next(s, Spurious(t), Goto(s, t, CreateWoken));
      case CreateWoken => CreateStep(s, t);
      case PreDone(_) =>
        ClaimStep(s, t);
        assert Next(s, Leave(t), Goto(s, t, Idle));
      case Joining(w, _) =>
        if !s.workers[w].running {
          var ws := s.workers[w := s.workers[w].(joins := s.workers[w].joins + 1)];
          assert Next(s, Join(t), Goto(s, t, Joined).(workers := ws));
        }
      case Joined =>
        assert Next(s, Reset(t), s.(core := s.core.Reset(), clients := WakeAll(s.clients[t := Idle])));
    }
    forall w | 0 <= w < |s.workers| && s.workers[w].running ensures CanStep(s, Poll(w)) && CanStep(s, Exit(w)) {
      WorkerSteps(s, w);
    }
  }

  lemma CreateStep(s: State, t: nat)
    requires t < |s.clients| && (s.clients[t].Idle? || s.clients[t].CreateWoken?)
    ensures CanStep(s, Create(t))
  {
    var c := s.core.Launch(|s.workers|);
    var s' := if s.core.closing then Goto(s, t, CreateParked)
              else if s.core.handle.Joinable? then Goto(s, t, Idle)
              else Goto(s, t, Idle).(core := c, workers := s.workers + [Worker(c.gen, true, false, 0, 0)]);
    assert Next(s, Create(t), s');
  }

  lemma ClosePreStep(s: State, t: nat)
    requires t < |s.clients| && (s.clients[t].Idle? || s.clients[t].PreDone?)
    ensures CanStep(s, ClosePre(t))
  {
    var s' := Goto(s, t, PreDone(|s.workers|)).(core := s.core.RequestStop(), lastPre := |s.workers|);
    assert Next(s, ClosePre(t), s');
  }

  lemma ClaimStep(s: State, t: nat)
    requires WorkersOk(s) && t < |s.clients| && (s.clients[t].Idle? || s.clients[t].PreDone?)
    ensures CanStep(s, Claim(t))
  {
    var pre := if s.clients[t].PreDone? then s.clients[t].pre else 0;
    if s.core.closing || s.core.handle.NoThread? {
      assert Next(s, Claim(t), Goto(s, t, Idle));
    } else {
      var w := s.core.handle.w;
      var ws := s.workers[w := s.workers[w].(claims := s.workers[w].claims + 1)];
      assert Next(s, Claim(t), Goto(s, t, Joining(w, pre)).(core := s.core.Claim(), workers := ws));
    }
  }

  lemma WorkerSteps(s: State, w: nat)
    requires w < |s.workers| && s.workers[w].running
    ensures CanStep(s, Poll(w)) && CanStep(s, Exit(w))
  {
    var saw := s.workers[w].sawStop || s.core.gen in s.core.stopped;
    assert Next(s, Poll(w), s.(workers := s.workers[w := s.workers[w].(sawStop := saw)]));
    assert Next(s, Exit(w), s.(workers := s.workers[w := s.workers[w].(running := false)]));
  }

  /** The condition matters: if a `create` slips in between the two halves of a
      `close()`, the closer joins a worker that nobody has told to stop. */
  lemma CreateInsideCloseIsNotStopped()
    ensures exists states: seq<State>, run: seq<Event> ::
      && IsRun(states, run) && states[0] == Init(2)
      && run == [ClosePre(0), Create(1), Claim(0)]
      && states[3].clients == [Joining(0, 0), Idle]
      && states[3].workers == [Worker(1, true, false, 1, 0)]
      && states[3].core.stopped == {0}
  {
    var s0 := Init(2);
    assert s0.clients == [Idle, Idle];
    var s1 := State(Core(NoThread, 0, {0}, false), [], [PreDone(0), Idle], 0);
    var s2 := State(Core(Joinable(0), 1, {0}, false), [Worker(1, true, false, 0, 0)], [PreDone(0), Idle], 0);
    var s3 := State(Core(MovedFrom, 1, {0}, true), [Worker(1, true, false, 1, 0)], [Joining(0, 0), Idle], 0);
    var states, run := [s0, s1, s2, s3], [ClosePre(0), Create(1), Claim(0)];
    assert Next(s0, run[0], s1);
    assert Next(s1, run[1], s2);
    assert Next(s2, run[2], s3);
    assert IsRun(states, run);
  }
}
