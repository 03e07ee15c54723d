/**
  Pausing and resuming virtual CPUs (cpus.c with an I/O thread): the flags, the conditions and the
  global mutex as a system of steps, each of which happens with the mutex held.

  `threadOf` gives the thread that serves each CPU: one thread for each under KVM, one thread for
  all under TCG.
 */
module VcpuPause {

  datatype Cpu = Cpu(stop: bool, stopped: bool, halted: bool, hasWork: bool, queued: bool, kicked: bool)

  /** What a CPU thread is doing. */
  datatype Phase =
    | Top                  // about to run a CPU
    | Executing(cpu: nat)  // in guest code
    | Testing              // about to test whether its CPUs are idle
    | Parked               // waiting on the halt condition
    | Woken                // signalled, waiting for the mutex
    | ParkedIo             // waiting on qemu_io_proceeded_cond
    | IoWoken

  /** The I/O thread: elsewhere, asking for the mutex, or waiting in pause_all_vcpus. */
  datatype Io = Free | Locking | PauseParked | PauseWoken

  /**
    `signals` says of each thread that SIG_IPI is on its way or has come and made it leave guest code;
    `paused` that pause_all_vcpus has returned and resume_all_vcpus has not been called since.
   */
  datatype State = State(cpus: seq<Cpu>, phases: seq<Phase>, signals: seq<bool>, io: Io, paused: bool,
                         requesting: bool, running: bool)

  // ---- The tests of cpus.c -----------------------------------------------------------------------------

  /** cpu_can_run */
  predicate CanRun(c: Cpu, running: bool) {
    !c.stop && !c.stopped && running
  }

  /** cpu_thread_is_idle; `irqchip` is kvm_enabled() && kvm_irqchip_in_kernel(). */
  predicate Idle(c: Cpu, running: bool, irqchip: bool) {
    if c.stop || c.queued then false
    else if c.stopped || !running then true
    else c.halted && !c.hasWork && !irqchip
  }

  ghost predicate Valid(threadOf: seq<nat>, x: State) {
    && |x.cpus| == |threadOf| && |x.signals| == |x.phases|
    && (forall c :: 0 <= c < |threadOf| ==> threadOf[c] < |x.phases|)
  }

  ghost predicate ThreadIdle(threadOf: seq<nat>, x: State, t: nat, irqchip: bool)
    requires Valid(threadOf, x)
  {
    forall c :: 0 <= c < |threadOf| && threadOf[c] == t ==> Idle(x.cpus[c], x.running, irqchip)
  }

  predicate AllStopped(cpus: seq<Cpu>) {
    forall c :: 0 <= c < |cpus| ==> cpus[c].stopped
  }

  // ---- Effects -------------------------------------------------------------------------------------------

  function SetStop(c: Cpu): Cpu { c.(stop := true, kicked := true) }

  function Kick(c: Cpu): Cpu { c.(kicked := true) }

  function ClearStop(c: Cpu): Cpu { c.(stop := false, stopped := false, kicked := true) }

  /** qemu_wait_io_event_common */
  function Common(c: Cpu): Cpu {
    c.(stop := false, stopped := c.stopped || c.stop, queued := false, kicked := false)
  }

  function Map(f: Cpu -> Cpu, cpus: seq<Cpu>): (r: seq<Cpu>)
    ensures |r| == |cpus| && forall c :: 0 <= c < |cpus| ==> r[c] == f(cpus[c])
  {
    seq(|cpus|, c requires 0 <= c < |cpus| => f(cpus[c]))
  }

  /** Broadcasting the halt conditions of all CPUs. */
  function WakeAll(threadOf: seq<nat>, phases: seq<Phase>): (r: seq<Phase>)
    ensures |r| == |phases|
    ensures forall t :: 0 <= t < |phases| ==> r[t] == if phases[t] == Parked && t in threadOf then Woken else phases[t]
  {
    seq(|phases|, t requires 0 <= t < |phases| => if phases[t] == Parked && t in threadOf then Woken else phases[t])
  }

  /** Some CPU of the thread is without a kick under way. */
  predicate Unkicked(threadOf: seq<nat>, cpus: seq<Cpu>, t: nat)
    requires |cpus| == |threadOf|
  {
    exists c :: 0 <= c < |threadOf| && threadOf[c] == t && !cpus[c].kicked
  }

  /** Kicking all CPUs sends SIG_IPI for those without a kick under way. */
  function KickAll(threadOf: seq<nat>, cpus: seq<Cpu>, signals: seq<bool>): (r: seq<bool>)
    requires |cpus| == |threadOf|
    ensures |r| == |signals|
    ensures forall t :: 0 <= t < |signals| ==> (r[t] <==> signals[t] || Unkicked(threadOf, cpus, t))
  {
    seq(|signals|, t requires 0 <= t < |signals| => signals[t] || Unkicked(threadOf, cpus, t))
  }

  /** Signalling qemu_pause_cond. */
  function SignalPause(io: Io): Io {
    if io == PauseParked then PauseWoken else io
  }

  /** The loop of pause_all_vcpus: return when all are stopped, else wait. */
  function PauseTest(x: State): State {
    if AllStopped(x.cpus) then x.(io := Free, paused := true) else x.(io := PauseParked)
  }

  /** Changing every CPU by f and kicking it. */
  function KickedAll(threadOf: seq<nat>, x: State, f: Cpu -> Cpu): State
    requires |x.cpus| == |threadOf|
  {
    x.(cpus := Map(f, x.cpus), phases := WakeAll(threadOf, x.phases),
       signals := KickAll(threadOf, x.cpus, x.signals))
  }

  function PauseBegun(threadOf: seq<nat>, x: State): State
    requires |x.cpus| == |threadOf|
  {
    PauseTest(KickedAll(threadOf, x, SetStop))
  }

  function PauseContinued(threadOf: seq<nat>, x: State): State
    requires |x.cpus| == |threadOf|
  {
    PauseTest(KickedAll(threadOf, x, Kick))
  }

  /** resume_all_vcpus */
  function Resumed(threadOf: seq<nat>, x: State): State
    requires |x.cpus| == |threadOf|
  {
    KickedAll(threadOf, x, ClearStop).(paused := false)
  }

  /** A thread handles the events of its CPUs. */
  function Handled(threadOf: seq<nat>, cpus: seq<Cpu>, t: nat): (r: seq<Cpu>)
    requires |cpus| == |threadOf|
    ensures |r| == |cpus|
    ensures forall c :: 0 <= c < |cpus| ==> r[c] == if threadOf[c] == t then Common(cpus[c]) else cpus[c]
  {
    seq(|cpus|, c requires 0 <= c < |cpus| => if threadOf[c] == t then Common(cpus[c]) else cpus[c])
  }

  // ---- Steps of CPU threads ------------------------------------------------------------------------------

  /** A signal that has not been taken yet keeps the thread out of guest code. */
  ghost predicate Enter(threadOf: seq<nat>, x: State, y: State, t: nat, c: nat) {
    && t < |x.phases| == |x.signals| && x.phases[t] == Top && !x.signals[t]
    && c < |threadOf| == |x.cpus| && threadOf[c] == t
    && CanRun(x.cpus[c], x.running)
    && y == x.(phases := x.phases[t := Executing(c)])
  }

  /** Leaving guest code; after a debug exception cpu_handle_guest_debug stops the CPU. */
  ghost predicate Exit(threadOf: seq<nat>, x: State, y: State, t: nat, debug: bool) {
    && t < |x.phases| && x.phases[t].Executing? && x.phases[t].cpu < |x.cpus|
    && y == x.(phases := x.phases[t := Top],
               cpus := if debug then x.cpus[x.phases[t].cpu := x.cpus[x.phases[t].cpu].(stopped := true)] else x.cpus)
  }

  /** cpu_stop_current, called by a device model within guest code. */
  ghost predicate StopCurrent(threadOf: seq<nat>, x: State, y: State, t: nat) {
    && t < |x.phases| && x.phases[t].Executing? && x.phases[t].cpu < |x.cpus|
    && y == x.(cpus := x.cpus[x.phases[t].cpu := x.cpus[x.phases[t].cpu].(stop := false, stopped := true)],
               io := SignalPause(x.io))
  }

  /** SIG_IPI is taken: exit_request is cleared under TCG, the signal is eaten under KVM. */
  ghost predicate Taken(x: State, y: State, t: nat) {
    y.signals == x.signals || (t < |x.signals| && y.signals == x.signals[t := false])
  }

  ghost predicate Proceed(x: State, y: State, t: nat) {
    && t < |x.phases| && x.phases[t] == Top && Taken(x, y, t)
    && y == x.(phases := x.phases[t := Testing], signals := y.signals)
  }

  /** All CPUs of the thread are idle: it waits on the halt condition. */
  ghost predicate Park(threadOf: seq<nat>, x: State, y: State, t: nat, irqchip: bool) {
    && Valid(threadOf, x) && t < |x.phases| && x.phases[t] == Testing && ThreadIdle(threadOf, x, t, irqchip)
    && y == x.(phases := x.phases[t := Parked])
  }

  /** The I/O thread is asking for the mutex: the thread lets it go first. */
  ghost predicate ParkForIo(x: State, y: State, t: nat) {
    && t < |x.phases| && (x.phases[t] == Testing || x.phases[t] == IoWoken) && x.requesting
    && y == x.(phases := x.phases[t := ParkedIo])
  }

  ghost predicate Handle(threadOf: seq<nat>, x: State, y: State, t: nat) {
    && |x.cpus| == |threadOf| && t < |x.phases| && !x.requesting
    && (x.phases[t] == Testing || x.phases[t] == IoWoken) && Taken(x, y, t)
    && y == x.(phases := x.phases[t := Top], cpus := Handled(threadOf, x.cpus, t), signals := y.signals,
               io := if exists c :: 0 <= c < |threadOf| && threadOf[c] == t && x.cpus[c].stop
                     then SignalPause(x.io) else x.io)
  }

  /** Having the mutex again after a signal, or without one. */
  ghost predicate WakeUp(x: State, y: State, t: nat) {
    && t < |x.phases| && (x.phases[t] == Woken || x.phases[t] == Parked)
    && y == x.(phases := x.phases[t := Testing])
  }

  // ---- Steps of the I/O thread and of the rest of the machine ----------------------------------------------

  /** qemu_mutex_lock_iothread asks for the mutex, with SIG_IPI to a thread that holds it ... */
  ghost predicate Request(x: State, y: State) {
    && x.io == Free && |y.signals| == |x.signals|
    && (forall t :: 0 <= t < |x.signals| && x.signals[t] ==> y.signals[t])
    && y == x.(io := Locking, requesting := true, signals := y.signals)
  }

  /** ... and gets it. */
  ghost predicate Acquire(x: State, y: State) {
    && x.io == Locking && |y.phases| == |x.phases|
    && (forall t :: 0 <= t < |x.phases| ==> y.phases[t] == if x.phases[t] == ParkedIo then IoWoken else x.phases[t])
    && y == x.(io := Free, requesting := false, phases := y.phases)
  }

  ghost predicate Pause(threadOf: seq<nat>, x: State, y: State) {
    x.io == Free && |x.cpus| == |threadOf| && y == PauseBegun(threadOf, x)
  }

  /** pause_all_vcpus wakes from qemu_pause_cond, signalled or not. */
  ghost predicate PauseWake(threadOf: seq<nat>, x: State, y: State) {
    Pausing(x.io) && |x.cpus| == |threadOf| && y == PauseContinued(threadOf, x)
  }

  ghost predicate Resume(threadOf: seq<nat>, x: State, y: State) {
    x.io == Free && |x.cpus| == |threadOf| && y == Resumed(threadOf, x)
  }

  /** qemu_cpu_kick or qemu_cpu_kick_self for one CPU, by whatever part of the emulator. */
  ghost predicate KickOne(threadOf: seq<nat>, x: State, y: State, c: nat) {
    && c < |threadOf| == |x.cpus| && threadOf[c] < |x.signals|
    && (y.phases == x.phases || y.phases == WakeAll([threadOf[c]], x.phases))
    && y == x.(cpus := x.cpus[c := Kick(x.cpus[c])], phases := y.phases,
               signals := if x.cpus[c].kicked then x.signals else x.signals[threadOf[c] := true])
  }

  /** Devices, timers and run_on_cpu change the other flags at any time. */
  ghost predicate Environment(x: State, y: State) {
    && |y.cpus| == |x.cpus|
    && (forall c :: 0 <= c < |x.cpus| ==> SameRequests(x.cpus[c], y.cpus[c]))
    && y == x.(cpus := y.cpus, running := y.running)
  }

  predicate SameRequests(c: Cpu, d: Cpu) {
    d.stop == c.stop && d.stopped == c.stopped && d.kicked == c.kicked
  }

  ghost predicate ThreadStep(threadOf: seq<nat>, x: State, y: State, t: nat) {
    || (exists c :: Enter(threadOf, x, y, t, c))
    || (exists debug :: Exit(threadOf, x, y, t, debug))
    || StopCurrent(threadOf, x, y, t)
    || Proceed(x, y, t)
    || (exists irqchip :: Park(threadOf, x, y, t, irqchip))
    || ParkForIo(x, y, t)
    || Handle(threadOf, x, y, t)
    || WakeUp(x, y, t)
  }

  ghost predicate Step(threadOf: seq<nat>, x: State, y: State) {
    (exists t :: ThreadStep(threadOf, x, y, t)) || OtherStep(threadOf, x, y)
  }

  ghost predicate OtherStep(threadOf: seq<nat>, x: State, y: State) {
    || Request(x, y) || Acquire(x, y)
    || Pause(threadOf, x, y) || PauseWake(threadOf, x, y) || Resume(threadOf, x, y)
    || (exists c :: KickOne(threadOf, x, y, c))
    || Environment(x, y)
  }

  ghost predicate Run(threadOf: seq<nat>, run: seq<State>) {
    && |run| > 0
    && forall k :: 0 <= k < |run| - 1 ==> Step(threadOf, run[k], run[k + 1])
  }

  /** Before the first pause. */
  ghost predicate Start(threadOf: seq<nat>, x: State) {
    && Valid(threadOf, x) && x.io == Free && !x.paused && !x.requesting
    && (forall c :: 0 <= c < |x.cpus| ==> !x.cpus[c].stop && !x.cpus[c].kicked)
    && (forall t :: 0 <= t < |x.phases| ==> x.phases[t] == Top)
  }

  // ---- The invariant ---------------------------------------------------------------------------------------

  predicate Pausing(io: Io) { io == PauseParked || io == PauseWoken }

  /** Running CPUs, and not yet on the way to handling their events. */
  predicate InLoop(p: Phase) { p == Top || p.Executing? }

  ghost predicate SomeStop(cpus: seq<Cpu>) {
    exists c :: 0 <= c < |cpus| && cpus[c].stop
  }

  ghost predicate Invariant(threadOf: seq<nat>, x: State) {
    && Valid(threadOf, x)
    // while pause_all_vcpus waits, every CPU has been told to stop or has stopped
    && (Pausing(x.io) ==> forall c :: 0 <= c < |x.cpus| ==> x.cpus[c].stop || x.cpus[c].stopped)
    // once it has returned, every CPU stays stopped
    && (x.paused ==> AllStopped(x.cpus))
    // no thread stays on its halt condition with a CPU told to stop
    && (forall c :: 0 <= c < |x.cpus| && x.phases[threadOf[c]] == Parked ==> !x.cpus[c].stop)
    // pause_all_vcpus waits unsignalled only while some CPU still has to react
    && (x.io == PauseParked ==> SomeStop(x.cpus))
    // threads that gave way to the I/O thread are waiting for it to get the mutex
    && (x.requesting <==> x.io == Locking)
    && (forall t :: 0 <= t < |x.phases| && x.phases[t] == ParkedIo ==> x.requesting)
    // a CPU told to stop has been kicked, and a kicked CPU's thread cannot go on without the signal
    && (forall c :: 0 <= c < |x.cpus| && x.cpus[c].stop ==> x.cpus[c].kicked)
    && (forall c :: 0 <= c < |x.cpus| && x.cpus[c].kicked && InLoop(x.phases[threadOf[c]]) ==> x.signals[threadOf[c]])
  }

  lemma ExitKeeps(threadOf: seq<nat>, x: State, y: State, t: nat, debug: bool)
    requires Invariant(threadOf, x) && Exit(threadOf, x, y, t, debug)
    ensures Invariant(threadOf, y)
  {
    if x.io == PauseParked {
      var c :| 0 <= c < |x.cpus| && x.cpus[c].stop;
      assert y.cpus[c].stop;
    }
  }

  lemma StopCurrentKeeps(threadOf: seq<nat>, x: State, y: State, t: nat)
    requires Invariant(threadOf, x) && StopCurrent(threadOf, x, y, t)
    ensures Invariant(threadOf, y)
  {}

  lemma ParkKeeps(threadOf: seq<nat>, x: State, y: State, t: nat, irqchip: bool)
    requires Invariant(threadOf, x) && Park(threadOf, x, y, t, irqchip)
    ensures Invariant(threadOf, y)
  {
    assert forall c :: 0 <= c < |x.cpus| && threadOf[c] == t ==> Idle(x.cpus[c], x.running, irqchip);
  }

  lemma ThreadKeeps(threadOf: seq<nat>, x: State, y: State, t: nat)
    requires Invariant(threadOf, x) && ThreadStep(threadOf, x, y, t)
    ensures Invariant(threadOf, y)
  {
    hide Enter, Exit, StopCurrent, Proceed, Park, ParkForIo, Handle, WakeUp, Invariant;
    if debug :| Exit(threadOf, x, y, t, debug) {
      ExitKeeps(threadOf, x, y, t, debug);
    } else if StopCurrent(threadOf, x, y, t) {
      StopCurrentKeeps(threadOf, x, y, t);
    } else if irqchip :| Park(threadOf, x, y, t, irqchip) {
      ParkKeeps(threadOf, x, y, t, irqchip);
    } else if Handle(threadOf, x, y, t) {
      HandleKeeps(threadOf, x, y, t);
    } else {
      PhaseKeeps(threadOf, x, y, t);
    }
  }

  /** Steps that change no CPU. */
  lemma PhaseKeeps(threadOf: seq<nat>, x: State, y: State, t: nat)
    requires Invariant(threadOf, x)
    requires (exists c :: Enter(threadOf, x, y, t, c)) || Proceed(x, y, t) || ParkForIo(x, y, t) || WakeUp(x, y, t)
    ensures Invariant(threadOf, y)
  {
    hide SomeStop, CanRun, AllStopped;
  }

  lemma HandleKeeps(threadOf: seq<nat>, x: State, y: State, t: nat)
    requires Invariant(threadOf, x) && Handle(threadOf, x, y, t)
    ensures Invariant(threadOf, y)
  {
    if y.io == PauseParked {
      var c :| 0 <= c < |x.cpus| && x.cpus[c].stop;
      assert y.cpus[c].stop;
    }
  }

  lemma PauseTestKeeps(threadOf: seq<nat>, x: State)
    requires Valid(threadOf, x) && !x.requesting && (x.paused ==> AllStopped(x.cpus))
    requires forall c :: 0 <= c < |x.cpus| ==> x.cpus[c].stop || x.cpus[c].stopped
    requires forall c :: 0 <= c < |x.cpus| ==> x.phases[threadOf[c]] != Parked
    requires forall t :: 0 <= t < |x.phases| ==> x.phases[t] != ParkedIo
    requires forall c :: 0 <= c < |x.cpus| ==> x.cpus[c].kicked
    requires forall c :: 0 <= c < |x.cpus| && InLoop(x.phases[threadOf[c]]) ==> x.signals[threadOf[c]]
    ensures Invariant(threadOf, PauseTest(x))
  {
    if !AllStopped(x.cpus) {
      var c :| 0 <= c < |x.cpus| && !x.cpus[c].stopped;
      assert x.cpus[c].stop;
    }
  }

  lemma StepKeeps(threadOf: seq<nat>, x: State, y: State)
    requires Invariant(threadOf, x) && Step(threadOf, x, y)
    ensures Invariant(threadOf, y)
  {
    hide ThreadStep, Environment, KickOne, Pause, PauseWake, Resume;
    if t :| ThreadStep(threadOf, x, y, t) {
      ThreadKeeps(threadOf, x, y, t);
    } else if Pause(threadOf, x, y) || PauseWake(threadOf, x, y) || Resume(threadOf, x, y) {
      PauseKeeps(threadOf, x, y);
    } else if c :| KickOne(threadOf, x, y, c) {
      KickOneKeeps(threadOf, x, y, c);
    } else if Environment(x, y) {
      EnvironmentKeeps(threadOf, x, y);
    }
  }

  lemma PauseKeeps(threadOf: seq<nat>, x: State, y: State)
    requires Invariant(threadOf, x)
    requires Pause(threadOf, x, y) || PauseWake(threadOf, x, y) || Resume(threadOf, x, y)
    ensures Invariant(threadOf, y)
  {
    if Pause(threadOf, x, y) {
      KickedAllSignals(threadOf, x, SetStop);
      PauseTestKeeps(threadOf, KickedAll(threadOf, x, SetStop));
    } else if PauseWake(threadOf, x, y) {
      KickedAllSignals(threadOf, x, Kick);
      PauseTestKeeps(threadOf, KickedAll(threadOf, x, Kick));
    } else {
      KickedAllSignals(threadOf, x, ClearStop);
    }
  }

  /** No kick is lost to one that is already under way: all threads in their loops have the signal. */
  lemma KickedAllSignals(threadOf: seq<nat>, x: State, f: Cpu -> Cpu)
    requires Invariant(threadOf, x)
    ensures var y := KickedAll(threadOf, x, f);
            forall c :: 0 <= c < |x.cpus| && InLoop(y.phases[threadOf[c]]) ==> y.signals[threadOf[c]]
  {
    var y := KickedAll(threadOf, x, f);
    forall c | 0 <= c < |x.cpus| && InLoop(y.phases[threadOf[c]])
      ensures y.signals[threadOf[c]]
    {
      if !x.cpus[c].kicked {
        assert Unkicked(threadOf, x.cpus, threadOf[c]);
      }
    }
  }

  lemma KickOneKeeps(threadOf: seq<nat>, x: State, y: State, c: nat)
    requires Invariant(threadOf, x) && KickOne(threadOf, x, y, c)
    ensures Invariant(threadOf, y)
  {
    if x.io == PauseParked {
      var k :| 0 <= k < |x.cpus| && x.cpus[k].stop;
      assert y.cpus[k].stop;
    }
  }

  lemma EnvironmentKeeps(threadOf: seq<nat>, x: State, y: State)
    requires Invariant(threadOf, x) && Environment(x, y)
    ensures Invariant(threadOf, y)
  {
    if x.io == PauseParked {
      var c :| 0 <= c < |x.cpus| && x.cpus[c].stop;
      assert y.cpus[c].stop;
    }
  }

  lemma {:induction false} RunKeeps(threadOf: seq<nat>, run: seq<State>)
    requires Run(threadOf, run) && Start(threadOf, run[0])
    ensures Invariant(threadOf, run[|run| - 1])
    decreases |run|
  {
    hide Step;
    if |run| > 1 {
      var n := |run| - 1;
      RunKeeps(threadOf, run[..n]);
      StepKeeps(threadOf, run[n - 1], run[n]);
    }
  }

  // ---- Results ---------------------------------------------------------------------------------------------

  /** In every reachable state after pause_all_vcpus returns and before resume, no CPU can run. */
  lemma PausedMeansStopped(threadOf: seq<nat>, run: seq<State>, c: nat)
    requires Run(threadOf, run) && Start(threadOf, run[0])
    requires var x := run[|run| - 1]; c < |x.cpus| && x.paused
    ensures var x := run[|run| - 1]; x.cpus[c].stopped && !CanRun(x.cpus[c], x.running)
  {
    hide Step;
    RunKeeps(threadOf, run);
  }

  /**
    In every reachable state in which pause_all_vcpus waits: every CPU has stop or stopped set, and
    if no signal is on its way there is a CPU with stop set whose thread is not waiting for anything.
   */
  lemma NoLostWakeup(threadOf: seq<nat>, run: seq<State>)
    requires Run(threadOf, run) && Start(threadOf, run[0])
    requires Pausing(run[|run| - 1].io)
    ensures var x := run[|run| - 1];
            && Valid(threadOf, x)
            && (forall c :: 0 <= c < |x.cpus| ==> x.cpus[c].stop || x.cpus[c].stopped)
            && (forall c :: 0 <= c < |x.cpus| && x.cpus[c].stop ==>
                              x.phases[threadOf[c]] != Parked && x.phases[threadOf[c]] != ParkedIo)
            && (x.io == PauseParked ==> SomeStop(x.cpus))
  {
    hide Step;
    RunKeeps(threadOf, run);
  }

  /**
    In every reachable state, a thread that is in guest code with one of its CPUs told to stop has the
    signal that makes it leave: kicking once for many requests loses none of them.
   */
  lemma KickUnderWay(threadOf: seq<nat>, run: seq<State>, c: nat)
    requires Run(threadOf, run) && Start(threadOf, run[0])
    requires var x := run[|run| - 1]; c < |x.cpus| && (x.cpus[c].stop || x.cpus[c].kicked)
    ensures var x := run[|run| - 1];
            Valid(threadOf, x) && (InLoop(x.phases[threadOf[c]]) ==> x.signals[threadOf[c]])
  {
    hide Step;
    RunKeeps(threadOf, run);
  }

  /** The CPUs that have not yet reacted. */
  ghost function Stops(cpus: seq<Cpu>): set<nat> {
    set c: nat | c < |cpus| && cpus[c].stop
  }

  /** While pause_all_vcpus waits, no step tells a CPU to stop anew. */
  lemma StopsShrink(threadOf: seq<nat>, x: State, y: State)
    requires Invariant(threadOf, x) && Step(threadOf, x, y) && Pausing(x.io)
    ensures Stops(y.cpus) <= Stops(x.cpus)
  {
    hide Environment, ThreadStep, Invariant;
    if t :| ThreadStep(threadOf, x, y, t) {
      ThreadStops(threadOf, x, y, t);
    } else if Environment(x, y) {
      EnvironmentStops(x, y);
    }
  }

  lemma ThreadStops(threadOf: seq<nat>, x: State, y: State, t: nat)
    requires ThreadStep(threadOf, x, y, t)
    ensures Stops(y.cpus) <= Stops(x.cpus)
  {}

  lemma EnvironmentStops(x: State, y: State)
    requires Environment(x, y)
    ensures Stops(y.cpus) == Stops(x.cpus)
  {}

  /** And the next time a thread handles its events, fewer are left and the wait is signalled. */
  lemma HandlingCounts(threadOf: seq<nat>, x: State, y: State, c: nat)
    requires Invariant(threadOf, x) && c < |x.cpus| && x.cpus[c].stop && Handle(threadOf, x, y, threadOf[c])
    ensures |Stops(y.cpus)| < |Stops(x.cpus)| && y.io != PauseParked
  {
    assert c in Stops(x.cpus) && c !in Stops(y.cpus);
    assert Stops(y.cpus) < Stops(x.cpus);
    ProperSubset(Stops(y.cpus), Stops(x.cpus));
  }

  lemma ProperSubset(a: set<nat>, b: set<nat>)
    requires a < b
    ensures |a| < |b|
  {
    assert b == a + (b - a);
  }

  /** When every CPU has reacted, a waiting pause_all_vcpus has been signalled, and returns. */
  lemma PauseEnds(threadOf: seq<nat>, x: State)
    requires Invariant(threadOf, x) && Pausing(x.io) && Stops(x.cpus) == {}
    ensures x.io == PauseWoken
    ensures var y := PauseContinued(threadOf, x); PauseWake(threadOf, x, y) && y.paused && y.io == Free
  {
    forall c: nat | c < |x.cpus|
      ensures !x.cpus[c].stop && x.cpus[c].stopped
    {
      assert c !in Stops(x.cpus);
    }
    assert !SomeStop(x.cpus);
    assert AllStopped(Map(Kick, x.cpus));
  }

  lemma RunJoin(threadOf: seq<nat>, first: seq<State>, second: seq<State>)
    requires Run(threadOf, first) && Run(threadOf, second) && first[|first| - 1] == second[0]
    ensures Run(threadOf, first + second[1..])
    ensures var run := first + second[1..]; run[0] == first[0] && run[|run| - 1] == second[|second| - 1]
  {
    hide Step;
    var run := first + second[1..];
    forall k | 0 <= k < |run| - 1
      ensures Step(threadOf, run[k], run[k + 1])
    {
      if k >= |first| - 1 {
        var j := k - (|first| - 1);
        assert run[k] == second[j] && run[k + 1] == second[j + 1];
      }
    }
  }

  lemma RunOf(threadOf: seq<nat>, x: State, y: State)
    requires Step(threadOf, x, y)
    ensures Run(threadOf, [x, y])
  {
    hide Step;
  }

  /** What the thread of a CPU that is to stop does next. */
  function Reaction(threadOf: seq<nat>, x: State, t: nat): State
    requires Valid(threadOf, x) && t < |x.phases|
  {
    if Distance(x.phases[t]) == 0 then
      x.(phases := x.phases[t := Top], cpus := Handled(threadOf, x.cpus, t), io := SignalPause(x.io))
    else
      x.(phases := x.phases[t := if x.phases[t] == Woken || x.phases[t] == Top then Testing else Top])
  }

  /** It is a step, and brings the thread closer to handling the request or handles it. */
  lemma ReactionIsStep(threadOf: seq<nat>, x: State, c: nat)
    requires Invariant(threadOf, x) && Pausing(x.io) && c < |x.cpus| && x.cpus[c].stop && ExecutesOwn(threadOf, x)
    ensures ThreadStep(threadOf, x, Reaction(threadOf, x, threadOf[c]), threadOf[c])
    ensures var t := threadOf[c]; Distance(x.phases[t]) == 0 ==> Handle(threadOf, x, Reaction(threadOf, x, t), t)
  {
    hide Idle;
    var t := threadOf[c];
    var y := Reaction(threadOf, x, t);
    if Distance(x.phases[t]) == 0 {
      assert Handle(threadOf, x, y, t);
    } else if x.phases[t] == Woken {
      assert WakeUp(x, y, t);
    } else if x.phases[t] == Top {
      assert Proceed(x, y, t);
    } else {
      assert Exit(threadOf, x, y, t, false);
    }
  }

  lemma ThreadIsStep(threadOf: seq<nat>, x: State, y: State, t: nat)
    requires ThreadStep(threadOf, x, y, t)
    ensures Step(threadOf, x, y)
  {
    hide ThreadStep;
  }

  /** The thread of a CPU that is to stop can always go on to handle the request. */
  lemma {:induction false} CanReact(threadOf: seq<nat>, x: State, c: nat) returns (run: seq<State>)
    requires Invariant(threadOf, x) && Pausing(x.io) && c < |x.cpus| && x.cpus[c].stop && ExecutesOwn(threadOf, x)
    ensures Run(threadOf, run) && run[0] == x
    ensures var y := run[|run| - 1];
            Invariant(threadOf, y) && ExecutesOwn(threadOf, y) && Pausing(y.io) && |Stops(y.cpus)| < |Stops(x.cpus)|
    decreases Distance(x.phases[threadOf[c]])
  {
    var t := threadOf[c];
    ReactionIsStep(threadOf, x, c);
    hide Invariant, ExecutesOwn, ThreadStep, Step, Handle, Stops;
    var y := Reaction(threadOf, x, t);
    ThreadIsStep(threadOf, x, y, t);
    StepKeeps(threadOf, x, y);
    StepKeepsOwn(threadOf, x, y);
    RunOf(threadOf, x, y);
    run := [x, y];
    if Distance(x.phases[t]) == 0 {
      HandlingCounts(threadOf, x, y, c);
    } else {
      var rest := CanReact(threadOf, y, c);
      RunJoin(threadOf, run, rest);
      run := run + rest[1..];
    }
  }

  /** How far a thread is from handling its events. */
  function Distance(p: Phase): nat {
    match p
    case Testing => 0
    case IoWoken => 0
    case Woken => 1
    case Top => 1
    case _ => 2
  }

  /** A thread executes only CPUs that it serves. */
  ghost predicate ExecutesOwn(threadOf: seq<nat>, x: State) {
    forall t :: 0 <= t < |x.phases| && x.phases[t].Executing? ==>
      x.phases[t].cpu < |threadOf| == |x.cpus| && threadOf[x.phases[t].cpu] == t
  }

  lemma ThreadKeepsOwn(threadOf: seq<nat>, x: State, y: State, t: nat)
    requires ThreadStep(threadOf, x, y, t) && ExecutesOwn(threadOf, x)
    ensures ExecutesOwn(threadOf, y)
  {
    hide CanRun, ThreadIdle, Handled, Taken, SignalPause;
  }

  lemma StepKeepsOwn(threadOf: seq<nat>, x: State, y: State)
    requires Step(threadOf, x, y) && ExecutesOwn(threadOf, x)
    ensures ExecutesOwn(threadOf, y)
  {
    hide ThreadStep;
    if t :| ThreadStep(threadOf, x, y, t) {
      ThreadKeepsOwn(threadOf, x, y, t);
    } else {
      OthersKeepPhases(threadOf, x, y);
    }
  }

  ghost predicate KeepsPhases(x: State, y: State) {
    && |y.cpus| == |x.cpus| && |y.phases| == |x.phases|
    && (forall t :: 0 <= t < |x.phases| ==>
          (x.phases[t].Executing? || y.phases[t].Executing? ==> y.phases[t] == x.phases[t]))
    && (forall c :: 0 <= c < |x.cpus| && y.cpus[c].stopped ==> x.cpus[c].stopped)
  }

  /** Steps of others do not put a thread into guest code or out of it. */
  lemma OthersKeepPhases(threadOf: seq<nat>, x: State, y: State)
    requires OtherStep(threadOf, x, y)
    ensures KeepsPhases(x, y)
  {
    hide Pause, PauseWake, Resume;
    if Pause(threadOf, x, y) || PauseWake(threadOf, x, y) || Resume(threadOf, x, y) {
      PauseKeepsPhases(threadOf, x, y);
    }
  }

  lemma PauseKeepsPhases(threadOf: seq<nat>, x: State, y: State)
    requires Pause(threadOf, x, y) || PauseWake(threadOf, x, y) || Resume(threadOf, x, y)
    ensures KeepsPhases(x, y)
  {
    hide Unkicked, AllStopped;
  }

  /** At some step of the run the thread handles its events. */
  ghost predicate Handles(threadOf: seq<nat>, run: seq<State>, t: nat) {
    exists k :: 0 <= k < |run| - 1 && Handle(threadOf, run[k], run[k + 1], t)
  }

  lemma HandledStops(threadOf: seq<nat>, x: State, y: State, c: nat)
    requires c < |threadOf| && Handle(threadOf, x, y, threadOf[c])
    ensures c !in Stops(y.cpus)
  {}

  /** While pause_all_vcpus waits, a CPU that has reacted is not told to stop again. */
  lemma {:induction false} StopsShrinkRun(threadOf: seq<nat>, run: seq<State>, k: nat)
    requires Run(threadOf, run) && Invariant(threadOf, run[0]) && k < |run|
    requires forall j :: 0 <= j < |run| ==> Pausing(run[j].io)
    ensures Invariant(threadOf, run[|run| - 1]) && Stops(run[|run| - 1].cpus) <= Stops(run[k].cpus)
    decreases |run|
  {
    hide Step, Invariant, Stops;
    var n := |run| - 1;
    if k < n {
      StopsShrinkRun(threadOf, run[..n], k);
      StepKeeps(threadOf, run[n - 1], run[n]);
      StopsShrink(threadOf, run[n - 1], run[n]);
    } else if n > 0 {
      StopsShrinkRun(threadOf, run[..n], n - 1);
      StepKeeps(threadOf, run[n - 1], run[n]);
    }
  }

  /**
    Every run of a waiting pause_all_vcpus in which each thread with a CPU to stop handles its events
    ends the wait: the wait has been signalled, and returns when it wakes.
   */
  lemma EveryWaitEnds(threadOf: seq<nat>, run: seq<State>)
    requires Run(threadOf, run) && Invariant(threadOf, run[0])
    requires forall j :: 0 <= j < |run| ==> Pausing(run[j].io)
    requires forall c :: c in Stops(run[0].cpus) && c < |threadOf| ==> Handles(threadOf, run, threadOf[c])
    ensures var z := run[|run| - 1];
            && Valid(threadOf, z) && z.io == PauseWoken && PauseWake(threadOf, z, PauseContinued(threadOf, z))
            && PauseContinued(threadOf, z).paused
  {
    hide Step, Handle;
    var z := run[|run| - 1];
    StopsShrinkRun(threadOf, run, 0);
    forall c | c in Stops(run[0].cpus)
      ensures c !in Stops(z.cpus)
    {
      var k :| 0 <= k < |run| - 1 && Handle(threadOf, run[k], run[k + 1], threadOf[c]);
      HandledStops(threadOf, run[k], run[k + 1], c);
      StopsShrinkRun(threadOf, run, k + 1);
    }
    assert Stops(z.cpus) == {};
    PauseEnds(threadOf, z);
  }

  /** From every waiting state of pause_all_vcpus there is a way for it to return. */
  lemma {:induction false} PauseCanEnd(threadOf: seq<nat>, x: State) returns (run: seq<State>)
    requires Invariant(threadOf, x) && Pausing(x.io) && ExecutesOwn(threadOf, x)
    ensures Run(threadOf, run) && run[0] == x && run[|run| - 1].paused && run[|run| - 1].io == Free
    decreases |Stops(x.cpus)|
  {
    hide Step, Invariant, ExecutesOwn;
    if Stops(x.cpus) == {} {
      PauseEnds(threadOf, x);
      PauseStep(threadOf, x);
      RunOf(threadOf, x, PauseContinued(threadOf, x));
      run := [x, PauseContinued(threadOf, x)];
    } else {
      var c :| c in Stops(x.cpus);
      var first := CanReact(threadOf, x, c);
      var rest := PauseCanEnd(threadOf, first[|first| - 1]);
      RunJoin(threadOf, first, rest);
      run := first + rest[1..];
    }
  }

  lemma PauseStep(threadOf: seq<nat>, x: State)
    requires Pausing(x.io) && |x.cpus| == |threadOf|
    ensures Step(threadOf, x, PauseContinued(threadOf, x))
  {
    hide ThreadStep, Environment;
  }

  // ---- Who may still be in guest code once all are paused -----------------------------------------------------

  /** At step k of the run, CPU c stopped itself in device code, and its thread has been there since. */
  ghost predicate StoppedItself(threadOf: seq<nat>, run: seq<State>, t: nat, c: nat, k: nat) {
    && k < |run| - 1 && StopCurrent(threadOf, run[k], run[k + 1], t)
    && forall j :: k <= j < |run| ==> t < |run[j].phases| && run[j].phases[t] == Executing(c)
  }

  /** One step: a CPU in guest code that is stopped was so before, or stops itself now. */
  lemma StoppedWhileExecuting(threadOf: seq<nat>, x: State, y: State, t: nat, c: nat)
    requires Step(threadOf, x, y) && ExecutesOwn(threadOf, x)
    requires |x.cpus| == |threadOf| && t < |y.phases| && y.phases[t] == Executing(c)
    requires c < |y.cpus| && y.cpus[c].stopped
    ensures t < |x.phases| && x.phases[t] == Executing(c) && c < |x.cpus|
    ensures x.cpus[c].stopped || StopCurrent(threadOf, x, y, t)
  {
    hide ThreadStep, ExecutesOwn;
    if u :| ThreadStep(threadOf, x, y, u) {
      StoppedByThread(threadOf, x, y, u, t, c);
    } else {
      OthersKeepPhases(threadOf, x, y);
    }
  }

  lemma StoppedByThread(threadOf: seq<nat>, x: State, y: State, u: nat, t: nat, c: nat)
    requires ThreadStep(threadOf, x, y, u) && ExecutesOwn(threadOf, x)
    requires |x.cpus| == |threadOf| && t < |y.phases| && y.phases[t] == Executing(c)
    requires c < |y.cpus| && y.cpus[c].stopped
    ensures t < |x.phases| && x.phases[t] == Executing(c) && c < |x.cpus|
    ensures x.cpus[c].stopped || StopCurrent(threadOf, x, y, t)
  {
    hide Idle, ThreadIdle;
  }

  lemma {:induction false} ExecutingStopped(threadOf: seq<nat>, run: seq<State>, t: nat, c: nat) returns (k: nat)
    requires Run(threadOf, run) && Start(threadOf, run[0])
    requires var x := run[|run| - 1]; t < |x.phases| && x.phases[t] == Executing(c) && c < |x.cpus| && x.cpus[c].stopped
    ensures StoppedItself(threadOf, run, t, c, k)
    decreases |run|
  {
    hide Step, StopCurrent;
    var n := |run| - 1;
    RunOwn(threadOf, run[..n]);
    RunKeeps(threadOf, run[..n]);
    StoppedWhileExecuting(threadOf, run[n - 1], run[n], t, c);
    if StopCurrent(threadOf, run[n - 1], run[n], t) {
      k := n - 1;
    } else {
      k := ExecutingStopped(threadOf, run[..n], t, c);
    }
  }

  lemma {:induction false} RunOwn(threadOf: seq<nat>, run: seq<State>)
    requires Run(threadOf, run) && Start(threadOf, run[0])
    ensures ExecutesOwn(threadOf, run[|run| - 1])
    decreases |run|
  {
    hide Step;
    if |run| > 1 {
      var n := |run| - 1;
      RunOwn(threadOf, run[..n]);
      StepKeepsOwn(threadOf, run[n - 1], run[n]);
    }
  }

  /**
    Once pause_all_vcpus has returned, a thread is still in guest code with CPU c if and only if that
    CPU stopped itself there, by cpu_stop_current in a device model, and has not left since.
   */
  lemma PausedInGuestCode(threadOf: seq<nat>, run: seq<State>, t: nat, c: nat)
    requires Run(threadOf, run) && Start(threadOf, run[0]) && run[|run| - 1].paused
    ensures (var x := run[|run| - 1]; t < |x.phases| && x.phases[t] == Executing(c)) <==>
              exists k :: StoppedItself(threadOf, run, t, c, k)
  {
    hide Step, StoppedItself;
    var x := run[|run| - 1];
    if t < |x.phases| && x.phases[t] == Executing(c) {
      RunKeeps(threadOf, run);
      RunOwn(threadOf, run);
      var k := ExecutingStopped(threadOf, run, t, c);
    }
    if k :| StoppedItself(threadOf, run, t, c, k) {
      StillThere(threadOf, run, t, c, k);
    }
  }

  lemma StillThere(threadOf: seq<nat>, run: seq<State>, t: nat, c: nat, k: nat)
    requires StoppedItself(threadOf, run, t, c, k)
    ensures var x := run[|run| - 1]; t < |x.phases| && x.phases[t] == Executing(c)
  {}

  ghost predicate SomeSelfStop(threadOf: seq<nat>, x: State, y: State) {
    exists t :: StopCurrent(threadOf, x, y, t)
  }

  /** So where no CPU stops itself in a device model, no thread is in guest code once all are paused. */
  lemma PausedLeavesGuestCode(threadOf: seq<nat>, run: seq<State>, t: nat)
    requires Run(threadOf, run) && Start(threadOf, run[0]) && run[|run| - 1].paused
    requires forall k :: 0 <= k < |run| - 1 ==> !SomeSelfStop(threadOf, run[k], run[k + 1])
    requires t < |run[|run| - 1].phases|
    ensures !run[|run| - 1].phases[t].Executing?
  {
    hide Step, StopCurrent;
    var x := run[|run| - 1];
    if x.phases[t].Executing? {
      PausedInGuestCode(threadOf, run, t, x.phases[t].cpu);
    }
  }

  /** It does happen: the only CPU stops itself in a device model, and pause_all_vcpus returns at once. */
  lemma PausedInGuestCodeExample()
    ensures var r := SelfStop(); Run([0], r) && Start([0], r[0]) && r[3].paused && r[3].phases[0] == Executing(0)
  {
    var r := SelfStop();
    assert Enter([0], r[0], r[1], 0, 0) && ThreadStep([0], r[0], r[1], 0);
    assert StopCurrent([0], r[1], r[2], 0) && ThreadStep([0], r[1], r[2], 0);
    assert Unkicked([0], r[2].cpus, 0);
    assert r[3].cpus == Map(SetStop, r[2].cpus) && r[3].phases == WakeAll([0], r[2].phases);
    assert r[3].signals == KickAll([0], r[2].cpus, r[2].signals);
    assert AllStopped(r[3].cpus) && Pause([0], r[2], r[3]);
  }

  function SelfStop(): seq<State> {
    var idle := Cpu(false, false, false, true, false, false);
    var x := State([idle], [Top], [false], Free, false, false, true);
    [x, x.(phases := [Executing(0)]), x.(phases := [Executing(0)], cpus := [idle.(stopped := true)]),
     x.(phases := [Executing(0)], cpus := [idle.(stop := true, stopped := true, kicked := true)], signals := [true],
        paused := true)]
  }

  // ---- The loops of cpus.c over the CPUs ---------------------------------------------------------------------

  class VcpuFlags {
    const threadOf: seq<nat>
    var cpus: seq<Cpu>
    var phases: seq<Phase>
    var signals: seq<bool>

    ghost predicate Wellformed()
      reads this
    {
      |cpus| == |threadOf| && |signals| == |phases| && forall c :: 0 <= c < |threadOf| ==> threadOf[c] < |phases|
    }

    /** qemu_cpu_kick: broadcast the halt condition, and interrupt the thread if that is not under way. */
    method CpuKick(c: nat)
      requires Wellformed() && c < |cpus|
      modifies this
      ensures Wellformed() && cpus == old(cpus)[c := Kick(old(cpus)[c])]
      ensures phases == WakeAll([threadOf[c]], old(phases))
      ensures signals == if old(cpus)[c].kicked then old(signals) else old(signals)[threadOf[c] := true]
    {
      if phases[threadOf[c]] == Parked {
        phases := phases[threadOf[c] := Woken];
      }
      if !cpus[c].kicked {
        signals := signals[threadOf[c] := true];
        cpus := cpus[c := cpus[c].(kicked := true)];
      }
    }

    /** all_vcpus_paused */
    method AllVcpusPaused() returns (r: bool)
      ensures r <==> AllStopped(cpus)
    {
      var c := 0;
      while c < |cpus|
        invariant c <= |cpus| && forall k :: 0 <= k < c ==> cpus[k].stopped
      {
        if !cpus[c].stopped {
          return false;
        }
        c := c + 1;
      }
      return true;
    }

    /** The first loop of pause_all_vcpus. */
    method StopAll()
      requires Wellformed()
      modifies this
      ensures Wellformed() && cpus == Map(SetStop, old(cpus)) && phases == WakeAll(threadOf, old(phases))
      ensures signals == KickAll(threadOf, old(cpus), old(signals))
    {
      var c := 0;
      while c < |cpus|
        invariant c <= |cpus| == |old(cpus)| && Wellformed() && |phases| == |old(phases)|
        invariant forall k :: 0 <= k < c ==> cpus[k] == SetStop(old(cpus)[k])
        invariant forall k :: c <= k < |cpus| ==> cpus[k] == old(cpus)[k]
        invariant phases == WakeAll(threadOf[..c], old(phases))
        invariant signals == KickAll(threadOf[..c], old(cpus)[..c], old(signals))
      {
        cpus := cpus[c := cpus[c].(stop := true)];
        CpuKick(c);
        WakeOneMore(threadOf, old(phases), c);
        SignalOneMore(threadOf, old(cpus), old(signals), c);
        c := c + 1;
      }
      assert threadOf[..c] == threadOf && old(cpus)[..c] == old(cpus);
    }

    /** resume_all_vcpus */
    method ResumeAll()
      requires Wellformed()
      modifies this
      ensures Wellformed() && cpus == Map(ClearStop, old(cpus)) && phases == WakeAll(threadOf, old(phases))
      ensures signals == KickAll(threadOf, old(cpus), old(signals))
    {
      var c := 0;
      while c < |cpus|
        invariant c <= |cpus| == |old(cpus)| && Wellformed() && |phases| == |old(phases)|
        invariant forall k :: 0 <= k < c ==> cpus[k] == ClearStop(old(cpus)[k])
        invariant forall k :: c <= k < |cpus| ==> cpus[k] == old(cpus)[k]
        invariant phases == WakeAll(threadOf[..c], old(phases))
        invariant signals == KickAll(threadOf[..c], old(cpus)[..c], old(signals))
      {
        cpus := cpus[c := cpus[c].(stop := false, stopped := false)];
        CpuKick(c);
        WakeOneMore(threadOf, old(phases), c);
        SignalOneMore(threadOf, old(cpus), old(signals), c);
        c := c + 1;
      }
      assert threadOf[..c] == threadOf && old(cpus)[..c] == old(cpus);
    }

    /** The last loop of qemu_tcg_wait_io_event, and under KVM the call for the one CPU. */
    method HandleEvents(t: nat) returns (signal: bool)
      requires Wellformed()
      modifies this`cpus
      ensures Wellformed() && cpus == Handled(threadOf, old(cpus), t)
      ensures signal <==> exists c :: 0 <= c < |threadOf| && threadOf[c] == t && old(cpus)[c].stop
    {
      signal := false;
      var c := 0;
      while c < |cpus|
        invariant c <= |cpus| && Wellformed()
        invariant forall k :: 0 <= k < c ==> cpus[k] == if threadOf[k] == t then Common(old(cpus)[k]) else old(cpus)[k]
        invariant forall k :: c <= k < |cpus| ==> cpus[k] == old(cpus)[k]
        invariant signal <==> exists k :: 0 <= k < c && threadOf[k] == t && old(cpus)[k].stop
      {
        if threadOf[c] == t {
          if cpus[c].stop {
            cpus := cpus[c := cpus[c].(stop := false, stopped := true)];
            signal := true;
          }
          cpus := cpus[c := cpus[c].(queued := false, kicked := false)];
        }
        c := c + 1;
      }
    }
  }

  lemma WakeOneMore(threadOf: seq<nat>, phases: seq<Phase>, c: nat)
    requires c < |threadOf|
    ensures WakeAll([threadOf[c]], WakeAll(threadOf[..c], phases)) == WakeAll(threadOf[..c + 1], phases)
  {
    assert threadOf[..c + 1] == threadOf[..c] + [threadOf[c]];
  }

  lemma SignalOneMore(threadOf: seq<nat>, cpus: seq<Cpu>, signals: seq<bool>, c: nat)
    requires c < |threadOf| == |cpus| && threadOf[c] < |signals|
    ensures var before := KickAll(threadOf[..c], cpus[..c], signals);
            KickAll(threadOf[..c + 1], cpus[..c + 1], signals) ==
            if cpus[c].kicked then before else before[threadOf[c] := true]
  {
    var a, b := threadOf[..c], threadOf[..c + 1];
    forall t: nat
      ensures Unkicked(b, cpus[..c + 1], t) <==> Unkicked(a, cpus[..c], t) || (threadOf[c] == t && !cpus[c].kicked)
    {
      if k :| 0 <= k < c && threadOf[k] == t && !cpus[k].kicked {
        assert a[k] == t && b[k] == t && !cpus[..c][k].kicked && !cpus[..c + 1][k].kicked;
      }
      assert b[c] == threadOf[c] && cpus[..c + 1][c] == cpus[c];
    }
  }
}
