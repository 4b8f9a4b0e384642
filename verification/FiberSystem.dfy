/** The scheduler protocol and the fiber machine together: worker w of the protocol is thread w
    of the machine, and its switch into and out of a fiber are swapIn and swapOut
    (server/scheduler.cpp, server/fiber.cpp).

    The machine stays sound for exactly those runs in which every switch is into a fiber that
    is suspended and has segments left. */
module FiberSystem {
  import opened Wrappers
  import opened SchedulerProtocol
  import Safety = SchedulerSafety
  import opened FiberMachine

  datatype System = System(s: State, m: Machine)

  datatype Move =
    | Protocol(t: Step)
    | OnFiberOf(w: nat)   // the fiber on worker w executes

  predicate Entering(s: State, t: Step) {
    t.WorkerStep? && t.w < |s.workers| && s.workers[t.w].Got? && s.workers[t.w].got.Some?
  }

  predicate Returning(s: State, t: Step) {
    t.WorkerStep? && t.w < |s.workers| && s.workers[t.w].Running?
  }

  /** A caller of schedule has a fiber that exists; a fiber body inside schedule waits for it. */
  predicate CanMove(y: System, a: Move) {
    match a
    case Protocol(t) =>
      && Enabled(y.s, t)
      && (t.Call? ==> t.fiber < |y.m.tasks|)
      && (Entering(y.s, t) ==> CanSwapIn(y.m, t.w, y.s.workers[t.w].got.value))
      && (Returning(y.s, t) ==> CanSwapOut(y.m, t.w))
    case OnFiberOf(w) => CanExecute(y.m, w) && !Calling(y.s.producers, w)
  }

  predicate CanSwapIn(m: Machine, t: nat, f: nat) {
    t < |m.threads| && f < |m.tasks| && ValidRef(m, m.threads[t].scheduler)
  }

  function DoMove(y: System, a: Move): System
    requires CanMove(y, a)
  {
    match a
    case Protocol(t) =>
      System(Apply(y.s, t),
             if Entering(y.s, t) then SwapIn(y.m, t.w, y.s.workers[t.w].got.value)
             else if Returning(y.s, t) then SwapOut(y.m, t.w)
             else y.m)
    case OnFiberOf(w) => System(y.s, Execute(y.m, w))
  }

  ghost predicate IsRun(y: System, moves: seq<Move>)
    decreases |moves|
  {
    moves == [] || (CanMove(y, moves[0]) && IsRun(DoMove(y, moves[0]), moves[1..]))
  }

  ghost function After(y: System, moves: seq<Move>): System
    requires IsRun(y, moves)
    decreases |moves|
  {
    if moves == [] then y else After(DoMove(y, moves[0]), moves[1..])
  }

  /** After start. */
  ghost predicate SystemInit(y: System) {
    && Init(y.s) && MachineInit(y.m) && |y.m.threads| == |y.s.workers|
    && (forall f :: f in y.s.queue ==> f < |y.m.tasks|)
  }

  // ----- Which runs are sound -----

  /** A switch into a fiber finds it suspended and with segments left. */
  ghost predicate EntersWell(y: System, a: Move)
    requires CanMove(y, a)
  {
    a.Protocol? && Entering(y.s, a.t) ==>
      var f := y.s.workers[a.t.w].got.value;
      Suspended(y.m, f) && |y.m.tasks[f].log| <= y.m.tasks[f].shape.pauses
  }

  ghost predicate WellEntered(y: System, moves: seq<Move>)
    requires IsRun(y, moves)
    decreases |moves|
  {
    moves == [] || (EntersWell(y, moves[0]) && WellEntered(DoMove(y, moves[0]), moves[1..]))
  }

  /** The machine is sound all along the run. */
  ghost predicate StaysSound(y: System, moves: seq<Move>)
    requires IsRun(y, moves)
    decreases |moves|
  {
    MachineInv(y.m) && (moves == [] || StaysSound(DoMove(y, moves[0]), moves[1..]))
  }

  // ----- The invariant -----

  predicate LinkedAt(y: System, w: nat)
    requires w < |y.m.threads| && w < |y.s.workers|
  {
    if y.s.workers[w].Running? then RunningOn(y.m, w) == Some(y.s.workers[w].fiber)
    else y.m.threads[w].cpu == Loop(w)
  }

  /** Each completed dispatch of f has executed one segment of it. */
  ghost predicate Counted(y: System, f: Fiber)
    requires f < |y.m.tasks|
  {
    && (Suspended(y.m, f) ==> |y.m.tasks[f].log| == Safety.Count(y.s.returned, f))
    && (forall w :: 0 <= w < |y.m.threads| && RunningOn(y.m, w) == Some(f) ==>
          |y.m.tasks[f].log| == Safety.Count(y.s.returned, f) + (if y.m.threads[w].cpu.Leaving? then 1 else 0))
  }

  predicate WorkerKnows(w: Worker, tasks: nat) {
    && ((w.Unlock? || w.Got?) && w.got.Some? ==> w.got.value < tasks)
    && (w.Running? ==> w.fiber < tasks)
  }

  predicate ProducerKnows(p: Producer, tasks: nat) {
    p.Lock? || p.Push? ==> p.fiber < tasks
  }

  /** The fibers that the protocol handles exist. */
  ghost predicate Existing(s: State, tasks: nat) {
    && (forall f :: f in s.queue ==> f < tasks)
    && (forall i :: 0 <= i < |s.workers| ==> WorkerKnows(s.workers[i], tasks))
    && (forall i :: 0 <= i < |s.producers| ==> ProducerKnows(s.producers[i], tasks))
  }

  ghost predicate SystemInv(y: System) {
    && Safety.Inv(y.s) && MachineInv(y.m) && |y.m.threads| == |y.s.workers| && Existing(y.s, |y.m.tasks|)
    && (forall w :: 0 <= w < |y.m.threads| ==> LinkedAt(y, w))
    && (forall f :: 0 <= f < |y.m.tasks| ==> Counted(y, f))
  }

  lemma InitEstablishesSystemInv(y: System)
    requires SystemInit(y)
    ensures SystemInv(y)
  {
    Safety.InitEstablishesInv(y.s);
    MachineInitEstablishesInv(y.m);
  }

  lemma QueueStaysExisting(s: State, t: Step, tasks: nat)
    requires Existing(s, tasks) && Enabled(s, t)
    ensures forall f :: f in Apply(s, t).queue ==> f < tasks
  {
    var s' := Apply(s, t);
    forall f | f in s'.queue ensures f < tasks {
      if f !in s.queue {
        assert ProducerKnows(s.producers[t.p], tasks);
      }
    }
  }

  lemma WorkersStayExisting(s: State, t: Step, tasks: nat, i: nat)
    requires Existing(s, tasks) && Enabled(s, t) && i < |s.workers|
    ensures |Apply(s, t).workers| == |s.workers| && WorkerKnows(Apply(s, t).workers[i], tasks)
  {
    assert WorkerKnows(s.workers[i], tasks);
    assert s.queue != [] ==> s.queue[|s.queue| - 1] in s.queue;
  }

  lemma ProducersStayExisting(s: State, t: Step, tasks: nat, i: nat)
    requires Existing(s, tasks) && Enabled(s, t) && (t.Call? ==> t.fiber < tasks) && i < |s.producers|
    ensures |Apply(s, t).producers| == |s.producers| && ProducerKnows(Apply(s, t).producers[i], tasks)
  {
    assert ProducerKnows(s.producers[i], tasks);
  }

  lemma StepKeepsExisting(s: State, t: Step, tasks: nat)
    requires Existing(s, tasks) && Enabled(s, t) && (t.Call? ==> t.fiber < tasks)
    ensures Existing(Apply(s, t), tasks)
  {
    var s' := Apply(s, t);
    QueueStaysExisting(s, t, tasks);
    Safety.StepKeepsSizes(s, t);
    forall i | 0 <= i < |s'.workers| ensures WorkerKnows(s'.workers[i], tasks) {
      WorkersStayExisting(s, t, tasks, i);
    }
    forall i | 0 <= i < |s'.producers| ensures ProducerKnows(s'.producers[i], tasks) {
      ProducersStayExisting(s, t, tasks, i);
    }
  }

  /** A fiber that no worker is running is suspended. */
  lemma {:induction false} NotOnAThread(y: System, f: Fiber)
    requires |y.m.threads| == |y.s.workers| && forall w :: 0 <= w < |y.m.threads| ==> LinkedAt(y, w)
    requires Safety.Holders(y.s.workers, f, Safety.Thread) == 0
    ensures Suspended(y.m, f)
  {
    forall t | 0 <= t < |y.m.threads| ensures RunningOn(y.m, t) != Some(f) {
      assert LinkedAt(y, t);
      Safety.HolderIsCounted(y.s.workers, f, Safety.Thread, t);
    }
  }

  // ----- Each kind of move keeps the invariant -----

  lemma ExecuteKeepsSystemInv(y: System, w: nat)
    requires SystemInv(y) && CanMove(y, OnFiberOf(w))
    ensures SystemInv(DoMove(y, OnFiberOf(w)))
  {
    var y' := DoMove(y, OnFiberOf(w));
    ExecuteKeepsInv(y.m, w);
    hide Execute, MachineInv, Safety.Inv, Existing;
    forall u | 0 <= u < |y'.m.threads| ensures LinkedAt(y', u) {
      assert LinkedAt(y, u);
    }
    forall g | 0 <= g < |y'.m.tasks| ensures Counted(y', g) {
      ExecuteKeepsCount(y, w, g);
    }
  }

  lemma ExecuteKeepsCount(y: System, w: nat, g: Fiber)
    requires SystemInv(y) && CanMove(y, OnFiberOf(w)) && g < |y.m.tasks|
    ensures g < |DoMove(y, OnFiberOf(w)).m.tasks| && Counted(DoMove(y, OnFiberOf(w)), g)
  {
    var m' := Execute(y.m, w);
    ExecuteKeepsInv(y.m, w);
    assert Counted(y, g);
    hide Execute, MachineInv, Safety.Inv, Existing;
    if RunningOn(y.m, w) == Some(g) {
      assert RunningOn(m', w) == Some(g);
    } else {
      forall u | 0 <= u < |m'.threads| ensures RunningOn(m', u) == Some(g) <==> RunningOn(y.m, u) == Some(g) {}
    }
  }

  lemma EnterKeepsSystemInv(y: System, w: nat)
    requires SystemInv(y) && CanMove(y, Protocol(WorkerStep(w))) && Entering(y.s, WorkerStep(w))
    requires EntersWell(y, Protocol(WorkerStep(w)))
    ensures SystemInv(DoMove(y, Protocol(WorkerStep(w))))
  {
    var y' := DoMove(y, Protocol(WorkerStep(w)));
    var f := y.s.workers[w].got.value;
    Safety.StepKeepsInv(y.s, WorkerStep(w));
    StepKeepsExisting(y.s, WorkerStep(w), |y.m.tasks|);
    assert LinkedAt(y, w);
    SwapInResumes(y.m, w, f);
    hide SwapIn, MachineInv, Safety.Inv, Existing;
    assert y'.s.workers == y.s.workers[w := Running(f)] && y'.s.returned == y.s.returned;
    forall u | 0 <= u < |y'.m.threads| ensures LinkedAt(y', u) {
      assert LinkedAt(y, u);
    }
    forall g | 0 <= g < |y'.m.tasks| ensures Counted(y', g) {
      assert Counted(y, g);
      SuspensionElsewhere(y.m, y'.m, w, g);
    }
  }

  /** Changing thread w alone does not change what the other threads run. */
  lemma SuspensionElsewhere(m: Machine, m': Machine, w: nat, g: nat)
    requires w < |m.threads| == |m'.threads|
    requires forall u :: 0 <= u < |m.threads| && u != w ==> m'.threads[u] == m.threads[u]
    ensures RunningOn(m, w) != Some(g) && Suspended(m', g) ==> Suspended(m, g)
    ensures RunningOn(m', w) != Some(g) && Suspended(m, g) ==> Suspended(m', g)
  {
    if RunningOn(m, w) != Some(g) && Suspended(m', g) {
      forall u | 0 <= u < |m.threads| ensures RunningOn(m, u) != Some(g) {
        assert RunningOn(m', u) != Some(g);
      }
    }
    if RunningOn(m', w) != Some(g) && Suspended(m, g) {
      forall u | 0 <= u < |m.threads| ensures RunningOn(m', u) != Some(g) {
        assert RunningOn(m, u) != Some(g);
      }
    }
  }

  lemma ReturnKeepsSystemInv(y: System, w: nat)
    requires SystemInv(y) && CanMove(y, Protocol(WorkerStep(w))) && Returning(y.s, WorkerStep(w))
    ensures SystemInv(DoMove(y, Protocol(WorkerStep(w))))
  {
    var y' := DoMove(y, Protocol(WorkerStep(w)));
    var f := y.s.workers[w].fiber;
    Safety.StepKeepsInv(y.s, WorkerStep(w));
    StepKeepsExisting(y.s, WorkerStep(w), |y.m.tasks|);
    assert LinkedAt(y, w);
    SwapOutReturns(y.m, w);
    hide SwapOut, MachineInv, Safety.Inv, Existing;
    assert y'.s.workers == y.s.workers[w := Want] && y'.s.returned == y.s.returned + [f];
    forall u | 0 <= u < |y'.m.threads| ensures LinkedAt(y', u) {
      assert LinkedAt(y, u);
    }
    forall g | 0 <= g < |y'.m.tasks| ensures Counted(y', g) {
      assert Counted(y, g);
      SuspensionElsewhere(y.m, y'.m, w, g);
      Safety.CountOfPush(y.s.returned, f, g);
    }
  }

  lemma OtherStepKeepsSystemInv(y: System, t: Step)
    requires SystemInv(y) && CanMove(y, Protocol(t)) && !Entering(y.s, t) && !Returning(y.s, t)
    ensures SystemInv(DoMove(y, Protocol(t)))
  {
    var y' := DoMove(y, Protocol(t));
    Safety.StepKeepsInv(y.s, t);
    StepKeepsExisting(y.s, t, |y.m.tasks|);
    OtherStepReturnsNothing(y.s, t);
    hide Apply, MachineInv, Safety.Inv, Existing;
    forall u | 0 <= u < |y'.m.threads| ensures LinkedAt(y', u) {
      assert LinkedAt(y, u);
      OtherStepKeepsRunning(y.s, t, u);
    }
    forall g | 0 <= g < |y'.m.tasks| ensures Counted(y', g) {
      assert Counted(y, g);
    }
  }

  lemma OtherStepReturnsNothing(s: State, t: Step)
    requires Enabled(s, t) && !Returning(s, t)
    ensures Apply(s, t).returned == s.returned && |Apply(s, t).workers| == |s.workers|
  {}

  /** Only the two switches change which fiber a worker is on. */
  lemma OtherStepKeepsRunning(s: State, t: Step, u: nat)
    requires Enabled(s, t) && !Entering(s, t) && !Returning(s, t) && u < |s.workers| == |Apply(s, t).workers|
    ensures Apply(s, t).workers[u].Running? == s.workers[u].Running?
    ensures s.workers[u].Running? ==> Apply(s, t).workers[u] == s.workers[u]
  {
    match t
    case WorkerStep(w) =>
      RunStepKeepsRunning(s, w, u);
    case _ =>
  }

  lemma RunStepKeepsRunning(s: State, w: nat, u: nat)
    requires Enabled(s, WorkerStep(w)) && !Entering(s, WorkerStep(w)) && !Returning(s, WorkerStep(w))
    requires u < |s.workers|
    ensures |RunStep(s, w).workers| == |s.workers|
    ensures RunStep(s, w).workers[u].Running? == s.workers[u].Running?
    ensures s.workers[u].Running? ==> RunStep(s, w).workers[u] == s.workers[u]
  {}

  /** A move keeps the machine sound exactly if it enters well, and then all else is kept. */
  lemma MoveIsSoundExactly(y: System, a: Move)
    requires SystemInv(y) && CanMove(y, a)
    ensures MachineInv(DoMove(y, a).m) <==> EntersWell(y, a)
    ensures EntersWell(y, a) ==> SystemInv(DoMove(y, a))
  {
    match a
    case OnFiberOf(w) => ExecuteKeepsSystemInv(y, w);
    case Protocol(t) =>
      if Entering(y.s, t) {
        assert LinkedAt(y, t.w);
        SwapInIsSoundExactly(y.m, t.w, y.s.workers[t.w].got.value);
        if EntersWell(y, a) {
          EnterKeepsSystemInv(y, t.w);
        }
      } else if Returning(y.s, t) {
        ReturnKeepsSystemInv(y, t.w);
      } else {
        OtherStepKeepsSystemInv(y, t);
      }
  }

  lemma {:induction false} RunKeepsSystemInv(y: System, moves: seq<Move>)
    requires SystemInv(y) && IsRun(y, moves) && WellEntered(y, moves)
    ensures SystemInv(After(y, moves))
    decreases |moves|
  {
    hide SystemInv;
    if moves != [] {
      MoveIsSoundExactly(y, moves[0]);
      RunKeepsSystemInv(DoMove(y, moves[0]), moves[1..]);
    }
  }

  /** Which runs are sound, exactly: those in which every switch is into a fiber that is
      suspended and has segments left. */
  lemma {:induction false} RunIsSoundExactly(y: System, moves: seq<Move>)
    requires SystemInv(y) && IsRun(y, moves)
    ensures StaysSound(y, moves) <==> WellEntered(y, moves)
    decreases |moves|
  {
    if moves != [] {
      MoveIsSoundExactly(y, moves[0]);
      if EntersWell(y, moves[0]) {
        RunIsSoundExactly(DoMove(y, moves[0]), moves[1..]);
      }
    }
  }

  /** The protocol part of a run is a run of the protocol. */
  function Steps(moves: seq<Move>): seq<Step> {
    if moves == [] then []
    else (if moves[0].Protocol? then [moves[0].t] else []) + Steps(moves[1..])
  }

  lemma {:induction false} RunProjects(y: System, moves: seq<Move>)
    requires IsRun(y, moves)
    ensures SchedulerProtocol.IsRun(y.s, Steps(moves))
    ensures SchedulerProtocol.After(y.s, Steps(moves)) == After(y, moves).s
    decreases |moves|
  {
    if moves != [] {
      RunProjects(DoMove(y, moves[0]), moves[1..]);
      if moves[0].Protocol? {
        assert Steps(moves) == [moves[0].t] + Steps(moves[1..]);
        assert Steps(moves)[1..] == Steps(moves[1..]);
      } else {
        assert Steps(moves) == Steps(moves[1..]);
      }
    }
  }

  lemma {:induction false} RunsCompose(y: System, a: seq<Move>, b: seq<Move>)
    requires IsRun(y, a) && IsRun(After(y, a), b)
    ensures IsRun(y, a + b) && After(y, a + b) == After(After(y, a), b)
    ensures WellEntered(y, a + b) <==> WellEntered(y, a) && WellEntered(After(y, a), b)
    decreases |a|
  {
    if a == [] {
      assert a + b == b;
    } else {
      assert (a + b)[1..] == a[1..] + b;
      RunsCompose(DoMove(y, a[0]), a[1..], b);
    }
  }

  // ----- The theorems, for every sound run from start -----

  /** At the loop head t_fiber is the thread's own scheduler fiber; on a fiber it is that
      fiber, and no fiber is on two threads. */
  lemma ThreadLocalsAreRight(y: System, moves: seq<Move>, w: nat)
    requires SystemInit(y) && IsRun(y, moves) && WellEntered(y, moves) && w < |After(y, moves).s.workers|
    ensures var y' := After(y, moves);
            && w < |y'.m.threads| && y'.m.threads[w].scheduler == Main(w)
            && (match y'.s.workers[w]
                case Running(f) => RunningOn(y'.m, w) == Some(f) && y'.m.threads[w].current == Task(f)
                case _ => y'.m.threads[w].cpu == Loop(w) && y'.m.threads[w].current == Main(w))
            && Exclusive(y'.m)
  {
    InitEstablishesSystemInv(y);
    RunKeepsSystemInv(y, moves);
    var y' := After(y, moves);
    assert LinkedAt(y', w) && ThreadOk(y'.m, w);
  }

  /** The guards of the switches never block a worker: they hold whenever it gets there, and
      a fiber on a thread can always execute or switch out. */
  lemma SwitchesAreReady(y: System, moves: seq<Move>, w: nat)
    requires SystemInit(y) && IsRun(y, moves) && WellEntered(y, moves) && w < |After(y, moves).s.workers|
    ensures var y', t := After(y, moves), WorkerStep(w);
            && (Entering(y'.s, t) ==> CanSwapIn(y'.m, w, y'.s.workers[w].got.value))
            && (Returning(y'.s, t) ==> CanSwapOut(y'.m, w) || CanExecute(y'.m, w))
  {
    InitEstablishesSystemInv(y);
    RunKeepsSystemInv(y, moves);
    var y' := After(y, moves);
    assert LinkedAt(y', w) && ThreadOk(y'.m, w);
    if Entering(y'.s, WorkerStep(w)) {
      assert WorkerKnows(y'.s.workers[w], |y'.m.tasks|);
    }
    if Returning(y'.s, WorkerStep(w)) {
      RunningFiberCanStep(y'.m, w);
    }
  }

  /** A suspended fiber that has come back n times has executed its first n segments, each
      once and in order, on whatever threads, and it has ended exactly when n is one more than
      the number of its yields: with EXCEPT if it throws, and otherwise with TERM and without its
      callback. */
  lemma FibersRunFaithfully(y: System, moves: seq<Move>, f: Fiber)
    requires SystemInit(y) && IsRun(y, moves) && WellEntered(y, moves) && f < |After(y, moves).m.tasks|
    requires Suspended(After(y, moves).m, f)
    ensures var y' := After(y, moves);
            var task, n := y'.m.tasks[f], Safety.Count(y'.s.returned, f);
            && |task.log| == n <= task.shape.pauses + 1
            && (forall k :: 0 <= k < n ==> task.log[k] == k)
            && task.state == (if n <= task.shape.pauses then INIT else if task.shape.throws then EXCEPT else TERM)
            && (task.hasCallback <==> task.state != TERM)
  {
    InitEstablishesSystemInv(y);
    RunKeepsSystemInv(y, moves);
    var y' := After(y, moves);
    assert Counted(y', f) && TaskOk(y'.m.tasks[f]);
  }

  /** When stop has returned and only fiber bodies pushed after m_stopping was set, every fiber has
      executed exactly as many segments as it was scheduled times. */
  lemma StopRunsEverything(y: System, moves: seq<Move>, f: Fiber)
    requires SystemInit(y) && y.s.workers != [] && IsRun(y, moves) && WellEntered(y, moves) && f < |After(y, moves).m.tasks|
    requires After(y, moves).s.stopper == Done && After(y, moves).s.stray == []
    ensures var y' := After(y, moves);
            && |y'.m.tasks[f].log| == Safety.Count(y'.s.scheduled, f)
            && (forall k :: 0 <= k < |y'.m.tasks[f].log| ==> y'.m.tasks[f].log[k] == k)
            && (y'.m.tasks[f].state != INIT
                <==> Safety.Count(y'.s.scheduled, f) == y'.m.tasks[f].shape.pauses + 1)
  {
    RunProjects(y, moves);
    Safety.StopDrains(y.s, Steps(moves));
    InitEstablishesSystemInv(y);
    RunKeepsSystemInv(y, moves);
    var y' := After(y, moves);
    Safety.NobodyHolds(y'.s.workers, f, Safety.Thread);
    NotOnAThread(y', f);
    FibersRunFaithfully(y, moves, f);
    assert TaskOk(y'.m.tasks[f]);
  }
}
