/** The control transfers of Fiber (server/fiber.cpp) on the threads of a scheduler.

    A context stands for what a ucontext_t would resume, and a body is a number of segments
    separated by yields.  `current` is the thread-local t_fiber, `scheduler` the thread-local
    t_scheduler_fiber; both are read where the code reads them, so that a switch made with a
    wrong thread-local would show. */
module FiberMachine {
  import opened Wrappers

  datatype Ref = Main(thread: nat) | Task(fiber: nat)

  datatype Context =
    | Loop(thread: nat)                 // in Scheduler::run, just behind swapIn
    | Entry(fiber: nat)                 // at the start of MainFunc
    | Body(fiber: nat, next: nat)       // in the callback, about to execute segment `next`
    | Leaving(fiber: nat, next: nat)    // segment next - 1 is done; about to call swapOut
    | Ended(fiber: nat)                 // behind the last swapOut of MainFunc

  datatype FiberState = INIT | HOLD | EXEC | TERM | EXCEPT

  /** A body that yields `pauses` times has pauses + 1 segments; if it throws, the last one does. */
  datatype Shape = Shape(pauses: nat, throws: bool)

  datatype TaskState = TaskState(
    shape: Shape, state: FiberState, hasCallback: bool, context: Context, log: seq<nat>)

  datatype ThreadState = ThreadState(cpu: Context, current: Ref, scheduler: Ref, mainContext: Context)

  datatype Machine = Machine(threads: seq<ThreadState>, tasks: seq<TaskState>)

  predicate ValidRef(m: Machine, r: Ref) {
    match r
    case Main(t) => t < |m.threads|
    case Task(f) => f < |m.tasks|
  }

  function ContextOf(m: Machine, r: Ref): Context
    requires ValidRef(m, r)
  {
    match r
    case Main(t) => m.threads[t].mainContext
    case Task(f) => m.tasks[f].context
  }

  function Save(m: Machine, r: Ref, c: Context): Machine
    requires ValidRef(m, r)
  {
    match r
    case Main(t) => m.(threads := m.threads[t := m.threads[t].(mainContext := c)])
    case Task(f) => m.(tasks := m.tasks[f := m.tasks[f].(context := c)])
  }

  /** swapcontext on thread t: saves `here` as the context of `from` and resumes `to`. */
  function SwapContext(m: Machine, t: nat, from: Ref, to: Ref, here: Context): Machine
    requires t < |m.threads| && ValidRef(m, from) && ValidRef(m, to)
  {
    var saved := Save(m, from, here);
    SetCpu(saved, t, ContextOf(saved, to))
  }

  function SetCpu(m: Machine, t: nat, c: Context): Machine
    requires t < |m.threads|
  {
    m.(threads := m.threads[t := m.threads[t].(cpu := c)])
  }

  function SetCurrent(m: Machine, t: nat, r: Ref): Machine
    requires t < |m.threads|
  {
    m.(threads := m.threads[t := m.threads[t].(current := r)])
  }

  /** Fiber::swapIn of fiber f, called from the loop of thread t. */
  function SwapIn(m: Machine, t: nat, f: nat): Machine
    requires t < |m.threads| && f < |m.tasks| && ValidRef(m, m.threads[t].scheduler)
  {
    SwapContext(SetCurrent(m, t, Task(f)), t, m.threads[t].scheduler, Task(f), Loop(t))
  }

  /** Fiber::swapOut, reached from Yield through GetThis or at the end of MainFunc. */
  function SwapOut(m: Machine, t: nat): Machine
    requires CanSwapOut(m, t)
  {
    var th := m.threads[t];
    var f := th.cpu.fiber;
    if th.cpu.next <= m.tasks[f].shape.pauses then
      SwapContext(SetCurrent(m, t, th.scheduler), t, th.current, th.scheduler, Body(f, th.cpu.next))
    else
      SwapContext(SetCurrent(m, t, th.scheduler), t, Task(f), th.scheduler, Ended(f))
  }

  predicate CanSwapOut(m: Machine, t: nat) {
    && t < |m.threads| && m.threads[t].cpu.Leaving? && m.threads[t].cpu.fiber < |m.tasks|
    && ValidRef(m, m.threads[t].current) && ValidRef(m, m.threads[t].scheduler)
  }

  /** MainFunc looks its fiber up with GetThis, then calls its callback. */
  predicate CanExecute(m: Machine, t: nat) {
    && t < |m.threads|
    && match m.threads[t].cpu
       case Entry(_) =>
         var r := m.threads[t].current;
         r.Task? && r.fiber < |m.tasks| && m.tasks[r.fiber].hasCallback
       case Body(f, _) => f < |m.tasks|
       case _ => false
  }

  /** One step of a fiber on thread t: the start of MainFunc, or one segment. */
  function Execute(m: Machine, t: nat): Machine
    requires CanExecute(m, t)
  {
    match m.threads[t].cpu
    case Entry(_) => SetCpu(m, t, Body(m.threads[t].current.fiber, 0))
    case Body(f, next) =>
      var task := m.tasks[f].(log := m.tasks[f].log + [next]);
      var task' :=
        if next < task.shape.pauses then task
        else if task.shape.throws then task.(state := EXCEPT)
        else task.(state := TERM, hasCallback := false);
      SetCpu(m.(tasks := m.tasks[f := task']), t, Leaving(f, next + 1))
    case _ => m
  }

  // ----- What every run keeps -----

  function RunningOn(m: Machine, t: nat): Option<nat>
    requires t < |m.threads|
  {
    match m.threads[t].cpu
    case Entry(f) => Some(f)
    case Body(f, _) => Some(f)
    case Leaving(f, _) => Some(f)
    case _ => None
  }

  /** The segments executed so far are 0, 1, 2, ... and the state says whether they are all. */
  ghost predicate TaskOk(task: TaskState) {
    var done := |task.log|;
    && done <= task.shape.pauses + 1
    && (forall k :: 0 <= k < done ==> task.log[k] == k)
    && (if done <= task.shape.pauses then task.state == INIT && task.hasCallback
        else task.state == (if task.shape.throws then EXCEPT else TERM) && task.hasCallback == task.shape.throws)
  }

  function Resume(task: TaskState, f: nat): Context {
    if |task.log| <= task.shape.pauses then StartOf(f, |task.log|) else Ended(f)
  }

  /** The start of the segment that comes after `done` segments. */
  function StartOf(f: nat, done: nat): Context {
    if done == 0 then Entry(f) else Body(f, done)
  }

  /** In the loop t_fiber is the scheduler fiber; on a fiber it is that fiber, the scheduler
      fiber's saved context is this thread's own loop, and the fiber's is still the point at
      which it was resumed. */
  predicate ThreadOk(m: Machine, t: nat)
    requires t < |m.threads|
  {
    var th := m.threads[t];
    && th.scheduler == Main(t)
    && match th.cpu
       case Loop(u) => u == t && th.current == Main(t)
       case Entry(f) => OnFiber(m, t, f) && m.tasks[f].log == [] && m.tasks[f].context == Entry(f)
       case Body(f, next) =>
         OnFiber(m, t, f) && next == |m.tasks[f].log| <= m.tasks[f].shape.pauses && m.tasks[f].context == StartOf(f, next)
       case Leaving(f, next) =>
         OnFiber(m, t, f) && next == |m.tasks[f].log| > 0 && m.tasks[f].context == StartOf(f, next - 1)
       case Ended(_) => false
  }

  predicate OnFiber(m: Machine, t: nat, f: nat)
    requires t < |m.threads|
  {
    f < |m.tasks| && m.threads[t].current == Task(f) && m.threads[t].mainContext == Loop(t)
  }

  ghost predicate Suspended(m: Machine, f: nat) {
    forall t :: 0 <= t < |m.threads| ==> RunningOn(m, t) != Some(f)
  }

  ghost predicate MachineInv(m: Machine) {
    && (forall f :: 0 <= f < |m.tasks| ==> TaskOk(m.tasks[f]))
    && (forall t :: 0 <= t < |m.threads| ==> ThreadOk(m, t))
    && (forall f :: 0 <= f < |m.tasks| && Suspended(m, f) ==> m.tasks[f].context == Resume(m.tasks[f], f))
    && Exclusive(m)
  }

  /** No fiber is on two threads. */
  ghost predicate Exclusive(m: Machine) {
    forall t, u :: 0 <= t < |m.threads| && 0 <= u < |m.threads| && t != u && RunningOn(m, t).Some?
                   ==> RunningOn(m, t) != RunningOn(m, u)
  }

  ghost predicate MachineInit(m: Machine) {
    && (forall t :: 0 <= t < |m.threads| ==>
          m.threads[t].cpu == Loop(t) && m.threads[t].current == Main(t) && m.threads[t].scheduler == Main(t))
    && (forall f :: 0 <= f < |m.tasks| ==>
          && m.tasks[f].state == INIT && m.tasks[f].hasCallback
          && m.tasks[f].context == Entry(f) && m.tasks[f].log == [])
  }

  lemma MachineInitEstablishesInv(m: Machine)
    requires MachineInit(m)
    ensures MachineInv(m)
  {}

  lemma StaysExclusive(m: Machine, m': Machine, t: nat)
    requires Exclusive(m) && t < |m.threads| == |m'.threads|
    requires forall u :: 0 <= u < |m.threads| && u != t ==> m'.threads[u] == m.threads[u]
    requires RunningOn(m', t) == None || RunningOn(m', t) == RunningOn(m, t)
             || Suspended(m, RunningOn(m', t).value)
    ensures Exclusive(m')
  {
    forall u, v | 0 <= u < |m.threads| && 0 <= v < |m.threads| && u != v && RunningOn(m', u).Some?
      ensures RunningOn(m', u) != RunningOn(m', v)
    {
      assert u != t ==> RunningOn(m', u) == RunningOn(m, u);
      assert v != t ==> RunningOn(m', v) == RunningOn(m, v);
    }
  }

  /** What swapIn does on a sound machine: the fiber goes on where it was suspended. */
  lemma SwapInResumes(m: Machine, t: nat, f: nat)
    requires MachineInv(m) && t < |m.threads| && m.threads[t].cpu == Loop(t)
    requires f < |m.tasks| && Suspended(m, f) && |m.tasks[f].log| <= m.tasks[f].shape.pauses
    ensures ValidRef(m, m.threads[t].scheduler)
    ensures var m' := SwapIn(m, t, f);
            && m' == m.(threads := m.threads[t := ThreadState(Resume(m.tasks[f], f), Task(f), Main(t), Loop(t))])
            && MachineInv(m')
  {
    assert ThreadOk(m, t);
    var m' := SwapIn(m, t, f);
    assert m'.threads == m.threads[t := ThreadState(Resume(m.tasks[f], f), Task(f), Main(t), Loop(t))];
    assert RunningOn(m', t) == Some(f);
    StaysExclusive(m, m', t);
    forall u | 0 <= u < |m'.threads| ensures ThreadOk(m', u) {
      assert ThreadOk(m, u);
    }
    forall g | 0 <= g < |m'.tasks| && Suspended(m', g) ensures m'.tasks[g].context == Resume(m'.tasks[g], g) {
      assert RunningOn(m', t) == Some(f);
      forall u | 0 <= u < |m.threads| ensures RunningOn(m, u) != Some(g) {
        assert RunningOn(m', u) != Some(g);
      }
      assert Suspended(m, g);
    }
  }

  /** swapIn, exactly: the machine stays sound if and only if the fiber is suspended and has
      segments left. */
  lemma SwapInIsSoundExactly(m: Machine, t: nat, f: nat)
    requires MachineInv(m) && t < |m.threads| && m.threads[t].cpu == Loop(t) && f < |m.tasks|
    ensures ValidRef(m, m.threads[t].scheduler)
    ensures MachineInv(SwapIn(m, t, f)) <==> Suspended(m, f) && |m.tasks[f].log| <= m.tasks[f].shape.pauses
  {
    assert ThreadOk(m, t);
    if !Suspended(m, f) {
      var u :| 0 <= u < |m.threads| && RunningOn(m, u) == Some(f);
      SwapInDoubles(m, t, u, f);
    } else if |m.tasks[f].log| <= m.tasks[f].shape.pauses {
      SwapInResumes(m, t, f);
    } else {
      SwapInStrands(m, t, f);
      assert !ThreadOk(SwapIn(m, t, f), t);
    }
  }

  /** The segment that a running fiber with `done` segments behind it is at. */
  function CurrentSegment(cpu: Context, done: nat): nat {
    if cpu.Leaving? && done > 0 then done - 1 else done
  }

  /** Switching into a fiber that runs on another thread puts both threads on it, at the start
      of the segment that it is executing. */
  lemma SwapInDoubles(m: Machine, t: nat, u: nat, f: nat)
    requires MachineInv(m) && t < |m.threads| && m.threads[t].cpu == Loop(t) && f < |m.tasks|
    requires u < |m.threads| && RunningOn(m, u) == Some(f)
    ensures ValidRef(m, m.threads[t].scheduler)
    ensures var m' := SwapIn(m, t, f);
            && RunningOn(m', t) == RunningOn(m', u) == Some(f) && t != u && !Exclusive(m')
            && m'.threads[t].cpu == StartOf(f, CurrentSegment(m.threads[u].cpu, |m.tasks[f].log|))
  {
    assert ThreadOk(m, t) && ThreadOk(m, u);
    var m' := SwapIn(m, t, f);
    assert RunningOn(m', t).Some? && RunningOn(m', t) == RunningOn(m', u);
  }

  /** Switching into a finished fiber resumes behind its last swapOut, where neither it nor the
      thread can move. */
  lemma SwapInStrands(m: Machine, t: nat, f: nat)
    requires MachineInv(m) && t < |m.threads| && m.threads[t].cpu == Loop(t) && f < |m.tasks|
    requires Suspended(m, f) && |m.tasks[f].log| > m.tasks[f].shape.pauses
    ensures ValidRef(m, m.threads[t].scheduler)
    ensures var m' := SwapIn(m, t, f);
            m'.threads[t].cpu == Ended(f) && !CanExecute(m', t) && !CanSwapOut(m', t)
  {
    assert ThreadOk(m, t);
    assert m.tasks[f].context == Resume(m.tasks[f], f);
  }

  /** What swapOut does on a sound machine: it returns to the loop of the thread it runs on,
      whichever thread ran the fiber before, with t_fiber the scheduler fiber. */
  lemma SwapOutReturns(m: Machine, t: nat)
    requires MachineInv(m) && t < |m.threads| && m.threads[t].cpu.Leaving?
    ensures CanSwapOut(m, t)
    ensures var m', f := SwapOut(m, t), m.threads[t].cpu.fiber;
            && m'.threads == m.threads[t := ThreadState(Loop(t), Main(t), Main(t), Loop(t))]
            && m'.tasks == m.tasks[f := m.tasks[f].(context := Resume(m.tasks[f], f))]
            && MachineInv(m')
  {
    assert ThreadOk(m, t);
    var m', f := SwapOut(m, t), m.threads[t].cpu.fiber;
    assert m'.threads == m.threads[t := ThreadState(Loop(t), Main(t), Main(t), Loop(t))];
    assert m'.tasks == m.tasks[f := m.tasks[f].(context := Resume(m.tasks[f], f))];
    SuspensionKeepsInv(m, m', t, f);
  }

  lemma SuspensionKeepsInv(m: Machine, m': Machine, t: nat, f: nat)
    requires MachineInv(m) && t < |m.threads| && RunningOn(m, t) == Some(f) && f < |m.tasks|
    requires m'.threads == m.threads[t := ThreadState(Loop(t), Main(t), Main(t), Loop(t))]
    requires m'.tasks == m.tasks[f := m.tasks[f].(context := Resume(m.tasks[f], f))]
    ensures MachineInv(m')
  {
    StaysExclusive(m, m', t);
    forall u | 0 <= u < |m'.threads| ensures ThreadOk(m', u) {
      assert ThreadOk(m, u);
      assert u != t ==> RunningOn(m, u) != Some(f);
    }
    forall g | 0 <= g < |m'.tasks| && Suspended(m', g) ensures m'.tasks[g].context == Resume(m'.tasks[g], g) {
      if g != f {
        forall u | 0 <= u < |m.threads| ensures RunningOn(m, u) != Some(g) {
          assert u != t ==> RunningOn(m', u) != Some(g);
        }
        assert Suspended(m, g);
      }
    }
  }

  /** MainFunc starts its own fiber, and a segment is executed once, in turn. */
  lemma ExecuteKeepsInv(m: Machine, t: nat)
    requires MachineInv(m) && CanExecute(m, t)
    ensures var m', f := Execute(m, t), RunningOn(m, t);
            && MachineInv(m') && f.Some? && RunningOn(m', t) == f
            && |m'.tasks| == |m.tasks| && |m'.threads| == |m.threads|
            && (forall u :: 0 <= u < |m.threads| && u != t ==> m'.threads[u] == m.threads[u])
            && (forall g :: 0 <= g < |m.tasks| && f != Some(g) ==> m'.tasks[g] == m.tasks[g])
            && f.value < |m.tasks| && m'.tasks[f.value].shape == m.tasks[f.value].shape
            && (if m.threads[t].cpu.Entry? then m'.tasks == m.tasks && m'.threads[t].cpu == Body(f.value, 0)
                else m'.threads[t].cpu.Leaving? && |m'.tasks[f.value].log| == |m.tasks[f.value].log| + 1)
  {
    assert ThreadOk(m, t);
    var m' := Execute(m, t);
    var f := RunningOn(m, t).value;
    StaysExclusive(m, m', t);
    forall u | 0 <= u < |m'.threads| ensures ThreadOk(m', u) {
      assert ThreadOk(m, u);
      assert u != t ==> RunningOn(m, u) != Some(f);
    }
    forall g | 0 <= g < |m'.tasks| ensures TaskOk(m'.tasks[g]) {
      assert TaskOk(m.tasks[g]);
    }
    forall g | 0 <= g < |m'.tasks| && Suspended(m', g) ensures m'.tasks[g].context == Resume(m'.tasks[g], g) {
      assert RunningOn(m', t) == Some(f);
      forall u | 0 <= u < |m.threads| ensures RunningOn(m, u) != Some(g) {
        assert RunningOn(m', u) != Some(g);
      }
      assert Suspended(m, g);
    }
  }

  /** A fiber on a thread is never stuck: it can execute or switch out. */
  lemma RunningFiberCanStep(m: Machine, t: nat)
    requires MachineInv(m) && t < |m.threads| && m.threads[t].cpu != Loop(t)
    ensures if m.threads[t].cpu.Leaving? then CanSwapOut(m, t) else CanExecute(m, t)
  {
    assert ThreadOk(m, t);
    var f := RunningOn(m, t).value;
    assert TaskOk(m.tasks[f]);
  }
}
