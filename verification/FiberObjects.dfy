/** Fiber and the thread-local variables as the objects they are (server/fiber.h,
    server/fiber.cpp), proved against the fiber machine.

    A thread's main fiber and the fibers that are scheduled are objects of one class, as in
    the source; `identity` says which one an object is. */
module FiberObjects {
  import opened Wrappers
  import opened FiberMachine

  class Fiber {
    const identity: Ref
    const shape: Shape
    var state: FiberState
    var hasCallback: bool
    var context: Context
    var log: seq<nat>

    ghost function View(): TaskState
      reads this
    {
      TaskState(shape, state, hasCallback, context, log)
    }

    /** The constructor of a thread's main fiber. */
    constructor ForThread(t: nat)
      ensures identity == Main(t) && state == EXEC && !hasCallback && context == Loop(t) && log == []
    {
      identity, shape := Main(t), Shape(0, false);
      state, hasCallback, context, log := EXEC, false, Loop(t), [];
    }

    /** The constructor that takes a callback. */
    constructor (f: nat, shape: Shape)
      ensures identity == Task(f) && View() == TaskState(shape, INIT, true, Entry(f), [])
    {
      identity, this.shape := Task(f), shape;
      state, hasCallback, context, log := INIT, true, Entry(f), [];
    }

    method SwapIn(th: Thread)
      modifies th, th.scheduler`context
      ensures th.current == this && th.scheduler == old(th.scheduler)
      ensures th.scheduler.context == Loop(th.id) && th.cpu == context
    {
      th.current := this;
      th.SwapContext(th.scheduler, this, Loop(th.id));
    }

    /** `here` is where the caller of swapOut will resume. */
    method SwapOut(th: Thread, here: Context)
      modifies this`context, th
      ensures th.current == th.scheduler == old(th.scheduler)
      ensures context == here && th.cpu == th.scheduler.context
    {
      th.current := th.scheduler;
      th.SwapContext(this, th.scheduler, here);
    }

    /** One segment of the callback, with what MainFunc does behind the last one. */
    method RunSegment(th: Thread, next: nat)
      requires identity.Task?
      modifies this`log, this`state, this`hasCallback, th`cpu
      ensures log == old(log) + [next]
      ensures if next < shape.pauses then state == old(state) && hasCallback == old(hasCallback)
              else if shape.throws then state == EXCEPT && hasCallback == old(hasCallback)
              else state == TERM && !hasCallback
      ensures th.cpu == Leaving(identity.fiber, next + 1)
    {
      log := log + [next];
      if next >= shape.pauses {
        if shape.throws {
          state := EXCEPT;
        } else {
          hasCallback := false;
          state := TERM;
        }
      }
      th.cpu := Leaving(identity.fiber, next + 1);
    }
  }

  /** `current` is t_fiber and `scheduler` t_scheduler_fiber. */
  class Thread {
    const id: nat
    var cpu: Context
    var current: Fiber
    var scheduler: Fiber

    /** The head of run: GetThis makes the main fiber, and the loop is entered. */
    constructor (id: nat)
      ensures this.id == id && cpu == Loop(id) && current == scheduler && fresh(scheduler)
      ensures scheduler.identity == Main(id) && scheduler.context == Loop(id)
    {
      var main := new Fiber.ForThread(id);
      this.id, cpu, current, scheduler := id, Loop(id), main, main;
    }

    method SwapContext(from: Fiber, to: Fiber, here: Context)
      modifies this`cpu, from`context
      ensures from.context == here && cpu == to.context
    {
      from.context := here;
      cpu := to.context;
    }
  }

  /** All the threads of a scheduler, with their main fibers, and all fibers. */
  class Process {
    const threads: seq<Thread>
    const mains: seq<Fiber>
    const tasks: seq<Fiber>

    ghost predicate Known(x: Fiber) {
      x in mains || x in tasks
    }

    ghost predicate Valid()
      reads threads
    {
      && |threads| == |mains|
      && (forall t :: 0 <= t < |threads| ==>
            && threads[t].id == t && mains[t].identity == Main(t)
            && Known(threads[t].current) && Known(threads[t].scheduler))
      && (forall f :: 0 <= f < |tasks| ==> tasks[f].identity == Task(f))
    }

    ghost function View(): Machine
      requires Valid()
      reads threads, mains, tasks
    {
      Machine(
        seq(|threads|, t requires 0 <= t < |threads| reads threads, mains, tasks requires |threads| == |mains| =>
              ThreadState(threads[t].cpu, threads[t].current.identity, threads[t].scheduler.identity, mains[t].context)),
        seq(|tasks|, f requires 0 <= f < |tasks| reads tasks => tasks[f].View()))
    }

    /** The threads that start makes, when they have entered run, and fresh fibers. */
    constructor (count: nat, shapes: seq<Shape>)
      ensures Valid() && MachineInit(View())
      ensures |threads| == count && |tasks| == |shapes|
      ensures forall f :: 0 <= f < |shapes| ==> tasks[f].shape == shapes[f]
    {
      var ts, ms := MakeThreads(count);
      var fs := MakeFibers(shapes);
      threads, mains, tasks := ts, ms, fs;
    }

    /** The loop in start. */
    static method MakeThreads(count: nat) returns (ts: seq<Thread>, ms: seq<Fiber>)
      ensures |ts| == |ms| == count
      ensures forall t :: 0 <= t < count ==> Started(ts[t], ms[t], t)
    {
      ts, ms := [], [];
      while |ts| < count
        invariant |ts| == |ms| <= count
        invariant forall t :: 0 <= t < |ts| ==> Started(ts[t], ms[t], t)
      {
        var th := new Thread(|ts|);
        ts, ms := ts + [th], ms + [th.scheduler];
      }
    }

    static ghost predicate Started(th: Thread, main: Fiber, t: nat)
      reads th, main
    {
      && th.id == t && th.cpu == Loop(t) && th.current == th.scheduler == main
      && main.identity == Main(t) && main.context == Loop(t)
    }

    static method MakeFibers(shapes: seq<Shape>) returns (fs: seq<Fiber>)
      ensures |fs| == |shapes|
      ensures forall f :: 0 <= f < |fs| ==> Made(fs[f], shapes[f], f)
    {
      fs := [];
      while |fs| < |shapes|
        invariant |fs| <= |shapes|
        invariant forall f :: 0 <= f < |fs| ==> Made(fs[f], shapes[f], f)
      {
        var x := new Fiber(|fs|, shapes[|fs|]);
        fs := fs + [x];
      }
    }

    static ghost predicate Made(x: Fiber, shape: Shape, f: nat)
      reads x
    {
      x.identity == Task(f) && x.View() == TaskState(shape, INIT, true, Entry(f), [])
    }

    /** An object is known by its identity. */
    lemma IdentityIsUnique(x: Fiber)
      requires Valid() && Known(x)
      ensures match x.identity
              case Main(t) => t < |mains| && mains[t] == x
              case Task(f) => f < |tasks| && tasks[f] == x
    {}

    method SwapIn(t: nat, f: nat)
      requires Valid() && t < |threads| && f < |tasks|
      modifies threads[t], threads[t].scheduler`context
      ensures Valid() && ValidRef(old(View()), old(View()).threads[t].scheduler)
      ensures View() == FiberMachine.SwapIn(old(View()), t, f)
    {
      IdentityIsUnique(threads[t].scheduler);
      tasks[f].SwapIn(threads[t]);
    }

    /** Switches from `who` to the scheduler fiber of thread t. */
    method Leave(t: nat, who: Fiber, here: Context)
      requires Valid() && t < |threads| && Known(who)
      modifies threads[t], who`context
      ensures Valid() && ValidRef(old(View()), who.identity) && ValidRef(old(View()), old(View()).threads[t].scheduler)
      ensures var m, s := old(View()), old(View()).threads[t].scheduler;
              View() == FiberMachine.SwapContext(SetCurrent(m, t, s), t, who.identity, s, here)
    {
      IdentityIsUnique(threads[t].scheduler);
      IdentityIsUnique(who);
      if who.identity.Task? {
        LeaveTask(t, who, who.identity.fiber, here);
      } else {
        LeaveMain(t, who, who.identity.thread, here);
      }
    }

    method LeaveTask(t: nat, who: Fiber, f: nat, here: Context)
      requires Valid() && t < |threads| && f < |tasks| && tasks[f] == who && ValidRef(View(), View().threads[t].scheduler)
      modifies threads[t], who`context
      ensures Valid()
      ensures var m, s := old(View()), old(View()).threads[t].scheduler;
              View() == FiberMachine.SwapContext(SetCurrent(m, t, s), t, Task(f), s, here)
    {
      ghost var m := View();
      IdentityIsUnique(threads[t].scheduler);
      who.SwapOut(threads[t], here);
      ghost var m' := View();
      assert m'.tasks == m.tasks[f := m.tasks[f].(context := here)];
      assert forall u :: 0 <= u < |threads| && u != t ==> m'.threads[u] == m.threads[u];
    }

    method LeaveMain(t: nat, who: Fiber, u: nat, here: Context)
      requires Valid() && t < |threads| && u < |threads| && mains[u] == who && ValidRef(View(), View().threads[t].scheduler)
      modifies threads[t], who`context
      ensures Valid()
      ensures var m, s := old(View()), old(View()).threads[t].scheduler;
              View() == FiberMachine.SwapContext(SetCurrent(m, t, s), t, Main(u), s, here)
    {
      ghost var m := View();
      IdentityIsUnique(threads[t].scheduler);
      who.SwapOut(threads[t], here);
      ghost var m' := View();
      assert m'.tasks == m.tasks;
      assert forall v :: 0 <= v < |threads| && v != t && v != u ==> m'.threads[v] == m.threads[v];
    }

    /** The fiber on thread t leaves: from Yield, through GetThis, while it has segments left,
        and from the end of MainFunc otherwise. */
    method SwapOut(t: nat)
      requires Valid() && CanSwapOut(View(), t)
      modifies threads, mains, tasks
      ensures Valid() && View() == FiberMachine.SwapOut(old(View()), t)
    {
      var th := threads[t];
      var f, next := th.cpu.fiber, th.cpu.next;
      hide SwapContext, SetCurrent;
      if next <= tasks[f].shape.pauses {
        Leave(t, th.current, Body(f, next));
      } else {
        Leave(t, tasks[f], Ended(f));
      }
    }

    /** The fiber on thread t starts MainFunc, or executes a segment. */
    method Execute(t: nat)
      requires Valid() && CanExecute(View(), t)
      modifies threads, tasks
      ensures Valid() && View() == FiberMachine.Execute(old(View()), t)
    {
      var th := threads[t];
      match th.cpu
      case Entry(_) =>
        IdentityIsUnique(th.current);
        th.cpu := Body(th.current.identity.fiber, 0);
      case Body(f, next) =>
        tasks[f].RunSegment(th, next);
    }

    /** The fiber f on thread t goes on to the end of its next segment. */
    method Advance(t: nat, f: nat)
      requires Valid() && MachineInv(View()) && t < |threads| && f < |tasks|
      requires RunningOn(View(), t) == Some(f) && !threads[t].cpu.Leaving?
      modifies threads, tasks
      ensures Valid() && MachineInv(View()) && RunningOn(View(), t) == Some(f) && threads[t].cpu.Leaving?
      ensures |View().tasks[f].log| == |old(View()).tasks[f].log| + 1
      ensures forall g :: 0 <= g < |tasks| && g != f ==> View().tasks[g] == old(View()).tasks[g]
    {
      hide FiberMachine.Execute, MachineInv;
      RunningFiberCanStep(View(), t);
      ExecuteKeepsInv(View(), t);
      if threads[t].cpu.Entry? {
        Execute(t);
        RunningFiberCanStep(View(), t);
        ExecuteKeepsInv(View(), t);
      }
      Execute(t);
    }

    /** A whole dispatch, from the loop of thread t until the fiber switches out: exactly the
        next segment is executed, and control and t_fiber are back where they were. */
    method Dispatch(t: nat, f: nat)
      requires Valid() && MachineInv(View()) && t < |threads| && f < |tasks|
      requires threads[t].cpu == Loop(t) && Suspended(View(), f)
      requires |View().tasks[f].log| <= View().tasks[f].shape.pauses
      modifies threads, mains, tasks
      ensures Valid() && MachineInv(View())
      ensures View().threads[t] == ThreadState(Loop(t), Main(t), Main(t), Loop(t))
      ensures View().tasks[f].log == old(View()).tasks[f].log + [|old(View()).tasks[f].log|]
      ensures forall g :: 0 <= g < |tasks| && g != f ==> View().tasks[g] == old(View()).tasks[g]
    {
      ghost var before := View();
      hide MachineInv, Suspended;
      Enter(t, f);
      Advance(t, f);
      Finish(t, f);
      LogGrows(before, View(), f);
    }

    /** swapIn on a sound machine. */
    method Enter(t: nat, f: nat)
      requires Valid() && MachineInv(View()) && t < |threads| && f < |tasks|
      requires threads[t].cpu == Loop(t) && Suspended(View(), f)
      requires |View().tasks[f].log| <= View().tasks[f].shape.pauses
      modifies threads, mains
      ensures Valid() && MachineInv(View()) && RunningOn(View(), t) == Some(f) && !threads[t].cpu.Leaving?
      ensures View().tasks == old(View()).tasks
    {
      SwapInResumes(View(), t, f);
      assert ThreadOk(View(), t);
      IdentityIsUnique(threads[t].scheduler);
      hide FiberMachine.SwapIn, MachineInv, Suspended;
      SwapIn(t, f);
    }

    /** swapOut on a sound machine. */
    method Finish(t: nat, f: nat)
      requires Valid() && MachineInv(View()) && t < |threads| && f < |tasks|
      requires RunningOn(View(), t) == Some(f) && threads[t].cpu.Leaving?
      modifies threads, mains, tasks
      ensures Valid() && MachineInv(View())
      ensures View().threads[t] == ThreadState(Loop(t), Main(t), Main(t), Loop(t))
      ensures View().tasks[f].log == old(View()).tasks[f].log
      ensures forall g :: 0 <= g < |tasks| && g != f ==> View().tasks[g] == old(View()).tasks[g]
    {
      SwapOutReturns(View(), t);
      hide FiberMachine.SwapOut, MachineInv;
      SwapOut(t);
    }
  }

  /** On sound machines a log that is one longer has the next segment at its end. */
  lemma LogGrows(m: Machine, m': Machine, f: nat)
    requires MachineInv(m) && MachineInv(m') && f < |m.tasks| == |m'.tasks|
    requires |m'.tasks[f].log| == |m.tasks[f].log| + 1
    ensures m'.tasks[f].log == m.tasks[f].log + [|m.tasks[f].log|]
  {}
}
