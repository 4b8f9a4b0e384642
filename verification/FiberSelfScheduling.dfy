/** The run that breaks a system with two workers: a fiber schedules itself before it yields, and
    the other worker switches into it while it is still running (server/scheduler.cpp:75-121). */
module FiberSelfScheduling {
  import opened Wrappers
  import P = SchedulerProtocol
  import opened FiberMachine
  import opened FiberSystem

  ghost predicate Reaches(x: System, moves: seq<Move>, y: System) {
    IsRun(x, moves) && After(x, moves) == y
  }

  lemma NoMoves(x: System)
    ensures Reaches(x, [], x)
  {}

  lemma OneMore(x: System, moves: seq<Move>, y: System, a: Move) returns (more: seq<Move>)
    requires Reaches(x, moves, y) && CanMove(y, a)
    ensures Reaches(x, more, DoMove(y, a))
  {
    more := moves + [a];
    assert [a][1..] == [];
    assert IsRun(DoMove(y, a), []);
    RunsCompose(x, moves, [a]);
  }

  /** A worker at the head of the loop takes the last fiber into its hand. */
  lemma WorkerTakes(x: System, moves: seq<Move>, y: System, w: nat) returns (more: seq<Move>, z: System)
    requires Reaches(x, moves, y)
    requires w < |y.s.workers| && y.s.workers[w] == P.Want && y.s.mutex == None && y.s.queue != []
    ensures Reaches(x, more, z) && z.m == y.m
    ensures var last := |y.s.queue| - 1;
            z.s == y.s.(workers := y.s.workers[w := P.Got(Some(y.s.queue[last]))], queue := y.s.queue[..last])
  {
    var a, s := Protocol(P.WorkerStep(w)), y.s;
    more := OneMore(x, moves, y, a);
    z := DoMove(y, a);
    assert z.s == s.(workers := s.workers[w := P.Check], mutex := Some(P.WorkerAgent(w)));
    more := OneMore(x, more, z, a);
    z := DoMove(z, a);
    assert z.s == s.(workers := s.workers[w := P.Take], mutex := Some(P.WorkerAgent(w)));
    more, z := WorkerPops(x, more, z, w);
  }

  lemma WorkerPops(x: System, moves: seq<Move>, y: System, w: nat) returns (more: seq<Move>, z: System)
    requires Reaches(x, moves, y)
    requires w < |y.s.workers| && y.s.workers[w] == P.Take && y.s.queue != []
    ensures Reaches(x, more, z) && z.m == y.m
    ensures var last := |y.s.queue| - 1;
            z.s == y.s.(workers := y.s.workers[w := P.Got(Some(y.s.queue[last]))], queue := y.s.queue[..last], mutex := None)
  {
    var a, s, last := Protocol(P.WorkerStep(w)), y.s, |y.s.queue| - 1;
    more := OneMore(x, moves, y, a);
    z := DoMove(y, a);
    assert z.s == s.(workers := s.workers[w := P.Unlock(Some(s.queue[last]))], queue := s.queue[..last]);
    more := OneMore(x, more, z, a);
    z := DoMove(z, a);
    assert z.s.workers == s.workers[w := P.Got(Some(s.queue[last]))];
  }

  /** A fiber body calls schedule up to the push. */
  lemma BodyPushes(x: System, moves: seq<Move>, y: System, w: nat, f: nat) returns (more: seq<Move>, z: System)
    requires Reaches(x, moves, y)
    requires w < |y.s.workers| && y.s.workers[w].Running? && y.s.producers == [P.Idle] && y.s.mutex == None
    requires f < |y.m.tasks| && !y.s.stopping
    ensures Reaches(x, more, z) && z.m == y.m
    ensures z.s.queue == y.s.queue + [f] && z.s.workers == y.s.workers && z.s.mutex == None
  {
    var a := Protocol(P.ProducerStep(0, None));
    more := OneMore(x, moves, y, Protocol(P.Call(0, f, Some(w))));
    z := DoMove(y, Protocol(P.Call(0, f, Some(w))));
    more := OneMore(x, more, z, a);
    z := DoMove(z, a);
    more := OneMore(x, more, z, a);
    z := DoMove(z, a);
    more := OneMore(x, more, z, a);
    z := DoMove(z, a);
  }

  /** Two workers, one fiber in the list, and room for one call of schedule. */
  function Start(shape: Shape): System {
    System(P.State([0], false, None, [P.Want, P.Want], [P.Idle], P.Before, [0], [], [], [], [0]),
           Machine([ThreadState(Loop(0), Main(0), Main(0), Loop(0)), ThreadState(Loop(1), Main(1), Main(1), Loop(1))],
                   [TaskState(shape, INIT, true, Entry(0), [])]))
  }

  /** The body is at its first segment on thread 0; the context saved for it is still the entry. */
  function Running(shape: Shape): Machine {
    Machine([ThreadState(Body(0, 0), Task(0), Main(0), Loop(0)), ThreadState(Loop(1), Main(1), Main(1), Loop(1))],
            [TaskState(shape, INIT, true, Entry(0), [])])
  }

  /** Worker 0 dispatches the fiber, and its body starts. */
  lemma FirstWorker(shape: Shape) returns (moves: seq<Move>, z: System)
    ensures Reaches(Start(shape), moves, z) && z.m == Running(shape)
    ensures z.s.workers == [P.Running(0), P.Want] && z.s.queue == [] && z.s.producers == [P.Idle]
    ensures z.s.mutex == None && !z.s.stopping
  {
    hide IsRun, After;
    var x := Start(shape);
    NoMoves(x);
    moves, z := WorkerTakes(x, [], x, 0);
    moves := OneMore(x, moves, z, Protocol(P.WorkerStep(0)));
    z := DoMove(z, Protocol(P.WorkerStep(0)));
    assert z.s.workers == [P.Running(0), P.Want];
    assert z.m.tasks == x.m.tasks && z.m.threads == [ThreadState(Entry(0), Task(0), Main(0), Loop(0)), x.m.threads[1]];
    moves := OneMore(x, moves, z, OnFiberOf(0));
    z := DoMove(z, OnFiberOf(0));
    assert z.m.threads == Running(shape).threads;
  }

  /** Worker 1 dispatches the fiber that is running. */
  lemma SecondWorker(x: System, moves: seq<Move>, y: System, shape: Shape) returns (more: seq<Move>, z: System)
    requires Reaches(x, moves, y) && y.m == Running(shape)
    requires y.s.workers == [P.Running(0), P.Want] && y.s.queue == [0] && y.s.mutex == None
    ensures Reaches(x, more, z) && |z.m.threads| == 2
    ensures z.m.threads[0].cpu == Body(0, 0) && z.m.threads[1].cpu == Entry(0)
  {
    hide IsRun, After;
    more, z := WorkerTakes(x, moves, y, 1);
    more := OneMore(x, more, z, Protocol(P.WorkerStep(1)));
    z := DoMove(z, Protocol(P.WorkerStep(1)));
  }

  /** Worker 0 dispatches the fiber, whose body starts and schedules it again; worker 1
      dispatches it.  Whatever the shape of the fiber, both threads are on it then, the second at
      the start of the segment that the first is executing. */
  lemma SelfSchedulingIsUnsound(shape: Shape) returns (moves: seq<Move>, z: System)
    ensures SystemInit(Start(shape)) && Reaches(Start(shape), moves, z) && !WellEntered(Start(shape), moves)
    ensures |z.m.threads| == 2 && z.m.threads[0].cpu == Body(0, 0) && z.m.threads[1].cpu == Entry(0) && !Exclusive(z.m)
  {
    var x := Start(shape);
    moves, z := FirstWorker(shape);
    moves, z := BodyPushes(x, moves, z, 0, 0);
    moves, z := SecondWorker(x, moves, z, shape);
    assert RunningOn(z.m, 0) == RunningOn(z.m, 1) == Some(0);
    if WellEntered(x, moves) {
      InitEstablishesSystemInv(x);
      RunKeepsSystemInv(x, moves);
    }
  }
}
