/** The protocol of Scheduler::schedule, run and stop (server/scheduler.cpp) as a step
    relation.

    Every agent has a program counter: the worker threads that execute run, the callers of
    schedule, and the one caller of stop.  The mutex and the condition variable's wait set
    (the workers that are `Asleep`) are explicit, and a sleeping worker may wake spuriously
    at any time (section 30.5 of ISO/IEC 14882:2011).  A producer that is a fiber body has the
    worker it runs on as its home, and that worker waits for the call to return. */
module SchedulerProtocol {
  import opened Wrappers

  type Fiber = nat

  /** The program counter of a worker thread in run; each comment says what its step does. */
  datatype Worker =
    | Want                        // takes the mutex: on entry to the block, or inside wait when woken
    | Check                       // holds the mutex; tests the predicate of wait
    | Fall                        // holds the mutex, predicate false; goes to sleep, releasing it
    | Asleep                      // in the wait set; wakes spuriously
    | Take                        // holds the mutex, wait has returned; pops the last fiber, if any
    | Unlock(got: Option<Fiber>)  // holds the mutex; releases it
    | Got(got: Option<Fiber>)     // switches into the fiber, or tests m_stopping if there is none
    | Running(fiber: Fiber)       // the fiber switches out
    | Exited

  /** The program counter of a caller of schedule; `home` is the worker whose fiber body makes
      the call, if a fiber body does. */
  datatype Producer =
    | Idle
    | Lock(fiber: Fiber, home: Option<nat>)      // takes the mutex
    | Push(fiber: Fiber, home: Option<nat>)      // holds the mutex; tests for an empty list and pushes
    | Release(tickle: bool, home: Option<nat>)   // holds the mutex; releases it
    | Notify(tickle: bool, home: Option<nat>)    // wakes one sleeper if the list was empty

  /** The program counter of the caller of stop. */
  datatype Stopper =
    | Before
    | LockFlag | SetFlag | ReleaseFlag
    | NotifyAll
    | LockThreads | SwapThreads
    | Join(next: nat)             // waits for worker `next` to exit
    | Done

  datatype Agent = WorkerAgent(w: nat) | ProducerAgent(p: nat) | StopAgent

  /** `scheduled`, `entered` and `returned` log the fibers pushed, switched into and switched
      out of; `stray` those pushed after m_stopping was set by callers without a home; `since`
      those pushed since a worker last left wait to find the list empty. */
  datatype State = State(
    queue: seq<Fiber>,
    stopping: bool,
    mutex: Option<Agent>,
    workers: seq<Worker>,
    producers: seq<Producer>,
    stopper: Stopper,
    scheduled: seq<Fiber>,
    entered: seq<Fiber>,
    returned: seq<Fiber>,
    stray: seq<Fiber>,
    since: seq<Fiber>)

  /** What start leaves behind: m_stopping is clear, the workers are about to enter run, and
      `queue` holds what was scheduled before the threads existed. */
  predicate Init(s: State) {
    && !s.stopping && s.mutex == None && s.stopper == Before
    && (forall i :: 0 <= i < |s.workers| ==> s.workers[i] == Want)
    && (forall i :: 0 <= i < |s.producers| ==> s.producers[i] == Idle)
    && s.scheduled == s.queue && s.since == s.queue
    && s.entered == [] && s.returned == [] && s.stray == []
  }

  /** `woken` is the sleeper that notify_one picks. */
  datatype Step =
    | WorkerStep(w: nat)
    | Call(p: nat, fiber: Fiber, home: Option<nat>)
    | ProducerStep(p: nat, woken: Option<nat>)
    | StopStep

  predicate Enabled(s: State, t: Step) {
    match t
    case WorkerStep(w) =>
      && w < |s.workers| && s.workers[w] != Exited && (s.workers[w] == Want ==> s.mutex == None)
      && (s.workers[w].Running? ==> !Calling(s.producers, w))
    case Call(p, _, home) =>
      && p < |s.producers| && s.producers[p] == Idle
      && (home.Some? ==> home.value < |s.workers| && s.workers[home.value].Running? && !Calling(s.producers, home.value))
    case ProducerStep(p, woken) =>
      && p < |s.producers| && s.producers[p] != Idle && (s.producers[p].Lock? ==> s.mutex == None)
      && (if s.producers[p].Notify? && s.producers[p].tickle then MayWake(s.workers, woken) else woken == None)
    case StopStep =>
      match s.stopper
      case LockFlag => s.mutex == None
      case LockThreads => s.mutex == None
      case Join(next) => next < |s.workers| ==> s.workers[next] == Exited
      case Done => false
      case _ => true
  }

  predicate CallsFrom(p: Producer, w: nat) {
    p != Idle && p.home == Some(w)
  }

  /** The fiber body on worker w is inside schedule. */
  predicate Calling(ps: seq<Producer>, w: nat) {
    exists p :: 0 <= p < |ps| && CallsFrom(ps[p], w)
  }

  /** notify_one wakes a sleeper if there is one. */
  predicate MayWake(ws: seq<Worker>, woken: Option<nat>) {
    match woken
    case Some(w) => w < |ws| && ws[w] == Asleep
    case None => forall i :: 0 <= i < |ws| ==> ws[i] != Asleep
  }

  function Apply(s: State, t: Step): State
    requires Enabled(s, t)
  {
    match t
    case WorkerStep(w) => RunStep(s, w)
    case Call(p, fiber, home) => MoveProducer(s, p, Lock(fiber, home))
    case ProducerStep(p, woken) => ScheduleStep(s, p, woken)
    case StopStep => DoStop(s)
  }

  function MoveWorker(s: State, w: nat, pc: Worker): State
    requires w < |s.workers|
  {
    s.(workers := s.workers[w := pc])
  }

  function MoveProducer(s: State, p: nat, pc: Producer): State
    requires p < |s.producers|
  {
    s.(producers := s.producers[p := pc])
  }

  /** One step of worker w in Scheduler::run. */
  function RunStep(s: State, w: nat): State
    requires w < |s.workers|
  {
    match s.workers[w]
    case Want => MoveWorker(s, w, Check).(mutex := Some(WorkerAgent(w)))
    case Check => MoveWorker(s, w, if s.queue != [] || s.stopping then Take else Fall)
    case Fall => MoveWorker(s, w, Asleep).(mutex := None)
    case Asleep => MoveWorker(s, w, Want)
    case Take =>
      if s.queue != [] then
        var last := |s.queue| - 1;
        MoveWorker(s, w, Unlock(Some(s.queue[last]))).(queue := s.queue[..last])
      else
        MoveWorker(s, w, Unlock(None)).(since := [])
    case Unlock(got) => MoveWorker(s, w, Got(got)).(mutex := None)
    case Got(got) =>
      if got.Some? then
        MoveWorker(s, w, Running(got.value)).(entered := s.entered + [got.value])
      else
        MoveWorker(s, w, if s.stopping then Exited else Want)
    case Running(fiber) => MoveWorker(s, w, Want).(returned := s.returned + [fiber])
    case Exited => s
  }

  /** One step of producer p in Scheduler::schedule. */
  function ScheduleStep(s: State, p: nat, woken: Option<nat>): State
    requires p < |s.producers|
    requires woken.Some? ==> woken.value < |s.workers|
  {
    match s.producers[p]
    case Idle => s
    case Lock(fiber, home) => MoveProducer(s, p, Push(fiber, home)).(mutex := Some(ProducerAgent(p)))
    case Push(fiber, home) =>
      MoveProducer(s, p, Release(s.queue == [], home))
      .(queue := s.queue + [fiber],
        scheduled := s.scheduled + [fiber],
        stray := if s.stopping && home == None then s.stray + [fiber] else s.stray,
        since := s.since + [fiber])
    case Release(tickle, home) => MoveProducer(s, p, Notify(tickle, home)).(mutex := None)
    case Notify(_, _) =>
      var s' := MoveProducer(s, p, Idle);
      if woken.Some? then MoveWorker(s', woken.value, Want) else s'
  }

  /** One step of Scheduler::stop, in a scheduler without a root fiber. */
  function DoStop(s: State): State {
    match s.stopper
    case Before => s.(stopper := LockFlag)
    case LockFlag => s.(stopper := SetFlag, mutex := Some(StopAgent))
    case SetFlag => s.(stopper := ReleaseFlag, stopping := true)
    case ReleaseFlag => s.(stopper := NotifyAll, mutex := None)
    case NotifyAll => s.(stopper := LockThreads, workers := WakeAll(s.workers))
    case LockThreads => s.(stopper := SwapThreads, mutex := Some(StopAgent))
    case SwapThreads => s.(stopper := Join(0), mutex := None)
    case Join(next) => s.(stopper := if next < |s.workers| then Join(next + 1) else Done)
    case Done => s
  }

  function WakeAll(ws: seq<Worker>): (r: seq<Worker>)
    ensures |r| == |ws|
    ensures forall i :: 0 <= i < |ws| ==> r[i] == if ws[i] == Asleep then Want else ws[i]
  {
    seq(|ws|, i requires 0 <= i < |ws| => if ws[i] == Asleep then Want else ws[i])
  }

  // ----- Runs -----

  ghost predicate IsRun(s: State, steps: seq<Step>)
    decreases |steps|
  {
    steps == [] || (Enabled(s, steps[0]) && IsRun(Apply(s, steps[0]), steps[1..]))
  }

  ghost function After(s: State, steps: seq<Step>): State
    requires IsRun(s, steps)
    decreases |steps|
  {
    if steps == [] then s else After(Apply(s, steps[0]), steps[1..])
  }
}
