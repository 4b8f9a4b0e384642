/** Work is dispatched without waiting for stop (server/scheduler.cpp): left to themselves, the
    workers empty the list and go to sleep. */
module SchedulerWork {
  import opened Sums
  import opened Wrappers
  import opened SchedulerProtocol
  import opened SchedulerSafety
  import Progress = SchedulerProgress

  // ----- A measure that every step but those of the environment decreases -----

  function WorkerRank(w: Worker): nat {
    match w
    case Asleep => 0
    case Fall => 1
    case Take => 3
    case Check => 4
    case Want => 5
    case Running(_) => 6
    case Got(got) => if got.Some? then 7 else 1
    case Unlock(got) => if got.Some? then 8 else 2
    case Exited => 0
  }

  function ProducerRank(p: Producer): nat {
    match p
    case Idle => 0
    case Lock(_, _) => 15
    case Push(_, _) => 14
    case Release(_, _) => 7
    case Notify(_, _) => 6
  }

  function StopperRank(t: Stopper, workers: nat): nat {
    Progress.StopperRank(t, workers) + if HasNotifiedAll(t) then 0 else 5 * workers
  }

  function Measure(s: State): nat {
    6 * |s.queue| + Sum(s.workers, WorkerRank) + Sum(s.producers, ProducerRank) + StopperRank(s.stopper, |s.workers|)
  }

  /** What comes from outside: a new call of schedule, a spurious wakeup, the call of stop. */
  predicate FromOutside(s: State, t: Step) {
    match t
    case Call(_, _, _) => true
    case WorkerStep(w) => w < |s.workers| && s.workers[w] == Asleep
    case ProducerStep(_, _) => false
    case StopStep => s.stopper == Before
  }

  /** What such a step may add to the measure. */
  function Charge(s: State, t: Step): nat {
    match t
    case Call(_, _, _) => 15
    case WorkerStep(w) => if FromOutside(s, t) then 5 else 0
    case _ => 0
  }

  lemma WorkerStepMeasure(s: State, w: nat)
    requires ProgramCounters(s) && Enabled(s, WorkerStep(w))
    ensures if s.workers[w] == Asleep then Measure(RunStep(s, w)) == Measure(s) + 5
            else Measure(RunStep(s, w)) < Measure(s)
  {
    assert WorkerOk(s, s.workers[w]);
    var s' := RunStep(s, w);
    assert s'.workers == s.workers[w := s'.workers[w]];
    SumAfterMove(s.workers, WorkerRank, w, s'.workers[w]);
  }

  lemma ProducerStepMeasure(s: State, p: nat, woken: Option<nat>)
    requires Enabled(s, ProducerStep(p, woken))
    ensures Measure(ScheduleStep(s, p, woken)) < Measure(s)
  {
    var s' := ScheduleStep(s, p, woken);
    SumAfterMove(s.producers, ProducerRank, p, s'.producers[p]);
    if woken.Some? {
      SumAfterMove(s.workers, WorkerRank, woken.value, Want);
    }
  }

  lemma StopStepMeasure(s: State)
    requires Enabled(s, StopStep)
    ensures Measure(DoStop(s)) < Measure(s)
  {
    SumGrows(s.workers, WakeAll(s.workers), WorkerRank, 5);
  }

  /** At any time, before and after stop, only steps from outside do not decrease the measure,
      and those add no more than their charge. */
  lemma StepMeasure(s: State, t: Step)
    requires ProgramCounters(s) && Enabled(s, t)
    ensures Measure(Apply(s, t)) <= Measure(s) + Charge(s, t)
    ensures !FromOutside(s, t) ==> Measure(Apply(s, t)) < Measure(s)
  {
    match t
    case WorkerStep(w) => WorkerStepMeasure(s, w);
    case Call(p, fiber, home) => SumAfterMove(s.producers, ProducerRank, p, Lock(fiber, home));
    case ProducerStep(p, woken) => ProducerStepMeasure(s, p, woken);
    case StopStep => StopStepMeasure(s);
  }

  ghost function Charges(s: State, steps: seq<Step>): nat
    requires IsRun(s, steps)
    decreases |steps|
  {
    if steps == [] then 0
    else (if FromOutside(s, steps[0]) then 1 + Charge(s, steps[0]) else 0) + Charges(Apply(s, steps[0]), steps[1..])
  }

  lemma {:induction false} RunsAreBounded(s: State, steps: seq<Step>)
    requires Inv(s) && IsRun(s, steps)
    ensures |steps| + Measure(After(s, steps)) <= Measure(s) + Charges(s, steps)
    decreases |steps|
  {
    hide Inv, Measure;
    if steps != [] {
      Progress.InvHasProgramCounters(s);
      StepMeasure(s, steps[0]);
      StepKeepsInv(s, steps[0]);
      RunsAreBounded(Apply(s, steps[0]), steps[1..]);
    }
  }

  // ----- At rest -----

  /** Only steps from outside are left to do. */
  ghost predicate AtRest(s: State) {
    forall t :: Enabled(s, t) ==> FromOutside(s, t)
  }

  lemma AtRestAllSleep(s: State)
    requires Inv(s) && !s.stopping && AtRest(s)
    ensures s.mutex == None && forall i :: 0 <= i < |s.workers| ==> s.workers[i] == Asleep
  {
    if s.mutex.Some? {
      var t := Progress.HolderStep(s);
    }
    forall i | 0 <= i < |s.workers| ensures s.workers[i] == Asleep {
      assert WorkerOk(s, s.workers[i]);
      if s.workers[i] != Asleep {
        var t := Progress.AwakeStep(s, i);
      }
    }
  }

  lemma AtRestNobodyOwes(s: State, p: nat)
    requires Inv(s) && AtRest(s) && s.mutex == None && p < |s.producers|
    ensures !OwesNotify(s.producers[p])
  {
    if OwesNotify(s.producers[p]) {
      var t := Progress.CallerStep(s, p);
    }
  }

  /** Take any run from start and any continuation of it.  The continuation is bounded by a
      measure and by what comes from outside in it; and when, before stop, only steps from
      outside are left, the list is empty, all workers sleep, and every fiber ever scheduled
      has been dispatched and is back. */
  lemma WorkIsDispatched(s: State, before: seq<Step>, after: seq<Step>)
    requires Init(s) && s.workers != [] && IsRun(s, before) && IsRun(After(s, before), after)
    ensures |after| <= Measure(After(s, before)) + Charges(After(s, before), after)
    ensures var s' := After(After(s, before), after);
            AtRest(s') && !s'.stopping ==>
              && s'.queue == [] && (forall i :: 0 <= i < |s'.workers| ==> s'.workers[i] == Asleep)
              && multiset(s'.scheduled) == multiset(s'.entered) == multiset(s'.returned)
  {
    InitEstablishesInv(s);
    RunKeepsInv(s, before);
    RunKeepsWorkers(s, before);
    var middle := After(s, before);
    RunKeepsInv(middle, after);
    RunKeepsWorkers(middle, after);
    RunsAreBounded(middle, after);
    var s' := After(middle, after);
    if AtRest(s') && !s'.stopping {
      AtRestAllSleep(s');
      forall p | 0 <= p < |s'.producers| ensures !OwesNotify(s'.producers[p]) {
        AtRestNobodyOwes(s', p);
      }
      EverythingIsBack(s');
    }
  }
}
