/** Stopping makes progress, and the order in which a lone worker dispatches
    (server/scheduler.cpp). */
module SchedulerProgress {
  import opened Sums
  import opened Wrappers
  import opened SchedulerProtocol
  import opened SchedulerSafety

  // ----- A measure that every step after stop decreases -----

  /** Steps left to a worker that finds the list empty; a popped fiber costs more. */
  function WorkerRank(w: Worker): nat {
    match w
    case Fall => 8
    case Asleep => 7
    case Want => 6
    case Check => 5
    case Take => 4
    case Unlock(got) => if got.Some? then 10 else 3
    case Got(got) => if got.Some? then 9 else 2
    case Running(_) => 8
    case Exited => 0
  }

  function ProducerRank(p: Producer): nat {
    match p
    case Idle => 0
    case Lock(_, _) => 12
    case Push(_, _) => 11
    case Release(_, _) => 2
    case Notify(_, _) => 1
  }

  function StopperRank(t: Stopper, workers: nat): nat {
    match t
    case Before => workers + 9
    case LockFlag => workers + 8
    case SetFlag => workers + 7
    case ReleaseFlag => workers + 6
    case NotifyAll => workers + 5
    case LockThreads => workers + 4
    case SwapThreads => workers + 3
    case Join(next) => if next <= workers then workers - next + 1 else 1
    case Done => 0
  }

  function Measure(s: State): nat {
    8 * |s.queue| + Sum(s.workers, WorkerRank) + Sum(s.producers, ProducerRank) + StopperRank(s.stopper, |s.workers|)
  }

  lemma WorkerStepDecreases(s: State, w: nat)
    requires ProgramCounters(s) && s.stopping && Enabled(s, WorkerStep(w))
    ensures Measure(RunStep(s, w)) < Measure(s)
  {
    assert WorkerOk(s, s.workers[w]);
    var s' := RunStep(s, w);
    assert s'.workers == s.workers[w := s'.workers[w]];
    SumAfterMove(s.workers, WorkerRank, w, s'.workers[w]);
  }

  lemma ProducerStepDecreases(s: State, p: nat, woken: Option<nat>)
    requires Enabled(s, ProducerStep(p, woken))
    ensures Measure(ScheduleStep(s, p, woken)) < Measure(s)
  {
    var s' := ScheduleStep(s, p, woken);
    SumAfterMove(s.producers, ProducerRank, p, s'.producers[p]);
    if woken.Some? {
      SumAfterMove(s.workers, WorkerRank, woken.value, Want);
    }
  }

  lemma StopStepDecreases(s: State)
    requires Enabled(s, StopStep)
    ensures Measure(DoStop(s)) < Measure(s)
  {
    SumGrows(s.workers, WakeAll(s.workers), WorkerRank, 0);
  }

  lemma StoppingStays(s: State, t: Step)
    requires s.stopping && Enabled(s, t)
    ensures Apply(s, t).stopping
  {}

  /** What a step may add to the measure: only a new call of schedule adds anything. */
  function Charge(t: Step): nat {
    if t.Call? then 12 else 0
  }

  /** Once m_stopping is set every step but a new call decreases the measure. */
  lemma StepDecreases(s: State, t: Step)
    requires ProgramCounters(s) && s.stopping && Enabled(s, t)
    ensures Apply(s, t).stopping
    ensures if t.Call? then Measure(Apply(s, t)) == Measure(s) + Charge(t) else Measure(Apply(s, t)) < Measure(s)
  {
    StoppingStays(s, t);
    match t
    case WorkerStep(w) => WorkerStepDecreases(s, w);
    case Call(p, fiber, home) => SumAfterMove(s.producers, ProducerRank, p, Lock(fiber, home));
    case ProducerStep(p, woken) => ProducerStepDecreases(s, p, woken);
    case StopStep => StopStepDecreases(s);
  }

  // ----- Something can always be done until stop has returned -----

  /** Whoever holds the mutex can take its next step. */
  lemma HolderStep(s: State) returns (t: Step)
    requires MutualExclusion(s) && s.mutex.Some?
    ensures Enabled(s, t) && !t.Call? && (t == StopStep ==> s.stopper != Before)
    ensures t.WorkerStep? ==> s.workers[t.w] != Asleep
  {
    assert Holds(s, s.mutex.value);
    match s.mutex.value
    case WorkerAgent(w) => t := WorkerStep(w);
    case ProducerAgent(p) => t := ProducerStep(p, None);
    case StopAgent => t := StopStep;
  }

  /** A caller of schedule can go on when the mutex is free. */
  lemma CallerStep(s: State, p: nat) returns (t: Step)
    requires MutualExclusion(s) && s.mutex == None && p < |s.producers| && s.producers[p] != Idle
    ensures Enabled(s, t) && t.ProducerStep?
  {
    assert !Holds(s, ProducerAgent(p));
    if s.producers[p].Notify? && s.producers[p].tickle {
      if w: nat :| w < |s.workers| && s.workers[w] == Asleep {
        t := ProducerStep(p, Some(w));
      } else {
        t := ProducerStep(p, None);
      }
    } else {
      t := ProducerStep(p, None);
    }
  }

  /** A worker that is awake and has not left can go on, or waits for somebody who can. */
  lemma AwakeStep(s: State, w: nat) returns (t: Step)
    requires MutualExclusion(s) && w < |s.workers| && s.workers[w] != Asleep && s.workers[w] != Exited
    ensures Enabled(s, t) && !t.Call? && (t == StopStep ==> s.stopper != Before)
    ensures t.WorkerStep? ==> s.workers[t.w] != Asleep
  {
    if s.mutex.Some? {
      t := HolderStep(s);
    } else if p :| 0 <= p < |s.producers| && CallsFrom(s.producers[p], w) {
      t := CallerStep(s, p);
    } else {
      t := WorkerStep(w);
    }
  }

  /** Until stop has returned, some step other than a new call or a spurious wakeup can be
      taken: stopping never depends on luck. */
  lemma SomeStepIsEnabled(s: State) returns (t: Step)
    requires Inv(s) && s.stopping && s.stopper != Done
    ensures Enabled(s, t) && !t.Call?
    ensures t.WorkerStep? ==> s.workers[t.w] != Asleep
  {
    if s.mutex.Some? {
      t := HolderStep(s);
    } else if w: nat :| w < |s.workers| && s.workers[w] != Exited && s.workers[w] != Asleep {
      t := AwakeStep(s, w);
    } else {
      if HasNotifiedAll(s.stopper) {
        forall i | 0 <= i < |s.workers| ensures s.workers[i] == Exited {
          assert WorkerOk(s, s.workers[i]);
        }
      }
      t := StopStep;
    }
  }

  function Charges(steps: seq<Step>): nat {
    if steps == [] then 0 else (if steps[0].Call? then 1 + Charge(steps[0]) else 0) + Charges(steps[1..])
  }

  /** Runs after m_stopping is set are no longer than the measure and what new calls add to
      it, so none goes on for ever unless schedule is called for ever. */
  lemma {:induction false} StoppingRunsAreBounded(s: State, steps: seq<Step>)
    requires Inv(s) && s.stopping && IsRun(s, steps)
    ensures After(s, steps).stopping && |steps| + Measure(After(s, steps)) <= Measure(s) + Charges(steps)
    decreases |steps|
  {
    hide Inv, Measure;
    if steps != [] {
      InvHasProgramCounters(s);
      StepDecreases(s, steps[0]);
      StepKeepsInv(s, steps[0]);
      StoppingRunsAreBounded(Apply(s, steps[0]), steps[1..]);
    }
  }

  lemma InvHasProgramCounters(s: State)
    requires Inv(s)
    ensures ProgramCounters(s)
  {}

  lemma {:induction false} RunsCompose(s: State, a: seq<Step>, b: seq<Step>)
    requires IsRun(s, a) && IsRun(After(s, a), b)
    ensures IsRun(s, a + b) && After(s, a + b) == After(After(s, a), b)
    decreases |a|
  {
    if a == [] {
      assert a + b == b;
    } else {
      assert (a + b)[1..] == a[1..] + b;
      RunsCompose(Apply(s, a[0]), a[1..], b);
    }
  }

  ghost predicate Stuck(s: State) {
    forall t :: Enabled(s, t) ==> t.Call?
  }

  /** The whole story of stop.  From any point of any run at which m_stopping is set, the rest
      of the run is bounded by a measure and the new calls in it.  When nothing but new calls
      can be done, stop has returned; and if then only fiber bodies pushed since the flag was
      set, however many fibers they pushed, the list is empty and every fiber ever scheduled
      has been dispatched and is back. */
  lemma StopCompletes(s: State, before: seq<Step>, after: seq<Step>)
    requires Init(s) && s.workers != [] && IsRun(s, before)
    requires After(s, before).stopping && IsRun(After(s, before), after)
    ensures |after| <= Measure(After(s, before)) + Charges(after)
    ensures var s' := After(After(s, before), after);
            Stuck(s') ==>
              && s'.stopper == Done && multiset(s'.queue) <= multiset(s'.stray)
              && (s'.stray == [] ==>
                    s'.queue == [] && multiset(s'.scheduled) == multiset(s'.entered) == multiset(s'.returned))
  {
    InitEstablishesInv(s);
    RunKeepsInv(s, before);
    var middle := After(s, before);
    RunKeepsInv(middle, after);
    StoppingRunsAreBounded(middle, after);
    var s' := After(middle, after);
    if Stuck(s') {
      if s'.stopper != Done {
        var t := SomeStepIsEnabled(s');
      }
      RunsCompose(s, before, after);
      StopDrains(s, before + after);
    }
  }

  // ----- What is pushed too late -----

  /** Once every worker has exited nothing leaves the list: schedule does not look at
      m_stopping, and a fiber pushed then is never dispatched. */
  lemma {:induction false} LateWorkIsStranded(s: State, steps: seq<Step>)
    requires (forall i :: 0 <= i < |s.workers| ==> s.workers[i] == Exited) && IsRun(s, steps)
    ensures s.queue <= After(s, steps).queue && After(s, steps).entered == s.entered
    decreases |steps|
  {
    if steps != [] {
      LateWorkIsStranded(Apply(s, steps[0]), steps[1..]);
    }
  }

  /** And it can be pushed then, whatever has happened before. */
  lemma LateWorkIsAccepted(s: State, p: nat, f: Fiber)
    requires p < |s.producers| && s.producers[p] == Idle && s.mutex == None
    ensures var steps := [Call(p, f, None), ProducerStep(p, None), ProducerStep(p, None)];
            IsRun(s, steps) && After(s, steps).queue == s.queue + [f]
  {
    var s1 := Apply(s, Call(p, f, None));
    var s2 := Apply(s1, ProducerStep(p, None));
    var steps := [Call(p, f, None), ProducerStep(p, None), ProducerStep(p, None)];
    var s3 := Apply(s2, ProducerStep(p, None));
    assert steps[1..][1..] == [ProducerStep(p, None)];
    assert IsRun(s3, []) && After(s3, []) == s3;
    assert IsRun(s2, steps[1..][1..]) && After(s2, steps[1..][1..]) == s3;
    assert IsRun(s1, steps[1..]) && After(s1, steps[1..]) == s3;
  }

  // ----- A lone worker dispatches in reverse order -----

  function Reversed(fs: seq<Fiber>): seq<Fiber> {
    if fs == [] then [] else [fs[|fs| - 1]] + Reversed(fs[..|fs| - 1])
  }

  function HandOf(w: Worker): seq<Fiber> {
    if (w.Unlock? || w.Got?) && w.got.Some? then [w.got.value] else []
  }

  /** The dispatch order of a lone worker if nothing more were scheduled. */
  function Agenda(s: State): seq<Fiber>
    requires |s.workers| == 1
  {
    s.entered + HandOf(s.workers[0]) + Reversed(s.queue)
  }

  lemma TakeKeepsAgenda(s: State)
    requires |s.workers| == 1 && s.workers[0] == Take
    ensures Agenda(RunStep(s, 0)) == Agenda(s)
  {}

  lemma EnterKeepsAgenda(s: State)
    requires |s.workers| == 1 && s.workers[0].Got?
    ensures Agenda(RunStep(s, 0)) == Agenda(s)
  {
    hide Reversed;
    var s' := RunStep(s, 0);
    assert s'.entered + HandOf(s'.workers[0]) == s.entered + HandOf(s.workers[0]);
  }

  lemma QuietStepKeepsAgenda(s: State)
    requires |s.workers| == 1 && s.workers[0] != Take && !s.workers[0].Got?
    ensures Agenda(RunStep(s, 0)) == Agenda(s)
  {
    hide Reversed;
    var s' := RunStep(s, 0);
    assert s'.entered == s.entered && s'.queue == s.queue && HandOf(s'.workers[0]) == HandOf(s.workers[0]);
  }

  lemma OtherStepKeepsAgenda(s: State, t: Step)
    requires |s.workers| == 1 && Enabled(s, t) && !t.WorkerStep? && Apply(s, t).scheduled == s.scheduled
    ensures |Apply(s, t).workers| == 1 && Agenda(Apply(s, t)) == Agenda(s)
  {}

  lemma StepKeepsAgenda(s: State, t: Step)
    requires |s.workers| == 1 && Enabled(s, t) && Apply(s, t).scheduled == s.scheduled
    ensures |Apply(s, t).workers| == 1 && Agenda(Apply(s, t)) == Agenda(s)
  {
    hide Reversed, Agenda;
    if !t.WorkerStep? {
      OtherStepKeepsAgenda(s, t);
    } else {
      StepKeepsSizes(s, t);
      match s.workers[0]
      case Take => TakeKeepsAgenda(s);
      case Got(_) => EnterKeepsAgenda(s);
      case _ => QuietStepKeepsAgenda(s);
    }
  }

  lemma {:induction false} ScheduledOnlyGrows(s: State, steps: seq<Step>)
    requires IsRun(s, steps)
    ensures s.scheduled <= After(s, steps).scheduled
    decreases |steps|
  {
    if steps != [] {
      ScheduledOnlyGrows(Apply(s, steps[0]), steps[1..]);
    }
  }

  lemma {:induction false} RunKeepsAgenda(s: State, steps: seq<Step>)
    requires |s.workers| == 1 && IsRun(s, steps) && After(s, steps).scheduled == s.scheduled
    ensures |After(s, steps).workers| == 1 && Agenda(After(s, steps)) == Agenda(s)
    decreases |steps|
  {
    if steps != [] {
      var s' := Apply(s, steps[0]);
      ScheduledOnlyGrows(s', steps[1..]);
      assert s.scheduled <= s'.scheduled;
      StepKeepsAgenda(s, steps[0]);
      RunKeepsAgenda(s', steps[1..]);
    }
  }

  /** A lone worker that is given a fixed list before it starts dispatches it back to front. */
  lemma LoneWorkerIsLastInFirstOut(s: State, steps: seq<Step>)
    requires Init(s) && |s.workers| == 1 && IsRun(s, steps)
    requires After(s, steps).scheduled == s.scheduled
    ensures After(s, steps).entered <= Reversed(s.queue)
    ensures After(s, steps).stopper == Done ==> After(s, steps).entered == Reversed(s.queue)
  {
    RunKeepsAgenda(s, steps);
    assert Agenda(s) == Reversed(s.queue);
    assert After(s, steps).entered <= Agenda(After(s, steps));
    if After(s, steps).stopper == Done {
      InitEstablishesInv(s);
      RunKeepsInv(s, steps);
      StrayIsScheduled(s, steps);
      StopDrains(s, steps);
    }
  }

  lemma {:induction false} StrayIsScheduled(s: State, steps: seq<Step>)
    requires IsRun(s, steps)
    ensures |After(s, steps).stray| - |s.stray| <= |After(s, steps).scheduled| - |s.scheduled|
    decreases |steps|
  {
    if steps != [] {
      StrayIsScheduled(Apply(s, steps[0]), steps[1..]);
    }
  }
}
