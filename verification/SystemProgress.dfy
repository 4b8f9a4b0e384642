/** Stopping makes progress with the fibers' bodies counted in: every segment and every
    control transfer is a step (server/scheduler.cpp, server/fiber.cpp). */
module SystemProgress {
  import opened Sums
  import S = SchedulerProtocol
  import Safety = SchedulerSafety
  import Progress = SchedulerProgress
  import opened FiberMachine
  import opened FiberSystem

  /** Steps until the fiber on a thread switches out. */
  function CpuRank(c: Context): nat {
    match c
    case Entry(_) => 3
    case Body(_, _) => 2
    case Leaving(_, _) => 1
    case _ => 0
  }

  function ThreadRank(t: ThreadState): nat {
    CpuRank(t.cpu)
  }

  function SystemMeasure(y: System): nat {
    4 * Progress.Measure(y.s) + Sum(y.m.threads, ThreadRank)
  }

  predicate IsCall(a: Move) {
    a.Protocol? && a.t.Call?
  }

  lemma ExecuteDecreases(y: System, w: nat)
    requires SystemInv(y) && CanMove(y, OnFiberOf(w))
    ensures SystemMeasure(DoMove(y, OnFiberOf(w))) < SystemMeasure(y)
  {
    var m' := Execute(y.m, w);
    assert m'.threads == y.m.threads[w := m'.threads[w]];
    SumAfterMove(y.m.threads, ThreadRank, w, m'.threads[w]);
  }

  lemma EnterDecreases(y: System, w: nat)
    requires SystemInv(y) && y.s.stopping && CanMove(y, Protocol(S.WorkerStep(w)))
    requires Entering(y.s, S.WorkerStep(w)) && EntersWell(y, Protocol(S.WorkerStep(w)))
    ensures SystemMeasure(DoMove(y, Protocol(S.WorkerStep(w)))) < SystemMeasure(y)
  {
    Progress.StepDecreases(y.s, S.WorkerStep(w));
    hide Progress.Measure, S.RunStep, Safety.Inv, Existing;
    var f := y.s.workers[w].got.value;
    assert LinkedAt(y, w);
    SwapInResumes(y.m, w, f);
    SumAfterMove(y.m.threads, ThreadRank, w, ThreadState(Resume(y.m.tasks[f], f), Task(f), Main(w), Loop(w)));
  }

  lemma ReturnDecreases(y: System, w: nat)
    requires SystemInv(y) && y.s.stopping && CanMove(y, Protocol(S.WorkerStep(w)))
    requires Returning(y.s, S.WorkerStep(w))
    ensures SystemMeasure(DoMove(y, Protocol(S.WorkerStep(w)))) < SystemMeasure(y)
  {
    Progress.StepDecreases(y.s, S.WorkerStep(w));
    hide Progress.Measure, S.RunStep, Safety.Inv, Existing;
    SwapOutReturns(y.m, w);
    SumAfterMove(y.m.threads, ThreadRank, w, ThreadState(Loop(w), Main(w), Main(w), Loop(w)));
  }

  /** Once m_stopping is set every move but a new call of schedule decreases the measure. */
  lemma MoveDecreases(y: System, a: Move)
    requires SystemInv(y) && y.s.stopping && CanMove(y, a) && EntersWell(y, a)
    ensures DoMove(y, a).s.stopping
    ensures if IsCall(a) then SystemMeasure(DoMove(y, a)) == SystemMeasure(y) + 4 * Progress.Charge(a.t)
            else SystemMeasure(DoMove(y, a)) < SystemMeasure(y)
  {
    match a
    case OnFiberOf(w) => ExecuteDecreases(y, w);
    case Protocol(t) =>
      Progress.StepDecreases(y.s, t);
      if Entering(y.s, t) {
        EnterDecreases(y, t.w);
      } else if Returning(y.s, t) {
        ReturnDecreases(y, t.w);
      }
  }

  /** Until stop has returned some move other than a new call or a spurious wakeup can be made. */
  lemma SomeMoveIsEnabled(y: System) returns (a: Move)
    requires SystemInv(y) && y.s.stopping && y.s.stopper != S.Done
    ensures CanMove(y, a) && !IsCall(a)
    ensures a.Protocol? && a.t.WorkerStep? ==> y.s.workers[a.t.w] != S.Asleep
  {
    var t := Progress.SomeStepIsEnabled(y.s);
    a := Protocol(t);
    if Entering(y.s, t) {
      assert WorkerKnows(y.s.workers[t.w], |y.m.tasks|) && ThreadOk(y.m, t.w);
    } else if Returning(y.s, t) {
      assert LinkedAt(y, t.w);
      RunningFiberCanStep(y.m, t.w);
      if !y.m.threads[t.w].cpu.Leaving? {
        a := OnFiberOf(t.w);
      }
    }
  }

  function Charges(moves: seq<Move>): nat {
    if moves == [] then 0
    else (if IsCall(moves[0]) then 1 + 4 * Progress.Charge(moves[0].t) else 0) + Charges(moves[1..])
  }

  lemma {:induction false} StoppingRunsAreBounded(y: System, moves: seq<Move>)
    requires SystemInv(y) && y.s.stopping && IsRun(y, moves) && WellEntered(y, moves)
    ensures After(y, moves).s.stopping && |moves| + SystemMeasure(After(y, moves)) <= SystemMeasure(y) + Charges(moves)
    decreases |moves|
  {
    hide SystemInv, SystemMeasure, EntersWell;
    if moves != [] {
      MoveDecreases(y, moves[0]);
      MoveIsSoundExactly(y, moves[0]);
      StoppingRunsAreBounded(DoMove(y, moves[0]), moves[1..]);
    }
  }

  ghost predicate Stuck(y: System) {
    forall a :: CanMove(y, a) ==> IsCall(a)
  }

  /** Stopping a whole system, with or without new calls of schedule.  From any point of any
      sound run at which m_stopping is set, the rest of the run is bounded by a measure and the
      new calls in it.  When nothing but new calls is left to do, stop has returned; and if only
      fiber bodies pushed since the flag was set, the list is empty and every fiber has executed
      exactly as many segments as it was scheduled times, in order. */
  lemma StopCompletes(y: System, before: seq<Move>, after: seq<Move>, f: nat)
    requires SystemInit(y) && y.s.workers != [] && IsRun(y, before) && WellEntered(y, before)
    requires After(y, before).s.stopping && IsRun(After(y, before), after) && WellEntered(After(y, before), after)
    requires f < |After(After(y, before), after).m.tasks|
    ensures |after| <= SystemMeasure(After(y, before)) + Charges(after)
    ensures var y' := After(After(y, before), after);
            Stuck(y') ==>
              && y'.s.stopper == S.Done
              && (y'.s.stray == [] ==>
                    && y'.s.queue == [] && |y'.m.tasks[f].log| == Safety.Count(y'.s.scheduled, f)
                    && forall k :: 0 <= k < |y'.m.tasks[f].log| ==> y'.m.tasks[f].log[k] == k)
  {
    InitEstablishesSystemInv(y);
    RunKeepsSystemInv(y, before);
    var middle := After(y, before);
    StoppingRunsAreBounded(middle, after);
    RunKeepsSystemInv(middle, after);
    var y' := After(middle, after);
    if Stuck(y') {
      StuckIsDone(y');
      if y'.s.stray == [] {
        RunsCompose(y, before, after);
        StopRunsEverything(y, before + after, f);
        RunProjects(y, before + after);
        Safety.StopDrains(y.s, Steps(before + after));
      }
    }
  }

  lemma StuckIsDone(y: System)
    requires SystemInv(y) && y.s.stopping && Stuck(y)
    ensures y.s.stopper == S.Done
  {
    if y.s.stopper != S.Done {
      var a := SomeMoveIsEnabled(y);
    }
  }
}
