/** When callers of schedule keep a system sound: the push discipline for any number of workers,
    the exact condition for a lone worker, and the run that shows what goes wrong otherwise
    (server/scheduler.cpp, server/fiber.cpp). */
module FiberSharing {
  import opened Wrappers
  import P = SchedulerProtocol
  import Safety = SchedulerSafety
  import opened FiberMachine
  import opened FiberSystem

  // ----- The push discipline -----

  /** How many places f is in: the list, workers' hands, and threads. */
  function Places(s: P.State, f: nat): nat {
    Safety.Count(s.queue, f) + Safety.Holders(s.workers, f, Safety.Hand) + Safety.Holders(s.workers, f, Safety.Thread)
  }

  predicate Pushing(s: P.State, t: P.Step) {
    t.ProducerStep? && t.p < |s.producers| && s.producers[t.p].Push?
  }

  /** At the push the fiber is not in the list, not with a worker, and not finished. */
  predicate Disciplined(y: System, a: Move) {
    a.Protocol? && Pushing(y.s, a.t) ==>
      var f := y.s.producers[a.t.p].fiber;
      f < |y.m.tasks| && Places(y.s, f) == 0 && |y.m.tasks[f].log| <= y.m.tasks[f].shape.pauses
  }

  ghost predicate DisciplinedRun(y: System, moves: seq<Move>)
    requires IsRun(y, moves)
    decreases |moves|
  {
    moves == [] || (Disciplined(y, moves[0]) && DisciplinedRun(DoMove(y, moves[0]), moves[1..]))
  }

  /** f is in one place at most, and off the threads only with segments left to execute. */
  predicate Placed(y: System, f: nat) {
    && Places(y.s, f) <= 1
    && (f < |y.m.tasks| && Places(y.s, f) > 0 && Safety.Holders(y.s.workers, f, Safety.Thread) == 0 ==>
          |y.m.tasks[f].log| <= y.m.tasks[f].shape.pauses)
  }

  ghost predicate AllPlaced(y: System) {
    forall f :: Placed(y, f)
  }

  lemma PlacesAfterRunStep(s: P.State, w: nat, g: nat)
    requires P.Enabled(s, P.WorkerStep(w)) && !Entering(s, P.WorkerStep(w)) && !Returning(s, P.WorkerStep(w))
    ensures Places(P.RunStep(s, w), g) == Places(s, g)
    ensures Safety.Holders(P.RunStep(s, w).workers, g, Safety.Thread) == Safety.Holders(s.workers, g, Safety.Thread)
  {
    hide Safety.Count;
    var s' := P.RunStep(s, w);
    Safety.RunStepBalance(s, w, g);
    assert s'.workers == s.workers[w := s'.workers[w]] && s'.entered == s.entered && s'.returned == s.returned;
    Safety.HoldersAfterMove(s.workers, g, Safety.Hand, w, s'.workers[w]);
    Safety.HoldersAfterMove(s.workers, g, Safety.Thread, w, s'.workers[w]);
  }

  /** A step other than a switch leaves a fiber where it is, moves it from the list to a hand,
      or pushes it. */
  lemma PlacesAfterOtherStep(s: P.State, t: P.Step, g: nat)
    requires P.Enabled(s, t) && !Entering(s, t) && !Returning(s, t)
    ensures Places(P.Apply(s, t), g)
            == Places(s, g) + Safety.One(Pushing(s, t) && s.producers[t.p].fiber == g)
    ensures Safety.Holders(P.Apply(s, t).workers, g, Safety.Thread) == Safety.Holders(s.workers, g, Safety.Thread)
  {
    var s' := P.Apply(s, t);
    if t.WorkerStep? {
      PlacesAfterRunStep(s, t.w, g);
    } else {
      hide Safety.Count;
      Safety.HoldersArePointwise(s.workers, s'.workers, g, Safety.Hand);
      Safety.HoldersArePointwise(s.workers, s'.workers, g, Safety.Thread);
      if Pushing(s, t) {
        Safety.CountOfPush(s.queue, s.producers[t.p].fiber, g);
      }
    }
  }

  /** A switch moves one fiber from a hand to the thread, or takes it away from there. */
  lemma PlacesAfterSwitch(s: P.State, w: nat, g: nat)
    requires P.Enabled(s, P.WorkerStep(w)) && (Entering(s, P.WorkerStep(w)) || Returning(s, P.WorkerStep(w)))
    ensures var s', on := P.RunStep(s, w), Safety.One(FiberOf(s.workers[w]) == g);
            if Entering(s, P.WorkerStep(w)) then
              && Places(s', g) == Places(s, g)
              && Safety.Holders(s'.workers, g, Safety.Thread) == Safety.Holders(s.workers, g, Safety.Thread) + on
            else
              && Places(s', g) + on == Places(s, g)
              && Safety.Holders(s'.workers, g, Safety.Thread) + on == Safety.Holders(s.workers, g, Safety.Thread)
  {
    var s' := P.RunStep(s, w);
    assert s'.workers == s.workers[w := s'.workers[w]] && s'.queue == s.queue;
    Safety.HoldersAfterMove(s.workers, g, Safety.Hand, w, s'.workers[w]);
    Safety.HoldersAfterMove(s.workers, g, Safety.Thread, w, s'.workers[w]);
  }

  function FiberOf(w: P.Worker): nat {
    if w.Running? then w.fiber
    else if (w.Unlock? || w.Got?) && w.got.Some? then w.got.value
    else 0
  }

  lemma SwitchKeepsPlaced(y: System, w: nat, g: nat)
    requires SystemInv(y) && Placed(y, g) && CanMove(y, Protocol(P.WorkerStep(w)))
    requires EntersWell(y, Protocol(P.WorkerStep(w)))
    requires Entering(y.s, P.WorkerStep(w)) || Returning(y.s, P.WorkerStep(w))
    ensures Placed(DoMove(y, Protocol(P.WorkerStep(w))), g)
  {
    PlacesAfterSwitch(y.s, w, g);
    assert LinkedAt(y, w);
    if Entering(y.s, P.WorkerStep(w)) {
      SwapInResumes(y.m, w, y.s.workers[w].got.value);
    } else {
      SwapOutReturns(y.m, w);
    }
  }

  lemma ExecuteKeepsPlaced(y: System, w: nat, g: nat)
    requires SystemInv(y) && Placed(y, g) && CanMove(y, OnFiberOf(w))
    ensures Placed(DoMove(y, OnFiberOf(w)), g)
  {
    ExecuteKeepsInv(y.m, w);
    assert LinkedAt(y, w);
    Safety.HolderIsCounted(y.s.workers, g, Safety.Thread, w);
  }

  /** A fiber in one place, and in a hand, is suspended and has segments left. */
  lemma PlacedEntersWell(y: System, a: Move)
    requires SystemInv(y) && AllPlaced(y) && CanMove(y, a)
    ensures EntersWell(y, a)
  {
    if a.Protocol? && Entering(y.s, a.t) {
      var f := y.s.workers[a.t.w].got.value;
      assert Placed(y, f);
      Safety.HolderIsCounted(y.s.workers, f, Safety.Hand, a.t.w);
      NotOnAThread(y, f);
    }
  }

  lemma MoveKeepsPlaced(y: System, a: Move, g: nat)
    requires SystemInv(y) && Placed(y, g) && CanMove(y, a) && EntersWell(y, a) && Disciplined(y, a)
    ensures Placed(DoMove(y, a), g)
  {
    match a
    case OnFiberOf(w) => ExecuteKeepsPlaced(y, w, g);
    case Protocol(t) =>
      if Entering(y.s, t) || Returning(y.s, t) {
        SwitchKeepsPlaced(y, t.w, g);
      } else {
        PlacesAfterOtherStep(y.s, t, g);
      }
  }

  lemma {:induction false} PlacedRunsAreWell(y: System, moves: seq<Move>)
    requires SystemInv(y) && AllPlaced(y) && IsRun(y, moves) && DisciplinedRun(y, moves)
    ensures WellEntered(y, moves)
    decreases |moves|
  {
    if moves != [] {
      PlacedEntersWell(y, moves[0]);
      MoveIsSoundExactly(y, moves[0]);
      forall g ensures Placed(DoMove(y, moves[0]), g) {
        assert Placed(y, g);
        MoveKeepsPlaced(y, moves[0], g);
      }
      PlacedRunsAreWell(DoMove(y, moves[0]), moves[1..]);
    }
  }

  /** With any number of workers a run is sound if every fiber is pushed only while it is not
      in the list, not with a worker and not finished. */
  lemma DisciplineSuffices(y: System, moves: seq<Move>)
    requires SystemInit(y) && (forall f :: Safety.Count(y.s.queue, f) <= 1)
    requires IsRun(y, moves) && DisciplinedRun(y, moves)
    ensures WellEntered(y, moves)
  {
    InitEstablishesSystemInv(y);
    forall f ensures Placed(y, f) {
      assert Safety.Count(y.s.queue, f) <= 1;
      Safety.NobodyHolds(y.s.workers, f, Safety.Hand);
      Safety.NobodyHolds(y.s.workers, f, Safety.Thread);
    }
    PlacedRunsAreWell(y, moves);
  }

  // ----- The lone worker -----

  lemma MoveKeepsShapes(y: System, a: Move)
    requires CanMove(y, a)
    ensures |DoMove(y, a).m.tasks| == |y.m.tasks| && |DoMove(y, a).s.workers| == |y.s.workers|
    ensures forall f :: 0 <= f < |y.m.tasks| ==> DoMove(y, a).m.tasks[f].shape == y.m.tasks[f].shape
  {
    if a.Protocol? {
      Safety.StepKeepsSizes(y.s, a.t);
    }
  }

  lemma StepEnters(s: P.State, t: P.Step)
    requires P.Enabled(s, t)
    ensures P.Apply(s, t).entered == s.entered + if Entering(s, t) then [s.workers[t.w].got.value] else []
  {}

  lemma {:induction false} EnteredOnlyGrows(y: System, moves: seq<Move>, f: nat)
    requires IsRun(y, moves)
    ensures Safety.Count(y.s.entered, f) <= Safety.Count(After(y, moves).s.entered, f)
    ensures |After(y, moves).m.tasks| == |y.m.tasks|
    ensures f < |y.m.tasks| ==> After(y, moves).m.tasks[f].shape == y.m.tasks[f].shape
    decreases |moves|
  {
    if moves != [] {
      MoveKeepsShapes(y, moves[0]);
      if moves[0].Protocol? {
        StepEnters(y.s, moves[0].t);
        if Entering(y.s, moves[0].t) {
          Safety.CountOfPush(y.s.entered, y.s.workers[moves[0].t.w].got.value, f);
        }
      }
      EnteredOnlyGrows(DoMove(y, moves[0]), moves[1..], f);
    }
  }

  /** Each fiber has been switched into no more often than it has segments. */
  ghost predicate WithinSegments(y: System) {
    forall f :: 0 <= f < |y.m.tasks| ==> Safety.Count(y.s.entered, f) <= y.m.tasks[f].shape.pauses + 1
  }

  lemma {:induction false} OneHolderAtMost(ws: seq<P.Worker>, f: nat, w: nat)
    requires w < |ws| && forall i :: 0 <= i < |ws| && i != w ==> ws[i] != P.Running(f)
    ensures Safety.Holders(ws, f, Safety.Thread) <= 1
  {
    if w > 0 {
      OneHolderAtMost(ws[1..], f, w - 1);
    } else if |ws| > 1 {
      NoHolders(ws[1..], f);
    }
  }

  lemma {:induction false} NoHolders(ws: seq<P.Worker>, f: nat)
    requires forall i :: 0 <= i < |ws| ==> ws[i] != P.Running(f)
    ensures Safety.Holders(ws, f, Safety.Thread) == 0
  {
    if ws != [] {
      NoHolders(ws[1..], f);
    }
  }

  /** In a sound system, with any number of workers, this is always so. */
  lemma SoundIsWithinSegments(y: System)
    requires SystemInv(y)
    ensures WithinSegments(y)
  {
    forall f | 0 <= f < |y.m.tasks| ensures Safety.Count(y.s.entered, f) <= y.m.tasks[f].shape.pauses + 1 {
      assert Safety.Conserved(y.s, f) && Counted(y, f) && TaskOk(y.m.tasks[f]);
      if w :| 0 <= w < |y.m.threads| && RunningOn(y.m, w) == Some(f) {
        forall i | 0 <= i < |y.s.workers| && i != w ensures y.s.workers[i] != P.Running(f) {
          assert LinkedAt(y, i);
        }
        OneHolderAtMost(y.s.workers, f, w);
        assert ThreadOk(y.m, w);
      } else {
        forall i | 0 <= i < |y.s.workers| ensures y.s.workers[i] != P.Running(f) {
          assert LinkedAt(y, i);
        }
        NoHolders(y.s.workers, f);
      }
    }
  }

  /** A lone worker that is about to switch finds the fiber suspended, whenever it was pushed. */
  lemma LoneWorkerEntersWellExactly(y: System, w: nat)
    requires SystemInv(y) && |y.s.workers| == 1 && CanMove(y, Protocol(P.WorkerStep(w))) && Entering(y.s, P.WorkerStep(w))
    ensures var f := y.s.workers[w].got.value;
            && |y.m.tasks[f].log| == Safety.Count(y.s.entered, f)
            && (EntersWell(y, Protocol(P.WorkerStep(w))) <==> |y.m.tasks[f].log| <= y.m.tasks[f].shape.pauses)
  {
    var f := y.s.workers[w].got.value;
    NoHolders(y.s.workers, f);
    NotOnAThread(y, f);
    assert Counted(y, f) && Safety.Conserved(y.s, f);
  }

  lemma {:induction false} LoneRunsAreWell(y: System, moves: seq<Move>)
    requires SystemInv(y) && |y.s.workers| == 1 && IsRun(y, moves) && WithinSegments(After(y, moves))
    ensures WellEntered(y, moves)
    decreases |moves|
  {
    if moves != [] {
      var y' := DoMove(y, moves[0]);
      MoveKeepsShapes(y, moves[0]);
      if moves[0].Protocol? && Entering(y.s, moves[0].t) {
        LoneMoveIsWell(y, moves[0].t.w, moves);
      }
      MoveIsSoundExactly(y, moves[0]);
      LoneRunsAreWell(y', moves[1..]);
    }
  }

  lemma LoneMoveIsWell(y: System, w: nat, moves: seq<Move>)
    requires SystemInv(y) && |y.s.workers| == 1 && IsRun(y, moves) && WithinSegments(After(y, moves))
    requires moves != [] && moves[0] == Protocol(P.WorkerStep(w)) && Entering(y.s, P.WorkerStep(w))
    ensures EntersWell(y, moves[0])
  {
    var f, y' := y.s.workers[w].got.value, DoMove(y, moves[0]);
    LoneWorkerEntersWellExactly(y, w);
    StepEnters(y.s, P.WorkerStep(w));
    Safety.CountOfPush(y.s.entered, f, f);
    MoveKeepsShapes(y, moves[0]);
    EnteredOnlyGrows(y', moves[1..], f);
  }

  /** With a lone worker a run is sound if and only if no fiber is dispatched more often than it
      has segments: a fiber may be pushed at any time, also by itself before it yields. */
  lemma LoneWorkerIsSoundExactly(y: System, moves: seq<Move>)
    requires SystemInit(y) && |y.s.workers| == 1 && IsRun(y, moves)
    ensures WellEntered(y, moves) <==> WithinSegments(After(y, moves))
  {
    InitEstablishesSystemInv(y);
    if WellEntered(y, moves) {
      RunKeepsSystemInv(y, moves);
      SoundIsWithinSegments(After(y, moves));
    }
    if WithinSegments(After(y, moves)) {
      LoneRunsAreWell(y, moves);
    }
  }

  /** In particular if no fiber is scheduled more often than it has segments. */
  lemma LoneWorkerSuffices(y: System, moves: seq<Move>)
    requires SystemInit(y) && |y.s.workers| == 1 && IsRun(y, moves)
    requires forall f :: 0 <= f < |After(y, moves).m.tasks| ==>
               Safety.Count(After(y, moves).s.scheduled, f) <= After(y, moves).m.tasks[f].shape.pauses + 1
    ensures WellEntered(y, moves)
  {
    RunProjects(y, moves);
    forall f | 0 <= f < |After(y, moves).m.tasks|
      ensures Safety.Count(After(y, moves).s.entered, f) <= After(y, moves).m.tasks[f].shape.pauses + 1
    {
      Safety.FibersAreConserved(y.s, Steps(moves), f);
    }
    LoneWorkerIsSoundExactly(y, moves);
  }
}
