/** What every interleaving of the scheduler protocol keeps (server/scheduler.cpp). */
module SchedulerSafety {
  import opened Wrappers
  import opened SchedulerProtocol

  // ----- Counting the fibers that workers hold -----

  /** A fiber that a worker has popped is first in its hand and then on its thread. */
  datatype Stage = Hand | Thread

  predicate At(w: Worker, f: Fiber, stage: Stage) {
    match stage
    case Hand => w == Unlock(Some(f)) || w == Got(Some(f))
    case Thread => w == Running(f)
  }

  function One(b: bool): nat {
    if b then 1 else 0
  }

  /** How many workers hold f at a stage. */
  function Holders(ws: seq<Worker>, f: Fiber, stage: Stage): nat {
    if ws == [] then 0 else One(At(ws[0], f, stage)) + Holders(ws[1..], f, stage)
  }

  lemma {:induction false} HoldersAfterMove(ws: seq<Worker>, f: Fiber, stage: Stage, i: nat, pc: Worker)
    requires i < |ws|
    ensures Holders(ws[i := pc], f, stage) + One(At(ws[i], f, stage)) == Holders(ws, f, stage) + One(At(pc, f, stage))
  {
    var ws' := ws[i := pc];
    if i == 0 {
      assert ws'[1..] == ws[1..];
    } else {
      assert ws'[1..] == ws[1..][i - 1 := pc];
      HoldersAfterMove(ws[1..], f, stage, i - 1, pc);
    }
  }

  lemma {:induction false} HoldersArePointwise(ws: seq<Worker>, ws': seq<Worker>, f: Fiber, stage: Stage)
    requires |ws| == |ws'|
    requires forall i :: 0 <= i < |ws| ==> ws'[i] == ws[i] || (ws[i] == Asleep && ws'[i] == Want)
    ensures Holders(ws', f, stage) == Holders(ws, f, stage)
  {
    if ws != [] {
      HoldersArePointwise(ws[1..], ws'[1..], f, stage);
    }
  }

  lemma {:induction false} HolderIsCounted(ws: seq<Worker>, f: Fiber, stage: Stage, i: nat)
    requires i < |ws|
    ensures One(At(ws[i], f, stage)) <= Holders(ws, f, stage)
  {
    if i > 0 {
      HolderIsCounted(ws[1..], f, stage, i - 1);
    }
  }

  lemma {:induction false} TwoHoldersAreCounted(ws: seq<Worker>, f: Fiber, stage: Stage, i: nat, j: nat)
    requires i < j < |ws|
    ensures One(At(ws[i], f, stage)) + One(At(ws[j], f, stage)) <= Holders(ws, f, stage)
  {
    if i == 0 {
      HolderIsCounted(ws[1..], f, stage, j - 1);
    } else {
      TwoHoldersAreCounted(ws[1..], f, stage, i - 1, j - 1);
    }
  }

  predicate Free(w: Worker) {
    w == Want || w == Asleep || w == Exited
  }

  lemma {:induction false} NobodyHolds(ws: seq<Worker>, f: Fiber, stage: Stage)
    requires forall i :: 0 <= i < |ws| ==> Free(ws[i])
    ensures Holders(ws, f, stage) == 0
  {
    if ws != [] {
      NobodyHolds(ws[1..], f, stage);
    }
  }

  function Count(fs: seq<Fiber>, f: Fiber): nat {
    multiset(fs)[f]
  }

  // ----- The invariants -----

  predicate WorkerHolds(w: Worker) {
    w == Check || w == Fall || w == Take || w.Unlock?
  }

  /** The agent's program counter is inside a locked block. */
  predicate Holds(s: State, a: Agent) {
    match a
    case WorkerAgent(w) => w < |s.workers| && WorkerHolds(s.workers[w])
    case ProducerAgent(p) => p < |s.producers| && (s.producers[p].Push? || s.producers[p].Release?)
    case StopAgent => s.stopper == SetFlag || s.stopper == ReleaseFlag || s.stopper == SwapThreads
  }

  ghost predicate MutualExclusion(s: State) {
    forall a :: Holds(s, a) <==> s.mutex == Some(a)
  }

  /** A worker that has found the list empty after leaving wait. */
  predicate Out(w: Worker) {
    w == Unlock(None) || w == Got(None) || w == Exited
  }

  predicate HasSetFlag(t: Stopper) {
    t == ReleaseFlag || t == NotifyAll || HasNotifiedAll(t)
  }

  predicate HasNotifiedAll(t: Stopper) {
    t == LockThreads || t == SwapThreads || t.Join? || t == Done
  }

  predicate WorkerOk(s: State, w: Worker) {
    && (w == Fall ==> s.queue == [] && !s.stopping)
    && (w == Take ==> s.queue != [] || s.stopping)
    && (Out(w) ==> s.stopping)
    && (w == Asleep ==> !HasNotifiedAll(s.stopper))
  }

  /** Join has come past exited workers only, so Done means that all have exited. */
  ghost predicate StopperOk(s: State) {
    && (s.stopping <==> HasSetFlag(s.stopper))
    && (s.stopper.Join? ==> s.stopper.next <= |s.workers|)
    && (s.stopper.Join? ==> forall i :: 0 <= i < s.stopper.next ==> s.workers[i] == Exited)
    && (s.stopper == Done ==> forall i :: 0 <= i < |s.workers| ==> s.workers[i] == Exited)
  }

  ghost predicate ProgramCounters(s: State) {
    && (forall i :: 0 <= i < |s.workers| ==> WorkerOk(s, s.workers[i]))
    && StopperOk(s)
  }

  /** Every push is still in the list, in a worker's hand, or was switched into; everything
      switched into is on a thread or has been switched out. */
  ghost predicate Conserved(s: State, f: Fiber) {
    && Count(s.scheduled, f) == Count(s.queue, f) + Holders(s.workers, f, Hand) + Count(s.entered, f)
    && Count(s.entered, f) == Holders(s.workers, f, Thread) + Count(s.returned, f)
  }

  ghost predicate Conservation(s: State) {
    forall f :: Conserved(s, f)
  }

  predicate OwesNotify(p: Producer) {
    (p.Release? || p.Notify?) && p.tickle
  }

  /** Work in the list is never forgotten while all workers sleep. */
  ghost predicate NoLostWakeup(s: State) {
    s.queue != [] && !s.stopping && s.workers != [] ==>
      || (exists i :: 0 <= i < |s.workers| && s.workers[i] != Asleep)
      || (exists i :: 0 <= i < |s.producers| && OwesNotify(s.producers[i]))
  }

  predicate AllOut(ws: seq<Worker>) {
    forall i :: 0 <= i < |ws| ==> Out(ws[i])
  }

  /** Once all workers are out, the list is exactly what has been scheduled since the last of
      them looked, and no fiber body scheduled it. */
  ghost predicate Drained(s: State) {
    AllOut(s.workers) ==> s.queue == s.since && (s.workers != [] ==> multiset(s.since) <= multiset(s.stray))
  }

  predicate HomeOk(s: State, p: Producer) {
    p != Idle && p.home.Some? ==> p.home.value < |s.workers| && s.workers[p.home.value].Running?
  }

  /** A fiber body that is inside schedule is on its worker. */
  ghost predicate Homes(s: State) {
    forall p :: 0 <= p < |s.producers| ==> HomeOk(s, s.producers[p])
  }

  ghost predicate Inv(s: State) {
    MutualExclusion(s) && ProgramCounters(s) && Conservation(s) && NoLostWakeup(s) && Homes(s) && Drained(s)
  }

  lemma InitEstablishesInv(s: State)
    requires Init(s)
    ensures Inv(s)
  {
    assert s.workers != [] ==> s.workers[0] != Asleep && !Out(s.workers[0]);
    forall f ensures Conserved(s, f) {
      NobodyHolds(s.workers, f, Hand);
      NobodyHolds(s.workers, f, Thread);
    }
  }

  // ----- What the steps leave alone -----

  lemma RunStepMovesOne(s: State, w: nat)
    requires w < |s.workers|
    ensures |RunStep(s, w).workers| == |s.workers|
    ensures RunStep(s, w).workers == s.workers[w := RunStep(s, w).workers[w]]
  {}

  lemma RunStepFrame(s: State, w: nat)
    requires w < |s.workers|
    ensures var s' := RunStep(s, w);
            && |s'.workers| == |s.workers| && s'.workers == s.workers[w := s'.workers[w]]
            && s'.producers == s.producers && s'.stopper == s.stopper && s'.stopping == s.stopping
            && s'.scheduled == s.scheduled && s'.stray == s.stray
  {
    RunStepMovesOne(s, w);
    assert forall pc :: MoveWorker(s, w, pc).producers == s.producers;
  }

  lemma ScheduleStepFrame(s: State, p: nat, woken: Option<nat>)
    requires Enabled(s, ProducerStep(p, woken))
    ensures var s' := ScheduleStep(s, p, woken);
            && |s'.producers| == |s.producers| && s'.producers == s.producers[p := s'.producers[p]]
            && (woken.Some? ==> s.workers[woken.value] == Asleep)
            && s'.workers == (if woken.Some? then s.workers[woken.value := Want] else s.workers)
            && s'.stopper == s.stopper && s'.stopping == s.stopping
            && s'.entered == s.entered && s'.returned == s.returned
  {}

  lemma StopStepFrame(s: State)
    ensures var s' := DoStop(s);
            && s'.producers == s.producers
            && s'.workers == (if s.stopper == NotifyAll then WakeAll(s.workers) else s.workers)
            && s' == s.(stopper := s'.stopper, stopping := s'.stopping, mutex := s'.mutex, workers := s'.workers)
  {}

  /** A step of another agent wakes worker i or leaves it as it is. */
  lemma OthersMayWake(s: State, t: Step, i: nat)
    requires Enabled(s, t) && t != WorkerStep(i) && i < |s.workers|
    ensures |Apply(s, t).workers| == |s.workers|
    ensures Apply(s, t).workers[i] == s.workers[i] || (s.workers[i] == Asleep && Apply(s, t).workers[i] == Want)
  {
    match t
    case WorkerStep(w) => RunStepFrame(s, w);
    case Call(_, _, _) =>
    case ProducerStep(p, woken) => ScheduleStepFrame(s, p, woken);
    case StopStep => StopStepFrame(s);
  }

  function Actor(t: Step): Agent {
    match t
    case WorkerStep(w) => WorkerAgent(w)
    case Call(p, _, _) => ProducerAgent(p)
    case ProducerStep(p, _) => ProducerAgent(p)
    case StopStep => StopAgent
  }

  lemma StepKeepsSizes(s: State, t: Step)
    requires Enabled(s, t)
    ensures |Apply(s, t).workers| == |s.workers| && |Apply(s, t).producers| == |s.producers|
  {
    match t
    case WorkerStep(w) => RunStepFrame(s, w);
    case Call(_, _, _) =>
    case ProducerStep(p, woken) => ScheduleStepFrame(s, p, woken);
    case StopStep => StopStepFrame(s);
  }

  lemma OthersKeepProducer(s: State, t: Step, p: nat)
    requires Enabled(s, t) && Actor(t) != ProducerAgent(p)
    ensures |Apply(s, t).producers| == |s.producers|
    ensures p < |s.producers| ==> Apply(s, t).producers[p] == s.producers[p]
  {
    match t
    case WorkerStep(w) => RunStepFrame(s, w);
    case Call(_, _, _) =>
    case ProducerStep(p', woken) => ScheduleStepFrame(s, p', woken);
    case StopStep => StopStepFrame(s);
  }

  lemma OthersKeepStopper(s: State, t: Step)
    requires Enabled(s, t) && t != StopStep
    ensures Apply(s, t).stopper == s.stopper && Apply(s, t).stopping == s.stopping
  {
    match t
    case WorkerStep(w) => RunStepFrame(s, w);
    case Call(_, _, _) =>
    case ProducerStep(p, woken) => ScheduleStepFrame(s, p, woken);
  }

  lemma OthersHoldAsBefore(s: State, t: Step, a: Agent)
    requires Enabled(s, t) && a != Actor(t)
    ensures Holds(Apply(s, t), a) == Holds(s, a)
  {
    hide RunStep, ScheduleStep, DoStop, Apply;
    match a
    case WorkerAgent(w) =>
      if w < |s.workers| {
        OthersMayWake(s, t, w);
      } else {
        StepKeepsSizes(s, t);
      }
    case ProducerAgent(p) => OthersKeepProducer(s, t, p);
    case StopAgent => OthersKeepStopper(s, t);
  }

  lemma ActorTakesOrReleases(s: State, t: Step)
    requires MutualExclusion(s) && Enabled(s, t)
    ensures var a, s' := Actor(t), Apply(s, t);
            if Holds(s', a) == Holds(s, a) then s'.mutex == s.mutex
            else if Holds(s', a) then s.mutex == None && s'.mutex == Some(a)
            else s'.mutex == None
  {}

  lemma StepKeepsMutualExclusion(s: State, t: Step)
    requires MutualExclusion(s) && Enabled(s, t)
    ensures MutualExclusion(Apply(s, t))
  {
    var s' := Apply(s, t);
    ActorTakesOrReleases(s, t);
    assert Holds(s, Actor(t)) <==> s.mutex == Some(Actor(t));
    forall a ensures Holds(s', a) <==> s'.mutex == Some(a) {
      assert Holds(s, a) <==> s.mutex == Some(a);
      if a != Actor(t) {
        OthersHoldAsBefore(s, t, a);
      }
    }
  }

  lemma RunStepKeepsWorkerOk(s: State, w: nat, i: nat)
    requires MutualExclusion(s) && ProgramCounters(s) && Enabled(s, WorkerStep(w)) && i < |s.workers|
    ensures i < |RunStep(s, w).workers| && WorkerOk(RunStep(s, w), RunStep(s, w).workers[i])
  {
    assert WorkerOk(s, s.workers[i]) && WorkerOk(s, s.workers[w]);
    assert Holds(s, WorkerAgent(w)) <==> s.mutex == Some(WorkerAgent(w));
    assert Holds(s, WorkerAgent(i)) <==> s.mutex == Some(WorkerAgent(i));
  }

  lemma OtherStepKeepsWorkerOk(s: State, t: Step, i: nat)
    requires MutualExclusion(s) && ProgramCounters(s) && Enabled(s, t) && !t.WorkerStep? && i < |s.workers|
    ensures i < |Apply(s, t).workers| && WorkerOk(Apply(s, t), Apply(s, t).workers[i])
  {
    assert WorkerOk(s, s.workers[i]);
    assert Holds(s, Actor(t)) <==> s.mutex == Some(Actor(t));
    assert Holds(s, WorkerAgent(i)) <==> s.mutex == Some(WorkerAgent(i));
  }

  lemma StopStepKeepsStopperOk(s: State)
    requires StopperOk(s) && Enabled(s, StopStep)
    ensures StopperOk(DoStop(s)) && |DoStop(s).workers| == |s.workers|
  {}

  /** The other agents leave the stopper's fields alone, and exited workers stay exited. */
  lemma OtherStepKeepsStopper(s: State, t: Step)
    requires Enabled(s, t) && t != StopStep
    ensures var s' := Apply(s, t);
            && |s'.workers| == |s.workers| && s'.stopping == s.stopping && s'.stopper == s.stopper
            && forall i :: 0 <= i < |s.workers| && s.workers[i] == Exited ==> s'.workers[i] == Exited
  {
    hide RunStep, ScheduleStep, Apply;
    OthersKeepStopper(s, t);
    StepKeepsSizes(s, t);
    forall i | 0 <= i < |s.workers| && s.workers[i] == Exited ensures Apply(s, t).workers[i] == Exited {
      OthersMayWake(s, t, i);
    }
  }

  lemma StepKeepsStopperOk(s: State, t: Step)
    requires StopperOk(s) && Enabled(s, t)
    ensures StopperOk(Apply(s, t)) && |Apply(s, t).workers| == |s.workers|
  {
    if t == StopStep {
      StopStepKeepsStopperOk(s);
    } else {
      hide RunStep, ScheduleStep, DoStop, HasSetFlag;
      OtherStepKeepsStopper(s, t);
    }
  }

  lemma StepKeepsProgramCounters(s: State, t: Step)
    requires MutualExclusion(s) && ProgramCounters(s) && Enabled(s, t)
    ensures ProgramCounters(Apply(s, t))
  {
    hide WorkerOk, HasSetFlag;
    var s' := Apply(s, t);
    StepKeepsStopperOk(s, t);
    forall i | 0 <= i < |s'.workers| ensures WorkerOk(s', s'.workers[i]) {
      if t.WorkerStep? {
        RunStepKeepsWorkerOk(s, t.w, i);
      } else {
        OtherStepKeepsWorkerOk(s, t, i);
      }
    }
  }

  lemma CountOfPush(fs: seq<Fiber>, x: Fiber, f: Fiber)
    ensures Count(fs + [x], f) == Count(fs, f) + One(x == f)
  {}

  lemma CountOfPop(fs: seq<Fiber>, f: Fiber)
    requires fs != []
    ensures Count(fs, f) == Count(fs[..|fs| - 1], f) + One(fs[|fs| - 1] == f)
  {
    assert fs == fs[..|fs| - 1] + [fs[|fs| - 1]];
  }

  /** The worker's own step moves one fiber at most, from the list to its hand, from its hand
      to the thread, or off the thread. */
  ghost predicate Balanced(s: State, s': State, pc: Worker, pc': Worker, f: Fiber) {
    && Count(s'.queue, f) + One(At(pc', f, Hand)) + Count(s'.entered, f)
       == Count(s.queue, f) + One(At(pc, f, Hand)) + Count(s.entered, f)
    && Count(s'.entered, f) + One(At(pc, f, Thread)) + Count(s.returned, f)
       == Count(s.entered, f) + One(At(pc', f, Thread)) + Count(s'.returned, f)
  }

  lemma TakeBalance(s: State, w: nat, f: Fiber)
    requires w < |s.workers| && s.workers[w] == Take
    ensures Balanced(s, RunStep(s, w), s.workers[w], RunStep(s, w).workers[w], f)
  {
    if s.queue != [] {
      CountOfPop(s.queue, f);
    }
  }

  lemma EnterBalance(s: State, w: nat, f: Fiber)
    requires w < |s.workers| && s.workers[w].Got?
    ensures Balanced(s, RunStep(s, w), s.workers[w], RunStep(s, w).workers[w], f)
  {}

  lemma ReturnBalance(s: State, w: nat, f: Fiber)
    requires w < |s.workers| && s.workers[w].Running?
    ensures Balanced(s, RunStep(s, w), s.workers[w], RunStep(s, w).workers[w], f)
  {}

  lemma RunStepBalance(s: State, w: nat, f: Fiber)
    requires Enabled(s, WorkerStep(w))
    ensures Balanced(s, RunStep(s, w), s.workers[w], RunStep(s, w).workers[w], f)
  {
    match s.workers[w]
    case Take => TakeBalance(s, w, f);
    case Got(_) => EnterBalance(s, w, f);
    case Running(_) => ReturnBalance(s, w, f);
    case _ =>
  }

  lemma RunStepConserves(s: State, w: nat, f: Fiber)
    requires Conserved(s, f) && Enabled(s, WorkerStep(w))
    ensures Conserved(RunStep(s, w), f)
  {
    RunStepBalance(s, w, f);
    var s' := RunStep(s, w);
    var pc' := s'.workers[w];
    assert s'.workers == s.workers[w := pc'] && s'.scheduled == s.scheduled;
    HoldersAfterMove(s.workers, f, Hand, w, pc');
    HoldersAfterMove(s.workers, f, Thread, w, pc');
  }

  lemma ScheduleStepConserves(s: State, p: nat, woken: Option<nat>, f: Fiber)
    requires Conserved(s, f) && Enabled(s, ProducerStep(p, woken))
    ensures Conserved(ScheduleStep(s, p, woken), f)
  {
    hide Count, Holders;
    var s' := ScheduleStep(s, p, woken);
    ScheduleStepFrame(s, p, woken);
    HoldersArePointwise(s.workers, s'.workers, f, Hand);
    HoldersArePointwise(s.workers, s'.workers, f, Thread);
    if s.producers[p].Push? {
      CountOfPush(s.queue, s.producers[p].fiber, f);
      CountOfPush(s.scheduled, s.producers[p].fiber, f);
    }
  }

  lemma StopStepConserves(s: State, f: Fiber)
    requires Conserved(s, f)
    ensures Conserved(DoStop(s), f)
  {
    StopStepFrame(s);
    hide DoStop;
    HoldersArePointwise(s.workers, DoStop(s).workers, f, Hand);
    HoldersArePointwise(s.workers, DoStop(s).workers, f, Thread);
  }

  lemma StepKeepsConservation(s: State, t: Step)
    requires Conservation(s) && Enabled(s, t)
    ensures Conservation(Apply(s, t))
  {
    forall f ensures Conserved(Apply(s, t), f) {
      assert Conserved(s, f);
      match t
      case WorkerStep(w) => RunStepConserves(s, w, f);
      case Call(_, _, _) =>
      case ProducerStep(p, woken) => ScheduleStepConserves(s, p, woken, f);
      case StopStep => StopStepConserves(s, f);
    }
  }

  lemma StepKeepsNoLostWakeup(s: State, t: Step)
    requires ProgramCounters(s) && NoLostWakeup(s) && Enabled(s, t)
    ensures NoLostWakeup(Apply(s, t))
  {
    var s' := Apply(s, t);
    if s'.queue != [] && !s'.stopping && s'.workers != [] {
      match t
      case WorkerStep(w) =>
        assert WorkerOk(s, s.workers[w]);
        assert s'.workers[w] != Asleep;
      case Call(p, _, _) =>
        KeepWitness(s, s', p);
      case ProducerStep(p, woken) =>
        if s.producers[p].Push? && s.queue == [] {
          assert OwesNotify(s'.producers[p]);
        } else if s.producers[p].Release? && s.producers[p].tickle {
          assert OwesNotify(s'.producers[p]);
        } else if s.producers[p].Notify? && s.producers[p].tickle {
          assert s'.workers[if woken.Some? then woken.value else 0] != Asleep;
        } else {
          KeepWitness(s, s', p);
        }
      case StopStep =>
        if i :| 0 <= i < |s.workers| && s.workers[i] != Asleep {
          assert s'.workers[i] != Asleep;
        }
    }
  }

  /** A step of producer p that pays no debt keeps the witness of NoLostWakeup. */
  lemma KeepWitness(s: State, s': State, p: nat)
    requires NoLostWakeup(s) && s.queue != [] && !s.stopping && s.workers != []
    requires |s.workers| == |s'.workers| && |s.producers| == |s'.producers| && p < |s.producers|
    requires forall i :: 0 <= i < |s.workers| && s.workers[i] != Asleep ==> s'.workers[i] != Asleep
    requires !OwesNotify(s.producers[p])
    requires forall i :: 0 <= i < |s.producers| && i != p ==> s'.producers[i] == s.producers[i]
    ensures NoLostWakeup(s')
  {}

  /** A worker's step that leaves all workers out found the list empty, or left it alone. */
  lemma RunStepKeepsDrained(s: State, w: nat)
    requires Drained(s) && Enabled(s, WorkerStep(w))
    ensures Drained(RunStep(s, w))
  {
    var s' := RunStep(s, w);
    if AllOut(s'.workers) {
      assert Out(s'.workers[w]);
      if s.workers[w] != Take {
        OthersAreOut(s.workers, w, s'.workers[w]);
      }
    }
  }

  lemma OthersAreOut(ws: seq<Worker>, w: nat, pc: Worker)
    requires w < |ws| && Out(ws[w]) && AllOut(ws[w := pc])
    ensures AllOut(ws)
  {
    forall i | 0 <= i < |ws| ensures Out(ws[i]) {
      assert Out(ws[w := pc][i]);
    }
  }

  /** Pushes while all workers are out are stray. */
  lemma PushKeepsDrained(s: State, p: nat)
    requires ProgramCounters(s) && Homes(s) && Drained(s) && p < |s.producers| && s.producers[p].Push?
    ensures Drained(ScheduleStep(s, p, None))
  {
    if AllOut(s.workers) && s.workers != [] {
      assert WorkerOk(s, s.workers[0]) && Out(s.workers[0]);
      assert HomeOk(s, s.producers[p]);
    }
  }

  /** The other agents make no worker go out, and push in one place only. */
  lemma OtherStepKeepsOut(s: State, t: Step)
    requires Enabled(s, t) && !t.WorkerStep?
    ensures var s' := Apply(s, t);
            && AllOut(s'.workers) == AllOut(s.workers) && |s'.workers| == |s.workers|
            && (!(t.ProducerStep? && s.producers[t.p].Push?) ==>
                  s'.queue == s.queue && s'.since == s.since && s'.stray == s.stray)
  {
    var s' := Apply(s, t);
    forall i | 0 <= i < |s.workers| ensures Out(s'.workers[i]) == Out(s.workers[i]) {}
    if AllOut(s'.workers) {
      forall i | 0 <= i < |s.workers| ensures Out(s.workers[i]) {
        assert Out(s'.workers[i]);
      }
    }
  }

  /** Exactly the pushes of callers without a home, while m_stopping is set, are logged as stray. */
  lemma StrayExactly(s: State, t: Step)
    requires Enabled(s, t)
    ensures Apply(s, t).stray
            == if t.ProducerStep? && s.producers[t.p].Push? && s.stopping && s.producers[t.p].home == None
               then s.stray + [s.producers[t.p].fiber] else s.stray
  {
    match t
    case WorkerStep(w) => RunStepFrame(s, w);
    case Call(_, _, _) =>
    case ProducerStep(p, woken) =>
    case StopStep => StopStepFrame(s);
  }

  lemma StepKeepsDrained(s: State, t: Step)
    requires ProgramCounters(s) && Homes(s) && Drained(s) && Enabled(s, t)
    ensures Drained(Apply(s, t))
  {
    if t.WorkerStep? {
      RunStepKeepsDrained(s, t.w);
    } else if t.ProducerStep? && s.producers[t.p].Push? {
      PushKeepsDrained(s, t.p);
    } else {
      OtherStepKeepsOut(s, t);
      hide Apply, AllOut;
    }
  }

  /** What a step does to the workers that are on a fiber. */
  lemma RunningStays(s: State, t: Step, w: nat)
    requires Enabled(s, t) && w < |s.workers| && s.workers[w].Running? && t != WorkerStep(w)
    ensures |Apply(s, t).workers| == |s.workers| && Apply(s, t).workers[w].Running?
  {
    OthersMayWake(s, t, w);
  }

  /** A step leaves the home of a call in progress; a new call starts at home. */
  lemma HomeStays(s: State, t: Step, p: nat)
    requires Enabled(s, t) && p < |s.producers|
    ensures var s' := Apply(s, t);
            && |s'.producers| == |s.producers|
            && (s'.producers[p] != Idle && s.producers[p] != Idle ==> s'.producers[p].home == s.producers[p].home)
            && (s'.producers[p] != Idle && s.producers[p] == Idle ==> t.Call? && s'.producers[p].home == t.home)
  {
    hide RunStep, DoStop;
    StepKeepsSizes(s, t);
    if Actor(t) != ProducerAgent(p) {
      OthersKeepProducer(s, t, p);
    }
  }

  lemma StepKeepsHomes(s: State, t: Step)
    requires Homes(s) && Enabled(s, t)
    ensures Homes(Apply(s, t))
  {
    var s' := Apply(s, t);
    forall p | 0 <= p < |s'.producers| ensures HomeOk(s', s'.producers[p]) {
      HomeStays(s, t, p);
      assert HomeOk(s, s.producers[p]);
      if s'.producers[p] != Idle && s'.producers[p].home.Some? {
        var w := s'.producers[p].home.value;
        assert t == WorkerStep(w) ==> !CallsFrom(s.producers[p], w);
        RunningStays(s, t, w);
      }
    }
  }

  lemma StepKeepsInv(s: State, t: Step)
    requires Inv(s) && Enabled(s, t)
    ensures Inv(Apply(s, t))
  {
    StepKeepsMutualExclusion(s, t);
    StepKeepsProgramCounters(s, t);
    StepKeepsConservation(s, t);
    StepKeepsNoLostWakeup(s, t);
    StepKeepsHomes(s, t);
    StepKeepsDrained(s, t);
  }

  lemma {:induction false} RunKeepsInv(s: State, steps: seq<Step>)
    requires Inv(s) && IsRun(s, steps)
    ensures Inv(After(s, steps))
    decreases |steps|
  {
    if steps != [] {
      StepKeepsInv(s, steps[0]);
      RunKeepsInv(Apply(s, steps[0]), steps[1..]);
    }
  }

  lemma {:induction false} RunKeepsWorkers(s: State, steps: seq<Step>)
    requires IsRun(s, steps)
    ensures |After(s, steps).workers| == |s.workers|
    decreases |steps|
  {
    if steps != [] {
      RunKeepsWorkers(Apply(s, steps[0]), steps[1..]);
    }
  }

  // ----- The safety theorems, for every run from start -----

  /** Mutual exclusion: two agents are never both inside a locked block. */
  lemma OneHolder(s: State, steps: seq<Step>, a: Agent, b: Agent)
    requires Init(s) && IsRun(s, steps)
    requires Holds(After(s, steps), a) && Holds(After(s, steps), b)
    ensures a == b
  {
    InitEstablishesInv(s);
    RunKeepsInv(s, steps);
    var s' := After(s, steps);
    assert s'.mutex == Some(a) && s'.mutex == Some(b);
  }

  /** Before stop, a non-empty list always has a worker awake or a producer about to notify,
      although schedule notifies only when it finds the list empty and after unlocking. */
  lemma WorkIsNeverForgotten(s: State, steps: seq<Step>)
    requires Init(s) && IsRun(s, steps) && s.workers != []
    requires After(s, steps).queue != [] && !After(s, steps).stopping
    ensures var s' := After(s, steps);
            || (exists i :: 0 <= i < |s'.workers| && s'.workers[i] != Asleep && !Out(s'.workers[i]))
            || (exists i :: 0 <= i < |s'.producers| && OwesNotify(s'.producers[i]))
  {
    InitEstablishesInv(s);
    RunKeepsInv(s, steps);
    RunKeepsWorkers(s, steps);
    var s' := After(s, steps);
    if i :| 0 <= i < |s'.workers| && s'.workers[i] != Asleep {
      assert WorkerOk(s', s'.workers[i]);
      assert s'.workers[i] != Asleep && !Out(s'.workers[i]);
    }
  }

  /** Conservation of fibers. */
  lemma FibersAreConserved(s: State, steps: seq<Step>, f: Fiber)
    requires Init(s) && IsRun(s, steps)
    ensures Conserved(After(s, steps), f)
  {
    InitEstablishesInv(s);
    RunKeepsInv(s, steps);
  }

  predicate HasFiber(w: Worker, f: Fiber) {
    At(w, f, Hand) || At(w, f, Thread)
  }

  /** A fiber scheduled once is never held by two workers. */
  lemma NoTwoWorkersHoldAFiber(s: State, steps: seq<Step>, f: Fiber, i: nat, j: nat)
    requires Init(s) && IsRun(s, steps)
    requires Count(After(s, steps).scheduled, f) <= 1
    requires i < |After(s, steps).workers| && j < |After(s, steps).workers|
    requires HasFiber(After(s, steps).workers[i], f) && HasFiber(After(s, steps).workers[j], f)
    ensures i == j
  {
    FibersAreConserved(s, steps, f);
    if i < j {
      TwoHoldersNeedTwoPushes(After(s, steps), f, i, j);
    } else if j < i {
      TwoHoldersNeedTwoPushes(After(s, steps), f, j, i);
    }
  }

  lemma TwoHoldersNeedTwoPushes(s: State, f: Fiber, i: nat, j: nat)
    requires Conserved(s, f) && i < j < |s.workers|
    requires HasFiber(s.workers[i], f) && HasFiber(s.workers[j], f)
    ensures Count(s.scheduled, f) >= 2
  {
    TwoHoldersAreCounted(s.workers, f, Hand, i, j);
    TwoHoldersAreCounted(s.workers, f, Thread, i, j);
    HolderIsCounted(s.workers, f, Hand, i);
    HolderIsCounted(s.workers, f, Hand, j);
    HolderIsCounted(s.workers, f, Thread, i);
    HolderIsCounted(s.workers, f, Thread, j);
  }

  /** When stop has returned every worker has exited, everything dispatched has come back, and
      the list is exactly what was pushed after the last worker looked, none of it by a fiber
      body.  So everything scheduled was dispatched if and only if nothing was pushed after
      that look; in particular if only fiber bodies pushed after m_stopping was set. */
  lemma StopDrains(s: State, steps: seq<Step>)
    requires Init(s) && IsRun(s, steps) && s.workers != []
    requires After(s, steps).stopper == Done
    ensures var s' := After(s, steps);
            && (forall i :: 0 <= i < |s'.workers| ==> s'.workers[i] == Exited)
            && multiset(s'.entered) == multiset(s'.returned)
            && s'.queue == s'.since
            && multiset(s'.queue) <= multiset(s'.stray)
            && (multiset(s'.scheduled) == multiset(s'.entered) <==> s'.since == [])
            && (s'.stray == [] ==> s'.queue == [] && multiset(s'.scheduled) == multiset(s'.entered))
  {
    InitEstablishesInv(s);
    RunKeepsInv(s, steps);
    RunKeepsWorkers(s, steps);
    var s' := After(s, steps);
    assert AllOut(s'.workers);
    EverythingIsBack(s');
    if s'.queue != [] {
      assert multiset(s'.queue)[s'.queue[0]] > 0;
    }
  }

  /** With no worker on the way to or on a fiber, what was scheduled is listed or dispatched. */
  lemma EverythingIsBack(s: State)
    requires Conservation(s) && forall i :: 0 <= i < |s.workers| ==> Free(s.workers[i])
    ensures multiset(s.scheduled) == multiset(s.queue) + multiset(s.entered)
    ensures multiset(s.entered) == multiset(s.returned)
  {
    forall f ensures multiset(s.scheduled)[f] == multiset(s.queue)[f] + multiset(s.entered)[f]
             ensures multiset(s.entered)[f] == multiset(s.returned)[f]
    {
      assert Conserved(s, f);
      NobodyHolds(s.workers, f, Hand);
      NobodyHolds(s.workers, f, Thread);
    }
  }
}
