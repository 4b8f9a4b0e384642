/** The locked blocks of Scheduler as methods on its fields, and run by a worker that nobody
    disturbs (server/scheduler.h, server/scheduler.cpp).  SchedulerProtocol says how these blocks
    interleave. */
module SchedulerQueue {
  import opened Wrappers
  import opened SchedulerProtocol
  import Progress = SchedulerProgress

  class Scheduler {
    var fibers: seq<Fiber>
    var stopping: bool
    var entered: seq<Fiber>   // the fibers switched into, in order

    /** The fields agree with a state of the protocol. */
    ghost predicate Shows(s: State)
      reads this
    {
      s.queue == fibers && s.stopping == stopping && s.entered == entered
    }

    /** The fields that start leaves. */
    constructor (waiting: seq<Fiber>)
      ensures fibers == waiting && !stopping && entered == []
    {
      fibers, stopping, entered := waiting, false, [];
    }

    /** The locked block of schedule, which is the push step of a producer. */
    method Schedule(fiber: Fiber) returns (needTickle: bool)
      modifies this`fibers
      ensures fibers == old(fibers) + [fiber] && needTickle == (old(fibers) == [])
      ensures forall s: State, p: nat, home: Option<nat> ::
                old(Shows(s)) && p < |s.producers| && s.producers[p] == SchedulerProtocol.Push(fiber, home) ==>
                Shows(ScheduleStep(s, p, None)) && ScheduleStep(s, p, None).producers[p] == Release(needTickle, home)
    {
      needTickle := fibers == [];
      fibers := fibers + [fiber];
    }

    /** The first locked block of stop, which is the step that sets the flag. */
    method SetStopping()
      modifies this`stopping
      ensures stopping
      ensures forall s: State :: old(Shows(s)) && s.stopper == SetFlag ==> Shows(DoStop(s))
    {
      stopping := true;
    }

    /** What run does behind wait, which is the take step of a worker. */
    method TakeLast() returns (got: Option<Fiber>)
      modifies this`fibers
      ensures if old(fibers) == [] then got == None && fibers == []
              else got.Some? && old(fibers) == fibers + [got.value]
      ensures forall s: State, w: nat :: old(Shows(s)) && w < |s.workers| && s.workers[w] == SchedulerProtocol.Take ==>
                Shows(RunStep(s, w)) && RunStep(s, w).workers[w] == Unlock(got)
    {
      got := None;
      if fibers != [] {
        got := Some(fibers[|fibers| - 1]);
        fibers := fibers[..|fibers| - 1];
      }
    }

    /** run, by a worker that nobody disturbs: it dispatches the list back to front, and then
        leaves if the flag is set and falls asleep in wait if it is not. */
    method Run() returns (leaves: bool)
      modifies this`fibers, this`entered
      ensures fibers == [] && entered == old(entered) + Progress.Reversed(old(fibers))
      ensures leaves == stopping
    {
      while true
        invariant entered + Progress.Reversed(fibers) == old(entered) + Progress.Reversed(old(fibers))
        decreases |fibers|
      {
        if fibers == [] && !stopping {
          return false;
        }
        ghost var before := fibers;
        var fiber := TakeLast();
        if fiber.Some? {
          assert before[|before| - 1] == fiber.value && before[..|before| - 1] == fibers;
          entered := entered + [fiber.value];
        } else {
          return true;
        }
      }
    }
  }
}
