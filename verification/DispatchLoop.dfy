/**
 * The dispatch loop as code: the variables it updates, and the stretch of code it runs between one
 * await and the next. Each stretch is shown to be a step of the transition system in `Dispatch`.
 */
module DispatchLoop {
  import opened Basics
  import opened Backoff
  import opened Dispatch

  class Loop<J(==)> {
    const cfg: Config
    var phase: Phase
    var active: set<nat>
    var consecutiveFailures: nat
    var lastFailureLoggedAt: int
    var handles: nat

    /** The history the transition system keeps, of which the loop itself remembers only its variables. */
    ghost var model: State<J>

    ghost predicate Valid()
      reads this
    {
      && Inv(cfg, model)
      && phase == model.phase && active == model.active && handles == |model.started|
      && consecutiveFailures == model.consecutiveFailures && lastFailureLoggedAt == model.lastFailureLoggedAt
    }

    constructor (cfg: Config)
      ensures Valid() && model == Init() && this.cfg == cfg
    {
      this.cfg := cfg;
      phase, active, handles := Guarding, {}, 0;
      consecutiveFailures, lastFailureLoggedAt := 0, 0;
      model := Init();
      InitSound<J>(cfg);
    }

    /** The top of the loop: stop, wait for a slot, or claim. */
    method Check(running: bool)
      requires Valid() && phase == Guarding
      modifies this
      ensures Valid() && model == Next(cfg, old(model), Event.Check(running))
    {
      StepKeeps(cfg, model, Event.Check(running));
      if !running {
        phase := Draining;
      } else if |active| >= cfg.concurrency {
        phase := Racing(active, None);
      } else {
        phase := Claiming;
      }
      model := Next(cfg, model, Event.Check(running));
    }

    /** The catch around the claim: one more failure, logged if it is the first or the last log is old enough. */
    method ClaimFailed(at: int, throws: bool) returns (logged: bool)
      requires Valid() && phase == Claiming && at >= model.clock
      modifies this
      ensures Valid() && model == Next(cfg, old(model), Answered(Failed, at, throws))
      ensures logged <==> |model.streak.loggedAt| > |old(model).streak.loggedAt|
    {
      hide Inv, BackoffDelay;
      StepKeeps(cfg, model, Answered(Failed, at, throws));
      logged := false;
      consecutiveFailures := consecutiveFailures + 1;
      if consecutiveFailures == 1 || at - lastFailureLoggedAt >= REPEAT_FAILURE_LOG_AFTER {
        lastFailureLoggedAt := at;
        logged := true;
      }
      phase := Sleeping(BackoffDelay(cfg.idleDelay, consecutiveFailures));
      model := Next(cfg, model, Answered(Failed, at, throws));
    }

    /** A claim that answered null: the streak of failures is over, and the loop sleeps. */
    method ClaimedNothing(at: int, throws: bool)
      requires Valid() && phase == Claiming
      modifies this
      ensures Valid() && model == Next(cfg, old(model), Answered(Nothing, at, throws))
    {
      hide Inv, BackoffDelay;
      StepKeeps(cfg, model, Answered(Nothing, at, throws));
      if consecutiveFailures > 0 {
        consecutiveFailures := 0;
        lastFailureLoggedAt := 0;
      }
      phase := Sleeping(cfg.idleDelay);
      model := Next(cfg, model, Answered(Nothing, at, throws));
    }

    /** A claimed job: its handler is started, and its error, if it throws at once, is the loop's. */
    method ClaimedJob(job: J, at: int, throws: bool)
      requires Valid() && phase == Claiming
      modifies this
      ensures Valid() && model == Next(cfg, old(model), Answered(Job(job), at, throws))
    {
      hide Inv, BackoffDelay;
      StepKeeps(cfg, model, Answered(Job(job), at, throws));
      if consecutiveFailures > 0 {
        consecutiveFailures := 0;
        lastFailureLoggedAt := 0;
      }
      if throws {
        phase := Threw;
      } else {
        active := active + {handles};
        phase := Guarding;
      }
      handles := handles + 1;
      model := Next(cfg, model, Answered(Job(job), at, throws));
    }

    /** From the claim's answer to the next await, or to the handler's error; says whether a failure was logged. */
    method Answer(answer: Answer<J>, at: int, throws: bool) returns (logged: bool)
      requires Valid() && phase == Claiming && (answer.Failed? ==> at >= model.clock)
      modifies this
      ensures Valid() && model == Next(cfg, old(model), Answered(answer, at, throws))
      ensures logged ==> answer.Failed?
      ensures answer.Failed? ==> (logged <==> |model.streak.loggedAt| > |old(model).streak.loggedAt|)
    {
      hide Next, Inv;
      logged := false;
      match answer {
        case Failed =>
          logged := ClaimFailed(at, throws);
        case Nothing =>
          ClaimedNothing(at, throws);
        case Job(job) =>
          ClaimedJob(job, at, throws);
      }
    }

    /** A sleep has ended: round again. */
    method Wake()
      requires Valid() && phase.Sleeping?
      modifies this
      ensures Valid() && model == Next(cfg, old(model), Woken)
    {
      hide Inv, StageOf;
      StepKeeps(cfg, model, Woken);
      phase := Guarding;
      model := Next(cfg, model, Woken);
    }

    /** The race is decided. Its error would end the loop, and there is none: the loop goes round again. */
    method ResumeRace(outcome: Outcome)
      requires Valid() && Enabled(model, RaceWon) && StageOf(model, model.phase.first.value) == Removed(outcome)
      modifies this
      ensures Valid() && model == Next(cfg, old(model), RaceWon) && phase == Guarding
    {
      hide Inv;
      StepKeeps(cfg, model, RaceWon);
      RaceGoesRound(cfg, model);
      phase := if outcome.Rejected? then Threw else Guarding;
      model := Next(cfg, model, RaceWon);
    }

    /** A handler's own promise settles, well or not; no code of the loop is involved. */
    method RunSettles(handle: nat, outcome: Outcome)
      requires Valid() && Enabled(model, RunEnds(handle, outcome))
      modifies this
      ensures Valid() && model == Next(cfg, old(model), RunEnds(handle, outcome))
      ensures phase == old(phase) && active == old(active) && consecutiveFailures == old(consecutiveFailures)
    {
      hide Inv, StageOf;
      StepKeeps(cfg, model, RunEnds(handle, outcome));
      model := Next(cfg, model, RunEnds(handle, outcome));
    }

    /** The `catch` callback, for a handler that rejected: it logs, and changes nothing of the loop's. */
    method CatchCallback(handle: nat, outcome: Outcome) returns (logged: bool)
      requires Valid() && Enabled(model, CatchRuns(handle)) && StageOf(model, handle) == Ended(outcome)
      modifies this
      ensures Valid() && model == Next(cfg, old(model), CatchRuns(handle))
      ensures logged <==> StageOf(old(model), handle) == Ended(Rejected)
      ensures phase == old(phase) && active == old(active) && consecutiveFailures == old(consecutiveFailures)
    {
      hide Inv, StageOf;
      StepKeeps(cfg, model, CatchRuns(handle));
      logged := outcome.Rejected?;
      model := Next(cfg, model, CatchRuns(handle));
    }

    /** The `finally` callback: the handle leaves the active set, and a race it was the first to settle is decided. */
    method FinallyCallback(handle: nat)
      requires Valid() && Enabled(model, FinallyRuns(handle))
      modifies this
      ensures Valid() && model == Next(cfg, old(model), FinallyRuns(handle))
      ensures active == old(active) - {handle} && consecutiveFailures == old(consecutiveFailures)
    {
      hide Inv, StageOf;
      StepKeeps(cfg, model, FinallyRuns(handle));
      active := active - {handle};
      phase := Raced(phase, handle);
      model := Next(cfg, model, FinallyRuns(handle));
    }

    /** The drain is over: the function returns. */
    method Return()
      requires Valid() && phase == Draining && active == {}
      modifies this
      ensures Valid() && model == Next(cfg, old(model), Drained)
      ensures model.settled == Handles(|JobsOf(model.answers)|)
    {
      hide Inv, JobsOf, Handles;
      StepKeeps(cfg, model, Drained);
      DrainedIsSettled(cfg, model);
      phase := Returned;
      model := Next(cfg, model, Drained);
    }
  }
}
