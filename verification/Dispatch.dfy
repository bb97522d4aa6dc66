/**
 * The worker's dispatch loop as a transition system.
 *
 * The loop runs on one thread and gives way only where it awaits: the claim, the race, a sleep, the
 * final drain. A phase is such a point; between two of them the code is one step. Handlers end at any
 * time, well or not, or throw before they give a promise at all; the claim answers what it likes; the
 * stop flag is read at each check. The promises of a handler, of the `catch` behind it and of the
 * `finally` behind that settle one after another, other steps in between, and the last of them is the
 * handle that is raced. A job is identified by the position at which it was started.
 */
module Dispatch {
  import opened Basics
  import opened Backoff

  datatype Config = Config(concurrency: int, idleDelay: int)

  datatype Answer<J> = Job(job: J) | Nothing | Failed

  /** How a promise settles. */
  datatype Outcome = Fulfilled | Rejected

  /** What a promise made by `.catch` of a callback that returns settles to: a rejection is handled. */
  function CatchOf(p: Outcome): Outcome {
    match p
    case Fulfilled => Fulfilled
    case Rejected => Fulfilled
  }

  /** What a promise made by `.finally` of a callback that returns settles to: either outcome passes through. */
  function FinallyOf(p: Outcome): Outcome {
    p
  }

  /** How far a handler's chain of promises has settled: none, its own, the guarded one, the handle. */
  datatype Stage = Running | Ended(run: Outcome) | Caught(guarded: Outcome) | Removed(handle: Outcome)

  /**
   * Where the loop is; a race remembers the handles it was started on and which of them settled first. A loop
   * that threw has ended without draining.
   */
  datatype Phase =
    | Guarding
    | Claiming
    | Racing(runners: set<nat>, first: Option<nat>)
    | Sleeping(ms: int)
    | Draining
    | Returned
    | Threw

  /** A run of consecutive claim failures: when each happened, and when one was logged. */
  datatype Streak = Streak(failedAt: seq<int>, loggedAt: seq<int>)

  datatype State<J> = State(
    phase: Phase,
    active: set<nat>,
    consecutiveFailures: nat,
    lastFailureLoggedAt: int,
    answers: seq<Answer<J>>,
    started: seq<J>,
    stages: map<nat, Stage>,
    settled: set<nat>,
    thrown: set<nat>,
    clock: int,
    streak: Streak,
    pastStreaks: seq<Streak>)

  datatype Event<J> =
    | Check(running: bool)
    | Answered(answer: Answer<J>, at: int, throws: bool)
    | RaceWon
    | Woken
    | RunEnds(handle: nat, outcome: Outcome)
    | CatchRuns(handle: nat)
    | FinallyRuns(handle: nat)
    | Drained

  function Init<J>(): State<J> {
    State(Guarding, {}, 0, 0, [], [], map[], {}, {}, 0, Streak([], []), [])
  }

  function StageOf<J>(s: State<J>, h: nat): Stage {
    if h in s.stages then s.stages[h] else Running
  }

  /** Which events can happen. The clock the loop reads never goes back. */
  ghost predicate Enabled<J>(s: State<J>, e: Event<J>) {
    match e
    case Check(_) => s.phase.Guarding?
    case Answered(answer, at, _) => s.phase.Claiming? && (answer.Failed? ==> at >= s.clock)
    case RaceWon => s.phase.Racing? && s.phase.first.Some?
    case Woken => s.phase.Sleeping?
    case RunEnds(h, _) => h in s.active && StageOf(s, h).Running?
    case CatchRuns(h) => h in s.active && StageOf(s, h).Ended?
    case FinallyRuns(h) => h in s.active && StageOf(s, h).Caught?
    case Drained => s.phase.Draining? && s.active == {}
  }

  /** The catch branch: count, and log if this is the first failure or the last log is five minutes old. */
  function AfterFailure<J>(cfg: Config, s: State<J>, at: int): State<J> {
    var failures := s.consecutiveFailures + 1;
    var logs := failures == 1 || at - s.lastFailureLoggedAt >= REPEAT_FAILURE_LOG_AFTER;
    s.(phase := Sleeping(BackoffDelay(cfg.idleDelay, failures)),
       consecutiveFailures := failures,
       lastFailureLoggedAt := if logs then at else s.lastFailureLoggedAt,
       clock := at,
       streak := Streak(s.streak.failedAt + [at], s.streak.loggedAt + if logs then [at] else []))
  }

  /** A claim that answered at all ends the streak of failures. */
  function AfterRecovery<J>(s: State<J>): State<J> {
    if s.consecutiveFailures > 0 then
      s.(consecutiveFailures := 0, lastFailureLoggedAt := 0,
         streak := Streak([], []), pastStreaks := s.pastStreaks + [s.streak])
    else s
  }

  /** A handler that gives a promise is in flight; one that throws first takes the loop with it. */
  function Started<J>(s: State<J>, job: J, throws: bool): State<J> {
    var h := |s.started|;
    if throws then s.(phase := Threw, started := s.started + [job], thrown := s.thrown + {h})
    else s.(phase := Guarding, started := s.started + [job], active := s.active + {h}, stages := s.stages[h := Running])
  }

  /** A race is decided by the first of its runners to settle. */
  function Raced(phase: Phase, h: nat): Phase {
    if phase.Racing? && phase.first.None? && h in phase.runners then Racing(phase.runners, Some(h)) else phase
  }

  function Next<J>(cfg: Config, s: State<J>, e: Event<J>): State<J> {
    match e
    case Check(running) =>
      if !running then s.(phase := Draining)
      else if |s.active| >= cfg.concurrency then s.(phase := Racing(s.active, None))
      else s.(phase := Claiming)
    case Answered(answer, at, throws) =>
      var s := s.(answers := s.answers + [answer]);
      (match answer
       case Failed => AfterFailure(cfg, s, at)
       case Nothing => AfterRecovery(s).(phase := Sleeping(cfg.idleDelay))
       case Job(job) => Started(AfterRecovery(s), job, throws))
    case RaceWon =>
      if s.phase.Racing? && s.phase.first.Some? && StageOf(s, s.phase.first.value) == Removed(Rejected) then s.(phase := Threw)
      else s.(phase := Guarding)
    case Woken => s.(phase := Guarding)
    case RunEnds(h, outcome) => s.(stages := s.stages[h := Ended(outcome)])
    case CatchRuns(h) =>
      s.(stages := s.stages[h := Caught(CatchOf(if StageOf(s, h).Ended? then StageOf(s, h).run else Fulfilled))])
    case FinallyRuns(h) =>
      s.(active := s.active - {h}, settled := s.settled + {h}, phase := Raced(s.phase, h),
         stages := s.stages[h := Removed(FinallyOf(if StageOf(s, h).Caught? then StageOf(s, h).guarded else Fulfilled))])
    case Drained => s.(phase := Returned)
  }

  ghost predicate Legal<J(!new)>(cfg: Config, s: State<J>, es: seq<Event<J>>)
    decreases |es|
  {
    es == [] || (Enabled(s, es[0]) && Legal(cfg, Next(cfg, s, es[0]), es[1..]))
  }

  function Run<J>(cfg: Config, s: State<J>, es: seq<Event<J>>): State<J>
    decreases |es|
  {
    if es == [] then s else Run(cfg, Next(cfg, s, es[0]), es[1..])
  }

  // ---------------------------------------------------------------- What holds in every state

  function Handles(n: nat): (handles: set<nat>)
    ensures |handles| == n && forall h: nat :: h in handles <==> h < n
  {
    if n == 0 then {} else Handles(n - 1) + {n - 1}
  }

  /** The jobs among the claim's answers, in order: every answer that was not null, whatever its value. */
  function JobsOf<J>(answers: seq<Answer<J>>): seq<J> {
    if answers == [] then []
    else JobsOf(answers[..|answers| - 1])
         + (if answers[|answers| - 1].Job? then [answers[|answers| - 1].job] else [])
  }

  /** How many answers in a row, counting back from the latest, were failures. */
  function TrailingFailures<J>(answers: seq<Answer<J>>): nat {
    if answers == [] || !answers[|answers| - 1].Failed? then 0
    else 1 + TrailingFailures(answers[..|answers| - 1])
  }

  const FIVE_MINUTES := 5 * 60 * 1000

  /**
   * A streak is logged as promised: its first failure is logged, no two logs are closer than five
   * minutes, and every failure is within five minutes of a log at or before it.
   */
  ghost predicate WellLogged(k: Streak) {
    && (k.failedAt != [] ==> k.loggedAt != [] && k.loggedAt[0] == k.failedAt[0])
    && (forall i, j | 0 <= i < j < |k.loggedAt| :: k.loggedAt[i] + FIVE_MINUTES <= k.loggedAt[j])
    && (forall f | f in k.failedAt :: exists l | l in k.loggedAt :: l <= f < l + FIVE_MINUTES)
  }

  ghost predicate LogsCurrent<J>(s: State<J>) {
    && |s.streak.failedAt| == s.consecutiveFailures
    && WellLogged(s.streak)
    && (forall k | k in s.pastStreaks :: k.failedAt != [] && WellLogged(k))
    && (s.consecutiveFailures == 0 ==> s.streak.loggedAt == [])
    && (s.consecutiveFailures > 0 ==>
         && s.streak.loggedAt != []
         && s.streak.loggedAt[|s.streak.loggedAt| - 1] == s.lastFailureLoggedAt <= s.clock)
  }

  ghost predicate PhaseSound<J>(cfg: Config, s: State<J>) {
    match s.phase
    case Guarding => true
    case Claiming => |s.active| < cfg.concurrency
    case Racing(runners, first) =>
      && s.active <= runners && |runners| >= cfg.concurrency
      && (if first.None? then runners <= s.active else first.value in s.settled)
    case Sleeping(ms) =>
      && s.answers != [] && !s.answers[|s.answers| - 1].Job?
      && ms == if s.answers[|s.answers| - 1].Failed? then BackoffDelay(cfg.idleDelay, TrailingFailures(s.answers))
               else cfg.idleDelay
    case Draining => true
    case Returned => s.active == {}
    case Threw => true
  }

  predicate Unfinished(stage: Stage) {
    stage.Running? || stage.Ended? || stage == Caught(Fulfilled)
  }

  /** Every chain in flight has a rejection at most at its own promise, and every handle that settled was fulfilled. */
  ghost predicate ChainsSound<J>(s: State<J>) {
    && (forall h | h in s.active :: Unfinished(StageOf(s, h)))
    && (forall h | h in s.settled :: StageOf(s, h) == Removed(Fulfilled))
  }

  /** Each started job is in flight, or has settled, or threw instead: one of the three. */
  ghost predicate Accounted(active: set<nat>, settled: set<nat>, thrown: set<nat>, started: nat) {
    active !! settled && (active + settled) !! thrown && active + settled + thrown == Handles(started)
  }

  /** The parts of the invariant about jobs and waits, which no log affects. */
  ghost predicate JobsCurrent<J>(cfg: Config, s: State<J>) {
    && |s.active| <= (if cfg.concurrency > 0 then cfg.concurrency else 0)
    && s.started == JobsOf(s.answers)
    && Accounted(s.active, s.settled, s.thrown, |s.started|)
    && (s.thrown == {} <==> !s.phase.Threw?)
    && ChainsSound(s)
    && s.consecutiveFailures == TrailingFailures(s.answers)
    && PhaseSound(cfg, s)
  }

  ghost predicate Inv<J>(cfg: Config, s: State<J>) {
    JobsCurrent(cfg, s) && LogsCurrent(s)
  }

  lemma AnswerAppended<J>(answers: seq<Answer<J>>, a: Answer<J>)
    ensures JobsOf(answers + [a]) == JobsOf(answers) + (if a.Job? then [a.job] else [])
    ensures TrailingFailures(answers + [a]) == if a.Failed? then 1 + TrailingFailures(answers) else 0
  {
    assert (answers + [a])[..|answers|] == answers;
  }

  /** A failure far enough from the last log, or the first, is logged. */
  lemma LoggedAgain(k: Streak, at: int)
    requires WellLogged(k) && (k.failedAt == [] <==> k.loggedAt == [])
    requires k.loggedAt != [] ==> k.loggedAt[|k.loggedAt| - 1] + FIVE_MINUTES <= at
    ensures WellLogged(Streak(k.failedAt + [at], k.loggedAt + [at]))
  {
    var t := Streak(k.failedAt + [at], k.loggedAt + [at]);
    assert t.loggedAt[|k.loggedAt|] == at;
    forall f | f in t.failedAt
      ensures exists l | l in t.loggedAt :: l <= f < l + FIVE_MINUTES
    {
      if f in k.failedAt {
        var m :| m in k.loggedAt && m <= f < m + FIVE_MINUTES;
        assert m in t.loggedAt;
      } else {
        assert at in t.loggedAt && at <= f < at + FIVE_MINUTES;
      }
    }
  }

  /** One within five minutes of the last log is not. */
  lemma NotLoggedAgain(k: Streak, at: int)
    requires WellLogged(k) && k.failedAt != [] && k.loggedAt != []
    requires k.loggedAt[|k.loggedAt| - 1] <= at < k.loggedAt[|k.loggedAt| - 1] + FIVE_MINUTES
    ensures WellLogged(Streak(k.failedAt + [at], k.loggedAt))
  {
    var t, last := Streak(k.failedAt + [at], k.loggedAt), k.loggedAt[|k.loggedAt| - 1];
    forall f | f in t.failedAt
      ensures exists l | l in t.loggedAt :: l <= f < l + FIVE_MINUTES
    {
      if f !in k.failedAt {
        assert last in t.loggedAt && last <= f < last + FIVE_MINUTES;
      }
    }
  }

  lemma FailureKeepsLogs<J>(cfg: Config, s: State<J>, at: int)
    requires LogsCurrent(s) && at >= s.clock
    ensures LogsCurrent(AfterFailure(cfg, s, at))
  {
    hide WellLogged, BackoffDelay;
    var k := s.streak;
    LogsTogether(k);
    if s.consecutiveFailures == 0 || at - s.lastFailureLoggedAt >= REPEAT_FAILURE_LOG_AFTER {
      LoggedAgain(k, at);
    } else {
      NotLoggedAgain(k, at);
      assert k.loggedAt + [] == k.loggedAt;
    }
  }

  lemma LogsTogether(k: Streak)
    requires WellLogged(k)
    ensures k.failedAt != [] ==> k.loggedAt != []
  {
  }

  lemma RecoveryKeepsLogs<J>(s: State<J>)
    requires LogsCurrent(s)
    ensures LogsCurrent(AfterRecovery(s))
  {
  }

  lemma OneMoreHandle(active: set<nat>, settled: set<nat>, n: nat)
    requires Accounted(active, settled, {}, n)
    ensures Accounted(active + {n}, settled, {}, n + 1) && Accounted(active, settled, {n}, n + 1)
    ensures n !in active && n !in settled && |active + {n}| == |active| + 1
  {
    assert active + settled + {} == active + settled;
    assert n !in active && n !in settled;
    assert active + {n} + settled + {} == Handles(n) + {n};
  }

  /** At the return everything claimed has settled. */
  lemma DrainedIsSettled<J>(cfg: Config, s: State<J>)
    requires Inv(cfg, s) && s.phase.Draining? && s.active == {}
    ensures Next(cfg, s, Drained).settled == Handles(|JobsOf(s.answers)|)
    ensures Next(cfg, s, Drained).answers == s.answers
  {
    hide JobsOf, Handles, TrailingFailures, BackoffDelay, ChainsSound;
    assert s.active + s.settled + s.thrown == s.settled;
  }

  lemma OneHandleSettles(active: set<nat>, settled: set<nat>, thrown: set<nat>, n: nat, h: nat)
    requires Accounted(active, settled, thrown, n) && h in active
    ensures Accounted(active - {h}, settled + {h}, thrown, n) && |active - {h}| == |active| - 1
  {
    assert active - {h} + (settled + {h}) == active + settled;
  }

  /** A claim that gave no job leaves the jobs as they were. */
  lemma WaitKeepsJobs<J>(cfg: Config, s: State<J>, answer: Answer<J>, at: int, throws: bool)
    requires JobsCurrent(cfg, s) && s.phase.Claiming? && !answer.Job?
    ensures JobsCurrent(cfg, Next(cfg, s, Answered(answer, at, throws)))
  {
    hide BackoffDelay, JobsOf, TrailingFailures, Handles, ChainsSound, Accounted;
    AnswerAppended(s.answers, answer);
    var t := Next(cfg, s, Answered(answer, at, throws));
    assert t.active == s.active && t.settled == s.settled && t.started == s.started && t.stages == s.stages;
    SameChains(s, t);
  }

  /** A recovery touches the failure count and the log, and nothing about jobs. */
  lemma RecoveryKeepsRest<J>(s: State<J>)
    ensures var u := AfterRecovery(s);
            && u.active == s.active && u.settled == s.settled && u.thrown == s.thrown && u.stages == s.stages
            && u.started == s.started && u.answers == s.answers && u.phase == s.phase && u.consecutiveFailures == 0
  {
  }

  lemma NextStarts<J>(cfg: Config, s: State<J>, job: J, at: int, throws: bool)
    ensures Next(cfg, s, Answered(Job(job), at, throws))
            == Started(AfterRecovery(s.(answers := s.answers + [Job(job)])), job, throws)
  {
    hide AfterRecovery, Started;
  }

  /** A claim whose job can be started: everything the invariant says but for the job itself. */
  ghost predicate ReadyToStart<J>(cfg: Config, u: State<J>, job: J) {
    && u.consecutiveFailures == TrailingFailures(u.answers) && JobsOf(u.answers) == u.started + [job]
    && |u.active| < cfg.concurrency && u.phase.Claiming? && u.thrown == {}
    && Accounted(u.active, u.settled, {}, |u.started|) && ChainsSound(u)
  }

  lemma FlyingIsCurrent<J>(cfg: Config, u: State<J>, job: J)
    requires ReadyToStart(cfg, u, job)
    ensures JobsCurrent(cfg, Started(u, job, false))
  {
    hide BackoffDelay, JobsOf, TrailingFailures, Handles, ChainsSound, Accounted;
    OneMoreHandle(u.active, u.settled, |u.started|);
    StartKeepsChains(u, job, false);
    assert |u.started + [job]| == |u.started| + 1;
  }

  lemma ThrownIsCurrent<J>(cfg: Config, u: State<J>, job: J)
    requires ReadyToStart(cfg, u, job)
    ensures JobsCurrent(cfg, Started(u, job, true))
  {
    hide BackoffDelay, JobsOf, TrailingFailures, Handles, ChainsSound, Accounted;
    OneMoreHandle(u.active, u.settled, |u.started|);
    StartKeepsChains(u, job, true);
    assert |u.started + [job]| == |u.started| + 1;
    assert {} + {|u.started|} == {|u.started|};
  }

  lemma StartKeepsJobs<J>(cfg: Config, s: State<J>, job: J, at: int, throws: bool)
    requires JobsCurrent(cfg, s) && s.phase.Claiming?
    ensures JobsCurrent(cfg, Next(cfg, s, Answered(Job(job), at, throws)))
  {
    hide BackoffDelay, JobsOf, TrailingFailures, Handles, ChainsSound, Accounted, AfterRecovery, Next, Started;
    var v := s.(answers := s.answers + [Job(job)]);
    NextStarts(cfg, s, job, at, throws);
    AnswerAppended(s.answers, Job(job));
    RecoveryKeepsRest(v);
    SameChains(s, AfterRecovery(v));
    if throws {
      ThrownIsCurrent(cfg, AfterRecovery(v), job);
    } else {
      FlyingIsCurrent(cfg, AfterRecovery(v), job);
    }
  }

  lemma SameChains<J>(s: State<J>, t: State<J>)
    requires s.active == t.active && s.settled == t.settled && s.stages == t.stages
    ensures ChainsSound(s) == ChainsSound(t)
  {
  }

  lemma StartKeepsChains<J>(s: State<J>, job: J, throws: bool)
    requires ChainsSound(s) && |s.started| !in s.active && |s.started| !in s.settled
    ensures ChainsSound(Started(s, job, throws))
  {
  }

  /** The next promise of a chain settles. */
  ghost predicate ChainMoves<J>(s: State<J>, e: Event<J>) {
    (e.RunEnds? || e.CatchRuns? || e.FinallyRuns?) && Enabled(s, e)
  }

  lemma ChainKeepsChains<J>(cfg: Config, s: State<J>, e: Event<J>)
    requires ChainsSound(s) && ChainMoves(s, e)
    ensures ChainsSound(Next(cfg, s, e))
  {
    var t := Next(cfg, s, e);
    assert forall h | h != e.handle :: StageOf(t, h) == StageOf(s, h);
    assert Unfinished(StageOf(s, e.handle));
    match e
    case RunEnds(h, outcome) => assert StageOf(t, h) == Ended(outcome);
    case CatchRuns(h) => assert StageOf(t, h) == Caught(Fulfilled);
    case FinallyRuns(h) => assert StageOf(t, h) == Removed(Fulfilled);
  }

  lemma SettlingKeepsJobs<J>(cfg: Config, s: State<J>, e: Event<J>)
    requires JobsCurrent(cfg, s) && ChainMoves(s, e) && !e.FinallyRuns?
    ensures JobsCurrent(cfg, Next(cfg, s, e))
  {
    hide BackoffDelay, JobsOf, TrailingFailures, Handles, ChainsSound, StageOf, Accounted;
    ChainKeepsChains(cfg, s, e);
    var t := Next(cfg, s, e);
    assert t == s.(stages := t.stages);
  }

  lemma RemovalKeepsJobs<J>(cfg: Config, s: State<J>, h: nat)
    requires JobsCurrent(cfg, s) && ChainMoves(s, FinallyRuns(h))
    ensures JobsCurrent(cfg, Next(cfg, s, FinallyRuns(h)))
  {
    hide BackoffDelay, JobsOf, TrailingFailures, Handles, ChainsSound, StageOf, Accounted;
    ChainKeepsChains(cfg, s, FinallyRuns(h));
    var t := Next(cfg, s, FinallyRuns(h));
    OneHandleSettles(s.active, s.settled, s.thrown, |s.started|, h);
    RemovalKeepsPhase(cfg, s, h);
  }

  lemma RemovalKeepsPhase<J>(cfg: Config, s: State<J>, h: nat)
    requires PhaseSound(cfg, s) && h in s.active
    ensures PhaseSound(cfg, Next(cfg, s, FinallyRuns(h)))
  {
    hide BackoffDelay, TrailingFailures, StageOf;
    var t := Next(cfg, s, FinallyRuns(h));
    assert |t.active| < |s.active|;
  }

  lemma QuietKeepsJobs<J>(cfg: Config, s: State<J>, e: Event<J>)
    requires JobsCurrent(cfg, s) && Enabled(s, e) && (e.Check? || e.Woken? || e.Drained?)
    ensures JobsCurrent(cfg, Next(cfg, s, e))
  {
    hide BackoffDelay, JobsOf, TrailingFailures, Handles, ChainsSound, StageOf, Accounted;
    SameChains(s, Next(cfg, s, e));
  }

  lemma RaceKeepsJobs<J>(cfg: Config, s: State<J>)
    requires JobsCurrent(cfg, s) && Enabled(s, RaceWon)
    ensures JobsCurrent(cfg, Next(cfg, s, RaceWon)) && Next(cfg, s, RaceWon).phase == Guarding
  {
    hide BackoffDelay, JobsOf, TrailingFailures, Handles, Accounted;
    SameChains(s, Next(cfg, s, RaceWon));
  }

  lemma AnswerKeepsLogs<J>(cfg: Config, s: State<J>, answer: Answer<J>, at: int, throws: bool)
    requires LogsCurrent(s) && (answer.Failed? ==> at >= s.clock)
    ensures LogsCurrent(Next(cfg, s, Answered(answer, at, throws)))
  {
    hide BackoffDelay, LogsCurrent;
    var t, u := Next(cfg, s, Answered(answer, at, throws)), s.(answers := s.answers + [answer]);
    SameLogs(s, u);
    if answer.Failed? {
      FailureKeepsLogs(cfg, u, at);
    } else {
      RecoveryKeepsLogs(u);
      SameLogs(AfterRecovery(u), t);
    }
  }

  /** Every step keeps every part of the invariant. */
  lemma StepKeeps<J>(cfg: Config, s: State<J>, e: Event<J>)
    requires Inv(cfg, s) && Enabled(s, e)
    ensures Inv(cfg, Next(cfg, s, e))
  {
    hide LogsCurrent, JobsCurrent, Next;
    JobsKept(cfg, s, e);
    if e.Answered? {
      AnswerKeepsLogs(cfg, s, e.answer, e.at, e.throws);
    } else {
      OtherwiseSameLogs(cfg, s, e);
    }
  }

  lemma JobsKept<J>(cfg: Config, s: State<J>, e: Event<J>)
    requires JobsCurrent(cfg, s) && Enabled(s, e)
    ensures JobsCurrent(cfg, Next(cfg, s, e))
  {
    hide Next, JobsCurrent, StageOf;
    match e
    case Answered(answer, at, throws) =>
      if answer.Job? {
        StartKeepsJobs(cfg, s, answer.job, at, throws);
      } else {
        WaitKeepsJobs(cfg, s, answer, at, throws);
      }
    case RaceWon => RaceKeepsJobs(cfg, s);
    case RunEnds(_, _) => SettlingKeepsJobs(cfg, s, e);
    case CatchRuns(_) => SettlingKeepsJobs(cfg, s, e);
    case FinallyRuns(h) => RemovalKeepsJobs(cfg, s, h);
    case Check(_) => QuietKeepsJobs(cfg, s, e);
    case Woken => QuietKeepsJobs(cfg, s, e);
    case Drained => QuietKeepsJobs(cfg, s, e);
  }

  lemma OtherwiseSameLogs<J>(cfg: Config, s: State<J>, e: Event<J>)
    requires !e.Answered?
    ensures LogsCurrent(Next(cfg, s, e)) == LogsCurrent(s)
  {
    hide LogsCurrent, BackoffDelay, StageOf;
    SameLogs(s, Next(cfg, s, e));
  }

  lemma SameLogs<J>(s: State<J>, t: State<J>)
    requires s.consecutiveFailures == t.consecutiveFailures && s.lastFailureLoggedAt == t.lastFailureLoggedAt
    requires s.clock == t.clock && s.streak == t.streak && s.pastStreaks == t.pastStreaks
    ensures LogsCurrent(s) == LogsCurrent(t)
  {
  }

  /** In every run, whatever the interleaving, every reachable state satisfies the invariant. */
  lemma {:induction false} RunsKeep<J(!new)>(cfg: Config, s: State<J>, es: seq<Event<J>>)
    requires Inv(cfg, s) && Legal(cfg, s, es)
    ensures Inv(cfg, Run(cfg, s, es))
    decreases |es|
  {
    hide Next, Inv, Enabled;
    if es != [] {
      StepKeeps(cfg, s, es[0]);
      RunsKeep(cfg, Next(cfg, s, es[0]), es[1..]);
    }
  }

  lemma InitSound<J>(cfg: Config)
    ensures Inv(cfg, Init<J>())
  {
  }

  /**
   * Over every run from the start: no more jobs run than the limit allows; the jobs started are exactly
   * the non-null claims, each once and in order; each of them is in flight, or has settled, or threw as the
   * loop did; and when the loop returns every one of them has settled.
   */
  lemma DispatchSafety<J(!new)>(cfg: Config, es: seq<Event<J>>)
    requires cfg.concurrency >= 1 && Legal(cfg, Init(), es)
    ensures var s := Run(cfg, Init(), es);
            && |s.active| <= cfg.concurrency
            && s.started == JobsOf(s.answers)
            && s.active + s.settled + s.thrown == Handles(|s.started|)
            && s.active !! s.settled && (s.active + s.settled) !! s.thrown
            && (s.phase.Returned? ==> s.settled == Handles(|JobsOf(s.answers)|))
  {
    hide LogsCurrent, BackoffDelay, Next, Legal, Run, TrailingFailures, JobsOf, ChainsSound;
    InitSound<J>(cfg);
    RunsKeep(cfg, Init(), es);
    var s := Run(cfg, Init(), es);
    assert s.active == {} && s.thrown == {} ==> s.active + s.settled + s.thrown == s.settled;
  }

  /** Over every run: the failure count is the trailing failures, each streak logged as promised, each wait as specified. */
  lemma DispatchBackoff<J(!new)>(cfg: Config, es: seq<Event<J>>)
    requires Legal(cfg, Init(), es)
    ensures var s := Run(cfg, Init(), es);
            && s.consecutiveFailures == TrailingFailures(s.answers)
            && WellLogged(s.streak) && (forall k | k in s.pastStreaks :: WellLogged(k))
            && (s.phase.Sleeping? && s.consecutiveFailures > 0 ==>
                 s.phase.ms == BackoffDelay(cfg.idleDelay, s.consecutiveFailures))
            && (s.phase.Sleeping? && s.consecutiveFailures == 0 ==> s.phase.ms == cfg.idleDelay)
  {
    hide Next, Legal, Run, Handles, JobsOf, Accounted, ChainsSound, BackoffDelay;
    InitSound<J>(cfg);
    RunsKeep(cfg, Init(), es);
  }

  // ---------------------------------------------------------------- Rejecting and throwing handlers

  lemma RaceGoesRound<J>(cfg: Config, s: State<J>)
    requires Inv(cfg, s) && Enabled(s, RaceWon)
    ensures Next(cfg, s, RaceWon).phase == Guarding
  {
    hide JobsCurrent, LogsCurrent;
    RaceKeepsJobs(cfg, s);
  }

  /** Over every run no race ends the loop, however many handlers reject: what is raced was caught first. */
  lemma RacesNeverThrow<J(!new)>(cfg: Config, es: seq<Event<J>>)
    requires Legal(cfg, Init(), es) && Enabled(Run(cfg, Init(), es), RaceWon)
    ensures var s := Run(cfg, Init(), es);
            StageOf(s, s.phase.first.value) == Removed(Fulfilled) && Next(cfg, s, RaceWon).phase == Guarding
  {
    hide LogsCurrent, BackoffDelay, Legal, Run, TrailingFailures, JobsOf, Handles;
    InitSound<J>(cfg);
    RunsKeep(cfg, Init(), es);
    RaceKeepsJobs(cfg, Run(cfg, Init(), es));
  }

  /** A handler throws instead of giving a promise. */
  predicate ThrowsAtOnce<J>(e: Event<J>) {
    e.Answered? && e.answer.Job? && e.throws
  }

  lemma {:induction false} ThrownExactly<J(!new)>(cfg: Config, s: State<J>, es: seq<Event<J>>)
    requires Legal(cfg, s, es)
    ensures Run(cfg, s, es).thrown != {} <==> s.thrown != {} || exists e | e in es :: ThrowsAtOnce(e)
    decreases |es|
  {
    if es != [] {
      assert forall e :: e in es <==> e == es[0] || e in es[1..];
      ThrownExactly(cfg, Next(cfg, s, es[0]), es[1..]);
      ThrownNext(cfg, s, es[0]);
    }
  }

  lemma ThrownNext<J>(cfg: Config, s: State<J>, e: Event<J>)
    ensures Next(cfg, s, e).thrown != {} <==> s.thrown != {} || ThrowsAtOnce(e)
  {
    hide BackoffDelay;
    if ThrowsAtOnce(e) {
      assert |s.started| in Next(cfg, s, e).thrown;
    }
  }

  /** The loop ends by an error in a run exactly when some started handler threw instead of giving a promise. */
  lemma LoopThrowsExactly<J(!new)>(cfg: Config, es: seq<Event<J>>)
    requires Legal(cfg, Init(), es)
    ensures Run(cfg, Init(), es).phase.Threw? <==> exists e | e in es :: ThrowsAtOnce(e)
  {
    hide LogsCurrent, BackoffDelay, Next, Legal, Run, TrailingFailures, JobsOf, Handles, ChainsSound;
    InitSound<J>(cfg);
    RunsKeep(cfg, Init(), es);
    ThrownExactly(cfg, Init(), es);
  }

  /** The same run, except that handlers may reject where they did not, and the reverse. */
  predicate SameButRejections<J(==)>(es: seq<Event<J>>, fs: seq<Event<J>>) {
    && |es| == |fs|
    && forall i | 0 <= i < |es| ::
         es[i] == fs[i] || (es[i].RunEnds? && fs[i].RunEnds? && es[i].handle == fs[i].handle)
  }

  function Forget(stage: Stage): Stage {
    if stage.Ended? then Ended(Fulfilled) else stage
  }

  /** The same state but for how handlers whose rejection is still to be caught ended. */
  ghost predicate SameButEndings<J>(s: State<J>, t: State<J>) {
    && s.(stages := map[]) == t.(stages := map[])
    && s.stages.Keys == t.stages.Keys
    && forall h | h in s.stages :: Forget(s.stages[h]) == Forget(t.stages[h])
  }

  /** Which handlers reject makes no difference to the loop: not to what it may do next, nor to where it gets. */
  lemma {:induction false} RejectionsDoNotMatter<J(!new)>(
      cfg: Config, s: State<J>, t: State<J>, es: seq<Event<J>>, fs: seq<Event<J>>)
    requires SameButRejections(es, fs) && SameButEndings(s, t)
    requires Legal(cfg, s, es)
    ensures Legal(cfg, t, fs)
    ensures SameButEndings(Run(cfg, s, es), Run(cfg, t, fs))
    decreases |es|
  {
    hide Next, SameButEndings, Enabled;
    if es != [] {
      RejectionMakesNoDifference(cfg, s, t, es[0], fs[0]);
      RejectionsDoNotMatter(cfg, Next(cfg, s, es[0]), Next(cfg, t, fs[0]), es[1..], fs[1..]);
    }
  }

  lemma RejectionMakesNoDifference<J>(cfg: Config, s: State<J>, t: State<J>, e: Event<J>, f: Event<J>)
    requires e == f || (e.RunEnds? && f.RunEnds? && e.handle == f.handle)
    requires SameButEndings(s, t) && Enabled(s, e)
    ensures Enabled(t, f) && SameButEndings(Next(cfg, s, e), Next(cfg, t, f))
  {
    hide BackoffDelay;
    match e
    case Answered(answer, at, throws) => SameAnswer(cfg, s, t, answer, at, throws);
    case _ =>
  }

  lemma SameAnswer<J>(cfg: Config, s: State<J>, t: State<J>, answer: Answer<J>, at: int, throws: bool)
    requires SameButEndings(s, t)
    ensures SameButEndings(Next(cfg, s, Answered(answer, at, throws)), Next(cfg, t, Answered(answer, at, throws)))
  {
    hide BackoffDelay;
  }

  // ---------------------------------------------------------------- Progress

  /** The loop has returned or thrown. */
  predicate Over<J>(s: State<J>) {
    s.phase.Returned? || s.phase.Threw?
  }

  /**
   * The loop is never stuck waiting for nothing in any run exactly when the limit admits a job: a limit
   * below one would race no jobs at all, which never settles.
   */
  lemma NeverStuckExactly<J(!new)>(cfg: Config)
    ensures (forall es: seq<Event<J>> :: Legal(cfg, Init(), es) && !Over(Run(cfg, Init(), es)) ==>
              exists e: Event<J> :: Enabled(Run(cfg, Init(), es), e))
            <==> cfg.concurrency >= 1
  {
    if cfg.concurrency >= 1 {
      forall es: seq<Event<J>> | Legal(cfg, Init(), es) && !Over(Run(cfg, Init(), es))
        ensures exists e: Event<J> :: Enabled(Run(cfg, Init(), es), e)
      {
        InitSound<J>(cfg);
        RunsKeep(cfg, Init(), es);
        SomethingEnabled(cfg, Run(cfg, Init(), es));
      }
    } else {
      StuckAtOnce<J>(cfg);
    }
  }

  /** A chain in flight always has a next promise to settle. */
  lemma ChainGoesOn<J(!new)>(cfg: Config, s: State<J>, h: nat)
    requires JobsCurrent(cfg, s) && h in s.active
    ensures exists e: Event<J> :: Enabled(s, e)
  {
    match StageOf(s, h)
    case Running => assert Enabled(s, RunEnds(h, Fulfilled));
    case Ended(_) => assert Enabled(s, CatchRuns(h));
    case Caught(_) => assert Enabled(s, FinallyRuns(h));
    case Removed(_) => assert false;
  }

  lemma SomethingEnabled<J(!new)>(cfg: Config, s: State<J>)
    requires Inv(cfg, s) && cfg.concurrency >= 1 && !Over(s)
    ensures exists e: Event<J> :: Enabled(s, e)
  {
    match s.phase
    case Guarding => assert Enabled(s, Check(true));
    case Claiming => assert Enabled(s, Answered(Nothing, s.clock, false));
    case Sleeping(_) => assert Enabled(s, Woken);
    case Racing(runners, first) =>
      if first.Some? {
        assert Enabled(s, RaceWon);
      } else {
        var h :| h in runners;
        ChainGoesOn(cfg, s, h);
      }
    case Draining =>
      if s.active == {} {
        assert Enabled(s, Drained);
      } else {
        var h :| h in s.active;
        ChainGoesOn(cfg, s, h);
      }
  }

  lemma StuckAtOnce<J(!new)>(cfg: Config)
    requires cfg.concurrency < 1
    ensures exists es: seq<Event<J>> ::
              Legal(cfg, Init(), es) && !Over(Run(cfg, Init(), es))
              && !exists e: Event<J> :: Enabled(Run(cfg, Init(), es), e)
  {
    var es: seq<Event<J>> := [Check(true)];
    var s := Next(cfg, Init<J>(), Check(true));
    assert es[1..] == [];
    assert s.phase == Racing({}, None);
    assert Legal(cfg, s, es[1..]) && Run(cfg, s, es[1..]) == s;
    assert Legal(cfg, Init(), es) && Run(cfg, Init(), es) == s;
    assert !exists e: Event<J> :: Enabled(s, e);
  }

  /** A schedule that claims and starts n jobs before any of them finishes. */
  function Filling<J>(job: J, n: nat): seq<Event<J>> {
    if n == 0 then [] else Filling(job, n - 1) + [Check(true), Answered(Job(job), 0, false)]
  }

  lemma {:induction false} RunAppends<J(!new)>(cfg: Config, s: State<J>, es: seq<Event<J>>, fs: seq<Event<J>>)
    requires Legal(cfg, s, es) && Legal(cfg, Run(cfg, s, es), fs)
    ensures Legal(cfg, s, es + fs)
    ensures Run(cfg, s, es + fs) == Run(cfg, Run(cfg, s, es), fs)
    decreases |es|
  {
    hide Next, Enabled;
    if es == [] {
      assert es + fs == fs;
    } else {
      assert (es + fs)[1..] == es[1..] + fs && (es + fs)[0] == es[0];
      RunAppends(cfg, Next(cfg, s, es[0]), es[1..], fs);
    }
  }

  /** The limit is a capacity, not just a bound: every number of jobs up to it can be in flight at once. */
  lemma {:induction false} CapacityIsReached<J(!new)>(cfg: Config, job: J, n: nat)
    requires n <= cfg.concurrency
    ensures Legal(cfg, Init(), Filling(job, n))
    ensures var s := Run(cfg, Init(), Filling(job, n));
            s.phase == Guarding && s.active == Handles(n) && |s.started| == n && s.consecutiveFailures == 0
  {
    if n > 0 {
      hide Next, Enabled, Legal, Run;
      CapacityIsReached(cfg, job, n - 1);
      var s := Run(cfg, Init(), Filling(job, n - 1));
      var check, answered: Event<J> := Check(true), Answered(Job(job), 0, false);
      OneMoreJob(cfg, s, job, n - 1);
      TwoSteps(cfg, s, check, answered);
      RunAppends(cfg, Init(), Filling(job, n - 1), [check, answered]);
    } else {
      assert Filling(job, n) == [];
    }
  }

  lemma OneMoreJob<J(!new)>(cfg: Config, s: State<J>, job: J, n: nat)
    requires s.phase == Guarding && s.active == Handles(n) && |s.started| == n && s.consecutiveFailures == 0
    requires n < cfg.concurrency
    ensures Enabled(s, Check(true))
    ensures var t := Next(cfg, s, Check(true));
            && Enabled(t, Answered(Job(job), 0, false))
            && var u := Next(cfg, t, Answered(Job(job), 0, false));
               u.phase == Guarding && u.active == Handles(n + 1) && |u.started| == n + 1 && u.consecutiveFailures == 0
  {
    hide BackoffDelay;
  }

  lemma TwoSteps<J(!new)>(cfg: Config, s: State<J>, e: Event<J>, f: Event<J>)
    requires Enabled(s, e) && Enabled(Next(cfg, s, e), f)
    ensures Legal(cfg, s, [e, f])
    ensures Run(cfg, s, [e, f]) == Next(cfg, Next(cfg, s, e), f)
  {
    hide Next, Enabled;
    assert [e, f][1..] == [f] && [f][1..] == [];
    var t := Next(cfg, s, e);
    assert Legal(cfg, Next(cfg, t, f), []);
    assert Legal(cfg, t, [f]);
    assert Run(cfg, t, [f]) == Run(cfg, Next(cfg, t, f), []);
  }

  // ---------------------------------------------------------------- Draining

  /** The promises still to settle in the chains in flight. */
  function Unsettled<J>(s: State<J>): nat {
    |s.active| + |set h | h in s.active && !StageOf(s, h).Caught?| + |set h | h in s.active && StageOf(s, h).Running?|
  }

  lemma RunSettlesOne<J>(cfg: Config, s: State<J>, h: nat, outcome: Outcome)
    requires ChainMoves(s, RunEnds(h, outcome))
    ensures Unsettled(Next(cfg, s, RunEnds(h, outcome))) == Unsettled(s) - 1
  {
    var t := Next(cfg, s, RunEnds(h, outcome));
    assert (set k | k in t.active && !StageOf(t, k).Caught?) == set k | k in s.active && !StageOf(s, k).Caught?;
    assert (set k | k in t.active && StageOf(t, k).Running?) == (set k | k in s.active && StageOf(s, k).Running?) - {h};
  }

  lemma CatchSettlesOne<J>(cfg: Config, s: State<J>, h: nat)
    requires ChainMoves(s, CatchRuns(h))
    ensures Unsettled(Next(cfg, s, CatchRuns(h))) == Unsettled(s) - 1
  {
    var t := Next(cfg, s, CatchRuns(h));
    assert (set k | k in t.active && !StageOf(t, k).Caught?) == (set k | k in s.active && !StageOf(s, k).Caught?) - {h};
    assert (set k | k in t.active && StageOf(t, k).Running?) == set k | k in s.active && StageOf(s, k).Running?;
  }

  lemma FinallySettlesOne<J>(cfg: Config, s: State<J>, h: nat)
    requires ChainMoves(s, FinallyRuns(h))
    ensures Unsettled(Next(cfg, s, FinallyRuns(h))) == Unsettled(s) - 1
  {
    var t := Next(cfg, s, FinallyRuns(h));
    assert (set k | k in t.active && !StageOf(t, k).Caught?) == set k | k in s.active && !StageOf(s, k).Caught?;
    assert (set k | k in t.active && StageOf(t, k).Running?) == set k | k in s.active && StageOf(s, k).Running?;
  }

  /**
   * Once the loop has seen the stop flag it starts nothing more, returns after exactly the promises then in
   * flight have settled and not before, and cannot be kept from returning by anything else.
   */
  lemma {:induction false} DrainFinishes<J(!new)>(cfg: Config, s: State<J>, es: seq<Event<J>>)
    requires s.phase.Draining? && Legal(cfg, s, es)
    ensures var t := Run(cfg, s, es);
            && t.started == s.started && t.answers == s.answers
            && |es| <= Unsettled(s) + 1
            && (t.phase.Returned? <==> |es| == Unsettled(s) + 1)
            && Unsettled(t) + |es| == Unsettled(s) + (if t.phase.Returned? then 1 else 0)
    decreases |es|
  {
    hide Unsettled;
    if es != [] {
      var u := Next(cfg, s, es[0]);
      if es[0].Drained? {
        NothingUnsettled(s);
        NothingUnsettled(u);
        assert es[1..] == [];
      } else {
        match es[0] {
          case RunEnds(h, outcome) => RunSettlesOne(cfg, s, h, outcome);
          case CatchRuns(h) => CatchSettlesOne(cfg, s, h);
          case FinallyRuns(h) => FinallySettlesOne(cfg, s, h);
        }
        DrainFinishes(cfg, u, es[1..]);
      }
    }
  }

  lemma NothingUnsettled<J>(s: State<J>)
    requires s.active == {}
    ensures Unsettled(s) == 0
  {
  }

  // ---------------------------------------------------------------- Checking before claiming

  /** A step of a handler's promises, in which the loop itself takes no part. */
  predicate OfHandler<J>(e: Event<J>) {
    e.RunEnds? || e.CatchRuns? || e.FinallyRuns?
  }

  lemma {:induction false} RunSplits<J(!new)>(cfg: Config, s: State<J>, es: seq<Event<J>>, i: nat)
    requires Legal(cfg, s, es) && i <= |es|
    ensures Legal(cfg, s, es[..i]) && Legal(cfg, Run(cfg, s, es[..i]), es[i..])
    ensures Run(cfg, s, es) == Run(cfg, Run(cfg, s, es[..i]), es[i..])
    decreases |es|
  {
    hide Next, Enabled;
    if i == 0 {
      assert es[..i] == [] && es[i..] == es;
    } else {
      assert es[..i][0] == es[0] && es[..i][1..] == es[1..][..i - 1] && es[1..][i - 1..] == es[i..];
      RunSplits(cfg, Next(cfg, s, es[0]), es[1..], i - 1);
    }
  }

  /** The last step of a run. */
  lemma LastStep<J(!new)>(cfg: Config, s: State<J>, es: seq<Event<J>>)
    requires es != [] && Legal(cfg, s, es)
    ensures var n := |es| - 1;
            && Legal(cfg, s, es[..n]) && Enabled(Run(cfg, s, es[..n]), es[n])
            && Run(cfg, s, es) == Next(cfg, Run(cfg, s, es[..n]), es[n])
  {
    hide Next, Enabled;
    var n := |es| - 1;
    RunSplits(cfg, s, es, n);
    assert es[n..] == [es[n]] && es[n..][1..] == [];
  }

  /**
   * Once a check has read the stop flag nothing more is claimed or started in any run, and the loop returns after
   * exactly the promises then in flight have settled.
   */
  lemma StopIsFinal<J(!new)>(cfg: Config, es: seq<Event<J>>, i: nat)
    requires Legal(cfg, Init(), es) && i < |es| && es[i] == Check(false)
    ensures var s, t := Run(cfg, Init(), es[..i]), Run(cfg, Init(), es);
            && t.started == s.started && t.answers == s.answers
            && (forall e | e in es[i + 1..] :: OfHandler(e) || e.Drained?)
            && |es| - i - 1 <= Unsettled(s) + 1
            && (t.phase.Returned? <==> |es| - i - 1 == Unsettled(s) + 1)
  {
    hide Unsettled;
    RunSplits(cfg, Init(), es, i);
    var s := Run(cfg, Init(), es[..i]);
    var rest := es[i..];
    assert rest[0] == Check(false) && rest[1..] == es[i + 1..];
    var u := Next(cfg, s, Check(false));
    SameUnsettled(s, u);
    DrainFinishes(cfg, u, es[i + 1..]);
    DrainTakesNoTurns(cfg, u, es[i + 1..]);
  }

  lemma SameUnsettled<J>(s: State<J>, t: State<J>)
    requires s.active == t.active && s.stages == t.stages
    ensures Unsettled(s) == Unsettled(t)
  {
    assert forall h :: StageOf(s, h) == StageOf(t, h);
    assert (set h | h in s.active && !StageOf(s, h).Caught?) == set h | h in t.active && !StageOf(t, h).Caught?;
    assert (set h | h in s.active && StageOf(s, h).Running?) == set h | h in t.active && StageOf(t, h).Running?;
  }

  lemma {:induction false} DrainTakesNoTurns<J(!new)>(cfg: Config, s: State<J>, es: seq<Event<J>>)
    requires (s.phase.Draining? || s.phase.Returned?) && Legal(cfg, s, es)
    requires s.phase.Returned? ==> s.active == {}
    ensures forall e | e in es :: OfHandler(e) || e.Drained?
    decreases |es|
  {
    if es != [] {
      assert forall e :: e in es <==> e == es[0] || e in es[1..];
      DrainTakesNoTurns(cfg, Next(cfg, s, es[0]), es[1..]);
    }
  }

  /** A check that finds the loop running lets a claim be answered next exactly when fewer jobs run than the limit. */
  lemma ClaimsExactlyBelowTheLimit<J(!new)>(cfg: Config, es: seq<Event<J>>)
    requires Legal(cfg, Init(), es + [Check(true)])
    ensures (exists answer, at, throws :: Legal(cfg, Init(), es + [Check(true)] + [Answered(answer, at, throws)]))
            <==> |Run(cfg, Init(), es).active| < cfg.concurrency
  {
    var checked := es + [Check(true)];
    LastStep(cfg, Init(), checked);
    assert checked[..|es|] == es;
    var s := Run(cfg, Init<J>(), es);
    var t := Run(cfg, Init<J>(), checked);
    hide Next, Enabled, Run, Legal;
    assert t == Next(cfg, s, Check(true));
    assert |s.active| < cfg.concurrency <==> t.phase.Claiming? by {
      CheckClaims(cfg, s);
    }
    if t.phase.Claiming? {
      OneMoreStep(cfg, Init(), checked, Answered(Nothing, s.clock, false));
    }
    forall answer: Answer<J>, at, throws | Legal(cfg, Init(), checked + [Answered(answer, at, throws)])
      ensures t.phase.Claiming?
    {
      var more := checked + [Answered(answer, at, throws)];
      LastStep(cfg, Init(), more);
      assert more[..|checked|] == checked;
      AnsweredClaims(t, answer, at, throws);
    }
  }

  lemma CheckClaims<J>(cfg: Config, s: State<J>)
    ensures Next(cfg, s, Check(true)).phase.Claiming? <==> |s.active| < cfg.concurrency
  {
  }

  lemma AnsweredClaims<J>(s: State<J>, answer: Answer<J>, at: int, throws: bool)
    ensures Enabled(s, Answered(answer, at, throws)) ==> s.phase.Claiming?
    ensures s.phase.Claiming? ==> Enabled(s, Answered(Nothing, at, throws))
  {
  }

  lemma OneMoreStep<J(!new)>(cfg: Config, s: State<J>, es: seq<Event<J>>, e: Event<J>)
    requires Legal(cfg, s, es)
    ensures Legal(cfg, s, es + [e]) <==> Enabled(Run(cfg, s, es), e)
  {
    hide Next, Enabled;
    if Enabled(Run(cfg, s, es), e) {
      assert [e][1..] == [];
      RunAppends(cfg, s, es, [e]);
    }
    if Legal(cfg, s, es + [e]) {
      LastStep(cfg, s, es + [e]);
      assert (es + [e])[..|es|] == es;
    }
  }

  /** The last thing the loop did, behind any steps of handlers, was this. */
  ghost predicate LastTurn<J(!new)>(es: seq<Event<J>>, e: Event<J>) {
    exists i :: 0 <= i < |es| && es[i] == e && forall k | i < k < |es| :: OfHandler(es[k])
  }

  lemma LastTurnStays<J(!new)>(es: seq<Event<J>>, e: Event<J>, h: Event<J>)
    requires OfHandler(h) && !OfHandler(e)
    ensures LastTurn(es + [h], e) <==> LastTurn(es, e)
  {
    var more := es + [h];
    if LastTurn(es, e) {
      var i :| 0 <= i < |es| && es[i] == e && forall k | i < k < |es| :: OfHandler(es[k]);
      assert more[i] == e;
    }
    if LastTurn(more, e) {
      var i :| 0 <= i < |more| && more[i] == e && forall k | i < k < |more| :: OfHandler(more[k]);
      assert es[i] == e;
      assert forall k | i < k < |es| :: es[k] == more[k];
    }
  }

  lemma LastTurnIs<J(!new)>(es: seq<Event<J>>, e: Event<J>)
    ensures LastTurn(es + [e], e)
  {
    assert (es + [e])[|es|] == e;
  }

  /** Where the loop is, told from what it did last. */
  lemma {:induction false} PhaseFollows<J(!new)>(cfg: Config, es: seq<Event<J>>)
    requires Legal(cfg, Init(), es)
    ensures Run(cfg, Init(), es).phase.Claiming? ==> LastTurn(es, Check(true))
    ensures Run(cfg, Init(), es).phase.Racing? ==> LastTurn(es, Check(true))
    ensures Run(cfg, Init(), es).phase.Draining? ==> LastTurn(es, Check(false))
  {
    hide LastTurn, Next, Enabled, BackoffDelay;
    if es != [] {
      var n := |es| - 1;
      LastStep(cfg, Init(), es);
      PhaseFollows(cfg, es[..n]);
      assert es == es[..n] + [es[n]];
      LastTurnIs(es[..n], es[n]);
      PhaseMoves(cfg, Run(cfg, Init(), es[..n]), es[n]);
      if OfHandler(es[n]) {
        LastTurnStays(es[..n], Check(true), es[n]);
        LastTurnStays(es[..n], Check(false), es[n]);
      }
    }
  }

  /** Only a check leads to a claim, a race or the drain; a handler's step leaves the loop where it is. */
  lemma PhaseMoves<J>(cfg: Config, s: State<J>, e: Event<J>)
    requires Enabled(s, e)
    ensures var before, now := s.phase, Next(cfg, s, e).phase;
            if OfHandler(e) then
              (now.Claiming? <==> before.Claiming?) && (now.Racing? <==> before.Racing?)
              && (now.Draining? <==> before.Draining?)
            else
              && (now.Claiming? || now.Racing? ==> e == Check(true))
              && (now.Draining? ==> e == Check(false))
  {
    hide BackoffDelay;
  }

  /** In every run each claim, each race won and the return come straight after the check that leads there. */
  lemma EveryTurnIsChecked<J(!new)>(cfg: Config, es: seq<Event<J>>, e: Event<J>)
    requires Legal(cfg, Init(), es + [e])
    ensures e.Answered? || e.RaceWon? ==> LastTurn(es, Check(true))
    ensures e.Drained? ==> LastTurn(es, Check(false))
  {
    hide LastTurn;
    OneMoreStepBack(cfg, es, e);
    PhaseFollows(cfg, es);
  }

  lemma OneMoreStepBack<J(!new)>(cfg: Config, es: seq<Event<J>>, e: Event<J>)
    requires Legal(cfg, Init(), es + [e])
    ensures Legal(cfg, Init(), es) && Enabled(Run(cfg, Init(), es), e)
    ensures Run(cfg, Init(), es + [e]) == Next(cfg, Run(cfg, Init(), es), e)
  {
    hide Next, Enabled;
    LastStep(cfg, Init(), es + [e]);
    assert (es + [e])[..|es|] == es;
  }

  /**
   * Where each turn of the loop leads in every run: a failed or empty claim to the wait it asks for, and a started job,
   * the end of a wait or a race that is won to the next check, without any wait.
   */
  lemma TurnsLead<J(!new)>(cfg: Config, es: seq<Event<J>>, e: Event<J>)
    requires Legal(cfg, Init(), es + [e])
    ensures var phase := Run(cfg, Init(), es + [e]).phase;
            && (e.Answered? && e.answer.Failed? ==>
                 phase == Sleeping(BackoffDelay(cfg.idleDelay, 1 + TrailingFailures(Run(cfg, Init(), es).answers))))
            && (e.Answered? && e.answer.Nothing? ==> phase == Sleeping(cfg.idleDelay))
            && (e.Answered? && e.answer.Job? && !e.throws ==> phase == Guarding)
            && (e.Woken? || e.RaceWon? ==> phase == Guarding)
            && (e.Drained? ==> phase == Returned)
  {
    hide BackoffDelay, LogsCurrent, JobsOf, Handles, ChainsSound, Accounted;
    OneMoreStepBack(cfg, es, e);
    InitSound<J>(cfg);
    RunsKeep(cfg, Init(), es);
    if e.RaceWon? {
      RaceGoesRound(cfg, Run(cfg, Init(), es));
    }
  }
}
