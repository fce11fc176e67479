/**
  The managed mode of AIS-catcher: one control thread starts, stops and restarts the engine
  while the managed loop runs it. Both sides share the fields of ControlCore, guarded by a
  mutex, and the atomic flag `stop`, which no mutex guards. `Core` and its functions say what
  one locked section does; class ControlCore has the methods; `System` puts the two threads
  together, one atomic action per event, and the lemmas range over every interleaving.
*/
module Supervisor {
  import opened Arith

  const RETRY_DELAY_FIRST := 5
  const RETRY_DELAY_MAX := 60
  const RETRY_HEALTHY_UPTIME := 60

  datatype EngineState = Stopped | Running

  /** What ControlCore's mutex guards. */
  datatype Core = Core(desired: bool, restartPending: bool, engine: EngineState, startTime: int,
                       autoRetry: bool, retryPending: bool, retryDelay: nat)

  function AtStartUp(wanted: bool, time: int): Core {
    Core(wanted, false, Stopped, time, wanted, false, 0)
  }

  function ResetRetry(c: Core): Core {
    c.(autoRetry := false, retryPending := false, retryDelay := 0)
  }

  function AfterStart(c: Core): Core {
    var r := ResetRetry(c);
    if r.desired then r else r.(desired := true, restartPending := false)
  }

  function AfterStop(c: Core): Core {
    ResetRetry(c.(desired := false, restartPending := false))
  }

  function AfterRestart(c: Core): Core {
    var running := c.engine == Running;
    ResetRetry(c.(desired := true, restartPending := running)).(autoRetry := running)
  }

  function AfterRunning(c: Core, now: int): Core {
    c.(engine := Running, startTime := now, autoRetry := false)
  }

  predicate Healthy(c: Core, now: int) {
    c.engine == Running && now - c.startTime >= RETRY_HEALTHY_UPTIME
  }

  /** Whether a stop reported now makes the loop wait before its next attempt. */
  predicate Charged(c: Core) {
    !c.restartPending && c.desired && (c.engine == Running || c.autoRetry)
  }

  function NextDelay(delay: nat): nat {
    if delay == 0 then RETRY_DELAY_FIRST
    else if delay * 2 < RETRY_DELAY_MAX then delay * 2 else RETRY_DELAY_MAX
  }

  function AfterStopped(c: Core, now: int): Core {
    var down := c.(engine := Stopped);
    if c.restartPending then down.(restartPending := false)
    else if !c.desired then down
    else if c.engine == Running || c.autoRetry then
      down.(retryDelay := NextDelay(if Healthy(c, now) then 0 else c.retryDelay),
            autoRetry := true, retryPending := true)
    else ResetRetry(down.(desired := false))
  }

  function AfterFailed(c: Core): Core {
    c.(restartPending := false)
  }

  function AfterConsume(c: Core): Core {
    c.(retryPending := false)
  }

  function DelayToServe(c: Core): nat {
    if c.retryPending then c.retryDelay else 0
  }

  /** The process-wide flag the engine polls. */
  class StopFlag {
    var stop: bool

    constructor ()
      ensures !stop
    {
      stop := false;
    }

    method StopRequest()
      modifies this
      ensures stop
    {
      stop := true;
    }

    method Clear()
      modifies this
      ensures !stop
    {
      stop := false;
    }
  }

  /** The k-th delay in a row. */
  function Backoff(k: nat): nat {
    if k == 0 then 0
    else if k == 1 then 5
    else if k == 2 then 10
    else if k == 3 then 20
    else if k == 4 then 40
    else 60
  }

  lemma NextDelayIsBackoff(k: nat)
    ensures NextDelay(Backoff(k)) == Backoff(k + 1) > 0
  {
  }

  /**
    How many charged stops there are in a row once a stop is reported, `up` seconds after the engine
    came up: after a minute of running they are counted anew.
  */
  function ChargesAfterStop(c: Core, charges: nat, up: int): nat {
    if !Charged(c) then charges
    else if c.engine == Running && up >= 60 then 1
    else charges + 1
  }

  /**
    A pending restart has its engine, a pending retry its wish, and the delay is a term of the
    backoff: of none where the engine is to be restarted or its failing is not to be retried.
  */
  predicate Sound(c: Core, charges: nat) {
    && (c.restartPending ==> c.engine == Running && c.desired && charges == 0)
    && (c.engine == Stopped && c.desired && !c.autoRetry ==> charges == 0)
    && (c.retryPending ==> c.desired && c.autoRetry && c.engine == Stopped && charges > 0)
    && c.retryDelay == Backoff(charges)
  }

  lemma StoppedIsSound(c: Core, charges: nat, now: int)
    requires Sound(c, charges)
    ensures Sound(AfterStopped(c, now), ChargesAfterStop(c, charges, now - c.startTime))
  {
    NextDelayIsBackoff(charges);
    NextDelayIsBackoff(0);
  }

  class ControlCore {
    var desired: bool
    var restartPending: bool
    var state: EngineState
    var engineStartTime: int
    var autoRetry: bool
    var retryPending: bool
    var retryDelay: nat
    var commandSeq: nat
    ghost var charges: nat

    ghost function Value(): Core
      reads this
    {
      Core(desired, restartPending, state, engineStartTime, autoRetry, retryPending, retryDelay)
    }

    ghost predicate Valid()
      reads this
    {
      Sound(Value(), charges)
    }

    /** Source/Control/ControlCore.cpp:42-51: an engine wanted at start-up is tried again if it fails. */
    constructor (wanted: bool)
      ensures Valid()
      ensures Value() == AtStartUp(wanted, 0)
      ensures commandSeq == 0 && charges == 0
    {
      desired, restartPending, state, engineStartTime := wanted, false, Stopped, 0;
      autoRetry, retryPending, retryDelay, commandSeq, charges := wanted, false, 0, 0, 0;
    }

    method Count()
      modifies `commandSeq
      ensures commandSeq == old(commandSeq) + 1
    {
      commandSeq := commandSeq + 1;
    }

    method ResetRetry()
      modifies `autoRetry, `retryPending, `retryDelay, `charges
      ensures !autoRetry && !retryPending && retryDelay == Backoff(charges) && charges == 0
    {
      autoRetry := false;
      retryPending := false;
      retryDelay := 0;
      charges := 0;
    }

    /** The locked section of startEngine. */
    method LockedStart()
      requires Valid()
      modifies this
      ensures Valid() && Value() == AfterStart(old(Value()))
      ensures commandSeq == old(commandSeq) && charges == 0
    {
      ResetRetry();
      if desired {
        return;
      }
      desired := true;
      restartPending := false;
    }

    /** The locked section of stopEngine. */
    method LockedStop()
      requires Valid()
      modifies this
      ensures Valid() && Value() == AfterStop(old(Value()))
      ensures commandSeq == old(commandSeq) && charges == 0
    {
      desired := false;
      restartPending := false;
      ResetRetry();
    }

    /** The locked section of restartEngine. */
    method LockedRestart() returns (running: bool)
      requires Valid()
      modifies this
      ensures Valid() && Value() == AfterRestart(old(Value()))
      ensures running == (old(state) == Running)
      ensures commandSeq == old(commandSeq) && charges == 0
    {
      desired := true;
      running := state == Running;
      restartPending := running;
      ResetRetry();
      autoRetry := running;
    }

    /** The engine is wanted from now on without a delay, and a restart in progress goes on. */
    method StartEngine()
      requires Valid()
      modifies this
      ensures Valid()
      ensures desired && !retryPending && !autoRetry && retryDelay == 0
      ensures restartPending == old(restartPending)
      ensures state == old(state) && engineStartTime == old(engineStartTime)
      ensures commandSeq == old(commandSeq) + 1
    {
      Count();
      LockedStart();
    }

    /** The engine is told to stop, and however its end is reported, no delay and no attempt follow. */
    method StopEngine(flag: StopFlag)
      requires Valid()
      modifies this, flag
      ensures Valid() && flag.stop
      ensures !desired && !restartPending && !retryPending && retryDelay == 0
      ensures forall now :: var down := AfterStopped(Value(), now); !down.desired && !down.retryPending
      ensures state == old(state) && engineStartTime == old(engineStartTime)
      ensures commandSeq == old(commandSeq) + 1
    {
      Count();
      LockedStop();
      flag.StopRequest();
    }

    /** A running engine is told to stop, and its end, reported next, leaves it wanted and costs no delay. */
    method RestartEngine(flag: StopFlag)
      requires Valid()
      modifies this, flag
      ensures Valid()
      ensures flag.stop == (old(flag.stop) || old(state) == Running)
      ensures desired && !retryPending && retryDelay == 0
      ensures restartPending == autoRetry == (old(state) == Running)
      ensures state == Running ==>
        forall now :: var down := AfterStopped(Value(), now); down.desired && !down.retryPending
      ensures state == old(state) && engineStartTime == old(engineStartTime)
      ensures commandSeq == old(commandSeq) + 1
    {
      Count();
      var running := LockedRestart();
      if running {
        flag.StopRequest();
      }
    }

    method ReportRunning(now: int)
      requires Valid() && !retryPending
      modifies this
      ensures Valid() && Value() == AfterRunning(old(Value()), now)
      ensures commandSeq == old(commandSeq) && charges == old(charges)
    {
      state := Running;
      engineStartTime := now;
      autoRetry := false;
    }

    /**
      A stop is charged exactly when no restart asked for it, the engine is wanted, and it ran or
      its attempts go on; the delay then follows the backoff. The wish is given up exactly when an
      attempt fails whose failing is not to be retried.
    */
    method ReportStopped(now: int)
      requires Valid()
      modifies this
      ensures Valid() && Value() == AfterStopped(old(Value()), now)
      ensures charges == ChargesAfterStop(old(Value()), old(charges), now - old(engineStartTime))
      ensures state == Stopped && !restartPending
      ensures desired == old(desired && (restartPending || state == Running || autoRetry))
      ensures !old(retryPending) ==> retryPending == old(Charged(Value()))
      ensures old(Charged(Value())) ==>
        && autoRetry
        && retryDelay ==
           if old(state) == Running && now - old(engineStartTime) >= 60 then 5 else Backoff(old(charges) + 1)
      ensures commandSeq == old(commandSeq)
    {
      StoppedIsSound(Value(), charges, now);
      NextDelayIsBackoff(charges);
      charges := ChargesAfterStop(Value(), charges, now - engineStartTime);
      var wasRunning := state == Running;
      var healthy := wasRunning && now - engineStartTime >= RETRY_HEALTHY_UPTIME;
      state := Stopped;
      if restartPending {
        restartPending := false;
      } else if desired {
        if wasRunning || autoRetry {
          if healthy {
            retryDelay := 0;
          }
          if retryDelay == 0 {
            retryDelay := RETRY_DELAY_FIRST;
          } else {
            retryDelay := if retryDelay * 2 < RETRY_DELAY_MAX then retryDelay * 2 else RETRY_DELAY_MAX;
          }
          autoRetry := true;
          retryPending := true;
        } else {
          desired := false;
          ResetRetry();
        }
      }
    }

    method EngineFailed()
      requires Valid()
      modifies `restartPending
      ensures Valid() && Value() == AfterFailed(old(Value()))
    {
      restartPending := false;
    }

    /** A delay is returned exactly once, it is a term of the backoff, and it leaves the wish to retry as it is. */
    method ConsumeRetryDelay() returns (delay: nat)
      requires Valid()
      modifies `retryPending
      ensures Valid() && Value() == AfterConsume(old(Value()))
      ensures delay == DelayToServe(old(Value()))
      ensures !retryPending && (delay > 0 <==> old(retryPending))
      ensures delay > 0 ==> delay == Backoff(charges) && desired && autoRetry && state == Stopped
    {
      assert charges > 0 ==> Backoff(charges) > 0 by {
        if charges > 0 {
          NextDelayIsBackoff(charges - 1);
        }
      }
      if !retryPending {
        return 0;
      }
      retryPending := false;
      return retryDelay;
    }
  }

  // ---------- two threads, one atomic action at a time ----------

  /** Where the command thread is: a command counts itself, takes the lock, and may then set `stop`. */
  datatype Command = Idle | StartCounted | StopCounted | StopLocked | RestartCounted | RestartLocked

  /** Where the managed loop is. Serving is Engine::run after it reported running. */
  datatype Loop =
    | Check
    | Consume
    | TakeSeq(delay: nat)
    | Wait(delay: nat, seen: nat, slept: nat)
    | AfterWait
    | ClearStop
    | Recheck
    | Starting
    | Serving
    | Thrown
    | Report

  datatype System = System(core: Core, stop: bool, issued: nat, command: Command, at: Loop, now: int)

  /**
    One atomic action: a command arrives, the command thread or the loop takes its next action,
    the engine throws, the engine ends by itself (its device went away or its watchdog fired),
    or time passes.
  */
  datatype Event = AskStart | AskStop | AskRestart | CommandActs | LoopActs | Throws | EndsItself | Passes(seconds: nat)

  /** From clearing `stop` to reporting the engine stopped. */
  predicate InSession(at: Loop) {
    at in {Recheck, Starting, Serving, Thrown, Report}
  }

  function CommandNext(s: System): System {
    match s.command
    case Idle => s
    case StartCounted => s.(core := AfterStart(s.core), command := Idle)
    case StopCounted => s.(core := AfterStop(s.core), command := StopLocked)
    case StopLocked => s.(stop := true, command := Idle)
    case RestartCounted =>
      s.(core := AfterRestart(s.core), command := if s.core.engine == Running then RestartLocked else Idle)
    case RestartLocked => s.(stop := true, command := Idle)
  }

  function LoopNext(s: System): System {
    match s.at
    case Check => if s.core.desired then s.(at := Consume) else s
    case Consume =>
      var delay := DelayToServe(s.core);
      s.(core := AfterConsume(s.core), at := if delay > 0 then TakeSeq(delay) else ClearStop)
    case TakeSeq(delay) => s.(at := Wait(delay, s.issued, 0))
    case Wait(delay, seen, slept) =>
      if slept < delay * 4 && s.issued == seen then s.(at := Wait(delay, seen, slept + 1)) else s.(at := AfterWait)
    case AfterWait => s.(at := if s.core.desired then ClearStop else Check)
    case ClearStop => s.(stop := false, at := Recheck)
    case Recheck => s.(at := if s.core.desired then Starting else Check)
    case Starting => s.(core := AfterRunning(s.core, s.now), at := Serving)
    case Serving => if s.stop then s.(at := Report) else s
    case Thrown => s.(core := AfterFailed(s.core), at := Report)
    case Report => s.(core := AfterStopped(s.core, s.now), at := Check)
  }

  function Next(s: System, e: Event): System {
    match e
    case AskStart => if s.command == Idle then s.(issued := s.issued + 1, command := StartCounted) else s
    case AskStop => if s.command == Idle then s.(issued := s.issued + 1, command := StopCounted) else s
    case AskRestart => if s.command == Idle then s.(issued := s.issued + 1, command := RestartCounted) else s
    case CommandActs => CommandNext(s)
    case LoopActs => LoopNext(s)
    case Throws => if s.at in {Starting, Serving} then s.(at := Thrown) else s
    case EndsItself => if s.at in {Starting, Serving, Thrown, Report} then s.(stop := true) else s
    case Passes(seconds) => s.(now := s.now + seconds)
  }

  // ---------- what happened, apart from the fields the code keeps ----------

  /** Why a session that nobody wanted to end may end. */
  datatype Cause = Threw | EndedItself | Revoked | LateRestart

  /**
    A system with its history: what befell the current session, how many charged stops there were
    since the last command or the last run of a minute, and how many seconds passed since the engine
    last came up.
  */
  datatype Story = Story(sys: System, causes: set<Cause>, charges: nat, up: nat)

  function NextCauses(t: Story, e: Event): set<Cause> {
    var s := t.sys;
    if e == LoopActs && s.at == ClearStop then {}
    else if e == Throws && s.at in {Starting, Serving} then t.causes + {Threw}
    else if e == EndsItself && s.at in {Starting, Serving, Thrown, Report} then t.causes + {EndedItself}
    else if e == CommandActs && s.command in {StartCounted, RestartCounted} && !s.core.desired && InSession(s.at) then
      t.causes + {Revoked}
    else if e == CommandActs && s.command == RestartLocked && InSession(s.at) && !s.core.restartPending then
      t.causes + {LateRestart}
    else t.causes
  }

  function NextCharges(t: Story, e: Event): nat {
    var s := t.sys;
    if e == CommandActs && s.command in {StartCounted, StopCounted, RestartCounted} then 0
    else if e == LoopActs && s.at == Report then ChargesAfterStop(s.core, t.charges, t.up)
    else t.charges
  }

  function NextUp(t: Story, e: Event): nat {
    if e == LoopActs && t.sys.at == Starting then 0 else if e.Passes? then t.up + e.seconds else t.up
  }

  function Observe(t: Story, e: Event): Story {
    Story(Next(t.sys, e), NextCauses(t, e), NextCharges(t, e), NextUp(t, e))
  }

  function Run(t: Story, es: seq<Event>): Story
    decreases |es|
  {
    if es == [] then t else Run(Observe(t, es[0]), es[1..])
  }

  predicate Initial(t: Story) {
    && t.sys.core == AtStartUp(t.sys.core.desired, t.sys.core.startTime)
    && !t.sys.stop && t.sys.command == Idle && t.sys.at == Check
    && t.causes == {} && t.charges == 0
  }

  // ---------- safety ----------

  /** An unwanted engine has been told to stop, or is just about to be. */
  predicate UnwantedIsTold(s: System) {
    s.at in {Starting, Serving} && !s.core.desired ==> s.stop || s.command == StopLocked
  }

  predicate RestartNeedsEngine(s: System) {
    s.core.restartPending ==> s.core.engine == Running && s.core.desired
  }

  predicate RetryNeedsWish(s: System) {
    s.core.retryPending ==> s.core.desired && s.core.autoRetry && s.core.engine == Stopped && s.at in {Check, Consume}
  }

  /** A session nobody asked to end, and to which nothing happened, is not told to stop. */
  predicate NotStoppedForNothing(t: Story) {
    var s := t.sys;
    && (InSession(s.at) && s.stop && s.core.desired && !s.core.restartPending ==> t.causes != {})
    && (s.at.Report? ==> s.stop || t.causes != {})
    && (s.at.Thrown? ==> t.causes != {})
  }

  /** What the loop knows from where it stands. */
  predicate LoopKnows(s: System) {
    && (s.core.engine == Running ==> s.at in {Serving, Thrown, Report})
    && (s.at.Serving? ==> s.core.engine == Running)
    && (s.command == StopLocked ==> !s.core.desired)
    && (s.command == RestartLocked ==>
          s.core.desired && (s.core.autoRetry || (s.core.engine == Running && !s.core.restartPending)))
  }

  ghost predicate IsBackoff(delay: nat) {
    exists k: nat :: k > 0 && delay == Backoff(k)
  }

  ghost predicate DelayFollowsBackoff(t: Story) {
    && t.sys.core.retryDelay == Backoff(t.charges)
    && (t.sys.core.retryPending ==> t.charges > 0)
    && (t.sys.at.TakeSeq? || t.sys.at.Wait? ==> IsBackoff(t.sys.at.delay))
  }

  /** The start time tells how long the engine runs; no charge is open where its failing is not to be retried. */
  predicate HistoryFits(t: Story) {
    var c := t.sys.core;
    && (c.restartPending ==> t.charges == 0)
    && (c.engine == Stopped && c.desired && !c.autoRetry ==> t.charges == 0)
    && (c.engine == Running ==> t.sys.now - c.startTime == t.up)
  }

  ghost predicate Safe(t: Story) {
    && UnwantedIsTold(t.sys)
    && RestartNeedsEngine(t.sys)
    && RetryNeedsWish(t.sys)
    && LoopKnows(t.sys)
    && NotStoppedForNothing(t)
    && HistoryFits(t)
    && DelayFollowsBackoff(t)
  }

  lemma StepKeepsSystem(s: System, e: Event)
    requires UnwantedIsTold(s) && RestartNeedsEngine(s) && RetryNeedsWish(s) && LoopKnows(s)
    ensures UnwantedIsTold(Next(s, e)) && RestartNeedsEngine(Next(s, e))
    ensures RetryNeedsWish(Next(s, e)) && LoopKnows(Next(s, e))
  {
  }

  lemma StepKeepsCauses(t: Story, e: Event)
    requires UnwantedIsTold(t.sys) && RestartNeedsEngine(t.sys) && LoopKnows(t.sys) && NotStoppedForNothing(t)
    ensures NotStoppedForNothing(Observe(t, e))
  {
  }

  lemma StepKeepsHistory(t: Story, e: Event)
    requires RestartNeedsEngine(t.sys) && LoopKnows(t.sys) && HistoryFits(t)
    ensures HistoryFits(Observe(t, e))
  {
  }

  lemma StepKeepsBackoff(t: Story, e: Event)
    requires RetryNeedsWish(t.sys) && HistoryFits(t) && DelayFollowsBackoff(t)
    ensures DelayFollowsBackoff(Observe(t, e))
  {
    NextDelayIsBackoff(t.charges);
    NextDelayIsBackoff(0);
  }

  lemma StepKeepsSafety(t: Story, e: Event)
    requires Safe(t)
    ensures Safe(Observe(t, e))
  {
    StepKeepsSystem(t.sys, e);
    StepKeepsCauses(t, e);
    StepKeepsHistory(t, e);
    StepKeepsBackoff(t, e);
  }

  /** Every interleaving of commands with the managed loop keeps the system safe. */
  lemma {:induction false} AlwaysSafe(t: Story, es: seq<Event>)
    requires Initial(t) || Safe(t)
    ensures Safe(Run(t, es))
    decreases |es|
  {
    if es != [] {
      StepKeepsSafety(t, es[0]);
      AlwaysSafe(Observe(t, es[0]), es[1..]);
    }
  }

  // ---------- who pays for a stop ----------

  /**
    On no run is a retry delay charged for a session in which nothing threw, no device or watchdog
    ended the engine, no stop was revoked and no restart arrived late.
  */
  lemma ChargedOnlyWithCause(t: Story, es: seq<Event>)
    requires Initial(t)
    requires Run(t, es).sys.at == Report && Charged(Run(t, es).sys.core)
    ensures Run(t, es).causes != {}
  {
    AlwaysSafe(t, es);
  }

  /** The delay served in front of an attempt is always the next term of 5, 10, 20, 40, 60, 60, ... */
  lemma DelayServedIsBackoff(t: Story, es: seq<Event>)
    requires Initial(t)
    requires Run(t, es).sys.at == Consume && DelayToServe(Run(t, es).sys.core) > 0
    ensures Run(t, es).charges > 0
    ensures Observe(Run(t, es), LoopActs).sys.at == TakeSeq(Backoff(Run(t, es).charges))
  {
    AlwaysSafe(t, es);
  }

  /** The rest of a run, cut where the loop is back at its top. */
  function Session(t: Story, es: seq<Event>): Story
    decreases |es|
  {
    if es == [] || t.sys.at == Check then t else Session(Observe(t, es[0]), es[1..])
  }

  /** What an event does to the wish for the engine and to its session. */
  datatype Action = Want | Renew | Unwant | Up | Failed | Charge | Other

  function ActionOf(s: System, e: Event): Action {
    if e == CommandActs && s.command == StartCounted then Want
    else if e == CommandActs && s.command == RestartCounted then (if s.core.engine == Running then Renew else Want)
    else if e == CommandActs && s.command == StopCounted then Unwant
    else if e == LoopActs && s.at == Starting then Up
    else if e == LoopActs && s.at == Thrown then Failed
    else if e == LoopActs && s.at == Report && Charged(s.core) then Charge
    else Other
  }

  function Actions(t: Story, es: seq<Event>): seq<Action>
    decreases |es|
  {
    if es == [] || t.sys.at == Check then [] else [ActionOf(t.sys, es[0])] + Actions(Observe(t, es[0]), es[1..])
  }

  predicate NoneOf(actions: seq<Action>, bad: set<Action>) {
    forall a :: a in actions ==> a !in bad
  }

  /** The last action that is good or bad is a good one; without any, `initially` decides. */
  ghost predicate Last(actions: seq<Action>, good: set<Action>, bad: set<Action>, initially: bool) {
    || (exists k :: 0 <= k < |actions| && actions[k] in good && NoneOf(actions[k + 1..], bad))
    || (initially && NoneOf(actions, bad))
  }

  lemma NoneOfCons(a: Action, rest: seq<Action>, bad: set<Action>)
    ensures NoneOf([a] + rest, bad) <==> a !in bad && NoneOf(rest, bad)
  {
    assert a in [a] + rest;
    assert forall b :: b in [a] + rest <==> b == a || b in rest;
  }

  lemma LastCons(a: Action, rest: seq<Action>, good: set<Action>, bad: set<Action>, initially: bool)
    requires good !! bad
    ensures var now := a in good || (a !in bad && initially);
      Last([a] + rest, good, bad, initially) <==> Last(rest, good, bad, now)
  {
    var actions := [a] + rest;
    assert actions[1..] == rest;
    NoneOfCons(a, rest, bad);
    assert actions[0] == a && actions[0 + 1..] == rest;
    forall k | 0 <= k < |rest|
      ensures actions[k + 1..][1..] == rest[k + 1..] == actions[k + 2..] && actions[k + 1] == rest[k]
    {
    }
    if k :| 0 <= k < |rest| && rest[k] in good && NoneOf(rest[k + 1..], bad) {
      assert actions[k + 1] in good && NoneOf(actions[k + 1 + 1..], bad);
    }
    if k :| 0 <= k < |actions| && actions[k] in good && NoneOf(actions[k + 1..], bad) {
      if k > 0 {
        assert rest[k - 1] in good && NoneOf(rest[k - 1 + 1..], bad);
      }
    }
  }

  /** At the end the engine is wanted. */
  ghost predicate WantedAtEnd(actions: seq<Action>, initially: bool) {
    Last(actions, {Want, Renew}, {Unwant}, initially)
  }

  /** At the end no restart is pending: a stop or a failure came after the last restart. */
  ghost predicate RestartLost(actions: seq<Action>, initially: bool) {
    Last(actions, {Unwant, Failed}, {Renew}, initially)
  }

  /**
    The price of a session told by what happened in it. A session that came up is charged exactly
    when the engine is still wanted, or wanted again, and no restart is pending any more. One that
    did not is charged exactly when it was a retry and no command came.
  */
  ghost predicate ChargedFor(c: Core, actions: seq<Action>) {
    if c.engine == Running || Up in actions then
      WantedAtEnd(actions, c.desired) && RestartLost(actions, !c.restartPending)
    else
      c.desired && c.autoRetry && NoneOf(actions, {Want, Renew, Unwant})
  }

  /** One step within a session: what it does to the wish, to a pending restart and to the attempts. */
  lemma StepInSession(t: Story, e: Event)
    requires Safe(t) && InSession(t.sys.at) && InSession(Next(t.sys, e).at)
    ensures var a, c, d := ActionOf(t.sys, e), t.sys.core, Next(t.sys, e).core;
      && d.desired == (a in {Want, Renew} || (a !in {Unwant} && c.desired))
      && (d.engine == Running) == (c.engine == Running || a == Up)
      && !d.restartPending == (a in {Unwant, Failed} || (a !in {Renew} && !c.restartPending))
      && (d.engine == Stopped ==> d.autoRetry == (c.autoRetry && a !in {Want, Renew, Unwant}))
  {
  }

  lemma ChargedForCons(a: Action, rest: seq<Action>, c: Core, d: Core)
    requires d.desired == (a in {Want, Renew} || (a !in {Unwant} && c.desired))
    requires (d.engine == Running) == (c.engine == Running || a == Up)
    requires !d.restartPending == (a in {Unwant, Failed} || (a !in {Renew} && !c.restartPending))
    requires d.engine == Stopped ==> d.autoRetry == (c.autoRetry && a !in {Want, Renew, Unwant})
    ensures ChargedFor(c, [a] + rest) <==> ChargedFor(d, rest)
  {
    if d.engine == Running || Up in rest {
      LastCons(a, rest, {Want, Renew}, {Unwant}, c.desired);
      LastCons(a, rest, {Unwant, Failed}, {Renew}, !c.restartPending);
    } else {
      NoneOfCons(a, rest, {Want, Renew, Unwant});
    }
  }

  lemma SessionEnds(t: Story, e: Event)
    requires Safe(t) && InSession(t.sys.at) && !InSession(Next(t.sys, e).at)
    ensures Next(t.sys, e).at == Check
    ensures Next(t.sys, e).core.retryPending <==> ChargedFor(t.sys.core, [ActionOf(t.sys, e)])
  {
    var a, c := ActionOf(t.sys, e), t.sys.core;
    assert e == LoopActs && a in {Charge, Other};
    LastCons(a, [], {Want, Renew}, {Unwant}, c.desired);
    LastCons(a, [], {Unwant, Failed}, {Renew}, !c.restartPending);
    assert [a] + [] == [a];
  }

  /** Whether the end of a session is charged, from any point of any session on any run. */
  lemma {:induction false} SessionChargedIff(t: Story, es: seq<Event>)
    requires Safe(t) && InSession(t.sys.at)
    requires Session(t, es).sys.at == Check
    ensures Session(t, es).sys.core.retryPending <==> ChargedFor(t.sys.core, Actions(t, es))
    decreases |es|
  {
    if es != [] {
      var u := Observe(t, es[0]);
      StepKeepsSafety(t, es[0]);
      if InSession(u.sys.at) {
        SessionChargedIff(u, es[1..]);
        StepInSession(t, es[0]);
        ChargedForCons(ActionOf(t.sys, es[0]), Actions(u, es[1..]), t.sys.core, u.sys.core);
      } else {
        SessionEnds(t, es[0]);
        assert Actions(u, es[1..]) == [];
        assert [ActionOf(t.sys, es[0])] + [] == [ActionOf(t.sys, es[0])];
      }
    }
  }

  /**
    A restart takes the lock while the engine runs. The end of that session costs a delay exactly
    when a stop or an exception came after it, no restart after that, and the engine is wanted again.
  */
  lemma RestartChargedIff(t: Story, es: seq<Event>)
    requires Safe(t) && t.sys.command == RestartCounted && t.sys.core.engine == Running
    requires Session(Observe(t, CommandActs), es).sys.at == Check
    ensures var actions := Actions(Observe(t, CommandActs), es);
      Session(Observe(t, CommandActs), es).sys.core.retryPending
      <==> WantedAtEnd(actions, true) && RestartLost(actions, false)
  {
    StepKeepsSafety(t, CommandActs);
    SessionChargedIff(Observe(t, CommandActs), es);
  }

  /**
    restartEngine writes `stop` after it has released the lock. The session that the write hits, at
    whatever point, is charged as ChargedFor says of an engine that is wanted: if it comes up,
    exactly when the restart is no longer pending or lost before the end, unless it is renewed, and
    the engine is wanted.
  */
  lemma LateWriteChargedIff(t: Story, es: seq<Event>)
    requires Safe(t) && t.sys.command == RestartLocked && InSession(t.sys.at)
    requires Session(Observe(t, CommandActs), es).sys.at == Check
    ensures t.sys.core.desired
    ensures var actions := Actions(Observe(t, CommandActs), es);
      Session(Observe(t, CommandActs), es).sys.core.retryPending <==>
        if t.sys.core.engine == Running || Up in actions then
          WantedAtEnd(actions, true) && RestartLost(actions, !t.sys.core.restartPending)
        else
          t.sys.core.autoRetry && NoneOf(actions, {Want, Renew, Unwant})
  {
    StepKeepsSafety(t, CommandActs);
    SessionChargedIff(Observe(t, CommandActs), es);
  }

  /** The same but for `stop`, and for that too within a session. */
  predicate AlikeOutside(a: Story, b: Story) {
    && a.sys == b.sys.(stop := a.sys.stop) && a.causes == b.causes && a.charges == b.charges && a.up == b.up
    && (InSession(a.sys.at) ==> a.sys.stop == b.sys.stop)
  }

  lemma StepKeepsAlike(a: Story, b: Story, e: Event)
    requires AlikeOutside(a, b)
    ensures AlikeOutside(Observe(a, e), Observe(b, e))
  {
  }

  lemma {:induction false} RunKeepsAlike(a: Story, b: Story, es: seq<Event>)
    requires AlikeOutside(a, b)
    ensures AlikeOutside(Run(a, es), Run(b, es))
    decreases |es|
  {
    if es != [] {
      StepKeepsAlike(a, b, es[0]);
      RunKeepsAlike(Observe(a, es[0]), Observe(b, es[0]), es[1..]);
    }
  }

  /** A late write outside every session is lost: all that follows is as if it had not been made. */
  lemma LateWriteOutsideIsLost(t: Story, es: seq<Event>)
    requires t.sys.command == RestartLocked && !InSession(t.sys.at)
    ensures AlikeOutside(Run(Observe(t, CommandActs), es), Run(t.(sys := t.sys.(command := Idle)), es))
  {
    RunKeepsAlike(Observe(t, CommandActs), t.(sys := t.sys.(command := Idle)), es);
  }

  /**
    A stop takes the lock while the engine runs. If it is taken back before the session ends, that
    end costs a delay exactly when it was not taken back by a restart that is still pending.
  */
  lemma RevokedStopChargedIff(t: Story, es: seq<Event>)
    requires Safe(t) && t.sys.command == StopCounted && t.sys.core.engine == Running
    requires Session(Observe(t, CommandActs), es).sys.at == Check
    ensures var actions := Actions(Observe(t, CommandActs), es);
      Session(Observe(t, CommandActs), es).sys.core.retryPending
      <==> WantedAtEnd(actions, false) && RestartLost(actions, true)
  {
    StepKeepsSafety(t, CommandActs);
    SessionChargedIff(Observe(t, CommandActs), es);
  }

  /** Seven actions after a restart has set `stop`, the engine serves again and is not told to stop. */
  lemma RestartRestarts(t: Story)
    requires Safe(t) && t.sys.core.restartPending && t.sys.at == Serving && t.sys.stop && t.sys.command == Idle
    ensures var u := Run(t, [LoopActs, LoopActs, LoopActs, LoopActs, LoopActs, LoopActs, LoopActs]);
      u.sys.at == Serving && u.sys.core.engine == Running && !u.sys.stop
  {
    var u := Observe(Observe(Observe(t, LoopActs), LoopActs), LoopActs);
    assert u.sys.at == Consume && u.sys.core.desired && !u.sys.core.retryPending;
    var v := Observe(Observe(Observe(Observe(u, LoopActs), LoopActs), LoopActs), LoopActs);
    RunThree(t, LoopActs, LoopActs, LoopActs, [LoopActs, LoopActs, LoopActs, LoopActs]);
    RunThree(u, LoopActs, LoopActs, LoopActs, [LoopActs]);
    RunFirst(Observe(Observe(Observe(u, LoopActs), LoopActs), LoopActs), LoopActs, []);
  }

  lemma RunFirst(t: Story, a: Event, es: seq<Event>)
    ensures Run(t, [a] + es) == Run(Observe(t, a), es)
  {
    assert ([a] + es)[1..] == es;
  }

  lemma RunThree(t: Story, a: Event, b: Event, c: Event, es: seq<Event>)
    ensures Run(t, [a, b, c] + es) == Run(Observe(Observe(Observe(t, a), b), c), es)
  {
    var u := Observe(t, a);
    assert [a, b, c] + es == [a] + ([b, c] + es) && [b, c] + es == [b] + ([c] + es);
    RunFirst(t, a, [b, c] + es);
    RunFirst(u, b, [c] + es);
    RunFirst(Observe(u, b), c, es);
  }

  function AllActions(t: Story, es: seq<Event>): seq<Action>
    decreases |es|
  {
    if es == [] then [] else [ActionOf(t.sys, es[0])] + AllActions(Observe(t, es[0]), es[1..])
  }

  /** Whether attempts go on: a restart of a running engine or a charged stop came after the last start. */
  ghost predicate AttemptsGoOn(actions: seq<Action>, initially: bool) {
    Last(actions, {Renew, Charge}, {Want}, initially)
  }

  /** Where the engine is down and wanted, or is to be restarted, autoRetry says whether attempts go on. */
  predicate RetryIs(c: Core, goOn: bool) {
    (c.engine == Stopped && c.desired) || c.restartPending ==> c.autoRetry == goOn
  }

  lemma StepKeepsRetry(t: Story, e: Event, goOn: bool)
    requires Safe(t) && RetryIs(t.sys.core, goOn)
    ensures var a := ActionOf(t.sys, e); RetryIs(Next(t.sys, e).core, a in {Renew, Charge} || (a != Want && goOn))
  {
  }

  lemma {:induction false} RetryFollowsActions(t: Story, es: seq<Event>, goOn: bool) returns (now: bool)
    requires Safe(t) && RetryIs(t.sys.core, goOn)
    ensures RetryIs(Run(t, es).sys.core, now) && now == AttemptsGoOn(AllActions(t, es), goOn)
    decreases |es|
  {
    if es == [] {
      now := goOn;
    } else {
      var a, u := ActionOf(t.sys, es[0]), Observe(t, es[0]);
      var next := a in {Renew, Charge} || (a != Want && goOn);
      StepKeepsSafety(t, es[0]);
      StepKeepsRetry(t, es[0], goOn);
      now := RetryFollowsActions(u, es[1..], next);
      LastCons(a, AllActions(u, es[1..]), {Renew, Charge}, {Want}, goOn);
    }
  }

  /**
    What becomes of an attempt that failed before the engine ran, on any run from start-up: it is
    tried again after a delay, unless a start command or a restart of a stopped engine came after
    the last restart of a running one and the last charged stop; then the wish is given up. At
    start-up itself the first attempt is tried again.
  */
  lemma FailedAttemptIsRetriedIff(t: Story, es: seq<Event>)
    requires Initial(t)
    requires Run(t, es).sys.at == Report && Run(t, es).sys.core.engine == Stopped && Run(t, es).sys.core.desired
    ensures var core := Observe(Run(t, es), LoopActs).sys.core;
      core.desired == core.retryPending == AttemptsGoOn(AllActions(t, es), t.sys.core.desired)
  {
    AlwaysSafe(t, []);
    AlwaysSafe(t, es);
    var goOn := RetryFollowsActions(t, es, t.sys.core.desired);
  }

  // ---------- how long a delay is ----------

  function Seconds(es: seq<Event>): nat {
    if es == [] then 0 else (if es[0].Passes? then es[0].seconds else 0) + Seconds(es[1..])
  }

  /** The whole run is within one session. */
  predicate Stays(t: Story, es: seq<Event>)
    decreases |es|
  {
    InSession(t.sys.at) && (es == [] || Stays(Observe(t, es[0]), es[1..]))
  }

  lemma {:induction false} UpIsSeconds(t: Story, es: seq<Event>)
    requires t.sys.at in {Serving, Thrown, Report} && t.sys.core.engine == Running && Stays(t, es)
    ensures Run(t, es).up == t.up + Seconds(es) && Run(t, es).sys.core.engine == Running
    decreases |es|
  {
    if es != [] {
      UpIsSeconds(Observe(t, es[0]), es[1..]);
    }
  }

  lemma StepDelay(t: Story, e: Event)
    requires Safe(t)
    ensures var a, d := ActionOf(t.sys, e), Next(t.sys, e).core.retryDelay;
      if a in {Want, Renew, Unwant} then d == 0 else if a == Charge then d > 0 else d == t.sys.core.retryDelay
  {
    NextDelayIsBackoff(t.charges);
    NextDelayIsBackoff(0);
  }

  lemma {:induction false} DelayGone(t: Story, es: seq<Event>)
    requires Safe(t)
    ensures Run(t, es).sys.core.retryDelay == 0
       <==> Last(AllActions(t, es), {Want, Renew, Unwant}, {Charge}, t.sys.core.retryDelay == 0)
    decreases |es|
  {
    if es != [] {
      var a, u := ActionOf(t.sys, es[0]), Observe(t, es[0]);
      StepKeepsSafety(t, es[0]);
      StepDelay(t, es[0]);
      DelayGone(u, es[1..]);
      LastCons(a, AllActions(u, es[1..]), {Want, Renew, Unwant}, {Charge}, t.sys.core.retryDelay == 0);
    }
  }

  lemma {:induction false} DelayKept(t: Story, es: seq<Event>)
    requires Safe(t) && NoneOf(AllActions(t, es), {Want, Renew, Unwant, Charge})
    ensures Run(t, es).sys.core.retryDelay == t.sys.core.retryDelay
    decreases |es|
  {
    if es != [] {
      var a, u := ActionOf(t.sys, es[0]), Observe(t, es[0]);
      StepKeepsSafety(t, es[0]);
      StepDelay(t, es[0]);
      NoneOfCons(a, AllActions(u, es[1..]), {Want, Renew, Unwant, Charge});
      DelayKept(u, es[1..]);
    }
  }

  /** On any run: there is no delay exactly if a command came after the last charged stop; till then it stays. */
  lemma DelayStays(t: Story, es: seq<Event>)
    requires Safe(t)
    ensures var actions := AllActions(t, es);
      && (Run(t, es).sys.core.retryDelay == 0
          <==> Last(actions, {Want, Renew, Unwant}, {Charge}, t.sys.core.retryDelay == 0))
      && (NoneOf(actions, {Want, Renew, Unwant, Charge}) ==>
            Run(t, es).sys.core.retryDelay == t.sys.core.retryDelay)
  {
    DelayGone(t, es);
    if NoneOf(AllActions(t, es), {Want, Renew, Unwant, Charge}) {
      DelayKept(t, es);
    }
  }

  lemma {:induction false} NoChargeWithin(t: Story, es: seq<Event>)
    requires Stays(t, es)
    ensures Charge !in AllActions(t, es)
    decreases |es|
  {
    if es != [] {
      NoChargeWithin(Observe(t, es[0]), es[1..]);
    }
  }

  /**
    The price of a session that came up, from its events: if it ran for a minute and is charged, the
    delay is 5 seconds; if it ran for less, the delay is the next after the one before. The one before
    is none if a command was given during the session.
  */
  lemma HealthyRun(t: Story, es: seq<Event>)
    requires Safe(t) && t.sys.at == Starting && Stays(Observe(t, LoopActs), es)
    requires Run(Observe(t, LoopActs), es).sys.at == Report && Charged(Run(Observe(t, LoopActs), es).sys.core)
    ensures var actions := AllActions(Observe(t, LoopActs), es);
      var before := if NoneOf(actions, {Want, Renew, Unwant}) then t.sys.core.retryDelay else 0;
      var delay := Observe(Run(Observe(t, LoopActs), es), LoopActs).sys.core.retryDelay;
      && before in {0, 5, 10, 20, 40, 60}
      && delay == if Seconds(es) >= 60 || before == 0 then 5
                  else if before == 5 then 10 else if before == 10 then 20 else if before == 20 then 40 else 60
  {
    var u := Observe(t, LoopActs);
    StepKeepsSafety(t, LoopActs);
    AlwaysSafe(u, es);
    UpIsSeconds(u, es);
    DelayWithin(u, es);
    ChargedDelay(Run(u, es));
  }

  lemma ChargedDelay(t: Story)
    requires Safe(t) && t.sys.at == Report && Charged(t.sys.core) && t.sys.core.engine == Running
    ensures var before := t.sys.core.retryDelay;
      && before in {0, 5, 10, 20, 40, 60}
      && Observe(t, LoopActs).sys.core.retryDelay
         == if t.up >= 60 || before == 0 then 5
            else if before == 5 then 10 else if before == 10 then 20 else if before == 20 then 40 else 60
  {
    NextDelayIsBackoff(t.charges);
    NextDelayIsBackoff(0);
  }

  /** Within a session the delay is kept, unless a command clears it. */
  lemma DelayWithin(t: Story, es: seq<Event>)
    requires Safe(t) && Stays(t, es)
    ensures Run(t, es).sys.core.retryDelay ==
      if NoneOf(AllActions(t, es), {Want, Renew, Unwant}) then t.sys.core.retryDelay else 0
  {
    var actions := AllActions(t, es);
    DelayStays(t, es);
    NoChargeWithin(t, es);
    if !NoneOf(actions, {Want, Renew, Unwant}) {
      var a :| a in actions && a in {Want, Renew, Unwant};
      var k :| 0 <= k < |actions| && actions[k] == a;
      assert NoneOf(actions[k + 1..], {Charge});
    }
  }

  /** A restart whose next attempt fails is tried again exactly when the engine was running. */
  lemma RestartRetriesIff(c: Core, stopped: int, failed: int)
    ensures var r := AfterRestart(c);
      var down := if c.engine == Running then AfterStopped(r, stopped) else r;
      var after := AfterStopped(AfterFailed(down), failed);
      after.desired == after.retryPending == (c.engine == Running)
  {
    var r := AfterRestart(c);
    if c.engine == Running {
      var down := AfterStopped(r, stopped);
      assert down.autoRetry && down.desired && !down.restartPending && Charged(AfterFailed(down));
    }
  }

  // ---------- what a command achieves ----------

  function LoopActions(es: seq<Event>): nat {
    if es == [] then 0 else (if es[0] == LoopActs then 1 else 0) + LoopActions(es[1..])
  }

  /** How many loop actions an unwanted engine has left. */
  function Remaining(at: Loop): nat {
    match at
    case Starting => 3
    case Serving => 2
    case Thrown => 2
    case Report => 1
    case _ => 0
  }

  predicate Commands(e: Event) {
    e in {AskStart, AskStop, AskRestart}
  }

  /**
    Once stopEngine has returned, and until the next command, the engine is down after three
    actions of the loop at the latest and stays down.
  */
  lemma {:induction false} StopIsObeyed(t: Story, es: seq<Event>)
    requires Safe(t) && t.sys.command == Idle && !t.sys.core.desired
    requires forall e :: e in es ==> !Commands(e)
    ensures Remaining(Run(t, es).sys.at) + LoopActions(es) <= Remaining(t.sys.at)
         || Remaining(Run(t, es).sys.at) == 0
    ensures !Run(t, es).sys.core.desired
    decreases |es|
  {
    if es != [] {
      assert es[0] in es;
      StepKeepsSafety(t, es[0]);
      StopIsObeyed(Observe(t, es[0]), es[1..]);
    }
  }

  lemma StoppedWithinThree(t: Story, es: seq<Event>)
    requires Safe(t) && t.sys.command == Idle && !t.sys.core.desired
    requires forall e :: e in es ==> !Commands(e)
    requires LoopActions(es) >= 3
    ensures Run(t, es).sys.core.engine == Stopped
    ensures Run(t, es).sys.at !in {Starting, Serving, Thrown, Report}
  {
    StopIsObeyed(t, es);
    AlwaysSafe(t, es);
  }

  /** How many turns the loop sleeps through before it leaves its wait. */
  function Sleeps(t: Story, es: seq<Event>): nat
    decreases |es|
  {
    if es == [] || !t.sys.at.Wait? then 0
    else
      var u := Observe(t, es[0]);
      (if es[0] == LoopActs && u.sys.at.Wait? then 1 else 0) + Sleeps(u, es[1..])
  }

  /** How many actions the loop takes before the next command is counted. */
  function LoopsBeforeCommand(t: Story, es: seq<Event>): nat
    decreases |es|
  {
    if es == [] then 0
    else
      var u := Observe(t, es[0]);
      if u.sys.issued != t.sys.issued then 0
      else (if es[0] == LoopActs then 1 else 0) + LoopsBeforeCommand(u, es[1..])
  }

  /**
    From where the loop has noted the command count, a wait lasts its four turns a second or up to
    the next command that is counted, whichever is shorter: no other command cuts it.
  */
  lemma {:induction false} WaitLength(t: Story, es: seq<Event>)
    requires t.sys.at.Wait? && t.sys.at.seen == t.sys.issued && t.sys.at.slept <= t.sys.at.delay * 4
    ensures Sleeps(t, es) == Min(t.sys.at.delay * 4 - t.sys.at.slept, LoopsBeforeCommand(t, es))
    decreases |es|
  {
    if es != [] {
      var u := Observe(t, es[0]);
      if !u.sys.at.Wait? {
      } else if u.sys.issued == t.sys.issued {
        WaitLength(u, es[1..]);
      } else {
        CutShort(u, es[1..]);
      }
    }
  }

  lemma {:induction false} CutShort(t: Story, es: seq<Event>)
    requires t.sys.at.Wait? && t.sys.at.seen < t.sys.issued
    ensures Sleeps(t, es) == 0
    decreases |es|
  {
    if es != [] && Observe(t, es[0]).sys.at.Wait? {
      CutShort(Observe(t, es[0]), es[1..]);
    }
  }

  function Looped(t: Story, k: nat): Story {
    if k == 0 then t else Observe(Looped(t, k - 1), LoopActs)
  }

  lemma {:induction false} SleepsOn(t: Story, k: nat)
    requires t.sys.at.Wait? && t.sys.at.seen == t.sys.issued && t.sys.at.slept == 0
    requires k <= t.sys.at.delay * 4
    ensures Looped(t, k).sys == t.sys.(at := Wait(t.sys.at.delay, t.sys.issued, k))
  {
    if k > 0 {
      SleepsOn(t, k - 1);
    }
  }

  /**
    A restart that is counted before the loop notes the command count, but takes the lock only
    afterwards, clears the retry state and yet waits out the whole old delay.
  */
  lemma RestartCanMissWait(t: Story)
    requires t.sys.at.TakeSeq? && t.sys.command == RestartCounted && t.sys.core.engine == Stopped
    ensures var u := Looped(Observe(Observe(t, LoopActs), CommandActs), t.sys.at.delay * 4);
      && u.sys.at == Wait(t.sys.at.delay, t.sys.issued, t.sys.at.delay * 4)
      && u.sys.core.desired && u.sys.core.retryDelay == 0 && !u.sys.core.autoRetry && u.sys.command == Idle
  {
    SleepsOn(Observe(Observe(t, LoopActs), CommandActs), t.sys.at.delay * 4);
  }

  function FreshStory(): Story {
    Story(System(AtStartUp(true, 0), false, 0, Idle, Check, 0), {}, 0, 0)
  }

  /** From a cold start with the engine wanted, five actions of the loop bring it up. */
  lemma EngineComesUp()
    ensures Initial(FreshStory())
    ensures
      var up := Story(System(Core(true, false, Running, 0, false, false, 0), false, 0, Idle, Serving, 0), {}, 0, 0);
      Run(FreshStory(), [LoopActs, LoopActs, LoopActs] + [LoopActs, LoopActs]) == up
  {
    var u := Observe(Observe(Observe(FreshStory(), LoopActs), LoopActs), LoopActs);
    RunThree(FreshStory(), LoopActs, LoopActs, LoopActs, [LoopActs, LoopActs]);
    RunFirst(u, LoopActs, [LoopActs]);
    RunFirst(Observe(u, LoopActs), LoopActs, []);
    assert [LoopActs, LoopActs] == [LoopActs] + [LoopActs] && [LoopActs] + [] == [LoopActs];
  }

  /** The engine is down and due again in 5 seconds. */
  function Retried(): Story {
    Story(System(Core(true, false, Stopped, 0, true, true, 5), false, 0, Idle, Check, 0), {Threw}, 1, 0)
  }

  /** The first attempt after start-up fails: it is tried again after the first delay. */
  lemma FirstAttemptIsRetried()
    ensures var es := [LoopActs, LoopActs, LoopActs] + ([LoopActs, Throws, LoopActs] + [LoopActs]);
      && Run(FreshStory(), es) == Retried() && Safe(Retried())
  {
    var u := Observe(Observe(Observe(FreshStory(), LoopActs), LoopActs), LoopActs);
    assert u == Story(System(AtStartUp(true, 0), false, 0, Idle, Recheck, 0), {}, 0, 0);
    var v := Observe(Observe(Observe(u, LoopActs), Throws), LoopActs);
    assert v == Story(System(AtStartUp(true, 0), false, 0, Idle, Report, 0), {Threw}, 0, 0);
    RunThree(FreshStory(), LoopActs, LoopActs, LoopActs, [LoopActs, Throws, LoopActs] + [LoopActs]);
    RunThree(u, LoopActs, Throws, LoopActs, [LoopActs]);
    RunFirst(v, LoopActs, []);
    assert [LoopActs] + [] == [LoopActs];
  }

  /** The first attempt after a start command fails: the wish is given up. */
  lemma StartGivesUp(t: Story)
    requires Initial(t) && !t.sys.core.desired
    ensures var es := [AskStart, CommandActs, LoopActs]
                      + ([LoopActs, LoopActs, LoopActs] + [Throws, LoopActs, LoopActs]);
      var u := Run(t, es);
      u.sys.at == Check && !u.sys.core.desired && !u.sys.core.retryPending
  {
    var u := Observe(Observe(Observe(t, AskStart), CommandActs), LoopActs);
    var v := Observe(Observe(Observe(u, LoopActs), LoopActs), LoopActs);
    RunThree(t, AskStart, CommandActs, LoopActs, [LoopActs, LoopActs, LoopActs] + [Throws, LoopActs, LoopActs]);
    RunThree(u, LoopActs, LoopActs, LoopActs, [Throws, LoopActs, LoopActs]);
    RunThree(v, Throws, LoopActs, LoopActs, []);
    assert [Throws, LoopActs, LoopActs] + [] == [Throws, LoopActs, LoopActs];
  }

  /**
    A restart that misses the wait is reached wherever a retry is due, as after a first attempt that
    failed: the loop takes its delay, the restart is counted, the loop notes the count, and only then
    the restart takes the lock. It waits out the whole old delay.
  */
  lemma RestartMissesWait(t: Story)
    requires Safe(t) && t.sys.at == Check && t.sys.core.retryPending && t.sys.command == Idle
    ensures var u := Run(t, [LoopActs, LoopActs, AskRestart] + [LoopActs, CommandActs]);
      var delay := t.sys.core.retryDelay;
      && delay > 0 && u.sys.at == Wait(delay, u.sys.issued, 0)
      && Looped(u, delay * 4).sys == u.sys.(at := Wait(delay, u.sys.issued, delay * 4))
      && u.sys.core.desired && u.sys.core.retryDelay == 0 && u.sys.command == Idle
  {
    var a := Observe(Observe(Observe(t, LoopActs), LoopActs), AskRestart);
    RetryHasDelay(t);
    RunThree(t, LoopActs, LoopActs, AskRestart, [LoopActs, CommandActs]);
    RunFirst(a, LoopActs, [CommandActs]);
    RunFirst(Observe(a, LoopActs), CommandActs, []);
    assert [LoopActs, CommandActs] == [LoopActs] + [CommandActs] && [CommandActs] + [] == [CommandActs];
    SleepsOn(Observe(Observe(a, LoopActs), CommandActs), t.sys.core.retryDelay * 4);
  }

  lemma RetryHasDelay(t: Story)
    requires Safe(t) && t.sys.core.retryPending
    ensures t.sys.core.retryDelay > 0
  {
    NextDelayIsBackoff(t.charges - 1);
  }

  /**
    A stop that is taken back before the loop notices is not a restart: the engine still ends, and
    the station waits the first retry delay although nothing failed.
  */
  lemma RevokedStopIsCharged(t: Story)
    requires t.sys.at == Serving && t.sys.core.engine == Running && t.sys.command == Idle
    ensures var es := [AskStop, CommandActs, CommandActs] + ([AskStart, CommandActs, LoopActs] + [LoopActs]);
      && Run(t, es).sys.core.retryPending && Run(t, es).sys.core.retryDelay == 5
      && Run(t, es).causes == t.causes + {Revoked}
  {
    var u := Observe(Observe(Observe(t, AskStop), CommandActs), CommandActs);
    RunThree(t, AskStop, CommandActs, CommandActs, [AskStart, CommandActs, LoopActs] + [LoopActs]);
    RunThree(u, AskStart, CommandActs, LoopActs, [LoopActs]);
    RunFirst(Observe(Observe(Observe(u, AskStart), CommandActs), LoopActs), LoopActs, []);
    assert [LoopActs] + [] == [LoopActs];
  }

  /**
    A restart whose write of `stop` comes late stops the engine that already replaced the one it
    was meant for, and that stop is charged: a requested restart can incur a delay.
  */
  lemma LateRestartIsCharged(t: Story)
    requires Safe(t) && t.sys.at == Serving && t.sys.core.desired && t.sys.command == Idle
    ensures var down := [AskRestart, CommandActs, EndsItself] + [LoopActs, LoopActs, LoopActs];
      var up := [LoopActs, LoopActs, LoopActs] + [LoopActs];
      && Run(Run(t, down), up).sys.at == Serving && Run(Run(t, down), up).causes == {}
      && Run(Run(Run(t, down), up), [CommandActs, LoopActs, LoopActs]).sys.core.retryPending
  {
    var a := Observe(Observe(Observe(t, AskRestart), CommandActs), EndsItself);
    var b := Observe(Observe(Observe(a, LoopActs), LoopActs), LoopActs);
    RunThree(t, AskRestart, CommandActs, EndsItself, [LoopActs, LoopActs, LoopActs]);
    RunThree(a, LoopActs, LoopActs, LoopActs, []);
    assert [LoopActs, LoopActs, LoopActs] + [] == [LoopActs, LoopActs, LoopActs];
    assert b.sys.at == Consume && b.sys.command == RestartLocked && b.sys.core.desired && !b.sys.core.retryPending;
    LateWrite(b);
    AlwaysSafe(t, [AskRestart, CommandActs, EndsItself] + [LoopActs, LoopActs, LoopActs]);
    AlwaysSafe(b, [LoopActs, LoopActs, LoopActs] + [LoopActs]);
    LateWriteIsCharged(Run(b, [LoopActs, LoopActs, LoopActs] + [LoopActs]));
  }

  lemma LateWrite(b: Story)
    requires b.sys.at == Consume && b.sys.command == RestartLocked && b.sys.core.desired
    requires !b.sys.core.retryPending && !b.sys.core.restartPending
    ensures var c := Run(b, [LoopActs, LoopActs, LoopActs] + [LoopActs]);
      && c.sys.at == Serving && c.sys.command == RestartLocked && c.sys.core.desired
      && !c.sys.core.restartPending && c.causes == {}
  {
    RunThree(b, LoopActs, LoopActs, LoopActs, [LoopActs]);
    RunFirst(Observe(Observe(Observe(b, LoopActs), LoopActs), LoopActs), LoopActs, []);
    assert [LoopActs] + [] == [LoopActs];
  }

  lemma LateWriteIsCharged(t: Story)
    requires Safe(t) && t.sys.command == RestartLocked && t.sys.at == Serving && !t.sys.core.restartPending
    ensures Run(t, [CommandActs, LoopActs, LoopActs]).sys.core.retryPending
  {
    RunThree(t, CommandActs, LoopActs, LoopActs, []);
    assert [CommandActs, LoopActs, LoopActs] + [] == [CommandActs, LoopActs, LoopActs];
  }

  // ---------- the object ----------

  /** The control core, the flag, and where its two threads are; every event is one method call. */
  class Managed {
    const core: ControlCore
    const flag: StopFlag
    var command: Command
    var at: Loop
    var now: int
    ghost var story: Story

    ghost function Snapshot(): System
      reads this, core, flag
    {
      System(core.Value(), flag.stop, core.commandSeq, command, at, now)
    }

    ghost predicate Valid()
      reads this, core, flag
    {
      && story.sys == Snapshot() && story.charges == core.charges
      && core.Valid() && Safe(story)
    }

    constructor (wanted: bool)
      ensures Valid() && Initial(story) && story.sys.core.desired == wanted && fresh(core) && fresh(flag)
    {
      core := new ControlCore(wanted);
      flag := new StopFlag();
      command, at, now := Idle, Check, 0;
      story := Story(System(AtStartUp(wanted, 0), false, 0, Idle, Check, 0), {}, 0, 0);
      new;
      AlwaysSafe(story, []);
    }

    method Ask(wish: Command)
      requires Valid() && wish in {StartCounted, StopCounted, RestartCounted}
      modifies this`command, core`commandSeq
      ensures core.Valid() && core.charges == old(core.charges)
      ensures Snapshot() == (if old(command) == Idle
                             then old(Snapshot()).(issued := old(core.commandSeq) + 1, command := wish)
                             else old(Snapshot()))
    {
      if command == Idle {
        core.Count();
        command := wish;
      }
    }

    method CommandActs()
      requires Valid()
      modifies this`command, core, flag
      ensures core.Valid() && Snapshot() == CommandNext(old(Snapshot()))
      ensures core.charges == NextCharges(story, Event.CommandActs)
    {
      match command
      case Idle =>
      case StartCounted =>
        core.LockedStart();
        command := Idle;
      case StopCounted =>
        core.LockedStop();
        command := StopLocked;
      case RestartCounted =>
        var running := core.LockedRestart();
        command := if running then RestartLocked else Idle;
      case StopLocked =>
        flag.StopRequest();
        command := Idle;
      case RestartLocked =>
        flag.StopRequest();
        command := Idle;
    }

    /** The loop before it starts an engine. */
    method Prepare()
      requires Valid() && !InSession(at)
      modifies this`at, core`retryPending, flag
      ensures core.Valid() && Snapshot() == LoopNext(old(Snapshot()))
    {
      match at
      case Check =>
        at := if core.desired then Consume else Check;
      case Consume =>
        var delay := core.ConsumeRetryDelay();
        at := if delay > 0 then TakeSeq(delay) else ClearStop;
      case TakeSeq(delay) =>
        at := Wait(delay, core.commandSeq, 0);
      case Wait(delay, seen, slept) =>
        at := if slept < delay * 4 && core.commandSeq == seen then Wait(delay, seen, slept + 1) else AfterWait;
      case AfterWait =>
        at := if core.desired then ClearStop else Check;
      case ClearStop =>
        flag.Clear();
        at := Recheck;
    }

    /** The loop while it has an engine. */
    method Serve()
      requires Valid() && InSession(at)
      modifies this`at, core
      ensures core.Valid() && Snapshot() == LoopNext(old(Snapshot()))
      ensures core.charges == NextCharges(old(story), Event.LoopActs)
    {
      match at
      case Recheck =>
        at := if core.desired then Starting else Check;
      case Starting =>
        core.ReportRunning(now);
        at := Serving;
      case Serving =>
        at := if flag.stop then Report else Serving;
      case Thrown =>
        core.EngineFailed();
        at := Report;
      case Report =>
        core.ReportStopped(now);
        at := Check;
    }

    /** One event: the objects do what the state machine says, so all that holds on every run holds of them. */
    method Step(e: Event)
      requires Valid()
      modifies this, core, flag
      ensures Valid() && story == Observe(old(story), e)
    {
      ghost var before := story;
      match e {
      case AskStart => Ask(StartCounted);
      case AskStop => Ask(StopCounted);
      case AskRestart => Ask(RestartCounted);
      case CommandActs => CommandActs();
      case LoopActs => if InSession(at) { Serve(); } else { Prepare(); }
      case Throws => at := if at in {Starting, Serving} then Thrown else at;
      case EndsItself => if at in {Starting, Serving, Thrown, Report} { flag.StopRequest(); }
      case Passes(seconds) => now := now + seconds;
      }
      StepKeepsSafety(before, e);
      story := Observe(before, e);
    }

    /** On every run of the objects the system is safe, and it is where the state machine is. */
    method Perform(es: seq<Event>)
      requires Valid()
      modifies this, core, flag
      ensures Valid() && story == Run(old(story), es)
    {
      var k := 0;
      assert es[0..] == es;
      while k < |es|
        invariant k <= |es|
        invariant Valid() && Run(story, es[k..]) == Run(old(story), es)
      {
        assert es[k..][0] == es[k] && es[k..][1..] == es[k + 1..];
        Step(es[k]);
        k := k + 1;
      }
      assert es[k..] == [];
    }
  }
}
