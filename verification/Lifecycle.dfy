/** The daemon's engine lifecycle as a step relation.

    One step is one section executed under the lock, or one action between two such sections; between steps any
    other thread may run.  The functions on `Inner` are the critical sections themselves, and `Shared` is the
    object whose methods execute them. */
module Lifecycle {
  import opened Wrappers

  datatype SessionState = Stopped | Authenticating | Connecting | Connected | Reconnecting | Failed

  predicate Terminal(s: SessionState) {
    s.Stopped? || s.Failed?
  }

  type Tid = nat

  /** The mutex-guarded fields the lifecycle depends on. */
  datatype Inner = Inner(
    state: SessionState,
    stopRequested: bool,
    generation: nat,
    engine: Option<Tid>,
    cmdFd: bool,
    cookie: bool,
    health: bool,
    config: bool)

  // ---------------------------------------------------------------------
  // Critical sections

  /** `request_stop`. */
  function WithStop(i: Inner): Inner {
    i.(stopRequested := true)
  }

  /** The check at the start of `engine_start`; refused while a handle is stored. */
  function Accept(i: Inner): Option<Inner> {
    if i.engine.Some? then None
    else Some(i.(stopRequested := false, config := true, generation := i.generation + 1))
  }

  /** `mark_engine_finished`. */
  function MarkFinished(i: Inner): Inner {
    i.(cmdFd := false, engine := None)
  }

  /** The critical section of `schedule_engine_retry`. */
  function Schedule(i: Inner): Option<Inner> {
    if i.stopRequested then None else Some(i.(generation := i.generation + 1))
  }

  /** The check of a retry thread that carries `generation`. */
  predicate MayRetry(i: Inner, generation: nat) {
    !i.stopRequested && i.generation == generation && i.engine.None? && i.state.Failed?
  }

  datatype NetAction = Ignore | Pause | RestartFailed

  /** What `network_changed` decides under the lock. */
  function NetDecision(i: Inner): NetAction {
    if i.state.Connected? || i.state.Reconnecting? then (if i.cmdFd then Pause else Ignore)
    else if i.state.Failed? && i.engine.None? && i.config then RestartFailed
    else Ignore
  }

  class Shared {
    var state: SessionState
    var stopRequested: bool
    var retryGeneration: nat
    var engine: Option<Tid>
    var cmdFd: bool
    var cookie: bool
    var health: bool
    var config: bool

    ghost function View(): Inner
      reads this
    {
      Inner(state, stopRequested, retryGeneration, engine, cmdFd, cookie, health, config)
    }

    constructor ()
      ensures View() == Inner(Stopped, false, 0, None, false, false, false, false)
    {
      state, stopRequested, retryGeneration, engine := Stopped, false, 0, None;
      cmdFd, cookie, health, config := false, false, false, false;
    }

    method SetState(s: SessionState)
      modifies this`state
      ensures View() == old(View()).(state := s)
    {
      if state != s {
        state := s;
      }
    }

    method RequestStop() returns (cancel: bool)
      modifies this`stopRequested
      ensures View() == WithStop(old(View())) && cancel == cmdFd
    {
      stopRequested := true;
      cancel := cmdFd;
    }

    method AcceptStart() returns (accepted: bool)
      modifies this`stopRequested, this`config, this`retryGeneration
      ensures accepted == Accept(old(View())).Some?
      ensures View() == if accepted then Accept(old(View())).value else old(View())
    {
      if engine.Some? {
        return false;
      }
      stopRequested := false;
      config := true;
      retryGeneration := retryGeneration + 1;
      accepted := true;
    }

    method SetEngine(handle: Tid)
      modifies this`engine
      ensures View() == old(View()).(engine := Some(handle))
    {
      engine := Some(handle);
    }

    method MarkEngineFinished()
      modifies this`cmdFd, this`engine
      ensures View() == MarkFinished(old(View()))
    {
      cmdFd := false;
      engine := None;
    }

    method ScheduleEngineRetry() returns (generation: Option<nat>)
      modifies this`retryGeneration
      ensures generation == if Schedule(old(View())).Some? then Some(retryGeneration) else None
      ensures View() == if generation.Some? then Schedule(old(View())).value else old(View())
    {
      if stopRequested {
        return None;
      }
      retryGeneration := retryGeneration + 1;
      generation := Some(retryGeneration);
    }

    method RetryCheck(generation: nat) returns (go: bool)
      ensures go == MayRetry(View(), generation)
    {
      if stopRequested || retryGeneration != generation || engine.Some? || state != Failed {
        return false;
      }
      go := true;
    }

    method NetworkChanged() returns (action: NetAction)
      ensures action == NetDecision(View())
    {
      if state == Connected || state == Reconnecting {
        action := if cmdFd then Pause else Ignore;
      } else if state == Failed && engine.None? {
        action := if config then RestartFailed else Ignore;
      } else {
        action := Ignore;
      }
    }

    /** The end of `stop_health`, after the probe thread was joined: two critical sections. */
    method ClearHealthAndCookie()
      modifies this`health, this`cookie
      ensures View() == old(View()).(health := false, cookie := false)
    {
      health := false;
      cookie := false;
    }
  }

  // ---------------------------------------------------------------------
  // Threads

  /** Where an engine thread is in `engine_run`. */
  datatype EnginePc =
    | Launched
    | SettingUp                 // state Authenticating set
    | HaveFd                    // command pipe stored
    | LoggedIn                  // cookie stored if there was one
    | Probing                   // health probe started
    | Negotiating               // state Connecting set
    | InMainloop                // state Connected set
    | Paused                    // main loop returned 0, stop not seen
    | Resuming                  // second look at the stop flag done
    | StopSeen                  // main loop returned, stop seen
    | Unwinding(failed: bool)   // the closure has returned
    | Joining(failed: bool, probe: Option<Tid>)
    | ProbeGone(failed: bool)
    | HealthCleared(failed: bool)
    | Judging                   // about to read the stop flag
    | Verdict(stopped: bool)
    | Reported                  // state Failed set
    | Rearming(generation: nat) // about to spawn the retry thread
    | Leaving                   // about to drop the guard

  datatype Origin = User | FromRetry(generation: nat) | FromNet

  datatype StartPc = Entering | Accepted | Spawned(engine: Tid)

  datatype Thread =
    | Engine(pc: EnginePc)
    | Probe(asking: bool)
    | Retry(generation: nat)
    | Pausing
    | Start(origin: Origin, at: StartPc)
    | Restarting

  datatype Daemon = Daemon(
    inner: Inner,
    healthStop: bool,
    probe: Option<Tid>,          // the stored handle of the probe thread
    threads: map<Tid, Thread>,
    next: Tid)                   // thread names not yet used

  function Init(): Daemon {
    Daemon(Inner(Stopped, false, 0, None, false, false, false, false), false, None, map[], 0)
  }

  // ---------------------------------------------------------------------
  // Steps

  /** What the engine's surroundings decide at a step. */
  datatype EngineOp =
    | Proceed
    | Fail
    | BadString
    | Login(cookie: bool)
    | SessionReconnected
    | MainloopReturns(paused: bool)

  datatype Action =
    | EngineStep(engine: Tid, op: EngineOp)
    | ProbeStep(probe: Tid)
    | RetryStep(retry: Tid, networkUp: bool)
    | NetEvent
    | PauseStep(pauser: Tid)
    | StartStep(starter: Tid)
    | UserStart
    | UserStop
    | UserRestart
    | RestartStep(waiter: Tid, giveUp: bool)

  function Put(s: Daemon, t: Tid, thread: Thread): Daemon {
    s.(threads := s.threads[t := thread])
  }

  function Gone(s: Daemon, t: Tid): Daemon {
    s.(threads := s.threads - {t})
  }

  /** A new thread under a name that was never used. */
  function Spawn(s: Daemon, thread: Thread): Daemon {
    s.(threads := s.threads[s.next := thread], next := s.next + 1)
  }

  function WithState(s: Daemon, state: SessionState): Daemon {
    s.(inner := s.inner.(state := state))
  }

  /** Moving an engine thread on. */
  function Move(s: Daemon, e: Tid, pc: EnginePc): Daemon {
    Put(s, e, Engine(pc))
  }

  /** One step of an engine thread; `None` if the operation does not apply here. */
  function EngineNext(s: Daemon, e: Tid, pc: EnginePc, op: EngineOp): Option<Daemon> {
    match pc
    case SettingUp =>
      if op.Proceed? then Some(Move(s.(inner := s.inner.(cmdFd := true)), e, HaveFd))
      else if op.BadString? then Some(Move(WithState(s, Failed), e, Leaving))
      else if op.Fail? then Some(Move(s, e, Unwinding(true)))
      else None
    case HaveFd =>
      if op.Login? then Some(Move(s.(inner := s.inner.(cookie := op.cookie || s.inner.cookie)), e, LoggedIn))
      else if op.Fail? then Some(Move(s, e, Unwinding(true)))
      else None
    case Negotiating =>
      if op.Proceed? then Some(Move(WithState(s, Connected), e, InMainloop))
      else if op.Fail? then Some(Move(s, e, Unwinding(true)))
      else None
    case InMainloop =>
      if op.SessionReconnected? then Some(WithState(s, Connected))
      else if op.MainloopReturns? then
        Some(Move(s, e, if s.inner.stopRequested then StopSeen else if op.paused then Paused else Unwinding(true)))
      else None
    case Joining(_, probe) =>
      if op.Proceed? && !(probe.Some? && probe.value in s.threads) then Some(Unconditional(s, e, pc)) else None
    case _ => if op.Proceed? then Some(Unconditional(s, e, pc)) else None
  }

  /** The steps with only one way on. */
  function Unconditional(s: Daemon, e: Tid, pc: EnginePc): Daemon {
    match pc
    case Launched => Move(WithState(s, Authenticating), e, SettingUp)
    case LoggedIn => Spawn(Move(s, e, Probing), Probe(false)).(healthStop := false, probe := Some(s.next))
    case Probing => Move(WithState(s, Connecting), e, Negotiating)
    case Paused => Move(s, e, if s.inner.stopRequested then StopSeen else Resuming)
    case Resuming => Move(WithState(s, Reconnecting), e, InMainloop)
    case StopSeen => Move(WithState(s, Stopped), e, Unwinding(false))
    case Unwinding(failed) => Move(s.(healthStop := true, probe := None), e, Joining(failed, s.probe))
    case Joining(failed, _) => Move(s, e, ProbeGone(failed))
    case ProbeGone(failed) => Move(s.(inner := s.inner.(health := false)), e, HealthCleared(failed))
    case HealthCleared(failed) => Move(s.(inner := s.inner.(cookie := false)), e, if failed then Judging else Leaving)
    case Judging => Move(s, e, Verdict(s.inner.stopRequested))
    case Verdict(stopped) =>
      if stopped then Move(WithState(s, Stopped), e, Leaving) else Move(WithState(s, Failed), e, Reported)
    case Reported =>
      var scheduled := Schedule(s.inner);
      if scheduled.None? then Move(s, e, Leaving)
      else Move(s.(inner := scheduled.value), e, Rearming(scheduled.value.generation))
    case Rearming(generation) => Spawn(Move(s, e, Leaving), Retry(generation))
    case Leaving => Gone(s.(inner := MarkFinished(s.inner)), e)
    case _ => s
  }

  /** One step of a health probe thread. */
  function ProbeNext(s: Daemon, p: Tid, asking: bool): Daemon {
    if asking then Put(s.(inner := s.inner.(health := true)), p, Probe(false))
    else if s.healthStop then Gone(s, p)
    else if s.inner.cookie then Put(s, p, Probe(true))
    else s
  }

  /** A retry thread wakes up. */
  function RetryNext(s: Daemon, r: Tid, generation: nat, networkUp: bool): Daemon {
    if !MayRetry(s.inner, generation) then Gone(s, r)
    else if !networkUp then s
    else Put(s, r, Start(FromRetry(generation), Entering))
  }

  /** One step of a thread inside `engine_start`. */
  function StartNext(s: Daemon, x: Tid, origin: Origin, at: StartPc): Daemon {
    match at
    case Entering =>
      var accepted := Accept(s.inner);
      if accepted.None? then Gone(s, x) else Put(s.(inner := accepted.value), x, Start(origin, Accepted))
    case Accepted => Spawn(Put(s, x, Start(origin, Spawned(s.next))), Engine(Launched))
    case Spawned(e) => Gone(s.(inner := s.inner.(engine := Some(e))), x)
  }

  function Next(s: Daemon, a: Action): Option<Daemon> {
    match a
    case EngineStep(e, op) =>
      if e in s.threads && s.threads[e].Engine? then EngineNext(s, e, s.threads[e].pc, op) else None
    case ProbeStep(p) =>
      if p in s.threads && s.threads[p].Probe? then Some(ProbeNext(s, p, s.threads[p].asking)) else None
    case RetryStep(r, networkUp) =>
      if r in s.threads && s.threads[r].Retry? then Some(RetryNext(s, r, s.threads[r].generation, networkUp)) else None
    case NetEvent =>
      (match NetDecision(s.inner)
       case Ignore => Some(s)
       case Pause => Some(Spawn(s, Pausing))
       case RestartFailed => Some(Spawn(s, Start(FromNet, Entering))))
    case PauseStep(n) =>
      if n in s.threads && s.threads[n].Pausing? then Some(Gone(WithState(s, Reconnecting), n)) else None
    case StartStep(x) =>
      if x in s.threads && s.threads[x].Start? then
        Some(StartNext(s, x, s.threads[x].origin, s.threads[x].at))
      else None
    case UserStart => Some(Spawn(s, Start(User, Entering)))
    case UserStop => Some(s.(inner := WithStop(s.inner)))
    case UserRestart => Some(Spawn(s.(inner := WithStop(s.inner)), Restarting))
    case RestartStep(x, giveUp) =>
      if x !in s.threads || !s.threads[x].Restarting? then None
      else if giveUp then Some(Gone(s, x))
      else if s.inner.engine.Some? then Some(s)
      else Some(Put(s, x, Start(User, Entering)))
  }

  // ---------------------------------------------------------------------
  // Runs

  /** Every action applies when its turn comes. */
  ghost predicate Possible(s: Daemon, actions: seq<Action>)
    decreases |actions|
  {
    actions != [] ==> Next(s, actions[0]).Some? && Possible(Next(s, actions[0]).value, actions[1..])
  }

  ghost function Run(s: Daemon, actions: seq<Action>): Daemon
    requires Possible(s, actions)
    decreases |actions|
  {
    if actions == [] then s else Run(Next(s, actions[0]).value, actions[1..])
  }

  /** The thread is in the middle of starting an engine, of acting on a network event, or of leaving `engine_run`. */
  predicate InSection(t: Thread) {
    match t
    case Start(_, _) => true
    case Pausing => true
    case Engine(pc) =>
      !(pc.Launched? || pc.SettingUp? || pc.HaveFd? || pc.LoggedIn? || pc.Probing? || pc.Negotiating?
        || pc.InMainloop? || pc.Paused? || pc.Resuming?)
    case _ => false
  }

  ghost predicate SectionOpen(s: Daemon) {
    exists t :: t in s.threads && InSection(s.threads[t])
  }

  function Actor(a: Action): Option<Tid> {
    match a
    case EngineStep(e, _) => Some(e)
    case ProbeStep(p) => Some(p)
    case RetryStep(r, _) => Some(r)
    case PauseStep(n) => Some(n)
    case StartStep(x) => Some(x)
    case RestartStep(x, _) => Some(x)
    case _ => None
  }

  /** The action may overlap anything: a stop request or a health probe. */
  predicate Free(a: Action) {
    a.UserStop? || a.UserRestart? || a.ProbeStep?
  }

  /** Starting, reacting to the network and leaving do not overlap: while a thread is in the middle of one of them,
      only that thread steps, apart from stop requests and health probes. */
  ghost predicate Undisturbed(s: Daemon, a: Action) {
    Free(a) || forall t :: t in s.threads && InSection(s.threads[t]) ==> Actor(a) == Some(t)
  }

  ghost predicate NonOverlapping(s: Daemon, actions: seq<Action>)
    requires Possible(s, actions)
    decreases |actions|
  {
    actions != [] ==>
      && Undisturbed(s, actions[0])
      && NonOverlapping(Next(s, actions[0]).value, actions[1..])
  }
}
