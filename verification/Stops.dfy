/** When a stop sticks.

    A stop sticks exactly when the engine has yet to read the stop flag or has read it, or, with no engine, when the
    session is Stopped or there is no configuration to restart it with (`StopSticksExactly`). */
module Stops {
  import opened Wrappers
  import opened Lifecycle
  import opened Sessions
  import opened Retries

  /** Neither a start nor a restart was asked for, and the configuration is sound. */
  predicate HandsOff(a: Action) {
    !a.UserStart? && !a.UserRestart? && NulFree(a)
  }

  ghost predicate AllHandsOff(actions: seq<Action>) {
    forall k :: 0 <= k < |actions| ==> HandsOff(actions[k])
  }

  /** A stop is pending or done, and no thread but `e` is or becomes an engine. */
  ghost predicate WindingDown(s: Daemon, e: Tid) {
    && s.inner.stopRequested
    && (forall t :: t in s.threads ==> !s.threads[t].Start? && !s.threads[t].Restarting?)
    && (forall t :: t in s.threads && s.threads[t].Engine? ==> t == e && StopPending(s.inner.state, s.threads[t].pc))
    && (NoEngine(s) ==> s.inner.state.Stopped?)
  }

  /** An engine that is past the point where it reads the stop flag has seen it. */
  predicate StopPending(state: SessionState, pc: EnginePc) {
    match pc
    case Verdict(stopped) => stopped
    case Reported => false
    case Rearming(_) => false
    case Leaving => state.Stopped?
    case _ => true
  }

  /** With a stop requested, every way to the end of `engine_run` sets Stopped. */
  lemma EngineStopTail(s: Daemon, e: Tid, op: EngineOp)
    requires e in s.threads && e < s.next && s.threads[e].Engine? && EngineFits(s, s.threads[e].pc)
    requires EngineNext(s, e, s.threads[e].pc, op).Some? && !op.BadString? && !s.threads[e].pc.Leaving?
    requires s.inner.stopRequested && StopPending(s.inner.state, s.threads[e].pc)
    ensures StopPendingIn(EngineNext(s, e, s.threads[e].pc, op).value, e)
  {
    hide OnlyProbe, Clean, Unconditional, EngineFits;
    UnconditionalStopTail(s, e);
  }

  ghost predicate StopPendingIn(s: Daemon, e: Tid) {
    e in s.threads && s.threads[e].Engine? && StopPending(s.inner.state, s.threads[e].pc) && s.inner.stopRequested
  }

  lemma UnconditionalStopTail(s: Daemon, e: Tid)
    requires e in s.threads && e < s.next && s.threads[e].Engine? && EngineFits(s, s.threads[e].pc)
    requires s.inner.stopRequested && StopPending(s.inner.state, s.threads[e].pc) && !s.threads[e].pc.Leaving?
    ensures StopPendingIn(Unconditional(s, e, s.threads[e].pc), e)
  {
    hide OnlyProbe, Clean;
  }

  ghost predicate NoRestart(s: Daemon) {
    forall t :: t in s.threads ==> !s.threads[t].Restarting?
  }

  lemma EngineLeavesOthers(s: Daemon, e: Tid, op: EngineOp)
    requires Alone(s, e) && EngineNext(s, e, s.threads[e].pc, op).Some? && NoRestart(s)
    ensures NoRestart(EngineNext(s, e, s.threads[e].pc, op).value)
  {
    hide EngineFits, Unconditional;
    UnconditionalLeavesOthers(s, e, s.threads[e].pc);
  }

  lemma UnconditionalLeavesOthers(s: Daemon, e: Tid, pc: EnginePc)
    requires NoRestart(s)
    ensures NoRestart(Unconditional(s, e, pc))
  {
  }

  lemma EngineWindsDown(s: Daemon, e: Tid, op: EngineOp)
    requires Alone(s, e) && WindingDown(s, e) && EngineNext(s, e, s.threads[e].pc, op).Some? && !op.BadString?
    ensures WindingDown(EngineNext(s, e, s.threads[e].pc, op).value, e)
  {
    hide EngineFits, OnlyProbe, Unconditional;
    EngineStepOrderly(s, e, op);
    if !s.threads[e].pc.Leaving? {
      hide EngineNext, StopPending;
      EngineLeavesOthers(s, e, op);
      EngineStopTail(s, e, op);
    } else {
      GoneEngine(s, e);
    }
  }

  lemma GoneEngine(s: Daemon, e: Tid)
    requires Alone(s, e) && WindingDown(s, e) && s.threads[e].pc.Leaving?
    ensures WindingDown(Unconditional(s, e, Leaving), e)
  {
  }

  lemma NobodyRestarts(s: Daemon, e: Tid)
    requires Orderly(s) && WindingDown(s, e)
    ensures NetDecision(s.inner) != RestartFailed
    ensures NetDecision(s.inner) == Pause ==> !NoEngine(s)
  {
  }

  /** Steps that leave the engines and the session state alone and start nothing. */
  lemma UntouchedWindsDown(s: Daemon, n: Daemon, e: Tid)
    requires WindingDown(s, e) && n.inner.stopRequested && n.inner.state == s.inner.state
    requires forall t :: t in n.threads ==> !n.threads[t].Start? && !n.threads[t].Restarting?
    requires forall t :: t in s.threads && s.threads[t].Engine? ==> t in n.threads && n.threads[t] == s.threads[t]
    requires forall t :: t in n.threads && n.threads[t].Engine? ==> t in s.threads && n.threads[t] == s.threads[t]
    ensures WindingDown(n, e)
  {
    hide StopPending;
    assert NoEngine(n) ==> NoEngine(s);
  }

  lemma PauseWindsDown(s: Daemon, x: Tid, e: Tid)
    requires Orderly(s) && WindingDown(s, e) && x in s.threads && s.threads[x].Pausing?
    ensures WindingDown(Gone(WithState(s, Reconnecting), x), e)
  {
    hide Orderly, EngineFits;
    InsideSection(s, x);
    var d, n := s.inner.engine.value, Gone(WithState(s, Reconnecting), x);
    assert d in n.threads && n.threads[d].Engine? && !n.threads[d].pc.Leaving?;
  }

  lemma StepWindsDown(s: Daemon, a: Action, e: Tid)
    requires Orderly(s) && WindingDown(s, e) && Next(s, a).Some? && Undisturbed(s, a) && HandsOff(a)
    ensures WindingDown(Next(s, a).value, e)
  {
    hide Orderly, EngineNext, Undisturbed, StopPending;
    var n := Next(s, a).value;
    match a
    case EngineStep(x, op) =>
      EngineActsAlone(s, x, op);
      EngineWindsDown(s, x, op);
    case ProbeStep(p) => UntouchedWindsDown(s, n, e);
    case RetryStep(r, networkUp) => UntouchedWindsDown(s, n, e);
    case NetEvent =>
      NobodyRestarts(s, e);
      NamesAreFresh(s);
      UntouchedWindsDown(s, n, e);
    case PauseStep(x) => PauseWindsDown(s, x, e);
    case StartStep(x) =>
    case UserStop => UntouchedWindsDown(s, n, e);
    case RestartStep(x, giveUp) =>
  }

  lemma {:induction false} RunWindsDown(s: Daemon, actions: seq<Action>, e: Tid)
    requires Orderly(s) && WindingDown(s, e)
    requires Possible(s, actions) && NonOverlapping(s, actions) && AllHandsOff(actions)
    ensures WindingDown(Run(s, actions), e) && Orderly(Run(s, actions))
    decreases |actions|
  {
    hide Orderly, WindingDown, Next, Undisturbed, HandsOff;
    if actions != [] {
      StepWindsDown(s, actions[0], e);
      StepOrderly(s, actions[0]);
      assert AllHandsOff(actions[1..]) by { LaterHandsOff(actions); }
      RunWindsDown(Next(s, actions[0]).value, actions[1..], e);
    }
  }

  // ---------------------------------------------------------------------
  // With no engine

  /** A stop was requested, there is no engine, and nothing a network event would restart. */
  ghost predicate Dormant(s: Daemon) {
    && s.inner.stopRequested && s.inner.engine.None? && Terminal(s.inner.state)
    && (s.inner.state.Stopped? || !s.inner.config)
    && forall t :: t in s.threads ==> s.threads[t].Probe? || s.threads[t].Retry?
  }

  lemma {:induction false} RunStaysDormant(s: Daemon, actions: seq<Action>)
    requires Dormant(s) && Possible(s, actions) && AllHandsOff(actions)
    ensures Dormant(Run(s, actions))
    decreases |actions|
  {
    if actions != [] {
      assert HandsOff(actions[0]);
      StepStaysDormant(s, actions[0]);
      assert AllHandsOff(actions[1..]) by { LaterHandsOff(actions); }
      RunStaysDormant(Next(s, actions[0]).value, actions[1..]);
    }
  }

  lemma StepStaysDormant(s: Daemon, a: Action)
    requires Dormant(s) && Next(s, a).Some? && HandsOff(a)
    ensures Dormant(Next(s, a).value)
  {
    hide EngineNext;
  }

  lemma LaterHandsOff(actions: seq<Action>)
    requires actions != [] && AllHandsOff(actions)
    ensures AllHandsOff(actions[1..])
  {
    assert forall k :: 0 <= k < |actions[1..]| ==> actions[1..][k] == actions[k + 1];
  }

  // ---------------------------------------------------------------------
  // The exact condition

  /** A continuation in which the three operations do not overlap and the user asks for no start. */
  ghost predicate Continues(s: Daemon, actions: seq<Action>) {
    Possible(s, actions) && NonOverlapping(s, actions) && AllHandsOff(actions)
  }

  lemma ContinuesMeansPossible(s: Daemon, actions: seq<Action>)
    requires Continues(s, actions)
    ensures Possible(s, actions)
  {
  }

  /** No engine but the one there was, no start under way, the stop still pending; and if there was an engine and it is
      gone, the session is Stopped. */
  ghost predicate Settles(engine: Option<Tid>, end: Daemon) {
    && end.inner.stopRequested
    && (forall t :: t in end.threads ==> !end.threads[t].Start?)
    && (forall t :: t in end.threads && end.threads[t].Engine? ==> engine == Some(t))
    && (engine.Some? && end.inner.engine.None? ==> end.inner.state.Stopped?)
  }

  /** After a stop requested now, every continuation settles. */
  ghost predicate Sticks(s: Daemon) {
    var stopped := s.(inner := WithStop(s.inner));
    forall actions :: Continues(stopped, actions) ==> Settles(s.inner.engine, Run(stopped, actions))
  }

  /** The stop comes in time: the engine has yet to read the flag, or has read it and is bound for Stopped; or there is
      none, and none will be started from the stored configuration. */
  ghost predicate InTime(s: Daemon) {
    match s.inner.engine
    case Some(e) => e in s.threads && s.threads[e].Engine? && StopPending(s.inner.state, s.threads[e].pc)
    case None => s.inner.state.Stopped? || !s.inner.config
  }

  ghost predicate NobodyAsked(s: Daemon) {
    forall t :: t in s.threads ==> !s.threads[t].Start? && !s.threads[t].Restarting?
  }

  lemma NoStarterMeansRegistered(s: Daemon)
    requires Orderly(s) && NobodyAsked(s)
    ensures forall t :: t in s.threads && s.threads[t].Engine? ==> s.inner.engine == Some(t)
    ensures s.inner.engine.None? ==> Resting(s)
  {
    hide EngineFits;
    assert forall t :: t in s.threads && s.threads[t].Engine? ==> !StartingEngine(s, t);
    if s.inner.engine.None? {
      assert forall t :: t in s.threads ==> SectionFits(s, s.threads[t]);
      OutsideSections(s);
    }
  }

  lemma InTimeWindsDown(s: Daemon, e: Tid)
    requires Orderly(s) && NobodyAsked(s) && s.inner.engine == Some(e) && InTime(s)
    ensures var stopped := s.(inner := WithStop(s.inner)); WindingDown(stopped, e) && Orderly(stopped)
  {
    hide EngineFits, SectionFits;
    NoStarterMeansRegistered(s);
    StopOrderly(s);
    hide Orderly;
    var stopped := s.(inner := WithStop(s.inner));
    assert e in stopped.threads && stopped.threads[e].Engine?;
  }

  /** A stop given in time, at whatever place the engine is: in every continuation no network event and no retry starts
      another, and once the engine is gone the session is Stopped. */
  lemma StopSticks(s: Daemon, actions: seq<Action>)
    requires Orderly(s) && NobodyAsked(s) && InTime(s)
    requires Continues(s.(inner := WithStop(s.inner)), actions)
    ensures Settles(s.inner.engine, Run(s.(inner := WithStop(s.inner)), actions))
  {
    hide Run, Possible, NonOverlapping, AllHandsOff;
    var stopped := s.(inner := WithStop(s.inner));
    if s.inner.engine.Some? {
      var e := s.inner.engine.value;
      InTimeWindsDown(s, e);
      RunWindsDown(stopped, actions, e);
      WoundDownSettles(Run(stopped, actions), e);
    } else {
      NoStarterMeansRegistered(s);
      RunStaysDormant(stopped, actions);
    }
  }

  lemma WoundDownSettles(end: Daemon, e: Tid)
    requires Orderly(end) && WindingDown(end, e)
    ensures Settles(Some(e), end)
  {
    hide EngineFits, SectionFits;
    if end.inner.engine.None? {
      NoStarterMeansRegistered(end);
      assert NoEngine(end);
    }
  }

  // ---------------------------------------------------------------------
  // Stops that come too late

  lemma ContinuesNone(s: Daemon)
    ensures Continues(s, []) && Run(s, []) == s
  {
  }

  lemma ContinuesCons(s: Daemon, a: Action, rest: seq<Action>)
    requires Next(s, a).Some? && Undisturbed(s, a) && HandsOff(a) && Continues(Next(s, a).value, rest)
    ensures Continues(s, [a] + rest) && Run(s, [a] + rest) == Run(Next(s, a).value, rest)
  {
    hide Next, Undisturbed, HandsOff;
    RunCons(s, a, rest);
    assert ([a] + rest)[1..] == rest;
    assert forall k :: 0 <= k < |rest| ==> rest[k] == ([a] + rest)[k + 1];
  }

  /** How far an engine that missed the stop is from being gone. */
  function StepsLeft(pc: EnginePc): nat {
    match pc
    case Verdict(_) => 3
    case Reported | Rearming(_) => 2
    case _ => 1
  }

  /** One step of an engine that missed the stop. */
  lemma MissedStep(s: Daemon, e: Tid)
    requires Alone(s, e) && s.inner.stopRequested && !StopPending(s.inner.state, s.threads[e].pc)
    ensures var n := Next(s, EngineStep(e, Proceed));
            && n.Some? && Undisturbed(s, EngineStep(e, Proceed))
            && (s.threads[e].pc.Leaving? ==> n.value.inner.engine.None? && n.value.inner.state.Failed?)
            && (!s.threads[e].pc.Leaving? ==>
                  && Alone(n.value, e) && n.value.inner.stopRequested
                  && !StopPending(n.value.inner.state, n.value.threads[e].pc)
                  && StepsLeft(n.value.threads[e].pc) < StepsLeft(s.threads[e].pc))
  {
    hide OnlyProbe;
    EngineStepOrderly(s, e, Proceed);
  }

  /** Left to itself, such an engine ends Failed. */
  lemma {:induction false} MissedStop(s: Daemon, e: Tid) returns (actions: seq<Action>)
    requires Alone(s, e) && s.inner.stopRequested && !StopPending(s.inner.state, s.threads[e].pc)
    ensures Continues(s, actions)
    ensures var end := Run(s, actions); end.inner.engine.None? && end.inner.state.Failed?
    decreases StepsLeft(s.threads[e].pc)
  {
    hide Alone, Next, Undisturbed, StopPending, StepsLeft, Continues, Run;
    AloneHasEngine(s, e);
    MissedStep(s, e);
    var a := EngineStep(e, Proceed);
    var n := Next(s, a).value;
    var rest: seq<Action> := [];
    if s.threads[e].pc.Leaving? {
      ContinuesNone(n);
    } else {
      rest := MissedStop(n, e);
    }
    ContinuesCons(s, a, rest);
    actions := [a] + rest;
  }

  lemma AloneHasEngine(s: Daemon, e: Tid)
    requires Alone(s, e)
    ensures e in s.threads && s.threads[e].Engine?
  {
  }

  /** A stop given after the session failed does not stick: the next network event starts an engine. */
  lemma StopAfterFailureIsUndone(s: Daemon)
    requires Resting(s) && s.inner.state.Failed? && s.inner.config
    ensures var x := s.next;
            var actions := [UserStop, NetEvent, StartStep(x), StartStep(x), StartStep(x)];
            && Continues(s, actions)
            && var end := Run(s, actions);
               && end.inner.engine == Some(x + 1) && !end.inner.stopRequested
               && x + 1 in end.threads && end.threads[x + 1] == Engine(Launched)
  {
    hide Continues, Run;
    var x := s.next;
    var s1 := s.(inner := WithStop(s.inner));
    var s2 := Spawn(s1, Start(FromNet, Entering));
    NetRestarts(s);
    StartCompletes(s2, x);
    var a2 := [StartStep(x), StartStep(x), StartStep(x)];
    hide Next, Undisturbed, Resting;
    ContinuesCons(s1, NetEvent, a2);
    ContinuesCons(s, UserStop, [NetEvent] + a2);
    assert [UserStop] + ([NetEvent] + a2) == [UserStop, NetEvent, StartStep(x), StartStep(x), StartStep(x)];
  }

  lemma NetRestarts(s: Daemon)
    requires Resting(s) && s.inner.state.Failed? && s.inner.config
    ensures var s1 := s.(inner := WithStop(s.inner));
            var s2 := Spawn(s1, Start(FromNet, Entering));
            && Next(s, UserStop) == Some(s1) && Undisturbed(s, UserStop)
            && Next(s1, NetEvent) == Some(s2) && Undisturbed(s1, NetEvent)
            && s2.threads[s.next] == Start(FromNet, Entering) && s2.inner.engine.None?
            && forall t :: t in s2.threads && InSection(s2.threads[t]) ==> t == s.next
  {
  }

  /** An `engine_start` that finds no handle and is not disturbed stores the handle of a fresh engine and clears the
      stop flag; it continues the run if no other section is open. */
  lemma StartCompletes(s: Daemon, x: Tid)
    requires x in s.threads && s.threads[x].Start? && s.threads[x].at.Entering? && s.inner.engine.None? && x < s.next
    ensures var actions := [StartStep(x), StartStep(x), StartStep(x)];
            && Possible(s, actions)
            && ((forall t :: t in s.threads && InSection(s.threads[t]) ==> t == x) ==> Continues(s, actions))
            && var end := Run(s, actions);
               && end.inner.engine == Some(s.next) && !end.inner.stopRequested
               && s.next in end.threads && end.threads[s.next] == Engine(Launched)
  {
    hide Possible, NonOverlapping, Run, AllHandsOff;
    var origin, a := s.threads[x].origin, StartStep(x);
    var s3 := Next(s, a).value;
    assert s3.threads[x] == Start(origin, Accepted);
    var s4 := Next(s3, a).value;
    assert s4.threads[x] == Start(origin, Spawned(s.next)) && s4.threads[s.next] == Engine(Launched);
    var s5 := Next(s4, a).value;
    RunNone(s5);
    RunCons(s4, a, []);
    RunCons(s3, a, [a] + []);
    RunCons(s, a, [a] + ([a] + []));
    if forall t :: t in s.threads && InSection(s.threads[t]) ==> t == x {
      ContinuesNone(s5);
      ContinuesCons(s4, a, []);
      ContinuesCons(s3, a, [a] + []);
      ContinuesCons(s, a, [a] + ([a] + []));
    }
    assert [a] + ([a] + ([a] + [])) == [a, a, a];
  }

  /** A network event after a stop given too late opens a start. */
  lemma RestartOpens(s: Daemon)
    requires Resting(s) && s.inner.state.Failed? && s.inner.config
    ensures Continues(s, [NetEvent]) && !Settles(None, Run(s, [NetEvent]))
  {
    var n := Next(s, NetEvent).value;
    assert n.threads[s.next] == Start(FromNet, Entering);
    ContinuesNone(n);
    ContinuesCons(s, NetEvent, []);
    assert [NetEvent] + [] == [NetEvent];
  }

  /** With no start or restart under way, a stop sticks exactly when it comes in time. */
  lemma StopSticksExactly(s: Daemon)
    requires Orderly(s) && NobodyAsked(s)
    ensures Sticks(s) <==> InTime(s)
  {
    hide Possible, NonOverlapping, AllHandsOff, Run, Settles;
    var stopped := s.(inner := WithStop(s.inner));
    if InTime(s) {
      forall actions | Continues(stopped, actions)
        ensures Settles(s.inner.engine, Run(stopped, actions))
      {
        StopSticks(s, actions);
      }
    } else if s.inner.engine.None? {
      NoStarterMeansRegistered(s);
      RestartOpens(stopped);
    } else {
      TooLateFails(s);
    }
  }

  lemma TooLateFails(s: Daemon)
    requires Orderly(s) && NobodyAsked(s) && s.inner.engine.Some? && !InTime(s)
    ensures !Sticks(s)
  {
    hide Possible, NonOverlapping, AllHandsOff, Run, OnlyProbe;
    var e := s.inner.engine.value;
    TooLateIsAlone(s, e);
    var stopped := s.(inner := WithStop(s.inner));
    var actions := MissedStop(stopped, e);
    assert !Settles(s.inner.engine, Run(stopped, actions));
  }

  lemma TooLateIsAlone(s: Daemon, e: Tid)
    requires Orderly(s) && s.inner.engine == Some(e) && !InTime(s)
    ensures var stopped := s.(inner := WithStop(s.inner));
            Alone(stopped, e) && !StopPending(stopped.inner.state, stopped.threads[e].pc)
  {
    hide EngineFits;
    assert InSection(s.threads[e]);
    EngineActsAlone(s, e, Proceed);
    StopKeepsFits(s, s.threads[e].pc);
  }
}
