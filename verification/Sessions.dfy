/** The lifecycle invariant: at most one engine, and its place in `engine_run` determines the session state.

    These facts need the hypothesis that starting an engine, reacting to the network and leaving `engine_run` do
    not overlap (`NonOverlapping`); `TwoEngines` is a run that shows why. */
module Sessions {
  import opened Wrappers
  import opened Lifecycle

  /** Nothing is left of a session. */
  predicate Clean(i: Inner) {
    !i.cmdFd && !i.cookie && !i.health
  }

  /** The only probe thread there can be is the one under this handle. */
  ghost predicate OnlyProbe(s: Daemon, probe: Option<Tid>) {
    forall p :: p in s.threads && s.threads[p].Probe? ==> probe == Some(p)
  }

  predicate Outcome(state: SessionState, failed: bool) {
    if failed then !Terminal(state) else state.Stopped?
  }

  /** What the shared fields look like while the engine is at `pc`. */
  ghost predicate EngineFits(s: Daemon, pc: EnginePc) {
    var i := s.inner;
    match pc
    case Launched => Terminal(i.state) && Clean(i) && OnlyProbe(s, None)
    case SettingUp => i.state.Authenticating? && Clean(i) && OnlyProbe(s, None)
    case HaveFd => i.state.Authenticating? && i.cmdFd && !i.cookie && !i.health && OnlyProbe(s, None)
    case LoggedIn => i.state.Authenticating? && i.cmdFd && !i.health && OnlyProbe(s, None)
    case Probing => i.state.Authenticating? && i.cmdFd && OnlyProbe(s, s.probe)
    case Negotiating => i.state.Connecting? && i.cmdFd && OnlyProbe(s, s.probe)
    case InMainloop | Paused | Resuming | StopSeen =>
      (i.state.Connected? || i.state.Reconnecting?) && i.cmdFd && OnlyProbe(s, s.probe)
    case Unwinding(failed) => Outcome(i.state, failed) && OnlyProbe(s, s.probe)
    case Joining(failed, probe) => Outcome(i.state, failed) && OnlyProbe(s, probe)
    case ProbeGone(failed) => Outcome(i.state, failed) && OnlyProbe(s, None)
    case HealthCleared(failed) => Outcome(i.state, failed) && OnlyProbe(s, None) && !i.health
    case Judging | Verdict(_) => !Terminal(i.state) && OnlyProbe(s, None) && !i.health && !i.cookie
    case Reported | Rearming(_) => i.state.Failed? && OnlyProbe(s, None) && !i.health && !i.cookie
    case Leaving => Terminal(i.state) && OnlyProbe(s, None) && !i.health && !i.cookie
  }

  ghost predicate NoEngine(s: Daemon) {
    forall t :: t in s.threads ==> !s.threads[t].Engine?
  }

  predicate ServingPc(t: Thread) {
    t.Engine? && (t.pc.InMainloop? || t.pc.Paused? || t.pc.Resuming?)
  }

  /** A thread inside `engine_start` or `network_changed` finds the world as it decided on it. */
  ghost predicate SectionFits(s: Daemon, t: Thread) {
    match t
    case Start(origin, Entering) => !origin.User? ==> s.inner.state.Failed? && s.inner.engine.None?
    case Start(_, Accepted) => NoEngine(s)
    case Start(_, Spawned(e)) => e in s.threads && s.threads[e] == Engine(Launched) && s.inner.engine.None?
    case Pausing =>
      && s.inner.engine.Some? && s.inner.engine.value in s.threads
      && ServingPc(s.threads[s.inner.engine.value])
    case _ => true
  }

  ghost predicate StartingEngine(s: Daemon, e: Tid) {
    exists x :: x in s.threads && s.threads[x].Start? && s.threads[x].at == Spawned(e)
  }

  /** The invariant of every run in which the three operations do not overlap. */
  ghost predicate Orderly(s: Daemon) {
    && (forall t :: t in s.threads ==> t < s.next)
    && (forall t, u ::
          t in s.threads && u in s.threads && InSection(s.threads[t]) && InSection(s.threads[u]) ==> t == u)
    && (forall t, u :: t in s.threads && u in s.threads && s.threads[t].Engine? && s.threads[u].Engine? ==> t == u)
    && (forall e :: e in s.threads && s.threads[e].Engine? ==>
          && EngineFits(s, s.threads[e].pc)
          && (s.inner.engine == Some(e) || (s.inner.engine.None? && StartingEngine(s, e))))
    && (s.inner.engine.Some? ==> s.inner.engine.value in s.threads && s.threads[s.inner.engine.value].Engine?)
    && (forall t :: t in s.threads ==> SectionFits(s, s.threads[t]))
    && (NoEngine(s) ==> Terminal(s.inner.state) && Clean(s.inner) && OnlyProbe(s, None))
  }

  // ---------------------------------------------------------------------
  // Two common shapes

  predicate Bystander(t: Thread) {
    t.Probe? || t.Retry? || t.Restarting?
  }

  /** One engine, its handle stored, and bystanders. */
  ghost predicate Alone(s: Daemon, e: Tid) {
    && (forall t :: t in s.threads ==> t < s.next)
    && e in s.threads && s.threads[e].Engine? && s.inner.engine == Some(e)
    && EngineFits(s, s.threads[e].pc)
    && forall t :: t in s.threads && t != e ==> Bystander(s.threads[t])
  }

  /** No engine and only bystanders. */
  ghost predicate Resting(s: Daemon) {
    && (forall t :: t in s.threads ==> t < s.next)
    && s.inner.engine.None?
    && Terminal(s.inner.state) && Clean(s.inner) && OnlyProbe(s, None)
    && forall t :: t in s.threads ==> Bystander(s.threads[t])
  }

  lemma AloneIsOrderly(s: Daemon, e: Tid)
    requires Alone(s, e)
    ensures Orderly(s)
  {
  }

  lemma RestingIsOrderly(s: Daemon)
    requires Resting(s)
    ensures Orderly(s)
  {
  }

  lemma EngineActsAlone(s: Daemon, e: Tid, op: EngineOp)
    requires Orderly(s) && e in s.threads && s.threads[e].Engine? && Undisturbed(s, EngineStep(e, op))
    ensures Alone(s, e)
  {
  }

  /** With no section open, the daemon is in one of the two shapes. */
  lemma OutsideSections(s: Daemon)
    requires Orderly(s)
    requires forall t :: t in s.threads ==> !InSection(s.threads[t])
    ensures s.inner.engine.None? ==> Resting(s)
    ensures s.inner.engine.Some? ==> Alone(s, s.inner.engine.value)
  {
  }

  // ---------------------------------------------------------------------
  // Steps keep the invariant

  /** Moving the engine on does not touch the probes. */
  lemma MoveKeepsProbes(s: Daemon, n: Daemon, e: Tid, probe: Option<Tid>)
    requires e in s.threads && s.threads[e].Engine?
    requires n.threads == s.threads - {e}
             || (e in n.threads && n.threads[e].Engine? && n.threads == s.threads[e := n.threads[e]])
    ensures OnlyProbe(n, probe) <==> OnlyProbe(s, probe)
  {
  }

  /** The fields an engine step may leave behind, by the place it leaves. */
  lemma EngineFitsNext(s: Daemon, e: Tid, op: EngineOp)
    requires e in s.threads && s.threads[e].Engine? && EngineFits(s, s.threads[e].pc)
    requires EngineNext(s, e, s.threads[e].pc, op).Some?
    requires var pc := s.threads[e].pc;
             !pc.LoggedIn? && !pc.Joining? && !pc.Rearming? && !pc.Leaving?
    ensures var n := EngineNext(s, e, s.threads[e].pc, op).value; Moved(s, n, e) && EngineFits(n, n.threads[e].pc)
  {
    hide OnlyProbe, Unconditional;
    var n := EngineNext(s, e, s.threads[e].pc, op).value;
    NoProbesAtAll(s, s.probe);
    if HasOneWayOn(s.threads[e].pc) {
      UnconditionalFits(s, e);
    } else {
      if op.SessionReconnected? {
        assert s.threads[e := s.threads[e]] == s.threads;
      }
      MoveKeepsProbes(s, n, e, None);
      MoveKeepsProbes(s, n, e, s.probe);
    }
  }

  predicate HasOneWayOn(pc: EnginePc) {
    !pc.SettingUp? && !pc.HaveFd? && !pc.Negotiating? && !pc.InMainloop? && !pc.Joining?
  }

  /** Only the engine's place changed. */
  ghost predicate Moved(s: Daemon, n: Daemon, e: Tid) {
    && e in n.threads && n.threads[e].Engine?
    && n.threads == s.threads[e := n.threads[e]]
    && n.inner.engine == s.inner.engine && n.next == s.next
  }

  predicate BeforeJoin(pc: EnginePc) {
    pc.Launched? || pc.Probing? || pc.Paused? || pc.Resuming? || pc.StopSeen? || pc.Unwinding?
  }

  lemma UnconditionalFits(s: Daemon, e: Tid)
    requires e in s.threads && s.threads[e].Engine? && EngineFits(s, s.threads[e].pc)
    requires var pc := s.threads[e].pc;
             HasOneWayOn(pc) && !pc.LoggedIn? && !pc.Rearming? && !pc.Leaving?
    ensures var n := Unconditional(s, e, s.threads[e].pc); Moved(s, n, e) && EngineFits(n, n.threads[e].pc)
  {
    hide EngineFits, OnlyProbe, Moved;
    UnconditionalMoves(s, e);
    if BeforeJoin(s.threads[e].pc) {
      EarlyFits(s, e);
    } else {
      LateFits(s, e);
    }
  }

  lemma UnconditionalMoves(s: Daemon, e: Tid)
    requires e in s.threads && s.threads[e].Engine?
    requires var pc := s.threads[e].pc;
             HasOneWayOn(pc) && !pc.LoggedIn? && !pc.Rearming? && !pc.Leaving?
    ensures Moved(s, Unconditional(s, e, s.threads[e].pc), e)
  {
  }

  lemma EarlyFits(s: Daemon, e: Tid)
    requires e in s.threads && s.threads[e].Engine? && EngineFits(s, s.threads[e].pc)
    requires BeforeJoin(s.threads[e].pc)
    requires Moved(s, Unconditional(s, e, s.threads[e].pc), e)
    ensures var n := Unconditional(s, e, s.threads[e].pc); EngineFits(n, n.threads[e].pc)
  {
  }

  lemma LateFits(s: Daemon, e: Tid)
    requires e in s.threads && s.threads[e].Engine? && EngineFits(s, s.threads[e].pc)
    requires var pc := s.threads[e].pc;
             pc.ProbeGone? || pc.HealthCleared? || pc.Judging? || pc.Verdict? || pc.Reported?
    requires Moved(s, Unconditional(s, e, s.threads[e].pc), e)
    ensures var n := Unconditional(s, e, s.threads[e].pc); EngineFits(n, n.threads[e].pc)
  {
    hide OnlyProbe;
    MoveKeepsProbes(s, Unconditional(s, e, s.threads[e].pc), e, None);
  }

  lemma NoProbesAtAll(s: Daemon, probe: Option<Tid>)
    ensures OnlyProbe(s, None) ==> OnlyProbe(s, probe)
  {
  }

  lemma ProbeStarted(s: Daemon, e: Tid)
    requires Alone(s, e) && s.threads[e].pc.LoggedIn?
    ensures Alone(EngineNext(s, e, LoggedIn, Proceed).value, e)
  {
  }

  lemma ProbeJoined(s: Daemon, e: Tid)
    requires Alone(s, e) && s.threads[e].pc.Joining?
    ensures var n := EngineNext(s, e, s.threads[e].pc, Proceed); n.Some? ==> Alone(n.value, e)
  {
  }

  lemma RetryStarted(s: Daemon, e: Tid)
    requires Alone(s, e) && s.threads[e].pc.Rearming?
    ensures Alone(EngineNext(s, e, s.threads[e].pc, Proceed).value, e)
  {
  }

  lemma EngineLeft(s: Daemon, e: Tid)
    requires Alone(s, e) && s.threads[e].pc.Leaving?
    ensures Resting(EngineNext(s, e, Leaving, Proceed).value)
  {
  }

  lemma EngineStepOrderly(s: Daemon, e: Tid, op: EngineOp)
    requires Alone(s, e) && EngineNext(s, e, s.threads[e].pc, op).Some?
    ensures var n := EngineNext(s, e, s.threads[e].pc, op).value;
            if s.threads[e].pc.Leaving? then Resting(n) else Alone(n, e)
  {
    hide EngineFits;
    var pc := s.threads[e].pc;
    if pc.LoggedIn? {
      ProbeStarted(s, e);
    } else if pc.Joining? {
      ProbeJoined(s, e);
    } else if pc.Rearming? {
      RetryStarted(s, e);
    } else if pc.Leaving? {
      EngineLeft(s, e);
    } else {
      hide EngineNext;
      EngineFitsNext(s, e, op);
    }
  }

  /** Probes come and go, and may mark the session healthy, without disturbing anything. */
  lemma ProbeKeepsFits(s: Daemon, p: Tid, pc: EnginePc)
    requires p in s.threads && s.threads[p].Probe? && EngineFits(s, pc)
    ensures EngineFits(ProbeNext(s, p, s.threads[p].asking), pc)
  {
  }

  lemma ProbeKeepsSection(s: Daemon, p: Tid, t: Thread)
    requires p in s.threads && s.threads[p].Probe? && SectionFits(s, t)
    ensures SectionFits(ProbeNext(s, p, s.threads[p].asking), t)
  {
  }

  lemma ProbeOrStopOrderly(s: Daemon, n: Daemon, p: Option<Tid>)
    requires Orderly(s)
    requires n.next == s.next && n.inner.engine == s.inner.engine && n.inner.state == s.inner.state
    requires forall t :: t in n.threads ==>
               && t in s.threads
               && (n.threads[t] == s.threads[t] || (p == Some(t) && n.threads[t].Probe? && s.threads[t].Probe?))
    requires forall t :: t in s.threads && Some(t) != p ==> t in n.threads
    requires p.Some? ==> p.value in s.threads && s.threads[p.value].Probe?
    requires forall pc :: EngineFits(s, pc) ==> EngineFits(n, pc)
    requires forall t: Thread :: SectionFits(s, t) ==> SectionFits(n, t)
    requires OnlyProbe(s, None) && Clean(s.inner) ==> OnlyProbe(n, None) && Clean(n.inner)
    ensures Orderly(n)
  {
    hide EngineFits, SectionFits, Clean, OnlyProbe;
    forall e | e in n.threads && n.threads[e].Engine? && StartingEngine(s, e)
      ensures StartingEngine(n, e)
    {
      var x :| x in s.threads && s.threads[x].Start? && s.threads[x].at == Spawned(e);
      assert x in n.threads && n.threads[x] == s.threads[x];
    }
    hide StartingEngine;
    assert NoEngine(n) ==> NoEngine(s) by {
      assert forall t :: t in s.threads && s.threads[t].Engine? ==> t in n.threads && n.threads[t] == s.threads[t];
    }
    forall t | t in n.threads
      ensures SectionFits(n, n.threads[t])
    {
      ProbesFitAnywhere(n, n.threads[t]);
    }
  }

  lemma ProbesFitAnywhere(s: Daemon, t: Thread)
    ensures t.Probe? ==> SectionFits(s, t)
  {
  }

  lemma ProbeStepOrderly(s: Daemon, p: Tid)
    requires Orderly(s) && p in s.threads && s.threads[p].Probe?
    ensures Orderly(ProbeNext(s, p, s.threads[p].asking))
  {
    hide EngineFits, SectionFits;
    var n := ProbeNext(s, p, s.threads[p].asking);
    forall pc | EngineFits(s, pc)
      ensures EngineFits(n, pc)
    {
      ProbeKeepsFits(s, p, pc);
    }
    forall t: Thread | SectionFits(s, t)
      ensures SectionFits(n, t)
    {
      ProbeKeepsSection(s, p, t);
    }
    ProbeOrStopOrderly(s, n, Some(p));
  }

  lemma StopOrderly(s: Daemon)
    requires Orderly(s)
    ensures Orderly(s.(inner := WithStop(s.inner)))
  {
    hide EngineFits, SectionFits;
    var n := s.(inner := WithStop(s.inner));
    forall pc | EngineFits(s, pc)
      ensures EngineFits(n, pc)
    {
      StopKeepsFits(s, pc);
    }
    forall t: Thread | SectionFits(s, t)
      ensures SectionFits(n, t)
    {
      StopKeepsSection(s, t);
    }
    ProbeOrStopOrderly(s, n, None);
  }

  lemma StopKeepsFits(s: Daemon, pc: EnginePc)
    requires EngineFits(s, pc)
    ensures EngineFits(s.(inner := WithStop(s.inner)), pc)
  {
  }

  lemma StopKeepsSection(s: Daemon, t: Thread)
    requires SectionFits(s, t)
    ensures SectionFits(s.(inner := WithStop(s.inner)), t)
  {
  }

  // ---------------------------------------------------------------------
  // The same shapes with one thread `x` inside a section

  ghost predicate AloneBut(s: Daemon, e: Tid, x: Tid) {
    && (forall t :: t in s.threads ==> t < s.next)
    && e != x && e in s.threads && s.threads[e].Engine? && s.inner.engine == Some(e)
    && !InSection(s.threads[e]) && EngineFits(s, s.threads[e].pc)
    && forall t :: t in s.threads && t != e && t != x ==> Bystander(s.threads[t])
  }

  ghost predicate RestingBut(s: Daemon, x: Tid) {
    && (forall t :: t in s.threads ==> t < s.next)
    && s.inner.engine.None?
    && Terminal(s.inner.state) && Clean(s.inner) && OnlyProbe(s, None)
    && forall t :: t in s.threads && t != x ==> Bystander(s.threads[t])
  }

  /** An engine was spawned and its handle is not stored yet. */
  ghost predicate Handover(s: Daemon, e: Tid, x: Tid) {
    && (forall t :: t in s.threads ==> t < s.next)
    && e != x && e in s.threads && x in s.threads
    && s.threads[e] == Engine(Launched) && s.threads[x].Start? && s.threads[x].at == Spawned(e)
    && s.inner.engine.None?
    && Terminal(s.inner.state) && Clean(s.inner) && OnlyProbe(s, None)
    && forall t :: t in s.threads && t != e && t != x ==> Bystander(s.threads[t])
  }

  lemma AloneButIsOrderly(s: Daemon, e: Tid, x: Tid)
    requires AloneBut(s, e, x) && x in s.threads
    requires s.threads[x] == Start(User, Entering) || (s.threads[x].Pausing? && ServingPc(s.threads[e]))
    ensures Orderly(s)
  {
  }

  lemma RestingButIsOrderly(s: Daemon, x: Tid)
    requires RestingBut(s, x) && x in s.threads && s.threads[x].Start?
    requires s.threads[x].at.Accepted?
             || (s.threads[x].at.Entering? && (s.threads[x].origin.User? || s.inner.state.Failed?))
    ensures Orderly(s)
  {
  }

  lemma HandoverIsOrderly(s: Daemon, e: Tid, x: Tid)
    requires Handover(s, e, x)
    ensures Orderly(s)
  {
  }

  /** Inside `engine_start` or `network_changed`, the daemon has one of these shapes. */
  lemma InsideSection(s: Daemon, x: Tid)
    requires Orderly(s) && x in s.threads && (s.threads[x].Start? || s.threads[x].Pausing?)
    ensures s.inner.engine.Some? ==> AloneBut(s, s.inner.engine.value, x)
    ensures s.inner.engine.Some? && s.threads[x].Start? ==> s.threads[x].at.Entering?
    ensures s.inner.engine.Some? && s.threads[x].Pausing? ==> ServingPc(s.threads[s.inner.engine.value])
    ensures s.inner.engine.None? ==> s.threads[x].Start?
    ensures s.inner.engine.None? && !s.threads[x].at.Spawned? ==> RestingBut(s, x)
    ensures s.inner.engine.None? && s.threads[x].at.Spawned? ==> Handover(s, s.threads[x].at.engine, x)
  {
  }

  // ---------------------------------------------------------------------
  // Steps outside the engine

  /** A start request or a network event opens a section. */
  lemma OpensSection(s: Daemon, n: Daemon, x: Tid)
    requires Orderly(s) && forall t :: t in s.threads ==> !InSection(s.threads[t])
    requires x !in s.threads || s.threads[x].Retry? || s.threads[x].Restarting?
    requires x in n.threads && n == s.(threads := s.threads[x := n.threads[x]], next := n.next)
    requires x < n.next && s.next <= n.next
    requires n.threads[x] == Start(User, Entering)
             || (n.threads[x].Start? && n.threads[x].at.Entering? && s.inner.state.Failed? && s.inner.engine.None?)
             || (n.threads[x].Pausing? && (s.inner.state.Connected? || s.inner.state.Reconnecting?))
    ensures Orderly(n)
  {
    OutsideSections(s);
    assert forall probe :: OnlyProbe(s, probe) ==> OnlyProbe(n, probe);
    if s.inner.engine.Some? {
      var e := s.inner.engine.value;
      SameFits(s, n, s.threads[e].pc);
      AloneButIsOrderly(n, e, x);
    } else {
      RestingButIsOrderly(n, x);
    }
  }

  lemma SameFits(s: Daemon, n: Daemon, pc: EnginePc)
    requires EngineFits(s, pc) && n.inner == s.inner && n.probe == s.probe
    requires forall probe :: OnlyProbe(s, probe) ==> OnlyProbe(n, probe)
    ensures EngineFits(n, pc)
  {
  }

  /** A retry or restart thread leaves. */
  lemma BystanderLeaves(s: Daemon, x: Tid)
    requires Orderly(s) && forall t :: t in s.threads ==> !InSection(s.threads[t])
    requires x in s.threads && (s.threads[x].Retry? || s.threads[x].Restarting?)
    ensures Orderly(Gone(s, x))
  {
    OutsideSections(s);
    var n := Gone(s, x);
    assert forall probe :: OnlyProbe(s, probe) ==> OnlyProbe(n, probe);
    if s.inner.engine.Some? {
      var e := s.inner.engine.value;
      SameFits(s, n, s.threads[e].pc);
      AloneIsOrderly(n, e);
    } else {
      RestingIsOrderly(n);
    }
  }

  lemma RestartFits(s: Daemon, e: Tid)
    requires Orderly(s) && e in s.threads && s.threads[e].Engine?
    ensures var n := Spawn(s, Restarting);
            EngineFits(n, s.threads[e].pc) && (StartingEngine(s, e) ==> StartingEngine(n, e))
  {
    var n := Spawn(s, Restarting);
    assert forall probe :: OnlyProbe(s, probe) ==> OnlyProbe(n, probe);
    SameFits(s, n, s.threads[e].pc);
    hide EngineFits, OnlyProbe;
    if StartingEngine(s, e) {
      var x :| x in s.threads && s.threads[x].Start? && s.threads[x].at == Spawned(e);
      assert x in n.threads && n.threads[x] == s.threads[x];
    }
  }

  lemma RestartEmpty(s: Daemon)
    requires Orderly(s) && NoEngine(Spawn(s, Restarting))
    ensures var n := Spawn(s, Restarting); Terminal(n.inner.state) && Clean(n.inner) && OnlyProbe(n, None)
  {
    hide EngineFits, SectionFits;
    var n := Spawn(s, Restarting);
    assert forall t :: t in s.threads ==> n.threads[t] == s.threads[t];
    assert NoEngine(s);
  }

  lemma RestartSections(s: Daemon, t: Tid)
    requires Orderly(s) && t in Spawn(s, Restarting).threads
    ensures SectionFits(Spawn(s, Restarting), Spawn(s, Restarting).threads[t])
  {
    hide EngineFits, OnlyProbe;
    var n := Spawn(s, Restarting);
    assert NoEngine(s) ==> NoEngine(n);
  }

  /** A restart request may arrive at any time. */
  lemma RestartOrderly(s: Daemon)
    requires Orderly(s)
    ensures Orderly(Spawn(s, Restarting))
  {
    var n := Spawn(s, Restarting);
    hide EngineFits, SectionFits, OnlyProbe, StartingEngine, NoEngine, Clean;
    forall e | e in n.threads && n.threads[e].Engine?
      ensures EngineFits(n, n.threads[e].pc) && (StartingEngine(s, e) ==> StartingEngine(n, e))
    {
      RestartFits(s, e);
    }
    forall t | t in n.threads
      ensures SectionFits(n, n.threads[t])
    {
      RestartSections(s, t);
    }
    if NoEngine(n) {
      RestartEmpty(s);
    }
    assert forall t :: t in s.threads ==> n.threads[t] == s.threads[t];
  }

  lemma StartStepOrderly(s: Daemon, x: Tid)
    requires Orderly(s) && x in s.threads && s.threads[x].Start?
    ensures Orderly(StartNext(s, x, s.threads[x].origin, s.threads[x].at))
  {
    InsideSection(s, x);
    var n := StartNext(s, x, s.threads[x].origin, s.threads[x].at);
    match s.threads[x].at
    case Entering =>
      if s.inner.engine.Some? {
        var e := s.inner.engine.value;
        assert forall probe :: OnlyProbe(s, probe) ==> OnlyProbe(n, probe);
        SameFits(s, n, s.threads[e].pc);
        AloneIsOrderly(n, e);
      } else {
        RestingButIsOrderly(n, x);
      }
    case Accepted => HandoverIsOrderly(n, s.next, x);
    case Spawned(e) => AloneIsOrderly(n, e);
  }

  lemma PauseStepOrderly(s: Daemon, x: Tid)
    requires Orderly(s) && x in s.threads && s.threads[x].Pausing?
    ensures Orderly(Gone(WithState(s, Reconnecting), x))
  {
    InsideSection(s, x);
    var e := s.inner.engine.value;
    var n := Gone(WithState(s, Reconnecting), x);
    assert OnlyProbe(s, s.probe) ==> OnlyProbe(n, s.probe);
    AloneIsOrderly(n, e);
  }

  lemma NobodyInside(s: Daemon, a: Action)
    requires Undisturbed(s, a) && !Free(a)
    requires Actor(a).Some? ==> Actor(a).value in s.threads && !InSection(s.threads[Actor(a).value])
    ensures forall t :: t in s.threads ==> !InSection(s.threads[t])
  {
  }

  lemma StepOrderly(s: Daemon, a: Action)
    requires Orderly(s) && Next(s, a).Some? && Undisturbed(s, a)
    ensures Orderly(Next(s, a).value)
  {
    hide Orderly, EngineNext, StartNext, Undisturbed;
    var n := Next(s, a).value;
    match a
    case EngineStep(e, op) =>
      EngineActsAlone(s, e, op);
      EngineStepOrderly(s, e, op);
      if s.threads[e].pc.Leaving? { RestingIsOrderly(n); } else { AloneIsOrderly(n, e); }
    case ProbeStep(p) => ProbeStepOrderly(s, p);
    case RetryStep(r, networkUp) =>
      NobodyInside(s, a);
      if !MayRetry(s.inner, s.threads[r].generation) {
        BystanderLeaves(s, r);
      } else if networkUp {
        NamesAreOld(s, r);
        OpensSection(s, n, r);
      }
    case NetEvent =>
      NobodyInside(s, a);
      if NetDecision(s.inner) != Ignore {
        NamesAreFresh(s);
        OpensSection(s, n, s.next);
      }
    case PauseStep(x) => PauseStepOrderly(s, x);
    case StartStep(x) => StartStepOrderly(s, x);
    case UserStart =>
      NobodyInside(s, a);
      NamesAreFresh(s);
      OpensSection(s, n, s.next);
    case UserStop => StopOrderly(s);
    case UserRestart =>
      StopOrderly(s);
      RestartOrderly(s.(inner := WithStop(s.inner)));
    case RestartStep(x, giveUp) =>
      NobodyInside(s, a);
      if giveUp {
        BystanderLeaves(s, x);
      } else if s.inner.engine.None? {
        NamesAreOld(s, x);
        OpensSection(s, n, x);
      }
  }

  lemma NamesAreFresh(s: Daemon)
    requires Orderly(s)
    ensures s.next !in s.threads
  {
  }

  lemma NamesAreOld(s: Daemon, x: Tid)
    requires Orderly(s) && x in s.threads
    ensures x < s.next
  {
  }

  lemma InitOrderly()
    ensures Orderly(Init())
  {
  }

  /** The invariant holds throughout every run in which the three operations do not overlap. */
  lemma {:induction false} RunOrderly(s: Daemon, actions: seq<Action>)
    requires Orderly(s) && Possible(s, actions) && NonOverlapping(s, actions)
    ensures Orderly(Run(s, actions))
    decreases |actions|
  {
    hide Orderly, Next, Undisturbed;
    if actions != [] {
      StepOrderly(s, actions[0]);
      RunOrderly(Next(s, actions[0]).value, actions[1..]);
    }
  }

  // ---------------------------------------------------------------------
  // What the invariant says

  /** Without an engine handle the session is over and nothing of it is left; and there is at most one engine. */
  lemma LifecycleInvariant(actions: seq<Action>)
    requires Possible(Init(), actions) && NonOverlapping(Init(), actions)
    ensures var s := Run(Init(), actions);
            && (s.inner.engine.None? ==> Terminal(s.inner.state) && Clean(s.inner))
            && (forall t, u ::
                  t in s.threads && u in s.threads && s.threads[t].Engine? && s.threads[u].Engine? ==> t == u)
            && (forall e :: s.inner.engine == Some(e) ==> e in s.threads && s.threads[e].Engine?)
  {
    hide NonOverlapping, Possible, Run, InSection;
    InitOrderly();
    RunOrderly(Init(), actions);
    var s := Run(Init(), actions);
    if s.inner.engine.None? {
      NoHandleMeansOver(s);
    }
  }

  lemma NoHandleMeansOver(s: Daemon)
    requires Orderly(s) && s.inner.engine.None?
    ensures Terminal(s.inner.state) && Clean(s.inner)
  {
  }

  /** The edges of the state diagram; a session may end from any active state. */
  predicate Edge(a: SessionState, b: SessionState) {
    || a == b
    || (Terminal(a) && b.Authenticating?)
    || (a.Authenticating? && b.Connecting?)
    || (a.Connecting? && b.Connected?)
    || (a.Connected? && b.Reconnecting?)
    || (a.Reconnecting? && b.Connected?)
    || (!Terminal(a) && Terminal(b))
  }

  /** The session state alone, by the engine's place. */
  predicate StateAt(state: SessionState, pc: EnginePc) {
    match pc
    case Launched | Leaving => Terminal(state)
    case SettingUp | HaveFd | LoggedIn | Probing => state.Authenticating?
    case Negotiating => state.Connecting?
    case InMainloop | Paused | Resuming | StopSeen => state.Connected? || state.Reconnecting?
    case Unwinding(failed) => Outcome(state, failed)
    case Joining(failed, _) => Outcome(state, failed)
    case ProbeGone(failed) => Outcome(state, failed)
    case HealthCleared(failed) => Outcome(state, failed)
    case Judging | Verdict(_) => !Terminal(state)
    case Reported | Rearming(_) => state.Failed?
  }

  lemma FitsMeansState(s: Daemon, pc: EnginePc)
    requires EngineFits(s, pc)
    ensures StateAt(s.inner.state, pc)
  {
  }

  function StateAfter(state: SessionState, pc: EnginePc): SessionState {
    match pc
    case Launched => Authenticating
    case Probing => Connecting
    case Resuming => Reconnecting
    case StopSeen => Stopped
    case Verdict(stopped) => if stopped then Stopped else Failed
    case _ => state
  }

  predicate SetsState(pc: EnginePc) {
    pc.Launched? || pc.Probing? || pc.Resuming? || pc.StopSeen? || pc.Verdict?
  }

  lemma SettingState(s: Daemon, e: Tid, pc: EnginePc)
    requires SetsState(pc)
    ensures Unconditional(s, e, pc).inner.state == StateAfter(s.inner.state, pc)
  {
  }

  lemma KeepingState(s: Daemon, e: Tid, pc: EnginePc)
    requires !SetsState(pc)
    ensures Unconditional(s, e, pc).inner.state == s.inner.state
  {
  }

  lemma UnconditionalState(s: Daemon, e: Tid, pc: EnginePc)
    ensures Unconditional(s, e, pc).inner.state == StateAfter(s.inner.state, pc)
  {
    if SetsState(pc) {
      SettingState(s, e, pc);
    } else {
      hide Unconditional;
      KeepingState(s, e, pc);
    }
  }

  lemma StateAfterIsEdge(state: SessionState, pc: EnginePc)
    requires StateAt(state, pc)
    ensures Edge(state, StateAfter(state, pc))
  {
  }

  lemma EngineEdge(s: Daemon, e: Tid, op: EngineOp)
    requires Alone(s, e) && EngineNext(s, e, s.threads[e].pc, op).Some?
    ensures Edge(s.inner.state, EngineNext(s, e, s.threads[e].pc, op).value.inner.state)
  {
    hide EngineFits, Unconditional, StateAfter;
    var pc := s.threads[e].pc;
    FitsMeansState(s, pc);
    UnconditionalState(s, e, pc);
    StateAfterIsEdge(s.inner.state, pc);
  }

  lemma ServingState(s: Daemon, e: Tid)
    requires exists x :: AloneBut(s, e, x)
    requires ServingPc(s.threads[e])
    ensures s.inner.state.Connected? || s.inner.state.Reconnecting?
  {
  }

  /** Every state change is an edge. */
  lemma StateChangesAreEdges(s: Daemon, a: Action)
    requires Orderly(s) && Next(s, a).Some? && Undisturbed(s, a)
    ensures Edge(s.inner.state, Next(s, a).value.inner.state)
  {
    hide EngineNext, Orderly, Undisturbed, AloneBut, Alone;
    if a.EngineStep? {
      EngineActsAlone(s, a.engine, a.op);
      EngineEdge(s, a.engine, a.op);
    } else if a.PauseStep? {
      InsideSection(s, a.pauser);
      ServingState(s, s.inner.engine.value);
    }
  }
}
