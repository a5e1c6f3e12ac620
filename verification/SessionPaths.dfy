/** The way of an engine through `engine_run`: coming up, reconnecting, failing, stopping, and leaving. */
module SessionPaths {
  import opened Wrappers
  import opened Lifecycle
  import opened Sessions
  import opened Retries
  import opened Stops

  /** One step of an engine no section of another thread overlaps. */
  lemma EngineContinues(s: Daemon, e: Tid, op: EngineOp, n: Daemon, rest: seq<Action>)
    requires Alone(s, e) && EngineNext(s, e, s.threads[e].pc, op) == Some(n) && !op.BadString? && Continues(n, rest)
    ensures Continues(s, [EngineStep(e, op)] + rest)
    ensures Run(s, [EngineStep(e, op)] + rest) == Run(n, rest)
  {
    hide EngineNext, EngineFits, Continues, Run;
    assert Undisturbed(s, EngineStep(e, op));
    ContinuesCons(s, EngineStep(e, op), rest);
  }

  // ---------------------------------------------------------------------
  // Coming up

  /** From a launched engine to a served session: the steps of `engine_run` when everything succeeds. */
  function ComingUp(e: Tid, cookie: bool): seq<Action> {
    [EngineStep(e, Proceed), EngineStep(e, Proceed), EngineStep(e, Login(cookie)), EngineStep(e, Proceed),
     EngineStep(e, Proceed), EngineStep(e, Proceed)]
  }

  /** When everything succeeds the session is Connected, with a command pipe, the login's cookie, and a health probe. */
  lemma SessionComesUp(s: Daemon, e: Tid, cookie: bool)
    requires Alone(s, e) && s.threads[e].pc.Launched?
    ensures Continues(s, ComingUp(e, cookie))
    ensures var end := Run(s, ComingUp(e, cookie));
            && Alone(end, e) && end.threads[e].pc.InMainloop?
            && end.inner == s.inner.(state := Connected, cmdFd := true, cookie := cookie)
            && end.threads == s.threads[e := Engine(InMainloop)][s.next := Probe(false)]
            && end.probe == Some(s.next) && !end.healthStop
  {
    hide Continues, Run;
    var s1 := Move(WithState(s, Authenticating), e, SettingUp);
    var s2 := Move(s1.(inner := s1.inner.(cmdFd := true)), e, HaveFd);
    var s3 := Move(s2.(inner := s2.inner.(cookie := cookie)), e, LoggedIn);
    ComesUpToLogin(s, e, cookie);
    ComesUpFromLogin(s3, e);
    var tail := [EngineStep(e, Proceed), EngineStep(e, Proceed), EngineStep(e, Proceed)];
    hide Alone;
    EngineContinuesFrom(s, e, s1, s2, s3, cookie, tail);
    assert [EngineStep(e, Proceed), EngineStep(e, Proceed), EngineStep(e, Login(cookie))] + tail == ComingUp(e, cookie);
    EndIsUp(s, e, cookie);
  }

  lemma ComesUpToLogin(s: Daemon, e: Tid, cookie: bool)
    requires Alone(s, e) && s.threads[e].pc.Launched?
    ensures var s1 := Move(WithState(s, Authenticating), e, SettingUp);
            var s2 := Move(s1.(inner := s1.inner.(cmdFd := true)), e, HaveFd);
            var s3 := Move(s2.(inner := s2.inner.(cookie := cookie)), e, LoggedIn);
            && EngineNext(s, e, Launched, Proceed) == Some(s1)
            && Alone(s1, e) && s1.threads[e].pc.SettingUp? && EngineNext(s1, e, SettingUp, Proceed) == Some(s2)
            && Alone(s2, e) && s2.threads[e].pc.HaveFd? && EngineNext(s2, e, HaveFd, Login(cookie)) == Some(s3)
            && Alone(s3, e) && s3.threads[e].pc.LoggedIn?
  {
    hide EngineFits;
    var s1 := Move(WithState(s, Authenticating), e, SettingUp);
    var s2 := Move(s1.(inner := s1.inner.(cmdFd := true)), e, HaveFd);
    NoCookieYet(s, e);
    EngineStepOrderly(s, e, Proceed);
    EngineStepOrderly(s1, e, Proceed);
    EngineStepOrderly(s2, e, Login(cookie));
  }

  lemma NoCookieYet(s: Daemon, e: Tid)
    requires Alone(s, e) && s.threads[e].pc.Launched?
    ensures Clean(s.inner)
  {
  }

  lemma EngineContinuesFrom(s: Daemon, e: Tid, s1: Daemon, s2: Daemon, s3: Daemon, cookie: bool, tail: seq<Action>)
    requires Alone(s, e) && s.threads[e].pc.Launched? && EngineNext(s, e, Launched, Proceed) == Some(s1)
    requires Alone(s1, e) && s1.threads[e].pc.SettingUp? && EngineNext(s1, e, SettingUp, Proceed) == Some(s2)
    requires Alone(s2, e) && s2.threads[e].pc.HaveFd? && EngineNext(s2, e, HaveFd, Login(cookie)) == Some(s3)
    requires Continues(s3, tail)
    ensures var actions := [EngineStep(e, Proceed), EngineStep(e, Proceed), EngineStep(e, Login(cookie))] + tail;
            Continues(s, actions) && Run(s, actions) == Run(s3, tail)
  {
    hide Continues, Run, EngineNext, EngineFits;
    var a1, a2, a3 := EngineStep(e, Proceed), EngineStep(e, Proceed), EngineStep(e, Login(cookie));
    EngineContinues(s2, e, Login(cookie), s3, tail);
    EngineContinues(s1, e, Proceed, s2, [a3] + tail);
    EngineContinues(s, e, Proceed, s1, [a2] + ([a3] + tail));
    assert [a1] + ([a2] + ([a3] + tail)) == [a1, a2, a3] + tail;
  }

  /** The second half: probe, NET_EXTEND, main loop. */
  function UpFrom(s: Daemon, e: Tid): Daemon {
    s.(inner := s.inner.(state := Connected), threads := s.threads[e := Engine(InMainloop)][s.next := Probe(false)],
       healthStop := false, probe := Some(s.next), next := s.next + 1)
  }

  lemma LoginStep(s: Daemon, e: Tid)
    requires Alone(s, e) && s.threads[e].pc.LoggedIn?
    ensures var n := Spawn(Move(s, e, Probing), Probe(false)).(healthStop := false, probe := Some(s.next));
            && EngineNext(s, e, LoggedIn, Proceed) == Some(n) && Alone(n, e)
            && n.threads[e] == Engine(Probing)
  {
    hide EngineFits;
    EngineStepOrderly(s, e, Proceed);
  }

  lemma ProbingStep(s: Daemon, e: Tid)
    requires Alone(s, e) && s.threads[e].pc.Probing?
    ensures var n := Move(WithState(s, Connecting), e, Negotiating);
            EngineNext(s, e, Probing, Proceed) == Some(n) && Alone(n, e)
  {
    hide EngineFits;
    EngineStepOrderly(s, e, Proceed);
  }

  lemma NegotiatingStep(s: Daemon, e: Tid)
    requires Alone(s, e) && s.threads[e].pc.Negotiating?
    ensures var n := Move(WithState(s, Connected), e, InMainloop);
            EngineNext(s, e, Negotiating, Proceed) == Some(n) && Alone(n, e)
  {
    hide EngineFits;
    EngineStepOrderly(s, e, Proceed);
  }

  lemma ComesUpFromLogin(s: Daemon, e: Tid)
    requires Alone(s, e) && s.threads[e].pc.LoggedIn?
    ensures var actions := [EngineStep(e, Proceed), EngineStep(e, Proceed), EngineStep(e, Proceed)];
            Continues(s, actions) && Run(s, actions) == UpFrom(s, e) && Alone(UpFrom(s, e), e)
  {
    hide Continues, Run, EngineFits, EngineNext;
    var a := EngineStep(e, Proceed);
    var n1 := Spawn(Move(s, e, Probing), Probe(false)).(healthStop := false, probe := Some(s.next));
    LoginStep(s, e);
    var n2 := Move(WithState(n1, Connecting), e, Negotiating);
    ProbingStep(n1, e);
    var n3 := Move(WithState(n2, Connected), e, InMainloop);
    NegotiatingStep(n2, e);
    UpFromIs(s, e);
    hide Alone;
    ContinuesNone(n3);
    EngineContinues(n2, e, Proceed, n3, []);
    EngineContinues(n1, e, Proceed, n2, [a] + []);
    EngineContinues(s, e, Proceed, n1, [a] + ([a] + []));
    assert [a] + ([a] + ([a] + [])) == [a, a, a];
  }

  lemma UpFromIs(s: Daemon, e: Tid)
    requires e in s.threads && e < s.next
    ensures var n1 := Spawn(Move(s, e, Probing), Probe(false)).(healthStop := false, probe := Some(s.next));
            var n2 := Move(WithState(n1, Connecting), e, Negotiating);
            UpFrom(s, e) == Move(WithState(n2, Connected), e, InMainloop)
  {
    assert s.threads[e := Engine(Probing)][s.next := Probe(false)][e := Engine(Negotiating)][e := Engine(InMainloop)]
           == s.threads[e := Engine(InMainloop)][s.next := Probe(false)];
  }

  lemma EndIsUp(s: Daemon, e: Tid, cookie: bool)
    requires e in s.threads && e < s.next
    ensures var s1 := Move(WithState(s, Authenticating), e, SettingUp);
            var s2 := Move(s1.(inner := s1.inner.(cmdFd := true)), e, HaveFd);
            var s3 := Move(s2.(inner := s2.inner.(cookie := cookie)), e, LoggedIn);
            var end := UpFrom(s3, e);
            && end.inner == s.inner.(state := Connected, cmdFd := true, cookie := cookie)
            && end.threads == s.threads[e := Engine(InMainloop)][s.next := Probe(false)]
            && end.threads[e] == Engine(InMainloop)
  {
  }

  /** A probe asks only with a cookie, reports what it asked for, and ends once it is told to. */
  lemma ProbeReports(s: Daemon, p: Tid)
    requires p in s.threads && s.threads[p] == Probe(false)
    ensures var asking := Put(s, p, Probe(true));
            Next(asking, ProbeStep(p)) == Some(s.(inner := s.inner.(health := true)))
    ensures s.healthStop ==> Next(s, ProbeStep(p)) == Some(Gone(s, p))
    ensures !s.healthStop && !s.inner.cookie ==> Next(s, ProbeStep(p)) == Some(s)
    ensures !s.healthStop && s.inner.cookie ==>
              && Continues(s, [ProbeStep(p), ProbeStep(p)])
              && Run(s, [ProbeStep(p), ProbeStep(p)]) == s.(inner := s.inner.(health := true))
  {
    hide Continues, Run;
    assert s.threads[p := Probe(true)][p := Probe(false)] == s.threads;
    if !s.healthStop && s.inner.cookie {
      var n := Put(s, p, Probe(true));
      var end := Put(n.(inner := n.inner.(health := true)), p, Probe(false));
      assert end.threads == s.threads;
      ContinuesNone(end);
      ContinuesCons(n, ProbeStep(p), []);
      ContinuesCons(s, ProbeStep(p), [ProbeStep(p)] + []);
      assert [ProbeStep(p)] + ([ProbeStep(p)] + []) == [ProbeStep(p), ProbeStep(p)];
    }
  }

  // ---------------------------------------------------------------------
  // Serving

  /** A paused main loop reconnects and serves on, unless a stop was seen. */
  lemma PauseResumes(s: Daemon, e: Tid)
    requires Alone(s, e) && s.threads[e].pc.InMainloop? && !s.inner.stopRequested
    ensures var actions := [EngineStep(e, MainloopReturns(true)), EngineStep(e, Proceed), EngineStep(e, Proceed)];
            Continues(s, actions) && Run(s, actions) == WithState(s, Reconnecting)
  {
    hide Continues, Run, EngineFits;
    var a1, a := EngineStep(e, MainloopReturns(true)), EngineStep(e, Proceed);
    var n1, n2, n3 := Move(s, e, Paused), Move(s, e, Resuming), WithState(s, Reconnecting);
    Pauses(s, e);
    PauseEnds(n1, e);
    assert Move(n1, e, Resuming) == n2;
    Resumes(n2, e);
    assert Move(WithState(n2, Reconnecting), e, InMainloop) == n3 by {
      assert s.threads[e := Engine(Resuming)][e := Engine(InMainloop)] == s.threads;
    }
    hide EngineNext, Alone;
    ContinuesNone(n3);
    EngineContinues(n2, e, Proceed, n3, []);
    EngineContinues(n1, e, Proceed, n2, [a] + []);
    EngineContinues(s, e, MainloopReturns(true), n1, [a] + ([a] + []));
    assert [a1] + ([a] + ([a] + [])) == [a1, a, a];
  }

  /** A session the main loop has restored is Connected again, whether or not a stop was requested meanwhile. */
  lemma SessionReconnects(s: Daemon, e: Tid)
    requires e in s.threads && s.threads[e] == Engine(InMainloop)
    ensures Next(s, EngineStep(e, SessionReconnected)) == Some(s.(inner := s.inner.(state := Connected)))
  {
  }

  lemma Pauses(s: Daemon, e: Tid)
    requires Alone(s, e) && s.threads[e].pc.InMainloop? && !s.inner.stopRequested
    ensures var n := Move(s, e, Paused);
            EngineNext(s, e, InMainloop, MainloopReturns(true)) == Some(n) && Alone(n, e)
  {
    hide EngineFits;
    EngineStepOrderly(s, e, MainloopReturns(true));
  }

  lemma PauseEnds(s: Daemon, e: Tid)
    requires Alone(s, e) && s.threads[e].pc.Paused? && !s.inner.stopRequested
    ensures var n := Move(s, e, Resuming); EngineNext(s, e, Paused, Proceed) == Some(n) && Alone(n, e)
  {
    hide EngineFits;
    EngineStepOrderly(s, e, Proceed);
  }

  lemma Resumes(s: Daemon, e: Tid)
    requires Alone(s, e) && s.threads[e].pc.Resuming?
    ensures var n := Move(WithState(s, Reconnecting), e, InMainloop);
            EngineNext(s, e, Resuming, Proceed) == Some(n) && Alone(n, e)
  {
    hide EngineFits;
    EngineStepOrderly(s, e, Proceed);
  }

  /** How sessions end: a failure on the way up or in the main loop unwinds as failed with the state unchanged; a stop
      seen when the main loop returns, whatever it returns, sets Stopped. */
  lemma FailuresUnwind(s: Daemon, e: Tid, op: EngineOp)
    requires e in s.threads && s.threads[e].Engine?
    requires var pc := s.threads[e].pc;
             || ((pc.SettingUp? || pc.HaveFd? || pc.Negotiating?) && op.Fail?)
             || (pc.InMainloop? && op == MainloopReturns(false) && !s.inner.stopRequested)
    ensures Next(s, EngineStep(e, op)) == Some(Move(s, e, Unwinding(true)))
  {
  }

  lemma StopIsSeen(s: Daemon, e: Tid, paused: bool)
    requires Alone(s, e) && s.threads[e].pc.InMainloop? && s.inner.stopRequested
    ensures var actions := [EngineStep(e, MainloopReturns(paused)), EngineStep(e, Proceed)];
            Continues(s, actions) && Run(s, actions) == Move(WithState(s, Stopped), e, Unwinding(false))
    ensures Alone(Move(WithState(s, Stopped), e, Unwinding(false)), e)
  {
    hide Continues, Run, EngineFits;
    var a1, a := EngineStep(e, MainloopReturns(paused)), EngineStep(e, Proceed);
    var n1 := Move(s, e, StopSeen);
    EngineStepOrderly(s, e, MainloopReturns(paused));
    var n2 := Move(WithState(s, Stopped), e, Unwinding(false));
    assert EngineNext(n1, e, StopSeen, Proceed) == Some(n2) by {
      assert n1.threads[e := Engine(Unwinding(false))] == n2.threads;
    }
    EngineStepOrderly(n1, e, Proceed);
    hide EngineNext, Alone;
    ContinuesNone(n2);
    EngineContinues(n1, e, Proceed, n2, []);
    EngineContinues(s, e, MainloopReturns(paused), n1, [a] + []);
    assert [a1] + ([a] + []) == [a1, a];
  }

  /** Nor does a stop seen only at the second look go unheeded; behind that look the session resumes all the same. */
  lemma StopWhilePaused(s: Daemon, e: Tid)
    requires Alone(s, e) && s.threads[e].pc.Paused? && s.inner.stopRequested
    ensures var actions := [EngineStep(e, Proceed), EngineStep(e, Proceed)];
            Continues(s, actions) && Run(s, actions) == Move(WithState(s, Stopped), e, Unwinding(false))
  {
    hide Continues, Run, EngineFits;
    var a := EngineStep(e, Proceed);
    var n1, n2 := Move(s, e, StopSeen), Move(WithState(s, Stopped), e, Unwinding(false));
    EngineStepOrderly(s, e, Proceed);
    assert EngineNext(n1, e, StopSeen, Proceed) == Some(n2) by {
      assert n1.threads[e := Engine(Unwinding(false))] == n2.threads;
    }
    hide EngineNext;
    ContinuesNone(n2);
    EngineContinues(n1, e, Proceed, n2, []);
    EngineContinues(s, e, Proceed, n1, [a] + []);
    assert [a] + ([a] + []) == [a, a];
  }

  /** A string with a NUL octet ends the session Failed without a retry: why `NulFree` is needed. */
  lemma BadStringIsNotRetried(s: Daemon, e: Tid)
    requires Alone(s, e) && s.threads[e].pc.SettingUp?
    ensures var actions := [EngineStep(e, BadString), EngineStep(e, Proceed)];
            && Possible(s, actions)
            && var end := Run(s, actions);
               && end.threads == s.threads - {e} && end.inner.generation == s.inner.generation
               && end.inner.state.Failed? && end.inner.engine.None? && !end.inner.cmdFd
  {
    hide Possible, Run, EngineFits;
    var n := Move(WithState(s, Failed), e, Leaving);
    var end := Gone(n.(inner := MarkFinished(n.inner)), e);
    assert end.threads == s.threads - {e};
    RunNone(end);
    RunCons(n, EngineStep(e, Proceed), []);
    RunCons(s, EngineStep(e, BadString), [EngineStep(e, Proceed)] + []);
    assert [EngineStep(e, BadString)] + ([EngineStep(e, Proceed)] + [])
           == [EngineStep(e, BadString), EngineStep(e, Proceed)];
  }

  // ---------------------------------------------------------------------
  // Leaving

  /** The state an engine past its probe will leave. */
  function StateLeft(s: Daemon, pc: EnginePc): SessionState {
    match pc
    case ProbeGone(failed) => if failed && !s.inner.stopRequested then Failed else Stopped
    case HealthCleared(failed) => if failed && !s.inner.stopRequested then Failed else Stopped
    case Judging => if s.inner.stopRequested then Stopped else Failed
    case Verdict(stopped) => if stopped then Stopped else Failed
    case _ => s.inner.state
  }

  /** Whether it will schedule a retry. */
  predicate WillRetry(s: Daemon, pc: EnginePc) {
    match pc
    case ProbeGone(failed) => failed && !s.inner.stopRequested
    case HealthCleared(failed) => failed && !s.inner.stopRequested
    case Judging => !s.inner.stopRequested
    case Verdict(stopped) => !stopped && !s.inner.stopRequested
    case Reported => !s.inner.stopRequested
    case _ => false
  }

  predicate PastProbe(pc: EnginePc) {
    pc.ProbeGone? || pc.HealthCleared? || pc.Judging? || pc.Verdict? || pc.Reported? || pc.Leaving?
  }

  function StepsToLeave(pc: EnginePc): nat {
    match pc
    case ProbeGone(_) => 5
    case HealthCleared(_) => 4
    case Judging => 3
    case Verdict(_) => 2
    case Reported => 1
    case _ => 0
  }

  /** What is left when the engine is gone: the others, without its probe, and perhaps one new retry thread, of a new
      generation and under a new name. */
  ghost predicate Left(s: Daemon, e: Tid, state: SessionState, retry: bool, end: Daemon) {
    && Resting(end) && end.inner.state == state && end.inner.stopRequested == s.inner.stopRequested
    && end.inner.config == s.inner.config
    && (forall t :: t in s.threads && t != e && !s.threads[t].Probe? ==>
          t in end.threads && end.threads[t] == s.threads[t])
    && if retry then
         && end.inner.generation == s.inner.generation + 1
         && Armed(end, s.next) && forall t :: t in end.threads ==> t in s.threads || t == s.next
       else
         && end.inner.generation == s.inner.generation
         && forall t :: t in end.threads ==> t in s.threads
  }

  lemma LeaveStep(s: Daemon, e: Tid)
    requires Alone(s, e) && PastProbe(s.threads[e].pc) && !s.threads[e].pc.Leaving?
    requires !(s.threads[e].pc.Reported? && !s.inner.stopRequested)
    ensures EngineNext(s, e, s.threads[e].pc, Proceed).Some?
    ensures var n := EngineNext(s, e, s.threads[e].pc, Proceed).value;
            && Alone(n, e) && PastProbe(n.threads[e].pc)
            && StepsToLeave(n.threads[e].pc) < StepsToLeave(s.threads[e].pc)
            && StateLeft(n, n.threads[e].pc) == StateLeft(s, s.threads[e].pc)
            && WillRetry(n, n.threads[e].pc) == WillRetry(s, s.threads[e].pc)
            && SameBut(s, e, n)
  {
    var pc := s.threads[e].pc;
    EngineStepOrderly(s, e, Proceed);
    assert pc.HealthCleared? ==> Outcome(s.inner.state, pc.failed);
    hide EngineFits;
    LeaveEffect(s, e, pc);
    LeaveTouches(s, e, pc);
  }

  lemma LeaveEffect(s: Daemon, e: Tid, pc: EnginePc)
    requires e in s.threads && PastProbe(pc) && !pc.Leaving? && !(pc.Reported? && !s.inner.stopRequested)
    requires pc.HealthCleared? ==> Outcome(s.inner.state, pc.failed)
    ensures EngineNext(s, e, pc, Proceed).Some?
    ensures var n := EngineNext(s, e, pc, Proceed).value;
            && e in n.threads && n.threads[e].Engine? && PastProbe(n.threads[e].pc)
            && StepsToLeave(n.threads[e].pc) < StepsToLeave(pc)
            && StateLeft(n, n.threads[e].pc) == StateLeft(s, pc) && WillRetry(n, n.threads[e].pc) == WillRetry(s, pc)
  {
  }

  lemma LeaveTouches(s: Daemon, e: Tid, pc: EnginePc)
    requires e in s.threads && s.threads[e].Engine?
    requires PastProbe(pc) && !pc.Leaving? && !(pc.Reported? && !s.inner.stopRequested)
    requires EngineNext(s, e, pc, Proceed).Some?
    ensures SameBut(s, e, EngineNext(s, e, pc, Proceed).value)
  {
    hide SameBut;
    var n := EngineNext(s, e, pc, Proceed).value;
    OnlyMoved(s, e, n);
  }

  lemma OnlyMoved(s: Daemon, e: Tid, n: Daemon)
    requires e in s.threads && s.threads[e].Engine? && e in n.threads && n.threads == s.threads[e := n.threads[e]]
    requires n.inner.stopRequested == s.inner.stopRequested && n.inner.config == s.inner.config
    requires n.inner.generation == s.inner.generation && n.next == s.next
    ensures SameBut(s, e, n)
  {
  }

  /** Only the engine's place, the probes and the state, health and cookie changed. */
  ghost predicate SameBut(s: Daemon, e: Tid, n: Daemon) {
    && e in n.threads && (forall t :: t in n.threads ==> t in s.threads)
    && (forall t :: t in s.threads && t != e && !s.threads[t].Probe? ==> t in n.threads && n.threads[t] == s.threads[t])
    && (forall t :: t in s.threads && t in n.threads && s.threads[t].Probe? ==> n.threads[t].Probe?)
    && n.inner.stopRequested == s.inner.stopRequested && n.inner.config == s.inner.config
    && n.inner.generation == s.inner.generation && n.next == s.next
  }

  lemma LeftBefore(s: Daemon, e: Tid, n: Daemon, state: SessionState, retry: bool, end: Daemon)
    requires e in s.threads && s.threads[e].Engine? && e in n.threads && n.threads[e].Engine?
    requires SameBut(s, e, n) && Left(n, e, state, retry, end)
    ensures Left(s, e, state, retry, end)
  {
    hide Resting, Armed;
  }

  lemma ReportedStep(s: Daemon, e: Tid)
    requires Alone(s, e) && s.threads[e].pc.Reported? && !s.inner.stopRequested
    ensures var g := s.inner.generation + 1;
            var n := Move(s.(inner := s.inner.(generation := g)), e, Rearming(g));
            EngineNext(s, e, Reported, Proceed) == Some(n) && Alone(n, e)
  {
    hide OnlyProbe;
    EngineStepOrderly(s, e, Proceed);
  }

  lemma RearmingStep(s: Daemon, e: Tid)
    requires Alone(s, e) && s.threads[e].pc.Rearming?
    ensures var n := Spawn(Move(s, e, Leaving), Retry(s.threads[e].pc.generation));
            EngineNext(s, e, s.threads[e].pc, Proceed) == Some(n) && Alone(n, e)
  {
    hide OnlyProbe;
    EngineStepOrderly(s, e, Proceed);
  }

  lemma LastSteps(s: Daemon, e: Tid)
    requires Alone(s, e) && s.threads[e].pc.Reported? && !s.inner.stopRequested
    ensures var actions := [EngineStep(e, Proceed), EngineStep(e, Proceed), EngineStep(e, Proceed)];
            Continues(s, actions) && Left(s, e, s.inner.state, true, Run(s, actions))
  {
    hide Continues, Run, EngineNext, EngineFits, OnlyProbe;
    var a, g := EngineStep(e, Proceed), s.inner.generation + 1;
    var n1 := Move(s.(inner := s.inner.(generation := g)), e, Rearming(g));
    ReportedStep(s, e);
    var n2 := Spawn(Move(n1, e, Leaving), Retry(g));
    RearmingStep(n1, e);
    var n3 := EngineNext(n2, e, Leaving, Proceed);
    LastStep(n2, e);
    LeftWithRetry(s, e, n2, n3.value);
    hide Alone, Left;
    ContinuesNone(n3.value);
    EngineContinues(n2, e, Proceed, n3.value, []);
    EngineContinues(n1, e, Proceed, n2, [a] + []);
    EngineContinues(s, e, Proceed, n1, [a] + ([a] + []));
    assert [a] + ([a] + ([a] + [])) == [a, a, a];
  }

  lemma LeftWithRetry(s: Daemon, e: Tid, n: Daemon, end: Daemon)
    requires Alone(s, e) && e < s.next
    requires n.threads == s.threads[e := Engine(Leaving)][s.next := Retry(s.inner.generation + 1)]
    requires n.inner == s.inner.(generation := s.inner.generation + 1)
    requires Left(n, e, s.inner.state, false, end)
    ensures Left(s, e, s.inner.state, true, end)
  {
    hide Resting, EngineFits;
    assert Armed(end, s.next);
  }

  lemma LastStep(s: Daemon, e: Tid)
    requires Alone(s, e) && s.threads[e].pc.Leaving?
    ensures var n := EngineNext(s, e, Leaving, Proceed);
            n.Some? && Left(s, e, s.inner.state, false, n.value)
  {
    hide EngineFits, OnlyProbe;
    EngineStepOrderly(s, e, Proceed);
  }

  /** An engine past its probe leaves; the state and the retry are as they should be. */
  lemma {:induction false} EngineLeaves(s: Daemon, e: Tid) returns (actions: seq<Action>)
    requires Alone(s, e) && PastProbe(s.threads[e].pc)
    ensures Continues(s, actions)
    ensures Left(s, e, StateLeft(s, s.threads[e].pc), WillRetry(s, s.threads[e].pc), Run(s, actions))
    decreases StepsToLeave(s.threads[e].pc)
  {
    hide EngineFits, EngineNext, Continues, Run, Left, StepsToLeave, StateLeft, WillRetry, SameBut;
    var pc, a := s.threads[e].pc, EngineStep(e, Proceed);
    if pc.Leaving? {
      LastStep(s, e);
      LeavingIsLast(s);
      var n := EngineNext(s, e, Leaving, Proceed).value;
      ContinuesNone(n);
      EngineContinues(s, e, Proceed, n, []);
      actions := [a] + [];
    } else if pc.Reported? && !s.inner.stopRequested {
      LastSteps(s, e);
      ReportedRetries(s);
      actions := [a, a, a];
    } else {
      LeaveStep(s, e);
      var n := EngineNext(s, e, pc, Proceed).value;
      var rest := EngineLeaves(n, e);
      EngineContinues(s, e, Proceed, n, rest);
      actions := [a] + rest;
      ContinuesMeansPossible(s, actions);
      LeftBefore(s, e, n, StateLeft(s, pc), WillRetry(s, pc), Run(s, actions));
    }
  }

  lemma LeavingIsLast(s: Daemon)
    ensures StateLeft(s, Leaving) == s.inner.state && !WillRetry(s, Leaving)
  {
  }

  lemma ReportedRetries(s: Daemon)
    requires !s.inner.stopRequested
    ensures StateLeft(s, Reported) == s.inner.state && WillRetry(s, Reported)
  {
  }

  // ---------------------------------------------------------------------
  // The probe is told to stop and joined

  ghost predicate HandleOfProbe(s: Daemon, probe: Option<Tid>) {
    probe.Some? ==> probe.value < s.next && (probe.value in s.threads ==> s.threads[probe.value].Probe?)
  }

  /** What `stop_health` takes and joins is a probe, or a thread that is gone. */
  ghost predicate ProbeHandles(s: Daemon) {
    && (forall t :: t in s.threads ==> t < s.next)
    && HandleOfProbe(s, s.probe)
    && forall e :: e in s.threads && s.threads[e].Engine? && s.threads[e].pc.Joining? ==>
         HandleOfProbe(s, s.threads[e].pc.probe)
  }

  /** A step that changes at most one thread, which is no probe, and starts at most one, under a new name. */
  ghost predicate Touches(s: Daemon, n: Daemon, x: Tid) {
    && s.next <= n.next <= s.next + 1
    && (x in n.threads && x in s.threads && !s.threads[x].Probe? ==> !n.threads[x].Probe?)
    && forall t :: t in n.threads && t != x ==> (t in s.threads && n.threads[t] == s.threads[t]) || t == s.next < n.next
  }

  lemma HandleSurvives(s: Daemon, n: Daemon, x: Tid, probe: Option<Tid>)
    requires Touches(s, n, x) && HandleOfProbe(s, probe) && x in s.threads
    requires x in n.threads && s.threads[x].Probe? ==> n.threads[x].Probe?
    ensures HandleOfProbe(n, probe)
  {
  }

  /** The handles an engine's step leaves are the ones there were, or that of the probe it starts. */
  lemma EngineTouches(s: Daemon, e: Tid, pc: EnginePc)
    requires e in s.threads && s.threads[e] == Engine(pc) && e < s.next
    ensures var n := Unconditional(s, e, pc);
            && Touches(s, n, e) && (e in n.threads ==> n.threads[e].Engine?)
            && (n.probe == s.probe || n.probe.None?
                || (n.probe == Some(s.next) && s.next < n.next && s.next in n.threads && n.threads[s.next].Probe?))
            && (e in n.threads && n.threads[e].pc.Joining? ==>
                  n.threads[e].pc.probe == s.probe || (pc.Joining? && n.threads[e].pc.probe == pc.probe))
            && (forall t :: t in n.threads && t !in s.threads ==> !n.threads[t].Engine?)
  {
  }

  lemma UnconditionalKeepsHandles(s: Daemon, e: Tid)
    requires ProbeHandles(s) && e in s.threads && s.threads[e].Engine?
    ensures ProbeHandles(Unconditional(s, e, s.threads[e].pc))
  {
    hide Unconditional, Touches, HandleOfProbe;
    var pc := s.threads[e].pc;
    var n := Unconditional(s, e, pc);
    EngineTouches(s, e, pc);
    TouchedNames(s, n, e);
    HandleSurvives(s, n, e, s.probe);
    NoHandle(n);
    if n.probe != s.probe && n.probe.Some? {
      NewHandle(n, s.next);
    }
    forall t | t in n.threads && n.threads[t].Engine? && n.threads[t].pc.Joining?
      ensures HandleOfProbe(n, n.threads[t].pc.probe)
    {
      HandleSurvives(s, n, e, n.threads[t].pc.probe);
    }
  }

  lemma TouchedNames(s: Daemon, n: Daemon, x: Tid)
    requires Touches(s, n, x) && x < s.next && forall t :: t in s.threads ==> t < s.next
    ensures forall t :: t in n.threads ==> t < n.next
    ensures forall t :: t in n.threads && t != x && t in s.threads ==> n.threads[t] == s.threads[t]
  {
  }

  lemma NoHandle(n: Daemon)
    ensures HandleOfProbe(n, None)
  {
  }

  lemma NewHandle(n: Daemon, p: Tid)
    requires p < n.next && p in n.threads && n.threads[p].Probe?
    ensures HandleOfProbe(n, Some(p))
  {
  }

  lemma EngineKeepsHandles(s: Daemon, e: Tid, op: EngineOp)
    requires ProbeHandles(s) && e in s.threads && s.threads[e].Engine? && EngineNext(s, e, s.threads[e].pc, op).Some?
    ensures ProbeHandles(EngineNext(s, e, s.threads[e].pc, op).value)
  {
    hide Unconditional;
    UnconditionalKeepsHandles(s, e);
  }

  lemma StartKeepsHandles(s: Daemon, x: Tid, origin: Origin, at: StartPc)
    requires ProbeHandles(s) && x in s.threads && s.threads[x] == Start(origin, at)
    ensures ProbeHandles(StartNext(s, x, origin, at))
  {
  }

  lemma StepKeepsHandles(s: Daemon, a: Action)
    requires ProbeHandles(s) && Next(s, a).Some?
    ensures ProbeHandles(Next(s, a).value)
  {
    hide EngineNext, StartNext;
    if a.EngineStep? {
      EngineKeepsHandles(s, a.engine, a.op);
    } else if a.StartStep? {
      StartKeepsHandles(s, a.starter, s.threads[a.starter].origin, s.threads[a.starter].at);
    }
  }

  lemma {:induction false} RunKeepsHandles(s: Daemon, actions: seq<Action>)
    requires ProbeHandles(s) && Possible(s, actions)
    ensures ProbeHandles(Run(s, actions))
    decreases |actions|
  {
    hide ProbeHandles, Next;
    if actions != [] {
      StepKeepsHandles(s, actions[0]);
      RunKeepsHandles(Next(s, actions[0]).value, actions[1..]);
    }
  }

  /** An unwinding engine takes the handle of its probe and tells it to stop. */
  lemma Unwinds(s: Daemon, e: Tid)
    requires Alone(s, e) && s.threads[e].pc.Unwinding? && HandleOfProbe(s, s.probe)
    ensures var failed := s.threads[e].pc.failed;
            var n := Move(s.(healthStop := true, probe := None), e, Joining(failed, s.probe));
            && EngineNext(s, e, s.threads[e].pc, Proceed) == Some(n) && Alone(n, e) && SameBut(s, e, n)
            && HandleOfProbe(n, s.probe)
  {
    hide OnlyProbe;
    EngineStepOrderly(s, e, Proceed);
  }

  /** Once the probe is gone the join returns. */
  lemma Joins(s: Daemon, e: Tid)
    requires Alone(s, e) && s.threads[e].pc.Joining?
    requires s.threads[e].pc.probe.Some? ==> s.threads[e].pc.probe.value !in s.threads
    ensures var n := Move(s, e, ProbeGone(s.threads[e].pc.failed));
            EngineNext(s, e, s.threads[e].pc, Proceed) == Some(n) && Alone(n, e) && SameBut(s, e, n)
  {
    hide OnlyProbe;
    EngineStepOrderly(s, e, Proceed);
  }

  /** The probe ends in at most two steps. */
  lemma ProbeEnds(s: Daemon, e: Tid, p: Tid) returns (actions: seq<Action>)
    requires Alone(s, e) && s.threads[e].pc.Joining? && s.healthStop && p in s.threads && s.threads[p].Probe?
    ensures Continues(s, actions)
    ensures var n := Run(s, actions);
            Alone(n, e) && n.threads == s.threads - {p} && SameBut(s, e, n)
  {
    hide Continues, Run;
    var a := ProbeStep(p);
    if s.threads[p].asking {
      var n1 := Put(s.(inner := s.inner.(health := true)), p, Probe(false));
      var n2 := Gone(n1, p);
      assert n2.threads == s.threads - {p};
      assert Next(s, a) == Some(n1) && Next(n1, a) == Some(n2);
      ContinuesNone(n2);
      ContinuesCons(n1, a, []);
      ContinuesCons(s, a, [a] + []);
      actions := [a] + ([a] + []);
    } else {
      var n := Gone(s, p);
      assert Next(s, a) == Some(n);
      ContinuesNone(n);
      ContinuesCons(s, a, []);
      actions := [a] + [];
    }
  }

  lemma ContinuesUncons(s: Daemon, actions: seq<Action>)
    requires Continues(s, actions) && actions != []
    ensures Next(s, actions[0]).Some? && Undisturbed(s, actions[0]) && HandsOff(actions[0])
    ensures Continues(Next(s, actions[0]).value, actions[1..])
    ensures Run(s, actions) == Run(Next(s, actions[0]).value, actions[1..])
  {
    hide Next, Undisturbed, HandsOff;
    assert forall k :: 0 <= k < |actions| - 1 ==> actions[1..][k] == actions[k + 1];
  }

  lemma {:induction false} Chain(s: Daemon, first: seq<Action>, rest: seq<Action>)
    requires Continues(s, first) && Continues(Run(s, first), rest)
    ensures Continues(s, first + rest) && Run(s, first + rest) == Run(Run(s, first), rest)
    decreases |first|
  {
    if first == [] {
      assert first + rest == rest;
    } else {
      var n := Next(s, first[0]).value;
      ContinuesUncons(s, first);
      Chain(n, first[1..], rest);
      hide Continues, Run, Next;
      ContinuesCons(s, first[0], first[1..] + rest);
      assert [first[0]] + (first[1..] + rest) == first + rest;
    }
  }

  /** An engine whose session has ended joins its probe. */
  lemma StopsHealth(s: Daemon, e: Tid) returns (actions: seq<Action>)
    requires Alone(s, e) && s.threads[e].pc.Unwinding? && HandleOfProbe(s, s.probe)
    ensures Continues(s, actions)
    ensures var n := Run(s, actions);
            Alone(n, e) && n.threads[e] == Engine(ProbeGone(s.threads[e].pc.failed)) && SameBut(s, e, n)
  {
    hide Continues, Run, EngineNext, EngineFits, SameBut;
    var failed, a := s.threads[e].pc.failed, EngineStep(e, Proceed);
    var n1 := Move(s.(healthStop := true, probe := None), e, Joining(failed, s.probe));
    Unwinds(s, e);
    var probing: seq<Action> := [];
    ContinuesNone(n1);
    SameAsItself(n1, e);
    if s.probe.Some? && s.probe.value in n1.threads {
      probing := ProbeEnds(n1, e, s.probe.value);
    }
    ContinuesMeansPossible(n1, probing);
    var n2 := Run(n1, probing);
    var n3 := Move(n2, e, ProbeGone(failed));
    assert n2.threads[e] == Engine(Joining(failed, s.probe));
    Joins(n2, e);
    hide Alone;
    ContinuesNone(n3);
    EngineContinues(n2, e, Proceed, n3, []);
    Chain(n1, probing, [a] + []);
    EngineContinues(s, e, Proceed, n1, probing + ([a] + []));
    actions := [a] + (probing + ([a] + []));
    SameThrough(s, e, n1, n2);
    SameThrough(s, e, n2, n3);
  }

  lemma SameAsItself(s: Daemon, e: Tid)
    requires e in s.threads
    ensures SameBut(s, e, s)
  {
  }

  lemma SameThrough(s: Daemon, e: Tid, n: Daemon, m: Daemon)
    requires SameBut(s, e, n) && SameBut(n, e, m) && e in s.threads && s.threads[e].Engine?
    ensures SameBut(s, e, m)
  {
  }

  /** From the end of the session to the end of its engine: a failed session nobody stopped ends Failed, with a retry
      thread of a new generation; any other ends Stopped, with none. */
  lemma SessionEnds(s: Daemon, e: Tid) returns (actions: seq<Action>)
    requires Alone(s, e) && s.threads[e].pc.Unwinding? && HandleOfProbe(s, s.probe)
    ensures Continues(s, actions)
    ensures var failed := s.threads[e].pc.failed && !s.inner.stopRequested;
            Left(s, e, if failed then Failed else Stopped, failed, Run(s, actions))
  {
    hide Continues, Run, EngineFits, Left, SameBut, StepsToLeave;
    var first := StopsHealth(s, e);
    ContinuesMeansPossible(s, first);
    var n := Run(s, first);
    assert n.inner.stopRequested == s.inner.stopRequested by {
      SameStop(s, e, n);
    }
    var rest := EngineLeaves(n, e);
    Chain(s, first, rest);
    actions := first + rest;
    ContinuesMeansPossible(s, actions);
    LeftBefore(s, e, n, StateLeft(n, n.threads[e].pc), WillRetry(n, n.threads[e].pc), Run(s, actions));
  }

  /** So it is for every session that ends in a reachable state. */
  lemma EverySessionEnds(actions: seq<Action>, e: Tid) returns (rest: seq<Action>)
    requires Possible(Init(), actions) && NonOverlapping(Init(), actions)
    requires var s := Run(Init(), actions); e in s.threads && s.threads[e].Engine? && s.threads[e].pc.Unwinding?
    ensures var s := Run(Init(), actions);
            var failed := s.threads[e].pc.failed && !s.inner.stopRequested;
            Continues(s, rest) && Left(s, e, if failed then Failed else Stopped, failed, Run(s, rest))
  {
    hide Possible, NonOverlapping, Run, Orderly, Continues, Left;
    var s := Run(Init(), actions);
    InitOrderly();
    RunOrderly(Init(), actions);
    RunKeepsHandles(Init(), actions);
    UnwindingIsUndisturbed(s, e);
    EngineActsAlone(s, e, Proceed);
    rest := SessionEnds(s, e);
  }

  lemma UnwindingIsUndisturbed(s: Daemon, e: Tid)
    requires Orderly(s) && e in s.threads && s.threads[e].Engine? && s.threads[e].pc.Unwinding?
    ensures Undisturbed(s, EngineStep(e, Proceed))
  {
    hide EngineFits, SectionFits;
  }

  lemma SameStop(s: Daemon, e: Tid, n: Daemon)
    requires SameBut(s, e, n)
    ensures n.inner.stopRequested == s.inner.stopRequested
  {
  }
}
