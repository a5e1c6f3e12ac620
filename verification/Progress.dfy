/** What the daemon's threads get done: each lemma gives the steps that lead from one situation to the next and says
    exactly what they leave.  Unless noted, nothing overlaps in them and the user asks for nothing (`Continues`). */
module Progress {
  import opened Wrappers
  import opened Lifecycle
  import opened Generations
  import opened Sessions
  import opened Retries
  import opened Stops

  // ---------------------------------------------------------------------
  // Retries

  /** The steps of a retry thread that finds the network up. */
  function RetryRun(r: Tid): seq<Action> {
    [RetryStep(r, true), StartStep(r), StartStep(r), StartStep(r)]
  }

  /** An engine was started under that name and its handle stored. */
  ghost predicate EngineStarted(end: Daemon, e: Tid) {
    && end.inner.engine == Some(e) && !end.inner.stopRequested && end.inner.config
    && e in end.threads && end.threads[e] == Engine(Launched)
  }

  /** `engine_start`, undisturbed, finds no handle: it starts an engine. */
  lemma StartRuns(s: Daemon, x: Tid)
    requires x in s.threads && s.threads[x].Start? && s.threads[x].at.Entering? && s.inner.engine.None? && x < s.next
    requires forall t :: t in s.threads && InSection(s.threads[t]) ==> t == x
    ensures var actions := [StartStep(x), StartStep(x), StartStep(x)];
            Continues(s, actions) && EngineStarted(Run(s, actions), s.next)
  {
    StartCompletes(s, x);
    StartConfigures(s, x);
  }

  lemma StartConfigures(s: Daemon, x: Tid)
    requires x in s.threads && s.threads[x].Start? && s.threads[x].at.Entering? && s.inner.engine.None? && x < s.next
    ensures var actions := [StartStep(x), StartStep(x), StartStep(x)];
            Possible(s, actions) && Run(s, actions).inner.config
  {
    hide Possible, Run;
    var origin, a := s.threads[x].origin, StartStep(x);
    var s3 := Next(s, a).value;
    assert s3.threads[x] == Start(origin, Accepted);
    var s4 := Next(s3, a).value;
    assert s4.threads[x] == Start(origin, Spawned(s.next));
    var s5 := Next(s4, a).value;
    RunNone(s5);
    RunCons(s4, a, []);
    RunCons(s3, a, [a] + []);
    RunCons(s, a, [a] + ([a] + []));
    assert [a] + ([a] + ([a] + [])) == [a, a, a];
  }

  /** A failed session that nobody stopped is started again by its retry thread as soon as the network is up; until then
      the thread keeps waiting. */
  lemma RetryStarts(s: Daemon, r: Tid)
    requires Resting(s) && Abandoned(s.inner) && Armed(s, r)
    ensures Continues(s, RetryRun(r)) && EngineStarted(Run(s, RetryRun(r)), s.next)
    ensures Next(s, RetryStep(r, false)) == Some(s)
  {
    hide Continues, Run, EngineStarted;
    var n := Put(s, r, Start(FromRetry(s.inner.generation), Entering));
    RetryEnters(s, r);
    StartRuns(n, r);
    hide Next, Undisturbed;
    ContinuesCons(s, RetryStep(r, true), [StartStep(r), StartStep(r), StartStep(r)]);
    assert [RetryStep(r, true)] + [StartStep(r), StartStep(r), StartStep(r)] == RetryRun(r);
  }

  lemma RetryEnters(s: Daemon, r: Tid)
    requires Resting(s) && Abandoned(s.inner) && Armed(s, r)
    ensures var n := Put(s, r, Start(FromRetry(s.inner.generation), Entering));
            && Next(s, RetryStep(r, true)) == Some(n) && Undisturbed(s, RetryStep(r, true))
            && forall t :: t in n.threads && InSection(n.threads[t]) ==> t == r
  {
  }

  /** A retry thread exits exactly when it is not needed any more; otherwise it starts an engine, or waits for the
      network. */
  lemma RetryExits(s: Daemon, r: Tid, networkUp: bool)
    requires r in s.threads && s.threads[r].Retry?
    ensures Next(s, RetryStep(r, networkUp)) == Some(s.(threads := s.threads - {r}))
            <==> || s.inner.stopRequested || s.inner.generation != s.threads[r].generation
                 || s.inner.engine.Some? || !s.inner.state.Failed?
    ensures Next(s, RetryStep(r, networkUp)) == Some(s)
            <==> && !networkUp && !s.inner.stopRequested && s.inner.generation == s.threads[r].generation
                 && s.inner.engine.None? && s.inner.state.Failed?
    ensures var n := Next(s, RetryStep(r, networkUp)).value;
            n != s && r in n.threads ==> n.threads[r].Start? && n.threads[r].at.Entering? && n.inner == s.inner
  {
    assert r !in s.threads - {r} && r in Put(s, r, Start(FromRetry(s.inner.generation), Entering)).threads;
  }

  /** So every failed session nobody stopped, with no engine and nothing under way, has a retry thread that starts an
      engine. */
  lemma FailedSessionsAreRetried(actions: seq<Action>)
    requires Possible(Init(), actions) && NonOverlapping(Init(), actions) && AllNulFree(actions)
    ensures var s := Run(Init(), actions);
            Abandoned(s.inner) && s.inner.engine.None? && !SectionOpen(s) ==>
              exists r :: && Armed(s, r) && Continues(s, RetryRun(r))
                          && EngineStarted(Run(s, RetryRun(r)), s.next)
  {
    hide Possible, NonOverlapping, Run, Orderly, InSection, AllNulFree, Continues, EngineStarted;
    var s := Run(Init(), actions);
    InitOrderly();
    RunOrderly(Init(), actions);
    NoFailedSessionIsOrphaned(actions);
    if Abandoned(s.inner) && s.inner.engine.None? && !SectionOpen(s) {
      OutsideSections(s);
      var r :| Armed(s, r);
      RetryStarts(s, r);
    }
  }

  /** An accepted start outdates every retry thread there is. */
  lemma StartOutdatesRetries(s: Daemon, x: Tid, t: Tid)
    requires Issued(s) && x in s.threads && s.threads[x].Start? && s.threads[x].at.Entering? && s.inner.engine.None?
    ensures var n := Next(s, StartStep(x)).value;
            t in n.threads && n.threads[t].Retry? ==> n.threads[t].generation < n.inner.generation
  {
  }

  // ---------------------------------------------------------------------
  // The stored configuration

  /** Past the first check of `engine_start` the configuration is stored; so it is once the session has left Stopped. */
  ghost predicate Configured(s: Daemon) {
    && (s.inner.state.Stopped? || s.inner.config)
    && forall t :: t in s.threads && NeedsConfig(s.threads[t]) ==> s.inner.config
  }

  predicate NeedsConfig(t: Thread) {
    t.Engine? || t.Pausing? || (t.Start? && !t.at.Entering?)
  }

  lemma EngineConfigured(s: Daemon, e: Tid, op: EngineOp)
    requires Configured(s) && e in s.threads && s.threads[e].Engine? && EngineNext(s, e, s.threads[e].pc, op).Some?
    ensures var n := EngineNext(s, e, s.threads[e].pc, op).value; Configured(n)
  {
    hide Unconditional;
    UnconditionalConfigured(s, e, s.threads[e].pc);
  }

  lemma UnconditionalConfigured(s: Daemon, e: Tid, pc: EnginePc)
    requires s.inner.config
    ensures Unconditional(s, e, pc).inner.config
  {
  }

  lemma StepConfigured(s: Daemon, a: Action)
    requires Configured(s) && Next(s, a).Some?
    ensures Configured(Next(s, a).value)
  {
    hide EngineNext;
    if a.EngineStep? {
      EngineConfigured(s, a.engine, a.op);
    }
  }

  lemma {:induction false} RunConfigured(s: Daemon, actions: seq<Action>)
    requires Configured(s) && Possible(s, actions)
    ensures Configured(Run(s, actions))
    decreases |actions|
  {
    hide Configured, Next;
    if actions != [] {
      StepConfigured(s, actions[0]);
      RunConfigured(Next(s, actions[0]).value, actions[1..]);
    }
  }

  /** In every reachable state, whatever overlaps, a failed session has the configuration it can be restarted with. */
  lemma FailedHasConfig(actions: seq<Action>)
    requires Possible(Init(), actions)
    ensures Run(Init(), actions).inner.state.Failed? ==> Run(Init(), actions).inner.config
  {
    RunConfigured(Init(), actions);
  }

  // ---------------------------------------------------------------------
  // Network events

  /** A network event while the engine serves a session pauses it: the session is Reconnecting, and no thread is left
      over. */
  lemma NetworkPauses(s: Daemon, e: Tid)
    requires Alone(s, e) && ServingPc(s.threads[e])
    ensures var x := s.next;
            var actions := [NetEvent, PauseStep(x)];
            && Continues(s, actions)
            && var end := Run(s, actions);
               end.inner == s.inner.(state := Reconnecting) && end.threads == s.threads
  {
    hide Continues, Run;
    var x := s.next;
    var n := Spawn(s, Pausing);
    assert s.inner.cmdFd && (s.inner.state.Connected? || s.inner.state.Reconnecting?);
    assert Next(s, NetEvent) == Some(n) && n.threads[x] == Pausing;
    var end := Next(n, PauseStep(x)).value;
    assert end.threads == s.threads;
    ContinuesNone(end);
    ContinuesCons(n, PauseStep(x), []);
    ContinuesCons(s, NetEvent, [PauseStep(x)] + []);
    assert [NetEvent] + ([PauseStep(x)] + []) == [NetEvent, PauseStep(x)];
  }

  /** The pausing thread does not look again: whatever happened since the event was judged, the session is then called
      Reconnecting. */
  lemma PausingIsBlind(s: Daemon, x: Tid)
    requires x in s.threads && s.threads[x].Pausing?
    ensures Next(s, PauseStep(x)) == Some(s.(inner := s.inner.(state := Reconnecting), threads := s.threads - {x}))
  {
  }

  /** A network event restarts a failed session and is otherwise ignored unless a session is up and can be paused. */
  lemma NetworkRestarts(s: Daemon)
    requires Resting(s) && s.inner.state.Failed? && s.inner.config
    ensures var x := s.next;
            var actions := [NetEvent, StartStep(x), StartStep(x), StartStep(x)];
            Continues(s, actions) && EngineStarted(Run(s, actions), x + 1)
  {
    hide Continues, Run, EngineStarted;
    var x := s.next;
    var n := Spawn(s, Start(FromNet, Entering));
    assert n.threads[x] == Start(FromNet, Entering);
    StartRuns(n, x);
    ContinuesCons(s, NetEvent, [StartStep(x), StartStep(x), StartStep(x)]);
    assert [NetEvent] + [StartStep(x), StartStep(x), StartStep(x)]
           == [NetEvent, StartStep(x), StartStep(x), StartStep(x)];
  }

  lemma NetworkIgnored(s: Daemon)
    ensures Next(s, NetEvent) == Some(s)
            <==> && !((s.inner.state.Connected? || s.inner.state.Reconnecting?) && s.inner.cmdFd)
                 && !(s.inner.state.Failed? && s.inner.engine.None? && s.inner.config)
  {
    assert Spawn(s, Pausing).next != s.next && Spawn(s, Start(FromNet, Entering)).next != s.next;
  }

  // ---------------------------------------------------------------------
  // IPC commands

  /** A start given while an engine is stored is refused and changes nothing. */
  lemma StartRefused(s: Daemon)
    requires s.inner.engine.Some? && s.next !in s.threads
    ensures var x := s.next;
            && Possible(s, [UserStart, StartStep(x)])
            && Run(s, [UserStart, StartStep(x)]) == s.(next := x + 1)
  {
    hide Possible, Run;
    var x := s.next;
    var n := Spawn(s, Start(User, Entering));
    var end := Next(n, StartStep(x)).value;
    assert end.threads == s.threads;
    RunNone(end);
    RunCons(n, StartStep(x), []);
    RunCons(s, UserStart, [StartStep(x)] + []);
    assert [UserStart] + ([StartStep(x)] + []) == [UserStart, StartStep(x)];
  }

  /** A start given with no engine starts one. */
  lemma StartAccepted(s: Daemon)
    requires Resting(s)
    ensures var x := s.next;
            var actions := [UserStart, StartStep(x), StartStep(x), StartStep(x)];
            Possible(s, actions) && EngineStarted(Run(s, actions), x + 1)
  {
    hide Possible, Run, EngineStarted;
    var x := s.next;
    var n := Spawn(s, Start(User, Entering));
    assert n.threads[x] == Start(User, Entering);
    StartRuns(n, x);
    ContinuesMeansPossible(n, [StartStep(x), StartStep(x), StartStep(x)]);
    RunCons(s, UserStart, [StartStep(x), StartStep(x), StartStep(x)]);
    assert [UserStart] + [StartStep(x), StartStep(x), StartStep(x)]
           == [UserStart, StartStep(x), StartStep(x), StartStep(x)];
  }

  /** An accepted start is carried out whatever happens meanwhile, a stop included: its thread launches an engine and
      stores that engine's handle. */
  lemma AcceptedStartLaunches(s: Daemon, x: Tid)
    requires x in s.threads && s.threads[x].Start? && s.threads[x].at.Accepted? && x < s.next
    ensures var actions := [StartStep(x), StartStep(x)];
            && Possible(s, actions)
            && var end := Run(s, actions);
               && end.inner == s.inner.(engine := Some(s.next))
               && end.threads == (s.threads - {x})[s.next := Engine(Launched)]
  {
    hide Possible, Run;
    var n := Next(s, StartStep(x)).value;
    assert n.threads[x].at == Spawned(s.next);
    var end := Next(n, StartStep(x)).value;
    assert end.threads == (s.threads - {x})[s.next := Engine(Launched)];
    RunNone(end);
    RunCons(n, StartStep(x), []);
    RunCons(s, StartStep(x), [StartStep(x)] + []);
    assert [StartStep(x)] + ([StartStep(x)] + []) == [StartStep(x), StartStep(x)];
  }

  /** A restart request raises the stop flag and waits; once the engine is gone it starts another. */
  lemma RestartWaits(s: Daemon)
    ensures var n := Spawn(s.(inner := s.inner.(stopRequested := true)), Restarting);
            && Next(s, UserRestart) == Some(n)
            && (s.inner.engine.Some? ==> Next(n, RestartStep(s.next, false)) == Some(n))
            && Next(n, RestartStep(s.next, true)) == Some(Gone(n, s.next))
  {
  }

  lemma RestartCompletes(s: Daemon, x: Tid)
    requires Resting(s) && x in s.threads && s.threads[x].Restarting?
    ensures var actions := [RestartStep(x, false), StartStep(x), StartStep(x), StartStep(x)];
            Continues(s, actions) && EngineStarted(Run(s, actions), s.next)
  {
    hide Continues, Run, EngineStarted;
    var n := Put(s, x, Start(User, Entering));
    assert Next(s, RestartStep(x, false)) == Some(n);
    StartRuns(n, x);
    ContinuesCons(s, RestartStep(x, false), [StartStep(x), StartStep(x), StartStep(x)]);
    assert [RestartStep(x, false)] + [StartStep(x), StartStep(x), StartStep(x)]
           == [RestartStep(x, false), StartStep(x), StartStep(x), StartStep(x)];
  }
}
