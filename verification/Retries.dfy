/** Failed sessions are retried. */
module Retries {
  import opened Wrappers
  import opened Lifecycle
  import opened Generations
  import opened Sessions

  /** The configuration holds no string with a NUL octet. */
  predicate NulFree(a: Action) {
    !(a.EngineStep? && a.op.BadString?)
  }

  ghost predicate AllNulFree(actions: seq<Action>) {
    forall k :: 0 <= k < |actions| ==> NulFree(actions[k])
  }

  ghost predicate Armed(s: Daemon, r: Tid) {
    r in s.threads && s.threads[r] == Retry(s.inner.generation)
  }

  /** A session failed and nobody asked for that. */
  predicate Abandoned(i: Inner) {
    i.state.Failed? && !i.stopRequested
  }

  ghost predicate NoStart(s: Daemon) {
    forall t :: t in s.threads ==> !s.threads[t].Start?
  }

  /** A failed session is being looked after: a retry thread carries the current generation, or an engine that is
      leaving will see to it, or a start is under way. */
  ghost predicate LookedAfter(s: Daemon) {
    && (forall e :: e in s.threads && s.threads[e].Engine? && s.threads[e].pc.Rearming? ==>
          s.threads[e].pc.generation == s.inner.generation)
    && (forall e :: e in s.threads && s.threads[e] == Engine(Leaving) && Abandoned(s.inner) ==> exists r :: Armed(s, r))
    && (NoEngine(s) && NoStart(s) && Abandoned(s.inner) ==> exists r :: Armed(s, r))
  }

  /** How an engine comes to spawn a retry thread, and how it comes to leave. */
  lemma EngineTail(s: Daemon, e: Tid, op: EngineOp)
    requires e in s.threads && e < s.next && s.threads[e].Engine? && EngineFits(s, s.threads[e].pc)
    requires EngineNext(s, e, s.threads[e].pc, op).Some? && !op.BadString? && !s.threads[e].pc.Leaving?
    ensures var n := EngineNext(s, e, s.threads[e].pc, op).value;
            && e in n.threads && n.threads[e].Engine?
            && (n.threads[e].pc.Rearming? ==> n.threads[e].pc.generation == n.inner.generation)
            && (n.threads[e].pc.Leaving? && Abandoned(n.inner) ==>
                  && s.threads[e].pc.Rearming?
                  && n == Spawn(Put(s, e, Engine(Leaving)), Retry(s.threads[e].pc.generation)))
  {
    hide OnlyProbe, Clean;
  }

  lemma EngineLookedAfter(s: Daemon, e: Tid, op: EngineOp)
    requires Alone(s, e) && LookedAfter(s) && EngineNext(s, e, s.threads[e].pc, op).Some? && !op.BadString?
    ensures LookedAfter(EngineNext(s, e, s.threads[e].pc, op).value)
  {
    hide EngineFits;
    var n := EngineNext(s, e, s.threads[e].pc, op).value;
    EngineStepOrderly(s, e, op);
    if s.threads[e].pc.Leaving? {
      if Abandoned(s.inner) {
        var r :| Armed(s, r);
        assert Armed(n, r);
      }
    } else {
      hide EngineNext;
      EngineTail(s, e, op);
      if s.threads[e].pc.Rearming? && n.threads[e].pc.Leaving? && Abandoned(n.inner) {
        assert Armed(n, s.next);
      }
    }
  }

  /** Steps that leave the retry threads and the fields they look at alone. */
  lemma UntouchedLookedAfter(s: Daemon, n: Daemon)
    requires LookedAfter(s)
    requires n.inner.generation == s.inner.generation && n.inner.state == s.inner.state
    requires n.inner.stopRequested || n.inner.stopRequested == s.inner.stopRequested
    requires forall t :: t in s.threads && (s.threads[t].Retry? || s.threads[t].Engine? || s.threads[t].Start?) ==>
               t in n.threads && n.threads[t] == s.threads[t]
    requires forall t :: t in n.threads && n.threads[t].Engine? ==> t in s.threads && n.threads[t] == s.threads[t]
    ensures LookedAfter(n)
  {
    if exists r :: Armed(s, r) {
      var r :| Armed(s, r);
      assert Armed(n, r);
    }
    assert NoEngine(n) ==> NoEngine(s);
    assert NoStart(n) ==> NoStart(s);
  }

  /** While a start is under way and no engine is leaving, nothing is required. */
  lemma StartLookedAfter(s: Daemon, x: Tid)
    requires x in s.threads && s.threads[x].Start?
    requires forall e :: e in s.threads && s.threads[e].Engine? ==> !InSection(s.threads[e])
    ensures LookedAfter(s)
  {
  }

  lemma EngineInUseLookedAfter(s: Daemon, e: Tid)
    requires e in s.threads && s.threads[e].Engine?
    requires forall t :: t in s.threads && s.threads[t].Engine? ==> !InSection(s.threads[t])
    ensures LookedAfter(s)
  {
  }

  lemma RetryLeavesLookedAfter(s: Daemon, r: Tid)
    requires Orderly(s) && LookedAfter(s)
    requires forall t :: t in s.threads ==> !InSection(s.threads[t])
    requires r in s.threads && s.threads[r].Retry? && !MayRetry(s.inner, s.threads[r].generation)
    ensures LookedAfter(Gone(s, r))
  {
    var n := Gone(s, r);
    OutsideSections(s);
    assert forall t :: t in n.threads ==> n.threads[t] == s.threads[t] && !InSection(s.threads[t]);
    if NoEngine(n) && Abandoned(n.inner) {
      assert forall t :: t in s.threads && t != r ==> t in n.threads;
      assert NoEngine(s);
      assert s.inner.engine.None?;
      assert NoStart(s);
      var q :| Armed(s, q);
      assert Armed(n, q);
    }
  }

  lemma StepLookedAfter(s: Daemon, a: Action)
    requires Orderly(s) && LookedAfter(s) && Next(s, a).Some? && Undisturbed(s, a) && NulFree(a)
    ensures LookedAfter(Next(s, a).value)
  {
    hide Orderly, EngineNext, LookedAfter, Undisturbed;
    var n := Next(s, a).value;
    match a
    case EngineStep(e, op) =>
      EngineActsAlone(s, e, op);
      EngineLookedAfter(s, e, op);
    case ProbeStep(p) => UntouchedLookedAfter(s, n);
    case RetryStep(r, networkUp) =>
      NobodyInside(s, a);
      if !MayRetry(s.inner, s.threads[r].generation) {
        RetryLeavesLookedAfter(s, r);
      } else if networkUp {
        StartLookedAfter(n, r);
      }
    case NetEvent =>
      NobodyInside(s, a);
      NamesAreFresh(s);
      if NetDecision(s.inner) == RestartFailed {
        StartLookedAfter(n, s.next);
      } else if NetDecision(s.inner) == Pause {
        UntouchedLookedAfter(s, n);
      }
    case PauseStep(x) =>
      InsideSection(s, x);
      ServingLookedAfter(s, n, x);
    case StartStep(x) => StartStepLookedAfter(s, x);
    case UserStart =>
      NobodyInside(s, a);
      NamesAreFresh(s);
      StartLookedAfter(n, s.next);
    case UserStop => UntouchedLookedAfter(s, n);
    case UserRestart =>
      NamesAreFresh(s);
      UntouchedLookedAfter(s, n);
    case RestartStep(x, giveUp) =>
      NobodyInside(s, a);
      if giveUp {
        UntouchedLookedAfter(s, n);
      } else if s.inner.engine.None? {
        StartLookedAfter(n, x);
      }
  }

  lemma ServingLookedAfter(s: Daemon, n: Daemon, x: Tid)
    requires s.inner.engine.Some? && AloneBut(s, s.inner.engine.value, x)
    requires n == Gone(WithState(s, Reconnecting), x)
    ensures LookedAfter(n)
  {
  }

  lemma StartStepLookedAfter(s: Daemon, x: Tid)
    requires Orderly(s) && x in s.threads && s.threads[x].Start?
    ensures LookedAfter(StartNext(s, x, s.threads[x].origin, s.threads[x].at))
  {
    hide EngineFits, LookedAfter, Orderly;
    InsideSection(s, x);
    var n := StartNext(s, x, s.threads[x].origin, s.threads[x].at);
    match s.threads[x].at
    case Entering =>
      if s.inner.engine.Some? {
        EngineInUseLookedAfter(n, s.inner.engine.value);
      } else {
        StartLookedAfter(n, x);
      }
    case Accepted => StartLookedAfter(n, x);
    case Spawned(e) => EngineInUseLookedAfter(n, e);
  }

  lemma {:induction false} RunLookedAfter(s: Daemon, actions: seq<Action>)
    requires Orderly(s) && LookedAfter(s) && Possible(s, actions) && NonOverlapping(s, actions) && AllNulFree(actions)
    ensures LookedAfter(Run(s, actions))
    decreases |actions|
  {
    hide Orderly, LookedAfter, Next, Undisturbed, NulFree;
    if actions != [] {
      StepLookedAfter(s, actions[0]);
      StepOrderly(s, actions[0]);
      assert AllNulFree(actions[1..]) by {
        assert forall k :: 0 <= k < |actions[1..]| ==> actions[1..][k] == actions[k + 1];
      }
      RunLookedAfter(Next(s, actions[0]).value, actions[1..]);
    }
  }

  /** A failed session that nobody stopped has exactly one retry thread of the current generation. */
  lemma NoFailedSessionIsOrphaned(actions: seq<Action>)
    requires Possible(Init(), actions) && NonOverlapping(Init(), actions) && AllNulFree(actions)
    ensures var s := Run(Init(), actions);
            Abandoned(s.inner) && s.inner.engine.None? && !SectionOpen(s) ==>
              exists r :: Armed(s, r) && forall q :: Armed(s, q) ==> q == r
  {
    hide Possible, NonOverlapping, Run, Orderly, InSection, Issued;
    var s := Run(Init(), actions);
    InitOrderly();
    InitIssued();
    RunOrderly(Init(), actions);
    RunLookedAfter(Init(), actions);
    RunIssued(Init(), actions);
    if Abandoned(s.inner) && s.inner.engine.None? && !SectionOpen(s) {
      OutsideSections(s);
      assert NoEngine(s) && NoStart(s);
      var r :| Armed(s, r);
      forall q | Armed(s, q)
        ensures q == r
      {
        AtMostOneCurrent(actions, q, r);
      }
    }
  }

  /** Why the retry must not overlap the engine's exit: a retry thread that wakes before the guard is dropped exits,
      and the failed session is left with no engine and without that thread. */
  lemma EarlyRetryOrphans(s: Daemon, e: Tid, r: Tid, up: bool)
    requires Issued(s) && e in s.threads && s.threads[e] == Engine(Leaving) && s.inner.engine == Some(e)
    requires Armed(s, r) && Abandoned(s.inner)
    ensures var n := Next(s, RetryStep(r, up));
            n.Some? &&
            var m := Next(n.value, EngineStep(e, Proceed));
            && m.Some?
            && Abandoned(m.value.inner) && m.value.inner.engine.None?
            && forall q :: !Armed(m.value, q)
  {
  }

  // ---------------------------------------------------------------------
  // Overlapping starts

  lemma RunNone(s: Daemon)
    ensures Possible(s, []) && Run(s, []) == s
  {
  }

  lemma RunCons(s: Daemon, a: Action, rest: seq<Action>)
    requires Next(s, a).Some? && Possible(Next(s, a).value, rest)
    ensures Possible(s, [a] + rest) && Run(s, [a] + rest) == Run(Next(s, a).value, rest)
  {
  }

  /** Two starts that overlap between the check and the stored handle leave two engines running. */
  lemma TwoEngines()
    ensures var actions := [UserStart, UserStart, StartStep(0), StartStep(1), StartStep(0), StartStep(1)];
            && Possible(Init(), actions)
            && var threads := Run(Init(), actions).threads;
               2 in threads && 3 in threads && threads[2] == threads[3] == Engine(Launched)
  {
    hide Possible, Run;
    var s0 := Init();
    var s1 := Next(s0, UserStart).value;
    var s2 := Next(s1, UserStart).value;
    assert s2.threads[0] == s2.threads[1] == Start(User, Entering) && s2.next == 2 && s2.inner.engine.None?;
    var s3 := Next(s2, StartStep(0)).value;
    var s4 := Next(s3, StartStep(1)).value;
    assert s4.threads[0] == s4.threads[1] == Start(User, Accepted) && s4.next == 2;
    var s5 := Next(s4, StartStep(0)).value;
    assert s5.threads[1] == Start(User, Accepted) && s5.threads[2] == Engine(Launched) && s5.next == 3;
    var s6 := Next(s5, StartStep(1)).value;
    assert s6.threads[2] == Engine(Launched) && s6.threads[3] == Engine(Launched);
    hide Next;
    RunNone(s6);
    var a5 := [StartStep(1)];
    var a4 := [StartStep(0)] + a5;
    var a3 := [StartStep(1)] + a4;
    var a2 := [StartStep(0)] + a3;
    var a1 := [UserStart] + a2;
    RunCons(s5, StartStep(1), []);
    assert [StartStep(1)] + [] == a5;
    RunCons(s4, StartStep(0), a5);
    RunCons(s3, StartStep(1), a4);
    RunCons(s2, StartStep(0), a3);
    RunCons(s1, UserStart, a2);
    RunCons(s0, UserStart, a1);
    assert [UserStart] + a1 == [UserStart, UserStart, StartStep(0), StartStep(1), StartStep(0), StartStep(1)];
  }
}
