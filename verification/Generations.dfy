/** What the generation counter guarantees in every run, however the threads interleave. */
module Generations {
  import opened Wrappers
  import opened Lifecycle

  /** The generation a retry thread carries, or is about to be given. */
  function Carries(t: Thread): Option<nat> {
    match t
    case Retry(g) => Some(g)
    case Engine(Rearming(g)) => Some(g)
    case _ => None
  }

  /** Names are fresh, carried generations were issued, and no generation was issued twice. */
  ghost predicate Issued(s: Daemon) {
    && (forall t :: t in s.threads ==> t < s.next)
    && (forall t :: t in s.threads && Carries(s.threads[t]).Some? ==> Carries(s.threads[t]).value <= s.inner.generation)
    && (forall t, u :: t in s.threads && u in s.threads && t != u && Carries(s.threads[t]).Some? ==>
          Carries(s.threads[t]) != Carries(s.threads[u]))
  }

  /** Replacing a thread, and perhaps adding a fresh one, keeps `Issued` if no generation is duplicated. */
  lemma PutIssued(s: Daemon, t: Tid, thread: Thread, i: Inner)
    requires Issued(s) && t in s.threads && i.generation >= s.inner.generation
    requires Carries(thread).None? || Carries(thread) == Carries(s.threads[t])
             || (Carries(thread).value == i.generation && i.generation > s.inner.generation)
    ensures Issued(Put(s.(inner := i), t, thread))
  {
  }

  lemma GoneIssued(s: Daemon, t: Tid, i: Inner)
    requires Issued(s) && i.generation >= s.inner.generation
    ensures Issued(Gone(s.(inner := i), t))
  {
  }

  lemma SpawnIssued(s: Daemon, thread: Thread)
    requires Issued(s)
    requires Carries(thread).Some? ==>
               && Carries(thread).value <= s.inner.generation
               && forall u :: u in s.threads ==> Carries(s.threads[u]) != Carries(thread)
    ensures Issued(Spawn(s, thread))
  {
  }

  lemma {:induction false} EngineIssued(s: Daemon, e: Tid, op: EngineOp)
    requires Issued(s) && e in s.threads && s.threads[e].Engine?
    requires EngineNext(s, e, s.threads[e].pc, op).Some?
    ensures var n := EngineNext(s, e, s.threads[e].pc, op).value;
            Issued(n) && n.inner.generation >= s.inner.generation
  {
    hide Issued;
    var n := EngineNext(s, e, s.threads[e].pc, op).value;
    var pc := s.threads[e].pc;
    if pc.Rearming? {
      RearmIssued(s, e, pc.generation);
    } else if pc.Leaving? {
      GoneIssued(s, e, MarkFinished(s.inner));
    } else if pc.LoggedIn? {
      PutIssued(s, e, Engine(Probing), s.inner);
      SpawnIssued(Put(s, e, Engine(Probing)), Probe(false));
      FlagsIssued(Spawn(Put(s, e, Engine(Probing)), Probe(false)), false, Some(s.next));
    } else if pc.Unwinding? {
      FlagsIssued(s, true, None);
      PutIssued(s.(healthStop := true, probe := None), e, n.threads[e], s.inner);
    } else if pc.InMainloop? && op.SessionReconnected? {
      PutIssued(s, e, s.threads[e], n.inner);
      assert s.threads[e := s.threads[e]] == s.threads;
    } else {
      EnginePuts(s, e, op);
      hide EngineNext;
      PutIssued(s, e, n.threads[e], n.inner);
    }
  }

  /** The other engine steps replace the engine's own thread and perhaps change the shared fields. */
  lemma EnginePuts(s: Daemon, e: Tid, op: EngineOp)
    requires e in s.threads && s.threads[e].Engine? && EngineNext(s, e, s.threads[e].pc, op).Some?
    requires var pc := s.threads[e].pc;
             && !pc.Rearming? && !pc.Leaving? && !pc.LoggedIn? && !pc.Unwinding?
             && !(pc.InMainloop? && op.SessionReconnected?)
    ensures var n := EngineNext(s, e, s.threads[e].pc, op).value;
            && e in n.threads && n == Put(s.(inner := n.inner), e, n.threads[e])
            && n.inner.generation >= s.inner.generation
            && (Carries(n.threads[e]).Some? ==>
                  Carries(n.threads[e]).value == n.inner.generation > s.inner.generation)
  {
  }

  lemma RearmIssued(s: Daemon, e: Tid, generation: nat)
    requires Issued(s) && e in s.threads && s.threads[e] == Engine(Rearming(generation))
    ensures Issued(Spawn(Put(s, e, Engine(Leaving)), Retry(generation)))
  {
    var s1 := Put(s, e, Engine(Leaving));
    PutIssued(s, e, Engine(Leaving), s.inner);
    assert forall u :: u in s1.threads ==> Carries(s1.threads[u]) != Some(generation);
    SpawnIssued(s1, Retry(generation));
  }

  lemma FlagsIssued(s: Daemon, healthStop: bool, probe: Option<Tid>)
    requires Issued(s)
    ensures Issued(s.(healthStop := healthStop, probe := probe))
  {
  }

  lemma StepIssued(s: Daemon, a: Action)
    requires Issued(s) && Next(s, a).Some?
    ensures Issued(Next(s, a).value) && Next(s, a).value.inner.generation >= s.inner.generation
  {
    hide Issued, EngineNext;
    match a
    case EngineStep(e, op) => EngineIssued(s, e, op);
    case ProbeStep(p) =>
      GoneIssued(s, p, s.inner);
      PutIssued(s, p, Probe(true), s.inner);
      PutIssued(s, p, Probe(false), s.inner.(health := true));
    case RetryStep(r, networkUp) =>
      GoneIssued(s, r, s.inner);
      PutIssued(s, r, Start(FromRetry(s.threads[r].generation), Entering), s.inner);
    case NetEvent =>
      SpawnIssued(s, Pausing);
      SpawnIssued(s, Start(FromNet, Entering));
    case PauseStep(n) => GoneIssued(s, n, s.inner.(state := Reconnecting));
    case StartStep(x) => StartIssued(s, x);
    case UserStart => SpawnIssued(s, Start(User, Entering));
    case UserStop => StopIssued(s);
    case UserRestart =>
      StopIssued(s);
      SpawnIssued(s.(inner := WithStop(s.inner)), Restarting);
    case RestartStep(x, giveUp) =>
      GoneIssued(s, x, s.inner);
      PutIssued(s, x, Start(User, Entering), s.inner);
  }

  lemma StopIssued(s: Daemon)
    requires Issued(s)
    ensures Issued(s.(inner := WithStop(s.inner)))
  {
  }

  lemma StartIssued(s: Daemon, x: Tid)
    requires Issued(s) && x in s.threads && s.threads[x].Start?
    ensures var n := StartNext(s, x, s.threads[x].origin, s.threads[x].at);
            Issued(n) && n.inner.generation >= s.inner.generation
  {
    hide Issued;
    var origin := s.threads[x].origin;
    match s.threads[x].at
    case Entering =>
      GoneIssued(s, x, s.inner);
      if s.inner.engine.None? {
        PutIssued(s, x, Start(origin, Accepted), Accept(s.inner).value);
      }
    case Accepted =>
      PutIssued(s, x, Start(origin, Spawned(s.next)), s.inner);
      SpawnIssued(Put(s, x, Start(origin, Spawned(s.next))), Engine(Launched));
    case Spawned(e) => GoneIssued(s, x, s.inner.(engine := Some(e)));
  }

  /** In every reachable state generations are issued once, and the counter never goes back. */
  lemma {:induction false} RunIssued(s: Daemon, actions: seq<Action>)
    requires Issued(s) && Possible(s, actions)
    ensures Issued(Run(s, actions)) && Run(s, actions).inner.generation >= s.inner.generation
    decreases |actions|
  {
    hide Issued, Next;
    if actions != [] {
      StepIssued(s, actions[0]);
      RunIssued(Next(s, actions[0]).value, actions[1..]);
    }
  }

  lemma InitIssued()
    ensures Issued(Init())
  {
  }

  /** At most one retry thread carries the current generation. */
  lemma AtMostOneCurrent(actions: seq<Action>, r: Tid, q: Tid)
    requires Possible(Init(), actions)
    requires var s := Run(Init(), actions);
             r in s.threads && q in s.threads
             && s.threads[r] == Retry(s.inner.generation) && s.threads[q] == Retry(s.inner.generation)
    ensures r == q
  {
    InitIssued();
    RunIssued(Init(), actions);
  }

  // ---------------------------------------------------------------------
  // Retry threads left behind by a newer generation

  /** The retry thread `r` is gone, or still carries an old generation. */
  ghost predicate Outdated(s: Daemon, r: Tid, generation: nat) {
    && generation < s.inner.generation
    && r < s.next
    && (r in s.threads ==> s.threads[r] == Retry(generation))
  }

  lemma EngineKeepsOthers(s: Daemon, e: Tid, op: EngineOp, r: Tid)
    requires e in s.threads && s.threads[e].Engine? && EngineNext(s, e, s.threads[e].pc, op).Some?
    requires r != e && r < s.next
    ensures var n := EngineNext(s, e, s.threads[e].pc, op).value; SameThread(s, n, r)
  {
    hide Unconditional;
    UnconditionalKeepsOthers(s, e, s.threads[e].pc, r);
  }

  ghost predicate SameThread(s: Daemon, n: Daemon, r: Tid) {
    (r in n.threads <==> r in s.threads) && (r in s.threads ==> n.threads[r] == s.threads[r]) && n.next >= s.next
  }

  lemma UnconditionalKeepsOthers(s: Daemon, e: Tid, pc: EnginePc, r: Tid)
    requires r != e && r < s.next
    ensures SameThread(s, Unconditional(s, e, pc), r)
  {
  }

  lemma StepKeepsOutdated(s: Daemon, a: Action, r: Tid, generation: nat)
    requires Issued(s) && Outdated(s, r, generation) && Next(s, a).Some?
    ensures Outdated(Next(s, a).value, r, generation)
    ensures r in s.threads && a.RetryStep? && a.retry == r ==> r !in Next(s, a).value.threads
  {
    hide Issued, EngineNext;
    StepIssued(s, a);
    if a.EngineStep? {
      EngineKeepsOthers(s, a.engine, a.op, r);
    }
  }

  /** An outdated retry thread starts no engine in any continuation: at its next check it exits. */
  lemma {:induction false} OutdatedRetryNeverStarts(s: Daemon, actions: seq<Action>, r: Tid, generation: nat)
    requires Issued(s) && Possible(s, actions)
    requires r in s.threads && s.threads[r] == Retry(generation) && generation < s.inner.generation
    ensures var end := Run(s, actions); r in end.threads ==> end.threads[r] == Retry(generation)
    ensures forall up :: Next(s, RetryStep(r, up)) == Some(Gone(s, r))
  {
    OutdatedForever(s, actions, r, generation);
  }

  lemma {:induction false} OutdatedForever(s: Daemon, actions: seq<Action>, r: Tid, generation: nat)
    requires Issued(s) && Possible(s, actions) && Outdated(s, r, generation)
    ensures Outdated(Run(s, actions), r, generation)
    decreases |actions|
  {
    hide Issued, Next, Outdated;
    if actions != [] {
      StepIssued(s, actions[0]);
      StepKeepsOutdated(s, actions[0], r, generation);
      OutdatedForever(Next(s, actions[0]).value, actions[1..], r, generation);
    }
  }
}
