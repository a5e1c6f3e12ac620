/** What `disconnect` leaves behind of what `connect` did on Linux. */
module RouteUndo {
  import opened Wrappers
  import opened Routes
  import opened LinuxRoutes

  /** The replacements a `connect` carries out before its first failing command. */
  function Done(plan: Plan, found: Phys, budget: nat): seq<Route> {
    if budget < SetupCommands(plan) then []
    else Installed(plan, found)[..Executed(Installed(plan, found), budget - SetupCommands(plan))]
  }

  lemma ConnectedTable(s: State, plan: Plan, found: Phys, budget: nat, writable: bool)
    ensures Connected(s, plan, found, budget, writable).state.table == s.table + LastOf(Done(plan, found, budget))
    ensures forall r :: r in Done(plan, found, budget) ==> Normal(r.dest) && r in Installed(plan, found)
    ensures Connected(s, plan, found, budget, writable).ok ==> Done(plan, found, budget) == Installed(plan, found)
  {
    hide Installed;
    if budget >= SetupCommands(plan) {
      InstallIs(s.table, Installed(plan, found), budget - SetupCommands(plan));
    } else {
      assert s.table + map[] == s.table;
    }
  }

  /** Whatever was installed is among what is deleted, if the path is the same or there was none to install along. */
  lemma DeletedCovers(plan: Plan, found: Phys, used: Phys)
    requires used == found || !Complete(found)
    ensures forall r :: r in Installed(plan, found) ==> r in Deleted(plan, used)
  {
  }

  /** Deleting all of what was installed last takes it out again, and more of the table if the deletions hit it. */
  lemma InstalledThenDeleted(t: Table, done: seq<Route>, deleted: seq<Route>)
    requires forall r :: r in done ==> Normal(r.dest) && r in deleted
    ensures Uninstall(t + LastOf(done), deleted)
            == map k | k in t && k !in LastOf(done) && !Hits(deleted, k, t[k]) :: t[k]
  {
    var last := LastOf(done);
    LastOfIsListed(done);
    UninstallIs(t + last, deleted);
    assert forall k :: k in last ==> Hits(deleted, k, last[k]);
  }

  /** A `connect` that stops at any command and a `disconnect` leave exactly the old routes that were neither replaced
      nor hit by a deletion. */
  lemma UndoIs(s: State, plan: Plan, found: Phys, budget: nat, later: Phys)
    ensures var connected := Connected(s, plan, found, budget, true).state;
            var done, deleted := Done(plan, found, budget), Deleted(plan, PathUsed(connected, later));
            Disconnected(connected, plan, later)
            == State(map k | k in s.table && k !in LastOf(done) && !Hits(deleted, k, s.table[k]) :: s.table[k], None)
  {
    var connected := Connected(s, plan, found, budget, true).state;
    var used := PathUsed(connected, later);
    ConnectedTable(s, plan, found, budget, true);
    DeletedCovers(plan, found, used);
    InstalledThenDeleted(s.table, Done(plan, found, budget), Deleted(plan, used));
  }

  /** The table is restored exactly when none of its routes was replaced and none equals a deleted one. */
  lemma UndoneExactly(s: State, plan: Plan, found: Phys, budget: nat, later: Phys)
    ensures var connected := Connected(s, plan, found, budget, true).state;
            Disconnected(connected, plan, later).table == s.table
            <==> forall k :: k in s.table ==>
                   && k !in LastOf(Done(plan, found, budget))
                   && !Hits(Deleted(plan, PathUsed(connected, later)), k, s.table[k])
  {
    var connected := Connected(s, plan, found, budget, true).state;
    UndoIs(s, plan, found, budget, later);
    hide Connected, Disconnected, Done, LastOf, Hits, Deleted;
    var after := Disconnected(connected, plan, later).table;
    if after == s.table {
      assert forall k :: k in s.table ==> k in after;
    }
  }

  function Dests(routes: seq<Route>): set<Cidr> {
    set r | r in routes :: r.dest
  }

  /** The destinations of a plan along a path. */
  function Keys(plan: Plan, p: Phys): set<Cidr> {
    Dests(Installed(plan, p))
  }

  lemma DoneKeys(plan: Plan, found: Phys, budget: nat)
    ensures LastOf(Done(plan, found, budget)).Keys <= Keys(plan, found)
  {
    ConnectedTable(State(map[], None), plan, found, budget, true);
    LastOfIsListed(Done(plan, found, budget));
    forall k | k in LastOf(Done(plan, found, budget))
      ensures k in Keys(plan, found)
    {
      assert Route(k, LastOf(Done(plan, found, budget))[k]) in Installed(plan, found);
    }
  }

  lemma HitKeys(plan: Plan, p: Phys)
    ensures forall k, h :: Hits(Deleted(plan, p), k, h) ==> k in Keys(plan, p)
  {
  }

  /** From a table with none of the plan's destinations, a first `connect` stopped anywhere is undone completely. */
  lemma FirstConnectIsUndone(s: State, plan: Plan, found: Phys, budget: nat, later: Phys)
    requires s.table.Keys !! Keys(plan, found)
    requires !Usable(found) ==> s.table.Keys !! Keys(plan, later)
    ensures Disconnected(Connected(s, plan, found, budget, true).state, plan, later) == State(s.table, None)
  {
    UndoneExactly(s, plan, found, budget, later);
    DoneKeys(plan, found, budget);
    HitKeys(plan, PathUsed(Connected(s, plan, found, budget, true).state, later));
  }

  /** The state file matters: if it cannot be written and the path changed meanwhile, routes stay behind. */
  lemma UnsavedPathLeaks()
    ensures var plan := Plan("tun0", false, Some(0x0101_0101), [], []);
            var found := Phys(Some("10.0.0.1"), Some("eth0"), None, None);
            var later := Phys(Some("10.0.0.2"), Some("eth0"), None, None);
            var connected := Connected(State(map[], None), plan, found, 1, false);
            && connected.ok
            && Disconnected(connected.state, plan, later).table == map[Host(0x0101_0101) := Via("10.0.0.1", "eth0")]
  {
  }

  // ---------------------------------------------------------------------
  // Reconnecting

  /** One `connect` or `reconnect`: what it discovers, how many commands succeed, and whether the state file can be
      written. */
  datatype Attempt = Attempt(found: Phys, budget: nat, writable: bool)

  /** A series of attempts, each of which may stop at any command. */
  function ConnectAll(s: State, plan: Plan, attempts: seq<Attempt>): State {
    if attempts == [] then s
    else
      var last := attempts[|attempts| - 1];
      Connected(ConnectAll(s, plan, attempts[..|attempts| - 1]), plan, last.found, last.budget, last.writable).state
  }

  /** Everything the attempts carried out, later routes replacing earlier ones. */
  function Everything(plan: Plan, attempts: seq<Attempt>): Table {
    if attempts == [] then map[]
    else
      var last := attempts[|attempts| - 1];
      Everything(plan, attempts[..|attempts| - 1]) + LastOf(Done(plan, last.found, last.budget))
  }

  lemma {:induction false} AttemptsTable(s: State, plan: Plan, attempts: seq<Attempt>)
    ensures ConnectAll(s, plan, attempts).table == s.table + Everything(plan, attempts)
    decreases |attempts|
  {
    hide Connected, Done, LastOf;
    if attempts == [] {
      assert s.table + map[] == s.table;
    } else {
      var front, last := attempts[..|attempts| - 1], attempts[|attempts| - 1];
      AttemptsTable(s, plan, front);
      ConnectedTable(ConnectAll(s, plan, front), plan, last.found, last.budget, last.writable);
      PlusAssociates(s.table, Everything(plan, front), LastOf(Done(plan, last.found, last.budget)));
    }
  }

  lemma PlusAssociates(a: Table, b: Table, c: Table)
    ensures a + b + c == a + (b + c)
  {
  }

  /** Everything carried out was a normal route of one of the attempts. */
  lemma {:induction false} EverythingFrom(plan: Plan, attempts: seq<Attempt>, k: Cidr)
    ensures k in Everything(plan, attempts) ==>
              && Normal(k)
              && exists i :: 0 <= i < |attempts|
                   && Route(k, Everything(plan, attempts)[k]) in Installed(plan, attempts[i].found)
    decreases |attempts|
  {
    if attempts != [] {
      var front, last := attempts[..|attempts| - 1], attempts[|attempts| - 1];
      var done := Done(plan, last.found, last.budget);
      LastOfIsListed(done);
      ConnectedTable(State(map[], None), plan, last.found, last.budget, true);
      EverythingFrom(plan, front, k);
      hide Installed, Done, LastOf, Normal;
      if k in LastOf(done) {
        assert Route(k, LastOf(done)[k]) in Installed(plan, attempts[|attempts| - 1].found);
      } else if k in Everything(plan, front) {
        var i :| 0 <= i < |front| && Route(k, Everything(plan, front)[k]) in Installed(plan, front[i].found);
        assert Route(k, Everything(plan, attempts)[k]) in Installed(plan, attempts[i].found);
      }
    }
  }

  /** After any series of connects and reconnects, whatever each discovered and wherever each stopped, `disconnect`
      leaves exactly the old table under everything the attempts carried out, less the routes that equal one it
      deletes: those of the plan along the last saved path, or along the one discovered now. */
  lemma LeftBehindExactly(s: State, plan: Plan, attempts: seq<Attempt>, later: Phys)
    ensures var end, all := ConnectAll(s, plan, attempts), s.table + Everything(plan, attempts);
            var deleted := Deleted(plan, PathUsed(end, later));
            Disconnected(end, plan, later) == State(map k | k in all && !Hits(deleted, k, all[k]) :: all[k], None)
  {
    var end := ConnectAll(s, plan, attempts);
    AttemptsTable(s, plan, attempts);
    UninstallIs(end.table, Deleted(plan, PathUsed(end, later)));
  }

  /** So the old table comes back exactly when no old route was replaced by another or equals a deleted one, and
      everything else that was carried out equals a deleted one. */
  lemma NothingLeftExactly(s: State, plan: Plan, attempts: seq<Attempt>, later: Phys)
    ensures var end, all := ConnectAll(s, plan, attempts), s.table + Everything(plan, attempts);
            var deleted := Deleted(plan, PathUsed(end, later));
            Disconnected(end, plan, later).table == s.table
            <==> forall k :: k in all ==> if k in s.table then all[k] == s.table[k] && !Hits(deleted, k, all[k])
                                          else Hits(deleted, k, all[k])
  {
    LeftBehindExactly(s, plan, attempts, later);
    hide Disconnected, ConnectAll, Everything, Hits, Deleted;
    var after := Disconnected(ConnectAll(s, plan, attempts), plan, later).table;
    var all := s.table + Everything(plan, attempts);
    if after == s.table {
      assert forall k :: k in all ==> (k in s.table <==> k in after);
    }
  }

  /** If the path never changes, nothing stays behind, whatever the path is like and wherever the attempts stopped. */
  lemma SteadyPathIsClean(s: State, plan: Plan, attempts: seq<Attempt>, path: Phys, later: Phys)
    requires attempts != [] && attempts[|attempts| - 1].writable
    requires forall k :: 0 <= k < |attempts| ==> attempts[k].found == path
    requires s.table.Keys !! Keys(plan, path)
    requires !Usable(path) ==> s.table.Keys !! Keys(plan, later)
    ensures Disconnected(ConnectAll(s, plan, attempts), plan, later) == State(s.table, None)
  {
    var end, all := ConnectAll(s, plan, attempts), Everything(plan, attempts);
    var used := PathUsed(end, later);
    assert used == if Usable(path) then path else later;
    NothingLeftExactly(s, plan, attempts, later);
    DeletedCovers(plan, path, used);
    HitKeys(plan, used);
    hide Disconnected, ConnectAll, Everything, PathUsed, Installed, Deleted;
    forall k | k in all
      ensures k !in s.table && Hits(Deleted(plan, used), k, all[k])
    {
      EverythingFrom(plan, attempts, k);
      RouteGivesKey(plan, path, Route(k, all[k]));
    }
  }

  lemma RouteGivesKey(plan: Plan, p: Phys, r: Route)
    requires r in Installed(plan, p)
    ensures r.dest in Keys(plan, p)
  {
  }

  /** A reconnect along a path without a gateway makes `disconnect` forget the physical routes of the connect before:
      each of them stays unless it is also a split route. */
  lemma LostGatewayLeavesRoutes(s: State, plan: Plan, first: Attempt, second: Attempt, later: Phys, r: Route)
    requires Complete(first.found) && second.found.gateway.None? && second.found.iface.Some? && second.writable
    requires Connected(s, plan, first.found, first.budget, first.writable).ok
    requires r in PhysicalRoutes(plan, first.found) && r.dest !in plan.splitRoutes
    ensures var after := Disconnected(ConnectAll(s, plan, [first, second]), plan, later).table;
            r.dest in after && after[r.dest] == HopOf(first.found)
  {
    hide Connected, Disconnected, ConnectAll, Everything, Installed, Deleted, Done, LastOf, Hits, PhysicalRoutes,
      Normal;
    var k := r.dest;
    PathOfTwo(s, plan, first, second, later);
    FirstRouteStands(s, plan, first, second, r);
    LeftBehindExactly(s, plan, [first, second], later);
    OnlySplitsDeleted(plan, second.found, k, HopOf(first.found));
  }

  lemma PathOfTwo(s: State, plan: Plan, first: Attempt, second: Attempt, later: Phys)
    requires Usable(second.found) && second.writable
    ensures PathUsed(ConnectAll(s, plan, [first, second]), later) == second.found
  {
    hide Install, Installed;
  }

  lemma FirstRouteStands(s: State, plan: Plan, first: Attempt, second: Attempt, r: Route)
    requires Complete(first.found) && !Complete(second.found)
    requires Connected(s, plan, first.found, first.budget, first.writable).ok
    requires r in PhysicalRoutes(plan, first.found) && r.dest !in plan.splitRoutes
    ensures var all := Everything(plan, [first, second]); r.dest in all && all[r.dest] == HopOf(first.found)
  {
    var k, p := r.dest, first.found;
    assert r in Installed(plan, p);
    hide Connected, Everything, Installed, Done, LastOf, PhysicalRoutes;
    ConnectedTable(s, plan, p, first.budget, first.writable);
    KeysOfLast(plan, p);
    LastOfIsListed(Installed(plan, p));
    RouteGivesKey(plan, p, r);
    PhysicalOutsideSplits(plan, p, Route(k, LastOf(Installed(plan, p))[k]));
    NoSplitWithoutListing(plan, second.found, second.budget, k);
    EverythingOfTwo(plan, first, second);
  }

  lemma PhysicalOutsideSplits(plan: Plan, p: Phys, r: Route)
    requires Complete(p) && r in Installed(plan, p) && r.dest !in plan.splitRoutes
    ensures r.hop == HopOf(p)
  {
    assert forall x :: x in SplitRoutes(plan) ==> x.dest in plan.splitRoutes;
  }

  lemma NoSplitWithoutListing(plan: Plan, p: Phys, budget: nat, k: Cidr)
    requires !Complete(p) && k !in plan.splitRoutes
    ensures k !in LastOf(Done(plan, p, budget))
  {
    var done := Done(plan, p, budget);
    LastOfIsListed(done);
    assert PhysicalRoutes(plan, p) == [];
    assert forall i :: 0 <= i < |done| ==> done[i].dest == plan.splitRoutes[i];
  }

  lemma OnlySplitsDeleted(plan: Plan, p: Phys, k: Cidr, hop: Hop)
    requires !Complete(p) && k !in plan.splitRoutes
    ensures !Hits(Deleted(plan, p), k, hop)
  {
    assert forall x :: x in SplitRoutes(plan) ==> x.dest in plan.splitRoutes;
    assert PhysicalRoutes(plan, p) == [];
  }

  lemma EverythingOfTwo(plan: Plan, first: Attempt, second: Attempt)
    ensures Everything(plan, [first, second])
            == LastOf(Done(plan, first.found, first.budget)) + LastOf(Done(plan, second.found, second.budget))
  {
    hide Done, LastOf;
    assert [first, second][..1] == [first] && [first][..0] == [];
    assert Everything(plan, []) == map[];
    assert map[] + LastOf(Done(plan, first.found, first.budget)) == LastOf(Done(plan, first.found, first.budget));
  }

  // ---------------------------------------------------------------------
  // Complete paths

  /** The local routes of all these discoveries, later ones replacing earlier ones. */
  function LocalEntries(attempts: seq<Attempt>): Table {
    if attempts == [] then map[]
    else
      LocalEntries(attempts[..|attempts| - 1]) + LastOf(LocalRoutes(attempts[|attempts| - 1].found))
  }

  lemma KeysOfLast(plan: Plan, p: Phys)
    ensures LastOf(Installed(plan, p)).Keys == Keys(plan, p)
  {
    LastOfIsListed(Installed(plan, p));
    forall k | k in Keys(plan, p)
      ensures k in LastOf(Installed(plan, p))
    {
      var r :| r in Installed(plan, p) && r.dest == k;
    }
    forall k | k in LastOf(Installed(plan, p))
      ensures k in Keys(plan, p)
    {
      assert Route(k, LastOf(Installed(plan, p))[k]) in Installed(plan, p);
    }
  }

  /** The destinations every complete path shares: gateway, preserve and split routes. */
  function SharedKeys(plan: Plan): set<Cidr> {
    (if plan.vpnGateway.Some? then {Host(plan.vpnGateway.value)} else {})
    + (set c | c in plan.preserveCidrs) + (set c | c in plan.splitRoutes)
  }

  lemma KeysSplit(plan: Plan, p: Phys)
    requires Complete(p)
    ensures Keys(plan, p) == SharedKeys(plan) + LastOf(LocalRoutes(p)).Keys
    ensures forall k :: k in LastOf(LocalRoutes(p)) ==> LastOf(LocalRoutes(p))[k] == HopOf(p)
  {
    GroupKeys(plan, p);
    LocalKeys(p);
    hide GatewayRoutes, LocalRoutes, PreserveRoutes, SplitRoutes, Installed, LastOf;
    KeysByGroup(plan, p);
  }

  lemma GroupKeys(plan: Plan, p: Phys)
    requires Complete(p)
    ensures Dests(GatewayRoutes(plan, p)) == if plan.vpnGateway.Some? then {Host(plan.vpnGateway.value)} else {}
    ensures Dests(PreserveRoutes(plan, p)) == set c | c in plan.preserveCidrs
    ensures Dests(SplitRoutes(plan)) == set c | c in plan.splitRoutes
  {
  }

  lemma KeysByGroup(plan: Plan, p: Phys)
    ensures Keys(plan, p) == Dests(GatewayRoutes(plan, p)) + Dests(LocalRoutes(p)) + Dests(PreserveRoutes(plan, p))
                             + Dests(SplitRoutes(plan))
  {
  }

  lemma LocalKeys(p: Phys)
    requires Complete(p)
    ensures Dests(LocalRoutes(p)) == LastOf(LocalRoutes(p)).Keys
    ensures forall k :: k in LastOf(LocalRoutes(p)) ==> LastOf(LocalRoutes(p))[k] == HopOf(p)
  {
    var local := LocalRoutes(p);
    LastOfIsListed(local);
    assert forall r :: r in local ==> r.hop == HopOf(p);
    forall k | k in LastOf(local)
      ensures k in Dests(local) && LastOf(local)[k] == HopOf(p)
    {
      assert Route(k, LastOf(local)[k]) in local;
    }
  }

  /** Apart from the shared destinations, a complete path installs its local routes. */
  lemma OutsideShared(plan: Plan, p: Phys)
    requires Complete(p)
    ensures LastOf(Installed(plan, p)) - SharedKeys(plan) == LastOf(LocalRoutes(p)) - SharedKeys(plan)
  {
    KeysOfLast(plan, p);
    KeysSplit(plan, p);
    LastOfIsListed(Installed(plan, p));
    var all := LastOf(Installed(plan, p));
    forall k | k in all && k !in SharedKeys(plan)
      ensures all[k] == HopOf(p)
    {
      var r := Route(k, all[k]);
      assert r in Installed(plan, p);
      OnlyLocalOutside(plan, p, r);
    }
  }

  lemma OnlyLocalOutside(plan: Plan, p: Phys, r: Route)
    requires Complete(p) && r in Installed(plan, p) && r.dest !in SharedKeys(plan)
    ensures r.hop == HopOf(p)
  {
  }

  /** Every attempt finds a complete path, gets through, and saves it. */
  ghost predicate AllSucceed(plan: Plan, attempts: seq<Attempt>) {
    forall k :: 0 <= k < |attempts| ==> Complete(attempts[k].found) && Succeeds(plan, attempts[k])
  }

  predicate Succeeds(plan: Plan, a: Attempt) {
    Connected(State(map[], None), plan, a.found, a.budget, true).ok && a.writable
  }

  /** Apart from the shared destinations, successful attempts carry out their local routes. */
  lemma {:induction false} EverythingIsLocal(plan: Plan, attempts: seq<Attempt>)
    requires AllSucceed(plan, attempts)
    ensures Everything(plan, attempts) - SharedKeys(plan) == LocalEntries(attempts) - SharedKeys(plan)
    decreases |attempts|
  {
    if attempts != [] {
      var shared := SharedKeys(plan);
      var front, last := attempts[..|attempts| - 1], attempts[|attempts| - 1];
      EverythingIsLocal(plan, front);
      assert Succeeds(plan, attempts[|attempts| - 1]);
      ConnectedTable(State(map[], None), plan, last.found, last.budget, true);
      OutsideShared(plan, last.found);
      hide SharedKeys, Installed, LocalRoutes, LastOf, Connected, Done;
      OneMore(Everything(plan, front), LastOf(Done(plan, last.found, last.budget)), LocalEntries(front),
              LastOf(LocalRoutes(last.found)), shared);
    }
  }

  lemma OneMore(all: Table, added: Table, entries: Table, local: Table, shared: set<Cidr>)
    requires all - shared == entries - shared && added - shared == local - shared
    ensures (all + added) - shared == (entries + local) - shared
  {
    assert (all + added) - shared == (all - shared) + (added - shared);
    assert (entries + local) - shared == (entries - shared) + (local - shared);
  }

  /** If every attempt finds a complete path and succeeds, what stays behind are exactly the local address and local
      prefix routes of earlier discoveries whose destinations the last one does not have. */
  lemma LocalRoutesStayExactly(s: State, plan: Plan, attempts: seq<Attempt>, later: Phys)
    requires attempts != [] && AllSucceed(plan, attempts)
    requires s.table.Keys !! Keys(plan, attempts[|attempts| - 1].found)
    ensures var last := attempts[|attempts| - 1].found;
            Disconnected(ConnectAll(s, plan, attempts), plan, later)
            == State(s.table + (LocalEntries(attempts[..|attempts| - 1]) - Keys(plan, last)), None)
  {
    hide Connected, Disconnected, SharedKeys, Keys, LastOf, LocalEntries, Everything, LocalRoutes, PathUsed;
    var front, last := attempts[..|attempts| - 1], attempts[|attempts| - 1];
    var before := ConnectAll(s, plan, front);
    assert Succeeds(plan, attempts[|attempts| - 1]) && AllSucceed(plan, front);
    AttemptsTable(s, plan, front);
    KeysSplit(plan, last.found);
    EverythingIsLocal(plan, front);
    SucceedsAnywhere(before, plan, last);
    LastIsUndone(before, plan, last, later);
    hide ConnectAll, AllSucceed, Succeeds, Complete;
    LessMore(s.table, Everything(plan, front), LocalEntries(front), SharedKeys(plan), Keys(plan, last.found));
  }

  /** Whether an attempt succeeds does not depend on the table. */
  lemma SucceedsAnywhere(s: State, plan: Plan, a: Attempt)
    requires Succeeds(plan, a)
    ensures Connected(s, plan, a.found, a.budget, true).ok
  {
    hide Installed;
    var n := a.budget - SetupCommands(plan);
    InstallIs(map[], Installed(plan, a.found), n);
    InstallIs(s.table, Installed(plan, a.found), n);
  }

  lemma LastIsUndone(before: State, plan: Plan, last: Attempt, later: Phys)
    requires Complete(last.found) && Connected(before, plan, last.found, last.budget, true).ok
    ensures Disconnected(Connected(before, plan, last.found, last.budget, true).state, plan, later)
            == State(before.table - Keys(plan, last.found), None)
  {
    var keys := Keys(plan, last.found);
    UndoIs(before, plan, last.found, last.budget, later);
    ConnectedTable(before, plan, last.found, last.budget, true);
    KeysOfLast(plan, last.found);
    HitKeys(plan, last.found);
    assert PathUsed(Connected(before, plan, last.found, last.budget, true).state, later) == last.found;
    hide Connected, Disconnected, Installed, Deleted, Done, Hits, Keys, LastOf;
  }

  lemma LessMore(start: Table, all: Table, entries: Table, shared: set<Cidr>, keys: set<Cidr>)
    requires all - shared == entries - shared && shared <= keys && start.Keys !! keys
    ensures (start + all) - keys == start + (entries - keys)
  {
    assert all - keys == (all - shared) - keys;
    assert entries - keys == (entries - shared) - keys;
    assert (start + all) - keys == (start - keys) + (all - keys);
    assert start - keys == start;
  }
}
