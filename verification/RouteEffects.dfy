/** What the Linux route commands do, destination by destination: when they succeed, what is in the table afterwards,
    and what `disconnect` takes out. */
module RouteEffects {
  import opened Wrappers
  import opened Routes
  import opened LinuxRoutes
  import opened RouteUndo
  import opened PathProtection

  // ---------------------------------------------------------------------
  // Success

  /** The replacements stop at the first destination that is not normal, or after `budget` of them. */
  lemma {:induction false} ExecutedExactly(routes: seq<Route>, budget: nat)
    ensures var n := Executed(routes, budget);
            && (forall k :: 0 <= k < n ==> Normal(routes[k].dest))
            && (n < |routes| ==> n == budget || !Normal(routes[n].dest))
    decreases |routes|
  {
    if routes != [] && budget > 0 && Normal(routes[0].dest) {
      ExecutedExactly(routes[1..], budget - 1);
    }
  }

  /** `connect` succeeds exactly if no command fails for a reason of its own and every destination is one `ip route`
      accepts: two commands for the interface if it is configured, then one for each route. */
  lemma SucceedsExactly(s: State, plan: Plan, found: Phys, budget: nat, writable: bool)
    ensures Connected(s, plan, found, budget, writable).ok
            <==> && budget >= (if plan.configured then 2 else 0) + |Installed(plan, found)|
                 && forall r :: r in Installed(plan, found) ==> Normal(r.dest)
  {
    hide Installed, Normal;
    var routes := Installed(plan, found);
    if budget >= SetupCommands(plan) {
      var left := budget - SetupCommands(plan);
      InstallIs(s.table, routes, left);
      ExecutedExactly(routes, left);
      assert forall k :: 0 <= k < |routes| ==> routes[k] in routes;
    }
  }

  // ---------------------------------------------------------------------
  // The table after a successful connect

  /** A destination the plan keeps on the physical path. */
  predicate Protects(plan: Plan, p: Phys, k: Cidr) {
    || (plan.vpnGateway.Some? && k == Cidr(plan.vpnGateway.value, 32))
    || (p.localIp.Some? && k == Cidr(p.localIp.value, 32))
    || p.localPrefix == Some(k)
    || k in plan.preserveCidrs
  }

  lemma PhysicalExactly(plan: Plan, p: Phys, r: Route)
    ensures r in PhysicalRoutes(plan, p)
            <==> && p.gateway.Some? && p.iface.Some? && Protects(plan, p, r.dest)
                 && r.hop == Via(p.gateway.value, p.iface.value)
  {
    if Complete(p) {
      EachExactly(plan.preserveCidrs, HopOf(p), r);
    }
  }

  lemma EachExactly(dests: seq<Cidr>, hop: Hop, r: Route)
    ensures r in Each(dests, hop) <==> r.dest in dests && r.hop == hop
  {
    if r.dest in dests && r.hop == hop {
      var k :| 0 <= k < |dests| && dests[k] == r.dest;
      assert Each(dests, hop)[k] == r;
    }
  }

  lemma InstalledExactly(plan: Plan, p: Phys, r: Route)
    ensures r in Installed(plan, p)
            <==> || (r.dest in plan.splitRoutes && r.hop == Dev(plan.tunIface))
                 || (&& p.gateway.Some? && p.iface.Some? && Protects(plan, p, r.dest)
                     && r.hop == Via(p.gateway.value, p.iface.value))
    ensures r in Deleted(plan, p) <==> r in Installed(plan, p)
  {
    hide PhysicalRoutes;
    PhysicalExactly(plan, p, r);
    EachExactly(plan.splitRoutes, Dev(plan.tunIface), r);
  }

  /** After a successful connect each split route goes through the tunnel device; of the other destinations, gateway,
      local address, local prefix and preserve CIDRs go via the gateway and interface found, if both were; all else is
      as before. */
  lemma ConnectedExactly(s: State, plan: Plan, found: Phys, budget: nat, writable: bool, k: Cidr)
    requires Connected(s, plan, found, budget, writable).ok
    ensures var table := Connected(s, plan, found, budget, writable).state.table;
            if k in plan.splitRoutes then
              k in table && table[k] == Dev(plan.tunIface)
            else if found.gateway.Some? && found.iface.Some? && Protects(plan, found, k) then
              k in table && table[k] == Via(found.gateway.value, found.iface.value)
            else
              (k in table <==> k in s.table) && (k in table ==> table[k] == s.table[k])
  {
    hide Connected, Installed, LastOf, PhysicalRoutes, Done;
    ConnectedTable(s, plan, found, budget, writable);
    var last := LastOf(Installed(plan, found));
    KeysOfLast(plan, found);
    if k in plan.splitRoutes {
      SplitsWin(plan, found, k);
    } else if k in last {
      OthersArePhysical(plan, found, k);
      PhysicalExactly(plan, found, Route(k, last[k]));
    } else if Complete(found) {
      InstalledExactly(plan, found, Route(k, HopOf(found)));
      if Protects(plan, found, k) {
        RouteGivesKey(plan, found, Route(k, HopOf(found)));
      }
    }
  }

  // ---------------------------------------------------------------------
  // A connect that stops anywhere

  /** The state file is written before any command, and all there is to write is the path found; without the two
      commands for the interface no route is touched. */
  lemma SavedFirst(s: State, plan: Plan, found: Phys, budget: nat, writable: bool)
    ensures var after := Connected(s, plan, found, budget, writable).state;
            && (writable ==> after.saved == Some(found)) && (!writable ==> after.saved == s.saved)
            && (plan.configured && budget < 2 ==> after.table == s.table)
  {
  }

  /** A connect, wherever it stops, puts a destination into the tunnel only after every route that is to stay outside is
      there, via the gateway and interface found. */
  lemma ProtectionFirst(s: State, plan: Plan, found: Phys, budget: nat, writable: bool, c: Cidr, k: Cidr)
    requires var t := Connected(s, plan, found, budget, writable).state.table;
             c in t && t[c] == Dev(plan.tunIface) && !(c in s.table && s.table[c] == t[c])
    requires found.gateway.Some? && found.iface.Some? && Protects(plan, found, k) && k !in plan.splitRoutes
    ensures var t := Connected(s, plan, found, budget, writable).state.table;
            k in t && t[k] == Via(found.gateway.value, found.iface.value)
  {
    hide Connected, Protects, LastOf, PhysicalRoutes, SplitRoutes, Installed, Done;
    ConnectedTable(s, plan, found, budget, writable);
    var done := Done(plan, found, budget);
    LastOfIsListed(done);
    DoneIsFirstPart(plan, found, budget);
    TunnelComesLast(plan, found, done, Route(c, Dev(plan.tunIface)));
    PhysicalIsKept(plan, found, done, k);
  }

  /** A connect, wherever it stops, changes no destination before the VPN gateway's host route is there. */
  lemma GatewayFirst(s: State, plan: Plan, found: Phys, budget: nat, writable: bool, c: Cidr)
    requires var t := Connected(s, plan, found, budget, writable).state.table;
             c in t && !(c in s.table && s.table[c] == t[c])
    requires found.gateway.Some? && found.iface.Some? && plan.vpnGateway.Some?
    requires Cidr(plan.vpnGateway.value, 32) !in plan.splitRoutes
    ensures var t, host := Connected(s, plan, found, budget, writable).state.table, Cidr(plan.vpnGateway.value, 32);
            host in t && t[host] == Via(found.gateway.value, found.iface.value)
  {
    hide Connected, LastOf, Done, Installed, Protects, Singles;
    ConnectedTable(s, plan, found, budget, writable);
    var done, host := Done(plan, found, budget), Cidr(plan.vpnGateway.value, 32);
    LastOfIsListed(done);
    DoneIsFirstPart(plan, found, budget);
    InOrder(plan, found);
    SinglesInOrder(plan, found);
    assert done[0].dest == host;
    InstalledExactly(plan, found, Route(host, LastOf(done)[host]));
  }

  /** The order of the commands: first what `Singles` lists, then the preserve networks, and last what goes into the
      tunnel. */
  lemma InOrder(plan: Plan, p: Phys)
    requires p.gateway.Some? && p.iface.Some?
    ensures var routes, n, via := Installed(plan, p), |Singles(plan, p)|, Via(p.gateway.value, p.iface.value);
            && |routes| == n + |plan.preserveCidrs| + |plan.splitRoutes| && Singles(plan, p) <= routes
            && (forall k :: 0 <= k < |plan.preserveCidrs| ==> routes[n + k] == Route(plan.preserveCidrs[k], via))
            && forall k :: 0 <= k < |plan.splitRoutes| ==>
                 routes[n + |plan.preserveCidrs| + k] == Route(plan.splitRoutes[k], Dev(plan.tunIface))
  {
    hide Installed, Singles, Each;
    InstalledParts(plan, p);
    ThreeParts(Singles(plan, p), Each(plan.preserveCidrs, HopOf(p)), Each(plan.splitRoutes, Dev(plan.tunIface)));
  }

  lemma InstalledParts(plan: Plan, p: Phys)
    requires p.gateway.Some? && p.iface.Some?
    ensures Installed(plan, p)
            == Singles(plan, p) + Each(plan.preserveCidrs, HopOf(p)) + Each(plan.splitRoutes, Dev(plan.tunIface))
  {
    hide Each, GatewayRoutes, LocalRoutes;
  }

  function Singles(plan: Plan, p: Phys): seq<Route> {
    GatewayRoutes(plan, p) + LocalRoutes(p)
  }

  /** The gateway comes first, then the local address and the local prefix. */
  lemma SinglesInOrder(plan: Plan, p: Phys)
    requires p.gateway.Some? && p.iface.Some?
    ensures var routes, via := Singles(plan, p), Via(p.gateway.value, p.iface.value);
            var g := if plan.vpnGateway.Some? then 1 else 0;
            var i := g + if p.localIp.Some? then 1 else 0;
            && |routes| == i + (if p.localPrefix.Some? then 1 else 0)
            && (plan.vpnGateway.Some? ==> routes[0] == Route(Cidr(plan.vpnGateway.value, 32), via))
            && (p.localIp.Some? ==> routes[g] == Route(Cidr(p.localIp.value, 32), via))
            && (p.localPrefix.Some? ==> routes[i] == Route(p.localPrefix.value, via))
  {
  }

  lemma DoneIsFirstPart(plan: Plan, p: Phys, budget: nat)
    ensures Done(plan, p, budget) <= Installed(plan, p)
  {
  }

  /** Routes behind the protecting ones do not replace them, except for split destinations. */
  lemma PhysicalIsKept(plan: Plan, p: Phys, done: seq<Route>, k: Cidr)
    requires p.gateway.Some? && p.iface.Some? && Protects(plan, p, k) && k !in plan.splitRoutes
    requires PhysicalRoutes(plan, p) <= done && done[|PhysicalRoutes(plan, p)|..] <= SplitRoutes(plan)
    ensures k in LastOf(done) && LastOf(done)[k] == Via(p.gateway.value, p.iface.value)
  {
    hide Protects, LastOf, PhysicalRoutes, SplitRoutes;
    var physical := PhysicalRoutes(plan, p);
    var rest := done[|physical|..];
    assert done == physical + rest;
    LastOfAppend(physical, rest);
    SplitKeysOnly(plan, rest, k);
    PhysicalExactly(plan, p, Route(k, HopOf(p)));
    LastOfIsListed(physical);
    var i :| 0 <= i < |physical| && physical[i] == Route(k, HopOf(p));
    PhysicalExactly(plan, p, Route(k, LastOf(physical)[k]));
  }

  lemma SplitKeysOnly(plan: Plan, rest: seq<Route>, k: Cidr)
    requires rest <= SplitRoutes(plan)
    ensures k in LastOf(rest) ==> k in plan.splitRoutes
  {
    LastOfIsListed(rest);
    if k in LastOf(rest) {
      var i :| 0 <= i < |rest| && rest[i].dest == k;
      assert rest[i] == SplitRoutes(plan)[i];
    }
  }

  /** A tunnel route among those done means all the protecting ones are done. */
  lemma TunnelComesLast(plan: Plan, p: Phys, done: seq<Route>, r: Route)
    requires done <= Installed(plan, p) && r in done && r.hop == Dev(plan.tunIface)
    ensures PhysicalRoutes(plan, p) <= done
    ensures done[|PhysicalRoutes(plan, p)|..] <= SplitRoutes(plan)
  {
    hide PhysicalRoutes;
    var physical := PhysicalRoutes(plan, p);
    var i :| 0 <= i < |done| && done[i] == r;
    if i < |physical| {
      assert physical[i] == r;
      PhysicalExactly(plan, p, r);
    }
  }

  // ---------------------------------------------------------------------
  // What disconnect takes out

  /** `disconnect` works along the saved path if that names a gateway or an interface, else along the one discovered
      now, and takes out exactly the split routes through the tunnel device and the protecting routes via that path. */
  lemma DisconnectedExactly(s: State, plan: Plan, found: Phys, k: Cidr)
    ensures var p := if s.saved.Some? && (s.saved.value.gateway.Some? || s.saved.value.iface.Some?) then s.saved.value
                     else found;
            var after := Disconnected(s, plan, found);
            && after.saved.None?
            && (k in after.table <==>
                  && k in s.table
                  && !(&& Normal(k)
                       && (|| (k in plan.splitRoutes && s.table[k] == Dev(plan.tunIface))
                           || (&& p.gateway.Some? && p.iface.Some? && Protects(plan, p, k)
                               && s.table[k] == Via(p.gateway.value, p.iface.value)))))
            && (k in after.table ==> after.table[k] == s.table[k])
  {
    hide Deleted, Normal, Protects;
    var p := PathUsed(s, found);
    UninstallIs(s.table, Deleted(plan, p));
    if k in s.table {
      InstalledExactly(plan, p, Route(k, s.table[k]));
    }
  }
}
