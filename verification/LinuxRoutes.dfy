/** The Linux route commands: `connect`, `disconnect` and the saved physical path. */
module LinuxRoutes {
  import opened Wrappers
  import opened Text
  import opened Netmask
  import opened Routes

  /** The part of a route plan the commands use.  `configured`: an address and a prefix length are known. */
  datatype Plan = Plan(
    tunIface: string,
    configured: bool,
    vpnGateway: Option<nat>,
    splitRoutes: seq<Cidr>,
    preserveCidrs: seq<Cidr>)

  /** `PhysicalState`. */
  datatype Phys = Phys(
    gateway: Option<string>,
    iface: Option<string>,
    localIp: Option<nat>,
    localPrefix: Option<Cidr>)

  /** A destination read from its text. */
  function ReadCidr(text: string): Option<Cidr> {
    match SplitOnce(text, '/')
    case None => None
    case Some(pair) =>
      match (ParseIpv4(pair.0), ParseUnsigned(pair.1, 32))
      case (Some(net), Some(len)) => Some(Cidr(net, len))
      case _ => None
  }

  /** The local prefix a discovery takes from an interface address is always one `ip route` accepts, and the address
      lies in it. */
  lemma DiscoveredPrefixIsNormal(ip: string, prefix: string)
    requires ParseIpv4(ip).Some?
    ensures var c := ReadCidr(NetworkCidr(ip, prefix));
            c.Some? && Normal(c.value) && Covers(c.value, ParseIpv4(ip).value)
  {
    var host, bits := ParseIpv4(ip).value, PrefixBits(prefix);
    var net := NetworkOf(host, bits);
    ShowParseIpv4(ip);
    NetworkCidrIs(ip, prefix);
    ShownHasNoSlash(net);
    SplitOnceFirst(ShowIpv4(net), Show(bits), '/');
    ParseShowIpv4(net);
    ParseShow(bits, 32);
    NetworkOfTwice(host, bits);
  }

  /** Whether `disconnect` relies on a saved state. */
  predicate Usable(p: Phys) {
    p.gateway.Some? || p.iface.Some?
  }

  predicate Complete(p: Phys) {
    p.gateway.Some? && p.iface.Some?
  }

  function HopOf(p: Phys): Hop
    requires Complete(p)
  {
    Via(p.gateway.value, p.iface.value)
  }

  // ---------------------------------------------------------------------
  // The routes of a plan

  function GatewayRoutes(plan: Plan, p: Phys): seq<Route> {
    if Complete(p) && plan.vpnGateway.Some? then [Route(Host(plan.vpnGateway.value), HopOf(p))] else []
  }

  function LocalIpRoutes(p: Phys): seq<Route> {
    if Complete(p) && p.localIp.Some? then [Route(Host(p.localIp.value), HopOf(p))] else []
  }

  function LocalPrefixRoutes(p: Phys): seq<Route> {
    if Complete(p) && p.localPrefix.Some? then [Route(p.localPrefix.value, HopOf(p))] else []
  }

  function PreserveRoutes(plan: Plan, p: Phys): seq<Route> {
    if Complete(p) then Each(plan.preserveCidrs, HopOf(p)) else []
  }

  function LocalRoutes(p: Phys): seq<Route> {
    LocalIpRoutes(p) + LocalPrefixRoutes(p)
  }

  /** What keeps its physical path. */
  function PhysicalRoutes(plan: Plan, p: Phys): seq<Route> {
    GatewayRoutes(plan, p) + LocalRoutes(p) + PreserveRoutes(plan, p)
  }

  function SplitRoutes(plan: Plan): seq<Route> {
    Each(plan.splitRoutes, Dev(plan.tunIface))
  }

  /** The routes `connect` installs, in order. */
  function Installed(plan: Plan, p: Phys): seq<Route> {
    PhysicalRoutes(plan, p) + SplitRoutes(plan)
  }

  /** The routes `disconnect` deletes, in order. */
  function Deleted(plan: Plan, p: Phys): seq<Route> {
    SplitRoutes(plan) + PhysicalRoutes(plan, p)
  }

  // ---------------------------------------------------------------------
  // The two operations

  /** The route table, and the physical path in the state file. */
  datatype State = State(table: Table, saved: Option<Phys>)

  datatype Outcome = Outcome(state: State, ok: bool)

  /** The commands that set the tunnel interface up. */
  function SetupCommands(plan: Plan): nat {
    if plan.configured then 2 else 0
  }

  /** `connect`: `found` is the physical path discovered, `budget` the number of commands that succeed before one fails
      for a reason of its own, `writable` whether the state file can be written. */
  function Connected(s: State, plan: Plan, found: Phys, budget: nat, writable: bool): Outcome {
    var saved := if writable then Some(found) else s.saved;
    if budget < SetupCommands(plan) then Outcome(State(s.table, saved), false)
    else
      var r := Install(s.table, Installed(plan, found), budget - SetupCommands(plan));
      Outcome(State(r.0, saved), r.1)
  }

  /** The physical path `disconnect` works with: the saved one, or else the one discovered now. */
  function PathUsed(s: State, found: Phys): Phys {
    if s.saved.Some? && Usable(s.saved.value) then s.saved.value else found
  }

  function Disconnected(s: State, plan: Plan, found: Phys): State {
    State(Uninstall(s.table, Deleted(plan, PathUsed(s, found))), None)
  }

  class Router {
    var table: Table
    var saved: Option<Phys>

    constructor (table: Table)
      ensures View() == State(table, None)
    {
      this.table := table;
      saved := None;
    }

    ghost function View(): State
      reads this
    {
      State(table, saved)
    }

    /** One `ip route replace`; `left` commands still succeed. */
    method Replace(route: Route, budget: nat) returns (ok: bool, left: nat)
      modifies this`table
      ensures (table, ok) == Install(old(table), [route], budget)
      ensures ok ==> left == budget - 1
    {
      ok := budget > 0 && Normal(route.dest);
      left := budget;
      if ok {
        table := table[route.dest := route.hop];
        left := budget - 1;
      }
      assert [route][1..] == [];
    }

    method ReplaceEach(dests: seq<Cidr>, hop: Hop, budget: nat) returns (ok: bool, left: nat)
      modifies this`table
      ensures (table, ok) == Install(old(table), Each(dests, hop), budget)
      ensures ok ==> left == budget - |dests|
    {
      ok, left := true, budget;
      assert Each(dests, hop)[..0] == [];
      for k := 0 to |dests|
        invariant (table, true) == Install(old(table), Each(dests, hop)[..k], budget)
        invariant left == budget - k
      {
        var routes := Each(dests, hop);
        InstallAppend(old(table), routes[..k], [routes[k]], budget);
        InstallAppend(old(table), routes[..k + 1], routes[k + 1..], budget);
        assert routes[..k + 1] == routes[..k] + [routes[k]];
        assert routes[..k + 1] + routes[k + 1..] == routes;
        ok, left := Replace(routes[k], left);
        if !ok {
          return;
        }
      }
      assert Each(dests, hop)[..|dests|] == Each(dests, hop);
    }

    /** The local address and the local network. */
    method ProtectLocal(p: Phys, budget: nat) returns (ok: bool, left: nat)
      requires Complete(p)
      modifies this`table
      ensures (table, ok) == Install(old(table), LocalRoutes(p), budget)
      ensures ok ==> left == budget - |LocalRoutes(p)|
    {
      ok, left := true, budget;
      InstallAppend(table, LocalIpRoutes(p), LocalPrefixRoutes(p), budget);
      if p.localIp.Some? {
        ok, left := Replace(Route(Host(p.localIp.value), HopOf(p)), left);
        if !ok {
          return;
        }
      }
      if p.localPrefix.Some? {
        ok, left := Replace(Route(p.localPrefix.value, HopOf(p)), left);
      }
    }

    /** The routes that keep their physical path. */
    method Protect(plan: Plan, p: Phys, budget: nat) returns (ok: bool, left: nat)
      modifies this`table
      ensures (table, ok) == Install(old(table), PhysicalRoutes(plan, p), budget)
      ensures ok ==> left == budget - |PhysicalRoutes(plan, p)|
    {
      ghost var t0 := table;
      ok, left := true, budget;
      InstallAppend(t0, GatewayRoutes(plan, p) + LocalRoutes(p), PreserveRoutes(plan, p), budget);
      InstallAppend(t0, GatewayRoutes(plan, p), LocalRoutes(p), budget);
      if plan.vpnGateway.Some? && p.gateway.Some? && p.iface.Some? {
        ok, left := Replace(Route(Host(plan.vpnGateway.value), Via(p.gateway.value, p.iface.value)), left);
        if !ok {
          return;
        }
      }
      if p.gateway.Some? && p.iface.Some? {
        ok, left := ProtectLocal(p, left);
        if !ok {
          return;
        }
        ok, left := ReplaceEach(plan.preserveCidrs, HopOf(p), left);
      }
    }

    method Connect(plan: Plan, found: Phys, budget: nat, writable: bool) returns (ok: bool)
      modifies this
      ensures Outcome(View(), ok) == Connected(old(View()), plan, found, budget, writable)
    {
      if writable {
        saved := Some(found);
      }
      var left := budget;
      if plan.configured {
        if left < 2 {
          return false;
        }
        left := left - 2;
      }
      InstallAppend(table, PhysicalRoutes(plan, found), SplitRoutes(plan), left);
      ok, left := Protect(plan, found, left);
      if ok {
        ok, left := ReplaceEach(plan.splitRoutes, Dev(plan.tunIface), left);
      }
    }

    /** `ip route del`; a failure is ignored. */
    method Delete(route: Route)
      modifies this`table
      ensures table == Uninstall(old(table), [route])
    {
      if Normal(route.dest) && route.dest in table && table[route.dest] == route.hop {
        table := table - {route.dest};
      }
      assert [route][1..] == [];
    }

    method DeleteEach(dests: seq<Cidr>, hop: Hop)
      modifies this`table
      ensures table == Uninstall(old(table), Each(dests, hop))
    {
      for k := 0 to |dests|
        invariant table == Uninstall(old(table), Each(dests, hop)[..k])
      {
        var routes := Each(dests, hop);
        UninstallAppend(old(table), routes[..k], [routes[k]]);
        assert routes[..k + 1] == routes[..k] + [routes[k]];
        Delete(routes[k]);
      }
      assert Each(dests, hop)[..|dests|] == Each(dests, hop);
    }

    method Disconnect(plan: Plan, found: Phys)
      modifies this
      ensures View() == Disconnected(old(View()), plan, found)
    {
      var p := if saved.Some? && Usable(saved.value) then saved.value else found;
      ghost var t0 := table;
      UninstallAppend(t0, SplitRoutes(plan), PhysicalRoutes(plan, p));
      DeleteEach(plan.splitRoutes, Dev(plan.tunIface));
      ghost var t1 := table;
      UninstallAppend(t1, GatewayRoutes(plan, p) + LocalRoutes(p), PreserveRoutes(plan, p));
      UninstallAppend(t1, GatewayRoutes(plan, p), LocalRoutes(p));
      if plan.vpnGateway.Some? && p.gateway.Some? && p.iface.Some? {
        Delete(Route(Host(plan.vpnGateway.value), Via(p.gateway.value, p.iface.value)));
      }
      if p.gateway.Some? && p.iface.Some? {
        UninstallAppend(table, LocalIpRoutes(p), LocalPrefixRoutes(p));
        if p.localIp.Some? {
          Delete(Route(Host(p.localIp.value), HopOf(p)));
        }
        if p.localPrefix.Some? {
          Delete(Route(p.localPrefix.value, HopOf(p)));
        }
        DeleteEach(plan.preserveCidrs, HopOf(p));
      }
      saved := None;
    }
  }
}
