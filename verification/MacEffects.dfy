/** What the macOS route commands do, destination by destination. */
module MacEffects {
  import opened Wrappers
  import opened Netmask
  import opened Routes
  import opened MacRoutes

  /** The destination of a network given with its mask: the network its address lies in. */
  predicate IsNetworkOf(k: Cidr, c: Cidr) {
    c.len <= 32 && k == Cidr(NetworkOf(c.net, c.len), c.len)
  }

  predicate IsHost(k: Cidr, address: Option<nat>) {
    address.Some? && k == Cidr(address.value, 32)
  }

  predicate NetworkListed(k: Cidr, dests: seq<Cidr>) {
    exists c :: c in dests && IsNetworkOf(k, c)
  }

  // ---------------------------------------------------------------------
  // Success

  /** `connect` succeeds exactly if no command fails for a reason of its own, one for the interface if it is configured
      and one for each route; every prefix length can be read; and no destination is there already or comes twice. */
  lemma SucceedsExactly(s: State, plan: Plan, found: Phys, budget: nat, writable: bool)
    ensures var added := Added(plan, found);
            Connected(s, plan, found, budget, writable).ok
            <==> && budget >= (if plan.configured then 1 else 0) + |added|
                 && (forall k :: 0 <= k < |added| ==> added[k].dest.len <= 32 && added[k].dest !in s.table)
                 && forall j, k :: 0 <= j < k < |added| ==> added[j].dest != added[k].dest
  {
    hide Added;
    if budget >= SetupCommands(plan) {
      AddSucceedsExactly(s.table, Added(plan, found), budget - SetupCommands(plan));
    }
  }

  ghost predicate Addable(t: MacTable, entries: seq<Entry>) {
    && (forall k :: 0 <= k < |entries| ==> entries[k].dest.len <= 32 && entries[k].dest !in t)
    && forall j, k :: 0 <= j < k < |entries| ==> entries[j].dest != entries[k].dest
  }

  lemma {:induction false} AddSucceedsExactly(t: MacTable, entries: seq<Entry>, budget: nat)
    ensures AddAll(t, entries, budget).1 <==> budget >= |entries| && Addable(t, entries)
    decreases |entries|
  {
    if entries != [] && budget > 0 && entries[0].dest.len <= 32 && entries[0].dest !in t {
      var next := t[entries[0].dest := entries[0].gateway];
      AddSucceedsExactly(next, entries[1..], budget - 1);
      AddableStep(t, entries);
    }
  }

  lemma AddableStep(t: MacTable, entries: seq<Entry>)
    requires entries != [] && entries[0].dest.len <= 32 && entries[0].dest !in t
    ensures Addable(t, entries) <==> Addable(t[entries[0].dest := entries[0].gateway], entries[1..])
  {
    var next, rest := t[entries[0].dest := entries[0].gateway], entries[1..];
    assert forall k :: 0 <= k < |rest| ==> rest[k] == entries[k + 1];
    if Addable(next, rest) {
      forall j, k | 0 <= j < k < |entries|
        ensures entries[j].dest != entries[k].dest
      {
        assert entries[k] == rest[k - 1];
        assert j > 0 ==> entries[j] == rest[j - 1];
      }
      forall k | 0 <= k < |entries|
        ensures entries[k].dest.len <= 32 && entries[k].dest !in t
      {
        assert k > 0 ==> entries[k] == rest[k - 1];
      }
    }
  }

  // ---------------------------------------------------------------------
  // The table after a successful connect

  /** A destination the plan keeps on the physical path. */
  predicate Protects(plan: Plan, p: Phys, k: Cidr) {
    IsHost(k, plan.vpnGateway) || IsHost(k, p.localIp) || NetworkListed(k, plan.preserveCidrs)
  }

  /** Along a path with a gateway, gateway host, local address and preserve networks are reached via that gateway; the
      split networks via the tunnel's address; everything else is as before. */
  lemma ConnectedExactly(s: State, plan: Plan, found: Phys, budget: nat, writable: bool, k: Cidr)
    requires Connected(s, plan, found, budget, writable).ok
    ensures var table := Connected(s, plan, found, budget, writable).state.table;
            if plan.tunIp.Some? && NetworkListed(k, plan.splitRoutes) then
              k in table && table[k] == plan.tunIp.value
            else if found.gateway.Some? && Protects(plan, found, k) then
              k in table && table[k] == found.gateway.value
            else
              (k in table <==> k in s.table) && (k in table ==> table[k] == s.table[k])
  {
    hide Connected, AsTable, NetworkListed, HostEntries, PreserveEntries, SplitEntries;
    ConnectAdds(s, plan, found, budget, writable);
    SplitTable(plan, k);
    PreserveTable(plan, found, k);
    HostTable(plan, found, k);
  }

  // ---------------------------------------------------------------------
  // A connect that stops anywhere

  /** The state file is written before any command, and all there is to write is the path found; without the command for
      the interface no route is touched. */
  lemma SavedFirst(s: State, plan: Plan, found: Phys, budget: nat, writable: bool)
    ensures var after := Connected(s, plan, found, budget, writable).state;
            && (writable ==> after.saved == Some(found)) && (!writable ==> after.saved == s.saved)
            && (plan.configured && budget < 1 ==> after.table == s.table)
  {
  }

  /** A connect, wherever it stops, puts a network into the tunnel only after every route that is to stay outside is
      there: the gateway host, the local address and the preserve networks, all via the gateway found. */
  lemma ProtectionFirst(s: State, plan: Plan, found: Phys, budget: nat, writable: bool, c: Cidr, k: Cidr)
    requires var t := Connected(s, plan, found, budget, writable).state.table; c in t && c !in s.table
    requires found.gateway.Some? && !Protects(plan, found, c) && Protects(plan, found, k)
    ensures var t := Connected(s, plan, found, budget, writable).state.table;
            k in t && t[k] == found.gateway.value
  {
    hide AsTable, AddAll, HostEntries, PreserveEntries, SplitEntries, Protects, Readable;
    var first, split := HostEntries(plan, found) + PreserveEntries(plan, found), SplitEntries(plan);
    var left := budget - SetupCommands(plan);
    AddAppend(s.table, first, split, left);
    var n := AddAllIs(s.table, first, left);
    if n < |first| {
      AsTableFrom(first[..n], c);
      ProtectedEntries(plan, found, Entry(c, AsTable(first[..n])[c]));
    } else {
      assert first[..n] == first;
      ProtectedIsReadable(plan, found, k);
      var m := AddAllIs(AddAll(s.table, first, left).0, split, left - n);
      ProtectedEntries(plan, found, Entry(k, found.gateway.value));
      AsTableKeys(first);
      AsTableFrom(first, k);
      ProtectedEntries(plan, found, Entry(k, AsTable(first)[k]));
    }
  }

  /** The order of the commands: the gateway first, then the local address, the preserve networks, and last what goes
      into the tunnel. */
  lemma InOrder(plan: Plan, p: Phys)
    requires p.gateway.Some? && plan.tunIp.Some?
    ensures var entries, via := Added(plan, p), p.gateway.value;
            var g := if plan.vpnGateway.Some? then 1 else 0;
            var n := g + if p.localIp.Some? then 1 else 0;
            && |entries| == n + |plan.preserveCidrs| + |plan.splitRoutes|
            && (plan.vpnGateway.Some? ==> entries[0] == Entry(Cidr(plan.vpnGateway.value, 32), via))
            && (p.localIp.Some? ==> entries[g] == Entry(Cidr(p.localIp.value, 32), via))
            && (forall k :: 0 <= k < |plan.preserveCidrs| ==>
                  entries[n + k] == Entry(KeyOf(plan.preserveCidrs[k]), via))
            && forall k :: 0 <= k < |plan.splitRoutes| ==>
                 entries[n + |plan.preserveCidrs| + k] == Entry(KeyOf(plan.splitRoutes[k]), plan.tunIp.value)
  {
    hide KeyOf, EachVia, HostEntries;
    HostsInOrder(plan, p);
    ThreeParts(HostEntries(plan, p), PreserveEntries(plan, p), SplitEntries(plan));
  }

  lemma HostsInOrder(plan: Plan, p: Phys)
    requires p.gateway.Some?
    ensures var hosts, via := HostEntries(plan, p), p.gateway.value;
            var g := if plan.vpnGateway.Some? then 1 else 0;
            && |hosts| == g + (if p.localIp.Some? then 1 else 0)
            && (plan.vpnGateway.Some? ==> hosts[0] == Entry(Cidr(plan.vpnGateway.value, 32), via))
            && (p.localIp.Some? ==> hosts[g] == Entry(Cidr(p.localIp.value, 32), via))
  {
  }

  lemma ProtectedIsReadable(plan: Plan, p: Phys, k: Cidr)
    requires Protects(plan, p, k)
    ensures Readable(k)
  {
  }

  /** The first two groups of routes. */
  lemma ProtectedEntries(plan: Plan, p: Phys, e: Entry)
    requires p.gateway.Some? && Readable(e.dest)
    ensures e in HostEntries(plan, p) + PreserveEntries(plan, p)
            <==> Protects(plan, p, e.dest) && e.gateway == p.gateway.value
  {
    if e in PreserveEntries(plan, p) {
      var i :| 0 <= i < |plan.preserveCidrs| && PreserveEntries(plan, p)[i] == e;
      assert IsNetworkOf(e.dest, plan.preserveCidrs[i]);
    }
    if NetworkListed(e.dest, plan.preserveCidrs) {
      var c :| c in plan.preserveCidrs && IsNetworkOf(e.dest, c);
      var i :| 0 <= i < |plan.preserveCidrs| && plan.preserveCidrs[i] == c;
      assert PreserveEntries(plan, p)[i] == Entry(e.dest, p.gateway.value);
    }
  }

  lemma HostTable(plan: Plan, p: Phys, k: Cidr)
    ensures var hosts := AsTable(HostEntries(plan, p));
            && (k in hosts <==> p.gateway.Some? && (IsHost(k, plan.vpnGateway) || IsHost(k, p.localIp)))
            && (k in hosts ==> hosts[k] == p.gateway.value)
  {
    var entries := HostEntries(plan, p);
    AsTableKeys(entries);
    AsTableFrom(entries, k);
    hide AsTable;
    if p.gateway.Some? {
      if IsHost(k, plan.vpnGateway) || IsHost(k, p.localIp) {
        assert Entry(k, p.gateway.value) in entries;
      }
    }
  }

  lemma PreserveTable(plan: Plan, p: Phys, k: Cidr)
    requires p.gateway.Some? ==> forall c :: c in plan.preserveCidrs ==> Readable(c)
    ensures var preserved := AsTable(PreserveEntries(plan, p));
            && (k in preserved <==> p.gateway.Some? && NetworkListed(k, plan.preserveCidrs))
            && (k in preserved ==> preserved[k] == p.gateway.value)
  {
    if p.gateway.Some? {
      ViaTable(plan.preserveCidrs, p.gateway.value, k);
    }
  }

  lemma SplitTable(plan: Plan, k: Cidr)
    requires plan.tunIp.Some? ==> forall c :: c in plan.splitRoutes ==> Readable(c)
    ensures var split := AsTable(SplitEntries(plan));
            && (k in split <==> plan.tunIp.Some? && NetworkListed(k, plan.splitRoutes))
            && (k in split ==> split[k] == plan.tunIp.value)
  {
    if plan.tunIp.Some? {
      ViaTable(plan.splitRoutes, plan.tunIp.value, k);
    }
  }

  /** A list of networks via one gateway, as a table. */
  lemma ViaTable(dests: seq<Cidr>, gateway: string, k: Cidr)
    requires forall c :: c in dests ==> Readable(c)
    ensures var t := AsTable(EachVia(dests, gateway));
            (k in t <==> NetworkListed(k, dests)) && (k in t ==> t[k] == gateway)
  {
    var entries := EachVia(dests, gateway);
    AsTableKeys(entries);
    EachViaKeys(dests, gateway);
    AsTableFrom(entries, k);
  }

  lemma {:induction false} AsTableFrom(entries: seq<Entry>, k: Cidr)
    ensures k in AsTable(entries) ==> Entry(k, AsTable(entries)[k]) in entries
    decreases |entries|
  {
    if entries != [] {
      var front, last := entries[..|entries| - 1], entries[|entries| - 1];
      AsTableFrom(front, k);
      assert last == Entry(last.dest, last.gateway);
    }
  }

  // ---------------------------------------------------------------------
  // What disconnect takes out

  /** `disconnect` works along the saved path if that names a gateway or an interface, else along the one discovered
      now, and takes out exactly the gateway host, that path's local address, and the split networks if the tunnel's
      address is known. */
  lemma DisconnectedExactly(s: State, plan: Plan, found: Phys, k: Cidr)
    ensures var p := if s.saved.Some? && (s.saved.value.gateway.Some? || s.saved.value.iface.Some?) then s.saved.value
                     else found;
            var after := Disconnected(s, plan, found);
            && after.saved.None?
            && (k in after.table <==>
                  && k in s.table && !IsHost(k, plan.vpnGateway) && !IsHost(k, p.localIp)
                  && !(plan.tunIp.Some? && NetworkListed(k, plan.splitRoutes)))
            && (k in after.table ==> after.table[k] == s.table[k])
  {
    assert k in SplitKeys(plan.splitRoutes) <==> NetworkListed(k, plan.splitRoutes) by {
      if c :| c in plan.splitRoutes && Readable(c) && KeyOf(c) == k {
        assert IsNetworkOf(k, c);
      }
      if c :| c in plan.splitRoutes && IsNetworkOf(k, c) {
        assert KeyOf(c) == k;
      }
    }
  }
}
