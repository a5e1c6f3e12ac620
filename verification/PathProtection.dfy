/** Which addresses keep their physical path while the tunnel is up (Linux).

    Nothing compares the length of a protecting route with the lengths of the split routes, so an address is safe
    whatever the table held before exactly when it is `Shielded`. */
module PathProtection {
  import opened Wrappers
  import opened Bits
  import opened Netmask
  import opened Routes
  import opened LinuxRoutes
  import opened RouteUndo

  predicate ThroughTunnel(plan: Plan, hop: Option<Hop>) {
    hop == Some(Dev(plan.tunIface))
  }

  /** The table has no route through the tunnel. */
  ghost predicate NoTunnel(t: Table, plan: Plan) {
    forall k :: k in t ==> t[k] != Dev(plan.tunIface)
  }

  /** No split route covers the address, or some protecting route does and is longer than every split route that
      does. */
  ghost predicate Shielded(plan: Plan, p: Phys, address: nat) {
    || (forall c :: c in plan.splitRoutes ==> !Covers(c, address))
    || exists r :: r in PhysicalRoutes(plan, p) && LongerThanSplits(plan, r.dest, address)
  }

  ghost predicate LongerThanSplits(plan: Plan, dest: Cidr, address: nat) {
    Covers(dest, address) && forall c :: c in plan.splitRoutes && Covers(c, address) ==> c.len < dest.len
  }

  /** The table a successful connect makes of `t`. */
  function After(t: Table, plan: Plan, p: Phys): Table {
    t + LastOf(Installed(plan, p))
  }

  lemma AfterConnect(s: State, plan: Plan, found: Phys, budget: nat, writable: bool)
    requires Connected(s, plan, found, budget, writable).ok
    ensures Connected(s, plan, found, budget, writable).state.table == After(s.table, plan, found)
  {
    ConnectedTable(s, plan, found, budget, writable);
  }

  // ---------------------------------------------------------------------
  // What is in the table

  /** Split routes come last, so each of them is in the table. */
  lemma SplitsWin(plan: Plan, p: Phys, c: Cidr)
    requires c in plan.splitRoutes
    ensures c in LastOf(Installed(plan, p)) && LastOf(Installed(plan, p))[c] == Dev(plan.tunIface)
  {
    var dev := Dev(plan.tunIface);
    LastOfAppend(PhysicalRoutes(plan, p), SplitRoutes(plan));
    var k :| 0 <= k < |plan.splitRoutes| && plan.splitRoutes[k] == c;
    LastOfIsListed(SplitRoutes(plan));
    assert SplitRoutes(plan)[k].dest == c;
    assert Route(c, LastOf(SplitRoutes(plan))[c]) in SplitRoutes(plan);
  }

  lemma {:induction false} LastOfAppend(first: seq<Route>, second: seq<Route>)
    ensures LastOf(first + second) == LastOf(first) + LastOf(second)
    decreases |second|
  {
    if second == [] {
      assert first + second == first;
      assert LastOf(first) + map[] == LastOf(first);
    } else {
      var front, last := second[..|second| - 1], second[|second| - 1];
      LastOfAppend(first, front);
      assert (first + second)[..|first + second| - 1] == first + front;
      assert (first + second)[|first + second| - 1] == last;
    }
  }

  /** What is not a split destination does not go through the tunnel. */
  lemma OthersArePhysical(plan: Plan, p: Phys, k: Cidr)
    requires k in LastOf(Installed(plan, p)) && k !in plan.splitRoutes
    ensures LastOf(Installed(plan, p))[k] != Dev(plan.tunIface)
    ensures Route(k, LastOf(Installed(plan, p))[k]) in PhysicalRoutes(plan, p)
  {
    LastOfIsListed(Installed(plan, p));
    var r := Route(k, LastOf(Installed(plan, p))[k]);
    assert r in Installed(plan, p);
    assert forall x :: x in SplitRoutes(plan) ==> x.dest in plan.splitRoutes;
    assert r in PhysicalRoutes(plan, p);
    PhysicalHops(plan, p, r);
  }

  lemma PhysicalHops(plan: Plan, p: Phys, r: Route)
    requires r in PhysicalRoutes(plan, p)
    ensures Complete(p) && r.hop == HopOf(p)
  {
  }

  lemma PhysicalIsListed(plan: Plan, p: Phys, r: Route)
    requires r in PhysicalRoutes(plan, p)
    ensures r.dest in LastOf(Installed(plan, p))
  {
    assert r in Installed(plan, p);
    var k :| 0 <= k < |Installed(plan, p)| && Installed(plan, p)[k] == r;
    LastOfIsListed(Installed(plan, p));
  }

  // ---------------------------------------------------------------------
  // The longest match

  /** Covering destinations of one length are equal. */
  lemma SameLengthSameNet(c: Cidr, d: Cidr, address: nat)
    requires Covers(c, address) && Covers(d, address) && c.len == d.len
    ensures c == d
  {
  }

  /** The longest of the listed destinations that cover the address. */
  lemma {:induction false} LongestSplit(dests: seq<Cidr>, address: nat) returns (c: Cidr)
    requires exists d :: d in dests && Covers(d, address)
    ensures c in dests && Covers(c, address)
    ensures forall d :: d in dests && Covers(d, address) ==> d.len <= c.len
    decreases |dests|
  {
    var front, last := dests[..|dests| - 1], dests[|dests| - 1];
    assert dests == front + [last];
    if exists d :: d in front && Covers(d, address) {
      c := LongestSplit(front, address);
      if Covers(last, address) && last.len > c.len {
        c := last;
      }
    } else {
      c := last;
    }
  }

  /** A shielded address is not routed through the tunnel, whatever the table held before. */
  lemma ShieldedStays(t: Table, plan: Plan, p: Phys, address: nat)
    requires NoTunnel(t, plan) && Shielded(plan, p, address)
    ensures !ThroughTunnel(plan, Lookup(After(t, plan, p), address))
  {
    var after := After(t, plan, p);
    LookupIsLongestMatch(after, address);
    hide Lookup;
    if Lookup(after, address).Some? {
      var c :| BestMatch(after, address, c);
      if c in plan.splitRoutes {
        var r :| r in PhysicalRoutes(plan, p) && LongerThanSplits(plan, r.dest, address);
        PhysicalIsListed(plan, p, r);
        hide PhysicalRoutes, Installed, LastOf;
        assert false;
      } else if c in LastOf(Installed(plan, p)) {
        OthersArePhysical(plan, p, c);
      }
    }
  }

  /** An address that is not shielded goes through the tunnel if the table was empty before. */
  lemma UnshieldedLeaves(plan: Plan, p: Phys, address: nat)
    requires !Shielded(plan, p, address)
    ensures ThroughTunnel(plan, Lookup(After(map[], plan, p), address))
  {
    var after := After(map[], plan, p);
    var c := LongestSplit(plan.splitRoutes, address);
    SplitsWin(plan, p, c);
    forall d | d in after && Covers(d, address)
      ensures d.len <= c.len
    {
      if d !in plan.splitRoutes {
        OthersArePhysical(plan, p, d);
        var r := Route(d, LastOf(Installed(plan, p))[d]);
        assert !LongerThanSplits(plan, r.dest, address);
      }
    }
    assert BestMatch(after, address, c);
    LookupIsLongestMatch(after, address);
  }

  /** An address keeps off the tunnel for all earlier tables without tunnel routes exactly when it is shielded. */
  lemma ProtectedExactly(plan: Plan, p: Phys, address: nat)
    ensures (forall t :: NoTunnel(t, plan) ==> !ThroughTunnel(plan, Lookup(After(t, plan, p), address)))
            <==> Shielded(plan, p, address)
  {
    if Shielded(plan, p, address) {
      forall t | NoTunnel(t, plan)
        ensures !ThroughTunnel(plan, Lookup(After(t, plan, p), address))
      {
        ShieldedStays(t, plan, p, address);
      }
    } else {
      UnshieldedLeaves(plan, p, address);
      assert NoTunnel(map[], plan);
    }
  }

  /** The VPN gateway and the local address: safe exactly if the plan has no host route through the tunnel for them. */
  lemma HostProtectedExactly(plan: Plan, p: Phys, address: nat)
    requires Complete(p) && address < WORD_LIMIT
    requires plan.vpnGateway == Some(address) || p.localIp == Some(address)
    ensures Shielded(plan, p, address) <==> Host(address) !in plan.splitRoutes
  {
    var r := Route(Host(address), HopOf(p));
    assert Pow2(0) == 1;
    assert Covers(Host(address), address);
    assert r in PhysicalRoutes(plan, p);
    if Host(address) in plan.splitRoutes {
      forall x | x in PhysicalRoutes(plan, p)
        ensures !LongerThanSplits(plan, x.dest, address)
      {
      }
    } else {
      forall c | c in plan.splitRoutes && Covers(c, address)
        ensures c.len < 32
      {
        if c.len == 32 {
          SameLengthSameNet(c, Host(address), address);
        }
      }
    }
  }

  /** A whole protected network is safe if every split route overlapping it is shorter. */
  lemma NetworkProtected(plan: Plan, p: Phys, c: Cidr, t: Table, address: nat)
    requires Complete(p) && (p.localPrefix == Some(c) || c in plan.preserveCidrs) && Covers(c, address)
    requires forall d :: d in plan.splitRoutes && Covers(d, address) ==> d.len < c.len
    requires NoTunnel(t, plan)
    ensures !ThroughTunnel(plan, Lookup(After(t, plan, p), address))
  {
    var r := Route(c, HopOf(p));
    if c in plan.preserveCidrs {
      var k :| 0 <= k < |plan.preserveCidrs| && plan.preserveCidrs[k] == c;
      assert PreserveRoutes(plan, p)[k] == r;
    }
    assert r in PhysicalRoutes(plan, p);
    assert LongerThanSplits(plan, r.dest, address);
    ShieldedStays(t, plan, p, address);
  }

  /** The lower half of a network has the same network address. */
  lemma LowerHalf(c: Cidr)
    requires Normal(c) && c.len < 32
    ensures Covers(Cidr(c.net, c.len + 1), c.net) && Covers(c, c.net)
  {
    var d := Pow2(31 - c.len);
    assert Pow2(32 - c.len) == 2 * d;
    FloorIs(c.net, 2 * d);
    DivisionIs(c.net, d, c.net / (2 * d) * 2, 0);
  }

  lemma HostCoversItself(a: nat, address: nat)
    ensures Covers(Host(a), address) <==> a == address
  {
  }

  /** No local network is safe by itself: a split route for half of it takes addresses of it into the tunnel. */
  lemma LongerSplitWins(p: Phys, net: Cidr)
    requires Complete(p) && p.localPrefix == Some(net) && Normal(net) && net.len < 32 && p.localIp != Some(net.net)
    ensures var plan := Plan("tun0", true, None, [Cidr(net.net, net.len + 1)], []);
            Covers(net, net.net) && ThroughTunnel(plan, Lookup(After(map[], plan, p), net.net))
  {
    var half := Cidr(net.net, net.len + 1);
    var plan := Plan("tun0", true, None, [half], []);
    LowerHalf(net);
    if p.localIp.Some? {
      HostCoversItself(p.localIp.value, net.net);
    }
    hide Covers, Normal, Lookup, After;
    assert half in plan.splitRoutes;
    assert PreserveRoutes(plan, p) == [];
    forall r | r in PhysicalRoutes(plan, p)
      ensures !LongerThanSplits(plan, r.dest, net.net)
    {
      assert (p.localIp.Some? && r.dest == Host(p.localIp.value)) || r.dest == net;
    }
    UnshieldedLeaves(plan, p, net.net);
  }
}
