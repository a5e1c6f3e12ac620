/** Route tables: destinations, longest-prefix lookup, and what installing and deleting lists of routes does. */
module Routes {
  import opened Wrappers
  import opened Bits
  import opened Netmask

  /** A destination `net/len`.  Plan text that is no CIDR at all stands for a value that is not normal. */
  datatype Cidr = Cidr(net: nat, len: nat)

  datatype Hop = Via(gateway: string, dev: string) | Dev(dev: string)

  type Table = map<Cidr, Hop>

  datatype Route = Route(dest: Cidr, hop: Hop)

  function Host(address: nat): Cidr {
    Cidr(address, 32)
  }

  /** An IPv4 network with no host bits set: the only destinations `ip route` accepts. */
  predicate Normal(c: Cidr) {
    c.len <= 32 && c.net < WORD_LIMIT && NetworkOf(c.net, c.len) == c.net
  }

  predicate Covers(c: Cidr, address: nat) {
    c.len <= 32 && NetworkOf(address, c.len) == c.net
  }

  /** A normal destination covers the addresses from its network address up to the last host. */
  lemma CoversRange(c: Cidr, address: nat)
    requires Normal(c)
    ensures Covers(c, address) <==> c.net <= address < c.net + Pow2(32 - c.len)
  {
    var d := Pow2(32 - c.len);
    FloorIs(c.net, d);
    if c.net <= address < c.net + d {
      assert c.net == c.net / d * d;
      DivisionIs(address, d, c.net / d, address - c.net);
    }
  }

  // ---------------------------------------------------------------------
  // Longest-prefix lookup (section 5.2.4.3 of RFC 1812)

  function Lookup(t: Table, address: nat): Option<Hop> {
    LookupFrom(t, address, 32)
  }

  /** The entry for the longest prefix of at most `len` bits. */
  function LookupFrom(t: Table, address: nat, len: nat): Option<Hop>
    requires len <= 32
  {
    var dest := Cidr(NetworkOf(address, len), len);
    if dest in t then Some(t[dest]) else if len == 0 then None else LookupFrom(t, address, len - 1)
  }

  ghost predicate BestMatch(t: Table, address: nat, c: Cidr) {
    c in t && Covers(c, address) && forall d :: d in t && Covers(d, address) ==> d.len <= c.len
  }

  lemma {:induction false} LookupFromFinds(t: Table, address: nat, c: Cidr, len: nat)
    requires BestMatch(t, address, c) && c.len <= len <= 32
    ensures LookupFrom(t, address, len) == Some(t[c])
    decreases len
  {
    var dest := Cidr(NetworkOf(address, len), len);
    assert Covers(dest, address);
    if c.len < len {
      LookupFromFinds(t, address, c, len - 1);
    }
  }

  lemma {:induction false} LookupFromFindsNothing(t: Table, address: nat, len: nat)
    requires len <= 32 && LookupFrom(t, address, len).None?
    ensures forall d :: d in t && Covers(d, address) ==> d.len > len
    decreases len
  {
    if len > 0 {
      LookupFromFindsNothing(t, address, len - 1);
    }
  }

  lemma {:induction false} LookupFromIsBest(t: Table, address: nat, len: nat) returns (c: Cidr)
    requires len <= 32 && LookupFrom(t, address, len).Some?
    requires forall d :: d in t && Covers(d, address) ==> d.len <= len
    ensures BestMatch(t, address, c) && LookupFrom(t, address, len) == Some(t[c])
    decreases len
  {
    c := Cidr(NetworkOf(address, len), len);
    if c !in t {
      c := LookupFromIsBest(t, address, len - 1);
    }
  }

  /** Lookup answers with the longest entry covering the address, and with nothing only if no entry covers it. */
  lemma LookupIsLongestMatch(t: Table, address: nat)
    ensures forall c :: BestMatch(t, address, c) ==> Lookup(t, address) == Some(t[c])
    ensures (exists c :: BestMatch(t, address, c)) <==> Lookup(t, address).Some?
    ensures Lookup(t, address).None? <==> forall d :: d in t ==> !Covers(d, address)
  {
    forall c | BestMatch(t, address, c)
      ensures Lookup(t, address) == Some(t[c])
    {
      LookupFromFinds(t, address, c, 32);
    }
    if Lookup(t, address).None? {
      LookupFromFindsNothing(t, address, 32);
    } else {
      var c := LookupFromIsBest(t, address, 32);
    }
  }

  // ---------------------------------------------------------------------
  // Lists of routes

  /** All these destinations through one hop. */
  function Each(dests: seq<Cidr>, hop: Hop): (routes: seq<Route>)
    ensures |routes| == |dests|
    ensures forall k :: 0 <= k < |dests| ==> routes[k] == Route(dests[k], hop)
  {
    seq(|dests|, k requires 0 <= k < |dests| => Route(dests[k], hop))
  }

  /** Where the elements of three lists one behind the other are. */
  lemma ThreeParts<T>(a: seq<T>, b: seq<T>, c: seq<T>)
    ensures var s := a + b + c;
            && (forall k :: 0 <= k < |a| ==> s[k] == a[k])
            && (forall k :: 0 <= k < |b| ==> s[|a| + k] == b[k])
            && (forall k :: 0 <= k < |c| ==> s[|a| + |b| + k] == c[k])
  {
  }

  /** Replacing routes one after the other; the command after the first `budget` ones fails, and so does one for a
      destination that is not normal. */
  function Install(t: Table, routes: seq<Route>, budget: nat): (Table, bool)
    decreases |routes|
  {
    if routes == [] then (t, true)
    else if budget == 0 || !Normal(routes[0].dest) then (t, false)
    else Install(t[routes[0].dest := routes[0].hop], routes[1..], budget - 1)
  }

  /** `ip route del` of a destination with a given hop; a failure is ignored. */
  function Remove(t: Table, route: Route): Table {
    if Normal(route.dest) && route.dest in t && t[route.dest] == route.hop then t - {route.dest} else t
  }

  function Uninstall(t: Table, routes: seq<Route>): Table {
    if routes == [] then t else Uninstall(Remove(t, routes[0]), routes[1..])
  }

  /** How many of the replacements are carried out. */
  function Executed(routes: seq<Route>, budget: nat): (n: nat)
    ensures n <= |routes| && n <= budget
  {
    if routes == [] || budget == 0 || !Normal(routes[0].dest) then 0 else 1 + Executed(routes[1..], budget - 1)
  }

  /** The last route for each destination. */
  function LastOf(routes: seq<Route>): Table {
    if routes == [] then map[]
    else
      var last := routes[|routes| - 1];
      LastOf(routes[..|routes| - 1])[last.dest := last.hop]
  }

  lemma {:induction false} LastOfPrepend(route: Route, routes: seq<Route>)
    ensures LastOf([route] + routes) == map[route.dest := route.hop] + LastOf(routes)
    decreases |routes|
  {
    if routes == [] {
      assert [route] + routes == [route];
      assert [route][..0] == [];
    } else {
      var all := [route] + routes;
      assert all[..|all| - 1] == [route] + routes[..|routes| - 1];
      LastOfPrepend(route, routes[..|routes| - 1]);
    }
  }

  /** What is in the table after a list of replacements that may stop anywhere. */
  lemma {:induction false} InstallIs(t: Table, routes: seq<Route>, budget: nat)
    ensures Install(t, routes, budget) == (t + LastOf(routes[..Executed(routes, budget)]),
                                           Executed(routes, budget) == |routes|)
    ensures forall k :: 0 <= k < Executed(routes, budget) ==> Normal(routes[k].dest)
    decreases |routes|
  {
    var n := Executed(routes, budget);
    if n == 0 {
      assert routes[..0] == [];
      assert t + map[] == t;
    } else {
      InstallIs(t[routes[0].dest := routes[0].hop], routes[1..], budget - 1);
      assert routes[..n] == [routes[0]] + routes[1..][..n - 1];
      LastOfPrepend(routes[0], routes[1..][..n - 1]);
      hide LastOf, Normal;
      OneFirst(t, routes[0], LastOf(routes[1..][..n - 1]));
    }
  }

  lemma OneFirst(t: Table, first: Route, later: Table)
    ensures t[first.dest := first.hop] + later == t + (map[first.dest := first.hop] + later)
  {
  }

  lemma {:induction false} InstallAppend(t: Table, first: seq<Route>, second: seq<Route>, budget: nat)
    ensures var r := Install(t, first, budget);
            r.1 ==> |first| <= budget
    ensures var r := Install(t, first, budget);
            Install(t, first + second, budget) == if r.1 then Install(r.0, second, budget - |first|) else r
    decreases |first|
  {
    if first == [] {
      assert first + second == second;
    } else {
      assert (first + second)[1..] == first[1..] + second;
      if budget > 0 && Normal(first[0].dest) {
        InstallAppend(t[first[0].dest := first[0].hop], first[1..], second, budget - 1);
      }
    }
  }

  lemma {:induction false} UninstallAppend(t: Table, first: seq<Route>, second: seq<Route>)
    ensures Uninstall(t, first + second) == Uninstall(Uninstall(t, first), second)
    decreases |first|
  {
    if first == [] {
      assert first + second == second;
    } else {
      assert (first + second)[1..] == first[1..] + second;
      UninstallAppend(Remove(t, first[0]), first[1..], second);
    }
  }

  /** Which routes of a table a list of deletions hits. */
  predicate Hits(routes: seq<Route>, dest: Cidr, hop: Hop) {
    Normal(dest) && Route(dest, hop) in routes
  }

  lemma {:induction false} UninstallIs(t: Table, routes: seq<Route>)
    ensures Uninstall(t, routes) == map k | k in t && !Hits(routes, k, t[k]) :: t[k]
    decreases |routes|
  {
    if routes != [] {
      var next := Remove(t, routes[0]);
      UninstallIs(next, routes[1..]);
      assert forall k, h :: Hits(routes, k, h) <==> Hits([routes[0]], k, h) || Hits(routes[1..], k, h);
      assert forall k :: k in next <==> k in t && !Hits([routes[0]], k, t[k]);
    }
  }

  /** Only routes of the list are in it. */
  lemma {:induction false} LastOfIsListed(routes: seq<Route>)
    ensures forall k :: k in LastOf(routes) <==> exists i :: 0 <= i < |routes| && routes[i].dest == k
    ensures forall k :: k in LastOf(routes) ==> Route(k, LastOf(routes)[k]) in routes
    decreases |routes|
  {
    if routes != [] {
      var front, last := routes[..|routes| - 1], routes[|routes| - 1];
      LastOfIsListed(front);
      forall k | k in LastOf(routes)
        ensures Route(k, LastOf(routes)[k]) in routes
      {
        if k == last.dest {
          assert Route(k, last.hop) == last;
        } else {
          assert Route(k, LastOf(front)[k]) in front;
        }
      }
      forall k | exists i :: 0 <= i < |routes| && routes[i].dest == k
        ensures k in LastOf(routes)
      {
        var i :| 0 <= i < |routes| && routes[i].dest == k;
        if i < |front| {
          assert front[i].dest == k;
        }
      }
    }
  }
}
