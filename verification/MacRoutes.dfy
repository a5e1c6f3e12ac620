/** The macOS route commands: `connect`, `disconnect`, and what they leave behind.

    Routes are added and deleted by destination; a destination that is already there cannot be added. */
module MacRoutes {
  import opened Wrappers
  import opened Netmask
  import opened Routes

  datatype Plan = Plan(
    configured: bool,
    tunIp: Option<string>,
    vpnGateway: Option<nat>,
    splitRoutes: seq<Cidr>,
    preserveCidrs: seq<Cidr>)

  datatype Phys = Phys(gateway: Option<string>, iface: Option<string>, localIp: Option<nat>)

  type MacTable = map<Cidr, string>

  /** One `route add`: a destination and its gateway. */
  datatype Entry = Entry(dest: Cidr, gateway: string)

  predicate Usable(p: Phys) {
    p.gateway.Some? || p.iface.Some?
  }

  /** What `split_cidr` accepts. */
  predicate Readable(c: Cidr) {
    c.len <= 32
  }

  /** The table's key for a network given with its mask. */
  function KeyOf(c: Cidr): Cidr {
    if Readable(c) then Cidr(NetworkOf(c.net, c.len), c.len) else c
  }

  function EachVia(dests: seq<Cidr>, gateway: string): (entries: seq<Entry>)
    ensures |entries| == |dests|
    ensures forall k :: 0 <= k < |dests| ==> entries[k] == Entry(KeyOf(dests[k]), gateway)
  {
    seq(|dests|, k requires 0 <= k < |dests| => Entry(KeyOf(dests[k]), gateway))
  }

  function HostEntries(plan: Plan, p: Phys): seq<Entry> {
    if p.gateway.None? then []
    else
      (if plan.vpnGateway.Some? then [Entry(Host(plan.vpnGateway.value), p.gateway.value)] else [])
      + (if p.localIp.Some? then [Entry(Host(p.localIp.value), p.gateway.value)] else [])
  }

  function PreserveEntries(plan: Plan, p: Phys): seq<Entry> {
    if p.gateway.None? then [] else EachVia(plan.preserveCidrs, p.gateway.value)
  }

  function SplitEntries(plan: Plan): seq<Entry> {
    if plan.tunIp.None? then [] else EachVia(plan.splitRoutes, plan.tunIp.value)
  }

  /** The routes `connect` adds, in order. */
  function Added(plan: Plan, p: Phys): seq<Entry> {
    HostEntries(plan, p) + PreserveEntries(plan, p) + SplitEntries(plan)
  }

  /** Adding routes one after the other, up to the first failure. */
  function AddAll(t: MacTable, entries: seq<Entry>, budget: nat): (MacTable, bool)
    decreases |entries|
  {
    if entries == [] then (t, true)
    else if budget == 0 || !Readable(entries[0].dest) || entries[0].dest in t then (t, false)
    else AddAll(t[entries[0].dest := entries[0].gateway], entries[1..], budget - 1)
  }

  /** The destinations `disconnect` deletes. */
  function DeletedKeys(plan: Plan, p: Phys): set<Cidr> {
    (if plan.vpnGateway.Some? then {Host(plan.vpnGateway.value)} else {})
    + (if p.localIp.Some? then {Host(p.localIp.value)} else {})
    + (if plan.tunIp.Some? then SplitKeys(plan.splitRoutes) else {})
  }

  function SplitKeys(dests: seq<Cidr>): set<Cidr> {
    set c | c in dests && Readable(c) :: KeyOf(c)
  }

  datatype State = State(table: MacTable, saved: Option<Phys>)

  datatype Outcome = Outcome(state: State, ok: bool)

  function SetupCommands(plan: Plan): nat {
    if plan.configured then 1 else 0
  }

  /** `connect`; the parameters are those of the Linux one. */
  function Connected(s: State, plan: Plan, found: Phys, budget: nat, writable: bool): Outcome {
    var saved := if writable then Some(found) else s.saved;
    if budget < SetupCommands(plan) then Outcome(State(s.table, saved), false)
    else
      var r := AddAll(s.table, Added(plan, found), budget - SetupCommands(plan));
      Outcome(State(r.0, saved), r.1)
  }

  function PathUsed(s: State, found: Phys): Phys {
    if s.saved.Some? && Usable(s.saved.value) then s.saved.value else found
  }

  function Disconnected(s: State, plan: Plan, found: Phys): State {
    State(s.table - DeletedKeys(plan, PathUsed(s, found)), None)
  }

  class Router {
    var table: MacTable
    var saved: Option<Phys>

    constructor (table: MacTable)
      ensures View() == State(table, None)
    {
      this.table := table;
      saved := None;
    }

    ghost function View(): State
      reads this
    {
      State(table, saved)
    }

    method Add(entry: Entry, budget: nat) returns (ok: bool, left: nat)
      modifies this`table
      ensures (table, ok) == AddAll(old(table), [entry], budget)
      ensures ok ==> left == budget - 1
    {
      ok := budget > 0 && Readable(entry.dest) && entry.dest !in table;
      left := budget;
      if ok {
        table := table[entry.dest := entry.gateway];
        left := budget - 1;
      }
      assert [entry][1..] == [];
    }

    method AddEach(dests: seq<Cidr>, gateway: string, budget: nat) returns (ok: bool, left: nat)
      modifies this`table
      ensures (table, ok) == AddAll(old(table), EachVia(dests, gateway), budget)
      ensures ok ==> left == budget - |dests|
    {
      ok, left := true, budget;
      assert EachVia(dests, gateway)[..0] == [];
      for k := 0 to |dests|
        invariant (table, true) == AddAll(old(table), EachVia(dests, gateway)[..k], budget)
        invariant left == budget - k
      {
        var entries := EachVia(dests, gateway);
        AddAppend(old(table), entries[..k], [entries[k]], budget);
        AddAppend(old(table), entries[..k + 1], entries[k + 1..], budget);
        assert entries[..k + 1] == entries[..k] + [entries[k]];
        assert entries[..k + 1] + entries[k + 1..] == entries;
        ok, left := Add(entries[k], left);
        if !ok {
          return;
        }
      }
      assert EachVia(dests, gateway)[..|dests|] == EachVia(dests, gateway);
    }

    method AddHosts(plan: Plan, p: Phys, budget: nat) returns (ok: bool, left: nat)
      modifies this`table
      ensures (table, ok) == AddAll(old(table), HostEntries(plan, p), budget)
      ensures ok ==> left == budget - |HostEntries(plan, p)|
    {
      ok, left := true, budget;
      if plan.vpnGateway.Some? && p.gateway.Some? {
        var first := Entry(Host(plan.vpnGateway.value), p.gateway.value);
        AddAppend(table, [first], HostEntries(plan, p)[1..], left);
        assert HostEntries(plan, p) == [first] + HostEntries(plan, p)[1..];
        ok, left := Add(first, left);
        if !ok {
          return;
        }
      }
      if p.gateway.Some? && p.localIp.Some? {
        ok, left := Add(Entry(Host(p.localIp.value), p.gateway.value), left);
      }
    }

    method Connect(plan: Plan, found: Phys, budget: nat, writable: bool) returns (ok: bool)
      modifies this
      ensures Outcome(View(), ok) == Connected(old(View()), plan, found, budget, writable)
    {
      if writable {
        saved := Some(found);
      }
      var left := budget;
      if plan.configured {
        if left < 1 {
          return false;
        }
        left := left - 1;
      }
      hide AddAll, HostEntries;
      AddAppend(table, HostEntries(plan, found) + PreserveEntries(plan, found), SplitEntries(plan), left);
      ok, left := AddProtected(plan, found, left);
      if ok {
        ok, left := AddSplits(plan, left);
      }
    }

    /** Gateway, local address and preserve routes. */
    method AddProtected(plan: Plan, p: Phys, budget: nat) returns (ok: bool, left: nat)
      modifies this`table
      ensures (table, ok) == AddAll(old(table), HostEntries(plan, p) + PreserveEntries(plan, p), budget)
      ensures ok ==> left == budget - |HostEntries(plan, p) + PreserveEntries(plan, p)|
    {
      hide HostEntries;
      AddAppend(table, HostEntries(plan, p), PreserveEntries(plan, p), budget);
      ok, left := AddHosts(plan, p, budget);
      if ok && p.gateway.Some? {
        ok, left := AddEach(plan.preserveCidrs, p.gateway.value, left);
      }
    }

    method AddSplits(plan: Plan, budget: nat) returns (ok: bool, left: nat)
      modifies this`table
      ensures (table, ok) == AddAll(old(table), SplitEntries(plan), budget)
    {
      ok, left := true, budget;
      if plan.tunIp.Some? {
        ok, left := AddEach(plan.splitRoutes, plan.tunIp.value, left);
      }
    }

    /** `route delete`; a failure is ignored. */
    method Delete(dest: Cidr)
      modifies this`table
      ensures table == old(table) - {dest}
    {
      table := table - {dest};
    }

    method DeleteEach(dests: seq<Cidr>)
      modifies this`table
      ensures table == old(table) - SplitKeys(dests)
    {
      for k := 0 to |dests|
        invariant table == old(table) - SplitKeys(dests[..k])
      {
        MoreSplitKeys(dests[..k], dests[k]);
        assert dests[..k + 1] == dests[..k] + [dests[k]];
        if Readable(dests[k]) {
          Delete(KeyOf(dests[k]));
        }
      }
      assert dests[..|dests|] == dests;
    }

    method Disconnect(plan: Plan, found: Phys)
      modifies this
      ensures View() == Disconnected(old(View()), plan, found)
    {
      var p := if saved.Some? && Usable(saved.value) then saved.value else found;
      ghost var gateway := if plan.vpnGateway.Some? then {Host(plan.vpnGateway.value)} else {};
      ghost var local := if p.localIp.Some? then {Host(p.localIp.value)} else {};
      ghost var split := if plan.tunIp.Some? then SplitKeys(plan.splitRoutes) else {};
      OneByOne(table, gateway, local, split);
      if plan.vpnGateway.Some? {
        Delete(Host(plan.vpnGateway.value));
      }
      assert table == old(table) - gateway;
      if p.localIp.Some? {
        Delete(Host(p.localIp.value));
      }
      assert table == old(table) - gateway - local;
      if plan.tunIp.Some? {
        DeleteEach(plan.splitRoutes);
      }
      assert table == old(table) - gateway - local - split;
      saved := None;
    }
  }

  lemma OneByOne(t: MacTable, a: set<Cidr>, b: set<Cidr>, c: set<Cidr>)
    ensures t - a - b - c == t - (a + b + c)
    ensures t - {} == t
  {
  }

  lemma MoreSplitKeys(dests: seq<Cidr>, c: Cidr)
    ensures SplitKeys(dests + [c]) == SplitKeys(dests) + if Readable(c) then {KeyOf(c)} else {}
  {
  }

  lemma {:induction false} AddAppend(t: MacTable, first: seq<Entry>, second: seq<Entry>, budget: nat)
    ensures var r := AddAll(t, first, budget);
            r.1 ==> |first| <= budget
    ensures var r := AddAll(t, first, budget);
            AddAll(t, first + second, budget) == if r.1 then AddAll(r.0, second, budget - |first|) else r
    decreases |first|
  {
    if first == [] {
      assert first + second == second;
    } else {
      assert (first + second)[1..] == first[1..] + second;
      if budget > 0 && Readable(first[0].dest) && first[0].dest !in t {
        AddAppend(t[first[0].dest := first[0].gateway], first[1..], second, budget - 1);
      }
    }
  }

  // ---------------------------------------------------------------------
  // What stays behind

  /** The routes of a list, as a table. */
  function AsTable(entries: seq<Entry>): MacTable {
    if entries == [] then map[]
    else
      var last := entries[|entries| - 1];
      AsTable(entries[..|entries| - 1])[last.dest := last.gateway]
  }

  lemma {:induction false} AsTablePrepend(entry: Entry, entries: seq<Entry>)
    ensures AsTable([entry] + entries) == map[entry.dest := entry.gateway] + AsTable(entries)
    decreases |entries|
  {
    var all := [entry] + entries;
    if entries == [] {
      assert all[..0] == [];
    } else {
      assert all[..|all| - 1] == [entry] + entries[..|entries| - 1];
      AsTablePrepend(entry, entries[..|entries| - 1]);
    }
  }

  lemma OneFirst(t: MacTable, first: Entry, later: MacTable)
    ensures var one := map[first.dest := first.gateway];
            && t[first.dest := first.gateway] + later == t + (one + later)
            && (one + later).Keys == {first.dest} + later.Keys
  {
  }

  /** One more route in front. */
  lemma OneMore(t: MacTable, entries: seq<Entry>, m: nat)
    requires m < |entries| && entries[0].dest !in t
    requires t[entries[0].dest := entries[0].gateway].Keys !! AsTable(entries[1..][..m]).Keys
    ensures t[entries[0].dest := entries[0].gateway] + AsTable(entries[1..][..m]) == t + AsTable(entries[..m + 1])
    ensures t.Keys !! AsTable(entries[..m + 1]).Keys
  {
    assert entries[..m + 1] == [entries[0]] + entries[1..][..m];
    AsTablePrepend(entries[0], entries[1..][..m]);
    hide AsTable;
    OneFirst(t, entries[0], AsTable(entries[1..][..m]));
  }

  /** Routes are only ever added where there was none. */
  lemma {:induction false} AddAllIs(t: MacTable, entries: seq<Entry>, budget: nat) returns (n: nat)
    ensures n <= |entries| && (AddAll(t, entries, budget).1 <==> n == |entries|)
    ensures AddAll(t, entries, budget).0 == t + AsTable(entries[..n])
    ensures t.Keys !! AsTable(entries[..n]).Keys
    ensures forall k :: 0 <= k < n ==> Readable(entries[k].dest)
    ensures n <= budget
    ensures n < |entries| ==>
              n == budget || !Readable(entries[n].dest) || entries[n].dest in AddAll(t, entries, budget).0
    decreases |entries|
  {
    if entries == [] || budget == 0 || !Readable(entries[0].dest) || entries[0].dest in t {
      n := 0;
      assert entries[..0] == [];
      assert t + map[] == t;
    } else {
      hide AsTable, Readable;
      var m := AddAllIs(t[entries[0].dest := entries[0].gateway], entries[1..], budget - 1);
      n := m + 1;
      OneMore(t, entries, m);
    }
  }

  lemma {:induction false} AsTableKeys(entries: seq<Entry>)
    ensures AsTable(entries).Keys == set e | e in entries :: e.dest
    decreases |entries|
  {
    if entries != [] {
      var front, last := entries[..|entries| - 1], entries[|entries| - 1];
      AsTableKeys(front);
      assert forall e :: e in entries <==> e in front || e == last;
    }
  }

  lemma EachViaKeys(dests: seq<Cidr>, gateway: string)
    requires forall c :: c in dests ==> Readable(c)
    ensures (set e | e in EachVia(dests, gateway) :: e.dest) == SplitKeys(dests)
  {
    var entries := EachVia(dests, gateway);
    forall k | k in SplitKeys(dests)
      ensures k in set e | e in entries :: e.dest
    {
      var i :| 0 <= i < |dests| && KeyOf(dests[i]) == k;
      assert entries[i] in entries;
    }
  }

  /** A successful connect adds its three groups of routes to the table, and they are apart from it and each other. */
  lemma ConnectAdds(s: State, plan: Plan, found: Phys, budget: nat, writable: bool)
    requires Connected(s, plan, found, budget, writable).ok
    ensures var hosts, preserved, split :=
              AsTable(HostEntries(plan, found)), AsTable(PreserveEntries(plan, found)), AsTable(SplitEntries(plan));
            && Connected(s, plan, found, budget, writable).state.table == s.table + hosts + preserved + split
            && s.table.Keys !! hosts.Keys !! preserved.Keys !! split.Keys
    ensures plan.tunIp.Some? ==> forall c :: c in plan.splitRoutes ==> Readable(c)
    ensures found.gateway.Some? ==> forall c :: c in plan.preserveCidrs ==> Readable(c)
  {
    hide AddAll, AsTable, HostEntries, KeyOf, EachVia;
    var hosts, preserved, split := HostEntries(plan, found), PreserveEntries(plan, found), SplitEntries(plan);
    AddThreeGroups(s.table, hosts, preserved, split, budget - SetupCommands(plan));
    if plan.tunIp.Some? {
      EachIsReadable(plan.splitRoutes, plan.tunIp.value);
    }
    if found.gateway.Some? {
      EachIsReadable(plan.preserveCidrs, found.gateway.value);
    }
  }

  lemma EachIsReadable(dests: seq<Cidr>, gateway: string)
    requires var entries := EachVia(dests, gateway);
             forall k :: 0 <= k < |entries| ==> Readable(entries[k].dest)
    ensures forall c :: c in dests ==> Readable(c)
  {
    forall c | c in dests
      ensures Readable(c)
    {
      var k :| 0 <= k < |dests| && dests[k] == c;
      assert Readable(EachVia(dests, gateway)[k].dest);
    }
  }

  lemma AddThreeGroups(t: MacTable, a: seq<Entry>, b: seq<Entry>, c: seq<Entry>, budget: nat)
    requires AddAll(t, a + b + c, budget).1
    ensures AddAll(t, a + b + c, budget).0 == t + AsTable(a) + AsTable(b) + AsTable(c)
    ensures t.Keys !! AsTable(a).Keys !! AsTable(b).Keys !! AsTable(c).Keys
    ensures forall k :: 0 <= k < |b| ==> Readable(b[k].dest)
    ensures forall k :: 0 <= k < |c| ==> Readable(c[k].dest)
  {
    hide AddAll, AsTable, Readable;
    AddAppend(t, a + b, c, budget);
    AddAppend(t, a, b, budget);
    var t1 := AddGroup(t, a, budget);
    var t2 := AddGroup(t1, b, budget - |a|);
    var t3 := AddGroup(t2, c, budget - |a| - |b|);
    Apart(t, AsTable(a), AsTable(b), AsTable(c));
  }

  lemma Apart(t: MacTable, a: MacTable, b: MacTable, c: MacTable)
    requires t.Keys !! a.Keys && (t + a).Keys !! b.Keys && (t + a + b).Keys !! c.Keys
    ensures t.Keys !! a.Keys !! b.Keys !! c.Keys
  {
  }

  lemma AddGroup(t: MacTable, entries: seq<Entry>, budget: nat) returns (after: MacTable)
    requires AddAll(t, entries, budget).1
    ensures AddAll(t, entries, budget).0 == after == t + AsTable(entries)
    ensures t.Keys !! AsTable(entries).Keys
    ensures forall k :: 0 <= k < |entries| ==> Readable(entries[k].dest)
  {
    var n := AddAllIs(t, entries, budget);
    assert entries[..n] == entries;
    after := AddAll(t, entries, budget).0;
  }

  /** After a successful connect along a path with a gateway and a disconnect along the same path, the table holds
      exactly what it held before and the preserved networks. */
  lemma PreservedStayExactly(s: State, plan: Plan, found: Phys, budget: nat, later: Phys)
    requires Connected(s, plan, found, budget, true).ok && found.gateway.Some?
    ensures Disconnected(Connected(s, plan, found, budget, true).state, plan, later)
            == State(s.table + AsTable(PreserveEntries(plan, found)), None)
    ensures s.table.Keys !! AsTable(PreserveEntries(plan, found)).Keys
  {
    hide AsTable, AddAll, HostEntries, PreserveEntries, SplitEntries, SplitKeys;
    var hosts, preserved, split :=
      AsTable(HostEntries(plan, found)), AsTable(PreserveEntries(plan, found)), AsTable(SplitEntries(plan));
    ConnectAdds(s, plan, found, budget, true);
    assert PathUsed(Connected(s, plan, found, budget, true).state, later) == found;
    hide Connected;
    HostKeys(plan, found);
    SplitKeysAre(plan);
    var keys := DeletedKeys(plan, found);
    assert keys == hosts.Keys + split.Keys;
    hide DeletedKeys;
    MiddleStays(s.table, hosts, preserved, split, keys);
  }

  lemma MiddleStays(t: MacTable, hosts: MacTable, preserved: MacTable, split: MacTable, keys: set<Cidr>)
    requires t.Keys !! hosts.Keys !! preserved.Keys !! split.Keys && keys == hosts.Keys + split.Keys
    ensures (t + hosts + preserved + split) - keys == t + preserved
  {
  }

  lemma HostKeys(plan: Plan, p: Phys)
    requires p.gateway.Some?
    ensures AsTable(HostEntries(plan, p)).Keys
            == (if plan.vpnGateway.Some? then {Host(plan.vpnGateway.value)} else {})
               + (if p.localIp.Some? then {Host(p.localIp.value)} else {})
  {
    AsTableKeys(HostEntries(plan, p));
  }

  lemma SplitKeysAre(plan: Plan)
    requires plan.tunIp.Some? ==> forall c :: c in plan.splitRoutes ==> Readable(c)
    ensures AsTable(SplitEntries(plan)).Keys == if plan.tunIp.Some? then SplitKeys(plan.splitRoutes) else {}
  {
    AsTableKeys(SplitEntries(plan));
    if plan.tunIp.Some? {
      EachViaKeys(plan.splitRoutes, plan.tunIp.value);
    }
  }

  /** A connect that stops anywhere has added its routes up to the first that fails for a reason of its own, has a prefix
      length that cannot be read, or is there already; and the disconnect takes out of the table just the deleted
      destinations, whoever put them there. */
  lemma StoppedAnywhere(s: State, plan: Plan, found: Phys, budget: nat, later: Phys) returns (n: nat)
    ensures n <= |Added(plan, found)| && s.table.Keys !! AsTable(Added(plan, found)[..n]).Keys
    ensures var connected := Connected(s, plan, found, budget, true).state;
            var keys := DeletedKeys(plan, PathUsed(connected, later));
            Disconnected(connected, plan, later)
            == State((s.table - keys) + (AsTable(Added(plan, found)[..n]) - keys), None)
    ensures StopsAt(Connected(s, plan, found, budget, true).state.table, plan, found, budget, n)
  {
    n := ConnectAddsSome(s, plan, found, budget);
    var connected := Connected(s, plan, found, budget, true).state;
    hide DeletedKeys, Added, AddAll, AsTable, Connected, StopsAt;
    MinusBoth(s.table, AsTable(Added(plan, found)[..n]), DeletedKeys(plan, PathUsed(connected, later)));
  }

  /** Why a connect that left `t` added `n` routes and no more. */
  ghost predicate StopsAt(t: MacTable, plan: Plan, found: Phys, budget: nat, n: nat) {
    var added := Added(plan, found);
    && (n > 0 ==> n + (if plan.configured then 1 else 0) <= budget)
    && (n < |added| ==>
          || budget <= n + (if plan.configured then 1 else 0)
          || added[n].dest.len > 32
          || added[n].dest in t)
  }

  lemma ConnectAddsSome(s: State, plan: Plan, found: Phys, budget: nat) returns (n: nat)
    ensures n <= |Added(plan, found)| && s.table.Keys !! AsTable(Added(plan, found)[..n]).Keys
    ensures Connected(s, plan, found, budget, true).state.table == s.table + AsTable(Added(plan, found)[..n])
    ensures StopsAt(Connected(s, plan, found, budget, true).state.table, plan, found, budget, n)
  {
    hide Added, AddAll;
    if budget < SetupCommands(plan) {
      n := 0;
      assert Added(plan, found)[..0] == [];
      assert s.table + map[] == s.table;
    } else {
      n := AddAllIs(s.table, Added(plan, found), budget - SetupCommands(plan));
    }
  }

  lemma MinusBoth(a: MacTable, b: MacTable, keys: set<Cidr>)
    ensures (a + b) - keys == (a - keys) + (b - keys)
  {
  }

  /** Along a path without a gateway nothing is added but the split routes, yet the host routes are deleted: those the
      table already held are lost, and only those. */
  lemma WithoutGateway(s: State, plan: Plan, found: Phys, budget: nat, later: Phys)
    requires Connected(s, plan, found, budget, true).ok && found.gateway.None? && found.iface.Some?
    ensures Disconnected(Connected(s, plan, found, budget, true).state, plan, later)
            == State(s.table - (DeletedKeys(plan, found) - AsTable(SplitEntries(plan)).Keys), None)
  {
    var split := AsTable(SplitEntries(plan));
    var connected := Connected(s, plan, found, budget, true).state;
    ConnectAdds(s, plan, found, budget, true);
    SplitKeysAre(plan);
    var keys := DeletedKeys(plan, found);
    assert split.Keys <= keys;
    hide AsTable, Connected, AddAll, DeletedKeys;
    assert HostEntries(plan, found) == [] && PreserveEntries(plan, found) == [];
    EmptyTable();
    hide HostEntries, PreserveEntries, SplitEntries;
    assert connected.table - keys == s.table - (keys - split.Keys);
  }

  lemma EmptyTable()
    ensures AsTable([]) == map[]
  {
  }
}
