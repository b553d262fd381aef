/**
 * The driver's connection tables. Every connection between two fragments, from one upstream
 * label to one downstream label, gets a port index; the index is recorded on both connection
 * items, in the receiving fragment's list of receiver ports, and in the index-to-port and
 * index-to-address tables that the schedule later fills in.
 */
module Connections {
  import opened Wrappers
  import opened Strings
  import opened Graphs
  import opened Args

  /** The address every connection item is created with, before the schedule is known. */
  const AnyAddress: string := "0.0.0.0"

  /** The port recorded for an index before the schedule assigns one. */
  const Unassigned: int := -1

  datatype IOType = OutputPort | InputPort

  /** A connection item: the operator port it belongs to, its direction and its arguments. */
  datatype ConnectionItem = ConnectionItem(name: string, ioType: IOType, args: seq<Arg>)

  /** The item on the sending side of connection `i`. */
  function SourceItem(portName: string, i: int): ConnectionItem
  {
    ConnectionItem(portName, OutputPort, [Arg("receiver_address", StringArg(AnyAddress)), Arg("port", IntArg(i))])
  }

  /** The item on the receiving side of connection `i`. */
  function TargetItem(portName: string, i: int): ConnectionItem
  {
    ConnectionItem(portName, InputPort, [Arg("address", StringArg(AnyAddress)), Arg("port", IntArg(i))])
  }

  /** One connection: an upstream label of `source` feeding a downstream label of `target`. */
  datatype Link = Link(source: Node, target: Node, sourceLabel: string, targetLabel: string)

  /**
   * `connection_map_`, `receiver_port_map_`, `index_to_port_map_` and `index_to_ip_map_`:
   * the items of each fragment, the (index, port) pairs each receiving fragment listens on,
   * and the port and address of each index.
   */
  datatype Tables = Tables(connections: map<Node, seq<ConnectionItem>>,
                           receivers: map<string, seq<(int, int)>>,
                           indexToPort: map<int, int>,
                           indexToIp: map<int, string>)

  const NoTables := Tables(map[], map[], map[], map[])

  /** Appends `v` to the list filed under `k`, starting the list if there is none. */
  function Pushed<K, V>(m: map<K, seq<V>>, k: K, v: V): map<K, seq<V>>
  {
    m[k := (if k in m then m[k] else []) + [v]]
  }

  /** Records link `l` under index `i`. */
  function Record(t: Tables, l: Link, i: int): Tables
  {
    Tables(Pushed(Pushed(t.connections, l.source, SourceItem(l.sourceLabel, i)), l.target, TargetItem(l.targetLabel, i)),
           Pushed(t.receivers, l.target.name, (i, Unassigned)),
           t.indexToPort[i := Unassigned],
           t.indexToIp[i := l.target.name])
  }

  /** Records `links`, in order, under the indices `start`, `start + 1`, ... */
  function Ledger(t: Tables, links: seq<Link>, start: int): Tables
    decreases |links|
  {
    if links == [] then t
    else Record(Ledger(t, links[..|links| - 1], start), links[|links| - 1], start + |links| - 1)
  }

  lemma LedgerSnoc(t: Tables, links: seq<Link>, l: Link, start: int)
    ensures Ledger(t, links + [l], start) == Record(Ledger(t, links, start), l, start + |links|)
  {
    assert (links + [l])[..|links|] == links;
  }

  // ---------------------------------------------------------------------------------------
  // What the tables say after recording a list of links from scratch
  // ---------------------------------------------------------------------------------------

  /** Index `i` is taken by exactly the `i`-th link, with no port yet and the receiver's name as address. */
  lemma {:induction false} LedgerIndices(links: seq<Link>)
    ensures var t := Ledger(NoTables, links, 0);
            && (forall i :: i in t.indexToPort <==> 0 <= i < |links|)
            && (forall i :: i in t.indexToIp <==> 0 <= i < |links|)
            && (forall i :: 0 <= i < |links| ==>
                  t.indexToPort[i] == Unassigned && t.indexToIp[i] == links[i].target.name)
    decreases |links|
  {
    if links != [] {
      LedgerIndices(links[..|links| - 1]);
    }
  }

  /** What a list holds after an append: what it held, and the appended value. */
  lemma PushedHolds<K, V>(m: map<K, seq<V>>, k: K, v: V)
    ensures forall k', x :: k' in Pushed(m, k, v) && x in Pushed(m, k, v)[k'] <==>
                            (k' in m && x in m[k']) || (k' == k && x == v)
  {
    forall k', x ensures k' in Pushed(m, k, v) && x in Pushed(m, k, v)[k'] <==>
                         (k' in m && x in m[k']) || (k' == k && x == v)
    {
      if k' == k {
        var before := if k in m then m[k] else [];
        assert Pushed(m, k, v)[k] == before + [v];
        assert x in before + [v] <==> x in before || x == v;
      }
    }
  }

  /** Fragment `name`'s receiver list holds entry `e`. */
  predicate Lists(r: map<string, seq<(int, int)>>, name: string, e: (int, int))
  {
    name in r && e in r[name]
  }

  /** Entry `e` of fragment `name`'s receiver list stands for a link into it. */
  predicate Receives(links: seq<Link>, name: string, e: (int, int))
  {
    0 <= e.0 < |links| && e.1 == Unassigned && links[e.0].target.name == name
  }

  /**
   * A fragment's receiver list holds, in ascending order of index, one unassigned entry for
   * each link into it, and nothing else.
   */
  lemma {:induction false} LedgerReceivers(links: seq<Link>)
    ensures var r := Ledger(NoTables, links, 0).receivers;
            && (forall name, e :: Lists(r, name, e) <==> Receives(links, name, e))
            && (forall name :: name in r ==> Increasing(r[name]))
    decreases |links|
  {
    if links != [] {
      var n := |links| - 1;
      LedgerReceivers(links[..n]);
      var r0 := Ledger(NoTables, links[..n], 0).receivers;
      assert var r := Ledger(NoTables, links[..n], 0).receivers; forall name :: name in r ==> Increasing(r[name]);
      assert forall name :: name in r0 ==> Increasing(r0[name]);
      assert Ledger(NoTables, links, 0).receivers == Pushed(r0, links[n].target.name, (n, Unassigned));
      ReceiversStep(r0, links);
    }
  }

  lemma ReceiversStep(r0: map<string, seq<(int, int)>>, links: seq<Link>)
    requires links != []
    requires forall name, e :: Lists(r0, name, e) <==> Receives(links[..|links| - 1], name, e)
    requires forall name :: name in r0 ==> Increasing(r0[name])
    ensures var n := |links| - 1;
            var r := Pushed(r0, links[n].target.name, (n, Unassigned));
            && (forall name, e :: Lists(r, name, e) <==> Receives(links, name, e))
            && (forall name :: name in r ==> Increasing(r[name]))
  {
    var n := |links| - 1;
    var prefix := links[..n];
    var r := Pushed(r0, links[n].target.name, (n, Unassigned));
    PushedHolds(r0, links[n].target.name, (n, Unassigned));
    forall name, e: (int, int) ensures Lists(r, name, e) <==> Receives(links, name, e) {
      var inOld := Lists(r0, name, e);
      var isNew := name == links[n].target.name && e == (n, Unassigned);
      assert Lists(r, name, e) <==> inOld || isNew;
      if 0 <= e.0 < n {
        assert links[e.0] == prefix[e.0];
        assert Receives(links, name, e) <==> Receives(prefix, name, e);
        assert !isNew;
        assert inOld || isNew <==> Receives(links, name, e);
      } else {
        assert !Receives(prefix, name, e);
        assert !inOld;
        if Receives(links, name, e) {
          assert e == (e.0, e.1) == (n, Unassigned);
        }
        assert inOld || isNew <==> Receives(links, name, e);
      }
    }
    forall name | name in r ensures Increasing(r[name]) {
      if name == links[n].target.name {
        var before := if name in r0 then r0[name] else [];
        assert r[name] == before + [(n, Unassigned)];
        forall a | 0 <= a < |before| ensures before[a].0 < n {
          assert Lists(r0, name, before[a]);
          assert Receives(links[..|links| - 1], name, before[a]);
        }
      }
    }
  }

  /** Index order: each entry's index is below the next one's. */
  predicate Increasing(s: seq<(int, int)>)
  {
    forall a, b :: 0 <= a < b < |s| ==> s[a].0 < s[b].0
  }

  /** Fragment `n`'s item list holds `it`. */
  predicate Holds(c: map<Node, seq<ConnectionItem>>, n: Node, it: ConnectionItem)
  {
    n in c && it in c[n]
  }

  /** Some link of `links` gives fragment `n` item `it`. */
  predicate Connects(links: seq<Link>, n: Node, it: ConnectionItem)
  {
    exists i :: 0 <= i < |links| && Carries(links[i], i, n, it)
  }

  /**
   * A fragment's item list holds the sending item of every link out of it and the receiving
   * item of every link into it, each under the link's index, and nothing else.
   */
  lemma {:induction false} LedgerItems(links: seq<Link>)
    ensures var c := Ledger(NoTables, links, 0).connections;
            forall n, it :: Holds(c, n, it) <==> Connects(links, n, it)
    decreases |links|
  {
    if links != [] {
      var k := |links| - 1;
      LedgerItems(links[..k]);
      var c0 := Ledger(NoTables, links[..k], 0).connections;
      assert forall n, it :: Holds(c0, n, it) <==> Connects(links[..k], n, it);
      ItemsStep(c0, links);
    }
  }

  lemma ItemsStep(c0: map<Node, seq<ConnectionItem>>, links: seq<Link>)
    requires links != []
    requires forall n, it :: Holds(c0, n, it) <==> Connects(links[..|links| - 1], n, it)
    ensures var k := |links| - 1;
            var l := links[k];
            var c := Pushed(Pushed(c0, l.source, SourceItem(l.sourceLabel, k)), l.target, TargetItem(l.targetLabel, k));
            forall n, it :: Holds(c, n, it) <==> Connects(links, n, it)
  {
    var k := |links| - 1;
    var prefix := links[..k];
    var l := links[k];
    var c1 := Pushed(c0, l.source, SourceItem(l.sourceLabel, k));
    var c := Pushed(c1, l.target, TargetItem(l.targetLabel, k));
    PushedHolds(c0, l.source, SourceItem(l.sourceLabel, k));
    PushedHolds(c1, l.target, TargetItem(l.targetLabel, k));
    forall n, it ensures Holds(c, n, it) <==> Connects(links, n, it) {
      assert Holds(c, n, it) <==> Holds(c0, n, it) || Carries(l, k, n, it);
      if Holds(c0, n, it) {
        assert Connects(prefix, n, it);
        var i :| 0 <= i < |prefix| && Carries(prefix[i], i, n, it);
        assert links[i] == prefix[i];
      }
      if Carries(l, k, n, it) {
        assert Carries(links[k], k, n, it);
      }
      if Connects(links, n, it) {
        var i :| 0 <= i < |links| && Carries(links[i], i, n, it);
        if i < k {
          assert links[i] == prefix[i];
          assert Connects(prefix, n, it);
        }
      }
    }
  }

  /** Fragment `n` holds item `it` for link `l` recorded under index `i`. */
  predicate Carries(l: Link, i: int, n: Node, it: ConnectionItem)
  {
    (l.source == n && it == SourceItem(l.sourceLabel, i)) || (l.target == n && it == TargetItem(l.targetLabel, i))
  }

  /** The names of `nodes`. */
  function NamesOf(nodes: seq<Node>): set<string>
  {
    set n | n in nodes :: n.name
  }

  /** Only fragments of `nodes` have a nonempty receiver list. */
  predicate ReceiversNamed(receivers: map<string, seq<(int, int)>>, nodes: seq<Node>)
  {
    forall name :: name in receivers && receivers[name] != [] ==> name in NamesOf(nodes)
  }

  /** Recording links into fragments of `nodes` lists receivers only for fragments of `nodes`. */
  lemma {:induction false} LedgerReceiverNames(t: Tables, links: seq<Link>, start: int, nodes: seq<Node>)
    requires ReceiversNamed(t.receivers, nodes)
    requires forall l :: l in links ==> l.target in nodes
    ensures ReceiversNamed(Ledger(t, links, start).receivers, nodes)
    decreases |links|
  {
    if links != [] {
      var n := |links| - 1;
      assert forall l :: l in links[..n] ==> l in links;
      LedgerReceiverNames(t, links[..n], start, nodes);
      assert links[n] in links;
    }
  }

  // ---------------------------------------------------------------------------------------
  // The links a port map stands for
  // ---------------------------------------------------------------------------------------

  /** The links from upstream label `k` of `u` to each downstream label `ts` of `v`, in order. */
  function KeyLinks(u: Node, v: Node, k: string, ts: seq<string>): (ls: seq<Link>)
    ensures |ls| == |ts|
  {
    seq(|ts|, i requires 0 <= i < |ts| => Link(u, v, k, ts[i]))
  }

  /** The links of the upstream labels `keys` of port map `m`, label by label, destinations in ascending order. */
  ghost function MapLinks(u: Node, v: Node, m: PortMap, keys: seq<string>): seq<Link>
    decreases |keys|
  {
    if keys == [] then []
    else
      var k := keys[|keys| - 1];
      MapLinks(u, v, m, keys[..|keys| - 1]) + KeyLinks(u, v, k, Sorted(if k in m then m[k] else {}))
  }

  /** The links an edge `u -> v` with port map `m` stands for, upstream labels in ascending order. */
  ghost function EdgeLinks(u: Node, v: Node, m: PortMap): seq<Link>
  {
    MapLinks(u, v, m, Sorted(m.Keys))
  }

  /** The links of the edges `visits`, edge after edge. */
  ghost function AllLinks(ports: map<(Node, Node), PortMap>, visits: seq<(Node, Node)>): seq<Link>
    decreases |visits|
  {
    if visits == [] then []
    else
      var e := visits[|visits| - 1];
      AllLinks(ports, visits[..|visits| - 1]) + EdgeLinks(e.0, e.1, if e in ports then ports[e] else map[])
  }

  /** Recording `a + b` is recording `a` and then `b`, numbered on from where `a` stopped. */
  lemma {:induction false} LedgerAppend(t: Tables, a: seq<Link>, b: seq<Link>, start: int)
    ensures Ledger(t, a + b, start) == Ledger(Ledger(t, a, start), b, start + |a|)
    decreases |b|
  {
    if b == [] {
      assert a + b == a;
    } else {
      var n := |b| - 1;
      assert (a + b)[..|a + b| - 1] == a + b[..n];
      assert (a + b)[|a + b| - 1] == b[n];
      LedgerAppend(t, a, b[..n], start);
    }
  }

  lemma KeyLinksSnoc(u: Node, v: Node, k: string, ts: seq<string>, j: nat)
    requires j < |ts|
    ensures KeyLinks(u, v, k, ts[..j + 1]) == KeyLinks(u, v, k, ts[..j]) + [Link(u, v, k, ts[j])]
  {
  }

  lemma MapLinksSnoc(u: Node, v: Node, m: PortMap, keys: seq<string>, i: nat)
    requires i < |keys|
    ensures MapLinks(u, v, m, keys[..i + 1])
            == MapLinks(u, v, m, keys[..i]) + KeyLinks(u, v, keys[i], Sorted(if keys[i] in m then m[keys[i]] else {}))
  {
    assert keys[..i + 1][..i] == keys[..i];
  }

  /** The links of `a + b` are those of `a` followed by those of `b`. */
  lemma {:induction false} AllLinksAppend(ports: map<(Node, Node), PortMap>, a: seq<(Node, Node)>, b: seq<(Node, Node)>)
    ensures AllLinks(ports, a + b) == AllLinks(ports, a) + AllLinks(ports, b)
    decreases |b|
  {
    if b == [] {
      assert a + b == a;
    } else {
      var n, e := |b| - 1, b[|b| - 1];
      var last := EdgeLinks(e.0, e.1, if e in ports then ports[e] else map[]);
      assert (a + b)[..|a + b| - 1] == a + b[..n];
      assert (a + b)[|a + b| - 1] == e;
      assert AllLinks(ports, a + b) == AllLinks(ports, a + b[..n]) + last;
      AllLinksAppend(ports, a, b[..n]);
      ConcatAssoc(AllLinks(ports, a), AllLinks(ports, b[..n]), last);
    }
  }

  /** The links of `visits` depend only on the port maps of the visited edges. */
  lemma {:induction false} AllLinksFrame(p: map<(Node, Node), PortMap>, q: map<(Node, Node), PortMap>, visits: seq<(Node, Node)>)
    requires forall e :: e in visits ==> (e in p <==> e in q) && (e in p ==> p[e] == q[e])
    ensures AllLinks(p, visits) == AllLinks(q, visits)
    decreases |visits|
  {
    if visits != [] {
      var n := |visits| - 1;
      assert forall e :: e in visits[..n] ==> e in visits;
      AllLinksFrame(p, q, visits[..n]);
      assert visits[n] in visits;
    }
  }

  /** Link `l` joins an upstream label to one of its destinations in port map `m`. */
  predicate InPortMap(l: Link, m: PortMap)
  {
    l.sourceLabel in m && l.targetLabel in m[l.sourceLabel]
  }

  lemma NoDuplicatesConcat<T>(a: seq<T>, b: seq<T>)
    requires NoDuplicates(a) && NoDuplicates(b)
    requires forall x :: x in a ==> x !in b
    ensures NoDuplicates(a + b)
  {
    var c := a + b;
    forall i, j | 0 <= i < j < |c| ensures c[i] != c[j] {
      if i < |a| && j >= |a| {
        assert c[i] == a[i] && c[j] == b[j - |a|];
        assert a[i] in a;
      } else if i >= |a| {
        assert c[i] == b[i - |a|] && c[j] == b[j - |a|];
      }
    }
  }

  lemma KeyLinksSpec(u: Node, v: Node, k: string, ts: seq<string>)
    ensures forall l :: l in KeyLinks(u, v, k, ts) <==> l.source == u && l.target == v && l.sourceLabel == k && l.targetLabel in ts
    ensures NoDuplicates(ts) ==> NoDuplicates(KeyLinks(u, v, k, ts))
  {
    var ls := KeyLinks(u, v, k, ts);
    forall l: Link | l.source == u && l.target == v && l.sourceLabel == k && l.targetLabel in ts ensures l in ls {
      var i :| 0 <= i < |ts| && ts[i] == l.targetLabel;
      assert ls[i] == l;
    }
  }

  /**
   * The links of a port map: one for every upstream label among `keys` and each of its
   * destinations, none twice.
   */
  lemma {:induction false} MapLinksSpec(u: Node, v: Node, m: PortMap, keys: seq<string>)
    requires NoDuplicates(keys)
    ensures forall l :: l in MapLinks(u, v, m, keys) <==>
                          l.source == u && l.target == v && l.sourceLabel in keys && InPortMap(l, m)
    ensures NoDuplicates(MapLinks(u, v, m, keys))
    decreases |keys|
  {
    if keys != [] {
      var n := |keys| - 1;
      var k := keys[n];
      var prefix := keys[..n];
      assert NoDuplicates(prefix);
      MapLinksSpec(u, v, m, prefix);
      var dests := if k in m then m[k] else {};
      SortedSpec(dests);
      KeyLinksSpec(u, v, k, Sorted(dests));
      assert k !in prefix;
      NoDuplicatesConcat(MapLinks(u, v, m, prefix), KeyLinks(u, v, k, Sorted(dests)));
      forall l: Link ensures l in MapLinks(u, v, m, keys) <==>
                       l.source == u && l.target == v && l.sourceLabel in keys && InPortMap(l, m)
      {
        assert l.targetLabel in Sorted(dests) <==> l.targetLabel in Elements(Sorted(dests));
        assert l.sourceLabel in keys <==> l.sourceLabel in prefix || l.sourceLabel == k;
      }
    }
  }

  /** The links of an edge are exactly the pairs of its port map, each once. */
  lemma EdgeLinksSpec(u: Node, v: Node, m: PortMap)
    ensures forall l :: l in EdgeLinks(u, v, m) <==> l.source == u && l.target == v && InPortMap(l, m)
    ensures NoDuplicates(EdgeLinks(u, v, m))
  {
    SortedSpec(m.Keys);
    MapLinksSpec(u, v, m, Sorted(m.Keys));
    forall l: Link ensures l.sourceLabel in Sorted(m.Keys) <==> l.sourceLabel in m {
      assert l.sourceLabel in Sorted(m.Keys) <==> l.sourceLabel in Elements(Sorted(m.Keys));
    }
  }

  /** The links of distinct edges: one for every pair of every visited edge's port map, none twice. */
  lemma {:induction false} AllLinksSpec(ports: map<(Node, Node), PortMap>, visits: seq<(Node, Node)>)
    requires NoDuplicates(visits)
    requires forall i :: 0 <= i < |visits| ==> visits[i] in ports
    ensures forall l :: l in AllLinks(ports, visits) <==>
                          (l.source, l.target) in visits && InPortMap(l, ports[(l.source, l.target)])
    ensures NoDuplicates(AllLinks(ports, visits))
    decreases |visits|
  {
    if visits != [] {
      var n := |visits| - 1;
      var e := visits[n];
      var prefix := visits[..n];
      assert NoDuplicates(prefix);
      AllLinksSpec(ports, prefix);
      EdgeLinksSpec(e.0, e.1, ports[e]);
      assert e !in prefix;
      NoDuplicatesConcat(AllLinks(ports, prefix), EdgeLinks(e.0, e.1, ports[e]));
      forall l: Link ensures l in AllLinks(ports, visits) <==>
                       (l.source, l.target) in visits && InPortMap(l, ports[(l.source, l.target)])
      {
        assert (l.source, l.target) in visits <==> (l.source, l.target) in prefix || (l.source, l.target) == e;
      }
    }
  }

  // ---------------------------------------------------------------------------------------
  // Replacing port indices by the ports and addresses the schedule assigned
  // ---------------------------------------------------------------------------------------

  /** `index_to_port_map_[i]`: the port of index `i`; an index without one reads as 0. */
  function PortOf(toPort: map<int, int>, i: int): int
  {
    if i in toPort then toPort[i] else 0
  }

  /** `index_to_ip_map_[i]`: the address of index `i`; an index without one reads as "". */
  function IpOf(toIp: map<int, string>, i: int): string
  {
    if i in toIp then toIp[i] else ""
  }

  /** A read through `operator[]`: a missing key is inserted with the default value. */
  function Touched<V>(m: map<int, V>, i: int, d: V): map<int, V>
  {
    if i in m then m else m[i := d]
  }

  predicate IsPort(a: Arg)
  {
    a.name == "port"
  }

  predicate IsAddress(a: Arg)
  {
    a.name == "address" || a.name == "receiver_address"
  }

  /** Every "port" argument holds an integer, so reading it as a port index cannot fail. */
  predicate PortsAreInts(args: seq<Arg>)
  {
    forall a :: a in args && IsPort(a) ==> a.value.IntArg?
  }

  /** The port index of an item: that of its last "port" argument, or -1 when it has none. */
  function PortIndex(args: seq<Arg>): int
    decreases |args|
  {
    if args == [] then -1
    else
      var a := args[|args| - 1];
      if IsPort(a) && a.value.IntArg? then a.value.i else PortIndex(args[..|args| - 1])
  }

  /** Whether an item has an argument that names an address. */
  predicate HasAddress(args: seq<Arg>)
  {
    exists a :: a in args && IsAddress(a)
  }

  /** Argument `a` once its index has been replaced: a port by the port of that index. */
  function PortPassed(a: Arg, toPort: map<int, int>): Arg
  {
    if IsPort(a) && a.value.IntArg? then Arg(a.name, IntArg(PortOf(toPort, a.value.i))) else a
  }

  /** Argument `a` once corrected: a port as above, an address by the address `ip` of the item's index. */
  function Rewritten(a: Arg, toPort: map<int, int>, ip: string): Arg
  {
    if IsAddress(a) then Arg(a.name, StringArg(ip)) else PortPassed(a, toPort)
  }

  /**
   * The item a correction makes of `it`: every port argument holds the port of its index,
   * every address argument the address of the item's index (that of its last port).
   */
  function CorrectedItem(it: ConnectionItem, toPort: map<int, int>, toIp: map<int, string>): (r: ConnectionItem)
    ensures r.name == it.name && r.ioType == it.ioType && |r.args| == |it.args|
  {
    var ip := IpOf(toIp, PortIndex(it.args));
    it.(args := seq(|it.args|, j requires 0 <= j < |it.args| => Rewritten(it.args[j], toPort, ip)))
  }

  /** A fragment's item list, each item corrected. */
  function CorrectedItems(items: seq<ConnectionItem>, toPort: map<int, int>, toIp: map<int, string>)
    : (r: seq<ConnectionItem>)
    ensures |r| == |items|
  {
    seq(|items|, j requires 0 <= j < |items| => CorrectedItem(items[j], toPort, toIp))
  }

  /** The item lists of every fragment, each item corrected. */
  function CorrectedMap(c: map<Node, seq<ConnectionItem>>, toPort: map<int, int>, toIp: map<int, string>)
    : (r: map<Node, seq<ConnectionItem>>)
    ensures r.Keys == c.Keys && forall n :: n in c ==> |r[n]| == |c[n]|
  {
    map n | n in c :: CorrectedItems(c[n], toPort, toIp)
  }

  /** Every item of every fragment can be corrected. */
  ghost predicate AllPortsAreInts(c: map<Node, seq<ConnectionItem>>)
  {
    forall n, it :: Holds(c, n, it) ==> PortsAreInts(it.args)
  }

  /** Some item reads `index_to_port_map_[i]`. */
  ghost predicate ReadsPort(c: map<Node, seq<ConnectionItem>>, i: int)
  {
    exists n, it :: Holds(c, n, it) && Arg("port", IntArg(i)) in it.args
  }

  /** Some item reads `index_to_ip_map_[i]`. */
  ghost predicate ReadsIp(c: map<Node, seq<ConnectionItem>>, i: int)
  {
    exists n, it :: Holds(c, n, it) && HasAddress(it.args) && PortIndex(it.args) == i
  }

  /** `after` reads like `before`: it keeps every entry and adds only entries holding `d`. */
  predicate Extends<V(==)>(before: map<int, V>, after: map<int, V>, d: V)
  {
    && (forall i :: i in before ==> i in after && after[i] == before[i])
    && (forall i :: i in after && i !in before ==> after[i] == d)
  }

  /** An argument after the address pass: an address argument holds `ip`. */
  function AddressPassed(a: Arg, ip: string): Arg
  {
    if IsAddress(a) then Arg(a.name, StringArg(ip)) else a
  }

  /**
   * The port pass of `correct_connection_map` over one item's arguments: each "port"
   * argument's index is replaced by its port and remembered. A "port" argument that does not
   * hold an integer stops the pass (`ok` is false).
   */
  method PassPorts(args: seq<Arg>, toPort: map<int, int>)
    returns (ok: bool, args': seq<Arg>, index: int, toPort': map<int, int>)
    ensures ok <==> PortsAreInts(args)
    ensures Extends(toPort, toPort', 0)
    ensures ok ==> index == PortIndex(args)
    ensures ok ==> |args'| == |args| && forall k :: 0 <= k < |args| ==> args'[k] == PortPassed(args[k], toPort)
    ensures ok ==> Extends(toPort, toPort', 0) && forall i :: i in toPort' <==> i in toPort || Arg("port", IntArg(i)) in args
  {
    args' := args;
    index := -1;
    toPort' := toPort;
    var j := 0;
    while j < |args'|
      invariant 0 <= j <= |args'| == |args|
      invariant PortsAreInts(args[..j]) && index == PortIndex(args[..j])
      invariant forall k :: 0 <= k < j ==> args'[k] == PortPassed(args[k], toPort)
      invariant forall k :: j <= k < |args'| ==> args'[k] == args[k]
      invariant Extends(toPort, toPort', 0)
      invariant forall i :: i in toPort' <==> i in toPort || Arg("port", IntArg(i)) in args[..j]
    {
      assert args[..j + 1] == args[..j] + [args[j]];
      var a := args'[j];
      if IsPort(a) {
        if !a.value.IntArg? {
          assert !PortsAreInts(args) by { assert a in args; }
          return false, args', index, toPort';
        }
        index := a.value.i;
        args' := args'[j := Arg(a.name, IntArg(PortOf(toPort', index)))];
        toPort' := Touched(toPort', index, 0);
      }
      j := j + 1;
    }
    assert args[..j] == args;
    ok := true;
  }

  /**
   * The address pass of `correct_connection_map` over one item's arguments: every address
   * argument gets the address of port index `index`.
   */
  method PassAddresses(args: seq<Arg>, index: int, toIp: map<int, string>)
    returns (args': seq<Arg>, toIp': map<int, string>)
    ensures |args'| == |args| && forall k :: 0 <= k < |args| ==> args'[k] == AddressPassed(args[k], IpOf(toIp, index))
    ensures toIp' == if HasAddress(args) then Touched(toIp, index, "") else toIp
  {
    args' := args;
    toIp' := toIp;
    var j := 0;
    while j < |args'|
      invariant 0 <= j <= |args'| == |args|
      invariant forall k :: 0 <= k < j ==> args'[k] == AddressPassed(args[k], IpOf(toIp, index))
      invariant forall k :: j <= k < |args'| ==> args'[k] == args[k]
      invariant toIp' == if HasAddress(args[..j]) then Touched(toIp, index, "") else toIp
    {
      assert args[..j + 1] == args[..j] + [args[j]];
      var a := args'[j];
      if IsAddress(a) {
        args' := args'[j := Arg(a.name, StringArg(IpOf(toIp', index)))];
        toIp' := Touched(toIp', index, "");
        assert args[j] in args[..j + 1];
      }
      j := j + 1;
    }
    assert args[..j] == args;
  }

  /**
   * `correct_connection_map` on one item: the port pass and then the address pass. When a
   * "port" argument does not hold an integer the correction stops (`ok` is false); what was
   * rewritten before it stays rewritten.
   */
  method CorrectItem(it: ConnectionItem, toPort: map<int, int>, toIp: map<int, string>)
    returns (ok: bool, r: ConnectionItem, toPort': map<int, int>, toIp': map<int, string>)
    ensures ok <==> PortsAreInts(it.args)
    ensures Extends(toPort, toPort', 0) && Extends(toIp, toIp', "")
    ensures ok ==> r == CorrectedItem(it, toPort, toIp)
    ensures ok ==> Extends(toPort, toPort', 0) && forall i :: i in toPort' <==> i in toPort || Arg("port", IntArg(i)) in it.args
    ensures ok ==> toIp' == if HasAddress(it.args) then Touched(toIp, PortIndex(it.args), "") else toIp
  {
    var ported, index;
    ok, ported, index, toPort' := PassPorts(it.args, toPort);
    if !ok {
      return false, it.(args := ported), toPort', toIp;
    }
    var args;
    args, toIp' := PassAddresses(ported, index, toIp);
    r := it.(args := args);
    forall k | 0 <= k < |it.args| ensures args[k] == Rewritten(it.args[k], toPort, IpOf(toIp, index)) {
      assert IsAddress(ported[k]) == IsAddress(it.args[k]);
    }
    assert HasAddress(ported) == HasAddress(it.args) by {
      if HasAddress(it.args) {
        var a :| a in it.args && IsAddress(a);
        var k :| 0 <= k < |it.args| && it.args[k] == a;
        assert ported[k] in ported;
      }
      if HasAddress(ported) {
        var a :| a in ported && IsAddress(a);
        var k :| 0 <= k < |ported| && ported[k] == a;
        assert it.args[k] in it.args;
      }
    }
  }

  /** Every item of `items` can be corrected. */
  predicate ItemsPortsAreInts(items: seq<ConnectionItem>)
  {
    forall it :: it in items ==> PortsAreInts(it.args)
  }

  /**
   * `correct_connection_map` on the items of one fragment, in order. An item with a "port"
   * argument that does not hold an integer stops the pass (`ok` is false); the items before it
   * stay corrected.
   */
  method CorrectList(items: seq<ConnectionItem>, toPort: map<int, int>, toIp: map<int, string>)
    returns (ok: bool, items': seq<ConnectionItem>, toPort': map<int, int>, toIp': map<int, string>)
    ensures ok <==> ItemsPortsAreInts(items)
    ensures |items'| == |items| && Extends(toPort, toPort', 0) && Extends(toIp, toIp', "")
    ensures ok ==> items' == CorrectedItems(items, toPort, toIp)
  {
    items', toPort', toIp' := items, toPort, toIp;
    var j := 0;
    while j < |items|
      invariant 0 <= j <= |items| == |items'|
      invariant forall k :: 0 <= k < j ==> PortsAreInts(items[k].args)
      invariant forall k :: 0 <= k < j ==> items'[k] == CorrectedItem(items[k], toPort, toIp)
      invariant forall k :: j <= k < |items| ==> items'[k] == items[k]
      invariant Extends(toPort, toPort', 0) && Extends(toIp, toIp', "")
    {
      var okj, r, p, i := CorrectItem(items[j], toPort', toIp');
      items', toPort', toIp' := items'[j := r], p, i;
      if !okj {
        assert items[j] in items;
        return false, items', toPort', toIp';
      }
      ExtendsReads(toPort, toPort', toIp, toIp', items[j]);
      j := j + 1;
    }
    forall it | it in items ensures PortsAreInts(it.args) {
      var k :| 0 <= k < |items| && items[k] == it;
    }
    ok := true;
  }

  /**
   * The fragments not in `todo` have their items corrected as `t0`'s tables say, those in
   * `todo` not yet; the tables only gained default entries.
   */
  ghost predicate CorrectedBut(t0: Tables, t: Tables, todo: set<Node>)
  {
    && todo <= t0.connections.Keys == t.connections.Keys && t.receivers == t0.receivers
    && Extends(t0.indexToPort, t.indexToPort, 0) && Extends(t0.indexToIp, t.indexToIp, "")
    && (forall n :: n in t0.connections && n !in todo ==>
          ItemsPortsAreInts(t0.connections[n])
          && t.connections[n] == CorrectedItems(t0.connections[n], t0.indexToPort, t0.indexToIp))
    && (forall n :: n in todo ==> t.connections[n] == t0.connections[n])
  }

  /** Correcting the items of one more fragment `n` with the current tables keeps `CorrectedBut`. */
  lemma CorrectedStep(t0: Tables, t: Tables, todo: set<Node>, n: Node, items: seq<ConnectionItem>,
                      toPort: map<int, int>, toIp: map<int, string>)
    requires CorrectedBut(t0, t, todo) && n in todo
    requires ItemsPortsAreInts(t.connections[n]) && items == CorrectedItems(t.connections[n], t.indexToPort, t.indexToIp)
    requires Extends(t.indexToPort, toPort, 0) && Extends(t.indexToIp, toIp, "")
    ensures CorrectedBut(t0, t.(connections := t.connections[n := items], indexToPort := toPort, indexToIp := toIp), todo - {n})
  {
    forall j | 0 <= j < |items| ensures items[j] == CorrectedItem(t0.connections[n][j], t0.indexToPort, t0.indexToIp) {
      ExtendsReads(t0.indexToPort, t.indexToPort, t0.indexToIp, t.indexToIp, t0.connections[n][j]);
    }
  }

  /**
   * `correct_connection_map`: every item of every fragment has its port indices replaced by
   * the ports, and its addresses by the address, the tables hold for its index; the fragments
   * are taken in any order. An item whose "port" argument does not hold an integer stops the
   * pass (`ok` is false) with what was corrected before it left corrected. Reading an index
   * the tables lack adds it with port 0 or address "".
   */
  method CorrectTables(t: Tables) returns (ok: bool, t': Tables)
    ensures ok <==> AllPortsAreInts(t.connections)
    ensures ok ==> t'.connections == CorrectedMap(t.connections, t.indexToPort, t.indexToIp)
    ensures t'.connections.Keys == t.connections.Keys && t'.receivers == t.receivers
    ensures Extends(t.indexToPort, t'.indexToPort, 0) && Extends(t.indexToIp, t'.indexToIp, "")
  {
    t' := t;
    var todo := t.connections.Keys;
    while todo != {}
      invariant CorrectedBut(t, t', todo)
      decreases todo
    {
      var n :| n in todo;
      var okn, items, toPort, toIp := CorrectList(t'.connections[n], t'.indexToPort, t'.indexToIp);
      if !okn {
        assert !AllPortsAreInts(t.connections) by {
          var it :| it in t.connections[n] && !PortsAreInts(it.args);
          assert Holds(t.connections, n, it);
        }
        return false, t'.(connections := t'.connections[n := items], indexToPort := toPort, indexToIp := toIp);
      }
      CorrectedStep(t, t', todo, n, items, toPort, toIp);
      t' := t'.(connections := t'.connections[n := items], indexToPort := toPort, indexToIp := toIp);
      todo := todo - {n};
    }
    ok := true;
    forall m, it | Holds(t.connections, m, it) ensures PortsAreInts(it.args) {
      assert ItemsPortsAreInts(t.connections[m]);
    }
  }

  /** Entries added with the default value read as the default did: the correction is the same. */
  lemma ExtendsReads(toPort: map<int, int>, toPort': map<int, int>, toIp: map<int, string>, toIp': map<int, string>,
                     it: ConnectionItem)
    requires Extends(toPort, toPort', 0) && Extends(toIp, toIp', "")
    ensures CorrectedItem(it, toPort', toIp') == CorrectedItem(it, toPort, toIp)
  {
    assert forall i :: PortOf(toPort', i) == PortOf(toPort, i);
    assert forall i :: IpOf(toIp', i) == IpOf(toIp, i);
  }

  /**
   * After correction, the sending item of connection `i` addresses the receiver's address and
   * port for index `i`, and the receiving item listens on them.
   */
  lemma CorrectedEndpoints(portName: string, i: int, toPort: map<int, int>, toIp: map<int, string>)
    ensures CorrectedItem(SourceItem(portName, i), toPort, toIp)
            == ConnectionItem(portName, OutputPort, [Arg("receiver_address", StringArg(IpOf(toIp, i))), Arg("port", IntArg(PortOf(toPort, i)))])
    ensures CorrectedItem(TargetItem(portName, i), toPort, toIp)
            == ConnectionItem(portName, InputPort, [Arg("address", StringArg(IpOf(toIp, i))), Arg("port", IntArg(PortOf(toPort, i)))])
  {
    var s := SourceItem(portName, i);
    var t := TargetItem(portName, i);
    assert s.args[..1] == [s.args[0]];
    assert t.args[..1] == [t.args[0]];
    assert PortIndex(s.args) == i && PortIndex(t.args) == i;
  }

  /** The items the connection tables record can always be corrected: their ports hold indices. */
  lemma LedgerPortsAreInts(links: seq<Link>)
    ensures AllPortsAreInts(Ledger(NoTables, links, 0).connections)
  {
    var c := Ledger(NoTables, links, 0).connections;
    LedgerItems(links);
    forall n, it | Holds(c, n, it) ensures PortsAreInts(it.args) {
      assert Connects(links, n, it);
    }
  }

  /** A fragment holds a corrected item exactly when it held the item before correction. */
  lemma CorrectedHolds(c: map<Node, seq<ConnectionItem>>, toPort: map<int, int>, toIp: map<int, string>, n: Node, it: ConnectionItem)
    requires Holds(c, n, it)
    ensures Holds(CorrectedMap(c, toPort, toIp), n, CorrectedItem(it, toPort, toIp))
  {
    var j :| 0 <= j < |c[n]| && c[n][j] == it;
    assert CorrectedMap(c, toPort, toIp)[n][j] == CorrectedItem(it, toPort, toIp);
  }

  /** Every corrected item comes from an item held before. */
  lemma CorrectedFrom(c: map<Node, seq<ConnectionItem>>, toPort: map<int, int>, toIp: map<int, string>, n: Node, it': ConnectionItem)
    requires Holds(CorrectedMap(c, toPort, toIp), n, it')
    ensures exists it :: Holds(c, n, it) && it' == CorrectedItem(it, toPort, toIp)
  {
    var r := CorrectedMap(c, toPort, toIp);
    var j :| 0 <= j < |r[n]| && r[n][j] == it';
    assert Holds(c, n, c[n][j]);
  }

  /**
   * After the connection tables are recorded from `links` and corrected, fragment `n` holds, for
   * every link out of it, a sending item carrying the address and port of that link's index,
   * and for every link into it, the matching receiving item.
   */
  lemma CorrectedLedger(links: seq<Link>, toPort: map<int, int>, toIp: map<int, string>, i: int)
    requires 0 <= i < |links|
    ensures var c := CorrectedMap(Ledger(NoTables, links, 0).connections, toPort, toIp);
            var l := links[i];
            && Holds(c, l.source, ConnectionItem(l.sourceLabel, OutputPort,
                      [Arg("receiver_address", StringArg(IpOf(toIp, i))), Arg("port", IntArg(PortOf(toPort, i)))]))
            && Holds(c, l.target, ConnectionItem(l.targetLabel, InputPort,
                      [Arg("address", StringArg(IpOf(toIp, i))), Arg("port", IntArg(PortOf(toPort, i)))]))
  {
    var l := links[i];
    LedgerItems(links);
    var c0 := Ledger(NoTables, links, 0).connections;
    assert Carries(links[i], i, l.source, SourceItem(l.sourceLabel, i));
    assert Carries(links[i], i, l.target, TargetItem(l.targetLabel, i));
    assert Connects(links, l.source, SourceItem(l.sourceLabel, i));
    assert Connects(links, l.target, TargetItem(l.targetLabel, i));
    CorrectedLink(c0, l, i, toPort, toIp);
  }

  lemma CorrectedLink(c0: map<Node, seq<ConnectionItem>>, l: Link, i: int, toPort: map<int, int>, toIp: map<int, string>)
    requires Holds(c0, l.source, SourceItem(l.sourceLabel, i)) && Holds(c0, l.target, TargetItem(l.targetLabel, i))
    ensures var c := CorrectedMap(c0, toPort, toIp);
            && Holds(c, l.source, ConnectionItem(l.sourceLabel, OutputPort,
                      [Arg("receiver_address", StringArg(IpOf(toIp, i))), Arg("port", IntArg(PortOf(toPort, i)))]))
            && Holds(c, l.target, ConnectionItem(l.targetLabel, InputPort,
                      [Arg("address", StringArg(IpOf(toIp, i))), Arg("port", IntArg(PortOf(toPort, i)))]))
  {
    CorrectedHolds(c0, toPort, toIp, l.source, SourceItem(l.sourceLabel, i));
    CorrectedHolds(c0, toPort, toIp, l.target, TargetItem(l.targetLabel, i));
    CorrectedEndpoints(l.sourceLabel, i, toPort, toIp);
    CorrectedEndpoints(l.targetLabel, i, toPort, toIp);
  }
}
