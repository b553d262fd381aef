/**
 * The generic flow graph shared by operator graphs (inside a fragment) and the fragment
 * graph (inside an application): nodes in insertion order, a name index, and successor and
 * predecessor maps whose entries for one edge share a single port-map object.
 *
 * The successor map entry `succ[u][v]` and the predecessor map entry `pred[v][u]` of an edge
 * point to one port-map object. Here the adjacency maps record which neighbours a node has
 * and `ports[(u, v)]` is that shared object: an edge's two entries always see the same port
 * map, and no two edges share one.
 */
module Graphs {
  import opened Wrappers

  /**
   * A node of a flow graph: an operator or a fragment, reached through a shared pointer.
   * `id` stands for the pointer's identity and `name` for the node's name when it was added.
   */
  datatype Node = Node(id: nat, name: string)

  /** The data of one edge: each source port label maps to the set of its destination labels. */
  type PortMap = map<string, set<string>>

  datatype GraphError = DuplicateName(name: string)

  /**
   * What `insert` of every entry of `m` into `ports` leaves: a label already present keeps
   * its old destinations, a new label brings its own.
   */
  function InsertAll(ports: PortMap, m: PortMap): (r: PortMap)
    ensures r.Keys == ports.Keys + m.Keys
    ensures forall k :: k in ports ==> r[k] == ports[k]
    ensures forall k :: k in m && k !in ports ==> r[k] == m[k]
  {
    map k | k in ports.Keys + m.Keys :: if k in ports then ports[k] else m[k]
  }

  /** The node list after registering `n`: unchanged when `n` is there already. */
  function With(nodes: seq<Node>, n: Node): (r: seq<Node>)
    ensures n in r && Elements(r) == Elements(nodes) + {n}
    ensures NoDuplicates(nodes) ==> NoDuplicates(r)
  {
    if n in nodes then nodes else nodes + [n]
  }

  /** Whether `n` may be registered among `nodes`: it is there already or no node has its name. */
  predicate Admits(nodes: seq<Node>, n: Node)
  {
    n in nodes || forall m :: m in nodes ==> m.name != n.name
  }

  /** The name index that registering `nodes` one after the other builds. */
  function NameIndex(nodes: seq<Node>): map<string, Node>
  {
    if nodes == [] then map[]
    else NameIndex(nodes[..|nodes| - 1])[nodes[|nodes| - 1].name := nodes[|nodes| - 1]]
  }

  /** Each node, when it was registered, had a name no earlier node had. */
  predicate UniqueNames(nodes: seq<Node>)
  {
    nodes == [] ||
    (UniqueNames(nodes[..|nodes| - 1]) && nodes[|nodes| - 1].name !in NameIndex(nodes[..|nodes| - 1]))
  }

  /** With unique names, every node is found under its own name. */
  lemma {:induction false} IndexOfMember(nodes: seq<Node>, n: Node)
    requires UniqueNames(nodes) && n in nodes
    ensures n.name in NameIndex(nodes) && NameIndex(nodes)[n.name] == n
  {
    var init, last := nodes[..|nodes| - 1], nodes[|nodes| - 1];
    if n != last {
      assert n in init by {
        var i :| 0 <= i < |nodes| && nodes[i] == n;
        assert init[i] == n;
      }
      IndexOfMember(init, n);
    }
  }

  /** Every entry of the name index is a registered node carrying that name. */
  lemma {:induction false} MemberOfIndex(nodes: seq<Node>, s: string)
    requires s in NameIndex(nodes)
    ensures NameIndex(nodes)[s] in nodes && NameIndex(nodes)[s].name == s
  {
    var init, last := nodes[..|nodes| - 1], nodes[|nodes| - 1];
    if s != last.name {
      MemberOfIndex(init, s);
      assert NameIndex(init)[s] in nodes by {
        var i :| 0 <= i < |init| && init[i] == NameIndex(init)[s];
        assert nodes[i] == init[i];
      }
    }
  }

  /** Unique names make a list without repetitions: no node is listed twice. */
  lemma {:induction false} UniqueNamesNoDuplicates(nodes: seq<Node>)
    requires UniqueNames(nodes)
    ensures NoDuplicates(nodes)
  {
    if nodes != [] {
      var init, last := nodes[..|nodes| - 1], nodes[|nodes| - 1];
      UniqueNamesNoDuplicates(init);
      forall m | m in init ensures m != last {
        IndexOfMember(init, m);
      }
      forall i, j | 0 <= i < j < |nodes| ensures nodes[i] != nodes[j] {
        if j < |nodes| - 1 {
          assert nodes[i] == init[i] && nodes[j] == init[j];
        } else {
          assert nodes[i] in init by { assert init[i] == nodes[i]; }
        }
      }
    }
  }

  /** Appending a node whose name is new keeps the names unique and extends the index by it. */
  lemma AppendFresh(nodes: seq<Node>, n: Node)
    requires UniqueNames(nodes) && n.name !in NameIndex(nodes)
    ensures UniqueNames(nodes + [n])
    ensures NameIndex(nodes + [n]) == NameIndex(nodes)[n.name := n]
  {
    assert (nodes + [n])[..|nodes|] == nodes;
  }

  /** Successor or predecessor map: for each node, the set of its neighbours. */
  type Adjacency = map<Node, set<Node>>

  /**
   * The state of a flow graph as a value: successor and predecessor maps, the nodes in
   * insertion order, the name index and the port map of each edge.
   */
  datatype Graph = Graph(succ: Adjacency, pred: Adjacency, nodes: seq<Node>,
                         names: map<string, Node>, ports: map<(Node, Node), PortMap>)

  /** Whether the adjacency map records `v` as a neighbour of `u`. */
  predicate Edge(adj: Adjacency, u: Node, v: Node)
  {
    u in adj && v in adj[u]
  }

  /** Whether `g` has an edge u -> v. */
  predicate HasEdgeIn(g: Graph, u: Node, v: Node)
  {
    Edge(g.succ, u, v)
  }

  /** `succ` and `pred` list the same nodes and every edge has its port map. */
  ghost predicate WellFormed(g: Graph)
  {
    && g.succ.Keys == g.pred.Keys
    && forall u, v :: Edge(g.succ, u, v) ==> (u, v) in g.ports
  }

  /**
   * `pred` is the transpose of `succ` over the same nodes, every edge joins two nodes of the
   * graph, and the port maps are exactly those of the edges.
   */
  ghost predicate Linked(succ: Adjacency, pred: Adjacency, ports: map<(Node, Node), PortMap>)
  {
    && pred.Keys == succ.Keys
    && (forall u, v :: Edge(succ, u, v) ==> v in succ && Edge(pred, v, u) && (u, v) in ports)
    && (forall v, u :: Edge(pred, v, u) ==> Edge(succ, u, v))
    && (forall e :: e in ports ==> Edge(succ, e.0, e.1))
  }

  /** The graph invariant: every node is listed once, in `succ` and `pred`, and under its name; the maps are linked. */
  ghost predicate Inv(g: Graph)
  {
    && UniqueNames(g.nodes)
    && g.names == NameIndex(g.nodes)
    && (forall n :: n in g.succ <==> n in g.nodes)
    && Linked(g.succ, g.pred, g.ports)
  }

  /** The invariant implies the weaker shape the operations need. */
  lemma InvWellFormed(g: Graph)
    requires Inv(g)
    ensures WellFormed(g)
  {
    forall u, v | Edge(g.succ, u, v) ensures (u, v) in g.ports {
    }
  }

  /** A node added with no neighbours keeps the maps linked and adds no edge. */
  lemma AddIsolated(succ: Adjacency, pred: Adjacency, ports: map<(Node, Node), PortMap>, n: Node)
    requires Linked(succ, pred, ports) && n !in succ
    ensures Linked(succ[n := {}], pred[n := {}], ports)
    ensures forall u, v :: Edge(succ[n := {}], u, v) <==> Edge(succ, u, v)
  {
    var succ', pred' := succ[n := {}], pred[n := {}];
    forall u, v ensures Edge(succ', u, v) <==> Edge(succ, u, v) {
    }
    forall u, v | Edge(succ', u, v) ensures v in succ' && Edge(pred', v, u) && (u, v) in ports {
      assert Edge(succ, u, v);
    }
    forall v, u | Edge(pred', v, u) ensures Edge(succ', u, v) {
      assert Edge(pred, v, u);
    }
    forall e | e in ports ensures Edge(succ', e.0, e.1) {
      assert Edge(succ, e.0, e.1);
    }
  }

  /** Recording the edge u -> v in both maps, with its port map, keeps the maps linked. */
  lemma AddEdge(succ: Adjacency, pred: Adjacency, ports: map<(Node, Node), PortMap>, u: Node, v: Node, m: PortMap)
    requires Linked(succ, pred, ports) && u in succ && v in succ
    ensures Linked(succ[u := succ[u] + {v}], pred[v := pred[v] + {u}], ports[(u, v) := m])
    ensures forall a, b :: Edge(succ[u := succ[u] + {v}], a, b) <==> Edge(succ, a, b) || (a == u && b == v)
  {
    var succ', pred', ports' := succ[u := succ[u] + {v}], pred[v := pred[v] + {u}], ports[(u, v) := m];
    forall a, b ensures Edge(succ', a, b) <==> Edge(succ, a, b) || (a == u && b == v) {
    }
    forall a, b | Edge(succ', a, b) ensures b in succ' && Edge(pred', b, a) && (a, b) in ports' {
      if a != u || b != v {
        assert Edge(succ, a, b);
      }
    }
    forall b, a | Edge(pred', b, a) ensures Edge(succ', a, b) {
      if a != u || b != v {
        assert Edge(pred, b, a);
      }
    }
    forall e | e in ports' ensures Edge(succ', e.0, e.1) {
      if e != (u, v) {
        assert Edge(succ, e.0, e.1);
      }
    }
  }

  /** Replacing the port map of an existing edge keeps the maps linked. */
  lemma UpdatePorts(succ: Adjacency, pred: Adjacency, ports: map<(Node, Node), PortMap>, u: Node, v: Node, m: PortMap)
    requires Linked(succ, pred, ports) && Edge(succ, u, v)
    ensures Linked(succ, pred, ports[(u, v) := m])
  {
    forall e | e in ports[(u, v) := m] ensures Edge(succ, e.0, e.1) {
      if e != (u, v) {
        assert e in ports;
      }
    }
  }

  /** The result of one step that may throw: the new state and the outcome. */
  datatype Step = Step(g: Graph, r: Outcome<GraphError>)

  /**
   * The registration step shared by `add_node` and `add_flow`: a node already present is
   * left alone, a new node whose name is taken is refused with `kDuplicateName`, and any
   * other node gets empty successor and predecessor maps, the next place in the node list
   * and an entry in the name index.
   */
  function Registering(g: Graph, n: Node): (s: Step)
    ensures WellFormed(g) ==> WellFormed(s.g)
    ensures s.r.Pass? ==> n in s.g.succ
    ensures g.succ.Keys <= s.g.succ.Keys
  {
    if n in g.succ then Step(g, Pass)
    else if n.name in g.names then Step(g, Fail(DuplicateName(n.name)))
    else Step(Graph(g.succ[n := {}], g.pred[n := {}], g.nodes + [n], g.names[n.name := n], g.ports), Pass)
  }

  /**
   * The edge step of `add_flow` once both endpoints are registered: the entries of `m` are
   * inserted into the edge's port map, which is created empty first when there is no edge
   * u -> v, and the edge is recorded at both `succ[u]` and `pred[v]`.
   */
  function Connecting(g: Graph, u: Node, v: Node, m: PortMap): (h: Graph)
    requires WellFormed(g) && u in g.succ && v in g.succ
    ensures WellFormed(h)
  {
    var current := if v in g.succ[u] then g.ports[(u, v)] else map[];
    g.(succ := g.succ[u := g.succ[u] + {v}], pred := g.pred[v := g.pred[v] + {u}],
       ports := g.ports[(u, v) := InsertAll(current, m)])
  }

  /** `add_flow(u, v, portMap)` on a graph value: register u, then v, then connect them. */
  function Flowing(g: Graph, nodeU: Option<Node>, nodeV: Option<Node>, portMap: Option<PortMap>): (s: Step)
    requires WellFormed(g)
    ensures WellFormed(s.g)
  {
    if nodeU.None? then Step(g, Pass)
    else
      var s1 := Registering(g, nodeU.value);
      if s1.r.Fail? || nodeV.None? then s1
      else
        var s2 := Registering(s1.g, nodeV.value);
        if s2.r.Fail? then s2
        else Step(Connecting(s2.g, nodeU.value, nodeV.value, if portMap.Some? then portMap.value else map[]), Pass)
  }

  /** Whether `add_flow(u, v, _)` reaches the edge: both endpoints non-null and admitted in turn. */
  predicate Links(nodes: seq<Node>, nodeU: Option<Node>, nodeV: Option<Node>)
  {
    nodeU.Some? && nodeV.Some? && Admits(nodes, nodeU.value) && Admits(With(nodes, nodeU.value), nodeV.value)
  }

  /** The nodes `add_flow(u, v, _)` leaves registered: it stops at a null endpoint or a duplicate name. */
  function Registered(nodes: seq<Node>, nodeU: Option<Node>, nodeV: Option<Node>): seq<Node>
  {
    if nodeU.None? || !Admits(nodes, nodeU.value) then nodes
    else if nodeV.None? || !Admits(With(nodes, nodeU.value), nodeV.value) then With(nodes, nodeU.value)
    else With(With(nodes, nodeU.value), nodeV.value)
  }

  /** What `add_flow(u, v, _)` reports: the first duplicate name it meets, if any. */
  function FlowOutcome(nodes: seq<Node>, nodeU: Option<Node>, nodeV: Option<Node>): Outcome<GraphError>
  {
    if nodeU.None? then Pass
    else if !Admits(nodes, nodeU.value) then Fail(DuplicateName(nodeU.value.name))
    else if nodeV.Some? && !Admits(With(nodes, nodeU.value), nodeV.value) then Fail(DuplicateName(nodeV.value.name))
    else Pass
  }

  /**
   * Registration keeps the invariant, admits exactly the nodes of the name rule (a node
   * already present, or one whose name is free), reports a refused name, and appends an
   * admitted new node.
   */
  lemma RegisteringKeepsInv(g: Graph, n: Node)
    requires Inv(g)
    ensures var s := Registering(g, n);
      && Inv(s.g)
      && (s.r.Pass? <==> Admits(g.nodes, n))
      && (s.r.Fail? ==> s.r.error == DuplicateName(n.name))
      && s.g.nodes == (if s.r.Pass? then With(g.nodes, n) else g.nodes)
  {
    if n in g.succ {
    } else if n.name in g.names {
      MemberOfIndex(g.nodes, n.name);
    } else {
      assert Admits(g.nodes, n) by {
        forall m | m in g.nodes ensures m.name != n.name {
          IndexOfMember(g.nodes, m);
        }
      }
      AppendFresh(g.nodes, n);
      AddIsolated(g.succ, g.pred, g.ports, n);
    }
  }

  /**
   * Registering a node already present changes nothing, a refused name leaves the graph as it
   * was, and a fresh node is appended last, indexed under its name and given no neighbours.
   */
  lemma RegisteringNode(g: Graph, n: Node)
    requires Inv(g)
    ensures var s := Registering(g, n);
      && (n in g.nodes ==> s == Step(g, Pass))
      && (s.r.Fail? ==> s.g == g)
      && (s.r.Pass? && n !in g.nodes ==>
            && s.g.nodes == g.nodes + [n]
            && n.name in s.g.names && s.g.names[n.name] == n
            && s.g.succ[n] == {} && s.g.pred[n] == {})
  {
  }

  /** `pred` is the transpose of `succ`: u -> v is an edge exactly when u is a predecessor of v. */
  lemma Transpose(g: Graph, u: Node, v: Node)
    requires Inv(g)
    ensures Edge(g.succ, u, v) <==> Edge(g.pred, v, u)
    ensures Edge(g.succ, u, v) ==> u in g.nodes && v in g.nodes
  {
  }

  /** Registration adds or changes no edge and no port map. */
  lemma RegisteringKeepsEdges(g: Graph, n: Node)
    ensures var s := Registering(g, n);
      && s.g.ports == g.ports
      && forall a, b :: HasEdgeIn(s.g, a, b) <==> HasEdgeIn(g, a, b)
  {
    var s := Registering(g, n);
    forall a, b ensures HasEdgeIn(s.g, a, b) <==> HasEdgeIn(g, a, b) {
    }
  }

  /** Connecting keeps the invariant and the node list. */
  lemma ConnectingKeepsInv(g: Graph, u: Node, v: Node, m: PortMap)
    requires Inv(g) && u in g.succ && v in g.succ
    ensures WellFormed(g)
    ensures Inv(Connecting(g, u, v, m))
    ensures Connecting(g, u, v, m).nodes == g.nodes
  {
    InvWellFormed(g);
    var current := if v in g.succ[u] then g.ports[(u, v)] else map[];
    AddEdge(g.succ, g.pred, g.ports, u, v, InsertAll(current, m));
  }

  /**
   * Connecting adds exactly the edge u -> v, merges `m` into its port map without overwriting
   * a label already there, and leaves the port map of every other edge.
   */
  lemma ConnectingEdges(g: Graph, u: Node, v: Node, m: PortMap)
    requires WellFormed(g) && u in g.succ && v in g.succ
    ensures var h := Connecting(g, u, v, m);
      && (forall a, b :: HasEdgeIn(h, a, b) <==> HasEdgeIn(g, a, b) || (a == u && b == v))
      && h.ports[(u, v)] == InsertAll(if HasEdgeIn(g, u, v) then g.ports[(u, v)] else map[], m)
      && forall e :: e in g.ports && e != (u, v) ==> e in h.ports && h.ports[e] == g.ports[e]
  {
    var h := Connecting(g, u, v, m);
    forall a, b ensures HasEdgeIn(h, a, b) <==> HasEdgeIn(g, a, b) || (a == u && b == v) {
    }
  }

  /** `add_flow` keeps the graph invariant. */
  lemma FlowingKeepsInv(g: Graph, nodeU: Option<Node>, nodeV: Option<Node>, portMap: Option<PortMap>)
    requires Inv(g)
    ensures WellFormed(g)
    ensures Inv(Flowing(g, nodeU, nodeV, portMap).g)
  {
    InvWellFormed(g);
    var s := Flowing(g, nodeU, nodeV, portMap);
    if nodeU.Some? {
      var u := nodeU.value;
      var s1 := Registering(g, u);
      RegisteringKeepsInv(g, u);
      if s1.r.Fail? || nodeV.None? {
        assert s == s1;
      } else {
        var v := nodeV.value;
        var s2 := Registering(s1.g, v);
        RegisteringKeepsInv(s1.g, v);
        if s2.r.Fail? {
          assert s == s2;
        } else {
          var m := if portMap.Some? then portMap.value else map[];
          ConnectingKeepsInv(s2.g, u, v, m);
          assert s.g == Connecting(s2.g, u, v, m);
        }
      }
    }
  }

  /**
   * `add_flow` registers u and then v, stops at a null endpoint or at the first duplicate name
   * and reports that name.
   */
  lemma FlowingOutcome(g: Graph, nodeU: Option<Node>, nodeV: Option<Node>, portMap: Option<PortMap>)
    requires Inv(g)
    ensures WellFormed(g)
    ensures Flowing(g, nodeU, nodeV, portMap).r == FlowOutcome(g.nodes, nodeU, nodeV)
    ensures Flowing(g, nodeU, nodeV, portMap).g.nodes == Registered(g.nodes, nodeU, nodeV)
  {
    InvWellFormed(g);
    var s := Flowing(g, nodeU, nodeV, portMap);
    if nodeU.Some? {
      var u := nodeU.value;
      var s1 := Registering(g, u);
      RegisteringKeepsInv(g, u);
      if s1.r.Fail? || nodeV.None? {
        assert s == s1;
      } else {
        var v := nodeV.value;
        var s2 := Registering(s1.g, v);
        RegisteringKeepsInv(s1.g, v);
        if s2.r.Fail? {
          assert s == s2;
        } else {
          var m := if portMap.Some? then portMap.value else map[];
          assert s.g == Connecting(s2.g, u, v, m);
        }
      }
    }
  }

  /**
   * `add_flow` adds the edge u -> v exactly when both endpoints are registered and no other
   * edge; it then inserts `portMap` into the edge's port map, keeping any label already there,
   * and leaves every other edge's port map.
   */
  lemma FlowingEdges(g: Graph, nodeU: Option<Node>, nodeV: Option<Node>, portMap: Option<PortMap>)
    requires Inv(g)
    ensures WellFormed(g)
    ensures var h := Flowing(g, nodeU, nodeV, portMap).g;
      var linked := Links(g.nodes, nodeU, nodeV);
      && (forall a, b :: HasEdgeIn(h, a, b) <==>
            HasEdgeIn(g, a, b) || (linked && a == nodeU.value && b == nodeV.value))
      && (forall e :: e in g.ports && !(linked && e == (nodeU.value, nodeV.value)) ==>
            e in h.ports && h.ports[e] == g.ports[e])
      && (linked ==>
            (nodeU.value, nodeV.value) in h.ports &&
            h.ports[(nodeU.value, nodeV.value)] ==
              InsertAll(if HasEdgeIn(g, nodeU.value, nodeV.value) then g.ports[(nodeU.value, nodeV.value)] else map[],
                        if portMap.Some? then portMap.value else map[]))
  {
    InvWellFormed(g);
    var s := Flowing(g, nodeU, nodeV, portMap);
    if nodeU.Some? {
      var u := nodeU.value;
      var s1 := Registering(g, u);
      RegisteringKeepsInv(g, u);
      RegisteringKeepsEdges(g, u);
      if s1.r.Fail? || nodeV.None? {
        assert s == s1;
      } else {
        var v := nodeV.value;
        var s2 := Registering(s1.g, v);
        RegisteringKeepsInv(s1.g, v);
        RegisteringKeepsEdges(s1.g, v);
        if s2.r.Fail? {
          assert s == s2;
        } else {
          var m := if portMap.Some? then portMap.value else map[];
          ConnectingEdges(s2.g, u, v, m);
          assert s.g == Connecting(s2.g, u, v, m);
        }
      }
    }
  }

  /** Inserts the entries of `m` into `ports` one by one, skipping labels already present. */
  method InsertEntries(ports: PortMap, m: PortMap) returns (r: PortMap)
    ensures r == InsertAll(ports, m)
  {
    r := ports;
    var todo := m.Keys;
    while todo != {}
      invariant todo <= m.Keys
      invariant r == InsertAll(ports, map k | k in m.Keys - todo :: m[k])
      decreases todo
    {
      var k :| k in todo;
      if k !in r {
        r := r[k := m[k]];
      }
      todo := todo - {k};
    }
    assert (map k | k in m.Keys - todo :: m[k]) == m;
  }

  class FlowGraph {
    var succ: Adjacency
    var pred: Adjacency
    var orderedNodes: seq<Node>
    var nameMap: map<string, Node>
    var ports: map<(Node, Node), PortMap>

    /** The graph's fields as a value. */
    function State(): Graph
      reads this
    {
      Graph(succ, pred, orderedNodes, nameMap, ports)
    }

    ghost predicate Valid()
      reads this
    {
      Inv(State())
    }

    /** Whether the graph has an edge u -> v. */
    predicate HasEdge(u: Node, v: Node)
      reads this
    {
      HasEdgeIn(State(), u, v)
    }

    constructor ()
      ensures Valid()
      ensures orderedNodes == [] && succ == map[] && ports == map[]
    {
      succ, pred, orderedNodes, nameMap, ports := map[], map[], [], map[], map[];
    }

    /** The registration step shared by `add_node` and `add_flow` (see `Registering`). */
    method Register(n: Node) returns (r: Outcome<GraphError>)
      requires Valid()
      modifies this
      ensures Valid()
      ensures Step(State(), r) == Registering(old(State()), n)
    {
      ghost var s := Registering(State(), n);
      RegisteringKeepsInv(State(), n);
      if n in succ {
        return Pass;
      }
      if n.name in nameMap {
        return Fail(DuplicateName(n.name));
      }
      succ := succ[n := {}];
      pred := pred[n := {}];
      orderedNodes := orderedNodes + [n];
      nameMap := nameMap[n.name := n];
      assert State() == s.g;
      r := Pass;
    }

    /** `add_node`: registers a node; a null node is refused with a log line, a duplicate name throws. */
    method AddNode(node: Option<Node>) returns (r: Outcome<GraphError>)
      requires Valid()
      modifies this
      ensures Valid()
      ensures node.None? ==> r.Pass? && State() == old(State())
      ensures node.Some? ==> Step(State(), r) == Registering(old(State()), node.value)
    {
      if node.None? {
        return Pass;
      }
      r := Register(node.value);
    }

    /** The edge step of `add_flow` once both endpoints are registered (see `Connecting`). */
    method Connect(u: Node, v: Node, m: PortMap)
      requires Valid() && u in succ && v in succ
      modifies this
      ensures WellFormed(old(State()))
      ensures Valid() && State() == Connecting(old(State()), u, v, m)
    {
      ghost var g := State();
      ConnectingKeepsInv(g, u, v, m);
      var current := if v in succ[u] then ports[(u, v)] else map[];
      var merged := InsertEntries(current, m);
      succ, pred, ports := succ[u := succ[u] + {v}], pred[v := pred[v] + {u}], ports[(u, v) := merged];
      assert State() == Connecting(g, u, v, m);
    }

    /**
     * `add_flow`: registers u and then v under the name rule (stopping at a null endpoint or a
     * duplicate name) and then inserts `portMap` into the edge's shared port map.
     */
    method AddFlow(nodeU: Option<Node>, nodeV: Option<Node>, portMap: Option<PortMap>)
      returns (r: Outcome<GraphError>)
      requires Valid()
      modifies this
      ensures WellFormed(old(State()))
      ensures Valid() && Step(State(), r) == Flowing(old(State()), nodeU, nodeV, portMap)
    {
      InvWellFormed(State());
      if nodeU.None? {
        return Pass;
      }
      var u := nodeU.value;
      r := Register(u);
      if r.Fail? || nodeV.None? {
        return;
      }
      var v := nodeV.value;
      r := Register(v);
      if r.Fail? {
        return;
      }
      var m := if portMap.Some? then portMap.value else map[];
      Connect(u, v, m);
    }

    /** `get_port_map`: the shared port map of the edge u -> v, or nothing for an unknown node or edge. */
    method GetPortMap(u: Node, v: Node) returns (r: Option<PortMap>)
      requires Valid()
      ensures r.Some? <==> HasEdge(u, v)
      ensures r.Some? ==> (u, v) in ports && r.value == ports[(u, v)]
    {
      if u !in succ {
        return None;
      }
      if v !in succ[u] {
        return None;
      }
      r := Some(ports[(u, v)]);
    }

    /**
     * Writing through the shared port-map pointer that `get_port_map` returns: the edge u -> v,
     * seen from `succ` and from `pred` alike, has the new map; every other edge keeps its own.
     */
    method SetPortMap(u: Node, v: Node, m: PortMap)
      requires Valid() && HasEdge(u, v)
      modifies this
      ensures Valid() && unchanged(this`succ, this`pred, this`orderedNodes, this`nameMap)
      ensures ports == old(ports)[(u, v) := m]
    {
      UpdatePorts(succ, pred, ports, u, v, m);
      ports := ports[(u, v) := m];
    }

    /** `is_root`: the node has no predecessor, that is, no edge enters it. */
    method IsRoot(node: Node) returns (r: bool)
      requires Valid() && node in orderedNodes
      ensures r <==> pred[node] == {}
      ensures r <==> forall u :: u in orderedNodes ==> !HasEdge(u, node)
    {
      r := pred[node] == {};
      if !r {
        var u :| u in pred[node];
        assert HasEdge(u, node);
      }
    }

    /** `is_leaf`: the node has no successor, that is, no edge leaves it. */
    method IsLeaf(node: Node) returns (r: bool)
      requires Valid() && node in orderedNodes
      ensures r <==> succ[node] == {}
      ensures r <==> forall v :: v in orderedNodes ==> !HasEdge(node, v)
    {
      r := succ[node] == {};
      if !r {
        var v :| v in succ[node];
        assert HasEdge(node, v);
      }
    }

    /** `get_root_nodes`: every node without predecessors, once each, in the order of the hash map. */
    method GetRootNodes() returns (roots: seq<Node>)
      requires Valid()
      ensures NoDuplicates(roots)
      ensures forall n :: n in roots <==> n in orderedNodes && pred[n] == {}
    {
      roots := [];
      var todo := pred.Keys;
      while todo != {}
        invariant todo <= pred.Keys
        invariant NoDuplicates(roots)
        invariant forall n :: n in roots ==> n !in todo
        invariant forall n :: n in roots <==> n in pred.Keys - todo && pred[n] == {}
        decreases todo
      {
        var n :| n in todo;
        if pred[n] == {} {
          roots := roots + [n];
        }
        todo := todo - {n};
      }
    }

    /** `get_nodes`: the nodes exactly in the order they were added. */
    method GetNodes() returns (nodes: seq<Node>)
      requires Valid()
      ensures nodes == orderedNodes
      ensures NoDuplicates(nodes) && forall n :: n in nodes <==> n in succ
    {
      UniqueNamesNoDuplicates(orderedNodes);
      nodes := [];
      var i := 0;
      while i < |orderedNodes|
        invariant 0 <= i <= |orderedNodes|
        invariant nodes == orderedNodes[..i]
      {
        nodes := nodes + [orderedNodes[i]];
        i := i + 1;
      }
    }

    /** `get_next_nodes`: the successors of a node, once each; nothing for an unknown node. */
    method GetNextNodes(node: Node) returns (nodes: seq<Node>)
      requires Valid()
      ensures node !in orderedNodes ==> nodes == []
      ensures NoDuplicates(nodes)
      ensures forall v :: v in nodes <==> HasEdge(node, v)
    {
      nodes := [];
      if node !in succ {
        return;
      }
      var next := succ[node];
      var todo := next;
      while todo != {}
        invariant todo <= next
        invariant NoDuplicates(nodes)
        invariant forall v :: v in nodes ==> v !in todo
        invariant forall v :: v in nodes <==> v in next - todo
        decreases todo
      {
        var v :| v in todo;
        nodes := nodes + [v];
        todo := todo - {v};
      }
    }

    /** `get_previous_nodes`: the predecessors of a node, once each; nothing for an unknown node. */
    method GetPreviousNodes(node: Node) returns (nodes: seq<Node>)
      requires Valid()
      ensures node !in orderedNodes ==> nodes == []
      ensures NoDuplicates(nodes)
      ensures forall u :: u in nodes <==> HasEdge(u, node)
    {
      nodes := [];
      if node !in pred {
        return;
      }
      var prev := pred[node];
      var todo := prev;
      while todo != {}
        invariant todo <= prev
        invariant NoDuplicates(nodes)
        invariant forall u :: u in nodes ==> u !in todo
        invariant forall u :: u in nodes <==> u in prev - todo
        decreases todo
      {
        var u :| u in todo;
        nodes := nodes + [u];
        todo := todo - {u};
      }
    }

    /** `find_node` with a predicate: some node satisfying it, or nothing when none does. */
    method FindNodeWhere(p: Node -> bool) returns (r: Option<Node>)
      requires Valid()
      ensures r.Some? ==> r.value in orderedNodes && p(r.value)
      ensures r.None? <==> forall n :: n in orderedNodes ==> !p(n)
    {
      var todo := succ.Keys;
      while todo != {}
        invariant todo <= succ.Keys
        invariant forall n :: n in succ.Keys - todo ==> !p(n)
        decreases todo
      {
        var n :| n in todo;
        if p(n) {
          return Some(n);
        }
        todo := todo - {n};
      }
      r := None;
    }

    /** `find_node` with a node: the node itself when it belongs to the graph. */
    method FindNode(node: Node) returns (r: Option<Node>)
      requires Valid()
      ensures r.Some? <==> node in orderedNodes
      ensures r.Some? ==> r.value == node
    {
      if node !in pred {
        return None;
      }
      r := Some(node);
    }

    /** `find_node` with a name: the node registered under that name, or nothing. */
    method FindNodeByName(name: string) returns (r: Option<Node>)
      requires Valid()
      ensures r.Some? ==> r.value in orderedNodes && r.value.name == name
      ensures r.None? <==> forall n :: n in orderedNodes ==> n.name != name
    {
      if name !in nameMap {
        forall n | n in orderedNodes ensures n.name != name {
          IndexOfMember(orderedNodes, n);
        }
        return None;
      }
      MemberOfIndex(orderedNodes, name);
      r := Some(nameMap[name]);
    }
  }
}
