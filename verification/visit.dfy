/**
 * The order in which `collect_connections` visits the fragments, and the edges it goes through
 * on the way: the roots first, in insertion order, then (once the work list runs dry) every
 * other fragment, in insertion order, the cycle breaking of the source. Each fragment's
 * incoming edges come in the order its predecessors are enumerated.
 */
module Visiting {
  import opened Wrappers
  import opened Graphs
  import opened Collecting
  import opened Connections

  /** A node without predecessors. */
  predicate IsRootIn(pred: Adjacency, n: Node)
  {
    n !in pred || pred[n] == {}
  }

  /** The nodes of `nodes` with (`root`) or without (`!root`) predecessors, in order. */
  function Select(nodes: seq<Node>, pred: Adjacency, root: bool): (r: seq<Node>)
    ensures forall n :: n in r <==> n in nodes && IsRootIn(pred, n) == root
    ensures NoDuplicates(nodes) ==> NoDuplicates(r)
    decreases |nodes|
  {
    if nodes == [] then []
    else
      var n := nodes[|nodes| - 1];
      var init := nodes[..|nodes| - 1];
      assert NoDuplicates(nodes) ==> n !in init by {
        assert forall j :: 0 <= j < |init| ==> init[j] == nodes[j];
      }
      Select(init, pred, root) + (if IsRootIn(pred, n) == root then [n] else [])
  }

  /** Selecting from one node more. */
  lemma SelectSnoc(nodes: seq<Node>, n: Node, pred: Adjacency, root: bool)
    ensures Select(nodes + [n], pred, root) == Select(nodes, pred, root) + (if IsRootIn(pred, n) == root then [n] else [])
  {
    assert (nodes + [n])[..|nodes|] == nodes;
  }

  /** The visiting order: the roots, then every other node. */
  function Schedule(nodes: seq<Node>, pred: Adjacency): seq<Node>
  {
    Select(nodes, pred, true) + Select(nodes, pred, false)
  }

  /** Every node is scheduled exactly once. */
  lemma ScheduleSpec(nodes: seq<Node>, pred: Adjacency)
    requires NoDuplicates(nodes)
    ensures var s := Schedule(nodes, pred);
            NoDuplicates(s) && Elements(s) == Elements(nodes) && |s| == |nodes|
  {
    var a, b := Select(nodes, pred, true), Select(nodes, pred, false);
    NoDuplicatesConcat(a, b);
    assert Elements(a + b) == Elements(nodes);
    DistinctLength(a + b, nodes);
  }

  /** The schedule lists the roots before all other nodes. */
  lemma ScheduleRootsFirst(nodes: seq<Node>, pred: Adjacency)
    ensures var s := Schedule(nodes, pred);
            var r := |Select(nodes, pred, true)|;
            && (forall i :: 0 <= i < r ==> IsRootIn(pred, s[i]))
            && (forall i :: r <= i < |s| ==> !IsRootIn(pred, s[i]))
  {
    var a, b := Select(nodes, pred, true), Select(nodes, pred, false);
    forall i | 0 <= i < |a| ensures IsRootIn(pred, (a + b)[i]) {
      assert (a + b)[i] == a[i] && a[i] in a;
    }
    forall i | |a| <= i < |a + b| ensures !IsRootIn(pred, (a + b)[i]) {
      assert (a + b)[i] == b[i - |a|] && b[i - |a|] in b;
    }
  }

  /** Two duplicate-free sequences with the same elements have the same length. */
  lemma {:induction false} DistinctLength<T>(s: seq<T>, t: seq<T>)
    requires NoDuplicates(s) && NoDuplicates(t) && Elements(s) == Elements(t)
    ensures |s| == |t|
  {
    DistinctCard(s);
    DistinctCard(t);
  }

  /** A duplicate-free sequence has as many elements as its set of elements. */
  lemma {:induction false} DistinctCard<T>(s: seq<T>)
    requires NoDuplicates(s)
    ensures |Elements(s)| == |s|
    decreases |s|
  {
    if s != [] {
      var init, x := s[..|s| - 1], s[|s| - 1];
      assert s == init + [x];
      assert NoDuplicates(init);
      assert x !in init by {
        assert forall j :: 0 <= j < |init| ==> init[j] == s[j];
      }
      assert Elements(s) == Elements(init) + {x};
      DistinctCard(init);
    }
  }

  /** Each `groups[j]` lists the predecessors of `visits[j]`, once each. */
  ghost predicate Enumerates(visits: seq<Node>, groups: seq<seq<Node>>, pred: Adjacency)
  {
    && |visits| == |groups|
    && forall j :: 0 <= j < |visits| ==>
         visits[j] in pred && NoDuplicates(groups[j]) && Elements(groups[j]) == pred[visits[j]]
  }

  /** One more node visited, with its predecessors listed once each. */
  lemma EnumeratesSnoc(visits: seq<Node>, groups: seq<seq<Node>>, pred: Adjacency, v: Node, prevs: seq<Node>)
    requires Enumerates(visits, groups, pred) && v in pred && NoDuplicates(prevs) && Elements(prevs) == pred[v]
    ensures Enumerates(visits + [v], groups + [prevs], pred)
  {
    var vs, gs := visits + [v], groups + [prevs];
    forall j | 0 <= j < |vs| ensures vs[j] in pred && NoDuplicates(gs[j]) && Elements(gs[j]) == pred[vs[j]] {
      if j < |visits| {
        assert vs[j] == visits[j] && gs[j] == groups[j];
      }
    }
  }

  /** The edges into each of `visits` in turn, from the predecessors `groups` lists. */
  function Grouped(visits: seq<Node>, groups: seq<seq<Node>>): seq<(Node, Node)>
    requires |visits| == |groups|
    decreases |visits|
  {
    if visits == [] then []
    else
      var n := |visits| - 1;
      Grouped(visits[..n], groups[..n]) + Into(groups[n], visits[n])
  }

  /**
   * The edges gone through while visiting distinct nodes are distinct, and they are exactly the
   * edges into the visited nodes.
   */
  lemma {:induction false} GroupedSpec(visits: seq<Node>, groups: seq<seq<Node>>, pred: Adjacency)
    requires NoDuplicates(visits) && Enumerates(visits, groups, pred)
    ensures var es := Grouped(visits, groups);
            && NoDuplicates(es)
            && forall e :: e in es <==> e.1 in visits && Edge(pred, e.1, e.0)
    decreases |visits|
  {
    if visits != [] {
      var n := |visits| - 1;
      var v, vs, gs := visits[n], visits[..n], groups[..n];
      assert NoDuplicates(vs);
      assert Enumerates(vs, gs, pred);
      GroupedSpec(vs, gs, pred);
      assert v !in vs by {
        assert forall j :: 0 <= j < n ==> vs[j] == visits[j];
      }
      assert forall x :: x in visits <==> x in vs || x == v by {
        assert visits == vs + [v];
      }
      IntoMembers(groups[n], v);
      NoDuplicatesConcat(Grouped(vs, gs), Into(groups[n], v));
    }
  }

  /** Visiting `v` with predecessors `prevs` after `visits` goes through its edges last. */
  lemma GroupedSnoc(visits: seq<Node>, groups: seq<seq<Node>>, v: Node, prevs: seq<Node>)
    requires |visits| == |groups|
    ensures Grouped(visits + [v], groups + [prevs]) == Grouped(visits, groups) + Into(prevs, v)
  {
    assert (visits + [v])[..|visits|] == visits;
    assert (groups + [prevs])[..|groups|] == groups;
  }

  /**
   * A whole schedule of a graph, each node with all its predecessors, goes through every edge of
   * the graph exactly once.
   */
  lemma ScheduleEdges(g: Graph, groups: seq<seq<Node>>)
    requires Inv(g) && Enumerates(Schedule(g.nodes, g.pred), groups, g.pred)
    ensures var es := Grouped(Schedule(g.nodes, g.pred), groups);
            NoDuplicates(es) && Elements(es) == g.ports.Keys
  {
    var s := Schedule(g.nodes, g.pred);
    UniqueNamesNoDuplicates(g.nodes);
    ScheduleSpec(g.nodes, g.pred);
    GroupedSpec(s, groups, g.pred);
    var es := Grouped(s, groups);
    forall e: (Node, Node) ensures e in es <==> e in g.ports {
      Transpose(g, e.0, e.1);
      assert e.1 in s <==> e.1 in Elements(s);
    }
  }

  /**
   * The state of the work list of `collect_connections`, given the fragments visited so far:
   * before the cycle breaking, the visited fragments and the work list make up the roots and
   * the in-degrees tell roots apart; after it, they make up the whole schedule and every
   * in-degree is zero.
   */
  ghost predicate Queued(nodes: seq<Node>, pred: Adjacency, visits: seq<Node>, worklist: seq<Node>,
                         indegrees: map<Node, int>, refilled: bool)
  {
    && NoDuplicates(nodes)
    && indegrees.Keys == Elements(nodes)
    && (!refilled ==> visits + worklist == Select(nodes, pred, true))
    && (!refilled ==> forall n :: n in indegrees ==> (indegrees[n] == 0 <==> IsRootIn(pred, n)))
    && (refilled ==> visits + worklist == Schedule(nodes, pred))
    && (refilled ==> forall n :: n in indegrees ==> indegrees[n] == 0)
  }

  /** What the work list state implies: distinct visits, a prefix of the schedule, of bounded length. */
  lemma QueuedFacts(nodes: seq<Node>, pred: Adjacency, visits: seq<Node>, worklist: seq<Node>,
                    indegrees: map<Node, int>, refilled: bool)
    requires Queued(nodes, pred, visits, worklist, indegrees, refilled)
    ensures NoDuplicates(visits + worklist) && NoDuplicates(visits)
    ensures |visits + worklist| <= |nodes| && visits <= Schedule(nodes, pred)
    ensures forall n :: n in visits + worklist ==> n in nodes
  {
    ScheduleSpec(nodes, pred);
    var a, b := Select(nodes, pred, true), Select(nodes, pred, false);
    assert NoDuplicates(visits + worklist) by {
      if !refilled {
        assert forall i :: 0 <= i < |a| ==> a[i] == (a + b)[i];
      }
    }
    assert forall i :: 0 <= i < |visits| ==> visits[i] == (visits + worklist)[i];
    var s := visits + worklist;
    assert s == Schedule(nodes, pred)[..|s|] by {
      if !refilled {
        assert a == (a + b)[..|a|];
      }
    }
    assert visits == s[..|visits|];
    forall n | n in s ensures n in nodes {
      if !refilled {
        assert n in a;
      } else {
        assert n in Elements(a + b);
      }
    }
  }

  /** Taking the first fragment off the work list to visit it. */
  lemma QueuedPop(nodes: seq<Node>, pred: Adjacency, visits: seq<Node>, worklist: seq<Node>,
                  indegrees: map<Node, int>, refilled: bool)
    requires Queued(nodes, pred, visits, worklist, indegrees, refilled) && worklist != []
    ensures worklist[0] in nodes && worklist[0] !in visits
    ensures Queued(nodes, pred, visits + [worklist[0]], worklist[1..], indegrees, refilled)
  {
    QueuedFacts(nodes, pred, visits, worklist, indegrees, refilled);
    var n := worklist[0];
    assert visits + worklist == (visits + [n]) + worklist[1..];
    assert (visits + worklist)[|visits|] == n;
    assert forall i :: 0 <= i < |visits| ==> visits[i] == (visits + worklist)[i];
  }

  /**
   * The work list has run dry with fragments left unvisited: the cycle breaking has not happened
   * yet, the visits are the roots, and some fragment is not one.
   */
  lemma QueuedStuck(nodes: seq<Node>, pred: Adjacency, visits: seq<Node>, indegrees: map<Node, int>, refilled: bool)
    requires Queued(nodes, pred, visits, [], indegrees, refilled) && |visits| != |nodes|
    ensures !refilled && visits == Select(nodes, pred, true) && Select(nodes, pred, false) != []
  {
    ScheduleSpec(nodes, pred);
    assert visits + [] == visits;
  }

  /** Breaking cycles puts the fragments that are not roots on the dry work list. */
  lemma QueuedRefill(nodes: seq<Node>, pred: Adjacency, visits: seq<Node>, indegrees: map<Node, int>, zeroed: map<Node, int>)
    requires NoDuplicates(nodes) && indegrees.Keys == Elements(nodes) && visits == Select(nodes, pred, true)
    requires zeroed.Keys == indegrees.Keys && forall n :: n in zeroed ==> zeroed[n] == 0
    ensures Queued(nodes, pred, visits, Select(nodes, pred, false), zeroed, true)
  {
  }

  /** The work list has run dry with every fragment visited: the whole schedule has been visited. */
  lemma QueuedDone(nodes: seq<Node>, pred: Adjacency, visits: seq<Node>, indegrees: map<Node, int>, refilled: bool)
    requires Queued(nodes, pred, visits, [], indegrees, refilled) && |visits| == |nodes|
    ensures visits == Schedule(nodes, pred)
  {
    ScheduleSpec(nodes, pred);
    assert visits + [] == visits;
    if !refilled {
      var b := Select(nodes, pred, false);
      assert |b| == 0;
      assert Schedule(nodes, pred) == visits + b;
    }
  }
}
