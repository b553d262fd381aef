/**
 * The application driver: it collects the connections between fragments, negotiates ports
 * with the workers once a schedule is available, dispatches the fragments, follows the
 * workers' terminations and drains its message queue in arrival order.
 */
module Driver {
  import opened Wrappers
  import opened Strings
  import opened Args
  import opened Graphs
  import opened Fragments
  import opened PortNames
  import opened Connections
  import opened DriverServer
  import opened Collecting
  import opened Visiting
  import opened Negotiation
  import opened Scheduling
  import opened Messages

  /** `AppStatus`: the state of the distributed application as the driver sees it. */
  datatype AppStatus = NotStarted | Running | Finished | Error

  /**
   * How `check_fragment_schedule` ended: no schedule yet, a worker short of ports, a worker
   * that did not launch its fragments, or every worker launched.
   */
  datatype ScheduleOutcome = NoSchedule | PortShortage(worker: string) | LaunchFailed(worker: string) | Launched

  /** The operator specs of each fragment, by operator name. */
  type Operators = Node -> map<string, OpSpec>

  /** Every edge's downstream labels name operators of the receiving fragment. */
  ghost predicate Wired(ports: Ports, ops: Operators, parse: LabelParser)
  {
    forall e :: e in ports ==> TargetsKnown(ports[e], ops(e.1), parse)
  }

  /**
   * `update_port_names` as a correction of one edge's port map. The source is not defined on a
   * port map naming an operator the receiving fragment lacks; the callers below never pass one,
   * and such a map is reported here as a failure.
   */
  ghost function Repair(ops: Operators, parse: LabelParser): Fix
  {
    (e: (Node, Node), m: PortMap) =>
      if TargetsKnown(m, ops(e.1), parse) then Corrected(m, ops(e.0), ops(e.1), parse) else (m, false)
  }

  /** The connections an edge stands for: `EdgeLinks`. */
  ghost function EdgeEmitter(): Emit
  {
    (e: (Node, Node), m: PortMap) => EdgeLinks(e.0, e.1, m)
  }

  /** The links emitted edge by edge are those `AllLinks` describes. */
  lemma {:induction false} EmittedAllLinks(ports: Ports, es: seq<(Node, Node)>)
    requires Mapped(ports, es)
    ensures Emitted(ports, es, EdgeEmitter()) == AllLinks(ports, es)
    decreases |es|
  {
    if es != [] {
      var e, rest := es[0], es[1..];
      assert Mapped(ports, rest) by {
        forall x | x in rest ensures x in ports { assert x in es; }
      }
      EmittedAllLinks(ports, rest);
      var head := EdgeLinks(e.0, e.1, ports[e]);
      assert Emitted(ports, es, EdgeEmitter()) == head + AllLinks(ports, rest);
      EdgeAllLinks(ports, e);
      assert es == [e] + rest;
      AllLinksAppend(ports, [e], rest);
    }
  }

  /** The links of a single edge with a port map are that edge's links. */
  lemma EdgeAllLinks(ports: Ports, e: (Node, Node))
    requires e in ports
    ensures AllLinks(ports, [e]) == EdgeLinks(e.0, e.1, ports[e])
  {
    assert [e][..0] == [];
  }

  /**
   * The connections a collection of distinct edges records are, each once, exactly those of the
   * edges before the first failure, under their corrected port maps.
   */
  lemma CollectedLinks(ports: Ports, es: seq<(Node, Node)>, fix: Fix)
    requires NoDuplicates(es) && Mapped(ports, es)
    ensures var r := Collect(ports, es, fix, EdgeEmitter());
            var done := es[..FirstFailure(ports, es, fix)];
            && (forall l :: l in r.links <==> (l.source, l.target) in done && InPortMap(l, r.ports[(l.source, l.target)]))
            && NoDuplicates(r.links)
  {
    CollectRecords(ports, es, fix, EdgeEmitter());
    var r := Collect(ports, es, fix, EdgeEmitter());
    var done := es[..FirstFailure(ports, es, fix)];
    EmittedAllLinks(r.ports, done);
    assert NoDuplicates(done) && forall i :: 0 <= i < |done| ==> done[i] in r.ports by {
      assert forall i :: 0 <= i < |done| ==> done[i] == es[i] && es[i] in es;
    }
    AllLinksSpec(r.ports, done);
  }

  /**
   * What `collect_connections` achieves on a graph whose fragments are all visited, whatever
   * order the predecessors of each fragment come in: every edge is gone through once; the
   * collection succeeds exactly when no correction fails; the edges tried carry their corrected
   * port maps and nothing else changes; and the connections recorded are, each once, exactly
   * those of the edges corrected successfully, under their corrected port maps.
   */
  lemma ConnectionsCollected(g: Graph, groups: seq<seq<Node>>, ops: Operators, parse: LabelParser)
    requires Inv(g) && Enumerates(Schedule(g.nodes, g.pred), groups, g.pred)
    ensures var es := Grouped(Schedule(g.nodes, g.pred), groups);
            NoDuplicates(es) && Elements(es) == g.ports.Keys && Mapped(g.ports, es)
    ensures var es := Grouped(Schedule(g.nodes, g.pred), groups);
            var r := Collect(g.ports, es, Repair(ops, parse), EdgeEmitter());
            var k := FirstFailure(g.ports, es, Repair(ops, parse));
            && (r.ok <==> k == |es|)
            && FixedOn(g.ports, r.ports, Tried(es, k), Repair(ops, parse))
            && (forall l :: l in r.links <==> (l.source, l.target) in es[..k] && InPortMap(l, r.ports[(l.source, l.target)]))
            && NoDuplicates(r.links)
  {
    var es := Grouped(Schedule(g.nodes, g.pred), groups);
    ScheduleEdges(g, groups);
    assert Mapped(g.ports, es) by {
      assert forall e :: e in es ==> e in Elements(es);
    }
    CollectStops(g.ports, es, Repair(ops, parse), EdgeEmitter());
    CollectFixes(g.ports, es, Repair(ops, parse), EdgeEmitter());
    CollectedLinks(g.ports, es, Repair(ops, parse));
  }

  /** The label parser reads completed downstream labels back, for the operators of every fragment. */
  ghost predicate ReadsBack(ops: Operators, parse: LabelParser)
  {
    forall n :: ReadsBackInputs(ops(n), parse)
  }

  /**
   * A collection, finished or stopped, leaves every edge's downstream labels on operators of
   * the receiving fragment: collecting again stays within what the correction is defined on.
   */
  lemma {:induction false} CollectKeepsWired(p: Ports, es: seq<(Node, Node)>, ops: Operators, parse: LabelParser)
    requires Mapped(p, es) && Wired(p, ops, parse) && ReadsBack(ops, parse)
    ensures Wired(Collect(p, es, Repair(ops, parse), EdgeEmitter()).ports, ops, parse)
    decreases |es|
  {
    if es != [] {
      var e := es[0];
      var f := Repair(ops, parse)(e, p[e]);
      CorrectedKnown(p[e], ops(e.0), ops(e.1), parse);
      var q := p[e := f.0];
      assert Wired(q, ops, parse);
      if f.1 {
        assert forall x :: x in es[1..] ==> x in es;
        CollectKeepsWired(q, es[1..], ops, parse);
      }
    }
  }

  /** Every link a collection records joins the two ends of one of the edges it went through. */
  lemma {:induction false} CollectLinksFrom(p: Ports, es: seq<(Node, Node)>, fix: Fix)
    requires Mapped(p, es)
    ensures forall l :: l in Collect(p, es, fix, EdgeEmitter()).links ==> (l.source, l.target) in es
    decreases |es|
  {
    if es != [] {
      var e := es[0];
      var f := fix(e, p[e]);
      if f.1 {
        EdgeLinksSpec(e.0, e.1, f.0);
        assert forall x :: x in es[1..] ==> x in es;
        CollectLinksFrom(p[e := f.0], es[1..], fix);
      }
    }
  }

  /** Collecting on a graph lists receivers only for fragments of the graph. */
  lemma CollectKeepsNamed(g: Graph, es: seq<(Node, Node)>, fix: Fix, t: Tables)
    requires Inv(g) && Mapped(g.ports, es) && ReceiversNamed(t.receivers, g.nodes)
    ensures ReceiversNamed(Ledger(t, Collect(g.ports, es, fix, EdgeEmitter()).links, 0).receivers, g.nodes)
  {
    var links := Collect(g.ports, es, fix, EdgeEmitter()).links;
    CollectLinksFrom(g.ports, es, fix);
    forall l | l in links ensures l.target in g.nodes {
      assert Edge(g.succ, l.source, l.target);
    }
    LedgerReceiverNames(t, links, 0, g.nodes);
  }

  /**
   * Visiting fragment `frag`, not visited yet, with predecessors `prevs`: its incoming edges have
   * port maps, which the collection so far has left as they were, so that they can be corrected.
   */
  lemma VisitStep(g: Graph, frag: Node, prevs: seq<Node>, visits: seq<Node>, groups: seq<seq<Node>>,
                  edges: seq<(Node, Node)>, p0: Ports, ops: Operators, parse: LabelParser)
    requires Inv(g) && frag in g.nodes && frag !in visits
    requires NoDuplicates(prevs) && forall u :: u in prevs <==> HasEdgeIn(g, u, frag)
    requires NoDuplicates(visits) && Enumerates(visits, groups, g.pred) && edges == Grouped(visits, groups)
    requires Wired(p0, ops, parse) && Mapped(p0, edges)
    requires Collect(p0, edges, Repair(ops, parse), EdgeEmitter()).ports == g.ports
    ensures Enumerates(visits + [frag], groups + [prevs], g.pred)
    ensures Mapped(p0, edges + Into(prevs, frag))
    ensures forall u :: u in prevs ==> HasEdgeIn(g, u, frag) && (u, frag) in g.ports && TargetsKnown(g.ports[(u, frag)], ops(frag), parse)
  {
    NoPreviousIsRoot(g, frag, prevs);
    EnumeratesSnoc(visits, groups, g.pred, frag, prevs);
    GroupedSpec(visits, groups, g.pred);
    forall u | u in prevs ensures (u, frag) in g.ports && (u, frag) in p0 && (u, frag) !in edges {
      InvWellFormed(g);
    }
    forall u | u in prevs ensures g.ports[(u, frag)] == p0[(u, frag)] {
      CollectFrame(p0, edges, Repair(ops, parse), EdgeEmitter(), (u, frag));
    }
    MappedInto(p0, edges, prevs, frag);
  }

  /** A fragment has no previous fragments exactly when it is a root. */
  lemma NoPreviousIsRoot(g: Graph, n: Node, prevs: seq<Node>)
    requires Inv(g) && n in g.nodes && forall u :: u in prevs <==> HasEdgeIn(g, u, n)
    ensures NoDuplicates(prevs) ==> Elements(prevs) == g.pred[n]
    ensures |prevs| == 0 <==> IsRootIn(g.pred, n)
  {
    forall u ensures u in prevs <==> u in g.pred[n] {
      Transpose(g, u, n);
    }
    if |prevs| != 0 {
      assert prevs[0] in g.pred[n];
    } else {
      assert forall u :: u in g.pred[n] ==> u in prevs;
    }
  }

  /**
   * The collection of the edges `es` from the port maps `p0` on, part way: on success so far,
   * the edges from the `i`th on still carry their port maps from `p0` and what is left is to
   * collect them after the links `added`; after a failure, the collection ended with `added`.
   */
  ghost predicate Progress(p0: Ports, ports: Ports, es: seq<(Node, Node)>, i: int, ok: bool, added: seq<Link>, fix: Fix)
  {
    && 0 <= i <= |es| && Mapped(p0, es) && ports.Keys == p0.Keys
    && (ok ==> && Mapped(ports, es[i..])
               && (forall j :: i <= j < |es| ==> ports[es[j]] == p0[es[j]])
               && Collect(p0, es, fix, EdgeEmitter()) == After(added, Collect(ports, es[i..], fix, EdgeEmitter())))
    && (!ok ==> Collect(p0, es, fix, EdgeEmitter()) == Collected(ports, added, false))
  }

  /** Before any edge, the whole collection is left to do. */
  lemma ProgressStart(p0: Ports, es: seq<(Node, Node)>, fix: Fix)
    requires Mapped(p0, es)
    ensures Progress(p0, p0, es, 0, true, [], fix)
  {
    assert es[0..] == es;
    var r := Collect(p0, es, fix, EdgeEmitter());
    assert After([], r) == Collected(r.ports, [] + r.links, r.ok);
    assert [] + r.links == r.links;
  }

  /** Once every edge is gone through, or one failed, the collection is over. */
  lemma ProgressDone(p0: Ports, ports: Ports, es: seq<(Node, Node)>, i: int, ok: bool, added: seq<Link>, fix: Fix)
    requires Progress(p0, ports, es, i, ok, added, fix) && (ok ==> i == |es|)
    ensures Collect(p0, es, fix, EdgeEmitter()) == Collected(ports, added, ok)
  {
    if ok {
      assert es[i..] == [];
      assert added + [] == added;
    }
  }

  /** The in-degrees and the roots of the fragments `done`. */
  ghost predicate Counted(indegrees: map<Node, int>, worklist: seq<Node>, pred: Adjacency, done: seq<Node>)
  {
    && indegrees.Keys == Elements(done)
    && (forall n :: n in indegrees ==> (indegrees[n] == 0 <==> IsRootIn(pred, n)))
    && worklist == Select(done, pred, true)
  }

  /** Counting the predecessors of one fragment more. */
  lemma CountedStep(indegrees: map<Node, int>, worklist: seq<Node>, pred: Adjacency, done: seq<Node>, n: Node, d: nat)
    requires Counted(indegrees, worklist, pred, done) && (d == 0 <==> IsRootIn(pred, n))
    ensures Counted(indegrees[n := d], worklist + (if d == 0 then [n] else []), pred, done + [n])
  {
    var m := indegrees[n := d];
    assert m.Keys == Elements(done + [n]) by {
      assert Elements(done + [n]) == Elements(done) + {n};
    }
    forall x | x in m ensures m[x] == 0 <==> IsRootIn(pred, x) {
      if x != n {
        assert m[x] == indegrees[x];
      }
    }
    SelectSnoc(done, n, pred, true);
  }

  /**
   * The first pass of `collect_connections`: the in-degree of every fragment, and the roots, in
   * order, as the initial work list.
   */
  method Indegrees(g: FlowGraph, fragments: seq<Node>) returns (indegrees: map<Node, int>, worklist: seq<Node>)
    requires g.Valid() && fragments == g.orderedNodes
    ensures indegrees.Keys == Elements(fragments)
    ensures forall n :: n in indegrees ==> (indegrees[n] == 0 <==> IsRootIn(g.pred, n))
    ensures worklist == Select(fragments, g.pred, true)
  {
    indegrees, worklist := map[], [];
    ghost var done := [];
    var j := 0;
    while j < |fragments|
      invariant 0 <= j <= |fragments| && done == fragments[..j]
      invariant Counted(indegrees, worklist, g.pred, done)
    {
      var n := fragments[j];
      var prevs := g.GetPreviousNodes(n);
      NoPreviousIsRoot(g.State(), n, prevs);
      CountedStep(indegrees, worklist, g.pred, done, n, |prevs|);
      indegrees := indegrees[n := |prevs|];
      if |prevs| == 0 {
        worklist := worklist + [n];
      }
      PrefixSnoc(fragments, j);
      done, j := done + [n], j + 1;
    }
    assert done == fragments;
  }

  /**
   * The first pass of `collect_connections` over the fragments in the order they were added:
   * the work list starts with the roots.
   */
  method Roots(g: FlowGraph) returns (fragments: seq<Node>, indegrees: map<Node, int>, worklist: seq<Node>)
    requires g.Valid()
    ensures fragments == g.orderedNodes && Queued(fragments, g.pred, [], worklist, indegrees, false)
  {
    fragments := g.GetNodes();
    indegrees, worklist := Indegrees(g, fragments);
    assert [] + worklist == worklist;
  }

  /** The next element of a duplicate-free sequence is not among those before it. */
  lemma NextUnseen(s: seq<Node>, k: int)
    requires NoDuplicates(s) && 0 <= k < |s|
    ensures s[k] !in s[..k] && s[..k + 1] == s[..k] + [s[k]]
  {
    assert forall i :: 0 <= i < k ==> s[..k][i] == s[i];
  }

  /** The in-degrees part way through the cycle breaking: those of `done` zeroed, the others kept. */
  ghost predicate ZeroedUpTo(zeroed: map<Node, int>, indegrees: map<Node, int>, done: seq<Node>)
  {
    && zeroed.Keys == indegrees.Keys
    && (forall n :: n in done ==> n in zeroed && zeroed[n] == 0)
    && (forall n :: n in zeroed && n !in done ==> zeroed[n] == indegrees[n])
  }

  /** One step of the cycle breaking keeps the in-degrees and the work list in step with `done`. */
  lemma ZeroedStep(indegrees: map<Node, int>, pred: Adjacency, done: seq<Node>, n: Node,
                   zeroed: map<Node, int>, worklist: seq<Node>)
    requires forall x :: x in indegrees ==> (indegrees[x] == 0 <==> IsRootIn(pred, x))
    requires ZeroedUpTo(zeroed, indegrees, done) && worklist == Select(done, pred, false)
    requires n in indegrees && n !in done
    ensures n in zeroed
    ensures var z := zeroed[n] != 0;
            && ZeroedUpTo(if z then zeroed[n := 0] else zeroed, indegrees, done + [n])
            && worklist + (if z then [n] else []) == Select(done + [n], pred, false)
  {
    SelectSnoc(done, n, pred, false);
    var z := zeroed[n] != 0;
    var m := if z then zeroed[n := 0] else zeroed;
    forall x | x in done + [n] ensures x in m && m[x] == 0 {
      if x != n {
        assert x in done;
      }
    }
    forall x | x in m && x !in done + [n] ensures m[x] == indegrees[x] {
      assert x != n && x !in done;
    }
  }

  /**
   * The cycle breaking of `collect_connections`: every fragment with a positive in-degree, in
   * order, goes on the work list and has its in-degree set to zero.
   */
  method BreakCycles(fragments: seq<Node>, indegrees: map<Node, int>, ghost pred: Adjacency)
    returns (zeroed: map<Node, int>, worklist: seq<Node>)
    requires NoDuplicates(fragments) && indegrees.Keys == Elements(fragments)
    requires forall n :: n in indegrees ==> (indegrees[n] == 0 <==> IsRootIn(pred, n))
    ensures zeroed.Keys == indegrees.Keys && forall n :: n in zeroed ==> zeroed[n] == 0
    ensures worklist == Select(fragments, pred, false)
  {
    zeroed, worklist := indegrees, [];
    ghost var done := [];
    var k := 0;
    while k < |fragments|
      invariant 0 <= k <= |fragments| && done == fragments[..k]
      invariant ZeroedUpTo(zeroed, indegrees, done) && worklist == Select(done, pred, false)
    {
      var n := fragments[k];
      NextUnseen(fragments, k);
      ZeroedStep(indegrees, pred, done, n, zeroed, worklist);
      if zeroed[n] != 0 {
        zeroed := zeroed[n := 0];
        worklist := worklist + [n];
      }
      done, k := done + [n], k + 1;
    }
    assert done == fragments;
    assert forall n :: n in zeroed ==> n in done;
  }

  /**
   * The work list handling of `collect_connections` with fragments left to visit: the cycle
   * breaking if the work list has run dry, then the first fragment taken off it.
   */
  method Dequeue(fragments: seq<Node>, ghost pred: Adjacency, worklist: seq<Node>, indegrees: map<Node, int>,
                 visited: set<Node>, ghost visits: seq<Node>, ghost refilled: bool)
    returns (frag: Node, worklist': seq<Node>, indegrees': map<Node, int>, visited': set<Node>,
             ghost visits': seq<Node>, ghost refilled': bool)
    requires Queued(fragments, pred, visits, worklist, indegrees, refilled)
    requires visited == Elements(visits) && |visited| == |visits|
    requires worklist != [] || |visited| != |fragments|
    ensures frag in fragments && frag !in visits && NoDuplicates(visits) && visits' == visits + [frag]
    ensures Queued(fragments, pred, visits', worklist', indegrees', refilled')
    ensures visited' == Elements(visits') && |visited'| == |visits'| <= |fragments|
    ensures visits' <= Schedule(fragments, pred)
  {
    worklist', indegrees', refilled' := worklist, indegrees, refilled;
    if worklist' == [] {
      QueuedStuck(fragments, pred, visits, indegrees, refilled);
      indegrees', worklist' := BreakCycles(fragments, indegrees, pred);
      QueuedRefill(fragments, pred, visits, indegrees, indegrees');
      refilled' := true;
    }
    QueuedFacts(fragments, pred, visits, worklist', indegrees', refilled');
    QueuedPop(fragments, pred, visits, worklist', indegrees', refilled');
    frag := worklist'[0];
    worklist' := worklist'[1..];
    visits' := visits + [frag];
    QueuedFacts(fragments, pred, visits', worklist', indegrees', refilled');
    assert Elements(visits') == Elements(visits) + {frag};
    visited' := visited + {frag};
  }

  /**
   * The tables `t'` that correcting the connection map of `t` leaves: the receivers and the
   * fragments with connections kept, every connection's port indices replaced by the ports and
   * addresses they stand for when all of them are integers, and the index tables extended.
   */
  ghost predicate Readied(t: Tables, t': Tables)
  {
    && t'.receivers == t.receivers && t'.connections.Keys == t.connections.Keys
    && (AllPortsAreInts(t.connections) ==> t'.connections == CorrectedMap(t.connections, t.indexToPort, t.indexToIp))
    && Extends(t.indexToPort, t'.indexToPort, 0) && Extends(t.indexToIp, t'.indexToIp, "")
  }

  /** The worker short of ports, if that is how the check ended. */
  function ShortOf(outcome: ScheduleOutcome): (r: Option<string>)
    ensures r.Some? <==> outcome.PortShortage?
  {
    if outcome.PortShortage? then Some(outcome.worker) else None
  }

  /**
   * How a schedule carried out on the plan `planned` (the tables after the negotiation, the
   * completed schedule, the workers, their fragments) leaves the tables, the status, the
   * server and the termination requests, from a status `status0`, a stop flag `stopped0` and
   * the requests `sent0` before it. Each outcome but a shortage corrects the planned connection
   * map; a refusal asks every worker of the completed schedule (`order`) to stop with `Failure`,
   * fails the application and stops the server, and otherwise the application is running with
   * the driver connected to exactly the workers of the completed schedule.
   */
  ghost predicate Settled(outcome: ScheduleOutcome, remote: Remote, planned: Tables, schedule: map<string, string>,
                          workers: seq<string>, groups: map<string, seq<string>>, order: seq<string>,
                          status0: AppStatus, stopped0: bool, sent0: seq<Termination>,
                          tables: Tables, status: AppStatus, stopped: bool, connected: set<string>, sent: seq<Termination>)
  {
    && !outcome.NoSchedule? && (stopped0 ==> stopped)
    && sent == sent0 + (if outcome.LaunchFailed? then Terminations(order, TerminationCode.Failure) else [])
    && (outcome.PortShortage? ==> tables == planned && status == status0 && stopped == stopped0)
    && (outcome.LaunchFailed? || outcome.Launched? ==> Readied(planned, tables))
    && (outcome.LaunchFailed? ==>
          && outcome.worker in workers && !remote.launches(outcome.worker, GroupOf(groups, outcome.worker), tables.connections)
          && status == Error && stopped && connected == {}
          && NoDuplicates(order) && Elements(order) == schedule.Values)
    && (outcome.Launched? ==>
          && status == Running && stopped == stopped0 && connected == schedule.Values
          && forall w :: w in workers ==> remote.launches(w, GroupOf(groups, w), tables.connections))
  }

  /**
   * What `collect_connections` leaves, from the tables `t0` and the port maps `ports0` of a
   * graph with the fragments `nodes` and predecessors `pred`. Connections collected before are
   * kept, with the port maps, and count as a success. Otherwise the fragments `visits` are
   * visited in the visiting order, each with its predecessors as `groups` enumerates them; the
   * edges `edges` into them are gone through, and the port maps and the tables are those
   * `Collect` leaves (`ok` its verdict), the links numbered from index 0 on.
   */
  ghost predicate Gathered(t0: Tables, ports0: Ports, nodes: seq<Node>, pred: Adjacency, ops: Operators,
                           parse: LabelParser, visits: seq<Node>, groups: seq<seq<Node>>,
                           edges: seq<(Node, Node)>, ok: bool, tables: Tables, ports: Ports)
  {
    && (t0.connections != map[] ==> ok && tables == t0 && ports == ports0)
    && (t0.connections == map[] ==>
          && Enumerates(visits, groups, pred) && edges == Grouped(visits, groups)
          && visits <= Schedule(nodes, pred) && (ok ==> visits == Schedule(nodes, pred))
          && Mapped(ports0, edges)
          && var r := Collect(ports0, edges, Repair(ops, parse), EdgeEmitter());
             r.ok == ok && ports == r.ports && tables == Ledger(t0, r.links, 0))
  }

  /**
   * What a check of one schedule leaves besides its outcome: the collection (the fragments
   * visited, the predecessors enumerated, the edges gone through, the verdict and the tables
   * left), the tables after the negotiation, the completed schedule, its workers and their
   * fragments, the ports offered and used, the idle workers cancelled and the workers asked to
   * stop after a refusal.
   */
  datatype ScheduleRun = ScheduleRun(visits: seq<Node>, preds: seq<seq<Node>>, edges: seq<(Node, Node)>,
                                     collectedOk: bool, collected: Tables, planned: Tables,
                                     schedule: map<string, string>, workers: seq<string>,
                                     groups: map<string, seq<string>>, offered: map<string, seq<int>>,
                                     used: map<string, seq<int>>, idle: seq<string>, order: seq<string>)

  /** What handling a message leaves besides the new state. */
  datatype Handling = Handling(outcome: ScheduleOutcome, run: ScheduleRun, others: seq<string>)

  /**
   * The state a message acts on: the driver's tables, the fragment graph's port maps, the
   * application status, and the server's connections, stop flag and termination requests.
   */
  datatype DriverState = DriverState(tables: Tables, ports: Ports, status: AppStatus,
                                     clients: map<string, WorkerClient>, stopped: bool, sent: seq<Termination>)

  /**
   * `check_fragment_schedule` with the schedule `scheduled`, on a fragment graph with the
   * fragments `nodes` and predecessors `pred`, from the state `s0` with the connections
   * `connected0` (the asking worker's included) to the state `s`: the connections are
   * collected as `Gathered` says, the connected workers the schedule leaves out are asked to
   * stop with `Cancelled`, the ports are negotiated on the collected tables as `Planned` says,
   * and the check ends as `Settled` says. After a shortage the driver is still connected to
   * every worker it kept and to none outside the completed schedule.
   */
  ghost predicate ScheduleChecked(scheduled: map<string, string>, outcome: ScheduleOutcome, run: ScheduleRun,
                                  remote: Remote, nodes: seq<Node>, pred: Adjacency, ops: Operators,
                                  parse: LabelParser, s0: DriverState, connected0: set<string>, s: DriverState)
  {
    && Gathered(s0.tables, s0.ports, nodes, pred, ops, parse, run.visits, run.preds, run.edges, run.collectedOk,
                run.collected, s.ports)
    && Planned(run.collected, scheduled, remote, ShortOf(outcome), run.planned, run.schedule, run.workers,
               run.groups, run.offered, run.used)
    && NoDuplicates(run.idle) && Elements(run.idle) == connected0 - scheduled.Values
    && (outcome.PortShortage? ==> connected0 * scheduled.Values <= s.clients.Keys <= run.schedule.Values)
    && Settled(outcome, remote, run.planned, run.schedule, run.workers, run.groups, run.order, s0.status, s0.stopped,
               s0.sent + Terminations(run.idle, Cancelled), s.tables, s.status, s.stopped, s.clients.Keys, s.sent)
  }

  /**
   * `check_worker_execution` for worker `worker` ending with `code`, from the connections
   * `clients0`, the status `status0`, the stop flag `stopped0` and the requests `sent0`. A
   * worker that was not connected changes nothing. Otherwise its connection is closed; a
   * success that leaves no connection open finishes the application, unless it already
   * failed, and stops the server; a cancellation or a failure stops every other worker
   * (`others`) with the same code, marks the application failed and stops the server.
   */
  ghost predicate WorkerChecked(worker: string, code: TerminationCode, others: seq<string>,
                                clients0: map<string, WorkerClient>, status0: AppStatus, stopped0: bool,
                                sent0: seq<Termination>, clients: map<string, WorkerClient>, status: AppStatus,
                                stopped: bool, sent: seq<Termination>)
  {
    && (worker !in clients0 || code.Success? ==> sent == sent0)
    && (worker !in clients0 ==> clients == clients0 && status == status0 && stopped == stopped0)
    && (worker in clients0 && code.Success? ==>
          && clients == clients0 - {worker}
          && (clients == map[] ==> stopped && status == if status0 == Error then Error else Finished)
          && (clients != map[] ==> status == status0 && stopped == stopped0))
    && (worker in clients0 && !code.Success? ==>
          && clients == map[] && stopped && status == Error
          && NoDuplicates(others) && Elements(others) == clients0.Keys - {worker}
          && sent == sent0 + Terminations(others, code))
  }

  /**
   * The last connected worker reporting success finishes an application that has not failed,
   * and stops the server, without any request to stop.
   */
  lemma LastWorkerFinishes(worker: string, client: WorkerClient, others: seq<string>, status0: AppStatus,
                           stopped0: bool, sent0: seq<Termination>, clients: map<string, WorkerClient>,
                           status: AppStatus, stopped: bool, sent: seq<Termination>)
    requires status0 != Error
    requires WorkerChecked(worker, TerminationCode.Success, others, map[worker := client], status0, stopped0, sent0,
                           clients, status, stopped, sent)
    ensures clients == map[] && status == Finished && stopped && sent == sent0
  {
    assert worker in map[worker := client];
    assert map[worker := client] - {worker} == map[];
  }

  /**
   * What handling message `m` does, from the state `s0` to the state `s`, on a fragment graph
   * with the fragments `nodes` and predecessors `pred`, with `scheduled` the scheduler's
   * answer. A message of an unknown code or of the wrong payload changes nothing. A worker's
   * termination is checked as `WorkerChecked` says, with the tables and the port maps
   * unchanged. A schedule request connects the asking worker; without a schedule nothing else
   * changes, and with one the check goes on as `ScheduleChecked` says.
   */
  ghost predicate Handled(m: DriverMessage, scheduled: Option<map<string, string>>, remote: Remote,
                          nodes: seq<Node>, pred: Adjacency, ops: Operators, parse: LabelParser,
                          h: Handling, s0: DriverState, s: DriverState)
  {
    && (Ignored(m) ==> s == s0)
    && (m.TerminateServer? ==> s == s0.(stopped := true))
    && (m.WorkerExecutionFinished? && m.data.WorkerStatus? ==>
          && s.tables == s0.tables && s.ports == s0.ports
          && WorkerChecked(m.data.worker, m.data.code, h.others, s0.clients, s0.status, s0.stopped, s0.sent,
                           s.clients, s.status, s.stopped, s.sent))
    && (m.CheckFragmentSchedule? && m.data.Text? && scheduled.None? ==>
          && s.tables == s0.tables && s.status == s0.status && s.ports == s0.ports
          && s.stopped == s0.stopped && s.sent == s0.sent
          && s.clients.Keys == s0.clients.Keys + (if m.data.text == "" then {} else {m.data.text}))
    && (m.CheckFragmentSchedule? && m.data.Text? && scheduled.Some? ==>
          ScheduleChecked(scheduled.value, h.outcome, h.run, remote, nodes, pred, ops, parse, s0,
                          s0.clients.Keys + (if m.data.text == "" then {} else {m.data.text}), s))
  }

  /** A worker's termination status checked as `WorkerChecked` says is handled as `Handled` says. */
  lemma WorkerHandled(worker: string, code: TerminationCode, scheduled: Option<map<string, string>>, remote: Remote,
                      nodes: seq<Node>, pred: Adjacency, ops: Operators, parse: LabelParser, h: Handling,
                      s0: DriverState, s: DriverState)
    requires s.tables == s0.tables && s.ports == s0.ports
    requires WorkerChecked(worker, code, h.others, s0.clients, s0.status, s0.stopped, s0.sent,
                           s.clients, s.status, s.stopped, s.sent)
    ensures Handled(WorkerExecutionFinished(WorkerStatus(worker, code)), scheduled, remote, nodes, pred, ops, parse,
                    h, s0, s)
  {
  }

  /**
   * The messages `ms` were handled in turn, the `k`-th with the scheduler's answer
   * `scheduler(k)`, as `Handled` says: `hs[k]` is what handling it left and it took the state
   * `states[k]` to `states[k + 1]`.
   */
  ghost predicate HandledInTurn(ms: seq<DriverMessage>, scheduler: nat -> Option<map<string, string>>,
                                remote: Remote, nodes: seq<Node>, pred: Adjacency, ops: Operators,
                                parse: LabelParser, hs: seq<Handling>, states: seq<DriverState>)
  {
    && |hs| == |ms| && |states| == |ms| + 1
    && forall k :: 0 <= k < |ms| ==>
         Handled(ms[k], scheduler(k), remote, nodes, pred, ops, parse, hs[k], states[k], states[k + 1])
  }

  /** Handling one more message extends the account. */
  lemma HandledSnoc(ms: seq<DriverMessage>, scheduler: nat -> Option<map<string, string>>, remote: Remote,
                    nodes: seq<Node>, pred: Adjacency, ops: Operators, parse: LabelParser, hs: seq<Handling>,
                    states: seq<DriverState>, m: DriverMessage, h: Handling, s: DriverState)
    requires HandledInTurn(ms, scheduler, remote, nodes, pred, ops, parse, hs, states)
    requires Handled(m, scheduler(|ms|), remote, nodes, pred, ops, parse, h, states[|ms|], s)
    ensures HandledInTurn(ms + [m], scheduler, remote, nodes, pred, ops, parse, hs + [h], states + [s])
  {
    var ms', hs', states' := ms + [m], hs + [h], states + [s];
    forall k | 0 <= k < |ms'|
      ensures Handled(ms'[k], scheduler(k), remote, nodes, pred, ops, parse, hs'[k], states'[k], states'[k + 1])
    {
      if k < |ms| {
        assert ms'[k] == ms[k] && hs'[k] == hs[k] && states'[k] == states[k] && states'[k + 1] == states[k + 1];
      }
    }
  }

  class AppDriver {
    /**
     * `connection_map_`, `receiver_port_map_`, `index_to_port_map_` and `index_to_ip_map_`,
     * which the driver always updates together.
     */
    var tables: Tables
    /** `app_status_`. */
    var status: AppStatus
    /** `driver_server_`. */
    const server: AppDriverServer
    /** `message_queue_`. */
    const messages: MessageQueue

    /**
     * What the tables hold is accounted for: `base`, then the links `links` recorded since,
     * numbered on from `first`.
     */
    ghost var base: Tables
    ghost var first: int
    ghost var links: seq<Link>

    ghost predicate Recorded()
      reads this`tables, this`base, this`links, this`first
    {
      tables == Ledger(base, links, first)
    }

    /** The account's origin and the status are as they were. */
    twostate predicate Kept()
      reads this`base, this`first, this`status
    {
      base == old(base) && first == old(first) && status == old(status)
    }

    /** The state a message acts on, with `g` the fragment graph. */
    ghost function StateOf(g: FlowGraph): DriverState
      reads this, g, server
    {
      DriverState(tables, g.ports, status, server.clients, server.stopped, server.sent)
    }

    constructor (server: AppDriverServer)
      ensures tables == NoTables && status == NotStarted && this.server == server
      ensures Recorded() && links == [] && first == 0
      ensures fresh(messages) && messages.Valid() && messages.items == []
    {
      tables := NoTables;
      status := NotStarted;
      this.server := server;
      messages := new MessageQueue();
      base, first, links := NoTables, 0, [];
    }

    /** Records link `l` under port index `i`, the next one, in all four tables. */
    method RecordLink(l: Link, i: int)
      requires Recorded() && i == first + |links|
      modifies this
      ensures Recorded() && Kept() && links == old(links) + [l]
    {
      LedgerSnoc(base, links, l, first);
      tables := Record(tables, l, i);
      links := links + [l];
    }

    /** Records the connections from upstream label `k` of `u` to each label `ts` of `v`, numbered on from `start`. */
    method RecordKey(u: Node, v: Node, k: string, ts: seq<string>, start: int)
      requires Recorded() && start == first + |links|
      modifies this
      ensures Recorded() && Kept() && links == old(links) + KeyLinks(u, v, k, ts)
    {
      var j := 0;
      while j < |ts|
        invariant 0 <= j <= |ts|
        invariant Recorded() && Kept() && links == old(links) + KeyLinks(u, v, k, ts[..j])
        invariant start + j == first + |links|
      {
        KeyLinksSnoc(u, v, k, ts, j);
        RecordLink(Link(u, v, k, ts[j]), start + j);
        j := j + 1;
      }
      assert ts[..j] == ts;
    }

    /** Records the connections from upstream label `k` to each downstream label of `ts`, in ascending order. */
    method RecordLabel(u: Node, v: Node, k: string, ts: set<string>, start: int) returns (next: int)
      requires Recorded() && start == first + |links|
      modifies this
      ensures Recorded() && Kept() && links == old(links) + KeyLinks(u, v, k, Sorted(ts))
      ensures next == first + |links|
    {
      var targets := SortedElements(ts);
      RecordKey(u, v, k, targets, start);
      next := start + |targets|;
    }

    /**
     * Records every connection of edge `u -> v` with port map `m`: upstream labels in ascending
     * order, each with its destinations in ascending order, numbered on from `start`.
     */
    method RecordEdge(u: Node, v: Node, m: PortMap, start: int) returns (next: int)
      requires Recorded() && start == first + |links|
      modifies this
      ensures Recorded() && Kept() && links == old(links) + EdgeLinks(u, v, m)
      ensures next == first + |links|
    {
      var keys := SortedElements(m.Keys);
      assert forall j :: 0 <= j < |keys| ==> keys[j] in m by {
        SortedSpec(m.Keys);
        assert forall j :: 0 <= j < |keys| ==> keys[j] in Elements(keys);
      }
      next := start;
      var i := 0;
      while i < |keys|
        invariant 0 <= i <= |keys|
        invariant Recorded() && Kept() && links == old(links) + MapLinks(u, v, m, keys[..i])
        invariant next == first + |links|
      {
        MapLinksSnoc(u, v, m, keys, i);
        ConcatAssoc(old(links), MapLinks(u, v, m, keys[..i]), KeyLinks(u, v, keys[i], Sorted(m[keys[i]])));
        next := RecordLabel(u, v, keys[i], m[keys[i]], next);
        i := i + 1;
      }
      assert keys[..i] == keys;
    }

    /**
     * The body of `collect_connections` for one edge `u -> v`: the edge's shared port map has its
     * labels corrected in place (`update_port_names`); on success its connections are recorded,
     * numbered on from `start`, and on failure nothing is recorded.
     */
    method ConnectEdge(g: FlowGraph, u: Node, v: Node, ops: Operators, parse: LabelParser, start: int)
      returns (ok: bool, next: int)
      requires g.Valid() && g.HasEdge(u, v) && (u, v) in g.ports && TargetsKnown(g.ports[(u, v)], ops(v), parse)
      requires Recorded() && start == first + |links|
      modifies this, g
      ensures g.Valid() && unchanged(g`succ, g`pred, g`orderedNodes, g`nameMap)
      ensures var f := Repair(ops, parse)((u, v), old(g.ports[(u, v)]));
              g.ports == old(g.ports)[(u, v) := f.0] && ok == f.1
      ensures Recorded() && Kept() && next == first + |links|
      ensures links == old(links) + if ok then EdgeEmitter()((u, v), g.ports[(u, v)]) else []
    {
      var pm := g.GetPortMap(u, v);
      var r;
      ok, r := UpdatePortNames(pm.value, ops(u), ops(v), parse);
      g.SetPortMap(u, v, r);
      if !ok {
        return false, start;
      }
      next := RecordEdge(u, v, r, start);
    }

    /**
     * One edge `prevs[i] -> v` of `ConnectPredecessors`, with the edges before it collected
     * successfully: what is left of the collection, `Collect` from the current port maps on,
     * either goes on after this edge or ends with it.
     */
    method ConnectNext(g: FlowGraph, v: Node, prevs: seq<Node>, i: nat, ops: Operators, parse: LabelParser, start: int,
                       ghost p0: Ports, ghost before: seq<Link>, ghost added: seq<Link>)
      returns (ok: bool, next: int, ghost added': seq<Link>)
      requires g.Valid() && i < |prevs| && NoDuplicates(prevs)
      requires var u := prevs[i]; g.HasEdge(u, v) && (u, v) in p0 && TargetsKnown(p0[(u, v)], ops(v), parse)
      requires Progress(p0, g.ports, Into(prevs, v), i, true, added, Repair(ops, parse))
      requires Recorded() && start == first + |links| && links == before + added
      modifies this, g
      ensures g.Valid() && unchanged(g`succ, g`pred, g`orderedNodes, g`nameMap)
      ensures Recorded() && Kept() && next == first + |links| && links == before + added'
      ensures Progress(p0, g.ports, Into(prevs, v), if ok then i + 1 else i, ok, added', Repair(ops, parse))
    {
      ghost var es, fix, emit := Into(prevs, v), Repair(ops, parse), EdgeEmitter();
      var u := prevs[i];
      assert es[i] == (u, v);
      CollectStep(p0, g.ports, es, i, fix, emit, added);
      ghost var f := fix((u, v), g.ports[(u, v)]);
      ok, next := ConnectEdge(g, u, v, ops, parse, start);
      if ok {
        ConcatAssoc(before, added, emit((u, v), f.0));
        added' := added + emit((u, v), f.0);
      } else {
        added' := added;
      }
    }

    /**
     * The body of `collect_connections` for fragment `v`: each edge from `prevs` into `v`, in
     * turn, until one fails. The outcome is that of `Collect` on those edges; `added` are the
     * links recorded.
     */
    method ConnectPredecessors(g: FlowGraph, v: Node, prevs: seq<Node>, ops: Operators, parse: LabelParser, start: int)
      returns (ok: bool, next: int, ghost added: seq<Link>)
      requires g.Valid() && NoDuplicates(prevs)
      requires forall u :: u in prevs ==> g.HasEdge(u, v) && (u, v) in g.ports && TargetsKnown(g.ports[(u, v)], ops(v), parse)
      requires Recorded() && start == first + |links|
      modifies this, g
      ensures g.Valid() && unchanged(g`succ, g`pred, g`orderedNodes, g`nameMap)
      ensures Mapped(old(g.ports), Into(prevs, v))
      ensures Collect(old(g.ports), Into(prevs, v), Repair(ops, parse), EdgeEmitter()) == Collected(g.ports, added, ok)
      ensures Recorded() && Kept() && next == first + |links| && links == old(links) + added
    {
      ghost var p0, es, fix := g.ports, Into(prevs, v), Repair(ops, parse);
      IntoMembers(prevs, v);
      ProgressStart(p0, es, fix);
      added := [];
      ok, next := true, start;
      var i := 0;
      while i < |prevs| && ok
        invariant 0 <= i <= |prevs|
        invariant g.Valid() && unchanged(g`succ, g`pred, g`orderedNodes, g`nameMap)
        invariant Recorded() && Kept() && next == first + |links| && links == old(links) + added
        invariant Progress(p0, g.ports, es, i, ok, added, fix)
        decreases |prevs| - i, ok
      {
        assert prevs[i] in prevs;
        ok, next, added := ConnectNext(g, v, prevs, i, ops, parse, next, p0, old(links), added);
        if ok {
          i := i + 1;
        }
      }
      ProgressDone(p0, g.ports, es, i, ok, added, fix);
    }

    /**
     * One visit of `collect_connections`: fragment `frag`, not visited before, has its
     * predecessors enumerated and the edges from them collected, extending the collection so far.
     */
    method VisitFragment(g: FlowGraph, frag: Node, ops: Operators, parse: LabelParser, start: int, ghost p0: Ports,
                         ghost visits: seq<Node>, ghost groups: seq<seq<Node>>)
      returns (ok: bool, next: int, prevs: seq<Node>)
      requires g.Valid() && Wired(p0, ops, parse) && frag in g.orderedNodes && frag !in visits && NoDuplicates(visits)
      requires Enumerates(visits, groups, g.pred)
      requires var edges := Grouped(visits, groups);
               Mapped(p0, edges) && Collect(p0, edges, Repair(ops, parse), EdgeEmitter()) == Collected(g.ports, links, true)
      requires Recorded() && start == first + |links|
      modifies this, g
      ensures g.Valid() && unchanged(g`succ, g`pred, g`orderedNodes, g`nameMap)
      ensures Recorded() && Kept() && next == first + |links|
      ensures Enumerates(visits + [frag], groups + [prevs], g.pred)
      ensures var edges := Grouped(visits + [frag], groups + [prevs]);
              Mapped(p0, edges) && Collect(p0, edges, Repair(ops, parse), EdgeEmitter()) == Collected(g.ports, links, ok)
    {
      ghost var edges := Grouped(visits, groups);
      prevs := g.GetPreviousNodes(frag);
      VisitStep(g.State(), frag, prevs, visits, groups, edges, p0, ops, parse);
      ghost var before := links;
      ghost var added;
      ok, next, added := ConnectPredecessors(g, frag, prevs, ops, parse, start);
      CollectAppend(p0, edges, Into(prevs, frag), Repair(ops, parse), EdgeEmitter());
      GroupedSnoc(visits, groups, frag, prevs);
    }

    /**
     * One turn of the loop of `collect_connections` with fragments left to visit: the cycle
     * breaking if the work list has run dry, then the visit of the first fragment on it.
     */
    method VisitNext(g: FlowGraph, fragments: seq<Node>, ops: Operators, parse: LabelParser, start: int, ghost p0: Ports,
                     worklist: seq<Node>, indegrees: map<Node, int>, visited: set<Node>,
                     ghost visits: seq<Node>, ghost groups: seq<seq<Node>>, ghost refilled: bool)
      returns (ok: bool, next: int, worklist': seq<Node>, indegrees': map<Node, int>, visited': set<Node>,
               ghost visits': seq<Node>, ghost groups': seq<seq<Node>>, ghost refilled': bool)
      requires g.Valid() && Wired(p0, ops, parse) && fragments == g.orderedNodes
      requires Queued(fragments, g.pred, visits, worklist, indegrees, refilled)
      requires visited == Elements(visits) && |visited| == |visits|
      requires worklist != [] || |visited| != |fragments|
      requires Enumerates(visits, groups, g.pred)
      requires var edges := Grouped(visits, groups);
               Mapped(p0, edges) && Collect(p0, edges, Repair(ops, parse), EdgeEmitter()) == Collected(g.ports, links, true)
      requires Recorded() && start == first + |links|
      modifies this, g
      ensures g.Valid() && unchanged(g`succ, g`pred, g`orderedNodes, g`nameMap)
      ensures Recorded() && Kept() && next == first + |links|
      ensures Queued(fragments, g.pred, visits', worklist', indegrees', refilled')
      ensures visited' == Elements(visits') && |visited'| == |visits'| == |visits| + 1 && |visits'| <= |fragments|
      ensures visits' <= Schedule(fragments, g.pred)
      ensures Enumerates(visits', groups', g.pred)
      ensures var edges := Grouped(visits', groups');
              Mapped(p0, edges) && Collect(p0, edges, Repair(ops, parse), EdgeEmitter()) == Collected(g.ports, links, ok)
    {
      var frag;
      frag, worklist', indegrees', visited', visits', refilled' :=
        Dequeue(fragments, g.pred, worklist, indegrees, visited, visits, refilled);
      var prevs;
      ok, next, prevs := VisitFragment(g, frag, ops, parse, start, p0, visits, groups);
      groups' := groups + [prevs];
    }

    /**
     * The loop of `collect_connections`: visits fragments, from the roots on the initial work
     * list, until all are visited or a visit fails, extending the collection started at `p0`.
     */
    method VisitAll(g: FlowGraph, fragments: seq<Node>, ops: Operators, parse: LabelParser, ghost p0: Ports,
                    worklist: seq<Node>, indegrees: map<Node, int>)
      returns (ok: bool, ghost visits: seq<Node>, ghost groups: seq<seq<Node>>)
      requires g.Valid() && Wired(p0, ops, parse) && fragments == g.orderedNodes && g.ports == p0
      requires Queued(fragments, g.pred, [], worklist, indegrees, false)
      requires Recorded() && links == [] && first == 0
      modifies this, g
      ensures g.Valid() && unchanged(g`succ, g`pred, g`orderedNodes, g`nameMap)
      ensures Recorded() && Kept()
      ensures Enumerates(visits, groups, g.pred)
      ensures visits <= Schedule(fragments, g.pred) && (ok ==> visits == Schedule(fragments, g.pred))
      ensures var edges := Grouped(visits, groups);
              Mapped(p0, edges) && Collect(p0, edges, Repair(ops, parse), EdgeEmitter()) == Collected(g.ports, links, ok)
    {
      visits, groups := [], [];
      var worklist, indegrees := worklist, indegrees;
      var visited: set<Node> := {};
      ghost var refilled := false;
      var next := 0;
      while true
        invariant g.Valid() && unchanged(g`succ, g`pred, g`orderedNodes, g`nameMap)
        invariant Recorded() && Kept() && next == first + |links|
        invariant Queued(fragments, g.pred, visits, worklist, indegrees, refilled)
        invariant visited == Elements(visits) && |visited| == |visits| <= |fragments|
        invariant visits <= Schedule(fragments, g.pred)
        invariant Enumerates(visits, groups, g.pred)
        invariant var edges := Grouped(visits, groups);
                  Mapped(p0, edges) && Collect(p0, edges, Repair(ops, parse), EdgeEmitter()) == Collected(g.ports, links, true)
        decreases |fragments| - |visits|
      {
        if worklist == [] && |visited| == |fragments| {
          QueuedDone(fragments, g.pred, visits, indegrees, refilled);
          return true, visits, groups;
        }
        var okv;
        okv, next, worklist, indegrees, visited, visits, groups, refilled :=
          VisitNext(g, fragments, ops, parse, next, p0, worklist, indegrees, visited, visits, groups, refilled);
        if !okv {
          return false, visits, groups;
        }
      }
    }

    /** The account of the tables starts afresh from the tables as they are, at port index 0. */
    method StartLedger()
      modifies this`base, this`first, this`links
      ensures Recorded() && base == old(tables) && first == 0 && links == []
    {
      base, first, links := tables, 0, [];
    }

    /**
     * The work of `collect_connections` when nothing was collected before: the in-degrees and
     * the roots, then the visits, recorded from port index 0 on.
     */
    method CollectFresh(g: FlowGraph, ops: Operators, parse: LabelParser)
      returns (ok: bool, ghost visits: seq<Node>, ghost groups: seq<seq<Node>>)
      requires g.Valid() && Wired(g.ports, ops, parse)
      modifies this, g
      ensures g.Valid() && unchanged(g`succ, g`pred, g`orderedNodes, g`nameMap) && status == old(status)
      ensures Enumerates(visits, groups, g.pred)
      ensures visits <= Schedule(g.orderedNodes, g.pred) && (ok ==> visits == Schedule(g.orderedNodes, g.pred))
      ensures var edges := Grouped(visits, groups);
              && Mapped(old(g.ports), edges)
              && var r := Collect(old(g.ports), edges, Repair(ops, parse), EdgeEmitter());
                 r.ok == ok && g.ports == r.ports && tables == Ledger(old(tables), r.links, 0)
    {
      var fragments, indegrees, worklist := Roots(g);
      StartLedger();
      ok, visits, groups := VisitAll(g, fragments, ops, parse, g.ports, worklist, indegrees);
    }

    /**
     * `terminate_all_workers`: every open connection's worker, in the order `order` of the
     * connections, is asked to stop with `code`, and every connection is closed.
     */
    method TerminateAllWorkers(code: TerminationCode) returns (order: seq<string>)
      requires server.Valid()
      modifies server
      ensures server.Valid() && server.clients == map[] && server.stopped == old(server.stopped)
      ensures NoDuplicates(order) && Elements(order) == old(server.clients).Keys
      ensures server.sent == old(server.sent) + Terminations(order, code)
    {
      order := server.GetWorkerAddresses();
      TerminateEach(server, order, code);
    }

    /**
     * `check_worker_execution`: worker `worker` reports that it ended with `code`. Its
     * connection is closed; a worker that was not connected changes nothing more. A success
     * that leaves no connection open finishes the application, unless it already failed, and
     * stops the server; a cancellation or a failure stops every other worker (`others`) with
     * the same code, marks the application failed and stops the server.
     */
    method CheckWorkerExecution(worker: string, code: TerminationCode) returns (others: seq<string>)
      requires server.Valid()
      modifies this`status, server
      ensures server.Valid()
      ensures WorkerChecked(worker, code, others, old(server.clients), old(status), old(server.stopped), old(server.sent),
                            server.clients, status, server.stopped, server.sent)
    {
      others := [];
      var closed := server.CloseWorkerConnection(worker);
      if !closed {
        return;
      }
      if code.Success? {
        if server.NumWorkerConnections() == 0 {
          if status != Error {
            status := Finished;
          }
          server.Stop();
        }
      } else {
        others := TerminateAllWorkers(code);
        status := Error;
        server.Stop();
      }
    }

    /**
     * `collect_connections`: unless connections were collected already, visits every fragment
     * (the roots first, then, breaking cycles, every other one), correcting and recording the
     * connections of each of its incoming edges, from port index 0 on, and stops at the first
     * failure. `visits`, `groups` and `edges` are the fragments visited, the predecessors of
     * each as they were enumerated, and the edges gone through.
     */
    method CollectConnections(g: FlowGraph, ops: Operators, parse: LabelParser)
      returns (ok: bool, ghost visits: seq<Node>, ghost groups: seq<seq<Node>>, ghost edges: seq<(Node, Node)>)
      requires g.Valid() && Wired(g.ports, ops, parse)
      modifies this, g
      ensures g.Valid() && unchanged(g`succ, g`pred, g`orderedNodes, g`nameMap) && status == old(status)
      ensures Gathered(old(tables), old(g.ports), g.orderedNodes, g.pred, ops, parse, visits, groups, edges, ok,
                       tables, g.ports)
      ensures ReadsBack(ops, parse) ==> Wired(g.ports, ops, parse)
      ensures ReceiversNamed(old(tables.receivers), g.orderedNodes) ==> ReceiversNamed(tables.receivers, g.orderedNodes)
    {
      if tables.connections != map[] {
        ok, visits, groups, edges := true, [], [], [];
        assert old(tables.connections) != map[];
      } else {
        ghost var g0, t0 := g.State(), tables;
        ok, visits, groups := CollectFresh(g, ops, parse);
        edges := Grouped(visits, groups);
        if ReadsBack(ops, parse) {
          CollectKeepsWired(g0.ports, edges, ops, parse);
        }
        if ReceiversNamed(t0.receivers, g0.nodes) {
          CollectKeepsNamed(g0, edges, Repair(ops, parse), t0);
        }
      }
    }

    /**
     * The middle of `check_fragment_schedule`: the connection indices are readdressed and the
     * ports negotiated as `Planned` says, and the driver connects to every worker it looks up
     * or asks for ports.
     */
    method NegotiateSchedule(schedule: map<string, string>, remote: Remote, nodes: seq<Node>)
      returns (short: Option<string>, schedule': map<string, string>, workers: seq<string>,
               groups: map<string, seq<string>>, ghost offered: map<string, seq<int>>,
               ghost used: map<string, seq<int>>)
      requires server.Valid() && server.clients.Keys <= schedule.Values && ReceiversNamed(tables.receivers, nodes)
      modifies this, server
      ensures server.Valid() && server.stopped == old(server.stopped) && server.sent == old(server.sent)
      ensures status == old(status) && ReceiversNamed(tables.receivers, nodes)
      ensures Planned(old(tables), schedule, remote, short, tables, schedule', workers, groups, offered, used)
      ensures Elements(workers) == schedule'.Values
      ensures old(server.clients).Keys <= server.clients.Keys <= schedule'.Values
      ensures short.None? ==> server.clients.Keys == schedule'.Values
    {
      var t', connects;
      short, t', schedule', workers, groups, connects, offered, used := PlanPorts(tables, nodes, schedule, remote);
      WorkersCompleted(schedule, tables.indexToIp.Values);
      ConnectEach(server, connects);
      NamedKept(tables.receivers, t'.receivers, nodes);
      tables := t';
    }

    /**
     * The launches of `check_fragment_schedule`: the connection map is corrected
     * (`CorrectTables`), then the driver connects to each worker in turn and asks it to launch
     * its fragments with the corrected map; `contacted` are the workers asked. The first
     * refusal stops every connected worker (`order`) with `Failure`, marks the application
     * failed and stops the server; when every worker accepts, the application is running.
     */
    method Dispatch(workers: seq<string>, groups: map<string, seq<string>>,
                    launches: (string, seq<string>, map<Node, seq<ConnectionItem>>) -> bool)
      returns (failed: Option<string>, contacted: seq<string>, order: seq<string>)
      requires server.Valid()
      modifies this`tables, this`status, server
      ensures server.Valid() && Readied(old(tables), tables)
      ensures contacted <= workers && Elements(contacted) <= Elements(workers)
      ensures failed.None? ==>
                && contacted == workers && status == Running && server.stopped == old(server.stopped)
                && server.clients.Keys == old(server.clients).Keys + Elements(workers)
                && server.sent == old(server.sent)
                && forall w :: w in workers ==> launches(w, GroupOf(groups, w), tables.connections)
      ensures failed.Some? ==>
                && contacted != [] && failed.value == contacted[|contacted| - 1] && failed.value in workers
                && !launches(failed.value, GroupOf(groups, failed.value), tables.connections)
                && status == Error && server.stopped && server.clients == map[]
                && NoDuplicates(order) && Elements(order) == old(server.clients).Keys + Elements(contacted)
                && server.sent == old(server.sent) + Terminations(order, TerminationCode.Failure)
    {
      var _, t' := CorrectTables(tables);
      tables := t';
      order := [];
      failed, contacted := LaunchAll(workers, groups, tables.connections, launches);
      assert Elements(contacted) <= Elements(workers) by {
        assert forall k :: 0 <= k < |contacted| ==> contacted[k] == workers[k];
      }
      ConnectEach(server, contacted);
      if failed.Some? {
        order := TerminateAllWorkers(TerminationCode.Failure);
        status := Error;
        server.Stop();
      } else {
        status := Running;
      }
    }

    /**
     * The end of `check_fragment_schedule`, on the plan the negotiation left (the tables, the
     * completed schedule `schedule`, the workers and their fragments): a worker short of ports
     * (`short`) ends the check with the application status unchanged, and otherwise the
     * fragments are dispatched (`Dispatch`) to the workers, which the driver is connected to.
     */
    method Launch(short: Option<string>, schedule: map<string, string>, workers: seq<string>,
                  groups: map<string, seq<string>>, remote: Remote)
      returns (outcome: ScheduleOutcome, ghost order: seq<string>)
      requires server.Valid()
      requires short.None? ==> server.clients.Keys == schedule.Values == Elements(workers)
      modifies this`tables, this`status, server
      ensures server.Valid() && tables.receivers == old(tables.receivers) && ShortOf(outcome) == short
      ensures short.Some? ==> server.clients == old(server.clients)
      ensures Settled(outcome, remote, old(tables), schedule, workers, groups, order, old(status), old(server.stopped),
                      old(server.sent), tables, status, server.stopped, server.clients.Keys, server.sent)
    {
      order := [];
      if short.Some? {
        return PortShortage(short.value), [];
      }
      var failed, contacted;
      failed, contacted, order := Dispatch(workers, groups, remote.launches);
      if failed.Some? {
        assert Elements(order) == schedule.Values;
        outcome := LaunchFailed(failed.value);
      } else {
        assert server.clients.Keys == schedule.Values;
        outcome := Launched;
      }
    }

    /**
     * `check_fragment_schedule` once the scheduler has produced `schedule` and the connections
     * have been collected over the fragments `nodes`: the connected workers the schedule leaves
     * out (`idle`) are asked to stop with `Cancelled` (`CancelIdle`), the ports are negotiated
     * (`NegotiateSchedule`, leaving the tables `planned`), and the check ends as `Launch` says.
     */
    method RunSchedule(schedule: map<string, string>, remote: Remote, nodes: seq<Node>)
      returns (outcome: ScheduleOutcome, ghost planned: Tables, ghost schedule': map<string, string>,
               ghost workers: seq<string>, ghost groups: map<string, seq<string>>, ghost offered: map<string, seq<int>>,
               ghost used: map<string, seq<int>>, ghost idle: seq<string>, ghost order: seq<string>)
      requires server.Valid() && ReceiversNamed(tables.receivers, nodes)
      modifies this, server
      ensures server.Valid() && ReceiversNamed(tables.receivers, nodes)
      ensures Planned(old(tables), schedule, remote, ShortOf(outcome), planned, schedule', workers, groups, offered, used)
      ensures NoDuplicates(idle) && Elements(idle) == old(server.clients).Keys - schedule.Values
      ensures outcome.PortShortage? ==> old(server.clients).Keys * schedule.Values <= server.clients.Keys <= schedule'.Values
      ensures Settled(outcome, remote, planned, schedule', workers, groups, order, old(status), old(server.stopped),
                      old(server.sent) + Terminations(idle, Cancelled),
                      tables, status, server.stopped, server.clients.Keys, server.sent)
    {
      idle := CancelIdle(server, schedule);
      var short, ws, gs, sched;
      short, sched, ws, gs, offered, used := NegotiateSchedule(schedule, remote, nodes);
      planned, schedule', workers, groups := tables, sched, ws, gs;
      outcome, order := Launch(short, sched, ws, gs, remote);
    }

    /**
     * `check_fragment_schedule` with a schedule: the connections are collected as `Gathered`
     * says (`CollectConnections`, leaving the tables `collected`; a failure `collectedOk` is
     * only logged) and the schedule is carried out on them as `RunSchedule` says.
     */
    method CollectAndRun(schedule: map<string, string>, remote: Remote, g: FlowGraph, ops: Operators, parse: LabelParser)
      returns (outcome: ScheduleOutcome, ghost visits: seq<Node>, ghost preds: seq<seq<Node>>,
               ghost edges: seq<(Node, Node)>, ghost collectedOk: bool, ghost collected: Tables,
               ghost planned: Tables, ghost schedule': map<string, string>, ghost workers: seq<string>,
               ghost groups: map<string, seq<string>>, ghost offered: map<string, seq<int>>,
               ghost used: map<string, seq<int>>, ghost idle: seq<string>, ghost order: seq<string>)
      requires server.Valid() && g.Valid() && Wired(g.ports, ops, parse) && ReceiversNamed(tables.receivers, g.orderedNodes)
      modifies this, g, server
      ensures server.Valid() && g.Valid() && unchanged(g`succ, g`pred, g`orderedNodes, g`nameMap)
      ensures ReadsBack(ops, parse) ==> Wired(g.ports, ops, parse)
      ensures ReceiversNamed(tables.receivers, g.orderedNodes)
      ensures Gathered(old(tables), old(g.ports), g.orderedNodes, g.pred, ops, parse, visits, preds, edges, collectedOk,
                       collected, g.ports)
      ensures Planned(collected, schedule, remote, ShortOf(outcome), planned, schedule', workers, groups, offered, used)
      ensures NoDuplicates(idle) && Elements(idle) == old(server.clients).Keys - schedule.Values
      ensures outcome.PortShortage? ==> old(server.clients).Keys * schedule.Values <= server.clients.Keys <= schedule'.Values
      ensures Settled(outcome, remote, planned, schedule', workers, groups, order, old(status), old(server.stopped),
                      old(server.sent) + Terminations(idle, Cancelled),
                      tables, status, server.stopped, server.clients.Keys, server.sent)
    {
      var ok;
      ok, visits, preds, edges := CollectConnections(g, ops, parse);
      collectedOk, collected := ok, tables;
      var nodes := g.GetNodes();
      outcome, planned, schedule', workers, groups, offered, used, idle, order := RunSchedule(schedule, remote, nodes);
    }

    /**
     * `check_fragment_schedule`: the driver connects to the worker that asked, if any, and asks
     * the scheduler for a schedule (`scheduled`). Without one nothing else happens. With one,
     * the check goes on as `ScheduleChecked` says, on the workers connected by then.
     */
    method CheckFragmentSchedule(workerAddress: string, scheduled: Option<map<string, string>>, remote: Remote,
                                 g: FlowGraph, ops: Operators, parse: LabelParser)
      returns (outcome: ScheduleOutcome, ghost run: ScheduleRun)
      requires server.Valid() && g.Valid() && Wired(g.ports, ops, parse) && ReceiversNamed(tables.receivers, g.orderedNodes)
      modifies this, g, server
      ensures server.Valid() && g.Valid() && unchanged(g`succ, g`pred, g`orderedNodes, g`nameMap)
      ensures ReadsBack(ops, parse) ==> Wired(g.ports, ops, parse)
      ensures ReceiversNamed(tables.receivers, g.orderedNodes)
      ensures scheduled.None? ==>
                && outcome == NoSchedule && tables == old(tables) && status == old(status)
                && g.ports == old(g.ports) && server.stopped == old(server.stopped) && server.sent == old(server.sent)
                && server.clients.Keys == old(server.clients).Keys + (if workerAddress == "" then {} else {workerAddress})
      ensures scheduled.Some? ==>
                ScheduleChecked(scheduled.value, outcome, run, remote, g.orderedNodes, g.pred, ops, parse, old(StateOf(g)),
                                old(server.clients).Keys + (if workerAddress == "" then {} else {workerAddress}),
                                StateOf(g))
    {
      run := ScheduleRun([], [], [], true, tables, tables, map[], [], map[], map[], map[], [], []);
      if workerAddress != "" {
        var _ := server.ConnectToWorker(workerAddress);
      }
      assert server.clients.Keys == old(server.clients).Keys + (if workerAddress == "" then {} else {workerAddress});
      assert server.sent == old(server.sent) && server.stopped == old(server.stopped) && tables == old(tables);
      if scheduled.None? {
        outcome := NoSchedule;
        return;
      }
      ghost var visits, preds, edges, collectedOk, collected, planned, schedule', workers, groups, offered, used, idle, order;
      outcome, visits, preds, edges, collectedOk, collected, planned, schedule', workers, groups, offered, used, idle, order :=
        CollectAndRun(scheduled.value, remote, g, ops, parse);
      run := ScheduleRun(visits, preds, edges, collectedOk, collected, planned, schedule', workers, groups, offered,
                         used, idle, order);
    }

    /** `submit_message`: `m` joins the back of the message queue. */
    method SubmitMessage(m: DriverMessage)
      requires messages.Valid()
      modifies messages
      ensures messages.Valid() && messages.items == old(messages.items) + [m]
      ensures messages.popped == old(messages.popped)
    {
      messages.Push(m);
    }

    /**
     * A schedule check asked for by the worker at `address`: `check_fragment_schedule` runs as
     * `CheckFragmentSchedule` says, with `outcome` and `run` what it leaves, which is how
     * `Handled` says such a message is handled.
     */
    method ScheduleRequested(address: string, scheduled: Option<map<string, string>>, remote: Remote,
                             g: FlowGraph, ops: Operators, parse: LabelParser)
      returns (ghost outcome: ScheduleOutcome, ghost run: ScheduleRun)
      requires server.Valid() && g.Valid() && Wired(g.ports, ops, parse) && ReadsBack(ops, parse)
      requires ReceiversNamed(tables.receivers, g.orderedNodes)
      modifies this, g, server
      ensures server.Valid() && g.Valid() && unchanged(g`succ, g`pred, g`orderedNodes, g`nameMap)
      ensures Wired(g.ports, ops, parse) && ReceiversNamed(tables.receivers, g.orderedNodes)
      ensures old(server.stopped) ==> server.stopped
      ensures old(server.sent) <= server.sent
      ensures scheduled.None? ==>
                && tables == old(tables) && status == old(status) && g.ports == old(g.ports)
                && server.stopped == old(server.stopped) && server.sent == old(server.sent)
                && server.clients.Keys == old(server.clients).Keys + (if address == "" then {} else {address})
      ensures scheduled.Some? ==>
                ScheduleChecked(scheduled.value, outcome, run, remote, g.orderedNodes, g.pred, ops, parse, old(StateOf(g)),
                                old(server.clients).Keys + (if address == "" then {} else {address}), StateOf(g))
      ensures Handled(DriverMessage.CheckFragmentSchedule(Text(address)), scheduled, remote, g.orderedNodes, g.pred,
                      ops, parse, Handling(outcome, run, []), old(StateOf(g)), StateOf(g))
    {
      outcome, run := CheckFragmentSchedule(address, scheduled, remote, g, ops, parse);
    }

    /**
     * One message of `process_message_queue`, with `scheduled` the scheduler's answer should the
     * message ask for a schedule, handled as `Handled` says: a schedule check is handed on to
     * `check_fragment_schedule` and a worker's termination to `check_worker_execution` (`h`
     * being what they leave); a payload of the wrong type and an unknown code are only logged;
     * a request to terminate stops the server. Whatever happens, a stopped server stays stopped
     * and the termination requests sent stay sent.
     */
    method HandleMessage(m: DriverMessage, scheduled: Option<map<string, string>>, remote: Remote,
                         g: FlowGraph, ops: Operators, parse: LabelParser)
      returns (ghost h: Handling)
      requires server.Valid() && g.Valid() && Wired(g.ports, ops, parse) && ReadsBack(ops, parse)
      requires ReceiversNamed(tables.receivers, g.orderedNodes)
      modifies this, g, server
      ensures server.Valid() && g.Valid() && unchanged(g`succ, g`pred, g`orderedNodes, g`nameMap)
      ensures Wired(g.ports, ops, parse) && ReceiversNamed(tables.receivers, g.orderedNodes)
      ensures old(server.stopped) ==> server.stopped
      ensures old(server.sent) <= server.sent
      ensures m.TerminateServer? ==> server.stopped
      ensures Handled(m, scheduled, remote, g.orderedNodes, g.pred, ops, parse, h, old(StateOf(g)), StateOf(g))
    {
      h := Handling(NoSchedule, ScheduleRun([], [], [], true, tables, tables, map[], [], map[], map[], map[], [], []), []);
      match m
      case CheckFragmentSchedule(data) =>
        if data.Text? {
          ghost var outcome, run;
          outcome, run := ScheduleRequested(data.text, scheduled, remote, g, ops, parse);
          h := Handling(outcome, run, []);
        }
      case WorkerExecutionFinished(data) =>
        if data.WorkerStatus? {
          var others := CheckWorkerExecution(data.worker, data.code);
          h := h.(others := others);
          WorkerHandled(data.worker, data.code, scheduled, remote, g.orderedNodes, g.pred, ops, parse, h,
                        old(StateOf(g)), StateOf(g));
        }
      case TerminateServer =>
        server.Stop();
      case Unknown(_) =>
    }

    /**
     * One turn of `process_message_queue`: the oldest message `m` leaves the queue and is
     * handled as `Handled` says, with `scheduled` the scheduler's answer.
     */
    method ProcessNext(scheduled: Option<map<string, string>>, remote: Remote,
                       g: FlowGraph, ops: Operators, parse: LabelParser)
      returns (m: DriverMessage, ghost h: Handling)
      requires messages.Valid() && messages.items != []
      requires server.Valid() && g.Valid() && Wired(g.ports, ops, parse) && ReadsBack(ops, parse)
      requires ReceiversNamed(tables.receivers, g.orderedNodes)
      modifies this, g, server, messages
      ensures messages.Valid() && m == old(messages.items)[0] && messages.items == old(messages.items)[1..]
      ensures messages.pushed == old(messages.pushed) && messages.popped == old(messages.popped) + [m]
      ensures server.Valid() && g.Valid() && unchanged(g`succ, g`pred, g`orderedNodes, g`nameMap)
      ensures Wired(g.ports, ops, parse) && ReceiversNamed(tables.receivers, g.orderedNodes)
      ensures old(server.stopped) ==> server.stopped
      ensures m.TerminateServer? ==> server.stopped
      ensures old(server.sent) <= server.sent
      ensures Handled(m, scheduled, remote, g.orderedNodes, g.pred, ops, parse, h, old(StateOf(g)), StateOf(g))
    {
      m := messages.Pop();
      h := HandleMessage(m, scheduled, remote, g, ops, parse);
    }

    /**
     * `process_message_queue`: every queued message is taken off the queue and handled, oldest
     * first, the `k`-th with the scheduler's answer `scheduler(k)`, until the queue is empty.
     * Each message is handled as `Handled` says, `states` being the states from one message to
     * the next and `hs` what each handling left. A stopped server stays stopped, a request to
     * terminate among the messages leaves it stopped, and the termination requests sent stay
     * sent.
     */
    method ProcessMessageQueue(scheduler: nat -> Option<map<string, string>>, remote: Remote,
                               g: FlowGraph, ops: Operators, parse: LabelParser)
      returns (ghost hs: seq<Handling>, ghost states: seq<DriverState>)
      requires messages.Valid() && server.Valid() && g.Valid() && Wired(g.ports, ops, parse) && ReadsBack(ops, parse)
      requires ReceiversNamed(tables.receivers, g.orderedNodes)
      modifies this, g, server, messages
      ensures messages.Valid() && messages.items == [] && messages.popped == old(messages.popped) + old(messages.items)
      ensures messages.pushed == old(messages.pushed)
      ensures server.Valid() && g.Valid() && unchanged(g`succ, g`pred, g`orderedNodes, g`nameMap)
      ensures Wired(g.ports, ops, parse) && ReceiversNamed(tables.receivers, g.orderedNodes)
      ensures HandledInTurn(old(messages.items), scheduler, remote, g.orderedNodes, g.pred, ops, parse, hs, states)
      ensures states[0] == old(StateOf(g)) && states[|states| - 1] == StateOf(g)
      ensures old(server.stopped) ==> server.stopped
      ensures TerminateServer in old(messages.items) ==> server.stopped
      ensures old(server.sent) <= server.sent
    {
      ghost var queued := messages.items;
      hs, states := [], [StateOf(g)];
      var i := 0;
      while messages.items != []
        invariant 0 <= i <= |queued| && messages.Valid()
        invariant messages.items == queued[i..] && messages.popped == old(messages.popped) + queued[..i]
        invariant messages.pushed == old(messages.pushed)
        invariant server.Valid() && g.Valid() && unchanged(g`succ, g`pred, g`orderedNodes, g`nameMap)
        invariant Wired(g.ports, ops, parse) && ReceiversNamed(tables.receivers, g.orderedNodes)
        invariant HandledInTurn(queued[..i], scheduler, remote, g.orderedNodes, g.pred, ops, parse, hs, states)
        invariant states[0] == old(StateOf(g)) && states[i] == StateOf(g)
        invariant old(server.stopped) ==> server.stopped
        invariant TerminateServer in queued[..i] ==> server.stopped
        invariant old(server.sent) <= server.sent
        decreases |messages.items|
      {
        var m, h := ProcessNext(scheduler(i), remote, g, ops, parse);
        HandledSnoc(queued[..i], scheduler, remote, g.orderedNodes, g.pred, ops, parse, hs, states, m, h, StateOf(g));
        assert queued[..i + 1] == queued[..i] + [m];
        hs, states := hs + [h], states + [StateOf(g)];
        i := i + 1;
      }
      assert queued[..i] == queued;
    }
  }
}
