/**
 * What `collect_connections` does to the edges it visits, as a function of the port maps: each
 * edge in turn has its port map corrected and, on success, its connections recorded; the first
 * edge whose correction fails ends the collection. The correction itself is a parameter here
 * (`update_port_names` in the driver), so that these facts hold whatever it does.
 */
module Collecting {
  import opened Wrappers
  import opened Graphs
  import opened Connections

  /** The port maps of a fragment graph, by edge. */
  type Ports = map<(Node, Node), PortMap>

  /** A correction of the port map of an edge: the corrected map, and whether it succeeded. */
  type Fix = ((Node, Node), PortMap) -> (PortMap, bool)

  /** The links an edge stands for, given its port map. */
  type Emit = ((Node, Node), PortMap) -> seq<Link>

  /** The edges from each of `prevs` into `v`, in order. */
  function Into(prevs: seq<Node>, v: Node): (es: seq<(Node, Node)>)
    ensures |es| == |prevs| && forall j :: 0 <= j < |prevs| ==> es[j] == (prevs[j], v)
    ensures NoDuplicates(prevs) ==> NoDuplicates(es)
  {
    seq(|prevs|, j requires 0 <= j < |prevs| => (prevs[j], v))
  }

  /** The edges into `v` from `prevs` have port maps when each of them does. */
  lemma MappedInto(ports: Ports, es: seq<(Node, Node)>, prevs: seq<Node>, v: Node)
    requires Mapped(ports, es) && forall u :: u in prevs ==> (u, v) in ports
    ensures Mapped(ports, es + Into(prevs, v))
  {
    IntoMembers(prevs, v);
  }

  /** The edges into `v` are those from one of `prevs`. */
  lemma IntoMembers(prevs: seq<Node>, v: Node)
    ensures forall e: (Node, Node) :: e in Into(prevs, v) <==> e.1 == v && e.0 in prevs
  {
    var into := Into(prevs, v);
    forall e | e in into ensures e.1 == v && e.0 in prevs {
      var j :| 0 <= j < |into| && into[j] == e;
    }
    forall e: (Node, Node) | e.1 == v && e.0 in prevs ensures e in into {
      var j :| 0 <= j < |prevs| && prevs[j] == e.0;
      assert into[j] == e;
    }
  }

  /** The port maps after collection, the links recorded, and whether every edge succeeded. */
  datatype Collected = Collected(ports: Ports, links: seq<Link>, ok: bool)

  /** Every edge of `es` has a port map. */
  predicate Mapped(ports: Ports, es: seq<(Node, Node)>)
  {
    forall e :: e in es ==> e in ports
  }

  /**
   * Collecting the edges `es` in order: the first edge's port map is corrected in place; on
   * success its links are recorded and the rest follow, on failure the collection stops there.
   */
  ghost function Collect(ports: Ports, es: seq<(Node, Node)>, fix: Fix, emit: Emit): (r: Collected)
    requires Mapped(ports, es)
    ensures r.ports.Keys == ports.Keys
    decreases |es|
  {
    if es == [] then Collected(ports, [], true)
    else
      var e := es[0];
      var f := fix(e, ports[e]);
      if !f.1 then Collected(ports[e := f.0], [], false)
      else
        var r := Collect(ports[e := f.0], es[1..], fix, emit);
        Collected(r.ports, emit(e, f.0) + r.links, r.ok)
  }

  /** The position of the first edge whose correction fails, or `|es|` when none does. */
  function FirstFailure(ports: Ports, es: seq<(Node, Node)>, fix: Fix): (k: nat)
    requires Mapped(ports, es)
    ensures k <= |es|
    ensures forall j :: 0 <= j < k ==> fix(es[j], ports[es[j]]).1
    ensures k < |es| ==> !fix(es[k], ports[es[k]]).1
    decreases |es|
  {
    if es == [] then 0
    else if !fix(es[0], ports[es[0]]).1 then 0
    else 1 + FirstFailure(ports, es[1..], fix)
  }

  /** The edges tried by a collection that stopped at `k`: those before it, and the one at `k` if any. */
  function Tried<T>(es: seq<T>, k: nat): seq<T>
    requires k <= |es|
  {
    es[..if k < |es| then k + 1 else k]
  }

  /**
   * The port maps after the edges `done` have been corrected: those edges carry the corrected
   * map, every other edge its old one.
   */
  ghost predicate FixedOn(before: Ports, after: Ports, done: seq<(Node, Node)>, fix: Fix)
  {
    && after.Keys == before.Keys
    && forall e :: e in before ==> after[e] == if e in done then fix(e, before[e]).0 else before[e]
  }

  /** Which edge fails first depends only on the port maps of the edges. */
  lemma {:induction false} FirstFailureFrame(p: Ports, q: Ports, es: seq<(Node, Node)>, fix: Fix)
    requires Mapped(p, es) && forall x :: x in es ==> x in q && q[x] == p[x]
    ensures Mapped(q, es) && FirstFailure(q, es, fix) == FirstFailure(p, es, fix)
    decreases |es|
  {
    if es != [] {
      assert forall x :: x in es[1..] ==> x in es;
      FirstFailureFrame(p, q, es[1..], fix);
    }
  }

  /** Facts about the first edge and the rest that every induction below starts from. */
  lemma Rest(ports: Ports, es: seq<(Node, Node)>, m: PortMap)
    requires es != [] && NoDuplicates(es) && Mapped(ports, es)
    ensures es == [es[0]] + es[1..] && es[0] !in es[1..] && es[0] in ports
    ensures NoDuplicates(es[1..]) && Mapped(ports[es[0] := m], es[1..])
    ensures forall x :: x in es[1..] ==> x in ports && ports[es[0] := m][x] == ports[x]
  {
    assert forall j :: 0 <= j < |es[1..]| ==> es[1..][j] == es[j + 1] != es[0];
  }

  /** A collection succeeds exactly when no edge fails. */
  lemma {:induction false} CollectStops(ports: Ports, es: seq<(Node, Node)>, fix: Fix, emit: Emit)
    requires NoDuplicates(es) && Mapped(ports, es)
    ensures Collect(ports, es, fix, emit).ok <==> FirstFailure(ports, es, fix) == |es|
    decreases |es|
  {
    if es != [] {
      var f := fix(es[0], ports[es[0]]);
      if f.1 {
        Rest(ports, es, f.0);
        CollectStops(ports[es[0] := f.0], es[1..], fix, emit);
        FirstFailureFrame(ports, ports[es[0] := f.0], es[1..], fix);
      }
    }
  }

  /**
   * The edges a collection tries, those before the first failure and the failing one, carry
   * their corrected port maps afterwards; every other edge keeps its own.
   */
  lemma {:induction false} CollectFixes(ports: Ports, es: seq<(Node, Node)>, fix: Fix, emit: Emit)
    requires NoDuplicates(es) && Mapped(ports, es)
    ensures FixedOn(ports, Collect(ports, es, fix, emit).ports, Tried(es, FirstFailure(ports, es, fix)), fix)
    decreases |es|
  {
    if es != [] {
      var e := es[0];
      var f := fix(e, ports[e]);
      var p := ports[e := f.0];
      if f.1 {
        var t := es[1..];
        Rest(ports, es, f.0);
        CollectFixes(p, t, fix, emit);
        FirstFailureFrame(ports, p, t, fix);
        var k' := FirstFailure(p, t, fix);
        TriedCons(e, t, k');
        FixedOnCons(ports, Collect(p, t, fix, emit).ports, e, Tried(t, k'), fix);
      } else {
        assert Tried(es, 0) == [e];
      }
    }
  }

  lemma TriedCons<T>(e: T, t: seq<T>, k: nat)
    requires k <= |t|
    ensures Tried([e] + t, k + 1) == [e] + Tried(t, k)
  {
  }

  /** Correcting edge `e` first, then the edges `rest`, corrects `e` and `rest`. */
  lemma FixedOnCons(ports: Ports, after: Ports, e: (Node, Node), rest: seq<(Node, Node)>, fix: Fix)
    requires e in ports && e !in rest
    requires FixedOn(ports[e := fix(e, ports[e]).0], after, rest, fix)
    ensures FixedOn(ports, after, [e] + rest, fix)
  {
  }

  /** The links the edges `es` stand for with port maps `ports`, edge after edge. */
  ghost function Emitted(ports: Ports, es: seq<(Node, Node)>, emit: Emit): seq<Link>
    requires Mapped(ports, es)
    decreases |es|
  {
    if es == [] then [] else emit(es[0], ports[es[0]]) + Emitted(ports, es[1..], emit)
  }

  /** The links a collection records are those of the edges before the first failure, with their corrected maps. */
  lemma {:induction false} CollectRecords(ports: Ports, es: seq<(Node, Node)>, fix: Fix, emit: Emit)
    requires NoDuplicates(es) && Mapped(ports, es)
    ensures var r := Collect(ports, es, fix, emit);
            var k := FirstFailure(ports, es, fix);
            Mapped(r.ports, es[..k]) && r.links == Emitted(r.ports, es[..k], emit)
    decreases |es|
  {
    if es != [] {
      var e := es[0];
      var f := fix(e, ports[e]);
      if f.1 {
        var t := es[1..];
        var p := ports[e := f.0];
        Rest(ports, es, f.0);
        CollectRecords(p, t, fix, emit);
        CollectFixes(p, t, fix, emit);
        FirstFailureFrame(ports, p, t, fix);
        var k' := FirstFailure(p, t, fix);
        var r' := Collect(p, t, fix, emit);
        assert e !in Tried(t, k');
        assert es[..k' + 1][0] == e && es[..k' + 1][1..] == t[..k'];
      }
    }
  }

  /** An edge the collection does not visit keeps its port map. */
  lemma {:induction false} CollectFrame(ports: Ports, es: seq<(Node, Node)>, fix: Fix, emit: Emit, x: (Node, Node))
    requires Mapped(ports, es) && x in ports && x !in es
    ensures Collect(ports, es, fix, emit).ports[x] == ports[x]
    decreases |es|
  {
    if es != [] {
      var f := fix(es[0], ports[es[0]]);
      if f.1 {
        assert forall y :: y in es[1..] ==> y in es;
        CollectFrame(ports[es[0] := f.0], es[1..], fix, emit, x);
      }
    }
  }

  /** A collection preceded by the links `links` already recorded. */
  function After(links: seq<Link>, r: Collected): Collected
  {
    Collected(r.ports, links + r.links, r.ok)
  }

  /** Links recorded in two rounds are those of both, in order. */
  lemma AfterAfter(a: seq<Link>, b: seq<Link>, r: Collected)
    ensures After(a, After(b, r)) == After(a + b, r)
  {
    ConcatAssoc(a, b, r.links);
  }

  /**
   * Collecting `a + b` is collecting `a` and then, if that succeeded, `b` from where `a` left
   * the port maps, its links following those of `a`.
   */
  lemma {:induction false} CollectAppend(ports: Ports, a: seq<(Node, Node)>, b: seq<(Node, Node)>, fix: Fix, emit: Emit)
    requires Mapped(ports, a + b)
    ensures Mapped(ports, a) && Mapped(Collect(ports, a, fix, emit).ports, b)
    ensures var r := Collect(ports, a, fix, emit);
            Collect(ports, a + b, fix, emit) == if r.ok then After(r.links, Collect(r.ports, b, fix, emit)) else r
    decreases |a|
  {
    assert forall x :: x in a ==> x in a + b;
    assert forall x :: x in b ==> x in a + b;
    if a == [] {
      assert a + b == b;
    } else {
      var e := a[0];
      var f := fix(e, ports[e]);
      assert (a + b)[0] == e && (a + b)[1..] == a[1..] + b;
      if f.1 {
        var p := ports[e := f.0];
        CollectAppend(p, a[1..], b, fix, emit);
        var r' := Collect(p, a[1..], fix, emit);
        if r'.ok {
          AfterAfter(emit(e, f.0), r'.links, Collect(r'.ports, b, fix, emit));
        }
      }
    }
  }

  /**
   * What is left of a collection at edge `i`: the edge is corrected from its current port map
   * and either the rest follows its links or the collection ends there.
   */
  lemma CollectHead(ports: Ports, es: seq<(Node, Node)>, i: nat, fix: Fix, emit: Emit)
    requires i < |es| && Mapped(ports, es[i..])
    ensures var e := es[i];
            var f := fix(e, ports[e]);
            && e in ports && Mapped(ports[e := f.0], es[i + 1..])
            && Collect(ports, es[i..], fix, emit) ==
                 if f.1 then After(emit(e, f.0), Collect(ports[e := f.0], es[i + 1..], fix, emit))
                 else Collected(ports[e := f.0], [], false)
  {
    assert es[i..][0] == es[i] && es[i..][1..] == es[i + 1..];
    assert forall x :: x in es[i + 1..] ==> x in es[i..];
  }

  /**
   * One edge further into a collection of distinct edges: `p` are the port maps with the edges
   * before `i` done and the others as at the start, `added` the links so far. Correcting edge
   * `i` either leaves the same picture at `i + 1`, its links added, or ends the collection there.
   */
  lemma CollectStep(p0: Ports, p: Ports, es: seq<(Node, Node)>, i: nat, fix: Fix, emit: Emit, added: seq<Link>)
    requires i < |es| && NoDuplicates(es) && Mapped(p0, es) && Mapped(p, es[i..]) && p.Keys == p0.Keys
    requires forall j :: i <= j < |es| ==> p[es[j]] == p0[es[j]]
    requires Collect(p0, es, fix, emit) == After(added, Collect(p, es[i..], fix, emit))
    ensures var e := es[i];
            var f := fix(e, p[e]);
            var q := p[e := f.0];
            && q.Keys == p0.Keys
            && (f.1 ==> Mapped(q, es[i + 1..]))
            && (f.1 ==> forall j :: i + 1 <= j < |es| ==> q[es[j]] == p0[es[j]])
            && (f.1 ==> Collect(p0, es, fix, emit) == After(added + emit(e, f.0), Collect(q, es[i + 1..], fix, emit)))
            && (!f.1 ==> Collect(p0, es, fix, emit) == Collected(q, added, false))
  {
    var e := es[i];
    var f := fix(e, p[e]);
    CollectHead(p, es, i, fix, emit);
    assert forall j :: i < j < |es| ==> es[j] != e;
    if f.1 {
      AfterAfter(added, emit(e, f.0), Collect(p[e := f.0], es[i + 1..], fix, emit));
    } else {
      assert added + [] == added;
    }
  }
}
