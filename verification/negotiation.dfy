/**
 * Port negotiation, once a schedule is known: how many connections each fragment receives, how
 * the fragments group by worker, and how the ports a worker offers are handed out to the
 * receiver entries of its fragments, in order, and written to the index-to-port table.
 */
module Negotiation {
  import opened Wrappers
  import opened Graphs
  import opened Connections

  /** `receiver_port_map_`: the (index, port) entries each receiving fragment listens on. */
  type Receivers = map<string, seq<(int, int)>>

  /** `receiver_port_map_[name]`: a fragment without a list has the empty one. */
  function ListOf(r: Receivers, name: string): seq<(int, int)>
  {
    if name in r then r[name] else []
  }

  /** The receiver entries of the fragments `names`, fragment after fragment. */
  function Entries(r: Receivers, names: seq<string>): seq<(int, int)>
    decreases |names|
  {
    if names == [] then [] else Entries(r, names[..|names| - 1]) + ListOf(r, names[|names| - 1])
  }

  lemma EntriesSnoc(r: Receivers, names: seq<string>, q: int)
    requires 0 <= q < |names|
    ensures Entries(r, names[..q + 1]) == Entries(r, names[..q]) + ListOf(r, names[q])
  {
    assert names[..q + 1][..q] == names[..q];
  }

  lemma EntriesPush(r: Receivers, done: seq<string>, f: string)
    ensures Entries(r, done + [f]) == Entries(r, done) + ListOf(r, f)
  {
    assert (done + [f])[..|done|] == done;
  }

  /** The entries of `names` depend only on the lists of `names`. */
  lemma {:induction false} EntriesFrame(r: Receivers, r': Receivers, names: seq<string>)
    requires forall f :: f in names ==> ListOf(r, f) == ListOf(r', f)
    ensures Entries(r, names) == Entries(r', names)
    decreases |names|
  {
    if names != [] {
      var n := |names| - 1;
      assert forall f :: f in names[..n] ==> f in names;
      EntriesFrame(r, r', names[..n]);
      assert names[n] in names;
    }
  }

  /** The entries of a prefix of `names` are no more than those of `names`. */
  lemma {:induction false} EntriesMono(r: Receivers, names: seq<string>, q: int)
    requires 0 <= q <= |names|
    ensures |Entries(r, names[..q])| <= |Entries(r, names)|
    decreases |names| - q
  {
    if q == |names| {
      assert names[..q] == names;
    } else {
      EntriesMono(r, names, q + 1);
      EntriesSnoc(r, names, q);
    }
  }

  /** The entries of two runs of fragments, one after the other. */
  lemma {:induction false} EntriesConcat(r: Receivers, a: seq<string>, b: seq<string>)
    ensures Entries(r, a + b) == Entries(r, a) + Entries(r, b)
    decreases |b|
  {
    if b == [] {
      assert a + b == a;
    } else {
      var n := |b| - 1;
      assert (a + b)[..|a + b| - 1] == a + b[..n];
      EntriesConcat(r, a, b[..n]);
    }
  }

  /** The indices of entries `es`, in order. */
  function IndicesOf(es: seq<(int, int)>): (r: seq<int>)
    ensures |r| == |es|
  {
    seq(|es|, j requires 0 <= j < |es| => es[j].0)
  }

  /** The ports of entries `es`, in order. */
  function PortsOf(es: seq<(int, int)>): (r: seq<int>)
    ensures |r| == |es|
  {
    seq(|es|, j requires 0 <= j < |es| => es[j].1)
  }

  // ---------------------------------------------------------------------------------------
  // The index-to-port table
  // ---------------------------------------------------------------------------------------

  /** `index_to_port_map_` after each entry of `es`, in order, has its port written under its index. */
  function Assign(m: map<int, int>, es: seq<(int, int)>): map<int, int>
    decreases |es|
  {
    if es == [] then m else Assign(m, es[..|es| - 1])[es[|es| - 1].0 := es[|es| - 1].1]
  }

  lemma {:induction false} AssignAppend(m: map<int, int>, a: seq<(int, int)>, b: seq<(int, int)>)
    ensures Assign(m, a + b) == Assign(Assign(m, a), b)
    decreases |b|
  {
    if b == [] {
      assert a + b == a;
    } else {
      var n := |b| - 1;
      assert (a + b)[..|a + b| - 1] == a + b[..n];
      assert (a + b)[|a + b| - 1] == b[n];
      AssignAppend(m, a, b[..n]);
    }
  }

  /**
   * What the table says after the writes: an index is there when it was before or some entry
   * writes it; an entry not overwritten later gives its index its port; an index no entry
   * writes keeps its port.
   */
  lemma {:induction false} AssignLookup(m: map<int, int>, es: seq<(int, int)>)
    ensures forall i :: i in Assign(m, es) <==> i in m || exists k :: 0 <= k < |es| && es[k].0 == i
    ensures forall k :: 0 <= k < |es| && (forall k' :: k < k' < |es| ==> es[k'].0 != es[k].0) ==>
              Assign(m, es)[es[k].0] == es[k].1
    ensures forall i :: i in m && (forall k :: 0 <= k < |es| ==> es[k].0 != i) ==> Assign(m, es)[i] == m[i]
    decreases |es|
  {
    if es != [] {
      var n := |es| - 1;
      var init := es[..n];
      AssignLookup(m, init);
      forall i ensures i in Assign(m, es) <==> i in m || exists k :: 0 <= k < |es| && es[k].0 == i {
        if exists k :: 0 <= k < |init| && init[k].0 == i {
          var k :| 0 <= k < |init| && init[k].0 == i;
          assert es[k].0 == i;
        }
        if exists k :: 0 <= k < |es| && es[k].0 == i {
          var k :| 0 <= k < |es| && es[k].0 == i;
          if k < n {
            assert init[k].0 == i;
          }
        }
      }
      forall k | 0 <= k < |es| && (forall k' :: k < k' < |es| ==> es[k'].0 != es[k].0)
        ensures Assign(m, es)[es[k].0] == es[k].1
      {
        if k < n {
          assert init[k] == es[k];
          assert forall k' :: k < k' < |init| ==> init[k'] == es[k'];
        }
      }
      forall i | i in m && (forall k :: 0 <= k < |es| ==> es[k].0 != i) ensures Assign(m, es)[i] == m[i] {
        assert forall k :: 0 <= k < |init| ==> init[k] == es[k];
      }
    }
  }

  // ---------------------------------------------------------------------------------------
  // How many ports a worker needs
  // ---------------------------------------------------------------------------------------

  /** `fragment_connector_count[name]`: a fragment that was not counted needs none. */
  function CountOf(count: map<string, nat>, name: string): nat
  {
    if name in count then count[name] else 0
  }

  /** The ports the fragments `names` need together. */
  function Demand(count: map<string, nat>, names: seq<string>): nat
    decreases |names|
  {
    if names == [] then 0 else Demand(count, names[..|names| - 1]) + CountOf(count, names[|names| - 1])
  }

  /** The counts agree with the receiver lists, fragment by fragment. */
  ghost predicate Balanced(count: map<string, nat>, r: Receivers)
  {
    forall f :: CountOf(count, f) == |ListOf(r, f)|
  }

  /** When the counts agree with the lists, a worker needs exactly one port per receiver entry. */
  lemma {:induction false} DemandEntries(count: map<string, nat>, r: Receivers, names: seq<string>)
    requires Balanced(count, r)
    ensures Demand(count, names) == |Entries(r, names)|
    decreases |names|
  {
    if names != [] {
      DemandEntries(count, r, names[..|names| - 1]);
    }
  }

  /** The total of `fragment_connector_count` over a worker's fragments. */
  method PortDemand(count: map<string, nat>, names: seq<string>) returns (total: nat)
    ensures total == Demand(count, names)
  {
    total := 0;
    var q := 0;
    while q < |names|
      invariant 0 <= q <= |names| && total == Demand(count, names[..q])
    {
      assert names[..q + 1][..q] == names[..q];
      total := total + CountOf(count, names[q]);
      q := q + 1;
    }
    assert names[..q] == names;
  }

  /**
   * `fragment_connector_count`: for each fragment of the graph that has a receiver list, the
   * length of that list.
   */
  method ConnectorCounts(fragments: seq<Node>, r: Receivers) returns (count: map<string, nat>)
    ensures forall name :: name in count <==> name in r && name in NamesOf(fragments)
    ensures forall name :: name in count ==> count[name] == |r[name]|
  {
    count := map[];
    var j := 0;
    while j < |fragments|
      invariant 0 <= j <= |fragments|
      invariant forall name :: name in count <==> name in r && name in NamesOf(fragments[..j])
      invariant forall name :: name in count ==> count[name] == |r[name]|
    {
      assert NamesOf(fragments[..j + 1]) == NamesOf(fragments[..j]) + {fragments[j].name} by {
        assert fragments[..j + 1] == fragments[..j] + [fragments[j]];
      }
      var name := fragments[j].name;
      if name in r {
        count := count[name := |r[name]|];
      }
      j := j + 1;
    }
    assert fragments[..j] == fragments;
  }

  /**
   * The counts agree with the receiver lists when only fragments of the graph receive: a
   * fragment that was not counted has no entries.
   */
  lemma CountsBalanced(count: map<string, nat>, r: Receivers, fragments: seq<Node>)
    requires forall name :: name in count <==> name in r && name in NamesOf(fragments)
    requires forall name :: name in count ==> count[name] == |r[name]|
    requires ReceiversNamed(r, fragments)
    ensures Balanced(count, r)
  {
  }

  // ---------------------------------------------------------------------------------------
  // Handing out the ports
  // ---------------------------------------------------------------------------------------

  /**
   * The entries of fragment `f` take the ports `avail[k..]`, one each in order, and each
   * entry's index is mapped to its port.
   */
  method AssignFragment(f: string, r: Receivers, toPort: map<int, int>, avail: seq<int>, k: nat)
    returns (r': Receivers, toPort': map<int, int>, k': nat)
    requires k + |ListOf(r, f)| <= |avail|
    ensures r'.Keys == r.Keys + {f} && forall g :: g in r && g != f ==> r'[g] == r[g]
    ensures |r'[f]| == |ListOf(r, f)| && forall j :: 0 <= j < |r'[f]| ==> r'[f][j] == (ListOf(r, f)[j].0, avail[k + j])
    ensures k' == k + |r'[f]| && toPort' == Assign(toPort, r'[f])
  {
    var list := ListOf(r, f);
    var out := list;
    toPort' := toPort;
    var j := 0;
    while j < |list|
      invariant 0 <= j <= |list| == |out|
      invariant forall j' :: 0 <= j' < j ==> out[j'] == (list[j'].0, avail[k + j'])
      invariant forall j' :: j <= j' < |out| ==> out[j'] == list[j']
      invariant toPort' == Assign(toPort, out[..j])
    {
      out := out[j := (list[j].0, avail[k + j])];
      toPort' := toPort'[list[j].0 := avail[k + j]];
      assert out[..j + 1][..j] == out[..j];
      j := j + 1;
    }
    assert out[..j] == out;
    r' := r[f := out];
    k' := k + |list|;
  }

  /** The lists of the fragments `names` have, together, taken the ports `avail[..k]` in order. */
  ghost predicate PortedUpTo(r: Receivers, r': Receivers, names: seq<string>, avail: seq<int>, k: nat)
  {
    && |Entries(r', names)| == k <= |avail| && |Entries(r, names)| == k
    && forall x :: 0 <= x < k ==> Entries(r', names)[x] == (Entries(r, names)[x].0, avail[x])
  }

  /** One more fragment, `f`, takes its ports. */
  lemma PortedStep(r: Receivers, r1: Receivers, r2: Receivers, done: seq<string>, f: string, avail: seq<int>, k: nat)
    requires f !in done && ListOf(r1, f) == ListOf(r, f)
    requires PortedUpTo(r, r1, done, avail, k)
    requires forall g :: g != f ==> ListOf(r2, g) == ListOf(r1, g)
    requires |ListOf(r2, f)| == |ListOf(r, f)| <= |avail| - k
    requires forall j :: 0 <= j < |ListOf(r2, f)| ==> ListOf(r2, f)[j] == (ListOf(r, f)[j].0, avail[k + j])
    ensures PortedUpTo(r, r2, done + [f], avail, k + |ListOf(r, f)|)
    ensures Entries(r2, done + [f]) == Entries(r1, done) + ListOf(r2, f)
  {
    EntriesPush(r, done, f);
    EntriesPush(r2, done, f);
    EntriesFrame(r1, r2, done);
    PortedPrefix(Entries(r, done), Entries(r1, done), ListOf(r, f), ListOf(r2, f), avail, k);
  }

  /**
   * Appending to entries that took `avail[..k]` a list that took the next ports gives entries
   * that took `avail[..k + |list|]`.
   */
  lemma PortedPrefix(e: seq<(int, int)>, e1: seq<(int, int)>, list: seq<(int, int)>, list2: seq<(int, int)>,
                     avail: seq<int>, k: nat)
    requires |e| == |e1| == k && |list2| == |list| <= |avail| - k
    requires forall x :: 0 <= x < k ==> e1[x] == (e[x].0, avail[x])
    requires forall j :: 0 <= j < |list2| ==> list2[j] == (list[j].0, avail[k + j])
    ensures forall x :: 0 <= x < k + |list| ==> (e1 + list2)[x] == ((e + list)[x].0, avail[x])
  {
    forall x | k <= x < k + |list| ensures (e1 + list2)[x] == ((e + list)[x].0, avail[x]) {
      assert (e1 + list2)[x] == list2[x - k] && (e + list)[x] == list[x - k];
    }
  }

  /**
   * The fragments `done` have taken the ports `avail[..k]`: `r'` and `toPort'` are the
   * receiver lists and the index-to-port table `r` and `toPort` have become.
   */
  ghost predicate AssignedUpTo(done: seq<string>, r: Receivers, r': Receivers,
                               toPort: map<int, int>, toPort': map<int, int>, avail: seq<int>, k: nat)
  {
    && (forall g :: g in r' <==> g in r || g in done)
    && (forall g :: g !in done ==> ListOf(r', g) == ListOf(r, g))
    && (forall g :: |ListOf(r', g)| == |ListOf(r, g)|)
    && PortedUpTo(r, r', done, avail, k)
    && toPort' == Assign(toPort, Entries(r', done))
  }

  /** One iteration of the loop over a worker's fragments: fragment `names[q]` takes its ports. */
  method AssignNext(names: seq<string>, q: int, ghost r: Receivers, r': Receivers,
                    ghost toPort: map<int, int>, toPort': map<int, int>, avail: seq<int>, k: nat)
    returns (r'': Receivers, toPort'': map<int, int>, k': nat)
    requires NoDuplicates(names) && |Entries(r, names)| == |avail| && 0 <= q < |names|
    requires AssignedUpTo(names[..q], r, r', toPort, toPort', avail, k)
    ensures AssignedUpTo(names[..q + 1], r, r'', toPort, toPort'', avail, k')
  {
    var f := names[q];
    RoomFor(names, q, r, r', avail, k);
    r'', toPort'', k' := AssignFragment(f, r', toPort', avail, k);
    PrefixSnoc(names, q);
    AssignedStep(names[..q], f, names[..q + 1], r, r', r'', toPort, toPort', toPort'', avail, k);
  }

  /** Fragment `names[q]` is not yet done, and the ports left are enough for its entries. */
  lemma RoomFor(names: seq<string>, q: int, r: Receivers, r': Receivers, avail: seq<int>, k: nat)
    requires NoDuplicates(names) && |Entries(r, names)| == |avail| && 0 <= q < |names|
    requires forall g :: g !in names[..q] ==> ListOf(r', g) == ListOf(r, g)
    requires |Entries(r, names[..q])| == k
    ensures names[q] !in names[..q] && k + |ListOf(r', names[q])| <= |avail|
  {
    EntriesMono(r, names, q + 1);
    EntriesSnoc(r, names, q);
    assert names[q] !in names[..q] by {
      assert forall j :: 0 <= j < q ==> names[j] != names[q];
    }
  }

  /** Adding fragment `f` keeps the key set, the frame and the lengths in step. */
  lemma ShapeStep(done: seq<string>, f: string, r: Receivers, r': Receivers, r'': Receivers)
    requires forall g :: g in r' <==> g in r || g in done
    requires forall g :: g !in done ==> ListOf(r', g) == ListOf(r, g)
    requires forall g :: |ListOf(r', g)| == |ListOf(r, g)|
    requires r''.Keys == r'.Keys + {f} && forall g :: g in r' && g != f ==> r''[g] == r'[g]
    requires |r''[f]| == |ListOf(r', f)|
    ensures forall g :: g in r'' <==> g in r || g in done + [f]
    ensures forall g :: g !in done + [f] ==> ListOf(r'', g) == ListOf(r, g)
    ensures forall g :: |ListOf(r'', g)| == |ListOf(r, g)|
  {
    assert forall g :: g in done + [f] <==> g in done || g == f;
  }

  /** The step of `AssignNext`, as a lemma about the values before and after fragment `f`. */
  lemma AssignedStep(done: seq<string>, f: string, done': seq<string>, r: Receivers, r': Receivers, r'': Receivers,
                     toPort: map<int, int>, toPort': map<int, int>, toPort'': map<int, int>, avail: seq<int>, k: nat)
    requires f !in done && done' == done + [f] && AssignedUpTo(done, r, r', toPort, toPort', avail, k)
    requires k + |ListOf(r', f)| <= |avail|
    requires r''.Keys == r'.Keys + {f} && forall g :: g in r' && g != f ==> r''[g] == r'[g]
    requires |r''[f]| == |ListOf(r', f)|
    requires forall j :: 0 <= j < |r''[f]| ==> r''[f][j] == (ListOf(r', f)[j].0, avail[k + j])
    requires toPort'' == Assign(toPort', r''[f])
    ensures AssignedUpTo(done', r, r'', toPort, toPort'', avail, k + |ListOf(r, f)|)
  {
    assert ListOf(r', f) == ListOf(r, f);
    assert ListOf(r'', f) == r''[f];
    ShapeStep(done, f, r, r', r'');
    PortedStep(r, r', r'', done, f, avail, k);
    AssignAppend(toPort, Entries(r', done), ListOf(r'', f));
  }

  /**
   * The loop over a worker's fragments `names`: their receiver entries, fragment after
   * fragment, take the ports `avail` in order, and each entry's index is mapped to its port.
   * The lists of other fragments are left alone and no list changes length.
   */
  method AssignWorkerPorts(names: seq<string>, r: Receivers, toPort: map<int, int>, avail: seq<int>)
    returns (r': Receivers, toPort': map<int, int>)
    requires NoDuplicates(names) && |Entries(r, names)| == |avail|
    ensures forall f :: f in r' <==> f in r || f in names
    ensures forall f :: f !in names ==> ListOf(r', f) == ListOf(r, f)
    ensures forall f :: |ListOf(r', f)| == |ListOf(r, f)|
    ensures |Entries(r', names)| == |avail|
    ensures forall x :: 0 <= x < |avail| ==> Entries(r', names)[x] == (Entries(r, names)[x].0, avail[x])
    ensures toPort' == Assign(toPort, Entries(r', names))
  {
    r', toPort' := r, toPort;
    var k: nat := 0;
    var q := 0;
    AssignedNone(names, r, toPort, avail);
    while q < |names|
      invariant 0 <= q <= |names| && AssignedUpTo(names[..q], r, r', toPort, toPort', avail, k)
    {
      r', toPort', k := AssignNext(names, q, r, r', toPort, toPort', avail, k);
      q := q + 1;
    }
    AssignedAll(names, q, r, r', toPort, toPort', avail, k);
  }

  /** Before the loop no fragment is done. */
  lemma AssignedNone(names: seq<string>, r: Receivers, toPort: map<int, int>, avail: seq<int>)
    ensures AssignedUpTo(names[..0], r, r, toPort, toPort, avail, 0)
  {
    assert names[..0] == [];
  }

  /** Once every fragment of `names` is done, their entries have taken all of `avail`. */
  lemma AssignedAll(names: seq<string>, q: int, r: Receivers, r': Receivers,
                    toPort: map<int, int>, toPort': map<int, int>, avail: seq<int>, k: nat)
    requires q == |names| && |Entries(r, names)| == |avail| && AssignedUpTo(names[..q], r, r', toPort, toPort', avail, k)
    ensures forall f :: f in r' <==> f in r || f in names
    ensures forall f :: f !in names ==> ListOf(r', f) == ListOf(r, f)
    ensures forall f :: |ListOf(r', f)| == |ListOf(r, f)|
    ensures |Entries(r', names)| == |avail|
    ensures forall x :: 0 <= x < |avail| ==> Entries(r', names)[x] == (Entries(r, names)[x].0, avail[x])
    ensures toPort' == Assign(toPort, Entries(r', names))
  {
    assert names[..q] == names;
  }

  // ---------------------------------------------------------------------------------------
  // Workers and their fragments
  // ---------------------------------------------------------------------------------------

  /** The addresses of `s` that are not in `keep`, in order: the workers the schedule leaves out. */
  function Without(s: seq<string>, keep: set<string>): (r: seq<string>)
    ensures Elements(r) == Elements(s) - keep
    ensures NoDuplicates(s) ==> NoDuplicates(r)
    decreases |s|
  {
    if s == [] then []
    else
      var rest := Without(s[1..], keep);
      assert Elements(s) == {s[0]} + Elements(s[1..]);
      if s[0] in keep then rest
      else
        assert Elements([s[0]] + rest) == {s[0]} + Elements(rest);
        assert NoDuplicates(s) ==> NoDuplicates([s[0]] + rest) by {
          if NoDuplicates(s) {
            assert forall j :: 0 <= j < |s[1..]| ==> s[1..][j] == s[j + 1] != s[0];
            assert s[0] !in Elements(rest);
          }
        }
        [s[0]] + rest
  }

  /**
   * `worker_fragment_map`: the fragments of the schedule grouped by the worker they run on,
   * each once, and the workers, each once, in the order they are gone through.
   */
  method GroupByWorker(schedule: map<string, string>) returns (workers: seq<string>, groups: map<string, seq<string>>)
    ensures NoDuplicates(workers) && Elements(workers) == groups.Keys == schedule.Values
    ensures forall w :: w in groups ==> NoDuplicates(groups[w])
    ensures forall w, f :: w in groups ==> (f in groups[w] <==> f in schedule && schedule[f] == w)
  {
    groups := map[];
    var todo := schedule.Keys;
    while todo != {}
      invariant todo <= schedule.Keys
      invariant groups.Keys == set f | f in schedule && f !in todo :: schedule[f]
      invariant forall w :: w in groups ==> NoDuplicates(groups[w])
      invariant forall w, f :: w in groups ==> (f in groups[w] <==> f in schedule && f !in todo && schedule[f] == w)
      decreases todo
    {
      var f :| f in todo;
      var w := schedule[f];
      var before := if w in groups then groups[w] else [];
      assert f !in before;
      groups := groups[w := before + [f]];
      todo := todo - {f};
    }
    assert groups.Keys == schedule.Values by {
      forall w | w in schedule.Values ensures w in groups {
        var f :| f in schedule && schedule[f] == w;
      }
    }
    workers := [];
    var left := groups.Keys;
    while left != {}
      invariant left <= groups.Keys
      invariant NoDuplicates(workers) && Elements(workers) == groups.Keys - left
      decreases left
    {
      var w :| w in left;
      assert w !in Elements(workers);
      assert Elements(workers + [w]) == Elements(workers) + {w};
      workers := workers + [w];
      left := left - {w};
    }
  }

  // ---------------------------------------------------------------------------------------
  // Negotiation, worker by worker
  // ---------------------------------------------------------------------------------------

  /** `groups` holds, under each worker, exactly the fragments `schedule` places on it. */
  ghost predicate Grouping(schedule: map<string, string>, groups: map<string, seq<string>>)
  {
    forall w, f :: w in groups ==> (f in groups[w] <==> f in schedule && schedule[f] == w)
  }

  /** `worker_fragment_map[w]`: a worker without a group has no fragments. */
  function GroupOf(groups: map<string, seq<string>>, w: string): seq<string>
  {
    if w in groups then groups[w] else []
  }

  /** The fragments of the workers `ws`, worker after worker. */
  function Flat(ws: seq<string>, groups: map<string, seq<string>>): seq<string>
    decreases |ws|
  {
    if ws == [] then [] else Flat(ws[..|ws| - 1], groups) + GroupOf(groups, ws[|ws| - 1])
  }

  lemma FlatSnoc(ws: seq<string>, groups: map<string, seq<string>>, q: int)
    requires 0 <= q < |ws|
    ensures Flat(ws[..q + 1], groups) == Flat(ws[..q], groups) + GroupOf(groups, ws[q])
  {
    assert ws[..q + 1][..q] == ws[..q];
  }

  /** Every fragment of the groups of `ws` is placed on one of `ws`. */
  lemma {:induction false} FlatOwners(ws: seq<string>, groups: map<string, seq<string>>, schedule: map<string, string>)
    requires Grouping(schedule, groups)
    ensures forall f :: f in Flat(ws, groups) ==> f in schedule && schedule[f] in ws
    decreases |ws|
  {
    if ws != [] {
      var n := |ws| - 1;
      FlatOwners(ws[..n], groups, schedule);
      forall f | f in Flat(ws, groups) ensures f in schedule && schedule[f] in ws {
        if f in Flat(ws[..n], groups) {
          assert schedule[f] in ws[..n];
        } else {
          assert f in GroupOf(groups, ws[n]);
        }
      }
    }
  }

  /** `used_ports_map[ip]`: an address without a list has used no port yet. */
  function UsedOn(used: map<string, seq<int>>, ip: string): seq<int>
  {
    if ip in used then used[ip] else []
  }

  /**
   * What a worker is trusted to do when it offers ports: no port twice, and none of the ports
   * it is told are already in use on its address.
   */
  ghost predicate WellOffered(offers: (string, nat, seq<int>) -> seq<int>)
  {
    forall w, n, u :: NoDuplicates(offers(w, n, u)) && Elements(offers(w, n, u)) !! Elements(u)
  }

  /**
   * One worker of the negotiation loop: it is asked for as many ports as its fragments `names`
   * need, given the ports already used on its IP address. Too few or too many ports end the
   * negotiation; otherwise the ports are added to those used on the address and handed out to
   * the receiver entries of `names`.
   */
  method NegotiateWorker(w: string, names: seq<string>, count: map<string, nat>, r: Receivers,
                         toPort: map<int, int>, used: map<string, seq<int>>,
                         ipOf: string -> string, offers: (string, nat, seq<int>) -> seq<int>)
    returns (ok: bool, r': Receivers, toPort': map<int, int>, used': map<string, seq<int>>, avail: seq<int>)
    requires NoDuplicates(names) && Balanced(count, r)
    ensures avail == offers(w, Demand(count, names), UsedOn(used, ipOf(w)))
    ensures ok <==> |avail| == Demand(count, names)
    ensures ok ==> used' == used[ipOf(w) := UsedOn(used, ipOf(w)) + avail]
    ensures ok ==> forall f :: f !in names ==> ListOf(r', f) == ListOf(r, f)
    ensures forall f :: |ListOf(r', f)| == |ListOf(r, f)|
    ensures ok ==> IndicesOf(Entries(r', names)) == IndicesOf(Entries(r, names)) && PortsOf(Entries(r', names)) == avail
    ensures ok ==> toPort' == Assign(toPort, Entries(r', names))
    ensures !ok ==> r' == r && toPort' == toPort && used' == used
  {
    var total := PortDemand(count, names);
    var ip := ipOf(w);
    var u := UsedOn(used, ip);
    avail := offers(w, total, u);
    r', toPort', used' := r, toPort, used;
    if |avail| != total {
      return false, r', toPort', used', avail;
    }
    ok := true;
    used' := used[ip := u + avail];
    DemandEntries(count, r, names);
    r', toPort' := AssignWorkerPorts(names, r, toPort, avail);
  }

  /**
   * The workers `workers[..q]` have been through the negotiation: `r'` and `toPort'` are the
   * receiver lists and the index-to-port table `r` and `toPort` have become, `used` the ports
   * used on each address, and `offered` the ports each of those workers handed out.
   */
  ghost predicate NegotiatedUpTo(workers: seq<string>, q: int, groups: map<string, seq<string>>,
                                 schedule: map<string, string>, r: Receivers, toPort: map<int, int>,
                                 r': Receivers, toPort': map<int, int>, used: map<string, seq<int>>,
                                 offered: map<string, seq<int>>, ipOf: string -> string,
                                 offers: (string, nat, seq<int>) -> seq<int>)
  {
    && 0 <= q <= |workers|
    && (forall f :: |ListOf(r', f)| == |ListOf(r, f)|)
    && (forall f :: !(f in schedule && schedule[f] in workers[..q]) ==> ListOf(r', f) == ListOf(r, f))
    && toPort' == Assign(toPort, Entries(r', Flat(workers[..q], groups)))
    && offered.Keys == Elements(workers[..q])
    && (forall w :: w in offered ==>
          && IndicesOf(Entries(r', GroupOf(groups, w))) == IndicesOf(Entries(r, GroupOf(groups, w)))
          && PortsOf(Entries(r', GroupOf(groups, w))) == offered[w]
          && Elements(offered[w]) <= Elements(UsedOn(used, ipOf(w))))
    && (WellOffered(offers) ==> forall w :: w in offered ==> NoDuplicates(offered[w]))
    && (WellOffered(offers) ==> forall w1, w2 :: w1 in offered && w2 in offered && w1 != w2 && ipOf(w1) == ipOf(w2) ==>
          Elements(offered[w1]) !! Elements(offered[w2]))
  }

  /** The fragments of worker `workers[q]` are those of no earlier worker. */
  lemma GroupApart(workers: seq<string>, q: int, groups: map<string, seq<string>>, schedule: map<string, string>)
    requires NoDuplicates(workers) && 0 <= q < |workers| && workers[q] in groups && Grouping(schedule, groups)
    ensures forall f :: f in groups[workers[q]] ==> f in schedule && schedule[f] !in workers[..q]
    ensures forall f :: f in Flat(workers[..q], groups) ==> f !in groups[workers[q]]
    ensures forall w1, f :: w1 in workers[..q] && f in GroupOf(groups, w1) ==> f !in groups[workers[q]]
  {
    assert workers[q] !in workers[..q] by {
      assert forall j :: 0 <= j < q ==> workers[j] != workers[q];
    }
    FlatOwners(workers[..q], groups, schedule);
  }

  /** The lists after worker `workers[q]`: still of the same lengths, and changed only for the workers done. */
  lemma ListsStep(workers: seq<string>, q: int, groups: map<string, seq<string>>, schedule: map<string, string>,
                  r: Receivers, r': Receivers, r'': Receivers)
    requires 0 <= q < |workers| && workers[q] in groups && Grouping(schedule, groups)
    requires forall f :: |ListOf(r', f)| == |ListOf(r, f)|
    requires forall f :: !(f in schedule && schedule[f] in workers[..q]) ==> ListOf(r', f) == ListOf(r, f)
    requires forall f :: |ListOf(r'', f)| == |ListOf(r', f)|
    requires forall f :: f !in groups[workers[q]] ==> ListOf(r'', f) == ListOf(r', f)
    ensures forall f :: |ListOf(r'', f)| == |ListOf(r, f)|
    ensures forall f :: !(f in schedule && schedule[f] in workers[..q + 1]) ==> ListOf(r'', f) == ListOf(r, f)
  {
    PrefixSnoc(workers, q);
  }

  /** The table after worker `workers[q]`: the writes of the workers done, in order. */
  lemma TableStep(workers: seq<string>, q: int, groups: map<string, seq<string>>, r': Receivers, r'': Receivers,
                  toPort: map<int, int>, toPort': map<int, int>, toPort'': map<int, int>)
    requires 0 <= q < |workers| && workers[q] in groups
    requires forall f :: f in Flat(workers[..q], groups) ==> f !in groups[workers[q]]
    requires forall f :: f !in groups[workers[q]] ==> ListOf(r'', f) == ListOf(r', f)
    requires toPort' == Assign(toPort, Entries(r', Flat(workers[..q], groups)))
    requires toPort'' == Assign(toPort', Entries(r'', groups[workers[q]]))
    ensures toPort'' == Assign(toPort, Entries(r'', Flat(workers[..q + 1], groups)))
  {
    var done := Flat(workers[..q], groups);
    var names := groups[workers[q]];
    EntriesFrame(r', r'', done);
    FlatSnoc(workers, groups, q);
    EntriesConcat(r'', done, names);
    AssignAppend(toPort, Entries(r'', done), Entries(r'', names));
  }

  /** What each worker done handed out, after worker `workers[q]`. */
  lemma OfferedStep(workers: seq<string>, q: int, groups: map<string, seq<string>>, schedule: map<string, string>,
                    r: Receivers, r': Receivers, r'': Receivers, used: map<string, seq<int>>, used': map<string, seq<int>>,
                    offered: map<string, seq<int>>, avail: seq<int>, ipOf: string -> string)
    requires NoDuplicates(workers) && 0 <= q < |workers| && workers[q] in groups && Grouping(schedule, groups)
    requires forall f :: !(f in schedule && schedule[f] in workers[..q]) ==> ListOf(r', f) == ListOf(r, f)
    requires forall f :: f !in groups[workers[q]] ==> ListOf(r'', f) == ListOf(r', f)
    requires offered.Keys == Elements(workers[..q])
    requires forall w :: w in offered ==>
               && IndicesOf(Entries(r', GroupOf(groups, w))) == IndicesOf(Entries(r, GroupOf(groups, w)))
               && PortsOf(Entries(r', GroupOf(groups, w))) == offered[w]
               && Elements(offered[w]) <= Elements(UsedOn(used, ipOf(w)))
    requires IndicesOf(Entries(r'', groups[workers[q]])) == IndicesOf(Entries(r', groups[workers[q]]))
    requires PortsOf(Entries(r'', groups[workers[q]])) == avail
    requires used' == used[ipOf(workers[q]) := UsedOn(used, ipOf(workers[q])) + avail]
    ensures var offered' := offered[workers[q] := avail];
            && offered'.Keys == Elements(workers[..q + 1])
            && forall w :: w in offered' ==>
                 && IndicesOf(Entries(r'', GroupOf(groups, w))) == IndicesOf(Entries(r, GroupOf(groups, w)))
                 && PortsOf(Entries(r'', GroupOf(groups, w))) == offered'[w]
                 && Elements(offered'[w]) <= Elements(UsedOn(used', ipOf(w)))
  {
    var w := workers[q];
    var offered' := offered[w := avail];
    OfferedKeys(workers, q, offered, avail);
    forall w1 | w1 in offered'
      ensures && IndicesOf(Entries(r'', GroupOf(groups, w1))) == IndicesOf(Entries(r, GroupOf(groups, w1)))
              && PortsOf(Entries(r'', GroupOf(groups, w1))) == offered'[w1]
              && Elements(offered'[w1]) <= Elements(UsedOn(used', ipOf(w1)))
    {
      OfferedAt(workers, q, groups, schedule, r, r', r'', used, used', offered, avail, ipOf, w1);
    }
  }

  /** The workers with an offer are one more. */
  lemma OfferedKeys(workers: seq<string>, q: int, offered: map<string, seq<int>>, avail: seq<int>)
    requires 0 <= q < |workers| && offered.Keys == Elements(workers[..q])
    ensures offered[workers[q] := avail].Keys == Elements(workers[..q + 1])
  {
    PrefixSnoc(workers, q);
  }

  /** `OfferedStep` for one worker `w1` done. */
  lemma OfferedAt(workers: seq<string>, q: int, groups: map<string, seq<string>>, schedule: map<string, string>,
                  r: Receivers, r': Receivers, r'': Receivers, used: map<string, seq<int>>, used': map<string, seq<int>>,
                  offered: map<string, seq<int>>, avail: seq<int>, ipOf: string -> string, w1: string)
    requires NoDuplicates(workers) && 0 <= q < |workers| && workers[q] in groups && Grouping(schedule, groups)
    requires forall f :: !(f in schedule && schedule[f] in workers[..q]) ==> ListOf(r', f) == ListOf(r, f)
    requires forall f :: f !in groups[workers[q]] ==> ListOf(r'', f) == ListOf(r', f)
    requires offered.Keys == Elements(workers[..q])
    requires forall w :: w in offered ==>
               && IndicesOf(Entries(r', GroupOf(groups, w))) == IndicesOf(Entries(r, GroupOf(groups, w)))
               && PortsOf(Entries(r', GroupOf(groups, w))) == offered[w]
               && Elements(offered[w]) <= Elements(UsedOn(used, ipOf(w)))
    requires IndicesOf(Entries(r'', groups[workers[q]])) == IndicesOf(Entries(r', groups[workers[q]]))
    requires PortsOf(Entries(r'', groups[workers[q]])) == avail
    requires used' == used[ipOf(workers[q]) := UsedOn(used, ipOf(workers[q])) + avail]
    requires w1 in offered[workers[q] := avail]
    ensures var o := offered[workers[q] := avail][w1];
            && IndicesOf(Entries(r'', GroupOf(groups, w1))) == IndicesOf(Entries(r, GroupOf(groups, w1)))
            && PortsOf(Entries(r'', GroupOf(groups, w1))) == o
            && Elements(o) <= Elements(UsedOn(used', ipOf(w1)))
  {
    var w := workers[q];
    UsedGrows(used, ipOf(w), avail);
    if w1 != w {
      assert w1 in workers[..q];
      GroupApart(workers, q, groups, schedule);
      OfferedKept(GroupOf(groups, w1), r, r', r'', offered[w1], UsedOn(used, ipOf(w1)), UsedOn(used', ipOf(w1)));
    } else {
      GroupApart(workers, q, groups, schedule);
      OfferedNew(groups[w], r, r', r'', avail);
    }
  }

  /** The worker just done hands out `avail`, to entries whose indices are those before the negotiation. */
  lemma OfferedNew(names: seq<string>, r: Receivers, r': Receivers, r'': Receivers, avail: seq<int>)
    requires forall f :: f in names ==> ListOf(r', f) == ListOf(r, f)
    requires IndicesOf(Entries(r'', names)) == IndicesOf(Entries(r', names)) && PortsOf(Entries(r'', names)) == avail
    ensures IndicesOf(Entries(r'', names)) == IndicesOf(Entries(r, names)) && PortsOf(Entries(r'', names)) == avail
  {
    EntriesFrame(r, r', names);
  }

  /** A worker done before keeps what it handed out when another worker's fragments change. */
  lemma OfferedKept(names: seq<string>, r: Receivers, r': Receivers, r'': Receivers, o: seq<int>, u: seq<int>, u': seq<int>)
    requires IndicesOf(Entries(r', names)) == IndicesOf(Entries(r, names)) && PortsOf(Entries(r', names)) == o
    requires Elements(o) <= Elements(u) <= Elements(u')
    requires forall f :: f in names ==> ListOf(r'', f) == ListOf(r', f)
    ensures IndicesOf(Entries(r'', names)) == IndicesOf(Entries(r, names)) && PortsOf(Entries(r'', names)) == o
    ensures Elements(o) <= Elements(u')
  {
    EntriesFrame(r'', r', names);
  }

  /** Adding ports to those used on one address takes none away from any address. */
  lemma UsedGrows(used: map<string, seq<int>>, ip: string, avail: seq<int>)
    ensures var used' := used[ip := UsedOn(used, ip) + avail];
            && Elements(avail) <= Elements(UsedOn(used', ip))
            && forall x :: Elements(UsedOn(used, x)) <= Elements(UsedOn(used', x))
  {
  }

  /** Under well-behaved offers, the ports handed out stay distinct on each address. */
  lemma DisjointStep(workers: seq<string>, q: int, used: map<string, seq<int>>, offered: map<string, seq<int>>,
                     avail: seq<int>, ipOf: string -> string, offers: (string, nat, seq<int>) -> seq<int>, n: nat)
    requires WellOffered(offers) && NoDuplicates(workers) && 0 <= q < |workers|
    requires offered.Keys == Elements(workers[..q])
    requires forall w :: w in offered ==> Elements(offered[w]) <= Elements(UsedOn(used, ipOf(w)))
    requires forall w :: w in offered ==> NoDuplicates(offered[w])
    requires forall w1, w2 :: w1 in offered && w2 in offered && w1 != w2 && ipOf(w1) == ipOf(w2) ==>
               Elements(offered[w1]) !! Elements(offered[w2])
    requires avail == offers(workers[q], n, UsedOn(used, ipOf(workers[q])))
    ensures var offered' := offered[workers[q] := avail];
            && (forall w :: w in offered' ==> NoDuplicates(offered'[w]))
            && (forall w1, w2 :: w1 in offered' && w2 in offered' && w1 != w2 && ipOf(w1) == ipOf(w2) ==>
                  Elements(offered'[w1]) !! Elements(offered'[w2]))
  {
    var w := workers[q];
    assert w !in offered by {
      assert forall j :: 0 <= j < q ==> workers[j] != w;
    }
    assert NoDuplicates(avail) && Elements(avail) !! Elements(UsedOn(used, ipOf(w)));
  }

  /** Offers keep their properties when the balance is carried over to lists of the same lengths. */
  lemma BalancedKept(count: map<string, nat>, r: Receivers, r': Receivers)
    requires Balanced(count, r) && forall f :: |ListOf(r', f)| == |ListOf(r, f)|
    ensures Balanced(count, r')
  {
  }

  /** One turn of the negotiation loop: worker `workers[q]` is asked for its ports and hands them out. */
  method NegotiateNext(workers: seq<string>, q: int, groups: map<string, seq<string>>, ghost schedule: map<string, string>,
                       count: map<string, nat>, ghost r: Receivers, ghost toPort: map<int, int>,
                       r': Receivers, toPort': map<int, int>, used: map<string, seq<int>>,
                       ghost offered: map<string, seq<int>>, ipOf: string -> string,
                       offers: (string, nat, seq<int>) -> seq<int>)
    returns (ok: bool, r'': Receivers, toPort'': map<int, int>, used': map<string, seq<int>>,
             ghost offered': map<string, seq<int>>)
    requires NoDuplicates(workers) && 0 <= q < |workers| && Elements(workers) <= groups.Keys
    requires Grouping(schedule, groups) && (forall w :: w in groups ==> NoDuplicates(groups[w])) && Balanced(count, r)
    requires NegotiatedUpTo(workers, q, groups, schedule, r, toPort, r', toPort', used, offered, ipOf, offers)
    ensures forall f :: |ListOf(r'', f)| == |ListOf(r, f)|
    ensures !ok ==> var n := Demand(count, GroupOf(groups, workers[q]));
                    |offers(workers[q], n, UsedOn(used, ipOf(workers[q])))| != n
    ensures !ok ==> r'' == r' && toPort'' == toPort' && used' == used && offered' == offered
    ensures ok ==> NegotiatedUpTo(workers, q + 1, groups, schedule, r, toPort, r'', toPort'', used', offered', ipOf, offers)
  {
    var w := workers[q];
    assert w in groups;
    var names := groups[w];
    BalancedKept(count, r, r');
    var avail;
    ok, r'', toPort'', used', avail := NegotiateWorker(w, names, count, r', toPort', used, ipOf, offers);
    assert !ok ==> |offers(w, Demand(count, names), UsedOn(used, ipOf(w)))| != Demand(count, names);
    offered' := offered;
    if ok {
      offered' := offered[w := avail];
      GroupApart(workers, q, groups, schedule);
      ListsStep(workers, q, groups, schedule, r, r', r'');
      TableStep(workers, q, groups, r', r'', toPort, toPort', toPort'');
      OfferedStep(workers, q, groups, schedule, r, r', r'', used, used', offered, avail, ipOf);
      if WellOffered(offers) {
        DisjointStep(workers, q, used, offered, avail, ipOf, offers, Demand(count, names));
      }
    }
  }

  /** What the negotiation has done once every worker has answered in full. */
  lemma NegotiatedAll(workers: seq<string>, groups: map<string, seq<string>>, schedule: map<string, string>,
                      r: Receivers, toPort: map<int, int>, r': Receivers, toPort': map<int, int>,
                      used: map<string, seq<int>>, offered: map<string, seq<int>>, ipOf: string -> string,
                      offers: (string, nat, seq<int>) -> seq<int>)
    requires NegotiatedUpTo(workers, |workers|, groups, schedule, r, toPort, r', toPort', used, offered, ipOf, offers)
    ensures forall f :: !(f in schedule && schedule[f] in workers) ==> ListOf(r', f) == ListOf(r, f)
    ensures toPort' == Assign(toPort, Entries(r', Flat(workers, groups)))
    ensures offered.Keys == Elements(workers)
    ensures forall w :: w in workers ==>
              && IndicesOf(Entries(r', GroupOf(groups, w))) == IndicesOf(Entries(r, GroupOf(groups, w)))
              && PortsOf(Entries(r', GroupOf(groups, w))) == offered[w]
    ensures WellOffered(offers) ==>
              && (forall w :: w in workers ==> NoDuplicates(offered[w]))
              && (forall w1, w2 :: w1 in workers && w2 in workers && w1 != w2 && ipOf(w1) == ipOf(w2) ==>
                    Elements(offered[w1]) !! Elements(offered[w2]))
  {
    assert workers[..|workers|] == workers;
    assert forall w :: w in workers ==> w in offered;
  }

  /**
   * What the negotiation over `workers` leaves: every receiver list keeps its length. A shortage
   * (`short`) names a worker whose offer, made given the ports `used` on its address, did not
   * have one port per receiver entry of its fragments; the workers before it have been through
   * the negotiation as `NegotiatedUpTo` says, their ports written into the tables, and `used`
   * holds the ports they took. Otherwise each receiver entry of each worker's fragments keeps its index and
   * carries one of the ports that worker offered (`offered`), in order; the index-to-port table
   * records every such entry, worker after worker; the lists of fragments on no worker of
   * `workers` are untouched; and when the workers keep their promise about their offers, no
   * port is handed out twice on one IP address.
   */
  ghost predicate Negotiated(workers: seq<string>, groups: map<string, seq<string>>, schedule: map<string, string>,
                             r: Receivers, toPort: map<int, int>, ipOf: string -> string,
                             offers: (string, nat, seq<int>) -> seq<int>,
                             short: Option<string>, r': Receivers, toPort': map<int, int>, offered: map<string, seq<int>>,
                             used: map<string, seq<int>>)
  {
    && (forall f :: |ListOf(r', f)| == |ListOf(r, f)|)
    && (short.Some? ==>
          var w := short.value; var n := |Entries(r, GroupOf(groups, w))|;
          && |offers(w, n, UsedOn(used, ipOf(w)))| != n
          && exists q :: 0 <= q < |workers| && workers[q] == w &&
               NegotiatedUpTo(workers, q, groups, schedule, r, toPort, r', toPort', used, offered, ipOf, offers))
    && (short.None? ==>
          && (forall f :: !(f in schedule && schedule[f] in workers) ==> ListOf(r', f) == ListOf(r, f))
          && toPort' == Assign(toPort, Entries(r', Flat(workers, groups)))
          && offered.Keys == Elements(workers)
          && (forall w :: w in workers ==>
                && IndicesOf(Entries(r', GroupOf(groups, w))) == IndicesOf(Entries(r, GroupOf(groups, w)))
                && PortsOf(Entries(r', GroupOf(groups, w))) == offered[w])
          && (WellOffered(offers) ==>
                && (forall w :: w in workers ==> NoDuplicates(offered[w]))
                && (forall w1, w2 :: w1 in workers && w2 in workers && w1 != w2 && ipOf(w1) == ipOf(w2) ==>
                      Elements(offered[w1]) !! Elements(offered[w2]))))
  }

  /**
   * The negotiation loop of `check_fragment_schedule`, over the workers in turn, with the
   * outcome `Negotiated` describes. The first worker whose offer does not match its demand ends
   * the loop; `contacted` are the workers asked, in order.
   */
  method NegotiatePorts(workers: seq<string>, groups: map<string, seq<string>>, ghost schedule: map<string, string>,
                        count: map<string, nat>, r: Receivers, toPort: map<int, int>,
                        ipOf: string -> string, offers: (string, nat, seq<int>) -> seq<int>)
    returns (short: Option<string>, r': Receivers, toPort': map<int, int>, contacted: seq<string>,
             ghost offered: map<string, seq<int>>, ghost usedPorts: map<string, seq<int>>)
    requires NoDuplicates(workers) && Elements(workers) <= groups.Keys
    requires Grouping(schedule, groups) && (forall w :: w in groups ==> NoDuplicates(groups[w])) && Balanced(count, r)
    ensures Negotiated(workers, groups, schedule, r, toPort, ipOf, offers, short, r', toPort', offered, usedPorts)
    ensures contacted <= workers && (short.None? ==> contacted == workers)
    ensures short.Some? ==> contacted != [] && short.value == contacted[|contacted| - 1]
  {
    r', toPort', short := r, toPort, None;
    var used: map<string, seq<int>> := map[];
    offered := map[];
    var q := 0;
    while q < |workers|
      invariant NegotiatedUpTo(workers, q, groups, schedule, r, toPort, r', toPort', used, offered, ipOf, offers)
    {
      var ok, used';
      ghost var offered';
      ok, r', toPort', used', offered' := NegotiateNext(workers, q, groups, schedule, count, r, toPort, r', toPort', used, offered, ipOf, offers);
      if !ok {
        short, contacted, usedPorts := Some(workers[q]), workers[..q + 1], used;
        DemandEntries(count, r, GroupOf(groups, workers[q]));
        return;
      }
      used, offered := used', offered';
      q := q + 1;
    }
    contacted, usedPorts := workers, used;
    NegotiatedAll(workers, groups, schedule, r, toPort, r', toPort', used, offered, ipOf, offers);
  }
}
