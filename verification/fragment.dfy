/**
 * A fragment: a named operator graph with lazily created graph, executor and scheduler, and the
 * port-pair resolution `add_flow` performs before it connects two operators.
 *
 * An operator is a graph `Node`; what `add_flow` needs of it is its spec, reduced to the labels
 * of its input and output ports and the names of its `std::vector<IOSpec*>` parameters.
 */
module Fragments {
  import opened Wrappers
  import opened Strings
  import opened Graphs
  import opened Args

  /** An operator's spec: input port labels, output port labels, receivers parameters. */
  datatype OpSpec = OpSpec(inputs: set<string>, outputs: set<string>, receiverParams: set<string>)

  /** Why `add_flow` gave up (each case is a logged error and an early return). */
  datatype FlowError =
    | NullUpstreamSpec
    | NullDownstreamSpec
    | AmbiguousOutputs
    | AmbiguousInputs
    | OutputLabelCount(count: nat)
    | NoOutputPorts(port: string)
    | UnknownOutput(port: string)
    | InputLabelCount(source: string, count: nat)
    | ReceiversFailed(port: string)
    | NoInputPorts(port: string)
    | UnknownInput(port: string)
    | GraphFailure(error: GraphError)

  /**
   * The executor's `add_receivers`: given a receivers parameter name, the input labels resolved
   * so far and the downstream input ports, it creates a port for the parameter and returns the
   * extended label list and port set, or None when it fails.
   */
  type ReceiversHook = (string, seq<string>, set<string>) -> Option<(seq<string>, set<string>)>

  datatype SchedulerKind = GreedyScheduler | MultiThreadScheduler

  /** A scheduler component: its class, its name and the arguments added to it so far. */
  datatype Scheduler = Scheduler(kind: SchedulerKind, name: string, args: seq<Arg>)

  const EmptyGraph := Graph(map[], map[], [], map[], map[])

  lemma EmptyGraphInv()
    ensures Inv(EmptyGraph)
  {
  }

  // ---------------------------------------------------------------------------------------------
  // Port pairs and port maps

  /** With no pairs given, a single-output/single-input connection is implied as ("", ""). */
  function DefaultPairs(pairs: set<(string, string)>, outputs: set<string>, inputs: set<string>)
    : Result<set<(string, string)>, FlowError>
  {
    if pairs != {} then Success(pairs)
    else if |outputs| > 1 then Failure(AmbiguousOutputs)
    else if |inputs| > 1 then Failure(AmbiguousInputs)
    else Success({("", "")})
  }

  /** The source labels of a set of pairs. */
  function Sources(pairs: set<(string, string)>): set<string>
  {
    set p | p in pairs :: p.0
  }

  /** The destinations paired with source label `k`. */
  function Destinations(pairs: set<(string, string)>, k: string): set<string>
  {
    set p | p in pairs && p.0 == k :: p.1
  }

  /** The port map of a set of pairs: every source label with the set of its destinations. */
  function Group(pairs: set<(string, string)>): PortMap
  {
    map k | k in Sources(pairs) :: Destinations(pairs, k)
  }

  /**
   * Grouping loses nothing and adds nothing: a pair is in the set exactly when its destination is
   * listed under its source label, and every source label has at least one destination.
   */
  lemma GroupRoundTrip(pairs: set<(string, string)>)
    ensures Group(pairs).Keys == Sources(pairs)
    ensures forall k, d :: (k, d) in pairs <==> k in Group(pairs) && d in Group(pairs)[k]
    ensures forall k :: k in Group(pairs) ==> Group(pairs)[k] != {}
  {
    var m := Group(pairs);
    forall k, d | (k, d) in pairs ensures k in m && d in m[k] {
      assert k in Sources(pairs);
      assert d in Destinations(pairs, k);
    }
    forall k, d | k in m && d in m[k] ensures (k, d) in pairs {
      var p :| p in pairs && p.0 == k && p.1 == d;
    }
    forall k | k in m ensures m[k] != {} {
      var p :| p in pairs && p.0 == k;
      assert p.1 in Destinations(pairs, k);
    }
  }

  /** Adding one pair adds its destination under its source label. */
  lemma GroupInsert(done: set<(string, string)>, p: (string, string))
    ensures Group(done + {p}) ==
            Group(done)[p.0 := (if p.0 in Group(done) then Group(done)[p.0] else {}) + {p.1}]
  {
    var g, g' := Group(done), Group(done + {p});
    var r := g[p.0 := (if p.0 in g then g[p.0] else {}) + {p.1}];
    assert Sources(done + {p}) == Sources(done) + {p.0};
    forall k | k in r ensures g'[k] == r[k] {
      if k == p.0 {
        assert Destinations(done + {p}, k) == Destinations(done, k) + {p.1};
      } else {
        assert Destinations(done + {p}, k) == Destinations(done, k);
      }
    }
  }

  /** Builds the port map pair by pair, as the conversion loop of `add_flow` does. */
  method GroupPairs(pairs: set<(string, string)>) returns (m: PortMap)
    ensures m == Group(pairs)
  {
    m := map[];
    var todo := pairs;
    assert pairs - todo == {};
    while todo != {}
      invariant todo <= pairs
      invariant m == Group(pairs - todo)
      decreases |todo|
    {
      var p :| p in todo;
      var (k, d) := p;
      GroupInsert(pairs - todo, p);
      if k !in m {
        m := m[k := {}];
      }
      m := m[k := m[k] + {d}];
      assert pairs - (todo - {p}) == (pairs - todo) + {p};
      todo := todo - {p};
    }
    assert pairs - todo == pairs;
  }

  // ---------------------------------------------------------------------------------------------
  // Resolution against the operator specs

  lemma SingletonIs(s: set<string>, x: string)
    requires |s| == 1 && x in s
    ensures s == {x}
  {
    var rest := s - {x};
    assert |rest| == 0;
  }

  /** The only element of a one-element set (`begin()->first` of a one-entry map). */
  ghost function Sole(s: set<string>): (x: string)
    requires |s| == 1
    ensures s == {x}
  {
    var x :| x in s;
    SingletonIs(s, x);
    x
  }

  /** The first label, in order, that is not among `ports`. */
  function FirstMissing(labels: seq<string>, ports: set<string>): (r: Option<string>)
    ensures r.Some? ==> r.value in labels && r.value !in ports
    ensures r.None? <==> forall l :: l in labels ==> l in ports
  {
    if labels == [] then None
    else if labels[0] !in ports then Some(labels[0])
    else FirstMissing(labels[1..], ports)
  }

  /**
   * The output side: with a single output port exactly one source label may be given; every
   * source label must be an output port, except that a lone "" names the single output port.
   * Labels are examined in the sorted order of the pairs.
   */
  ghost function ResolveOutputs(m: PortMap, outputs: set<string>): Result<PortMap, FlowError>
  {
    SortedSpec(m.Keys);
    var labels := Sorted(m.Keys);
    if |outputs| == 1 && |labels| != 1 then Failure(OutputLabelCount(|labels|))
    else match FirstMissing(labels, outputs)
      case None => Success(m)
      case Some(l) =>
        if |outputs| == 1 && |labels| == 1 && l == "" then Success(map[Sole(outputs) := m[""]])
        else if outputs == {} then Failure(NoOutputPorts(l))
        else Failure(UnknownOutput(l))
  }

  /**
   * The destinations of one source label, in sorted order, appended to `acc`: an input port is
   * kept; a lone "" names the single input port (and ends the scan); a receivers parameter is
   * handed to the hook, which may also add input ports; anything else fails.
   */
  ghost function ResolveLabels(todo: seq<string>, count: nat, inputs: set<string>, params: set<string>,
                               hook: ReceiversHook, acc: seq<string>): Result<(seq<string>, set<string>), FlowError>
    decreases |todo|
  {
    if todo == [] then Success((acc, inputs))
    else
      var l := todo[0];
      if l in inputs then ResolveLabels(todo[1..], count, inputs, params, hook, acc + [l])
      else if |inputs| == 1 && count == 1 && l == "" then Success((acc + [Sole(inputs)], inputs))
      else if l in params then
        match hook(l, acc, inputs)
        case None => Failure(ReceiversFailed(l))
        case Some(res) => ResolveLabels(todo[1..], count, res.1, params, hook, res.0)
      else if inputs == {} then Failure(NoInputPorts(l))
      else Failure(UnknownInput(l))
  }

  /**
   * The input side, source label by source label: with a single input port each source label
   * must have exactly one destination; its destination set is replaced by the resolved labels.
   */
  ghost function ResolveInputs(labels: seq<string>, m: PortMap, inputs: set<string>, params: set<string>,
                               hook: ReceiversHook): Result<(PortMap, set<string>), FlowError>
    requires Elements(labels) <= m.Keys
    decreases |labels|
  {
    if labels == [] then Success((m, inputs))
    else
      var l := labels[0];
      var dests := m[l];
      if |inputs| == 1 && |dests| != 1 then Failure(InputLabelCount(l, |dests|))
      else match ResolveLabels(Sorted(dests), |dests|, inputs, params, hook, [])
        case Failure(e) => Failure(e)
        case Success(res) => ResolveInputs(labels[1..], m[l := Elements(res.0)], res.1, params, hook)
  }

  /** Everything `add_flow` decides before it touches the graph: the port map and input ports. */
  ghost function ResolveFlow(pairs: set<(string, string)>, up: OpSpec, down: OpSpec, hook: ReceiversHook)
    : Result<(PortMap, set<string>), FlowError>
  {
    match DefaultPairs(pairs, up.outputs, down.inputs)
    case Failure(e) => Failure(e)
    case Success(ps) =>
      match ResolveOutputs(Group(ps), up.outputs)
      case Failure(e) => Failure(e)
      case Success(m) =>
        SortedSpec(m.Keys);
        ResolveInputs(Sorted(m.Keys), m, down.inputs, down.receiverParams, hook)
  }

  /** The output-side check, label by label in sorted order. */
  method CheckOutputs(m: PortMap, outputs: set<string>) returns (r: Result<PortMap, FlowError>)
    ensures r == ResolveOutputs(m, outputs)
  {
    var labels := SortedElements(m.Keys);
    SortedSpec(m.Keys);
    if |outputs| == 1 && |labels| != 1 {
      return Failure(OutputLabelCount(|labels|));
    }
    var i := 0;
    while i < |labels|
      invariant 0 <= i <= |labels|
      invariant FirstMissing(labels, outputs) == FirstMissing(labels[i..], outputs)
    {
      assert labels[i..][1..] == labels[i + 1..];
      var l := labels[i];
      if l !in outputs {
        if |outputs| == 1 && |labels| == 1 && l == "" {
          var sole :| sole in outputs;
          SingletonIs(outputs, sole);
          return Success(map[sole := m[""]]);
        }
        if outputs == {} {
          return Failure(NoOutputPorts(l));
        }
        return Failure(UnknownOutput(l));
      }
      i := i + 1;
    }
    r := Success(m);
  }

  /**
   * The destinations of one source label (the inner loop of the input side); `reached` says
   * whether the hook, which needs the fragment's executor, was called.
   */
  method ResolveDestinations(todo: seq<string>, count: nat, inputs: set<string>, params: set<string>,
                             hook: ReceiversHook)
    returns (r: Result<(seq<string>, set<string>), FlowError>, reached: bool)
    ensures r == ResolveLabels(todo, count, inputs, params, hook, [])
    ensures reached ==> params != {}
    ensures r.Failure? && r.error.ReceiversFailed? ==> reached
  {
    reached := false;
    var acc: seq<string> := [];
    var ins := inputs;
    var i := 0;
    while i < |todo|
      invariant 0 <= i <= |todo|
      invariant ResolveLabels(todo[i..], count, ins, params, hook, acc) == ResolveLabels(todo, count, inputs, params, hook, [])
      invariant reached ==> params != {}
    {
      assert todo[i..][1..] == todo[i + 1..];
      var l := todo[i];
      if l in ins {
        acc := acc + [l];
      } else if |ins| == 1 && count == 1 && l == "" {
        var sole :| sole in ins;
        SingletonIs(ins, sole);
        return Success((acc + [sole], ins)), reached;
      } else if l in params {
        reached := true;
        var added := hook(l, acc, ins);
        if added.None? {
          return Failure(ReceiversFailed(l)), reached;
        }
        acc, ins := added.value.0, added.value.1;
      } else if ins == {} {
        return Failure(NoInputPorts(l)), reached;
      } else {
        return Failure(UnknownInput(l)), reached;
      }
      i := i + 1;
    }
    r := Success((acc, ins));
  }

  /** The input side over all source labels (the outer loop); `reached` as for one label. */
  method ResolveSources(labels: seq<string>, m: PortMap, inputs: set<string>, params: set<string>,
                        hook: ReceiversHook) returns (r: Result<(PortMap, set<string>), FlowError>, reached: bool)
    requires Elements(labels) <= m.Keys
    ensures r == ResolveInputs(labels, m, inputs, params, hook)
    ensures reached ==> params != {}
    ensures r.Failure? && r.error.ReceiversFailed? ==> reached
  {
    reached := false;
    var pm := m;
    var ins := inputs;
    var i := 0;
    while i < |labels|
      invariant 0 <= i <= |labels| && Elements(labels) <= pm.Keys
      invariant ResolveInputs(labels[i..], pm, ins, params, hook) == ResolveInputs(labels, m, inputs, params, hook)
      invariant reached ==> params != {}
    {
      assert labels[i..][1..] == labels[i + 1..];
      var l := labels[i];
      var dests := pm[l];
      if |ins| == 1 && |dests| != 1 {
        return Failure(InputLabelCount(l, |dests|)), reached;
      }
      var sorted := SortedElements(dests);
      var res, called := ResolveDestinations(sorted, |dests|, ins, params, hook);
      reached := reached || called;
      if res.Failure? {
        return Failure(res.error), reached;
      }
      pm := pm[l := Elements(res.value.0)];
      ins := res.value.1;
      i := i + 1;
    }
    r := Success((pm, ins));
  }

  // ---------------------------------------------------------------------------------------------
  // Properties of the resolution

  /**
   * Without pairs, an upstream operator with several outputs or a downstream operator with
   * several inputs is refused; otherwise the pair ("", "") is assumed.
   */
  lemma EmptyPairsRule(up: OpSpec, down: OpSpec, hook: ReceiversHook)
    ensures |up.outputs| > 1 ==> ResolveFlow({}, up, down, hook) == Failure(AmbiguousOutputs)
    ensures |up.outputs| <= 1 && |down.inputs| > 1 ==> ResolveFlow({}, up, down, hook) == Failure(AmbiguousInputs)
    ensures |up.outputs| <= 1 && |down.inputs| <= 1 ==>
            ResolveFlow({}, up, down, hook) == ResolveFlow({("", "")}, up, down, hook)
  {
  }

  /** A lone "" source label names the single output port, keeping its destinations. */
  lemma DefaultOutputLabel(o: string, dests: set<string>)
    ensures ResolveOutputs(map["" := dests], {o}) == Success(map[o := dests])
  {
    var m := map["" := dests];
    assert m.Keys == {""};
    SortedSingleton("");
    if o != "" {
      assert FirstMissing([""], {o}) == Some("");
    }
  }

  /** A lone "" destination names the single input port. */
  lemma DefaultInputLabel(i: string, params: set<string>, hook: ReceiversHook)
    ensures ResolveLabels([""], 1, {i}, params, hook, []) == Success(([i], {i}))
  {
    assert |{i}| == 1;
    if i == "" {
      assert [""][1..] == [] && [] + [""] == [""];
      assert ResolveLabels([""], 1, {""}, params, hook, []) == ResolveLabels([], 1, {""}, params, hook, [""]);
    } else {
      var x := Sole({i});
      assert x == i by {
        assert x in {i};
      }
      assert [] + [x] == [i];
      assert ResolveLabels([""], 1, {i}, params, hook, []) == Success(([] + [x], {i}));
    }
  }

  /** With one output port, naming other than exactly one source label is refused. */
  lemma SingleOutputCount(pairs: set<(string, string)>, up: OpSpec, down: OpSpec, hook: ReceiversHook)
    requires pairs != {} && |up.outputs| == 1 && |Sources(pairs)| != 1
    ensures ResolveFlow(pairs, up, down, hook) == Failure(OutputLabelCount(|Sources(pairs)|))
  {
    GroupRoundTrip(pairs);
    SortedSpec(Group(pairs).Keys);
  }

  /**
   * A source label that is not an output port is refused (unless it is the lone "" of a
   * single-output operator): with no output ports as `NoOutputPorts`, otherwise `UnknownOutput`.
   */
  lemma UnknownOutputRefused(m: PortMap, outputs: set<string>, l: string)
    requires l in m && l !in outputs && !(|outputs| == 1 && l == "")
    ensures ResolveOutputs(m, outputs).Failure?
    ensures outputs == {} ==> ResolveOutputs(m, outputs).error.NoOutputPorts?
    ensures |outputs| > 1 ==> ResolveOutputs(m, outputs).error.UnknownOutput?
  {
    SortedSpec(m.Keys);
    var labels := Sorted(m.Keys);
    assert l in Elements(labels);
    assert FirstMissing(labels, outputs).Some?;
    if |outputs| == 1 && |labels| == 1 {
      assert labels == [l] by {
        assert labels[0] in m.Keys;
        SingletonIs(m.Keys, l);
      }
    }
  }

  /** The hook only ever appends labels of input ports that exist afterwards. */
  ghost predicate HookRegisters(hook: ReceiversHook)
  {
    forall l, acc, ins :: hook(l, acc, ins).Some? ==>
      ins <= hook(l, acc, ins).value.1 &&
      forall x :: x in hook(l, acc, ins).value.0 ==> x in acc || x in hook(l, acc, ins).value.1
  }

  /** The destinations resolved for one label are input ports, and no input port is lost. */
  lemma {:induction false} ResolveLabelsSound(todo: seq<string>, count: nat, inputs: set<string>,
                                              params: set<string>, hook: ReceiversHook, acc: seq<string>)
    requires HookRegisters(hook)
    requires forall x :: x in acc ==> x in inputs
    ensures var r := ResolveLabels(todo, count, inputs, params, hook, acc);
            r.Success? ==> inputs <= r.value.1 && forall x :: x in r.value.0 ==> x in r.value.1
    decreases |todo|
  {
    if todo != [] {
      var l := todo[0];
      if l in inputs {
        ResolveLabelsSound(todo[1..], count, inputs, params, hook, acc + [l]);
      } else if |inputs| == 1 && count == 1 && l == "" {
      } else if l in params && hook(l, acc, inputs).Some? {
        var res := hook(l, acc, inputs).value;
        ResolveLabelsSound(todo[1..], count, res.1, params, hook, res.0);
      }
    }
  }

  /** The input side keeps the source labels and only lists input ports as destinations. */
  lemma {:induction false} ResolveInputsSound(labels: seq<string>, m: PortMap, inputs: set<string>,
                                              params: set<string>, hook: ReceiversHook)
    requires HookRegisters(hook) && Elements(labels) <= m.Keys
    requires forall k :: k in m && k !in labels ==> m[k] <= inputs
    ensures var r := ResolveInputs(labels, m, inputs, params, hook);
            r.Success? ==> r.value.0.Keys == m.Keys && inputs <= r.value.1 &&
                           forall k :: k in r.value.0 ==> r.value.0[k] <= r.value.1
    decreases |labels|
  {
    if labels != [] {
      var l := labels[0];
      assert l in Elements(labels);
      var dests := m[l];
      var res := ResolveLabels(Sorted(dests), |dests|, inputs, params, hook, []);
      ResolveLabelsSound(Sorted(dests), |dests|, inputs, params, hook, []);
      if !(|inputs| == 1 && |dests| != 1) && res.Success? {
        var m' := m[l := Elements(res.value.0)];
        var ins := res.value.1;
        assert ResolveInputs(labels, m, inputs, params, hook) == ResolveInputs(labels[1..], m', ins, params, hook);
        assert Elements(labels[1..]) <= m'.Keys by {
          forall x | x in Elements(labels[1..]) ensures x in Elements(labels) {
            assert x in labels[1..];
          }
        }
        assert labels == [l] + labels[1..];
        forall k | k in m' && k !in labels[1..] ensures m'[k] <= ins {
          if k != l {
            assert k !in labels;
          }
        }
        ResolveInputsSound(labels[1..], m', ins, params, hook);
      }
    }
  }

  /** The output side keeps or renames the source labels, only to output ports. */
  lemma ResolveOutputsSound(m: PortMap, outputs: set<string>)
    requires m != map[]
    ensures var r := ResolveOutputs(m, outputs);
            r.Success? ==> r.value != map[] && r.value.Keys <= outputs &&
                           forall k :: k in r.value ==> r.value[k] in m.Values
  {
    SortedSpec(m.Keys);
    var labels := Sorted(m.Keys);
    var r := ResolveOutputs(m, outputs);
    if r.Success? && FirstMissing(labels, outputs).None? {
      forall k | k in m ensures k in outputs {
        assert k in Elements(labels);
      }
      var k :| k in m;
      assert r.value == m;
      forall k | k in m ensures m[k] in m.Values {
      }
    } else if r.Success? {
      var l := FirstMissing(labels, outputs).value;
      assert l in Elements(labels);
      assert |outputs| == 1 && l == "";
      var o := Sole(outputs);
      assert r.value == map[o := m[""]];
      assert o in outputs;
      assert r.value.Keys == {o};
      assert m[""] in m.Values;
      assert forall k :: k in r.value ==> r.value[k] == m[""];
    }
  }

  /**
   * An accepted flow only connects existing ports: every source label is an output port of the
   * upstream operator and every destination an input port of the downstream operator (counting
   * the ports the receivers hook created), and no input port is lost.
   */
  lemma FlowSound(pairs: set<(string, string)>, up: OpSpec, down: OpSpec, hook: ReceiversHook)
    requires HookRegisters(hook)
    ensures var r := ResolveFlow(pairs, up, down, hook);
            r.Success? ==> r.value.0.Keys <= up.outputs && r.value.0 != map[] && down.inputs <= r.value.1 &&
                           forall k :: k in r.value.0 ==> r.value.0[k] <= r.value.1
  {
    var d := DefaultPairs(pairs, up.outputs, down.inputs);
    if d.Success? {
      assert d.value != {};
      GroupRoundTrip(d.value);
      var p :| p in d.value;
      assert p.0 in Group(d.value);
      ResolveOutputsSound(Group(d.value), up.outputs);
      var o := ResolveOutputs(Group(d.value), up.outputs);
      if o.Success? {
        var m := o.value;
        SortedSpec(m.Keys);
        ResolveInputsSound(Sorted(m.Keys), m, down.inputs, down.receiverParams, hook);
      }
    }
  }

  /** Source labels that are all output ports pass the output side unchanged. */
  lemma KnownOutputsKept(m: PortMap, outputs: set<string>)
    requires m != map[] && m.Keys <= outputs
    ensures ResolveOutputs(m, outputs) == Success(m)
  {
    SortedSpec(m.Keys);
    var labels := Sorted(m.Keys);
    if |outputs| == 1 {
      var k :| k in m;
      SingletonIs(outputs, k);
      assert m.Keys == outputs;
    }
    assert FirstMissing(labels, outputs).None? by {
      forall l | l in labels ensures l in outputs {
        assert l in Elements(labels);
      }
    }
  }

  /** Destinations that are all input ports are kept as they are, in order. */
  lemma {:induction false} KnownDestinationsKept(todo: seq<string>, count: nat, inputs: set<string>,
                                                 params: set<string>, hook: ReceiversHook, acc: seq<string>)
    requires forall x :: x in todo ==> x in inputs
    ensures ResolveLabels(todo, count, inputs, params, hook, acc) == Success((acc + todo, inputs))
    decreases |todo|
  {
    if todo == [] {
      assert acc + todo == acc;
    } else {
      assert todo[0] in inputs;
      assert forall x :: x in todo[1..] ==> x in todo;
      KnownDestinationsKept(todo[1..], count, inputs, params, hook, acc + [todo[0]]);
      assert acc + [todo[0]] + todo[1..] == acc + todo;
    }
  }

  /** One source label whose destinations are all input ports keeps them. */
  lemma KnownSourceKept(dests: set<string>, inputs: set<string>, params: set<string>, hook: ReceiversHook)
    requires dests != {} && dests <= inputs
    ensures |inputs| == 1 ==> |dests| == 1
    ensures Elements(Sorted(dests)) == dests
    ensures ResolveLabels(Sorted(dests), |dests|, inputs, params, hook, []) == Success((Sorted(dests), inputs))
  {
    if |inputs| == 1 {
      var x :| x in dests;
      SingletonIs(inputs, x);
      assert dests == inputs;
    }
    SortedSpec(dests);
    var sorted := Sorted(dests);
    assert forall x :: x in sorted ==> x in inputs by {
      forall x | x in sorted ensures x in inputs {
        assert x in Elements(sorted);
      }
    }
    KnownDestinationsKept(sorted, |dests|, inputs, params, hook, []);
    assert [] + sorted == sorted;
  }

  /** Source labels whose destinations are all input ports leave the port map as it is. */
  lemma {:induction false} KnownLabelsKept(labels: seq<string>, m: PortMap, inputs: set<string>,
                                           params: set<string>, hook: ReceiversHook)
    requires Elements(labels) <= m.Keys
    requires forall k :: k in m ==> m[k] != {} && m[k] <= inputs
    ensures ResolveInputs(labels, m, inputs, params, hook) == Success((m, inputs))
    decreases |labels|
  {
    if labels != [] {
      var l := labels[0];
      assert l in Elements(labels);
      KnownSourceKept(m[l], inputs, params, hook);
      assert m[l := m[l]] == m;
      assert Elements(labels[1..]) <= m.Keys by {
        forall x | x in Elements(labels[1..]) ensures x in Elements(labels) {
          assert x in labels[1..];
        }
      }
      KnownLabelsKept(labels[1..], m, inputs, params, hook);
    }
  }

  /**
   * The partner of `FlowSound`: pairs that already name existing ports pass unchanged, as the
   * grouped port map, and no port is added.
   */
  lemma FlowComplete(pairs: set<(string, string)>, up: OpSpec, down: OpSpec, hook: ReceiversHook)
    requires pairs != {}
    requires forall p :: p in pairs ==> p.0 in up.outputs && p.1 in down.inputs
    ensures ResolveFlow(pairs, up, down, hook) == Success((Group(pairs), down.inputs))
  {
    var m := Group(pairs);
    GroupRoundTrip(pairs);
    var p :| p in pairs;
    assert p.0 in m;
    assert m.Keys <= up.outputs by {
      forall k | k in m ensures k in up.outputs {
        var d :| d in m[k];
        assert (k, d) in pairs;
      }
    }
    KnownOutputsKept(m, up.outputs);
    SortedSpec(m.Keys);
    assert forall k :: k in m ==> m[k] <= down.inputs by {
      forall k, d | k in m && d in m[k] ensures d in down.inputs {
        assert (k, d) in pairs;
      }
    }
    KnownLabelsKept(Sorted(m.Keys), m, down.inputs, down.receiverParams, hook);
  }

  /** A single pair whose source is an output port passes the output side. */
  lemma SinglePair(k: string, l: string, outputs: set<string>)
    requires k in outputs
    ensures Group({(k, l)}) == map[k := {l}]
    ensures ResolveOutputs(map[k := {l}], outputs) == Success(map[k := {l}])
  {
    GroupRoundTrip({(k, l)});
    assert Sources({(k, l)}) == {k};
    assert Destinations({(k, l)}, k) == {l};
    assert k in map[k := {l}];
    KnownOutputsKept(map[k := {l}], outputs);
  }

  /**
   * A destination naming a receivers parameter is replaced by whatever the hook supplies, and
   * the ports the hook registers become the downstream operator's inputs; when the hook fails,
   * the flow is refused.
   */
  lemma ReceiversDeferred(k: string, l: string, up: OpSpec, down: OpSpec, hook: ReceiversHook)
    requires k in up.outputs && l !in down.inputs && l in down.receiverParams && l != ""
    ensures hook(l, [], down.inputs).None? ==> ResolveFlow({(k, l)}, up, down, hook) == Failure(ReceiversFailed(l))
    ensures hook(l, [], down.inputs).Some? ==>
            var added := hook(l, [], down.inputs).value;
            ResolveFlow({(k, l)}, up, down, hook) == Success((map[k := Elements(added.0)], added.1))
  {
    SinglePair(k, l, up.outputs);
    var m := map[k := {l}];
    assert m.Keys == {k};
    SortedSingleton(k);
    SortedSingleton(l);
    assert ResolveFlow({(k, l)}, up, down, hook) == ResolveInputs([k], m, down.inputs, down.receiverParams, hook);
    assert [k][1..] == [] && [l][1..] == [] && |{l}| == 1 && m[k] == {l};
    var r := ResolveLabels([l], 1, down.inputs, down.receiverParams, hook, []);
    assert ResolveInputs([k], m, down.inputs, down.receiverParams, hook) ==
           match r
           case Failure(e) => Failure(e)
           case Success(res) => ResolveInputs([], m[k := Elements(res.0)], res.1, down.receiverParams, hook);
    if hook(l, [], down.inputs).Some? {
      var added := hook(l, [], down.inputs).value;
      assert r == ResolveLabels([], 1, added.1, down.receiverParams, hook, added.0);
      assert m[k := Elements(added.0)] == map[k := Elements(added.0)];
    } else {
      assert r == Failure(ReceiversFailed(l));
    }
  }

  // ---------------------------------------------------------------------------------------------
  // Configuration keys

  /** `from_config`'s split of a dotted key into its parts, left to right. */
  method ConfigKeyParts(key: string) returns (parts: seq<string>)
    ensures parts == Split(key, '.')
  {
    parts := [];
    var pos := 0;
    while true
      invariant 0 <= pos <= |key|
      invariant parts + Split(key[pos..], '.') == Split(key, '.')
      decreases |key| - pos
    {
      var next := FindFirstOf(key, {'.'}, pos);
      SplitFrom(key, '.', pos);
      if next.None? {
        break;
      }
      AppendAssociates(parts, [key[pos..next.value]], Split(key[next.value + 1..], '.'));
      parts := parts + [key[pos..next.value]];
      pos := next.value + 1;
    }
    parts := parts + [key[pos..]];
  }

  // ---------------------------------------------------------------------------------------------
  // The fragment

  class Fragment {
    var name: string
    /** The operator graph, created on first use. */
    var graph: FlowGraph?
    /** Whether the executor has been created. */
    var hasExecutor: bool
    var scheduler: Option<Scheduler>
    var isComposed: bool
    /** How many times the user's `compose()` has run. */
    ghost var composeRuns: nat

    ghost predicate Valid()
      reads this, graph
    {
      && (graph != null ==> graph.Valid())
      && composeRuns == (if isComposed then 1 else 0)
    }

    /** The operator graph's contents (an empty graph before it is created). */
    ghost function Operators(): Graph
      reads this, graph
    {
      if graph == null then EmptyGraph else graph.State()
    }

    constructor ()
      ensures Valid() && name == "" && graph == null && !hasExecutor && scheduler.None?
      ensures !isComposed
    {
      name := "";
      graph := null;
      hasExecutor := false;
      scheduler := None;
      isComposed := false;
      composeRuns := 0;
    }

    /** Sets the name; "all" is reserved, which is reported (`reserved`) but does not stop it. */
    method SetName(n: string) returns (reserved: bool)
      requires Valid()
      modifies this
      ensures Valid() && name == n && (reserved <==> n == "all")
      ensures graph == old(graph) && hasExecutor == old(hasExecutor) && scheduler == old(scheduler)
      ensures isComposed == old(isComposed) && composeRuns == old(composeRuns)
    {
      reserved := n == "all";
      name := n;
    }

    /** Runs the user's `compose()` the first time only. */
    method ComposeGraph()
      requires Valid()
      modifies this
      ensures Valid() && isComposed && composeRuns == 1
      ensures old(isComposed) ==> composeRuns == old(composeRuns)
      ensures name == old(name) && graph == old(graph) && hasExecutor == old(hasExecutor)
      ensures scheduler == old(scheduler)
    {
      if isComposed {
        return;
      }
      isComposed := true;
      composeRuns := composeRuns + 1;
    }

    /** `graph()`: the operator graph, created empty on first use. */
    method GetGraph() returns (g: FlowGraph)
      requires Valid()
      modifies this
      ensures Valid() && graph == g && Operators() == old(Operators())
      ensures old(graph) != null ==> g == old(graph)
      ensures old(graph) == null ==> fresh(g)
      ensures name == old(name) && hasExecutor == old(hasExecutor) && scheduler == old(scheduler)
      ensures isComposed == old(isComposed) && composeRuns == old(composeRuns)
    {
      if graph == null {
        graph := new FlowGraph();
        assert graph.State() == EmptyGraph;
      }
      g := graph;
    }

    /** `executor()`: the executor, created on first use. */
    method GetExecutor()
      requires Valid()
      modifies this
      ensures Valid() && hasExecutor
      ensures name == old(name) && graph == old(graph) && scheduler == old(scheduler)
      ensures isComposed == old(isComposed) && composeRuns == old(composeRuns)
    {
      hasExecutor := true;
    }

    /** `scheduler()`: the scheduler, a default greedy scheduler when none was set. */
    method GetScheduler() returns (s: Scheduler)
      requires Valid()
      modifies this
      ensures Valid() && scheduler == Some(s)
      ensures old(scheduler).Some? ==> s == old(scheduler).value
      ensures old(scheduler).None? ==> s == Scheduler(GreedyScheduler, "", [])
      ensures name == old(name) && graph == old(graph) && hasExecutor == old(hasExecutor)
      ensures isComposed == old(isComposed) && composeRuns == old(composeRuns)
    {
      if scheduler.None? {
        scheduler := Some(Scheduler(GreedyScheduler, "", []));
      }
      s := scheduler.value;
    }

    /** `scheduler(s)`: replaces the scheduler. */
    method SetScheduler(s: Scheduler)
      requires Valid()
      modifies this
      ensures Valid() && scheduler == Some(s)
      ensures name == old(name) && graph == old(graph) && hasExecutor == old(hasExecutor)
      ensures isComposed == old(isComposed) && composeRuns == old(composeRuns)
    {
      scheduler := Some(s);
    }

    /** `add_operator`: registers the operator in the graph under the duplicate-name rule. */
    method AddOperator(op: Node) returns (r: Outcome<GraphError>)
      requires Valid()
      modifies this, graph
      ensures Valid() && Step(Operators(), r) == Registering(old(Operators()), op)
      ensures name == old(name) && hasExecutor == old(hasExecutor) && scheduler == old(scheduler)
      ensures isComposed == old(isComposed) && composeRuns == old(composeRuns)
    {
      var g := GetGraph();
      r := g.Register(op);
    }

    /**
     * `add_flow` between two operators: resolves the pairs against the two specs and, only if
     * that succeeds, adds the edge with the resolved port map (the downstream operator's input
     * ports afterwards are returned in `inputs`). A null spec or any refusal leaves the graph
     * as it was. Handing a receivers parameter to the hook goes through `executor()`, which
     * creates the executor; nothing else touches it.
     */
    method AddFlow(up: Node, down: Node, upSpec: Option<OpSpec>, downSpec: Option<OpSpec>,
                   pairs: set<(string, string)>, hook: ReceiversHook)
      returns (r: Outcome<FlowError>, inputs: set<string>)
      requires Valid()
      modifies this, graph
      ensures Valid()
      ensures upSpec.None? ==> r == Fail(NullUpstreamSpec) && Operators() == old(Operators())
      ensures upSpec.Some? && downSpec.None? ==> r == Fail(NullDownstreamSpec) && Operators() == old(Operators())
      ensures upSpec.Some? && downSpec.Some? ==>
              var res := ResolveFlow(pairs, upSpec.value, downSpec.value, hook);
              && (res.Failure? ==> r == Fail(res.error) && Operators() == old(Operators()))
              && (res.Success? ==>
                    var s := Flowing(old(Operators()), Some(up), Some(down), Some(res.value.0));
                    inputs == res.value.1 && Operators() == s.g &&
                    r == (if s.r.Pass? then Pass else Fail(GraphFailure(s.r.error))))
      ensures name == old(name) && scheduler == old(scheduler)
      ensures isComposed == old(isComposed) && composeRuns == old(composeRuns)
      ensures old(hasExecutor) ==> hasExecutor
      ensures hasExecutor != old(hasExecutor) ==> downSpec.Some? && downSpec.value.receiverParams != {}
      ensures upSpec.Some? && downSpec.Some? ==>
              var res := ResolveFlow(pairs, upSpec.value, downSpec.value, hook);
              res.Failure? && res.error.ReceiversFailed? ==> hasExecutor
    {
      inputs := {};
      if upSpec.None? {
        return Fail(NullUpstreamSpec), inputs;
      }
      if downSpec.None? {
        return Fail(NullDownstreamSpec), inputs;
      }
      var upOp, downOp := upSpec.value, downSpec.value;
      var given := DefaultPairs(pairs, upOp.outputs, downOp.inputs);
      if given.Failure? {
        return Fail(given.error), inputs;
      }
      var grouped := GroupPairs(given.value);
      var outputs := CheckOutputs(grouped, upOp.outputs);
      if outputs.Failure? {
        return Fail(outputs.error), inputs;
      }
      var m := outputs.value;
      var labels := SortedElements(m.Keys);
      SortedSpec(m.Keys);
      var resolved, reached := ResolveSources(labels, m, downOp.inputs, downOp.receiverParams, hook);
      if reached {
        GetExecutor();
      }
      if resolved.Failure? {
        return Fail(resolved.error), inputs;
      }
      inputs := resolved.value.1;
      var g := GetGraph();
      var added := g.AddFlow(Some(up), Some(down), Some(resolved.value.0));
      r := if added.Pass? then Pass else Fail(GraphFailure(added.error));
    }
  }
}
