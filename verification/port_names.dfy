/**
 * Port-name correction between two fragments. A connection between fragments is recorded as a
 * map from an upstream label `op` or `op.port` to the downstream labels it feeds. Before the
 * driver can number connections, every label that leaves out its port must be completed with
 * the operator's only port of the right direction. A label that cannot be completed makes the
 * correction fail.
 *
 * How a label splits into operator and port belongs to the operator class, which is not part of
 * this model; it is a parameter `parse` here. The port map is an unordered map: its keys are
 * taken in ascending order, and so are the labels of each destination set.
 */
module PortNames {
  import opened Wrappers
  import opened Strings
  import opened Graphs
  import opened Fragments

  type LabelParser = string -> (string, string)

  /** Why a correction failed: the operator named by the offending label. */
  datatype PortFault =
    | UnknownSourceOperator(op: string)
    | SourceWithoutOutputs(op: string)
    | AmbiguousSourcePort(op: string)
    | TargetWithoutInputs(op: string)
    | AmbiguousTargetPort(op: string)

  /** An operator label completed with one of its ports. */
  function Qualified(op: string, port: string): string
  {
    op + "." + port
  }

  /** A renaming: the label as written and its corrected form. */
  type Rename = (string, string)

  function Prefixed(done: seq<Rename>, r: Result<seq<Rename>, PortFault>): Result<seq<Rename>, PortFault>
  {
    if r.Success? then Success(done + r.value) else r
  }

  // ---------------------------------------------------------------------------------------
  // Upstream labels
  // ---------------------------------------------------------------------------------------

  /** An upstream label names a known operator and one of its outputs, or may default to its only one. */
  predicate SourceResolvable(k: string, ops: map<string, OpSpec>, parse: LabelParser)
  {
    var (op, port) := parse(k);
    op in ops && (port in ops[op].outputs || (|ops[op].outputs| == 1 && port == ""))
  }

  /**
   * The renamings the upstream labels `keys` need, in order; the first label that names no
   * known operator, or neither an output nor the only one by default, fails the correction.
   */
  ghost function SourceRenames(keys: seq<string>, ops: map<string, OpSpec>, parse: LabelParser)
    : Result<seq<Rename>, PortFault>
  {
    if keys == [] then Success([])
    else
      var (op, port) := parse(keys[0]);
      if op !in ops then Failure(UnknownSourceOperator(op))
      else
        var outputs := ops[op].outputs;
        if port in outputs then SourceRenames(keys[1..], ops, parse)
        else if |outputs| == 1 && port == "" then
          Prefixed([(keys[0], Qualified(keys[0], Sole(outputs)))], SourceRenames(keys[1..], ops, parse))
        else if outputs == {} then Failure(SourceWithoutOutputs(op))
        else Failure(AmbiguousSourcePort(op))
  }

  /** Moves the destinations of `o` to `c`; a missing `o` moves the empty set. */
  function RenameKey(m: PortMap, rn: Rename): PortMap
  {
    var (o, c) := rn;
    var dests := if o in m then m[o] else {};
    m[c := dests] - {o}
  }

  function RenameKeys(m: PortMap, rns: seq<Rename>): PortMap
    decreases |rns|
  {
    if rns == [] then m else RenameKeys(RenameKey(m, rns[0]), rns[1..])
  }

  // ---------------------------------------------------------------------------------------
  // Downstream labels
  // ---------------------------------------------------------------------------------------

  /** `t` is among the downstream labels of some upstream label of `m`. */
  ghost predicate Feeds(m: PortMap, t: string)
  {
    exists k :: k in m && t in m[k]
  }

  /** Every downstream label of `m` names an operator of `ops`; the code relies on it without a check. */
  ghost predicate TargetsKnown(m: PortMap, ops: map<string, OpSpec>, parse: LabelParser)
  {
    forall t :: Feeds(m, t) ==> parse(t).0 in ops
  }

  /** `keys` are distinct upstream labels of `m` whose downstream labels all name operators of `ops`. */
  ghost predicate KeysKnown(m: PortMap, keys: seq<string>, ops: map<string, OpSpec>, parse: LabelParser)
  {
    && NoDuplicates(keys)
    && forall i :: 0 <= i < |keys| ==> keys[i] in m && forall t :: t in m[keys[i]] ==> parse(t).0 in ops
  }

  /**
   * A downstream label names an input, may default to the only one, or names a parameter that
   * collects any number of receivers.
   */
  predicate TargetResolvable(t: string, ops: map<string, OpSpec>, parse: LabelParser)
    requires parse(t).0 in ops
  {
    var (op, port) := parse(t);
    var spec := ops[op];
    port in spec.inputs || (|spec.inputs| == 1 && port == "") || port in spec.receiverParams
  }

  /** The renamings the downstream labels `ts` need, in order, or the first unresolvable one's fault. */
  ghost function TargetRenames(ts: seq<string>, ops: map<string, OpSpec>, parse: LabelParser)
    : Result<seq<Rename>, PortFault>
    requires forall i :: 0 <= i < |ts| ==> parse(ts[i]).0 in ops
  {
    if ts == [] then Success([])
    else
      var (op, port) := parse(ts[0]);
      var inputs := ops[op].inputs;
      if port in inputs then TargetRenames(ts[1..], ops, parse)
      else if |inputs| == 1 && port == "" then
        Prefixed([(ts[0], Qualified(op, Sole(inputs)))], TargetRenames(ts[1..], ops, parse))
      else if port in ops[op].receiverParams then TargetRenames(ts[1..], ops, parse)
      else if inputs == {} then Failure(TargetWithoutInputs(op))
      else Failure(AmbiguousTargetPort(op))
  }

  /** Replaces each label by its corrected form, in order. */
  function RenameLabels(s: set<string>, rns: seq<Rename>): set<string>
    decreases |rns|
  {
    if rns == [] then s else RenameLabels(s - {rns[0].0} + {rns[0].1}, rns[1..])
  }

  lemma KeysKnownTail(m: PortMap, keys: seq<string>, s: set<string>, ops: map<string, OpSpec>, parse: LabelParser)
    requires KeysKnown(m, keys, ops, parse) && keys != []
    ensures KeysKnown(m[keys[0] := s], keys[1..], ops, parse)
  {
    var m' := m[keys[0] := s];
    forall i | 0 <= i < |keys[1..]|
      ensures keys[1..][i] in m' && forall t :: t in m'[keys[1..][i]] ==> parse(t).0 in ops
    {
      assert keys[1..][i] == keys[i + 1] != keys[0];
    }
  }

  /**
   * Corrects the destinations of `keys`, one upstream label after the other. A label whose
   * destinations cannot be corrected stops the pass; the labels before it keep their corrections.
   */
  ghost function CorrectTargets(m: PortMap, keys: seq<string>, ops: map<string, OpSpec>, parse: LabelParser)
    : (PortMap, Option<PortFault>)
    requires KeysKnown(m, keys, ops, parse)
    decreases |keys|
  {
    if keys == [] then (m, None)
    else
      var k := keys[0];
      SortedSpec(m[k]);
      var ts := Sorted(m[k]);
      assert forall i :: 0 <= i < |ts| ==> ts[i] in Elements(ts);
      match TargetRenames(ts, ops, parse)
      case Failure(f) => (m, Some(f))
      case Success(rns) =>
        KeysKnownTail(m, keys, RenameLabels(m[k], rns), ops, parse);
        CorrectTargets(m[k := RenameLabels(m[k], rns)], keys[1..], ops, parse)
  }

  // ---------------------------------------------------------------------------------------
  // The whole correction
  // ---------------------------------------------------------------------------------------

  lemma RenameKeyFeeds(m: PortMap, rn: Rename)
    ensures forall t :: Feeds(RenameKey(m, rn), t) ==> Feeds(m, t)
  {
    var r := RenameKey(m, rn);
    forall t | Feeds(r, t) ensures Feeds(m, t) {
      var k :| k in r && t in r[k];
      if k != rn.1 {
        assert t in m[k];
      } else {
        assert t in m[rn.0];
      }
    }
  }

  /** Renaming upstream labels never adds a downstream label. */
  lemma {:induction false} RenameKeysFeeds(m: PortMap, rns: seq<Rename>)
    ensures forall t :: Feeds(RenameKeys(m, rns), t) ==> Feeds(m, t)
    decreases |rns|
  {
    if rns != [] {
      RenameKeyFeeds(m, rns[0]);
      RenameKeysFeeds(RenameKey(m, rns[0]), rns[1..]);
    }
  }

  lemma SortedKeysKnown(m: PortMap, ops: map<string, OpSpec>, parse: LabelParser)
    requires TargetsKnown(m, ops, parse)
    ensures KeysKnown(m, Sorted(m.Keys), ops, parse)
  {
    SortedSpec(m.Keys);
    var keys := Sorted(m.Keys);
    forall i, t | 0 <= i < |keys| && t in m[keys[i]] ensures parse(t).0 in ops {
      assert keys[i] in Elements(keys);
      assert Feeds(m, t);
    }
  }

  /**
   * The correction as a whole: the verdict and the port map as the correction leaves it. An
   * unresolvable upstream label leaves the map untouched; an unresolvable downstream label
   * leaves the renamed upstream labels and the destinations corrected before it.
   */
  ghost function Corrected(m: PortMap, srcOps: map<string, OpSpec>, tgtOps: map<string, OpSpec>,
                           parse: LabelParser): (PortMap, bool)
    requires TargetsKnown(m, tgtOps, parse)
  {
    match SourceRenames(Sorted(m.Keys), srcOps, parse)
    case Failure(_) => (m, false)
    case Success(rns) =>
      var m1 := RenameKeys(m, rns);
      RenameKeysFeeds(m, rns);
      SortedKeysKnown(m1, tgtOps, parse);
      var (r, fault) := CorrectTargets(m1, Sorted(m1.Keys), tgtOps, parse);
      (r, fault.None?)
  }

  // ---------------------------------------------------------------------------------------
  // The operation
  // ---------------------------------------------------------------------------------------

  lemma PrefixedNothing(r: Result<seq<Rename>, PortFault>)
    ensures Prefixed([], r) == r
  {
    if r.Success? {
      assert [] + r.value == r.value;
    }
  }

  lemma PrefixedAppend(done: seq<Rename>, rn: Rename, r: Result<seq<Rename>, PortFault>)
    ensures Prefixed(done, Prefixed([rn], r)) == Prefixed(done + [rn], r)
  {
    if r.Success? {
      AppendAssociates(done, [rn], r.value);
    }
  }

  /**
   * `update_port_names`: completes the labels of the port map of the connection from `srcOps`'
   * fragment to `tgtOps`' fragment, returning whether every label could be completed and the map
   * as the correction leaves it (the code edits it in place, also when it fails).
   */
  method UpdatePortNames(m: PortMap, srcOps: map<string, OpSpec>, tgtOps: map<string, OpSpec>,
                         parse: LabelParser) returns (ok: bool, r: PortMap)
    requires TargetsKnown(m, tgtOps, parse)
    ensures (r, ok) == Corrected(m, srcOps, tgtOps, parse)
  {
    var keys := SortedElements(m.Keys);
    var rns := CollectSourceRenames(keys, srcOps, parse);
    if rns.Failure? {
      return false, m;
    }
    var m1 := RenameAllKeys(m, rns.value);
    RenameKeysFeeds(m, rns.value);
    SortedKeysKnown(m1, tgtOps, parse);
    var keys1 := SortedElements(m1.Keys);
    var fault;
    r, fault := CorrectAllTargets(m1, keys1, tgtOps, parse);
    ok := fault.None?;
  }

  /** Moves the destinations of each upstream label to its corrected form, in order. */
  method RenameAllKeys(m: PortMap, rns: seq<Rename>) returns (r: PortMap)
    ensures r == RenameKeys(m, rns)
  {
    r := m;
    var j := 0;
    assert rns[j..] == rns;
    while j < |rns|
      invariant 0 <= j <= |rns|
      invariant RenameKeys(r, rns[j..]) == RenameKeys(m, rns)
    {
      assert rns[j..][1..] == rns[j + 1..];
      var (o, c) := rns[j];
      var dests := if o in r then r[o] else {};
      r := r[c := dests] - {o};
      j := j + 1;
    }
    assert rns[j..] == [];
  }

  /** Corrects the destinations of `keys`, one upstream label after the other. */
  method CorrectAllTargets(m: PortMap, keys: seq<string>, ops: map<string, OpSpec>, parse: LabelParser)
    returns (r: PortMap, fault: Option<PortFault>)
    requires KeysKnown(m, keys, ops, parse)
    ensures (r, fault) == CorrectTargets(m, keys, ops, parse)
  {
    r := m;
    var n := 0;
    assert keys[n..] == keys;
    while n < |keys|
      invariant 0 <= n <= |keys|
      invariant KeysKnown(r, keys[n..], ops, parse)
      invariant CorrectTargets(r, keys[n..], ops, parse) == CorrectTargets(m, keys, ops, parse)
    {
      var k := keys[n];
      assert keys[n..][0] == k && keys[n..][1..] == keys[n + 1..];
      var ts := SortedElements(r[k]);
      SortedSpec(r[k]);
      assert forall i :: 0 <= i < |ts| ==> ts[i] in Elements(ts);
      var trns := CollectTargetRenames(ts, ops, parse);
      if trns.Failure? {
        return r, Some(trns.error);
      }
      var s := RelabelAll(r[k], trns.value);
      KeysKnownTail(r, keys[n..], s, ops, parse);
      r := r[k := s];
      n := n + 1;
    }
    assert keys[n..] == [];
    fault := None;
  }

  /** The renamings the upstream labels `keys` need, label by label. */
  method CollectSourceRenames(keys: seq<string>, ops: map<string, OpSpec>, parse: LabelParser)
    returns (rns: Result<seq<Rename>, PortFault>)
    ensures rns == SourceRenames(keys, ops, parse)
  {
    var done: seq<Rename> := [];
    var i := 0;
    assert keys[i..] == keys;
    PrefixedNothing(SourceRenames(keys, ops, parse));
    while i < |keys|
      invariant 0 <= i <= |keys|
      invariant Prefixed(done, SourceRenames(keys[i..], ops, parse)) == SourceRenames(keys, ops, parse)
    {
      var k := keys[i];
      assert keys[i..][0] == k && keys[i..][1..] == keys[i + 1..];
      var (op, port) := parse(k);
      if op !in ops {
        assert SourceRenames(keys[i..], ops, parse) == Failure(UnknownSourceOperator(op));
        return Failure(UnknownSourceOperator(op));
      }
      var outputs := ops[op].outputs;
      if port !in outputs {
        if |outputs| == 1 && port == "" {
          var p :| p in outputs;
          SingletonIs(outputs, p);
          PrefixedAppend(done, (k, Qualified(k, p)), SourceRenames(keys[i + 1..], ops, parse));
          done := done + [(k, Qualified(k, p))];
        } else if outputs == {} {
          assert SourceRenames(keys[i..], ops, parse) == Failure(SourceWithoutOutputs(op));
          return Failure(SourceWithoutOutputs(op));
        } else {
          assert SourceRenames(keys[i..], ops, parse) == Failure(AmbiguousSourcePort(op));
          return Failure(AmbiguousSourcePort(op));
        }
      }
      i := i + 1;
    }
    assert keys[i..] == [] && done + [] == done;
    rns := Success(done);
  }

  /** The renamings the downstream labels `ts` need, label by label. */
  method CollectTargetRenames(ts: seq<string>, ops: map<string, OpSpec>, parse: LabelParser)
    returns (rns: Result<seq<Rename>, PortFault>)
    requires forall i :: 0 <= i < |ts| ==> parse(ts[i]).0 in ops
    ensures rns == TargetRenames(ts, ops, parse)
  {
    var done: seq<Rename> := [];
    var i := 0;
    assert ts[i..] == ts;
    PrefixedNothing(TargetRenames(ts, ops, parse));
    while i < |ts|
      invariant 0 <= i <= |ts|
      invariant Prefixed(done, TargetRenames(ts[i..], ops, parse)) == TargetRenames(ts, ops, parse)
    {
      var t := ts[i];
      assert ts[i..][0] == t && ts[i..][1..] == ts[i + 1..];
      var (op, port) := parse(t);
      var spec := ops[op];
      if port !in spec.inputs {
        if |spec.inputs| == 1 && port == "" {
          var p :| p in spec.inputs;
          SingletonIs(spec.inputs, p);
          PrefixedAppend(done, (t, Qualified(op, p)), TargetRenames(ts[i + 1..], ops, parse));
          done := done + [(t, Qualified(op, p))];
        } else if port !in spec.receiverParams {
          if spec.inputs == {} {
            assert TargetRenames(ts[i..], ops, parse) == Failure(TargetWithoutInputs(op));
            return Failure(TargetWithoutInputs(op));
          }
          assert TargetRenames(ts[i..], ops, parse) == Failure(AmbiguousTargetPort(op));
          return Failure(AmbiguousTargetPort(op));
        }
      }
      i := i + 1;
    }
    assert ts[i..] == [] && done + [] == done;
    rns := Success(done);
  }

  /** Replaces each label of `s` by its corrected form, in order. */
  method RelabelAll(s: set<string>, rns: seq<Rename>) returns (r: set<string>)
    ensures r == RenameLabels(s, rns)
  {
    r := s;
    var j := 0;
    assert rns[j..] == rns;
    while j < |rns|
      invariant 0 <= j <= |rns|
      invariant RenameLabels(r, rns[j..]) == RenameLabels(s, rns)
    {
      assert rns[j..][1..] == rns[j + 1..];
      r := r - {rns[j].0} + {rns[j].1};
      j := j + 1;
    }
    assert rns[j..] == [];
  }

  // ---------------------------------------------------------------------------------------
  // What the correction guarantees
  // ---------------------------------------------------------------------------------------

  /** An upstream label that names an output port of its operator. */
  predicate NamesOutput(k: string, ops: map<string, OpSpec>, parse: LabelParser)
  {
    var (op, port) := parse(k);
    op in ops && port in ops[op].outputs
  }

  /** A downstream label that names an input port of its operator, or a receivers parameter. */
  predicate NamesInput(t: string, ops: map<string, OpSpec>, parse: LabelParser)
  {
    var (op, port) := parse(t);
    op in ops && (port in ops[op].inputs || port in ops[op].receiverParams)
  }

  /** `rn` completes a port-less upstream label with its operator's only output. */
  ghost predicate SourceRename(rn: Rename, ops: map<string, OpSpec>, parse: LabelParser)
  {
    var (op, port) := parse(rn.0);
    && op in ops && port == "" && port !in ops[op].outputs && |ops[op].outputs| == 1
    && rn.1 == Qualified(rn.0, Sole(ops[op].outputs))
  }

  /** `rn` completes a port-less downstream label with its operator's only input. */
  ghost predicate TargetRename(rn: Rename, ops: map<string, OpSpec>, parse: LabelParser)
  {
    var (op, port) := parse(rn.0);
    op in ops && port == "" && |ops[op].inputs| == 1 && rn.1 == Qualified(op, Sole(ops[op].inputs))
  }

  /** The label parser reads a completed port-less upstream label back as its operator and port. */
  ghost predicate ReadsBackOutputs(ops: map<string, OpSpec>, parse: LabelParser)
  {
    forall k, p :: parse(k).0 in ops && parse(k).1 == "" && p in ops[parse(k).0].outputs ==>
      parse(Qualified(k, p)) == (parse(k).0, p)
  }

  /** The label parser reads `op.port` back as `op` and `port` for every input port. */
  ghost predicate ReadsBackInputs(ops: map<string, OpSpec>, parse: LabelParser)
  {
    forall op, p :: op in ops && p in ops[op].inputs ==> parse(Qualified(op, p)) == (op, p)
  }

  /** The upstream pass fails exactly when some label is unresolvable. */
  lemma {:induction false} SourceRenamesVerdict(keys: seq<string>, ops: map<string, OpSpec>, parse: LabelParser)
    ensures SourceRenames(keys, ops, parse).Success? <==>
              forall i :: 0 <= i < |keys| ==> SourceResolvable(keys[i], ops, parse)
    decreases |keys|
  {
    if keys != [] {
      SourceRenamesVerdict(keys[1..], ops, parse);
      assert forall i :: 1 <= i < |keys| ==> keys[i] == keys[1..][i - 1];
    }
  }

  /**
   * A successful upstream pass renames port-less labels only, each to its operator's only
   * output, and every label it leaves alone already names an output.
   */
  lemma {:induction false} SourceRenamesShape(keys: seq<string>, ops: map<string, OpSpec>, parse: LabelParser)
    ensures var r := SourceRenames(keys, ops, parse);
            r.Success? ==>
              && (forall j :: 0 <= j < |r.value| ==> r.value[j].0 in keys && SourceRename(r.value[j], ops, parse))
              && (forall i :: 0 <= i < |keys| ==>
                    NamesOutput(keys[i], ops, parse) || exists j :: 0 <= j < |r.value| && r.value[j].0 == keys[i])
    decreases |keys|
  {
    if keys != [] {
      var tail := keys[1..];
      SourceRenamesShape(tail, ops, parse);
      assert forall i :: 1 <= i < |keys| ==> keys[i] == tail[i - 1];
      var (op, port) := parse(keys[0]);
      if op in ops && port !in ops[op].outputs && |ops[op].outputs| == 1 && port == "" {
        var rest := SourceRenames(tail, ops, parse);
        if rest.Success? {
          var rn := (keys[0], Qualified(keys[0], Sole(ops[op].outputs)));
          var rns := [rn] + rest.value;
          assert SourceRenames(keys, ops, parse) == Success(rns);
          forall i | 0 <= i < |keys|
            ensures NamesOutput(keys[i], ops, parse) || exists j :: 0 <= j < |rns| && rns[j].0 == keys[i]
          {
            if i == 0 {
              assert rns[0].0 == keys[0];
            } else if !NamesOutput(keys[i], ops, parse) {
              var j :| 0 <= j < |rest.value| && rest.value[j].0 == tail[i - 1];
              assert rns[j + 1].0 == keys[i];
            }
          }
          forall j | 0 <= j < |rns| ensures rns[j].0 in keys && SourceRename(rns[j], ops, parse) {
            if j > 0 {
              assert rns[j] == rest.value[j - 1];
            }
          }
        }
      }
    }
  }

  /** Renaming keeps every upstream label resolved: afterwards each names an output. */
  lemma {:induction false} RenameKeysSound(m: PortMap, rns: seq<Rename>, ops: map<string, OpSpec>, parse: LabelParser)
    requires forall j :: 0 <= j < |rns| ==> SourceRename(rns[j], ops, parse)
    requires ReadsBackOutputs(ops, parse)
    requires forall k :: k in m ==> NamesOutput(k, ops, parse) || exists j :: 0 <= j < |rns| && rns[j].0 == k
    ensures forall k :: k in RenameKeys(m, rns) ==> NamesOutput(k, ops, parse)
    decreases |rns|
  {
    if rns != [] {
      var (o, c) := rns[0];
      var m' := RenameKey(m, rns[0]);
      var (op, port) := parse(o);
      assert Sole(ops[op].outputs) in ops[op].outputs;
      assert NamesOutput(c, ops, parse);
      forall k | k in m' ensures NamesOutput(k, ops, parse) || exists j :: 0 <= j < |rns[1..]| && rns[1..][j].0 == k {
        if k != c && !NamesOutput(k, ops, parse) {
          var j :| 0 <= j < |rns| && rns[j].0 == k;
          assert j != 0;
          assert rns[1..][j - 1].0 == k;
        }
      }
      RenameKeysSound(m', rns[1..], ops, parse);
    }
  }

  /** The downstream pass over one destination set fails exactly when some label is unresolvable. */
  lemma {:induction false} TargetRenamesVerdict(ts: seq<string>, ops: map<string, OpSpec>, parse: LabelParser)
    requires forall i :: 0 <= i < |ts| ==> parse(ts[i]).0 in ops
    ensures TargetRenames(ts, ops, parse).Success? <==>
              forall i :: 0 <= i < |ts| ==> TargetResolvable(ts[i], ops, parse)
    decreases |ts|
  {
    if ts != [] {
      TargetRenamesVerdict(ts[1..], ops, parse);
      assert forall i :: 1 <= i < |ts| ==> ts[i] == ts[1..][i - 1];
    }
  }

  /**
   * A successful downstream pass over one destination set renames port-less labels only, each
   * to its operator's only input, and every label it leaves alone already names an input or a
   * receivers parameter.
   */
  lemma {:induction false} TargetRenamesShape(ts: seq<string>, ops: map<string, OpSpec>, parse: LabelParser)
    requires forall i :: 0 <= i < |ts| ==> parse(ts[i]).0 in ops
    ensures var r := TargetRenames(ts, ops, parse);
            r.Success? ==>
              && (forall j :: 0 <= j < |r.value| ==> r.value[j].0 in ts && TargetRename(r.value[j], ops, parse))
              && (forall i :: 0 <= i < |ts| ==>
                    NamesInput(ts[i], ops, parse) || exists j :: 0 <= j < |r.value| && r.value[j].0 == ts[i])
    decreases |ts|
  {
    if ts != [] {
      var tail := ts[1..];
      TargetRenamesShape(tail, ops, parse);
      assert forall i :: 1 <= i < |ts| ==> ts[i] == tail[i - 1];
      var (op, port) := parse(ts[0]);
      if port !in ops[op].inputs && |ops[op].inputs| == 1 && port == "" {
        var rest := TargetRenames(tail, ops, parse);
        if rest.Success? {
          var rn := (ts[0], Qualified(op, Sole(ops[op].inputs)));
          var rns := [rn] + rest.value;
          assert TargetRenames(ts, ops, parse) == Success(rns);
          forall i | 0 <= i < |ts|
            ensures NamesInput(ts[i], ops, parse) || exists j :: 0 <= j < |rns| && rns[j].0 == ts[i]
          {
            if i == 0 {
              assert rns[0].0 == ts[0];
            } else if !NamesInput(ts[i], ops, parse) {
              var j :| 0 <= j < |rest.value| && rest.value[j].0 == tail[i - 1];
              assert rns[j + 1].0 == ts[i];
            }
          }
          forall j | 0 <= j < |rns| ensures rns[j].0 in ts && TargetRename(rns[j], ops, parse) {
            if j > 0 {
              assert rns[j] == rest.value[j - 1];
            }
          }
        }
      }
    }
  }

  /** Relabelling a destination set leaves only labels that name an input or a receivers parameter. */
  lemma {:induction false} RenameLabelsSound(s: set<string>, rns: seq<Rename>, ops: map<string, OpSpec>, parse: LabelParser)
    requires forall j :: 0 <= j < |rns| ==> TargetRename(rns[j], ops, parse)
    requires ReadsBackInputs(ops, parse)
    requires forall x :: x in s ==> NamesInput(x, ops, parse) || exists j :: 0 <= j < |rns| && rns[j].0 == x
    ensures forall x :: x in RenameLabels(s, rns) ==> NamesInput(x, ops, parse)
    decreases |rns|
  {
    if rns != [] {
      var (o, c) := rns[0];
      var s' := s - {o} + {c};
      var (op, port) := parse(o);
      assert Sole(ops[op].inputs) in ops[op].inputs;
      assert NamesInput(c, ops, parse);
      forall x | x in s' ensures NamesInput(x, ops, parse) || exists j :: 0 <= j < |rns[1..]| && rns[1..][j].0 == x {
        if x != c && !NamesInput(x, ops, parse) {
          var j :| 0 <= j < |rns| && rns[j].0 == x;
          assert j != 0;
          assert rns[1..][j - 1].0 == x;
        }
      }
      RenameLabelsSound(s', rns[1..], ops, parse);
    }
  }

  /** The downstream pass keeps the upstream labels, and the destinations of labels it does not visit. */
  lemma {:induction false} CorrectTargetsFrame(m: PortMap, keys: seq<string>, ops: map<string, OpSpec>, parse: LabelParser)
    requires KeysKnown(m, keys, ops, parse)
    ensures var r := CorrectTargets(m, keys, ops, parse).0;
            r.Keys == m.Keys && forall k :: k in m && k !in keys ==> r[k] == m[k]
    decreases |keys|
  {
    if keys != [] {
      var k := keys[0];
      SortedSpec(m[k]);
      var ts := Sorted(m[k]);
      assert forall i :: 0 <= i < |ts| ==> ts[i] in Elements(ts);
      var tr := TargetRenames(ts, ops, parse);
      if tr.Success? {
        var m' := m[k := RenameLabels(m[k], tr.value)];
        KeysKnownTail(m, keys, RenameLabels(m[k], tr.value), ops, parse);
        CorrectTargetsFrame(m', keys[1..], ops, parse);
      }
    }
  }

  /** The destinations of the first visited label are all resolvable, or the pass fails on them. */
  lemma FirstKeyVerdict(m: PortMap, keys: seq<string>, ops: map<string, OpSpec>, parse: LabelParser)
    requires KeysKnown(m, keys, ops, parse) && keys != []
    ensures var ts := Sorted(m[keys[0]]);
            && (forall i :: 0 <= i < |ts| ==> parse(ts[i]).0 in ops)
            && (TargetRenames(ts, ops, parse).Success? <==>
                  forall t :: t in m[keys[0]] ==> TargetResolvable(t, ops, parse))
  {
    var k := keys[0];
    SortedSpec(m[k]);
    var ts := Sorted(m[k]);
    assert forall i :: 0 <= i < |ts| ==> ts[i] in Elements(ts);
    TargetRenamesVerdict(ts, ops, parse);
    forall t | t in m[k] ensures exists i :: 0 <= i < |ts| && ts[i] == t {
      assert t in Elements(ts);
    }
  }

  /** The downstream pass succeeds exactly when every destination of every visited label is resolvable. */
  lemma {:induction false} CorrectTargetsVerdict(m: PortMap, keys: seq<string>, ops: map<string, OpSpec>, parse: LabelParser)
    requires KeysKnown(m, keys, ops, parse)
    ensures CorrectTargets(m, keys, ops, parse).1.None? <==>
              forall i, t :: 0 <= i < |keys| && t in m[keys[i]] ==> TargetResolvable(t, ops, parse)
    decreases |keys|
  {
    if keys != [] {
      var k := keys[0];
      FirstKeyVerdict(m, keys, ops, parse);
      var tr := TargetRenames(Sorted(m[k]), ops, parse);
      if tr.Success? {
        var m' := m[k := RenameLabels(m[k], tr.value)];
        KeysKnownTail(m, keys, RenameLabels(m[k], tr.value), ops, parse);
        CorrectTargetsVerdict(m', keys[1..], ops, parse);
        assert forall i :: 1 <= i < |keys| ==> keys[i] == keys[1..][i - 1] && m'[keys[i]] == m[keys[i]];
      }
    }
  }

  /** After a successful downstream pass, every destination of every visited label names an input or a receivers parameter. */
  lemma {:induction false} CorrectTargetsSound(m: PortMap, keys: seq<string>, ops: map<string, OpSpec>, parse: LabelParser)
    requires KeysKnown(m, keys, ops, parse)
    requires ReadsBackInputs(ops, parse)
    ensures var (r, fault) := CorrectTargets(m, keys, ops, parse);
            fault.None? ==> forall k, t :: k in keys && k in r && t in r[k] ==> NamesInput(t, ops, parse)
    decreases |keys|
  {
    if keys != [] {
      var k := keys[0];
      SortedSpec(m[k]);
      var ts := Sorted(m[k]);
      assert forall i :: 0 <= i < |ts| ==> ts[i] in Elements(ts);
      var tr := TargetRenames(ts, ops, parse);
      if tr.Success? {
        TargetRenamesShape(ts, ops, parse);
        forall x | x in m[k] ensures NamesInput(x, ops, parse) || exists j :: 0 <= j < |tr.value| && tr.value[j].0 == x {
          assert x in Elements(ts);
        }
        RenameLabelsSound(m[k], tr.value, ops, parse);
        var m' := m[k := RenameLabels(m[k], tr.value)];
        KeysKnownTail(m, keys, RenameLabels(m[k], tr.value), ops, parse);
        CorrectTargetsSound(m', keys[1..], ops, parse);
        CorrectTargetsFrame(m', keys[1..], ops, parse);
        assert k !in keys[1..];
      }
    }
  }

  predicate AllSourcesResolvable(m: PortMap, ops: map<string, OpSpec>, parse: LabelParser)
  {
    forall k :: k in m ==> SourceResolvable(k, ops, parse)
  }

  ghost predicate AllTargetsResolvable(m: PortMap, ops: map<string, OpSpec>, parse: LabelParser)
    requires TargetsKnown(m, ops, parse)
  {
    forall t :: Feeds(m, t) ==> TargetResolvable(t, ops, parse)
  }

  lemma SortedCovers(s: set<string>)
    ensures forall x :: x in s <==> exists i :: 0 <= i < |Sorted(s)| && Sorted(s)[i] == x
  {
    SortedSpec(s);
    forall x | x in s ensures exists i :: 0 <= i < |Sorted(s)| && Sorted(s)[i] == x {
      assert x in Elements(Sorted(s));
    }
  }

  /**
   * When the correction succeeds and when it fails: an unresolvable upstream label fails it and
   * leaves the map as it was; resolvable upstream and downstream labels throughout make it succeed.
   */
  lemma UpdatePortNamesVerdict(m: PortMap, srcOps: map<string, OpSpec>, tgtOps: map<string, OpSpec>,
                               parse: LabelParser)
    requires TargetsKnown(m, tgtOps, parse)
    ensures var (r, ok) := Corrected(m, srcOps, tgtOps, parse);
            && (ok ==> forall k :: k in m ==> SourceResolvable(k, srcOps, parse))
            && ((exists k :: k in m && !SourceResolvable(k, srcOps, parse)) ==> r == m && !ok)
            && (AllSourcesResolvable(m, srcOps, parse) && AllTargetsResolvable(m, tgtOps, parse) ==> ok)
  {
    var keys := Sorted(m.Keys);
    SortedCovers(m.Keys);
    SourceRenamesVerdict(keys, srcOps, parse);
    var sr := SourceRenames(keys, srcOps, parse);
    if sr.Success? {
      var m1 := RenameKeys(m, sr.value);
      RenameKeysFeeds(m, sr.value);
      SortedKeysKnown(m1, tgtOps, parse);
      var keys1 := Sorted(m1.Keys);
      SortedCovers(m1.Keys);
      CorrectTargetsVerdict(m1, keys1, tgtOps, parse);
      if AllTargetsResolvable(m, tgtOps, parse) {
        forall i, t | 0 <= i < |keys1| && t in m1[keys1[i]] ensures TargetResolvable(t, tgtOps, parse) {
          assert Feeds(m1, t);
        }
      }
    }
  }

  /** After a successful upstream pass, every upstream label names an output port. */
  lemma SourcePassSound(m: PortMap, ops: map<string, OpSpec>, parse: LabelParser)
    requires ReadsBackOutputs(ops, parse)
    ensures var sr := SourceRenames(Sorted(m.Keys), ops, parse);
            sr.Success? ==> forall k :: k in RenameKeys(m, sr.value) ==> NamesOutput(k, ops, parse)
  {
    var keys := Sorted(m.Keys);
    SortedCovers(m.Keys);
    SourceRenamesShape(keys, ops, parse);
    var sr := SourceRenames(keys, ops, parse);
    if sr.Success? {
      forall k | k in m ensures NamesOutput(k, ops, parse) || exists j :: 0 <= j < |sr.value| && sr.value[j].0 == k {
        var i :| 0 <= i < |keys| && keys[i] == k;
      }
      RenameKeysSound(m, sr.value, ops, parse);
    }
  }

  /**
   * The point of the correction: when it succeeds, and the label parser reads completed labels
   * back, every upstream label names an output port and every downstream label an input port or
   * a receivers parameter.
   */
  lemma UpdatePortNamesSound(m: PortMap, srcOps: map<string, OpSpec>, tgtOps: map<string, OpSpec>,
                             parse: LabelParser)
    requires TargetsKnown(m, tgtOps, parse)
    requires ReadsBackOutputs(srcOps, parse) && ReadsBackInputs(tgtOps, parse)
    ensures var (r, ok) := Corrected(m, srcOps, tgtOps, parse);
            ok ==> && (forall k :: k in r ==> NamesOutput(k, srcOps, parse))
                   && (forall k, t :: k in r && t in r[k] ==> NamesInput(t, tgtOps, parse))
  {
    var sr := SourceRenames(Sorted(m.Keys), srcOps, parse);
    if sr.Success? {
      var m1 := RenameKeys(m, sr.value);
      SourcePassSound(m, srcOps, parse);
      RenameKeysFeeds(m, sr.value);
      SortedKeysKnown(m1, tgtOps, parse);
      var keys1 := Sorted(m1.Keys);
      SortedCovers(m1.Keys);
      CorrectTargetsFrame(m1, keys1, tgtOps, parse);
      CorrectTargetsSound(m1, keys1, tgtOps, parse);
      var r := CorrectTargets(m1, keys1, tgtOps, parse).0;
      forall k | k in r ensures k in keys1 {
        var i :| 0 <= i < |keys1| && keys1[i] == k;
      }
    }
  }

  /** Completing downstream labels keeps each on a known operator, when completed labels read back. */
  lemma {:induction false} RenameLabelsKnown(s: set<string>, rns: seq<Rename>, ops: map<string, OpSpec>,
                                             parse: LabelParser)
    requires forall j :: 0 <= j < |rns| ==> TargetRename(rns[j], ops, parse)
    requires ReadsBackInputs(ops, parse)
    requires forall x :: x in s ==> parse(x).0 in ops
    ensures forall x :: x in RenameLabels(s, rns) ==> parse(x).0 in ops
    decreases |rns|
  {
    if rns != [] {
      var (o, c) := rns[0];
      var op := parse(o).0;
      assert Sole(ops[op].inputs) in ops[op].inputs;
      assert parse(c).0 in ops;
      assert forall j :: 0 <= j < |rns[1..]| ==> rns[1..][j] == rns[j + 1];
      RenameLabelsKnown(s - {o} + {c}, rns[1..], ops, parse);
    }
  }

  /** The downstream pass, finished or stopped, leaves every downstream label on a known operator. */
  lemma {:induction false} CorrectTargetsKnown(m: PortMap, keys: seq<string>, ops: map<string, OpSpec>,
                                               parse: LabelParser)
    requires KeysKnown(m, keys, ops, parse) && TargetsKnown(m, ops, parse)
    requires ReadsBackInputs(ops, parse)
    ensures TargetsKnown(CorrectTargets(m, keys, ops, parse).0, ops, parse)
    decreases |keys|
  {
    if keys != [] {
      var k := keys[0];
      SortedSpec(m[k]);
      var ts := Sorted(m[k]);
      assert forall i :: 0 <= i < |ts| ==> ts[i] in Elements(ts);
      var tr := TargetRenames(ts, ops, parse);
      if tr.Success? {
        TargetRenamesShape(ts, ops, parse);
        RenameLabelsKnown(m[k], tr.value, ops, parse);
        var m' := m[k := RenameLabels(m[k], tr.value)];
        forall t | Feeds(m', t) ensures parse(t).0 in ops {
          var k' :| k' in m' && t in m'[k'];
          if k' != k {
            assert Feeds(m, t);
          }
        }
        KeysKnownTail(m, keys, RenameLabels(m[k], tr.value), ops, parse);
        CorrectTargetsKnown(m', keys[1..], ops, parse);
      }
    }
  }

  /**
   * Whether it succeeds or not, the correction leaves every downstream label on an operator of
   * the receiving fragment, when the label parser reads completed labels back: the correction
   * can be run again on what it leaves.
   */
  lemma CorrectedKnown(m: PortMap, srcOps: map<string, OpSpec>, tgtOps: map<string, OpSpec>, parse: LabelParser)
    requires TargetsKnown(m, tgtOps, parse) && ReadsBackInputs(tgtOps, parse)
    ensures TargetsKnown(Corrected(m, srcOps, tgtOps, parse).0, tgtOps, parse)
  {
    var sr := SourceRenames(Sorted(m.Keys), srcOps, parse);
    if sr.Success? {
      var m1 := RenameKeys(m, sr.value);
      RenameKeysFeeds(m, sr.value);
      SortedKeysKnown(m1, tgtOps, parse);
      CorrectTargetsKnown(m1, Sorted(m1.Keys), tgtOps, parse);
    }
  }

  lemma ExampleKeys()
    ensures Sorted({"a", "a.out"}) == ["a", "a.out"]
  {
    assert Below("a", "a.out") by {
      assert "a"[1..] == [] && "a.out"[1..] == ".out";
    }
    assert IsLeast("a", {"a", "a.out"});
    SortedCons("a", {"a", "a.out"});
    assert {"a", "a.out"} - {"a"} == {"a.out"};
    SortedSingleton("a.out");
  }

  lemma ExampleTargetsKnown(parse: LabelParser)
    requires parse("b.x") == ("b", "x") && parse("b.y") == ("b", "y")
    ensures TargetsKnown(map["a" := {"b.x"}, "a.out" := {"b.y"}], map["b" := OpSpec({"x", "y"}, {}, {})], parse)
  {
    var m: PortMap := map["a" := {"b.x"}, "a.out" := {"b.y"}];
    forall t | Feeds(m, t) ensures t == "b.x" || t == "b.y" {
      var k :| k in m && t in m[k];
    }
  }

  lemma ExampleSourceRenames(parse: LabelParser)
    requires parse("a") == ("a", "") && parse("a.out") == ("a", "out")
    ensures SourceRenames(["a", "a.out"], map["a" := OpSpec({}, {"out"}, {})], parse) == Success([("a", "a.out")])
  {
    var ops := map["a" := OpSpec({}, {"out"}, {})];
    var keys := ["a", "a.out"];
    assert keys[1..] == ["a.out"] && keys[1..][1..] == [];
    assert SourceRenames([], ops, parse) == Success([]);
    assert SourceRenames(["a.out"], ops, parse) == Success([]);
    assert Sole({"out"}) == "out";
    assert Qualified("a", "out") == "a.out";
    assert [("a", "a.out")] + [] == [("a", "a.out")];
  }

  lemma ExampleTargetPass(parse: LabelParser)
    requires parse("b.x") == ("b", "x")
    ensures var m1: PortMap := map["a.out" := {"b.x"}];
            var ops := map["b" := OpSpec({"x", "y"}, {}, {})];
            KeysKnown(m1, ["a.out"], ops, parse) && CorrectTargets(m1, ["a.out"], ops, parse) == (m1, None)
  {
    var m1: PortMap := map["a.out" := {"b.x"}];
    var ops := map["b" := OpSpec({"x", "y"}, {}, {})];
    SortedSingleton("b.x");
    assert ["b.x"][1..] == [];
    assert TargetRenames(["b.x"], ops, parse) == Success([]);
    assert m1["a.out" := RenameLabels({"b.x"}, [])] == m1;
    assert ["a.out"][1..] == [];
  }

  /**
   * A label completed onto one that is already present takes that label's place: with an
   * operator `a` whose only output is `out`, the destinations of `a` replace those of `a.out`,
   * and `b.y` is no longer fed by anything, yet the correction reports success.
   */
  lemma CompletedLabelReplacesExisting(m: PortMap, srcOps: map<string, OpSpec>, tgtOps: map<string, OpSpec>,
                                       parse: LabelParser)
    requires m == map["a" := {"b.x"}, "a.out" := {"b.y"}]
    requires srcOps == map["a" := OpSpec({}, {"out"}, {})] && tgtOps == map["b" := OpSpec({"x", "y"}, {}, {})]
    requires parse("a") == ("a", "") && parse("a.out") == ("a", "out")
    requires parse("b.x") == ("b", "x") && parse("b.y") == ("b", "y")
    ensures TargetsKnown(m, tgtOps, parse)
    ensures Corrected(m, srcOps, tgtOps, parse) == (map["a.out" := {"b.x"}], true)
  {
    ExampleTargetsKnown(parse);
    assert m.Keys == {"a", "a.out"};
    ExampleKeys();
    ExampleSourceRenames(parse);
    var m1 := RenameKeys(m, [("a", "a.out")]);
    assert m1 == map["a.out" := {"b.x"}];
    assert m1.Keys == {"a.out"};
    SortedSingleton("a.out");
    ExampleTargetPass(parse);
  }
}
