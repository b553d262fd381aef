/**
 * The application: the fragment graph and its fragment-level flows, the environment switches
 * read when a distributed application is scheduled, and the rule that picks and configures
 * each fragment's scheduler.
 *
 * An application is also a fragment (its own operator graph is the `Fragments.Fragment`
 * model); only the members it adds are modelled here.
 */
module Applications {
  import opened Wrappers
  import opened Strings
  import opened Graphs
  import opened Args
  import opened Fragments
  import opened DriverConfig

  // ---------------------------------------------------------------------------------------------
  // The fragment graph

  /** Why a fragment-level `add_flow` did nothing. */
  datatype AppFlowError = EmptyPortPairs | FragmentGraphFailure(error: GraphError)

  class Application {
    /** The fragment graph, created on first use; fragments are its nodes. */
    var fragmentGraph: FlowGraph?

    ghost predicate Valid()
      reads this, fragmentGraph
    {
      fragmentGraph != null ==> fragmentGraph.Valid()
    }

    /** The fragment graph's contents (an empty graph before it is created). */
    ghost function FragmentFlows(): Graph
      reads this, fragmentGraph
    {
      if fragmentGraph == null then EmptyGraph else fragmentGraph.State()
    }

    constructor ()
      ensures Valid() && fragmentGraph == null
    {
      fragmentGraph := null;
    }

    /** `fragment_graph()`: the fragment graph, created empty on first use. */
    method FragmentGraph() returns (g: FlowGraph)
      requires Valid()
      modifies this
      ensures Valid() && fragmentGraph == g && FragmentFlows() == old(FragmentFlows())
      ensures old(fragmentGraph) != null ==> g == old(fragmentGraph)
      ensures old(fragmentGraph) == null ==> fresh(g)
    {
      if fragmentGraph == null {
        fragmentGraph := new FlowGraph();
        assert fragmentGraph.State() == EmptyGraph;
      }
      g := fragmentGraph;
    }

    /** `add_fragment`: registers the fragment under the duplicate-name rule. */
    method AddFragment(frag: Node) returns (r: Outcome<GraphError>)
      requires Valid()
      modifies this, fragmentGraph
      ensures Valid() && Step(FragmentFlows(), r) == Registering(old(FragmentFlows()), frag)
    {
      var g := FragmentGraph();
      r := g.Register(frag);
    }

    /**
     * `add_flow` between fragments: an empty pair set is refused before anything is created;
     * otherwise the pairs, grouped by source label, become the edge's port map without any
     * check of the labels.
     */
    method AddFlow(up: Node, down: Node, pairs: set<(string, string)>) returns (r: Outcome<AppFlowError>)
      requires Valid()
      modifies this, fragmentGraph
      ensures Valid()
      ensures pairs == {} ==> r == Fail(EmptyPortPairs) && fragmentGraph == old(fragmentGraph) &&
                              FragmentFlows() == old(FragmentFlows())
      ensures pairs != {} ==>
              var s := Flowing(old(FragmentFlows()), Some(up), Some(down), Some(Group(pairs)));
              FragmentFlows() == s.g && r == (if s.r.Pass? then Pass else Fail(FragmentGraphFailure(s.r.error)))
    {
      if pairs == {} {
        return Fail(EmptyPortPairs);
      }
      var portMap := GroupPairs(pairs);
      var g := FragmentGraph();
      var added := g.AddFlow(Some(up), Some(down), Some(portMap));
      r := if added.Pass? then Pass else Fail(FragmentGraphFailure(added.error));
    }
  }

  /**
   * A fragment-level flow between two admitted fragments with no edge yet stores exactly the
   * given pairs: a pair is in the edge's port map exactly when it was given.
   */
  lemma FragmentFlowPorts(g: Graph, up: Node, down: Node, pairs: set<(string, string)>)
    requires Inv(g) && Links(g.nodes, Some(up), Some(down)) && !HasEdgeIn(g, up, down)
    ensures WellFormed(g)
    ensures var h := Flowing(g, Some(up), Some(down), Some(Group(pairs))).g;
            && HasEdgeIn(h, up, down) && (up, down) in h.ports
            && forall k, d :: (k, d) in pairs <==> k in h.ports[(up, down)] && d in h.ports[(up, down)][k]
  {
    InvWellFormed(g);
    FlowStoresPortMap(g, up, down, Group(pairs));
    GroupRoundTrip(pairs);
  }

  /** A new edge carries exactly the port map given with it. */
  lemma FlowStoresPortMap(g: Graph, up: Node, down: Node, m: PortMap)
    requires Inv(g) && Links(g.nodes, Some(up), Some(down)) && !HasEdgeIn(g, up, down)
    ensures WellFormed(g)
    ensures var h := Flowing(g, Some(up), Some(down), Some(m)).g;
            HasEdgeIn(h, up, down) && (up, down) in h.ports && h.ports[(up, down)] == m
  {
    FlowingEdges(g, Some(up), Some(down), Some(m));
    assert InsertAll(map[], m) == m;
  }

  // ---------------------------------------------------------------------------------------------
  // Environment switches

  /** `SchedulerType`: the distributed-app scheduler an environment asks for. */
  datatype SchedulerType = DefaultType | GreedyType | MultiThreadType

  /** `ErrorCode` values the environment getters return. */
  datatype EnvError = NotFound | InvalidArgument

  /** A variable counts as set when it exists and is not the empty string. */
  predicate Present(env: Option<string>)
  {
    env.Some? && env.value != []
  }

  /** `get_distributed_app_scheduler_env`. */
  function SchedulerTypeEnv(env: Option<string>): Result<SchedulerType, EnvError>
  {
    if !Present(env) then Success(DefaultType)
    else if env.value == "greedy" then Success(GreedyType)
    else if env.value == "multithread" then Success(MultiThreadType)
    else Failure(InvalidArgument)
  }

  /** The scheduler switch recognises its two names exactly and rejects every other value. */
  lemma SchedulerTypeEnvMeaning(env: Option<string>)
    ensures SchedulerTypeEnv(env) == Success(GreedyType) <==> env == Some("greedy")
    ensures SchedulerTypeEnv(env) == Success(MultiThreadType) <==> env == Some("multithread")
    ensures SchedulerTypeEnv(env) == Success(DefaultType) <==> !Present(env)
    ensures SchedulerTypeEnv(env).Failure? <==>
            Present(env) && env.value != "greedy" && env.value != "multithread"
  {
  }

  /** `get_stop_on_deadlock_env`: a set variable is read with true as the fallback. */
  function StopOnDeadlockEnv(env: Option<string>): Result<bool, EnvError>
  {
    if Present(env) then Success(GetBoolEnvVar(env, true)) else Failure(NotFound)
  }

  /** Because the fallback is true, any set value, "false" and "0" included, yields true. */
  lemma StopOnDeadlockEnvAlwaysTrue(env: Option<string>)
    ensures Present(env) <==> StopOnDeadlockEnv(env) == Success(true)
    ensures !Present(env) <==> StopOnDeadlockEnv(env) == Failure(NotFound)
    ensures StopOnDeadlockEnv(Some("false")) == Success(true)
  {
  }

  const SpaceChars: set<char> := {' ', '\t', '\n', 11 as char, 12 as char, '\r'}
  const Int64Min: int := -0x8000_0000_0000_0000
  const Int64Max: int := 0x7fff_ffff_ffff_ffff

  /** The two exceptions `std::stoll` throws. */
  datatype StollError = NoConversion | OutOfRange

  /** The input with its leading white space removed. */
  function SkipSpace(s: string): (r: string)
    ensures r == [] || r[0] !in SpaceChars
    ensures |r| <= |s| && r == s[|s| - |r|..]
  {
    if s != [] && s[0] in SpaceChars then SkipSpace(s[1..]) else s
  }

  /** The length of the longest run of decimal digits that starts `s`. */
  function DigitRun(s: string): (n: nat)
    ensures n <= |s| && AllDigits(s[..n])
    ensures n < |s| ==> !IsDigit(s[n])
  {
    if s != [] && IsDigit(s[0]) then
      var k := DigitRun(s[1..]);
      assert s[..1 + k] == [s[0]] + s[1..][..k];
      1 + k
    else 0
  }

  /** Whether the text after white space starts with a sign. */
  predicate Signed(rest: string)
  {
    rest != [] && (rest[0] == '-' || rest[0] == '+')
  }

  /** The conversion proper: the longest run of digits that starts `digits`, negated if asked. */
  function Convert(digits: string, negative: bool): Result<int, StollError>
  {
    var n := DigitRun(digits);
    if n == 0 then Failure(NoConversion)
    else
      var magnitude := DecimalValue(digits[..n]);
      var value: int := if negative then -(magnitude as int) else magnitude;
      if Int64Min <= value <= Int64Max then Success(value) else Failure(OutOfRange)
  }

  /**
   * `std::stoll` in base 10: leading white space, an optional sign, then the longest run of
   * digits, whatever follows; no digits fail, and a value outside `int64_t` is out of range.
   */
  function Stoll(s: string): Result<int, StollError>
  {
    var rest := SkipSpace(s);
    if Signed(rest) then Convert(rest[1..], rest[0] == '-') else Convert(rest, false)
  }

  lemma {:induction false} DigitRunOf(d: string, rest: string)
    requires AllDigits(d)
    requires rest == [] || !IsDigit(rest[0])
    ensures DigitRun(d + rest) == |d|
  {
    if d != [] {
      assert (d + rest)[0] == d[0];
      assert (d + rest)[1..] == d[1..] + rest;
      DigitRunOf(d[1..], rest);
    } else {
      assert d + rest == rest;
    }
  }

  /** Converting a decimal spelling followed by a non-digit reads exactly the spelling. */
  lemma ConvertDecimal(n: nat, rest: string, negative: bool)
    requires rest == [] || !IsDigit(rest[0])
    ensures Convert(NatToDigits(n) + rest, negative) ==
            var value: int := if negative then -(n as int) else n;
            if Int64Min <= value <= Int64Max then Success(value) else Failure(OutOfRange)
  {
    var d := NatToDigits(n);
    DigitRunOf(d, rest);
    assert (d + rest)[..|d|] == d;
    DecimalRoundTrip(n);
  }

  /** Text that starts with a digit is converted as it stands, with a minus sign after it. */
  lemma StollUnsigned(t: string)
    requires t != [] && IsDigit(t[0])
    ensures Stoll(t) == Convert(t, false) && Stoll(['-'] + t) == Convert(t, true)
  {
    assert t[0] !in SpaceChars;
    assert SkipSpace(t) == t;
    var m := ['-'] + t;
    assert m[0] == '-' && m[0] !in SpaceChars;
    assert SkipSpace(m) == m;
    assert m[1..] == t;
  }

  /** Reading back a decimal spelling within range gives the number, whatever non-digit follows. */
  lemma StollReadsDecimal(n: nat, rest: string)
    requires n <= Int64Max
    requires rest == [] || !IsDigit(rest[0])
    ensures Stoll(NatToDigits(n) + rest) == Success(n)
  {
    var d := NatToDigits(n);
    assert (d + rest)[0] == d[0];
    StollUnsigned(d + rest);
    ConvertDecimal(n, rest, false);
  }

  /** The same with a minus sign, down to the least `int64_t`. */
  lemma StollReadsNegative(n: nat, rest: string)
    requires n <= -Int64Min
    requires rest == [] || !IsDigit(rest[0])
    ensures Stoll(['-'] + NatToDigits(n) + rest) == Success(-(n as int))
  {
    var d := NatToDigits(n);
    assert (d + rest)[0] == d[0];
    assert ['-'] + d + rest == ['-'] + (d + rest);
    StollUnsigned(d + rest);
    ConvertDecimal(n, rest, true);
  }

  /** A number too large for `int64_t` is out of range. */
  lemma StollOutOfRange(n: nat)
    requires n > Int64Max
    ensures Stoll(NatToDigits(n)) == Failure(OutOfRange)
  {
    var d := NatToDigits(n);
    StollUnsigned(d);
    assert d + [] == d;
    ConvertDecimal(n, [], false);
  }

  /** Text that, after white space and a sign, does not start with a digit is not a number. */
  lemma StollNoDigits(s: string)
    requires var rest := SkipSpace(s);
             rest == [] || (!IsDigit(rest[0]) && rest[0] != '-' && rest[0] != '+')
    ensures Stoll(s) == Failure(NoConversion)
  {
  }

  /** `get_stop_on_deadlock_timeout_env` and `get_max_duration_ms_env`. */
  function Int64Env(env: Option<string>): Result<int, EnvError>
  {
    if !Present(env) then Failure(NotFound)
    else match Stoll(env.value)
      case Failure(_) => Failure(InvalidArgument)
      case Success(v) => Success(v)
  }

  /** An integer switch is unset, unreadable, or an `int64_t` value. */
  lemma Int64EnvMeaning(env: Option<string>)
    ensures Int64Env(env) == Failure(NotFound) <==> !Present(env)
    ensures Int64Env(env) == Failure(InvalidArgument) <==> Present(env) && Stoll(env.value).Failure?
    ensures Int64Env(env).Success? ==> Int64Min <= Int64Env(env).value <= Int64Max
  {
    if Int64Env(env).Success? {
      assert Stoll(env.value).Success?;
    }
  }

  /** The documented default deadlock timeout, written as a variable, reads back as 5000. */
  lemma Int64EnvReadsTimeout()
    ensures Int64Env(Some("5000")) == Success(5000)
  {
    assert NatToDigits(5000) == "5000" by {
      assert NatToDigits(5) == "5";
      assert NatToDigits(50) == "50";
      assert NatToDigits(500) == "500";
    }
    StollReadsDecimal(5000, []);
    assert NatToDigits(5000) + [] == "5000";
  }

  /** `get_check_recession_period_ms_env`; `stod` reads a decimal number or fails. */
  function RealEnv(env: Option<string>, stod: string -> Option<real>): Result<real, EnvError>
  {
    if !Present(env) then Failure(NotFound)
    else match stod(env.value)
      case None => Failure(InvalidArgument)
      case Some(v) => Success(v)
  }

  // ---------------------------------------------------------------------------------------------
  // Scheduler choice

  /** The five variables `set_scheduler_for_fragments` reads. */
  datatype Environment = Environment(
    scheduler: Option<string>,
    stopOnDeadlock: Option<string>,
    stopOnDeadlockTimeout: Option<string>,
    maxDurationMs: Option<string>,
    checkRecessionPeriodMs: Option<string>)

  /** The settings decided once for all fragments, and the arguments the environment forces. */
  datatype SchedulerPolicy = SchedulerPolicy(
    kind: SchedulerType,
    stopOnDeadlock: bool,
    timeout: int,
    maxDuration: int,
    recession: real,
    overrides: seq<Arg>)

  function ValueOr<T, E>(r: Result<T, E>, default: T): T
  {
    if r.Success? then r.value else default
  }

  /** The arguments forced from each variable that could be read, in the order they are added. */
  function ForcedArgs(stop: Result<bool, EnvError>, timeout: Result<int, EnvError>,
                      maxDuration: Result<int, EnvError>, recession: Result<real, EnvError>): seq<Arg>
  {
    (if stop.Success? then [Arg("stop_on_deadlock", BoolArg(stop.value))] else [])
    + (if timeout.Success? then [Arg("stop_on_deadlock_timeout", IntArg(timeout.value))] else [])
    + (if maxDuration.Success? then [Arg("max_duration_ms", IntArg(maxDuration.value))] else [])
    + (if recession.Success? then [Arg("check_recession_period_ms", RealArg(recession.value))] else [])
  }

  /**
   * The settings: each variable's value when it could be read, else the defaults (stop on
   * deadlock, 5000 ms, no maximum duration, 0 ms); an unreadable scheduler name means the default.
   */
  function Policy(env: Environment, stod: string -> Option<real>): SchedulerPolicy
  {
    var kind := SchedulerTypeEnv(env.scheduler);
    var stop := StopOnDeadlockEnv(env.stopOnDeadlock);
    var timeout := Int64Env(env.stopOnDeadlockTimeout);
    var maxDuration := Int64Env(env.maxDurationMs);
    var recession := RealEnv(env.checkRecessionPeriodMs, stod);
    SchedulerPolicy(
      ValueOr(kind, DefaultType), ValueOr(stop, true), ValueOr(timeout, 5000), ValueOr(maxDuration, -1),
      ValueOr(recession, 0.0), ForcedArgs(stop, timeout, maxDuration, recession))
  }

  function Min(a: nat, b: nat): nat
  {
    if a <= b then a else b
  }

  /** The arguments every newly made scheduler gets; a negative maximum duration is left out. */
  function CommonArgs(p: SchedulerPolicy): seq<Arg>
  {
    [Arg("stop_on_deadlock", BoolArg(p.stopOnDeadlock)), Arg("stop_on_deadlock_timeout", IntArg(p.timeout))]
    + (if p.maxDuration >= 0 then [Arg("max_duration_ms", IntArg(p.maxDuration))] else [])
    + [Arg("check_recession_period_ms", RealArg(p.recession))]
  }

  /** Whether a fragment's current scheduler is a multi-thread scheduler. */
  predicate IsMultiThread(current: Option<Scheduler>)
  {
    current.Some? && current.value.kind == MultiThreadScheduler
  }

  /** The mode used for one fragment: the default mode only stands for a multi-thread scheduler. */
  function Setting(current: Option<Scheduler>, p: SchedulerPolicy): SchedulerType
  {
    if p.kind == DefaultType && !IsMultiThread(current) then MultiThreadType else p.kind
  }

  /**
   * The scheduler before the forced arguments: in the default mode the existing multi-thread
   * scheduler, told the deadlock timeout; otherwise a new greedy or multi-thread scheduler, the
   * latter with one worker thread per operator up to the number of processors.
   */
  function Prepared(current: Option<Scheduler>, p: SchedulerPolicy, operators: nat, processors: nat): Scheduler
  {
    match Setting(current, p)
    case DefaultType =>
      current.value.(args := current.value.args + [Arg("stop_on_deadlock_timeout", IntArg(p.timeout))])
    case GreedyType =>
      Scheduler(GreedyScheduler, "greedy-scheduler", CommonArgs(p))
    case MultiThreadType =>
      Scheduler(MultiThreadScheduler, "multithread-scheduler",
                CommonArgs(p) + [Arg("worker_thread_number", IntArg(Min(operators, processors)))])
  }

  /** The scheduler a fragment ends up with: the prepared one, then the forced arguments. */
  function ChosenScheduler(current: Option<Scheduler>, p: SchedulerPolicy, operators: nat, processors: nat)
    : Scheduler
  {
    var base := Prepared(current, p, operators, processors);
    base.(args := base.args + p.overrides)
  }

  /** The value most recently given to argument `name`, if any. */
  function LastArg(args: seq<Arg>, name: string): (r: Option<ArgValue>)
    ensures r.Some? <==> exists i :: 0 <= i < |args| && args[i].name == name
  {
    if args == [] then None
    else if args[|args| - 1].name == name then Some(args[|args| - 1].value)
    else
      var r := LastArg(args[..|args| - 1], name);
      assert forall i :: 0 <= i < |args| - 1 ==> args[..|args| - 1][i] == args[i];
      r
  }

  /** The later arguments win. */
  lemma {:induction false} LastArgAppend(a: seq<Arg>, b: seq<Arg>, name: string)
    ensures LastArg(a + b, name) == if LastArg(b, name).Some? then LastArg(b, name) else LastArg(a, name)
    decreases |b|
  {
    if b != [] {
      assert (a + b)[..|a + b| - 1] == a + b[..|b| - 1];
      LastArgAppend(a, b[..|b| - 1], name);
    } else {
      assert a + b == a;
    }
  }

  /** The forced arguments give each variable that was read its own value, and nothing else. */
  lemma ForcedArgsLast(stop: Result<bool, EnvError>, timeout: Result<int, EnvError>,
                       maxDuration: Result<int, EnvError>, recession: Result<real, EnvError>)
    ensures var f := ForcedArgs(stop, timeout, maxDuration, recession);
            && LastArg(f, "stop_on_deadlock_timeout") ==
               (if timeout.Success? then Some(IntArg(timeout.value)) else None)
            && LastArg(f, "max_duration_ms") ==
               (if maxDuration.Success? then Some(IntArg(maxDuration.value)) else None)
            && LastArg(f, "worker_thread_number") == None
  {
    var a := if stop.Success? then [Arg("stop_on_deadlock", BoolArg(stop.value))] else [];
    var b := if timeout.Success? then [Arg("stop_on_deadlock_timeout", IntArg(timeout.value))] else [];
    var c := if maxDuration.Success? then [Arg("max_duration_ms", IntArg(maxDuration.value))] else [];
    var d := if recession.Success? then [Arg("check_recession_period_ms", RealArg(recession.value))] else [];
    ForcedArgsLastOf(a, b, c, d, "stop_on_deadlock_timeout");
    ForcedArgsLastOf(a, b, c, d, "max_duration_ms");
    ForcedArgsLastOf(a, b, c, d, "worker_thread_number");
  }

  /** Each of the forced arguments sits in its own part, of at most one argument each. */
  lemma ForcedArgsLastOf(a: seq<Arg>, b: seq<Arg>, c: seq<Arg>, d: seq<Arg>, name: string)
    requires |a| <= 1 && |b| <= 1 && |c| <= 1 && |d| <= 1
    ensures LastArg(a + b + c + d, name) ==
            if d != [] && d[0].name == name then Some(d[0].value)
            else if c != [] && c[0].name == name then Some(c[0].value)
            else if b != [] && b[0].name == name then Some(b[0].value)
            else if a != [] && a[0].name == name then Some(a[0].value)
            else None
  {
    LastArgAppend4(a, b, c, d, name);
  }

  lemma LastArgAppend4(a: seq<Arg>, b: seq<Arg>, c: seq<Arg>, d: seq<Arg>, name: string)
    ensures LastArg(a + b + c + d, name) ==
            if LastArg(d, name).Some? then LastArg(d, name)
            else if LastArg(c, name).Some? then LastArg(c, name)
            else if LastArg(b, name).Some? then LastArg(b, name)
            else LastArg(a, name)
  {
    LastArgAppend(a + b + c, d, name);
    LastArgAppend(a + b, c, name);
    LastArgAppend(a, b, name);
  }

  /** What a new scheduler's own arguments set. */
  lemma CommonArgsLast(p: SchedulerPolicy)
    ensures LastArg(CommonArgs(p), "stop_on_deadlock_timeout") == Some(IntArg(p.timeout))
    ensures LastArg(CommonArgs(p), "max_duration_ms") ==
            (if p.maxDuration >= 0 then Some(IntArg(p.maxDuration)) else None)
    ensures LastArg(CommonArgs(p), "worker_thread_number") == None
  {
    var a := [Arg("stop_on_deadlock", BoolArg(p.stopOnDeadlock)), Arg("stop_on_deadlock_timeout", IntArg(p.timeout))];
    var b := if p.maxDuration >= 0 then [Arg("max_duration_ms", IntArg(p.maxDuration))] else [];
    var c := [Arg("check_recession_period_ms", RealArg(p.recession))];
    LastArgAppend4([], a, b, c, "stop_on_deadlock_timeout");
    LastArgAppend4([], a, b, c, "max_duration_ms");
    LastArgAppend4([], a, b, c, "worker_thread_number");
    assert [] + a == a;
    assert LastArg(a, "stop_on_deadlock_timeout") == Some(IntArg(p.timeout));
  }

  /** Only a greedy request gives a greedy scheduler; every other mode ends multi-threaded. */
  lemma ChosenKind(current: Option<Scheduler>, p: SchedulerPolicy, operators: nat, processors: nat)
    ensures var s := ChosenScheduler(current, p, operators, processors);
            (s.kind == GreedyScheduler <==> p.kind == GreedyType) &&
            (s.kind == MultiThreadScheduler <==> p.kind != GreedyType)
  {
  }

  /**
   * In the default mode an existing multi-thread scheduler is kept: same name, same arguments
   * first, then the deadlock timeout and the forced arguments.
   */
  lemma ChosenKeepsMultiThread(current: Option<Scheduler>, p: SchedulerPolicy, operators: nat, processors: nat)
    requires p.kind == DefaultType && IsMultiThread(current)
    ensures var s := ChosenScheduler(current, p, operators, processors);
            s.name == current.value.name &&
            s.args == current.value.args + [Arg("stop_on_deadlock_timeout", IntArg(p.timeout))] + p.overrides
  {
  }

  /**
   * Every scheduler, kept or new, ends up with the chosen deadlock timeout as the last value
   * of `stop_on_deadlock_timeout`.
   */
  lemma ChosenTimeout(current: Option<Scheduler>, env: Environment, stod: string -> Option<real>,
                      operators: nat, processors: nat)
    ensures var p := Policy(env, stod);
            LastArg(ChosenScheduler(current, p, operators, processors).args, "stop_on_deadlock_timeout") ==
            Some(IntArg(p.timeout))
  {
    var p := Policy(env, stod);
    var key := "stop_on_deadlock_timeout";
    ForcedArgsLast(StopOnDeadlockEnv(env.stopOnDeadlock), Int64Env(env.stopOnDeadlockTimeout),
                   Int64Env(env.maxDurationMs), RealEnv(env.checkRecessionPeriodMs, stod));
    var base := Prepared(current, p, operators, processors);
    LastArgAppend(base.args, p.overrides, key);
    CommonArgsLast(p);
    match Setting(current, p)
    case DefaultType =>
      LastArgAppend(current.value.args, [Arg(key, IntArg(p.timeout))], key);
    case GreedyType =>
    case MultiThreadType =>
      LastArgAppend(CommonArgs(p), [Arg("worker_thread_number", IntArg(Min(operators, processors)))], key);
  }

  /**
   * A new multi-thread scheduler gets one worker thread per operator, up to the number of
   * processors; a new scheduler's `max_duration_ms` is the chosen one, present only when it is
   * not negative or was set by the environment.
   */
  lemma ChosenWorkers(current: Option<Scheduler>, env: Environment, stod: string -> Option<real>,
                      operators: nat, processors: nat)
    requires Setting(current, Policy(env, stod)) == MultiThreadType
    ensures var p := Policy(env, stod);
            var s := ChosenScheduler(current, p, operators, processors);
            && s.name == "multithread-scheduler"
            && LastArg(s.args, "worker_thread_number") == Some(IntArg(Min(operators, processors)))
            && Min(operators, processors) <= operators && Min(operators, processors) <= processors
            && LastArg(s.args, "max_duration_ms") ==
               (if p.maxDuration >= 0 || Int64Env(env.maxDurationMs).Success? then Some(IntArg(p.maxDuration)) else None)
  {
    var p := Policy(env, stod);
    var w := "worker_thread_number";
    var md := "max_duration_ms";
    ForcedArgsLast(StopOnDeadlockEnv(env.stopOnDeadlock), Int64Env(env.stopOnDeadlockTimeout),
                   Int64Env(env.maxDurationMs), RealEnv(env.checkRecessionPeriodMs, stod));
    CommonArgsLast(p);
    var workers := [Arg(w, IntArg(Min(operators, processors)))];
    var base := CommonArgs(p) + workers;
    LastArgAppend(base, p.overrides, w);
    LastArgAppend(base, p.overrides, md);
    LastArgAppend(CommonArgs(p), workers, w);
    LastArgAppend(CommonArgs(p), workers, md);
  }

  /** What a fragment holds at one moment, its operator graph's contents included. */
  datatype FragmentState = FragmentState(name: string, graph: FlowGraph?, hasExecutor: bool,
                                         scheduler: Option<Scheduler>, isComposed: bool, composeRuns: nat,
                                         operators: Graph)

  ghost function Snapshot(f: Fragment): FragmentState
    reads f, f.graph
  {
    FragmentState(f.name, f.graph, f.hasExecutor, f.scheduler, f.isComposed, f.composeRuns, f.Operators())
  }

  /**
   * `f`, which was `before`, has been given the scheduler `ChosenScheduler` picks from its
   * previous one, the policy and its operator count. Only the multi-thread choice asks for the
   * graph (to count its operators), which creates an empty graph on a fragment that had none;
   * nothing else about the fragment has changed.
   */
  ghost predicate Rescheduled(f: Fragment, before: FragmentState, policy: SchedulerPolicy, processors: nat)
    reads f, f.graph
  {
    && f.Valid()
    && f.scheduler == Some(ChosenScheduler(before.scheduler, policy, |before.operators.nodes|, processors))
    && f.Operators() == before.operators
    && (if Setting(before.scheduler, policy) == MultiThreadType
        then f.graph != null && (before.graph != null ==> f.graph == before.graph)
        else f.graph == before.graph)
    && f.name == before.name && f.hasExecutor == before.hasExecutor
    && f.isComposed == before.isComposed && f.composeRuns == before.composeRuns
  }

  /** One iteration of `set_scheduler_for_fragments`. */
  method Reschedule(f: Fragment, policy: SchedulerPolicy, processors: nat)
    requires f.Valid()
    modifies f
    ensures Rescheduled(f, old(Snapshot(f)), policy, processors)
    ensures old(f.graph) == null && f.graph != null ==> fresh(f.graph)
  {
    var count := 0;
    if Setting(f.scheduler, policy) == MultiThreadType {
      var g := f.GetGraph();
      count := |g.orderedNodes|;
    }
    f.SetScheduler(ChosenScheduler(f.scheduler, policy, count, processors));
  }

  /**
   * `set_scheduler_for_fragments`: every target fragment is rescheduled, one after the other.
   * The fragments are distinct, so each is updated exactly once.
   */
  method SetSchedulerForFragments(fragments: seq<Fragment>, env: Environment, stod: string -> Option<real>,
                                  processors: nat)
    requires forall i :: 0 <= i < |fragments| ==> fragments[i].Valid()
    requires forall i, j :: 0 <= i < j < |fragments| ==> fragments[i] != fragments[j]
    modifies set f | f in fragments
    ensures forall i :: 0 <= i < |fragments| ==>
              Rescheduled(fragments[i], old(Snapshot(fragments[i])), Policy(env, stod), processors)
  {
    var policy := Policy(env, stod);
    for i := 0 to |fragments|
      invariant forall j :: 0 <= j < i ==> Rescheduled(fragments[j], old(Snapshot(fragments[j])), policy, processors)
      invariant forall j :: i <= j < |fragments| ==> fragments[j].Valid() && Snapshot(fragments[j]) == old(Snapshot(fragments[j]))
    {
      ghost var others := set j | 0 <= j < |fragments| && j != i :: fragments[j];
      assert fragments[i] !in others;
      Reschedule(fragments[i], policy, processors);
    }
  }
}
