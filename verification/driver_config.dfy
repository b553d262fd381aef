/**
 * The pure decision functions of the application driver: boolean environment switches,
 * the memory-size parser used by resource requirements, the driver-address defaults and the
 * resource-requirement cascade from the application level down to fragments.
 */
module DriverConfig {
  import opened Wrappers
  import opened Strings

  /** Port of the driver service when the address does not name one. */
  const DefaultAppDriverPort: nat := 8765

  /** Every `uint64_t` result is taken modulo 2^64. */
  const UInt64Modulus: nat := 0x1_0000_0000_0000_0000

  // ---------------------------------------------------------------------------------------------
  // Boolean environment switches

  /** `std::tolower` in the C locale. */
  function LowerAscii(c: char): char
  {
    if 'A' <= c <= 'Z' then (c as int + 32) as char else c
  }

  function Lower(s: string): (r: string)
    ensures |r| == |s| && forall i :: 0 <= i < |s| ==> r[i] == LowerAscii(s[i])
  {
    seq(|s|, i requires 0 <= i < |s| => LowerAscii(s[i]))
  }

  /** The spellings that switch a boolean variable on. */
  predicate IsTruthy(s: string)
  {
    var l := Lower(s);
    l == "true" || l == "1" || l == "on"
  }

  /** The value of a boolean environment variable `env` (None when unset). */
  function GetBoolEnvVar(env: Option<string>, default: bool): bool
  {
    if env.Some? && IsTruthy(env.value) then true else default
  }

  /** Lower-casing twice changes nothing more. */
  lemma LowerIdempotent(s: string)
    ensures Lower(Lower(s)) == Lower(s)
  {
  }

  /**
   * The variable is read case-insensitively, any other spelling ("yes", "false", "0") gives
   * the default, and an unset variable gives the default.
   */
  lemma GetBoolEnvVarMeaning(s: string, default: bool)
    ensures GetBoolEnvVar(Some(s), default) == GetBoolEnvVar(Some(Lower(s)), default)
    ensures GetBoolEnvVar(None, default) == default
    ensures !IsTruthy(s) ==> GetBoolEnvVar(Some(s), default) == default
    ensures GetBoolEnvVar(Some("TRUE"), false) && GetBoolEnvVar(Some("On"), false)
    ensures GetBoolEnvVar(Some("1"), false) && !GetBoolEnvVar(Some("yes"), false)
  {
    LowerIdempotent(s);
    assert Lower("TRUE") == "true";
    assert Lower("On") == "on";
    assert Lower("yes") == "yes";
  }

  // ---------------------------------------------------------------------------------------------
  // Memory sizes

  const DecimalChars: set<char> := {'0', '1', '2', '3', '4', '5', '6', '7', '8', '9'}
  const UnitChars: set<char> := {'M', 'm', 'G', 'g'}
  const SuffixChars: set<char> := {'I', 'i'}

  /** The positions the parser looks at; None stands for `npos`. */
  datatype Pivots = Pivots(dot: Option<nat>, unit: Option<nat>, pivot: Option<nat>, pivot2: Option<nat>)

  function FindPivots(s: string): Pivots
  {
    var dot := FindFirstOf(s, {'.'}, 0);
    var unit := FindFirstNotOf(s, DecimalChars + {'.'}, 0);
    // searching from `npos` finds nothing
    var pivot := if unit.Some? then FindFirstOf(s, UnitChars, unit.value) else None;
    // `npos + 1` wraps to 0; that search is only consulted when `pivot` was found
    var pivot2 := FindFirstOf(s, SuffixChars, if pivot.Some? then pivot.value + 1 else 0);
    Pivots(dot, unit, pivot, pivot2)
  }

  /** The rejection test of the parser, condition by condition. */
  predicate MalformedMemorySize(s: string)
  {
    var p := FindPivots(s);
    // a unit letter must start the non-numeric part and be followed by one I/i that ends
    // the string (where pivot2 is pivot + 1, `size >= pivot2 + 2` reads `size >= pivot + 3`)
    (p.pivot.Some? &&
     (p.pivot2 != Some(p.pivot.value + 1) || |s| >= p.pivot.value + 3 || p.unit != p.pivot))
    // without a unit letter there must be no non-numeric character at all
    || (p.pivot.None? && p.unit.Some?)
    // a dot must be followed by exactly one character before the unit
    || (p.dot.Some? && (p.unit.None? || p.unit != Some(p.dot.value + 2)))
  }

  /** `std::stoull` on a string of digits: None when it throws (empty or out of range). */
  function Stoull(digits: string): (r: Option<nat>)
    requires AllDigits(digits)
    ensures r.Some? ==> r.value < UInt64Modulus
  {
    if digits == [] || DecimalValue(digits) >= UInt64Modulus then None
    else Some(DecimalValue(digits))
  }

  /**
   * Conversion of a non-negative `double` to `uint64_t`: the fraction is dropped; values the
   * conversion does not define are taken modulo 2^64 and negative ones give 0.
   */
  function RealToUInt64(x: real): (r: nat)
    ensures r < UInt64Modulus
  {
    if x < 0.0 then 0 else x.Floor % UInt64Modulus
  }

  /**
   * The number of bytes that "<n>Mi", "<n>Gi" (letters in either case), bare "<n>" (taken as
   * mebibytes) or "<n>.<d>" followed by a unit denote; 0 for anything malformed or anything
   * `stoull`/`stod` refuse. `stod` is the C library's decimal reader, given as a parameter.
   */
  function ParseMemorySize(s: string, stod: string -> Option<real>): (bytes: nat)
    ensures bytes < UInt64Modulus
  {
    if MalformedMemorySize(s) then 0
    else
      var p := FindPivots(s);
      var number := if p.unit.Some? then s[..p.unit.value] else s;
      var kibibytes: Option<nat> :=
        if p.dot.Some? then
          match stod(number)
          case None => None
          case Some(v) => Some(RealToUInt64(v * 1024.0))
        else
          assert AllDigits(number) by { NumberIsDigits(s, p); }
          match Stoull(number)
          case None => None
          case Some(n) => Some((n * 1024) % UInt64Modulus);
      match kibibytes
      case None => 0
      case Some(k) =>
        if p.pivot.Some? && LowerAscii(s[p.pivot.value]) == 'g' then (k * 1048576) % UInt64Modulus
        else (k * 1024) % UInt64Modulus
  }

  lemma NumberIsDigits(s: string, p: Pivots)
    requires p == FindPivots(s) && p.dot.None?
    ensures AllDigits(if p.unit.Some? then s[..p.unit.value] else s)
  {
    var number := if p.unit.Some? then s[..p.unit.value] else s;
    forall i | 0 <= i < |number| ensures IsDigit(number[i]) {
      assert number[i] == s[i];
      assert s[i] in DecimalChars + {'.'} && s[i] != '.';
    }
  }

  /** Multiplying after a reduction modulo 2^64 is the same as reducing the product. */
  lemma ModMul(a: nat, b: nat)
    ensures ((a % UInt64Modulus) * b) % UInt64Modulus == (a * b) % UInt64Modulus
  {
    var q := a / UInt64Modulus;
    var r := a % UInt64Modulus;
    assert a * b == (q * b) * UInt64Modulus + r * b;
    ModAddMultiple(q * b, r * b);
  }

  lemma ModAddMultiple(k: nat, x: nat)
    ensures (k * UInt64Modulus + x) % UInt64Modulus == x % UInt64Modulus
  {
  }

  /** The positions found in "<digits><u><i><rest>" and whether it is rejected. */
  lemma PivotsOfUnitSuffix(d: string, u: char, i: char, rest: string)
    requires AllDigits(d) && u in UnitChars && i in SuffixChars
    ensures var s := d + [u, i] + rest;
            var p := FindPivots(s);
            (rest == [] ==> p.dot.None?)
            && p.unit == Some(|d|) && p.pivot == Some(|d|) && p.pivot2 == Some(|d| + 1)
            && (MalformedMemorySize(s) <==> rest != []) && s[..|d|] == d
  {
    var s := d + [u, i] + rest;
    assert s[|d|] == u && s[|d| + 1] == i;
    assert forall j :: 0 <= j < |d| ==> s[j] == d[j] && IsDigit(d[j]);
    FindFirstNotOfAt(s, DecimalChars + {'.'}, 0, |d|);
    FindFirstOfAt(s, UnitChars, |d|, |d|);
    FindFirstOfAt(s, SuffixChars, |d| + 1, |d| + 1);
    if rest == [] {
      FindFirstOfNone(s, {'.'}, 0);
    }
  }

  /**
   * "<n>Mi" is n mebibytes and "<n>Gi" n gibibytes, with letters in either case, modulo 2^64
   * like the `uint64_t` arithmetic; a number `stoull` cannot hold gives 0.
   */
  lemma {:induction false} ParseMemorySizeUnits(n: nat, u: char, i: char, stod: string -> Option<real>)
    requires u in UnitChars && i in SuffixChars
    ensures var bytes := ParseMemorySize(NatToDigits(n) + [u, i], stod);
            bytes == if n >= UInt64Modulus then 0
                     else if LowerAscii(u) == 'g' then (n * 1073741824) % UInt64Modulus
                     else (n * 1048576) % UInt64Modulus
  {
    var d := NatToDigits(n);
    var s := d + [u, i];
    PivotsOfUnitSuffix(d, u, i, []);
    assert d + [u, i] + [] == s;
    DecimalRoundTrip(n);
    assert Stoull(d) == if n >= UInt64Modulus then None else Some(n);
    if n < UInt64Modulus {
      var k := (n * 1024) % UInt64Modulus;
      if LowerAscii(u) == 'g' {
        assert ParseMemorySize(s, stod) == (k * 1048576) % UInt64Modulus;
        GibibytesMod(n);
      } else {
        assert ParseMemorySize(s, stod) == (k * 1024) % UInt64Modulus;
        MebibytesMod(n);
      }
    }
  }

  /** Kibibytes reduced modulo 2^64 and then scaled by 2^10 are mebibytes reduced once. */
  lemma MebibytesMod(n: nat)
    ensures (((n * 1024) % UInt64Modulus) * 1024) % UInt64Modulus == (n * 1048576) % UInt64Modulus
  {
    ModMul(n * 1024, 1024);
    assert n * 1024 * 1024 == n * 1048576;
  }

  /** Kibibytes reduced modulo 2^64 and then scaled by 2^20 are gibibytes reduced once. */
  lemma GibibytesMod(n: nat)
    ensures (((n * 1024) % UInt64Modulus) * 1048576) % UInt64Modulus == (n * 1073741824) % UInt64Modulus
  {
    ModMul(n * 1024, 1048576);
    assert n * 1024 * 1048576 == n * 1073741824;
  }

  /** A string of digits has neither a dot nor a unit and is well formed. */
  lemma PivotsOfDigits(d: string)
    requires AllDigits(d)
    ensures FindPivots(d).dot.None? && FindPivots(d).unit.None? && FindPivots(d).pivot.None?
    ensures !MalformedMemorySize(d)
  {
    FindFirstOfNone(d, {'.'}, 0);
    assert FindFirstNotOf(d, DecimalChars + {'.'}, 0) == None by {
      assert forall j :: 0 <= j < |d| ==> IsDigit(d[j]) && d[j] in DecimalChars;
    }
  }

  /** A bare number is read as mebibytes. */
  lemma {:induction false} ParseMemorySizeBare(n: nat, stod: string -> Option<real>)
    ensures ParseMemorySize(NatToDigits(n), stod) ==
            if n >= UInt64Modulus then 0 else (n * 1048576) % UInt64Modulus
  {
    var d := NatToDigits(n);
    PivotsOfDigits(d);
    DecimalRoundTrip(n);
    assert Stoull(d) == if n >= UInt64Modulus then None else Some(n);
    if n < UInt64Modulus {
      ModMul(n * 1024, 1024);
    }
  }

  /** Anything after the "i" of the unit makes the whole size 0. */
  lemma ParseMemorySizeTrailing(d: string, u: char, i: char, rest: string, stod: string -> Option<real>)
    requires AllDigits(d) && u in UnitChars && i in SuffixChars && rest != []
    ensures ParseMemorySize(d + [u, i] + rest, stod) == 0
  {
    PivotsOfUnitSuffix(d, u, i, rest);
  }

  /** A character that is neither a digit, a dot nor a unit letter makes the size 0. */
  lemma ParseMemorySizeBadUnit(d: string, c: char, rest: string, stod: string -> Option<real>)
    requires AllDigits(d) && c !in DecimalChars + {'.'} + UnitChars
    ensures ParseMemorySize(d + [c] + rest, stod) == 0
  {
    var s := d + [c] + rest;
    assert s[|d|] == c;
    assert forall j :: 0 <= j < |d| ==> s[j] == d[j] && IsDigit(d[j]);
    FindFirstNotOfAt(s, DecimalChars + {'.'}, 0, |d|);
    var p := FindPivots(s);
    assert p.unit == Some(|d|);
    assert p.pivot != Some(|d|);
  }

  /** A decimal needs exactly one digit after the dot and a unit after that. */
  lemma ParseMemorySizeDecimal(d: string, f: string, u: char, i: char, stod: string -> Option<real>)
    requires AllDigits(d) && AllDigits(f) && |f| != 1 && u in UnitChars && i in SuffixChars
    ensures ParseMemorySize(d + ['.'] + f + [u, i], stod) == 0
    ensures ParseMemorySize(d + ['.'] + f, stod) == 0
  {
    var s := d + ['.'] + f + [u, i];
    assert s[|d|] == '.';
    assert forall j :: 0 <= j < |d| ==> s[j] == d[j] && IsDigit(d[j]);
    assert forall j :: |d| < j < |d| + 1 + |f| ==> s[j] == f[j - |d| - 1] && IsDigit(s[j]);
    assert s[|d| + 1 + |f|] == u;
    FindFirstOfAt(s, {'.'}, 0, |d|);
    FindFirstNotOfAt(s, DecimalChars + {'.'}, 0, |d| + 1 + |f|);
    var t := d + ['.'] + f;
    assert t[|d|] == '.';
    assert forall j :: 0 <= j < |d| ==> t[j] == d[j] && IsDigit(d[j]);
    assert forall j :: |d| < j < |t| ==> t[j] == f[j - |d| - 1] && IsDigit(t[j]);
    FindFirstOfAt(t, {'.'}, 0, |d|);
    assert FindFirstNotOf(t, DecimalChars + {'.'}, 0) == None;
  }

  /**
   * Any multiple of 2^44 mebibytes that `stoull` accepts is a multiple of 2^64 bytes, which the
   * 64-bit arithmetic wraps to 0.
   */
  lemma ParseMemorySizeWraps(k: nat, stod: string -> Option<real>)
    requires k * 0x1000_0000_0000 < UInt64Modulus
    ensures ParseMemorySize(NatToDigits(k * 0x1000_0000_0000) + ['M', 'i'], stod) == 0
  {
    ParseMemorySizeUnits(k * 0x1000_0000_0000, 'M', 'i', stod);
    assert k * 0x1000_0000_0000 * 1048576 == k * UInt64Modulus;
    ModAddMultiple(k, 0);
  }

  // ---------------------------------------------------------------------------------------------
  // Driver address

  /** The driver address with the default host "0.0.0.0" and default port filled in. */
  function NormalizeAddress(address: string): string
  {
    var port := NatToDigits(DefaultAppDriverPort);
    var a := if address == "" then "0.0.0.0:" + port else address;
    match FindFirstOf(a, {':'}, 0)
    // `a` is never empty here, so the host is kept
    case None => a + ":" + port
    case Some(split) => if split == 0 then "0.0.0.0:" + a[1..] else a
  }

  /** Where the first ':' of `s` is, if anywhere. */
  function ColonAt(s: string): Option<nat>
  {
    FindFirstOf(s, {':'}, 0)
  }

  /**
   * A missing address becomes "0.0.0.0:<default port>", a host alone gets the default port,
   * a port alone gets host 0.0.0.0, and a full "host:port" is kept; every result has a host
   * before its first ':'.
   */
  lemma {:induction false} NormalizeAddressCases(address: string)
    ensures var r := NormalizeAddress(address);
            var port := NatToDigits(DefaultAppDriverPort);
            && (address == "" ==> r == "0.0.0.0:" + port)
            && (address != "" && ColonAt(address).None? ==> r == address + ":" + port)
            && (ColonAt(address) == Some(0) ==> r == "0.0.0.0:" + address[1..])
            && (ColonAt(address).Some? && ColonAt(address).value > 0 ==> r == address)
            && ColonAt(r).Some? && ColonAt(r).value > 0
  {
    var port := NatToDigits(DefaultAppDriverPort);
    var zero := "0.0.0.0:";
    assert zero[7] == ':' && forall j :: 0 <= j < 7 ==> zero[j] != ':';
    if address == "" {
      var a := zero + port;
      assert a[7] == ':' && forall j :: 0 <= j < 7 ==> a[j] == zero[j];
      FindFirstOfAt(a, {':'}, 0, 7);
    } else {
      match ColonAt(address)
      case None =>
        var r := address + ":" + port;
        assert r[|address|] == ':' && forall j :: 0 <= j < |address| ==> r[j] == address[j];
        FindFirstOfAt(r, {':'}, 0, |address|);
      case Some(split) =>
        if split == 0 {
          var r := zero + address[1..];
          assert r[7] == ':' && forall j :: 0 <= j < 7 ==> r[j] == zero[j];
          FindFirstOfAt(r, {':'}, 0, 7);
        }
    }
  }

  /** Normalising an address a second time changes nothing. */
  lemma NormalizeAddressIdempotent(address: string)
    ensures NormalizeAddress(NormalizeAddress(address)) == NormalizeAddress(address)
  {
    NormalizeAddressCases(address);
    NormalizeAddressCases(NormalizeAddress(address));
  }

  // ---------------------------------------------------------------------------------------------
  // Configuration check

  /** The command-line options the configuration check reads, and whose address it completes. */
  datatype CliOptions = CliOptions(runDriver: bool, runWorker: bool, driverAddress: string)

  /** `need_health_check_`, `need_driver_`, `need_worker_` and `is_local_`. */
  datatype Services = Services(healthCheck: bool, driver: bool, worker: bool, local: bool)

  /** The driver's state when it is created: no service asked for. */
  const NoServices := Services(false, false, false, false)

  /**
   * `check_configuration`, with the application's presence, whether its fragment graph and
   * operator graph are empty once composed, and the `HOLOSCAN_ENABLE_HEALTH_CHECK` variable as
   * inputs. The check fails without an application, or when the application has both fragments
   * and operators; otherwise it only switches services on and fills in the driver address.
   */
  function CheckConfiguration(hasApp: bool, fragmentsEmpty: bool, operatorsEmpty: bool, healthEnv: Option<string>,
                              options: CliOptions, services: Services): (r: Option<(Services, CliOptions)>)
    ensures r.None? <==> !hasApp || (!fragmentsEmpty && !operatorsEmpty)
    ensures r.Some? ==>
              var (s, o) := r.value;
              && (services.healthCheck ==> s.healthCheck) && (services.driver ==> s.driver)
              && (services.worker ==> s.worker) && (services.local ==> s.local)
              && o.runDriver == options.runDriver && o.runWorker == options.runWorker
              && ColonAt(o.driverAddress).Some? && ColonAt(o.driverAddress).value > 0
  {
    if !hasApp || (!fragmentsEmpty && !operatorsEmpty) then None
    else
      var health := services.healthCheck || GetBoolEnvVar(healthEnv, false) || options.runDriver || options.runWorker;
      var driver := services.driver || options.runDriver;
      var worker := services.worker || options.runWorker;
      var local := services.local || (!driver && !worker);
      NormalizeAddressCases(options.driverAddress);
      Some((Services(health, driver, worker, local), options.(driverAddress := NormalizeAddress(options.driverAddress))))
  }

  /**
   * On a fresh driver, the health check runs when asked for by the variable or when a driver or
   * a worker runs; a driver (worker) service is needed exactly when asked for; and the
   * application runs locally exactly when neither is.
   */
  lemma CheckConfigurationFresh(fragmentsEmpty: bool, operatorsEmpty: bool, healthEnv: Option<string>, options: CliOptions)
    requires fragmentsEmpty || operatorsEmpty
    ensures var r := CheckConfiguration(true, fragmentsEmpty, operatorsEmpty, healthEnv, options, NoServices);
            && r.Some?
            && (r.value.0.healthCheck <==> GetBoolEnvVar(healthEnv, false) || options.runDriver || options.runWorker)
            && (r.value.0.driver <==> options.runDriver) && (r.value.0.worker <==> options.runWorker)
            && (r.value.0.local <==> !options.runDriver && !options.runWorker)
            && r.value.1.driverAddress == NormalizeAddress(options.driverAddress)
  {
  }

  /** Checking the configuration again, with what the first check left, changes nothing. */
  lemma CheckConfigurationIdempotent(fragmentsEmpty: bool, operatorsEmpty: bool, healthEnv: Option<string>,
                                     options: CliOptions, services: Services)
    requires fragmentsEmpty || operatorsEmpty
    ensures var r := CheckConfiguration(true, fragmentsEmpty, operatorsEmpty, healthEnv, options, services);
            r.Some? && CheckConfiguration(true, fragmentsEmpty, operatorsEmpty, healthEnv, r.value.1, r.value.0) == r
  {
    NormalizeAddressIdempotent(options.driverAddress);
  }

  // ---------------------------------------------------------------------------------------------
  // Resource requirements

  /**
   * A YAML value read as text: absent, a scalar (its text), or a map or sequence, which
   * `as<std::string>()` refuses by throwing.
   */
  datatype YamlText = Absent | Scalar(text: string) | NotScalar

  /**
   * A `resources` (or per-fragment) block: the CPU/GPU values it gives (None when the key is
   * absent or not a number) and the memory values it gives.
   */
  datatype ResourceNode = ResourceNode(
    cpu: Option<real>, cpuLimit: Option<real>, gpu: Option<real>, gpuLimit: Option<real>,
    memory: YamlText, memoryLimit: YamlText,
    sharedMemory: YamlText, sharedMemoryLimit: YamlText,
    gpuMemory: YamlText, gpuMemoryLimit: YamlText)

  /** What one fragment asks of the system; memory in bytes. */
  datatype Requirement = Requirement(
    fragmentName: string,
    cpu: real, cpuLimit: real, gpu: real, gpuLimit: real,
    memory: nat, memoryLimit: nat, sharedMemory: nat, sharedMemoryLimit: nat,
    gpuMemory: nat, gpuMemoryLimit: nat)

  function RealOr(v: Option<real>, base: real): real
  {
    if v.Some? then v.value else base
  }

  function MemoryOr(v: YamlText, base: nat, stod: string -> Option<real>): nat
  {
    if v.Scalar? then ParseMemorySize(v.text, stod) else base
  }

  /** Whether reading `node` throws: one of its memory values is not a scalar. */
  predicate Throws(node: ResourceNode)
  {
    || node.memory.NotScalar? || node.memoryLimit.NotScalar?
    || node.sharedMemory.NotScalar? || node.sharedMemoryLimit.NotScalar?
    || node.gpuMemory.NotScalar? || node.gpuMemoryLimit.NotScalar?
  }

  /**
   * The requirement of fragment `name`: `base` overridden by whatever `node` gives; None when
   * reading the block throws.
   */
  function ParseRequirement(name: string, node: ResourceNode, base: Requirement,
                            stod: string -> Option<real>): Option<Requirement>
  {
    if Throws(node) then None
    else Some(Requirement(
      name,
      RealOr(node.cpu, base.cpu), RealOr(node.cpuLimit, base.cpuLimit),
      RealOr(node.gpu, base.gpu), RealOr(node.gpuLimit, base.gpuLimit),
      MemoryOr(node.memory, base.memory, stod), MemoryOr(node.memoryLimit, base.memoryLimit, stod),
      MemoryOr(node.sharedMemory, base.sharedMemory, stod),
      MemoryOr(node.sharedMemoryLimit, base.sharedMemoryLimit, stod),
      MemoryOr(node.gpuMemory, base.gpuMemory, stod),
      MemoryOr(node.gpuMemoryLimit, base.gpuMemoryLimit, stod)))
  }

  const EmptyNode := ResourceNode(None, None, None, None, Absent, Absent, Absent, Absent, Absent, Absent)

  /** The requirement of a fragment with no block of its own: `base` under its name. */
  function Inherit(name: string, base: Requirement): Requirement
  {
    base.(fragmentName := name)
  }

  /**
   * The cascade: a block with a memory value that is not a scalar throws; otherwise a value the
   * block leaves out is inherited from `base`, one it gives replaces the inherited one, memory
   * strings go through `ParseMemorySize`, and an empty block just renames the base requirement.
   */
  lemma ParseRequirementCascade(name: string, node: ResourceNode, base: Requirement,
                                stod: string -> Option<real>)
    ensures ParseRequirement(name, node, base, stod).None? <==> Throws(node)
    ensures ParseRequirement(name, node, base, stod).Some? ==>
            var r := ParseRequirement(name, node, base, stod).value;
            && r.fragmentName == name
            && (node.cpu.None? ==> r.cpu == base.cpu) && (node.cpu.Some? ==> r.cpu == node.cpu.value)
            && (node.gpu.None? ==> r.gpu == base.gpu) && (node.gpu.Some? ==> r.gpu == node.gpu.value)
            && (node.memory.Absent? ==> r.memory == base.memory)
            && (node.memory.Scalar? ==> r.memory == ParseMemorySize(node.memory.text, stod))
            && (node.gpuMemoryLimit.Absent? ==> r.gpuMemoryLimit == base.gpuMemoryLimit)
    ensures ParseRequirement(name, EmptyNode, base, stod) == Some(Inherit(name, base))
  {
  }

  /**
   * A document's `resources` map: the application block and, if it is a map, the fragments'
   * entries in document order, each under its key (None for a key that is not a scalar).
   */
  datatype ResourceBlock = ResourceBlock(app: ResourceNode, fragments: Option<seq<(Option<string>, ResourceNode)>>)

  /** Requirements handed to the scheduler so far, the fragments they covered, and the app level. */
  datatype Cascade = Cascade(app: Requirement, added: seq<Requirement>, covered: set<string>)

  /** The fragments the requirements `reqs` are for. */
  function NamesOf(reqs: seq<Requirement>): set<string>
  {
    set x | x in reqs :: x.fragmentName
  }

  /**
   * The per-fragment overrides of one block, in document order; unknown fragments are skipped.
   * A key that is not a scalar, or a known fragment's block that throws, ends the block: what
   * was added before it stays.
   */
  function FragmentOverrides(entries: seq<(Option<string>, ResourceNode)>, fragments: set<string>,
                             c: Cascade, stod: string -> Option<real>): (r: Cascade)
    ensures r.app == c.app && c.covered <= r.covered <= c.covered + fragments
    ensures |r.added| >= |c.added| && r.added[..|c.added|] == c.added
    ensures r.covered == c.covered + NamesOf(r.added[|c.added|..])
    ensures forall x :: x in r.added[|c.added|..] ==> x.fragmentName in fragments
    decreases |entries|
  {
    if entries == [] then c
    else
      var (key, node) := entries[0];
      if key.None? then c
      else if key.value !in fragments then FragmentOverrides(entries[1..], fragments, c, stod)
      else match ParseRequirement(key.value, node, c.app, stod)
        case None => c
        case Some(req) =>
          var next := c.(added := c.added + [req], covered := c.covered + {key.value});
          var r := FragmentOverrides(entries[1..], fragments, next, stod);
          OverridesSnoc(c, next, r, req);
          r
  }

  /** Adding one requirement, then more, is adding them all. */
  lemma OverridesSnoc(c: Cascade, next: Cascade, r: Cascade, req: Requirement)
    requires next.added == c.added + [req] && next.covered == c.covered + {req.fragmentName}
    requires |r.added| >= |next.added| && r.added[..|next.added|] == next.added
    requires r.covered == next.covered + NamesOf(r.added[|next.added|..])
    ensures r.added[..|c.added|] == c.added
    ensures r.added[|c.added|..] == [req] + r.added[|next.added|..]
    ensures r.covered == c.covered + NamesOf(r.added[|c.added|..])
  {
    assert r.added[..|c.added|] == r.added[..|next.added|][..|c.added|];
    assert r.added[|c.added|..] == [req] + r.added[|next.added|..];
    assert NamesOf([req] + r.added[|next.added|..]) == {req.fragmentName} + NamesOf(r.added[|next.added|..]);
  }

  /** Whatever follows a throwing entry of a block is never read. */
  lemma {:induction false} OverridesStopAtThrow(entries: seq<(Option<string>, ResourceNode)>, k: nat,
                                                fragments: set<string>, c: Cascade, stod: string -> Option<real>)
    requires k < |entries|
    requires entries[k].0.None? || (entries[k].0.value in fragments && Throws(entries[k].1))
    ensures FragmentOverrides(entries, fragments, c, stod) == FragmentOverrides(entries[..k], fragments, c, stod)
    decreases k
  {
    if k == 0 {
      if entries[0].0.Some? {
        assert ParseRequirement(entries[0].0.value, entries[0].1, c.app, stod).None?;
      }
    } else {
      assert entries[..k][0] == entries[0] && entries[..k][1..] == entries[1..][..k - 1];
      var (key, node) := entries[0];
      if key.Some? && key.value !in fragments {
        OverridesStopAtThrow(entries[1..], k - 1, fragments, c, stod);
      } else if key.Some? {
        var req := ParseRequirement(key.value, node, c.app, stod);
        if req.Some? {
          var next := c.(added := c.added + [req.value], covered := c.covered + {key.value});
          OverridesStopAtThrow(entries[1..], k - 1, fragments, next, stod);
        }
      }
    }
  }

  /**
   * All documents in order; each `resources` map whose application block reads without
   * throwing replaces the application-level requirement, and then its fragments' blocks are
   * read. A document whose application block throws changes nothing.
   */
  function CascadeDocuments(docs: seq<Option<ResourceBlock>>, fragments: set<string>,
                            blank: Requirement, c: Cascade, stod: string -> Option<real>): (r: Cascade)
    ensures c.covered <= r.covered <= c.covered + fragments
    ensures |r.added| >= |c.added| && r.added[..|c.added|] == c.added
    ensures r.covered == c.covered + NamesOf(r.added[|c.added|..])
    ensures forall x :: x in r.added[|c.added|..] ==> x.fragmentName in fragments
    decreases |docs|
  {
    if docs == [] then c
    else match docs[0]
      case None => CascadeDocuments(docs[1..], fragments, blank, c, stod)
      case Some(block) =>
        match ParseRequirement("", block.app, blank, stod)
        case None => CascadeDocuments(docs[1..], fragments, blank, c, stod)
        case Some(app) =>
          var c1 := c.(app := app);
          var c2 := if block.fragments.Some? then FragmentOverrides(block.fragments.value, fragments, c1, stod) else c1;
          var r := CascadeDocuments(docs[1..], fragments, blank, c2, stod);
          CascadeChain(c, c2, r, fragments);
          r
  }

  /** Two stretches of the cascade, one after the other, are one stretch. */
  lemma CascadeChain(c: Cascade, c2: Cascade, r: Cascade, fragments: set<string>)
    requires |c2.added| >= |c.added| && c2.added[..|c.added|] == c.added
    requires c2.covered == c.covered + NamesOf(c2.added[|c.added|..])
    requires forall x :: x in c2.added[|c.added|..] ==> x.fragmentName in fragments
    requires |r.added| >= |c2.added| && r.added[..|c2.added|] == c2.added
    requires r.covered == c2.covered + NamesOf(r.added[|c2.added|..])
    requires forall x :: x in r.added[|c2.added|..] ==> x.fragmentName in fragments
    ensures r.added[..|c.added|] == c.added
    ensures r.covered == c.covered + NamesOf(r.added[|c.added|..])
    ensures forall x :: x in r.added[|c.added|..] ==> x.fragmentName in fragments
  {
    assert r.added[..|c.added|] == r.added[..|c2.added|][..|c.added|];
    var mid, rest := c2.added[|c.added|..], r.added[|c2.added|..];
    assert r.added[|c.added|..] == mid + rest;
    assert NamesOf(mid + rest) == NamesOf(mid) + NamesOf(rest);
  }

  /** One block's `fragments` map, entry by entry. */
  method ApplyOverrides(entries: seq<(Option<string>, ResourceNode)>, fragments: set<string>, c: Cascade,
                        stod: string -> Option<real>) returns (r: Cascade)
    ensures r == FragmentOverrides(entries, fragments, c, stod)
  {
    r := c;
    var j := 0;
    while j < |entries|
      invariant 0 <= j <= |entries|
      invariant FragmentOverrides(entries[j..], fragments, r, stod) == FragmentOverrides(entries, fragments, c, stod)
    {
      assert entries[j..][1..] == entries[j + 1..];
      var (key, node) := entries[j];
      if key.None? {
        return;
      }
      if key.value in fragments {
        var req := ParseRequirement(key.value, node, r.app, stod);
        if req.None? {
          return;
        }
        r := r.(added := r.added + [req.value], covered := r.covered + {key.value});
      }
      j := j + 1;
    }
  }

  /** The inherited requirements of the fragments `names`. */
  function Inherited(names: set<string>, app: Requirement): set<Requirement>
  {
    set f | f in names :: Inherit(f, app)
  }

  lemma InheritedAdd(names: set<string>, f: string, app: Requirement)
    ensures Inherited(names + {f}, app) == Inherited(names, app) + {Inherit(f, app)}
  {
  }

  /** The inherited requirement of every fragment in `remaining`, in the set's own order. */
  method InheritRemaining(remaining: set<string>, app: Requirement) returns (tail: seq<Requirement>)
    ensures Elements(tail) == Inherited(remaining, app)
    ensures |tail| == |remaining|
  {
    tail := [];
    var todo := remaining;
    ghost var done: set<string> := {};
    while todo != {}
      invariant todo + done == remaining && todo !! done
      invariant Elements(tail) == Inherited(done, app)
      invariant |tail| == |done|
      decreases |todo|
    {
      var f :| f in todo;
      InheritedAdd(done, f, app);
      assert Elements(tail + [Inherit(f, app)]) == Elements(tail) + {Inherit(f, app)};
      tail := tail + [Inherit(f, app)];
      todo := todo - {f};
      done := done + {f};
    }
  }

  /**
   * Hands every fragment a requirement: first the explicit ones in document order, then, in an
   * order the source leaves to an unordered set, the application-level requirement renamed for
   * every fragment that had no block of its own. `blank` is the default-constructed requirement.
   */
  method CollectResourceRequirements(docs: seq<Option<ResourceBlock>>, fragments: seq<string>,
                                     blank: Requirement, stod: string -> Option<real>)
    returns (added: seq<Requirement>)
    ensures var c := CascadeDocuments(docs, Elements(fragments), blank, Cascade(blank, [], {}), stod);
            && |c.added| <= |added| && added[..|c.added|] == c.added
            && Elements(added[|c.added|..]) == Inherited(Elements(fragments) - c.covered, c.app)
            && |added| - |c.added| == |Elements(fragments) - c.covered|
    ensures NamesOf(added) == Elements(fragments)
  {
    var names := Elements(fragments);
    var c := Cascade(blank, [], {});
    ghost var c0 := c;
    var i := 0;
    while i < |docs|
      invariant 0 <= i <= |docs|
      invariant CascadeDocuments(docs[i..], names, blank, c, stod) == CascadeDocuments(docs, names, blank, c0, stod)
      decreases |docs| - i
    {
      assert docs[i..][1..] == docs[i + 1..];
      if docs[i].Some? {
        var block := docs[i].value;
        var app := ParseRequirement("", block.app, blank, stod);
        if app.Some? {
          c := c.(app := app.value);
          if block.fragments.Some? {
            c := ApplyOverrides(block.fragments.value, names, c, stod);
          }
        }
      }
      i := i + 1;
    }
    var tail := InheritRemaining(names - c.covered, c.app);
    added := c.added + tail;
    assert added[..|c.added|] == c.added && added[|c.added|..] == tail;
    EveryFragmentCovered(c.added, tail, names, c.covered, c.app);
  }

  /**
   * The explicit requirements cover `covered`, the inherited ones the rest of `names`: together
   * they are for exactly the fragments `names`.
   */
  lemma EveryFragmentCovered(explicit: seq<Requirement>, tail: seq<Requirement>, names: set<string>,
                             covered: set<string>, app: Requirement)
    requires covered == NamesOf(explicit) && covered <= names
    requires Elements(tail) == Inherited(names - covered, app)
    ensures NamesOf(explicit + tail) == names
  {
    assert NamesOf(explicit + tail) == NamesOf(explicit) + NamesOf(tail);
    forall x | x in tail ensures x.fragmentName in names {
      assert x in Inherited(names - covered, app);
    }
    forall f | f in names - covered ensures f in NamesOf(tail) {
      assert Inherit(f, app) in Elements(tail);
    }
  }
}
