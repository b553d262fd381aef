/**
 * The steps of `check_fragment_schedule` once the scheduler has answered: the workers left
 * out of the schedule are cancelled, the connection indices are given the addresses of the
 * workers their receivers run on, each worker hands out ports for the receiver entries of its
 * fragments, and each worker is asked to launch its fragments.
 */
module Scheduling {
  import opened Wrappers
  import opened Graphs
  import opened Connections
  import opened Negotiation
  import opened DriverServer

  /**
   * What the workers answer, as functions of what they are asked: a worker's IP address, the
   * ports it offers for a count and the ports already used on its address, and whether it
   * launches the fragments it is given with the connection map.
   */
  datatype Remote = Remote(ipOf: string -> string,
                           offers: (string, nat, seq<int>) -> seq<int>,
                           launches: (string, seq<string>, map<Node, seq<ConnectionItem>>) -> bool)

  /** `schedule[name]`: a fragment the schedule does not place is placed on worker "". */
  function WorkerOf(schedule: map<string, string>, name: string): string
  {
    if name in schedule then schedule[name] else ""
  }

  /** The schedule once every fragment of `names` has been looked up in it. */
  function Completed(schedule: map<string, string>, names: set<string>): map<string, string>
  {
    map f | f in schedule.Keys + names :: WorkerOf(schedule, f)
  }

  /** The workers the fragments `names` are placed on. */
  function WorkersOf(schedule: map<string, string>, names: set<string>): set<string>
  {
    set f | f in names :: WorkerOf(schedule, f)
  }

  /** Looking a fragment up leaves every placement as it was and adds only fragments on worker "". */
  lemma CompletedExtends(schedule: map<string, string>, names: set<string>)
    ensures var s := Completed(schedule, names);
            && s.Keys == schedule.Keys + names
            && (forall f :: f in schedule ==> s[f] == schedule[f])
            && (forall f :: f in s && f !in schedule ==> s[f] == "")
            && s.Values <= schedule.Values + {""}
  {
    var s := Completed(schedule, names);
    forall w | w in s.Values ensures w in schedule.Values + {""} {
      var f :| f in s && s[f] == w;
    }
  }

  /** Looking up one more fragment: placed already, or added on worker "". */
  lemma CompletedAdd(schedule: map<string, string>, names: set<string>, f: string)
    ensures var s := Completed(schedule, names);
            Completed(schedule, names + {f}) == if f in s then s else s[f := ""]
    ensures WorkersOf(schedule, names + {f}) == WorkersOf(schedule, names) + {WorkerOf(schedule, f)}
  {
  }

  // ---------------------------------------------------------------------------------------
  // Workers left out
  // ---------------------------------------------------------------------------------------

  /**
   * The workers connected to the driver that no fragment of the schedule is placed on are
   * asked to stop with `Cancelled`, and their connections are closed.
   */
  method CancelIdle(server: AppDriverServer, schedule: map<string, string>) returns (idle: seq<string>)
    requires server.Valid()
    modifies server
    ensures server.Valid() && server.stopped == old(server.stopped)
    ensures server.clients == old(server.clients) - (old(server.clients).Keys - schedule.Values)
    ensures server.clients.Keys <= schedule.Values
    ensures NoDuplicates(idle) && Elements(idle) == old(server.clients).Keys - schedule.Values
    ensures server.sent == old(server.sent) + Terminations(idle, Cancelled)
  {
    var addresses := server.GetWorkerAddresses();
    idle := Without(addresses, schedule.Values);
    TerminateEach(server, idle, Cancelled);
  }

  // ---------------------------------------------------------------------------------------
  // Addresses of the connection indices
  // ---------------------------------------------------------------------------------------

  /**
   * The indices outside `todo` have been given the addresses of their workers, and `names`,
   * the fragments looked up so far, have been added to the schedule.
   */
  ghost predicate Readdressed(toIp: map<int, string>, schedule: map<string, string>, ipOf: string -> string,
                              todo: set<int>, toIp': map<int, string>, schedule': map<string, string>, names: set<string>)
  {
    && todo <= toIp.Keys && toIp'.Keys == toIp.Keys && names <= toIp.Values
    && (forall i :: i in toIp && i in todo ==> toIp'[i] == toIp[i])
    && (forall i :: i in toIp && i !in todo ==> toIp'[i] == ipOf(WorkerOf(schedule, toIp[i])) && toIp[i] in names)
    && schedule' == Completed(schedule, names)
  }

  /** The lookup of index `i`: its fragment's worker `w`, and the index's new address. */
  method Readdress(toIp: map<int, string>, schedule: map<string, string>, ipOf: string -> string, todo: set<int>,
                   i: int, toIp': map<int, string>, schedule': map<string, string>, ghost names: set<string>)
    returns (toIp'': map<int, string>, schedule'': map<string, string>, w: string, ghost names': set<string>)
    requires Readdressed(toIp, schedule, ipOf, todo, toIp', schedule', names) && i in todo
    ensures Readdressed(toIp, schedule, ipOf, todo - {i}, toIp'', schedule'', names')
    ensures w == WorkerOf(schedule, toIp[i]) && WorkersOf(schedule, names') == WorkersOf(schedule, names) + {w}
  {
    var f := toIp'[i];
    CompletedAdd(schedule, names, f);
    schedule'' := schedule';
    if f !in schedule'' {
      schedule'' := schedule''[f := ""];
    }
    names' := names + {f};
    w := schedule''[f];
    toIp'' := toIp'[i := ipOf(w)];
  }

  /** Some index of `todo`: the iteration order of `index_to_ip_map_` is not fixed. */
  method Pick(todo: set<int>) returns (i: int)
    requires todo != {}
    ensures i in todo
  {
    assert exists j :: j in todo by {
      if forall j :: j !in todo {
        assert false;
      }
    }
    i :| i in todo;
  }

  /** Once every index has been looked up, every fragment of the table has. */
  lemma AllValues(toIp: map<int, string>, names: set<string>)
    requires names <= toIp.Values && forall i :: i in toIp ==> toIp[i] in names
    ensures names == toIp.Values
  {
    forall v | v in toIp.Values ensures v in names {
      assert exists i :: i in toIp && toIp[i] == v by {
        if forall i :: !(i in toIp && toIp[i] == v) {
          assert false;
        }
      }
      var i :| i in toIp && toIp[i] == v;
    }
  }

  /**
   * The lookups of the loop over `index_to_ip_map_`: each index's receiving fragment is
   * looked up in the schedule (a fragment it does not place is added on worker ""), and the
   * index is given that worker's IP address instead of the fragment name. `ws` are the workers
   * looked up, in turn.
   */
  method Lookups(toIp: map<int, string>, schedule: map<string, string>, ipOf: string -> string)
    returns (toIp': map<int, string>, schedule': map<string, string>, ws: seq<string>)
    ensures toIp'.Keys == toIp.Keys && forall i :: i in toIp ==> toIp'[i] == ipOf(WorkerOf(schedule, toIp[i]))
    ensures schedule' == Completed(schedule, toIp.Values)
    ensures Elements(ws) == WorkersOf(schedule, toIp.Values) && Elements(ws) <= schedule'.Values
  {
    toIp', schedule', ws := toIp, schedule, [];
    ghost var names: set<string> := {};
    var todo := toIp.Keys;
    while todo != {}
      invariant Readdressed(toIp, schedule, ipOf, todo, toIp', schedule', names)
      invariant Elements(ws) == WorkersOf(schedule, names)
      decreases todo
    {
      var i := Pick(todo);
      var w;
      toIp', schedule', w, names := Readdress(toIp, schedule, ipOf, todo, i, toIp', schedule', names);
      assert Elements(ws + [w]) == Elements(ws) + {w};
      ws := ws + [w];
      todo := todo - {i};
    }
    AllValues(toIp, names);
    WorkersCompleted(schedule, toIp.Values);
  }

  /** `connect_to_worker` for each of `ws` in turn: every one of them ends up connected. */
  method ConnectEach(server: AppDriverServer, ws: seq<string>)
    requires server.Valid()
    modifies server
    ensures server.Valid() && server.stopped == old(server.stopped)
    ensures server.clients.Keys == old(server.clients).Keys + Elements(ws)
    ensures server.sent == old(server.sent)
    ensures forall a :: a in old(server.clients) ==> server.clients[a] == old(server.clients)[a]
  {
    var j := 0;
    while j < |ws|
      invariant 0 <= j <= |ws|
      invariant server.Valid() && server.stopped == old(server.stopped)
      invariant server.clients.Keys == old(server.clients).Keys + Elements(ws[..j])
      invariant server.sent == old(server.sent)
      invariant forall a :: a in old(server.clients) ==> server.clients[a] == old(server.clients)[a]
    {
      assert Elements(ws[..j + 1]) == Elements(ws[..j]) + {ws[j]} by {
        PrefixSnoc(ws, j);
      }
      var _ := server.ConnectToWorker(ws[j]);
      j := j + 1;
    }
    assert ws[..j] == ws;
  }

  /** The workers looked up are workers of the completed schedule. */
  lemma WorkersCompleted(schedule: map<string, string>, names: set<string>)
    ensures WorkersOf(schedule, names) <= Completed(schedule, names).Values
    ensures schedule.Values <= Completed(schedule, names).Values
  {
    var s := Completed(schedule, names);
    forall w | w in WorkersOf(schedule, names) ensures w in s.Values {
      var f :| f in names && WorkerOf(schedule, f) == w;
      assert s[f] == w;
    }
    forall w | w in schedule.Values ensures w in s.Values {
      var f :| f in schedule && schedule[f] == w;
      assert s[f] == w;
    }
  }

  // ---------------------------------------------------------------------------------------
  // Port negotiation
  // ---------------------------------------------------------------------------------------

  /**
   * What the middle of `check_fragment_schedule` makes of tables `t`, given `schedule` and the
   * workers' answers `remote`:
   *  - the connection indices carry the IP address of the worker their receiving fragment is
   *    placed on, and `schedule'` is the schedule completed by those lookups;
   *  - `workers` are the workers of `schedule'`, each once, and `groups` their fragments;
   *  - the receiver lists and the index-to-port table are as `Negotiated` says, with a
   *    shortage reported in `short` and the ports used on each address in `used`.
   */
  ghost predicate Planned(t: Tables, schedule: map<string, string>, remote: Remote,
                          short: Option<string>, t': Tables, schedule': map<string, string>,
                          workers: seq<string>, groups: map<string, seq<string>>, offered: map<string, seq<int>>,
                          used: map<string, seq<int>>)
  {
    && t'.connections == t.connections
    && t'.indexToIp.Keys == t.indexToIp.Keys
    && (forall i :: i in t.indexToIp ==> t'.indexToIp[i] == remote.ipOf(WorkerOf(schedule, t.indexToIp[i])))
    && schedule' == Completed(schedule, t.indexToIp.Values)
    && NoDuplicates(workers) && Elements(workers) == groups.Keys == schedule'.Values
    && Grouping(schedule', groups) && (forall w :: w in groups ==> NoDuplicates(groups[w]))
    && Negotiated(workers, groups, schedule', t.receivers, t.indexToPort, remote.ipOf, remote.offers,
                  short, t'.receivers, t'.indexToPort, offered, used)
  }

  /**
   * The lookups of the connection indices and the grouping by worker: `ws` are the workers
   * looked up, in turn.
   */
  method Locate(t: Tables, schedule: map<string, string>, remote: Remote)
    returns (toIp: map<int, string>, schedule': map<string, string>, ws: seq<string>,
             workers: seq<string>, groups: map<string, seq<string>>)
    ensures toIp.Keys == t.indexToIp.Keys
    ensures forall i :: i in t.indexToIp ==> toIp[i] == remote.ipOf(WorkerOf(schedule, t.indexToIp[i]))
    ensures schedule' == Completed(schedule, t.indexToIp.Values) && Elements(ws) <= schedule'.Values
    ensures NoDuplicates(workers) && Elements(workers) == groups.Keys == schedule'.Values
    ensures Grouping(schedule', groups) && forall w :: w in groups ==> NoDuplicates(groups[w])
  {
    toIp, schedule', ws := Lookups(t.indexToIp, schedule, remote.ipOf);
    workers, groups := GroupByWorker(schedule');
  }

  /**
   * The connector counts, the lookups of the connection indices, the grouping by worker and the
   * negotiation, without the connections they open: `connects` are the workers the driver
   * connects to on the way, in order.
   */
  method PlanPorts(t: Tables, fragments: seq<Node>, schedule: map<string, string>, remote: Remote)
    returns (short: Option<string>, t': Tables, schedule': map<string, string>, workers: seq<string>,
             groups: map<string, seq<string>>, connects: seq<string>, ghost offered: map<string, seq<int>>,
             ghost used: map<string, seq<int>>)
    requires ReceiversNamed(t.receivers, fragments)
    ensures Planned(t, schedule, remote, short, t', schedule', workers, groups, offered, used)
    ensures Elements(connects) <= schedule'.Values && (short.None? ==> Elements(connects) == schedule'.Values)
    ensures short.Some? ==> short.value in connects
  {
    var count := ConnectorCounts(fragments, t.receivers);
    CountsBalanced(count, t.receivers, fragments);
    var toIp, ws;
    toIp, schedule', ws, workers, groups := Locate(t, schedule, remote);
    var r, toPort, contacted;
    short, r, toPort, contacted, offered, used :=
      NegotiatePorts(workers, groups, schedule', count, t.receivers, t.indexToPort, remote.ipOf, remote.offers);
    t' := Tables(t.connections, r, toPort, toIp);
    connects := ws + contacted;
    ElementsConcat(ws, contacted);
  }

  /** Lists that keep their lengths keep the fragments that have entries. */
  lemma NamedKept(r: Receivers, r': Receivers, fragments: seq<Node>)
    requires ReceiversNamed(r, fragments) && forall f :: |ListOf(r', f)| == |ListOf(r, f)|
    ensures ReceiversNamed(r', fragments)
  {
    forall name | name in r' && r'[name] != [] ensures name in NamesOf(fragments) {
      assert |ListOf(r, name)| == |ListOf(r', name)| > 0;
    }
  }

  // ---------------------------------------------------------------------------------------
  // Launching
  // ---------------------------------------------------------------------------------------

  /**
   * The launch loop of `check_fragment_schedule`: each worker in turn is asked to launch its
   * fragments with the connection map `connections`, and the first refusal ends the loop.
   * `contacted` are the workers asked, in order; every one of them but a refusing last one
   * has launched its fragments.
   */
  method LaunchAll(workers: seq<string>, groups: map<string, seq<string>>, connections: map<Node, seq<ConnectionItem>>,
                   launches: (string, seq<string>, map<Node, seq<ConnectionItem>>) -> bool)
    returns (failed: Option<string>, contacted: seq<string>)
    ensures contacted <= workers
    ensures failed.None? ==> contacted == workers
    ensures failed.Some? ==>
              && contacted != [] && failed.value == contacted[|contacted| - 1]
              && !launches(failed.value, GroupOf(groups, failed.value), connections)
    ensures forall w :: w in contacted && Some(w) != failed ==> launches(w, GroupOf(groups, w), connections)
  {
    var q := 0;
    while q < |workers|
      invariant 0 <= q <= |workers|
      invariant forall w :: w in workers[..q] ==> launches(w, GroupOf(groups, w), connections)
    {
      var w := workers[q];
      PrefixSnoc(workers, q);
      if !launches(w, GroupOf(groups, w), connections) {
        failed, contacted := Some(w), workers[..q + 1];
        return;
      }
      q := q + 1;
    }
    failed, contacted := None, workers;
    assert workers[..q] == workers;
  }
}
