/**
 * The driver's registry of worker connections: one client per worker address, created on the
 * first request for that address and dropped when the connection is closed.
 */
module DriverServer {
  import opened Wrappers

  /** How a worker ends: the code the driver sends with a termination request, or receives back. */
  datatype TerminationCode = Success | Cancelled | Failure

  /** One `terminate_worker` call: the worker at `address` is asked to stop with `code`. */
  datatype Termination = Termination(address: string, code: TerminationCode)

  /** The requests asking each of `addresses` in turn to stop with `code`. */
  function Terminations(addresses: seq<string>, code: TerminationCode): (r: seq<Termination>)
    ensures |r| == |addresses|
    ensures forall i :: 0 <= i < |r| ==> r[i] == Termination(addresses[i], code)
  {
    if addresses == [] then [] else [Termination(addresses[0], code)] + Terminations(addresses[1..], code)
  }

  /** Asking one more worker to stop extends the requests by one. */
  lemma TerminationsSnoc(addresses: seq<string>, a: string, code: TerminationCode)
    ensures Terminations(addresses + [a], code) == Terminations(addresses, code) + [Termination(a, code)]
  {
  }

  /**
   * The client side of a connection to one worker. Its remote calls are outside this module,
   * except `terminate_worker`, which the server below records.
   */
  class WorkerClient {
    const address: string

    constructor (address: string)
      ensures this.address == address
    {
      this.address := address;
    }
  }

  class AppDriverServer {
    /** `worker_clients_`: the open connections, by worker address. */
    var clients: map<string, WorkerClient>
    /** Whether `stop()` has asked the server loop to end. */
    var stopped: bool
    /** The `terminate_worker` calls made through the clients, oldest first. */
    var sent: seq<Termination>

    /** Every client is filed under its own address. */
    ghost predicate Valid()
      reads this
    {
      forall a :: a in clients ==> clients[a].address == a
    }

    constructor ()
      ensures Valid() && clients == map[] && !stopped && sent == []
    {
      clients := map[];
      stopped := false;
      sent := [];
    }

    /** `num_worker_connections`. */
    function NumWorkerConnections(): nat
      reads this
    {
      |clients|
    }

    /**
     * `connect_to_worker`: the client already open for `address`, or a new one, registered
     * under it. No address ever has two clients.
     */
    method ConnectToWorker(address: string) returns (c: WorkerClient)
      requires Valid()
      modifies this
      ensures Valid() && c.address == address && stopped == old(stopped) && sent == old(sent)
      ensures address in old(clients) ==> clients == old(clients) && c == old(clients)[address]
      ensures address !in old(clients) ==> fresh(c) && clients == old(clients)[address := c]
    {
      if address in clients {
        c := clients[address];
      } else {
        c := new WorkerClient(address);
        clients := clients[address := c];
      }
    }

    /**
     * `close_worker_connection`: drops the client for `address`, reporting whether there was
     * one; every other connection stays as it was.
     */
    method CloseWorkerConnection(address: string) returns (closed: bool)
      requires Valid()
      modifies this
      ensures Valid() && stopped == old(stopped) && sent == old(sent)
      ensures closed <==> address in old(clients)
      ensures clients == old(clients) - {address}
    {
      closed := address in clients;
      clients := clients - {address};
    }

    /** `get_worker_addresses`: each open connection's address, once. */
    method GetWorkerAddresses() returns (addresses: seq<string>)
      ensures Elements(addresses) == clients.Keys && NoDuplicates(addresses)
      ensures |addresses| == NumWorkerConnections()
    {
      addresses := [];
      var todo := clients.Keys;
      while todo != {}
        invariant todo <= clients.Keys
        invariant forall x :: x in addresses <==> x in clients.Keys && x !in todo
        invariant NoDuplicates(addresses)
        invariant |addresses| + |todo| == |clients|
        decreases todo
      {
        var a :| a in todo;
        addresses := addresses + [a];
        todo := todo - {a};
      }
      assert Elements(addresses) == clients.Keys;
    }

    /** `stop`: asks the server loop to end. */
    method Stop()
      modifies this
      ensures stopped && clients == old(clients) && sent == old(sent)
    {
      stopped := true;
    }

    /** `terminate_worker` through the client for `address`: the worker is asked to stop with `code`. */
    method TerminateWorker(address: string, code: TerminationCode)
      requires address in clients
      modifies this`sent
      ensures sent == old(sent) + [Termination(address, code)]
    {
      sent := sent + [Termination(address, code)];
    }
  }

  /** The worker at `address` is asked to stop with `code` and its connection is closed. */
  method TerminateOne(server: AppDriverServer, address: string, code: TerminationCode)
    requires server.Valid() && address in server.clients
    modifies server
    ensures server.Valid() && server.stopped == old(server.stopped)
    ensures server.clients == old(server.clients) - {address}
    ensures server.sent == old(server.sent) + [Termination(address, code)]
  {
    server.TerminateWorker(address, code);
    var _ := server.CloseWorkerConnection(address);
  }

  /** One turn of `TerminateEach`: the `j`th address. */
  method TerminateNext(server: AppDriverServer, addresses: seq<string>, j: nat, code: TerminationCode,
                       ghost before: map<string, WorkerClient>, ghost log: seq<Termination>)
    requires server.Valid() && NoDuplicates(addresses) && Elements(addresses) <= before.Keys && j < |addresses|
    requires server.clients == before - Elements(addresses[..j]) && server.sent == log + Terminations(addresses[..j], code)
    modifies server
    ensures server.Valid() && server.stopped == old(server.stopped)
    ensures server.clients == before - Elements(addresses[..j + 1])
    ensures server.sent == log + Terminations(addresses[..j + 1], code)
  {
    var a := addresses[j];
    ghost var done := addresses[..j];
    assert addresses[..j + 1] == done + [a];
    assert Elements(done + [a]) == Elements(done) + {a};
    assert a !in Elements(done) by {
      assert forall k :: 0 <= k < j ==> addresses[k] != a;
    }
    assert a in addresses;
    TerminationsSnoc(done, a, code);
    TerminateOne(server, a, code);
  }

  /**
   * For each of `addresses` in turn: the registered client asks its worker to stop with `code`
   * and its connection is closed. Every other connection is left alone.
   */
  method TerminateEach(server: AppDriverServer, addresses: seq<string>, code: TerminationCode)
    requires server.Valid() && NoDuplicates(addresses) && Elements(addresses) <= server.clients.Keys
    modifies server
    ensures server.Valid() && server.stopped == old(server.stopped)
    ensures server.clients == old(server.clients) - Elements(addresses)
    ensures server.sent == old(server.sent) + Terminations(addresses, code)
  {
    ghost var before, log := server.clients, server.sent;
    var j := 0;
    while j < |addresses|
      invariant 0 <= j <= |addresses|
      invariant server.Valid() && server.stopped == old(server.stopped)
      invariant server.clients == before - Elements(addresses[..j])
      invariant server.sent == log + Terminations(addresses[..j], code)
    {
      TerminateNext(server, addresses, j, code, before, log);
      j := j + 1;
    }
    assert addresses[..j] == addresses;
  }
}
