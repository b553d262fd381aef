/**
 * The messages the driver server hands to the application driver, and the first-in first-out
 * queue that holds them until the driver processes them.
 */
module Messages {
  import opened DriverServer

  /**
   * What a message carries, of whatever type its sender chose: a worker address, a worker's
   * termination status (`AppWorkerTerminationStatus`), or a value of some other type.
   */
  datatype Payload = Text(text: string) | WorkerStatus(worker: string, code: TerminationCode) | OtherData

  /** `DriverMessage`: a message code with its payload; codes outside the known three are `Unknown`. */
  datatype DriverMessage =
    | CheckFragmentSchedule(data: Payload)
    | WorkerExecutionFinished(data: Payload)
    | TerminateServer
    | Unknown(code: int)

  /** A message the driver only logs: an unknown code, or a payload of the wrong type. */
  predicate Ignored(m: DriverMessage)
  {
    match m
    case CheckFragmentSchedule(data) => !data.Text?
    case WorkerExecutionFinished(data) => !data.WorkerStatus?
    case TerminateServer => false
    case Unknown(_) => true
  }

  /** `message_queue_`: the messages not processed yet, oldest first. */
  class MessageQueue {
    var items: seq<DriverMessage>
    /** Every message ever pushed, and every message ever popped, in order. */
    ghost var pushed: seq<DriverMessage>
    ghost var popped: seq<DriverMessage>

    /** First in, first out: the messages leave in the order they arrived. */
    ghost predicate Valid()
      reads this
    {
      pushed == popped + items
    }

    constructor ()
      ensures Valid() && items == [] && pushed == [] && popped == []
    {
      items, pushed, popped := [], [], [];
    }

    /** `push`: `m` joins the back of the queue. */
    method Push(m: DriverMessage)
      requires Valid()
      modifies this
      ensures Valid() && items == old(items) + [m]
      ensures pushed == old(pushed) + [m] && popped == old(popped)
    {
      items := items + [m];
      pushed := pushed + [m];
    }

    /** `front` then `pop`: the oldest message `m` leaves the queue. */
    method Pop() returns (m: DriverMessage)
      requires Valid() && items != []
      modifies this
      ensures Valid() && m == old(items)[0] && items == old(items)[1..]
      ensures pushed == old(pushed) && popped == old(popped) + [m]
    {
      m := items[0];
      items := items[1..];
      popped := popped + [m];
    }
  }
}
