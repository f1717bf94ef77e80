/** The completion queue: a linked FIFO of events behind head and tail pointers. */
module CompletionQueue {

  /** A `grpc_event`. */
  datatype Event = Event(kind: int, success: bool, tag: int)

  /** What a consumer holding the mutex does next: take an event, report shutdown, or wait. */
  datatype Outcome = Deliver(event: Event) | ReportShutdown | Wait

  function NextOutcome(queue: seq<Event>, shutdown: bool): Outcome {
    if queue != [] then Deliver(queue[0]) else if shutdown then ReportShutdown else Wait
  }

  class Node {
    const event: Event
    var next: Node?

    constructor (event: Event)
      ensures this.event == event && next == null
    {
      this.event, next := event, null;
    }
  }

  class Queue {
    var head: Node?
    var tail: Node?
    var shutdown: bool
    ghost var nodes: seq<Node>  // the list from head to tail

    /** The pointers form exactly the list `nodes`. */
    ghost predicate Valid()
      reads this, nodes
    {
      && (nodes == [] ==> head == null && tail == null)
      && (nodes != [] ==> head == nodes[0] && tail == nodes[|nodes| - 1] && tail.next == null)
      && (forall i :: 0 <= i < |nodes| - 1 ==> nodes[i].next == nodes[i + 1])
      && (forall i, j :: 0 <= i < j < |nodes| ==> nodes[i] != nodes[j])
    }

    ghost function Events(): seq<Event>
      reads this
    {
      seq(|nodes|, i requires 0 <= i < |nodes| reads this => nodes[i].event)
    }

    constructor ()
      ensures Valid() && Events() == [] && !shutdown
    {
      head, tail, shutdown, nodes := null, null, false, [];
    }

    /** The critical section of `completion_queue_push_event`; the queue may already be shut down. */
    method Push(event: Event)
      requires Valid()
      modifies this`head, this`tail, this`nodes, nodes
      ensures Valid() && Events() == old(Events()) + [event]
      ensures fresh(set n | n in nodes && n !in old(nodes))
    {
      var ev := new Node(event);
      if tail != null {
        tail.next := ev;
      } else {
        head := ev;
      }
      tail := ev;
      nodes := nodes + [ev];
    }

    /** One turn of `grpc_completion_queue_next` under the mutex, up to returning or waiting. */
    method TryNext() returns (outcome: Outcome)
      requires Valid()
      modifies this`head, this`tail, this`nodes
      ensures Valid() && outcome == NextOutcome(old(Events()), shutdown)
      ensures Events() == if old(Events()) == [] then [] else old(Events())[1..]
    {
      if head == null && !shutdown {
        return Wait;
      }
      if shutdown && head == null {
        return ReportShutdown;
      }
      var ev := head;
      head := ev.next;
      if head == null {
        tail := null;
      }
      nodes := nodes[1..];
      return Deliver(ev.event);
    }

    method Shutdown()
      requires Valid()
      modifies this`shutdown
      ensures Valid() && shutdown && Events() == old(Events())
    {
      shutdown := true;
    }
  }
}
