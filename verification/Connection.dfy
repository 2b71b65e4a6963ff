/** The state that the callers and the reader of pkg/cdp/cdp.go share, and its
    critical sections. */
module Connection {
  import opened Wrappers

  /** A response: the id of the call it answers, and what it says. */
  datatype Message = Message(id: int, content: int)

  datatype Error = Closed | Unreadable | TransportFailed

  /** The shared fields as a value. Calls are numbered by a caller of this
      module; `pending` says which call waits for which id. */
  datatype Shared = Shared(nextId: int, pending: map<int, nat>, err: Option<Error>, closings: nat)
  {
    /** done is closed once, and exactly when there is an error. */
    predicate Valid() {
      nextId >= 0 && closings == if err.Some? then 1 else 0
    }

    function Registered(id: int, call: nat): Shared {
      if err.Some? then this else this.(pending := pending[id := call])
    }

    function Forgotten(id: int): Shared {
      this.(pending := pending - {id})
    }

    function Failed(error: Error): Shared {
      if err.Some? then this else this.(err := Some(error), closings := closings + 1)
    }
  }

  class Conn {
    var nextId: int
    var pending: map<int, nat>
    var err: Option<Error>
    var closings: nat

    ghost function State(): Shared
      reads this
    {
      Shared(nextId, pending, err, closings)
    }

    ghost predicate Valid()
      reads this
    {
      State().Valid()
    }

    constructor ()
      ensures Valid() && State() == Shared(0, map[], None, 0)
    {
      nextId, pending, err, closings := 0, map[], None, 0;
    }

    method TakeId() returns (id: int)
      requires Valid()
      modifies this
      ensures Valid() && id == old(nextId) + 1 && State() == old(State()).(nextId := id)
    {
      nextId := nextId + 1;
      id := nextId;
    }

    /** Registers a call, unless the connection has failed. */
    method Register(id: int, call: nat) returns (failure: Option<Error>)
      requires Valid()
      modifies this
      ensures Valid() && failure == old(err) && State() == old(State()).Registered(id, call)
    {
      if err.Some? {
        return err;
      }
      pending := pending[id := call];
      return None;
    }

    method Forget(id: int)
      requires Valid()
      modifies this
      ensures Valid() && State() == old(State()).Forgotten(id)
    {
      pending := pending - {id};
    }

    /** The call that waits for an id, which no longer waits. */
    method Take(id: int) returns (call: Option<nat>)
      requires Valid()
      modifies this
      ensures Valid() && call == (if id in old(pending) then Some(old(pending)[id]) else None)
      ensures State() == old(State()).Forgotten(id)
    {
      call := if id in pending then Some(pending[id]) else None;
      pending := pending - {id};
    }

    /** Ends the connection with the error, once. */
    method Fail(error: Error)
      requires Valid()
      modifies this
      ensures Valid() && State() == old(State()).Failed(error)
    {
      if err.Some? {
        return;
      }
      err := Some(error);
      CloseDone();
    }

    /** Closing a channel that is closed already would panic. */
    method CloseDone()
      requires closings == 0
      modifies this`closings
      ensures closings == 1
    {
      closings := closings + 1;
    }
  }
}
