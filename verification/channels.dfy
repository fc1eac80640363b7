/** The stop signal of a probe: a Go `chan bool` made with `make(chan bool, 1)`. */
module Channels {

  class BoolChannel {
    /** Number of values sent on the channel and not yet received. */
    var buffered: nat

    /** `make(chan bool, 1)`: a fresh channel holding no value. */
    constructor ()
      ensures buffered == 0
    {
      buffered := 0;
    }

    /** `ch <- true`. */
    method Send()
      modifies this
      ensures buffered == old(buffered) + 1
    {
      buffered := buffered + 1;
    }

    /** The non-blocking receive `select { case <-ch: ... default: ... }`:
        takes a value when one is buffered, otherwise leaves the channel alone. */
    method TryReceive() returns (received: bool)
      modifies this
      ensures received <==> old(buffered) > 0
      ensures buffered == if received then old(buffered) - 1 else old(buffered)
    {
      received := buffered > 0;
      if received {
        buffered := buffered - 1;
      }
    }
  }
}
