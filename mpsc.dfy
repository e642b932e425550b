/** An unbounded multi-producer single-consumer channel, as the components use it to talk
    to their background tasks: sending appends, `try_recv` takes the oldest item or
    reports that none is waiting. A send to a dropped receiver fails, and some callers
    leave a loop on that failure (the IRC loop ends its task, the stream batcher cuts
    the rest of a batch's reports); the model has no closed state, so every send
    succeeds. */
module Mpsc {
  import opened Wrappers

  class Mailbox<T> {
    var items: seq<T>

    constructor ()
      ensures items == []
    {
      items := [];
    }

    method Send(x: T)
      modifies this
      ensures items == old(items) + [x]
    {
      items := items + [x];
    }

    method TryRecv() returns (o: Option<T>)
      modifies this
      ensures old(items) == [] ==> o == None && items == []
      ensures old(items) != [] ==> o == Some(old(items)[0]) && items == old(items)[1..]
    {
      if items == [] {
        o := None;
      } else {
        o := Some(items[0]);
        items := items[1..];
      }
    }
  }
}
