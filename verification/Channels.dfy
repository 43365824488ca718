/** An unbounded channel whose receiver may go away after some number of messages. */
module Channels {
  import opened Prelude

  class Channel<T> {
    var sent: seq<T>
    const closesAfter: Option<nat>

    ghost predicate Valid()
      reads this
    {
      closesAfter.Some? ==> |sent| <= closesAfter.value
    }

    constructor (closesAfter: Option<nat>)
      ensures Valid() && sent == [] && this.closesAfter == closesAfter
    {
      sent := [];
      this.closesAfter := closesAfter;
    }

    /** As much of `all` as the receiver takes. */
    ghost function Taken(all: seq<T>): seq<T>
      reads this
    {
      if closesAfter.Some? && closesAfter.value < |all| then all[..closesAfter.value] else all
    }

    method Send(message: T) returns (ok: bool)
      requires Valid()
      modifies this
      ensures Valid()
      ensures ok <==> closesAfter.None? || |old(sent)| < closesAfter.value
      ensures sent == if ok then old(sent) + [message] else old(sent)
    {
      ok := closesAfter.None? || |sent| < closesAfter.value;
      if ok { sent := sent + [message]; }
    }
  }
}
