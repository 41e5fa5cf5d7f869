/** The host's signal system, as far as the handlers rely on it.
    A host object keeps, per connection, the signal name and the callback;
    `connect` hands back a handler id that is non-zero and never reused, and
    `disconnect` cancels the connection with that id on that object. */
module Signals {

  /** Identity of a host object that emits signals. */
  type ObjectRef = nat

  /** Identity of a callback closure. */
  type Callback = nat

  /** A connection as the host knows it: the object and the handler id that
      its `connect` returned. */
  datatype Subscription = Subscription(obj: ObjectRef, id: nat)

  /** What a connection subscribes: a signal name and the callback run on it. */
  datatype Binding = Binding(event: string, callback: Callback)

  class SignalHost {
    /** The connections that are currently live. */
    var live: map<Subscription, Binding>
    /** The next handler id to hand out; ids are never reused. */
    var nextId: nat

    ghost predicate Valid()
      reads this
    {
      0 < nextId && forall s :: s in live ==> 0 < s.id < nextId
    }

    constructor ()
      ensures Valid() && live == map[]
    {
      live := map[];
      nextId := 1;
    }

    /** `object.connect(event, callback)`: subscribe and return a fresh id. */
    method Connect(obj: ObjectRef, event: string, callback: Callback) returns (id: nat)
      requires Valid()
      modifies this
      ensures Valid()
      ensures 0 < id && old(nextId) <= id < nextId
      ensures Subscription(obj, id) !in old(live)
      ensures live == old(live)[Subscription(obj, id) := Binding(event, callback)]
    {
      id := nextId;
      live := live[Subscription(obj, id) := Binding(event, callback)];
      nextId := nextId + 1;
    }

    /** `object.disconnect(id)`: cancel that connection on that object. */
    method Disconnect(obj: ObjectRef, id: nat)
      requires Valid()
      modifies this
      ensures Valid() && nextId == old(nextId)
      ensures live == old(live) - {Subscription(obj, id)}
    {
      live := live - {Subscription(obj, id)};
    }
  }
}
