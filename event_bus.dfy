/** The publish/subscribe bus of editor/event_bus.py: for each event type, the callbacks
    subscribed to it in order. A callback is an opaque value here; publishing returns the
    calls made, each callback with the data it was given, in the order they are made. */
module EventBus {

  /** The callbacks of one event type after subscribing `callback` to it
      (`listeners.setdefault(event_type, []).append(callback)`). */
  function Subscribed<E, C>(listeners: map<E, seq<C>>, eventType: E, callback: C): (r: map<E, seq<C>>)
    ensures r.Keys == listeners.Keys + {eventType}
    ensures r[eventType] == ListenersOf(listeners, eventType) + [callback]
    ensures forall e :: e in listeners && e != eventType ==> r[e] == listeners[e]
  {
    listeners[eventType := ListenersOf(listeners, eventType) + [callback]]
  }

  /** `listeners.get(event_type, [])`. */
  function ListenersOf<E, C>(listeners: map<E, seq<C>>, eventType: E): seq<C>
  {
    if eventType in listeners then listeners[eventType] else []
  }

  /** The calls that publishing `data` on an event type makes: each of its callbacks once,
      in subscription order. */
  function Calls<C, D>(callbacks: seq<C>, data: D): (r: seq<(C, D)>)
    ensures |r| == |callbacks|
    ensures forall i :: 0 <= i < |r| ==> r[i] == (callbacks[i], data)
  {
    seq(|callbacks|, i requires 0 <= i < |callbacks| => (callbacks[i], data))
  }

  /** A callback subscribed twice is kept twice, so it is called twice. */
  lemma SubscribeTwiceCallsTwice<E, C, D>(listeners: map<E, seq<C>>, eventType: E, callback: C, data: D)
    ensures var after := Subscribed(Subscribed(listeners, eventType, callback), eventType, callback);
      Calls(ListenersOf(after, eventType), data)
        == Calls(ListenersOf(listeners, eventType), data) + [(callback, data), (callback, data)]
  {
    var before := ListenersOf(listeners, eventType);
    var after := Subscribed(Subscribed(listeners, eventType, callback), eventType, callback);
    assert ListenersOf(after, eventType) == before + [callback] + [callback];
  }

  /** Subscribing to one event type does not change what another one calls. */
  lemma SubscribeKeepsOthers<E, C, D>(listeners: map<E, seq<C>>, eventType: E, other: E, callback: C, data: D)
    requires other != eventType
    ensures Calls(ListenersOf(Subscribed(listeners, eventType, callback), other), data)
         == Calls(ListenersOf(listeners, other), data)
  {
  }

  class EventBus<E(==), C, D> {
    var listeners: map<E, seq<C>>

    constructor ()
      ensures listeners == map[]
    {
      listeners := map[];
    }

    /** subscribe: the callback goes at the end of its event type's list, which is created
        when missing; no other list changes. */
    method Subscribe(eventType: E, callback: C)
      modifies this
      ensures listeners == Subscribed(old(listeners), eventType, callback)
    {
      if eventType !in listeners {
        listeners := listeners[eventType := []];
      }
      listeners := listeners[eventType := listeners[eventType] + [callback]];
    }

    /** publish: every callback of the event type is called with the data, once each, in
        subscription order; an unknown event type calls nothing and adds no key. */
    method Publish(eventType: E, data: D) returns (calls: seq<(C, D)>)
      ensures calls == Calls(ListenersOf(listeners, eventType), data)
    {
      var callbacks := ListenersOf(listeners, eventType);
      calls := [];
      for i := 0 to |callbacks|
        invariant calls == Calls(callbacks[..i], data)
      {
        calls := calls + [(callbacks[i], data)];
      }
      assert callbacks[..|callbacks|] == callbacks;
    }
  }
}
