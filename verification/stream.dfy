/** The observer `Stream`: a current value and an ordered list of
    subscribers. Subscribers are identified by a number; calling one is
    recorded as a notification. */
module Stream {

  datatype Stream<T> = Stream(value: T, subscribers: seq<nat>)

  datatype Notification<T> = Notification(subscriber: nat, value: T)

  /** `new Stream(initialValue)`. */
  function Create<T>(initial: T): (s: Stream<T>)
    ensures s.value == initial && s.subscribers == []
  {
    Stream(initial, [])
  }

  /** `addEvent(event)`: the value becomes the event, then every subscriber
      is called with it, in subscription order. */
  function AddEvent<T>(s: Stream<T>, event: T): (r: (Stream<T>, seq<Notification<T>>))
    ensures r.0.value == event && r.0.subscribers == s.subscribers
    ensures |r.1| == |s.subscribers|
    ensures forall i :: 0 <= i < |r.1| ==> r.1[i] == Notification(s.subscribers[i], event)
  {
    (s.(value := event), Notify(s.subscribers, event))
  }

  function Notify<T>(subscribers: seq<nat>, value: T): (r: seq<Notification<T>>)
    ensures |r| == |subscribers|
    ensures forall i :: 0 <= i < |r| ==> r[i] == Notification(subscribers[i], value)
  {
    if |subscribers| == 0 then []
    else [Notification(subscribers[0], value)] + Notify(subscribers[1..], value)
  }

  /** `subscribe(fn)`: appended last, the value untouched, nobody called. */
  function Subscribe<T>(s: Stream<T>, subscriber: nat): (r: Stream<T>)
    ensures r.value == s.value
    ensures r.subscribers == s.subscribers + [subscriber]
  {
    s.(subscribers := s.subscribers + [subscriber])
  }

  /** Which subscribers an event reaches. */
  function Recipients<T>(ns: seq<Notification<T>>): (r: seq<nat>)
    ensures |r| == |ns|
    ensures forall i :: 0 <= i < |ns| ==> r[i] == ns[i].subscriber
  {
    if |ns| == 0 then [] else [ns[0].subscriber] + Recipients(ns[1..])
  }

  /** Each subscription is called exactly once per event, in order: the
      recipients of an event are the subscription list itself. */
  lemma EachSubscriberOnce<T>(s: Stream<T>, event: T)
    ensures Recipients(AddEvent(s, event).1) == s.subscribers
    ensures multiset(Recipients(AddEvent(s, event).1)) == multiset(s.subscribers)
  {
  }

  /** A subscriber added after an event is not called for it, and is called
      last for every later event. */
  lemma LateSubscriber<T>(s: Stream<T>, first: T, subscriber: nat, second: T)
    ensures var s1 := AddEvent(s, first).0;
      var s2 := Subscribe(s1, subscriber);
      var ns := AddEvent(s2, second).1;
      && |ns| == |s.subscribers| + 1
      && ns[|s.subscribers|] == Notification(subscriber, second)
      && s2.value == first
  {
  }
}
