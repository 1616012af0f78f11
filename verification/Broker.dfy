/** The in-memory event broker (bus.go): topics, subscribers and bounded, non-blocking channels. */
module Broker {

  datatype Event = Event(topic: string, kind: string)

  /** A Go channel. Channels are named by the id of the Subscribe call that made them. */
  datatype Channel = Channel(buffer: seq<Event>, closed: bool)

  /** topic -> subscriber id -> channel */
  type Registry = map<string, map<nat, nat>>

  const BUFFER_SIZE: nat := 16

  datatype Subscriber = Subscriber(id: nat, topics: seq<string>, events: nat)

  // ----- the registry as a relation -----

  predicate Entry(subs: Registry, topic: string, id: nat, ch: nat) {
    topic in subs && id in subs[topic] && subs[topic][id] == ch
  }

  predicate NoEmptyTopic(subs: Registry) {
    forall topic | topic in subs :: subs[topic] != map[]
  }

  function Without(subs: Registry, id: nat, topics: seq<string>): Registry {
    map topic | topic in subs && (topic !in topics || subs[topic] - {id} != map[]) ::
      if topic in topics then subs[topic] - {id} else subs[topic]
  }

  function SubscribersOf(subs: Registry, topic: string): map<nat, nat> {
    if topic in subs then subs[topic] else map[]
  }

  function With(subs: Registry, id: nat, ch: nat, topics: seq<string>): Registry {
    map topic | topic in subs.Keys + (set t | t in topics) ::
      if topic in topics then SubscribersOf(subs, topic)[id := ch] else subs[topic]
  }

  /** Removing a subscriber from topics removes exactly its entries there, and never leaves an empty topic. */
  lemma WithoutEntries(subs: Registry, id: nat, topics: seq<string>)
    requires NoEmptyTopic(subs)
    ensures NoEmptyTopic(Without(subs, id, topics))
    ensures forall t, i, c :: Entry(Without(subs, id, topics), t, i, c) <==> Entry(subs, t, i, c) && !(i == id && t in topics)
  {
    forall t, i, c
      ensures Entry(Without(subs, id, topics), t, i, c) <==> Entry(subs, t, i, c) && !(i == id && t in topics)
    {
      if Entry(subs, t, i, c) && i != id { assert i in subs[t] - {id}; }
    }
  }

  /** Adding a subscriber to topics adds exactly its entries there. */
  lemma WithEntries(subs: Registry, id: nat, ch: nat, topics: seq<string>)
    requires NoEmptyTopic(subs)
    ensures NoEmptyTopic(With(subs, id, ch, topics))
    ensures forall t, i, c :: Entry(With(subs, id, ch, topics), t, i, c) <==>
              if i == id && t in topics then c == ch else Entry(subs, t, i, c)
  {
    forall topic | topic in With(subs, id, ch, topics)
      ensures With(subs, id, ch, topics)[topic] != map[]
    {
      if topic in topics { assert id in With(subs, id, ch, topics)[topic]; }
    }
  }

  lemma WithSnoc(subs: Registry, id: nat, ch: nat, topics: seq<string>, topic: string)
    ensures var w := With(subs, id, ch, topics);
            With(subs, id, ch, topics + [topic]) == w[topic := SubscribersOf(w, topic)[id := ch]]
  {
    var w, longer := With(subs, id, ch, topics), With(subs, id, ch, topics + [topic]);
    assert longer.Keys == w.Keys + {topic};
    forall t | t in longer
      ensures longer[t] == w[topic := SubscribersOf(w, topic)[id := ch]][t]
    {
      if t == topic && topic in topics { assert w[t][id := ch] == w[t]; }
    }
  }

  lemma WithoutSnoc(subs: Registry, id: nat, topics: seq<string>, topic: string)
    requires NoEmptyTopic(subs)
    ensures var w := Without(subs, id, topics);
            Without(subs, id, topics + [topic]) ==
            if topic !in w then w else if w[topic] - {id} == map[] then w - {topic} else w[topic := w[topic] - {id}]
  {
    var w := Without(subs, id, topics);
    if topic in w && topic in topics { assert w[topic] - {id} == w[topic]; }
    if topic !in w && topic in subs { assert topic in topics; }
  }

  lemma OfferSnoc(chans: map<nat, Channel>, targets: set<nat>, ch: nat, e: Event)
    requires ch in chans && ch !in targets
    ensures OfferAll(chans, targets + {ch}, e) == OfferAll(chans, targets, e)[ch := Offer(chans[ch], e)]
    ensures OfferAll(chans, targets, e)[ch] == chans[ch]
  {
  }

  /** A non-blocking send: a full buffer drops the event. */
  function Offer(ch: Channel, e: Event): Channel {
    if |ch.buffer| < BUFFER_SIZE then ch.(buffer := ch.buffer + [e]) else ch
  }

  function OfferAll(chans: map<nat, Channel>, targets: set<nat>, e: Event): map<nat, Channel> {
    map ch | ch in chans :: if ch in targets then Offer(chans[ch], e) else chans[ch]
  }

  /** Every channel in use is open, entries point to the channel of their subscriber, and no topic is empty. */
  ghost predicate Consistent(subs: Registry, channels: map<nat, nat>, chans: map<nat, Channel>, nextId: nat) {
    && NoEmptyTopic(subs)
    && (forall id | id in channels :: channels[id] in chans && !chans[channels[id]].closed && channels[id] == id)
    && (forall t, id, ch | Entry(subs, t, id, ch) :: id in channels && channels[id] == ch)
    && (forall ch | ch in chans :: 0 < ch <= nextId && |chans[ch].buffer| <= BUFFER_SIZE)
  }

  lemma OfferKeepsConsistent(subs: Registry, channels: map<nat, nat>, chans: map<nat, Channel>, nextId: nat, targets: set<nat>, e: Event)
    requires Consistent(subs, channels, chans, nextId)
    ensures Consistent(subs, channels, OfferAll(chans, targets, e), nextId)
  {
  }

  // ----- the code -----

  /** localBroker. Each method body is what runs under the lock. */
  class LocalBroker {
    var subscribers: Registry
    var channels: map<nat, nat>
    var chans: map<nat, Channel>
    var nextId: nat

    ghost predicate Valid() reads this { Consistent(subscribers, channels, chans, nextId) }

    constructor ()
      ensures Valid() && subscribers == map[] && channels == map[] && chans == map[] && nextId == 0
    {
      subscribers, channels, chans, nextId := map[], map[], map[], 0;
    }

    method Subscribe(topics: seq<string>) returns (sub: Subscriber)
      requires Valid()
      modifies this
      ensures Valid()
      ensures nextId == old(nextId) + 1 && sub == Subscriber(nextId, topics, nextId)
      ensures subscribers == With(old(subscribers), sub.id, sub.events, topics)
      ensures channels == old(channels)[sub.id := sub.events]
      ensures chans == old(chans)[sub.events := Channel([], false)]
    {
      nextId := nextId + 1;
      var ch := nextId;
      WithEntries(subscribers, nextId, ch, topics);
      assert ch !in chans;
      chans := chans[ch := Channel([], false)];
      channels := channels[nextId := ch];
      AddTo(nextId, ch, topics);
      sub := Subscriber(nextId, topics, ch);
    }

    /** The loop that registers a subscriber under topics. */
    method AddTo(id: nat, ch: nat, topics: seq<string>)
      modifies this`subscribers
      ensures subscribers == With(old(subscribers), id, ch, topics)
    {
      for i := 0 to |topics|
        invariant subscribers == With(old(subscribers), id, ch, topics[..i])
      {
        var topic := topics[i];
        if topic !in subscribers {
          subscribers := subscribers[topic := map[]];
        }
        var entries: map<nat, nat> := subscribers[topic];
        subscribers := subscribers[topic := entries[id := ch]];
        WithSnoc(old(subscribers), id, ch, topics[..i], topic);
        assert topics[..i + 1] == topics[..i] + [topic];
      }
      assert topics[..|topics|] == topics;
    }

    /** The loop that removes a subscriber from topics. */
    method RemoveFrom(id: nat, topics: seq<string>)
      requires NoEmptyTopic(subscribers)
      modifies this`subscribers
      ensures subscribers == Without(old(subscribers), id, topics)
    {
      for i := 0 to |topics|
        invariant subscribers == Without(old(subscribers), id, topics[..i])
      {
        var topic := topics[i];
        WithoutSnoc(old(subscribers), id, topics[..i], topic);
        assert topics[..i + 1] == topics[..i] + [topic];
        if topic in subscribers {
          ghost var before := subscribers;
          subscribers := subscribers[topic := subscribers[topic] - {id}];
          if |subscribers[topic]| == 0 {
            subscribers := subscribers - {topic};
            assert subscribers == before - {topic};
          }
        }
      }
      assert topics[..|topics|] == topics;
    }

    /** Keeps the broker valid exactly if the subscriber names every topic it is registered under. */
    method Unsubscribe(sub: Subscriber)
      requires Valid()
      modifies this
      ensures Valid() <==> forall t, ch | old(Entry(subscribers, t, sub.id, ch)) :: t in sub.topics
      ensures subscribers == Without(old(subscribers), sub.id, sub.topics)
      ensures channels == old(channels) - {sub.id}
      ensures sub.id in old(channels) ==>
                chans == old(chans)[old(channels)[sub.id] := old(chans)[old(channels)[sub.id]].(closed := true)]
      ensures sub.id !in old(channels) ==> chans == old(chans)
      ensures nextId == old(nextId)
    {
      WithoutEntries(subscribers, sub.id, sub.topics);
      if sub.id in channels {
        var ch := channels[sub.id];
        assert !chans[ch].closed;
        chans := chans[ch := chans[ch].(closed := true)];
        channels := channels - {sub.id};
      }
      RemoveFrom(sub.id, sub.topics);
    }

    /** Keeps the broker valid exactly if the subscriber is live, or is left without topics. */
    method Update(sub: Subscriber, topics: seq<string>) returns (updated: Subscriber)
      requires Valid()
      modifies this
      ensures Valid() <==> topics == [] || (sub.id in channels && channels[sub.id] == sub.events)
      ensures updated == sub.(topics := topics)
      ensures subscribers == With(Without(old(subscribers), sub.id, sub.topics), sub.id, sub.events, topics)
      ensures channels == old(channels) && chans == old(chans) && nextId == old(nextId)
    {
      WithoutEntries(subscribers, sub.id, sub.topics);
      WithEntries(Without(subscribers, sub.id, sub.topics), sub.id, sub.events, topics);
      RemoveFrom(sub.id, sub.topics);
      AddTo(sub.id, sub.events, topics);
      updated := sub.(topics := topics);
      assert topics != [] ==> Entry(subscribers, topics[0], sub.id, sub.events);
    }

    /** Publish: Go visits the subscribers in any order. */
    method Publish(e: Event)
      requires Valid()
      modifies this`chans
      ensures Valid()
      ensures chans == OfferAll(old(chans), SubscribersOf(subscribers, e.topic).Values, e)
    {
      var subs := SubscribersOf(subscribers, e.topic);
      forall id | id in subs ensures subs[id] == id && id in chans && !chans[id].closed { assert Entry(subscribers, e.topic, id, subs[id]); }
      assert subs.Values == subs.Keys;
      var left := subs.Keys;
      while left != {}
        invariant left <= subs.Keys
        invariant chans == OfferAll(old(chans), subs.Keys - left, e)
        decreases |left|
      {
        var id :| id in left;
        OfferSnoc(old(chans), subs.Keys - left, id, e);
        assert subs.Keys - (left - {id}) == subs.Keys - left + {id};
        assert !chans[subs[id]].closed;
        left := left - {id};
        chans := chans[subs[id] := Offer(chans[subs[id]], e)];
      }
      assert subs.Keys - left == subs.Keys;
      OfferKeepsConsistent(subscribers, channels, old(chans), nextId, subs.Keys, e);
    }
  }
}
