/**
 * Websocket connections on the broker (hub.go, bus.go): the read loop, the event loop and the deferred unsubscribe
 * of every connection, interleaved with concurrent publishers. A step is what one goroutine does between two
 * synchronisation points; the write lock excludes publishers, publishers share the read lock.
 */
module Pump {
  import opened Broker

  datatype Reader = Reading | Updating(topics: seq<string>) | ReaderDone

  /** A connection, from its subscription message to the deferred unsubscribe. */
  datatype Connection =
    | Connecting(topics: seq<string>)
    | Allocated(sub: Subscriber)
    | Pumping(sub: Subscriber, active: set<string>, reader: Reader, loopDone: bool, received: seq<Event>)
    | Finished(sub: Subscriber, received: seq<Event>)

  /** A goroutine inside Publish still has to offer its event to `left`. */
  datatype Publisher = Idle | Sending(event: Event, left: map<nat, nat>)

  /** The broker, the goroutines, and the history: who made a channel, what was sent on it, which topics it ever had. */
  datatype State = State(subs: Registry, channels: map<nat, nat>, chans: map<nat, Channel>, nextId: nat, panicked: bool,
                         conns: map<nat, Connection>, publishers: map<nat, Publisher>,
                         owner: map<nat, nat>, sent: map<nat, seq<Event>>, ever: map<nat, set<string>>)

  datatype Step =
    | Connect(c: nat, topics: seq<string>)
    | Allocate(c: nat)
    | Register(c: nat)
    | ReadMessage(c: nat, subscribe: bool, delta: seq<string>, topics: seq<string>)
    | ApplyUpdate(c: nat)
    | ReaderExit(c: nat)
    | Receive(c: nat)
    | LoopExit(c: nat)
    | Unsubscribe(c: nat)
    | PublishBegin(p: nat, event: Event)
    | PublishSend(p: nat, id: nat)
    | PublishEnd(p: nat)

  function Init(): State {
    State(map[], map[], map[], 0, false, map[], map[], map[], map[], map[])
  }

  function SetOf(topics: seq<string>): set<string> { set t | t in topics }

  /** What updateTopics returns, up to the order of a Go map. */
  predicate UpdatesTopics(current: seq<string>, subscribe: bool, delta: seq<string>, topics: seq<string>) {
    SetOf(topics) == if subscribe then SetOf(current) + SetOf(delta) else SetOf(current) - SetOf(delta)
  }

  lemma SetOfSnoc(topics: seq<string>, i: nat)
    requires i < |topics|
    ensures SetOf(topics[..i + 1]) == SetOf(topics[..i]) + {topics[i]}
  {
  }

  /** updateTopics: a local set, then its members in any order. */
  method UpdateTopics(current: seq<string>, subscribe: bool, delta: seq<string>) returns (topics: seq<string>)
    ensures UpdatesTopics(current, subscribe, delta, topics)
    ensures forall i, j | 0 <= i < j < |topics| :: topics[i] != topics[j]
  {
    var m: set<string> := {};
    for i := 0 to |current|
      invariant m == SetOf(current[..i])
    {
      SetOfSnoc(current, i);
      m := m + {current[i]};
    }
    assert current[..|current|] == current;
    for i := 0 to |delta|
      invariant m == if subscribe then SetOf(current) + SetOf(delta[..i]) else SetOf(current) - SetOf(delta[..i])
    {
      SetOfSnoc(delta, i);
      m := if subscribe then m + {delta[i]} else m - {delta[i]};
    }
    assert delta[..|delta|] == delta;
    topics := ListMembers(m);
  }

  method ListMembers(m: set<string>) returns (topics: seq<string>)
    ensures SetOf(topics) == m
    ensures forall i, j | 0 <= i < j < |topics| :: topics[i] != topics[j]
  {
    topics := [];
    var left := m;
    while left != {}
      invariant left !! SetOf(topics) && left + SetOf(topics) == m
      invariant forall i, j | 0 <= i < j < |topics| :: topics[i] != topics[j]
      decreases |left|
    {
      var t :| t in left;
      left := left - {t};
      assert forall k | 0 <= k < |topics| :: topics[k] in SetOf(topics);
      ghost var before := topics;
      topics := topics + [t];
      assert SetOf(topics) == SetOf(before) + {t};
    }
  }

  /** No goroutine holds the read lock. */
  predicate WriteLockFree(s: State) {
    forall p | p in s.publishers :: s.publishers[p] == Idle
  }

  predicate IsPumping(s: State, c: nat) { c in s.conns && s.conns[c].Pumping? }

  predicate Enabled(s: State, step: Step) {
    match step
    case Connect(c, topics) => c !in s.conns
    case Allocate(c) => c in s.conns && s.conns[c].Connecting?
    case Register(c) => c in s.conns && s.conns[c].Allocated? && WriteLockFree(s)
    case ReadMessage(c, subscribe, delta, topics) =>
      && IsPumping(s, c) && s.conns[c].reader == Reading && delta != []
      && UpdatesTopics(s.conns[c].sub.topics, subscribe, delta, topics)
    case ApplyUpdate(c) => IsPumping(s, c) && s.conns[c].reader.Updating? && WriteLockFree(s)
    case ReaderExit(c) => IsPumping(s, c) && s.conns[c].reader == Reading
    case Receive(c) =>
      && IsPumping(s, c) && !s.conns[c].loopDone
      && s.conns[c].sub.events in s.chans && s.chans[s.conns[c].sub.events].buffer != []
    case LoopExit(c) => IsPumping(s, c) && !s.conns[c].loopDone
    case Unsubscribe(c) => IsPumping(s, c) && s.conns[c].reader == ReaderDone && s.conns[c].loopDone && WriteLockFree(s)
    case PublishBegin(p, e) => p in s.publishers ==> s.publishers[p] == Idle
    case PublishSend(p, id) =>
      && p in s.publishers && s.publishers[p].Sending? && id in s.publishers[p].left && s.publishers[p].left[id] in s.chans
    case PublishEnd(p) => p in s.publishers && s.publishers[p].Sending? && s.publishers[p].left == map[]
  }

  // ----- the effect of each step -----

  function DoAllocate(s: State, c: nat): State
    requires Enabled(s, Allocate(c))
  {
    var id := s.nextId + 1;
    s.(nextId := id, chans := s.chans[id := Channel([], false)],
       conns := s.conns[c := Allocated(Subscriber(id, s.conns[c].topics, id))],
       owner := s.owner[id := c], sent := s.sent[id := []], ever := s.ever[id := {}])
  }

  function DoRegister(s: State, c: nat): State
    requires Enabled(s, Register(c))
  {
    var sub := s.conns[c].sub;
    s.(subs := With(s.subs, sub.id, sub.events, sub.topics), channels := s.channels[sub.id := sub.events],
       conns := s.conns[c := Pumping(sub, SetOf(sub.topics), Reading, false, [])],
       ever := s.ever[sub.id := SetOf(sub.topics)])
  }

  function DoRead(s: State, c: nat, subscribe: bool, delta: seq<string>, topics: seq<string>): State
    requires IsPumping(s, c)
  {
    var conn := s.conns[c];
    var active := if subscribe then conn.active + SetOf(delta) else conn.active - SetOf(delta);
    s.(conns := s.conns[c := conn.(active := active, reader := Updating(topics))])
  }

  function DoUpdate(s: State, c: nat): State
    requires Enabled(s, ApplyUpdate(c))
  {
    var conn := s.conns[c];
    var sub, topics := conn.sub, conn.reader.topics;
    var before := if sub.id in s.ever then s.ever[sub.id] else {};
    s.(subs := With(Without(s.subs, sub.id, sub.topics), sub.id, sub.events, topics),
       conns := s.conns[c := conn.(sub := sub.(topics := topics), reader := Reading)],
       ever := s.ever[sub.id := before + SetOf(topics)])
  }

  function DoReceive(s: State, c: nat): State
    requires Enabled(s, Receive(c))
  {
    var conn := s.conns[c];
    var ch := s.chans[conn.sub.events];
    s.(chans := s.chans[conn.sub.events := ch.(buffer := ch.buffer[1..])],
       conns := s.conns[c := Pumping(conn.sub, conn.active, conn.reader, conn.loopDone, conn.received + [ch.buffer[0]])])
  }

  /** Closing a closed channel panics. */
  function DoUnsubscribe(s: State, c: nat): State
    requires Enabled(s, Unsubscribe(c))
  {
    var sub := s.conns[c].sub;
    var open := sub.id in s.channels && s.channels[sub.id] in s.chans;
    s.(subs := Without(s.subs, sub.id, sub.topics), channels := s.channels - {sub.id},
       conns := s.conns[c := Finished(sub, s.conns[c].received)],
       chans := if open then s.chans[s.channels[sub.id] := s.chans[s.channels[sub.id]].(closed := true)] else s.chans,
       panicked := s.panicked || (open && s.chans[s.channels[sub.id]].closed))
  }

  /** Sending on a closed channel panics; a full buffer drops the event. */
  function DoSend(s: State, p: nat, id: nat): State
    requires Enabled(s, PublishSend(p, id))
  {
    var Sending(e, left) := s.publishers[p];
    var ch := left[id];
    var closed, full := s.chans[ch].closed, |s.chans[ch].buffer| >= BUFFER_SIZE;
    s.(publishers := s.publishers[p := Sending(e, left - {id})],
       panicked := s.panicked || closed,
       chans := if closed then s.chans else s.chans[ch := Offer(s.chans[ch], e)],
       sent := if closed || full then s.sent else s.sent[ch := (if ch in s.sent then s.sent[ch] else []) + [e]])
  }

  function Apply(s: State, step: Step): State
    requires Enabled(s, step)
  {
    match step
    case Connect(c, topics) => s.(conns := s.conns[c := Connecting(topics)])
    case Allocate(c) => DoAllocate(s, c)
    case Register(c) => DoRegister(s, c)
    case ReadMessage(c, subscribe, delta, topics) => DoRead(s, c, subscribe, delta, topics)
    case ApplyUpdate(c) => DoUpdate(s, c)
    case ReaderExit(c) => s.(conns := s.conns[c := s.conns[c].(reader := ReaderDone)])
    case Receive(c) => DoReceive(s, c)
    case LoopExit(c) => s.(conns := s.conns[c := s.conns[c].(loopDone := true)])
    case Unsubscribe(c) => DoUnsubscribe(s, c)
    case PublishBegin(p, e) => s.(publishers := s.publishers[p := Sending(e, SubscribersOf(s.subs, e.topic))])
    case PublishSend(p, id) => DoSend(s, p, id)
    case PublishEnd(p) => s.(publishers := s.publishers[p := Idle])
  }

  // ----- the invariant -----

  /** The parts of a subscriber's state that its connection determines. */
  predicate ConnectionOk(s: State, c: nat)
    requires c in s.conns
  {
    var conn := s.conns[c];
    conn.Connecting? ||
    (var id := conn.sub.id;
     && conn.sub.events == id && id in s.chans && id in s.owner && s.owner[id] == c && id in s.sent && id in s.ever
     && match conn
        case Connecting(_) => true
        case Allocated(_) => id !in s.channels && s.chans[id] == Channel([], false) && s.sent[id] == []
        case Pumping(sub, active, reader, _, received) =>
          && id in s.channels && !s.chans[id].closed
          && active == SetOf(if reader.Updating? then reader.topics else sub.topics)
          && SetOf(sub.topics) <= s.ever[id]
          && received + s.chans[id].buffer == s.sent[id]
        case Finished(_, received) =>
          id !in s.channels && s.chans[id].closed && received + s.chans[id].buffer == s.sent[id])
  }

  ghost predicate ConnectionsOk(s: State) { forall c | c in s.conns :: ConnectionOk(s, c) }

  /** A subscriber id in the registry or in `channels` belongs to a connection that pumps. */
  predicate LiveOk(s: State, id: nat)
    requires id in s.channels
  {
    s.channels[id] == id && id in s.owner && IsPumping(s, s.owner[id]) && s.conns[s.owner[id]].sub.id == id
  }

  ghost predicate ChannelsOk(s: State) { forall id | id in s.channels :: LiveOk(s, id) }

  /** A pumping subscriber is registered under exactly its current topics. */
  ghost predicate RegistryOk(s: State) {
    && NoEmptyTopic(s.subs)
    && (forall t, id, ch :: Entry(s.subs, t, id, ch) <==>
          id in s.channels && ch == id && id in s.owner && IsPumping(s, s.owner[id]) && t in s.conns[s.owner[id]].sub.topics)
  }

  /** What a publisher still has to serve is live and was once registered under the topic. */
  predicate PublisherOk(s: State, p: nat)
    requires p in s.publishers
  {
    s.publishers[p].Sending? ==>
      forall id | id in s.publishers[p].left ::
        s.publishers[p].left[id] == id && id in s.channels && id in s.ever && s.publishers[p].event.topic in s.ever[id]
  }

  ghost predicate PublishersOk(s: State) { forall p | p in s.publishers :: PublisherOk(s, p) }

  predicate LogOk(s: State, ch: nat)
    requires ch in s.chans
  {
    && 0 < ch <= s.nextId && |s.chans[ch].buffer| <= BUFFER_SIZE && ch in s.sent && ch in s.ever
    && forall e | e in s.sent[ch] :: e.topic in s.ever[ch]
  }

  ghost predicate LogsOk(s: State) { forall ch | ch in s.chans :: LogOk(s, ch) }

  ghost predicate Inv(s: State) {
    !s.panicked && ConnectionsOk(s) && ChannelsOk(s) && RegistryOk(s) && PublishersOk(s) && LogsOk(s)
  }

  lemma InitInv()
    ensures Inv(Init())
  {
  }

  lemma AllocateInv(s: State, c: nat)
    requires Inv(s) && Enabled(s, Allocate(c))
    ensures Inv(DoAllocate(s, c))
  {
    var s' := DoAllocate(s, c);
    AllocateConnections(s, c);
    forall id | id in s'.channels ensures LiveOk(s', id) { assert LiveOk(s, id) && ConnectionOk(s, s.owner[id]); }
    forall p | p in s'.publishers ensures PublisherOk(s', p) { assert PublisherOk(s, p); }
    forall ch | ch in s'.chans ensures LogOk(s', ch) { if ch in s.chans { assert LogOk(s, ch); } }
  }

  lemma AllocateConnections(s: State, c: nat)
    requires Inv(s) && Enabled(s, Allocate(c))
    ensures ConnectionsOk(DoAllocate(s, c)) && s.nextId + 1 !in s.chans && s.nextId + 1 !in s.channels
  {
    var s' := DoAllocate(s, c);
    assert forall ch | ch in s.chans :: LogOk(s, ch);
    assert forall id | id in s.channels :: LiveOk(s, id) && ConnectionOk(s, s.owner[id]);
    forall d | d in s'.conns ensures ConnectionOk(s', d) {
      if d != c { assert ConnectionOk(s, d); }
    }
  }

  lemma RegisterInv(s: State, c: nat)
    requires Inv(s) && Enabled(s, Register(c))
    ensures Inv(DoRegister(s, c))
  {
    var s', sub := DoRegister(s, c), s.conns[c].sub;
    assert ConnectionOk(s, c);
    RegisterConnections(s, c);
    RegisterRegistry(s, c);
    forall p | p in s'.publishers ensures PublisherOk(s', p) { assert PublisherOk(s, p); }
    forall ch | ch in s'.chans ensures LogOk(s', ch) { assert LogOk(s, ch); }
  }

  lemma RegisterConnections(s: State, c: nat)
    requires Inv(s) && Enabled(s, Register(c))
    ensures ConnectionsOk(DoRegister(s, c)) && ChannelsOk(DoRegister(s, c))
  {
    var s', sub := DoRegister(s, c), s.conns[c].sub;
    assert ConnectionOk(s, c);
    forall d | d in s'.conns ensures ConnectionOk(s', d) { assert ConnectionOk(s, d); }
    forall id | id in s'.channels ensures LiveOk(s', id) {
      if id != sub.id { assert LiveOk(s, id); }
    }
  }

  lemma RegisterRegistry(s: State, c: nat)
    requires Inv(s) && Enabled(s, Register(c))
    ensures RegistryOk(DoRegister(s, c))
  {
    var s', sub := DoRegister(s, c), s.conns[c].sub;
    assert ConnectionOk(s, c);
    WithEntries(s.subs, sub.id, sub.events, sub.topics);
    forall t, id, ch
      ensures Entry(s'.subs, t, id, ch) <==>
                id in s'.channels && ch == id && id in s'.owner && IsPumping(s', s'.owner[id]) && t in s'.conns[s'.owner[id]].sub.topics
    {
      assert Entry(s.subs, t, id, ch) <==>
               id in s.channels && ch == id && id in s.owner && IsPumping(s, s.owner[id]) && t in s.conns[s.owner[id]].sub.topics;
      if id in s.channels { assert LiveOk(s, id); }
    }
  }

  /** Steps that only change one connection's goroutines leave the registry, the channels and the publishers alone. */
  lemma LocalInv(s: State, c: nat, conn: Connection)
    requires Inv(s) && IsPumping(s, c) && conn.Pumping? && conn.sub == s.conns[c].sub
    requires conn.received == s.conns[c].received
    requires conn.active == SetOf(if conn.reader.Updating? then conn.reader.topics else conn.sub.topics)
    ensures Inv(s.(conns := s.conns[c := conn]))
  {
    var s' := s.(conns := s.conns[c := conn]);
    forall d | d in s'.conns ensures ConnectionOk(s', d) { assert ConnectionOk(s, d); }
    forall id | id in s'.channels ensures LiveOk(s', id) { assert LiveOk(s, id); }
    forall p | p in s'.publishers ensures PublisherOk(s', p) { assert PublisherOk(s, p); }
    forall ch | ch in s'.chans ensures LogOk(s', ch) { assert LogOk(s, ch); }
  }

  lemma ReadInv(s: State, c: nat, subscribe: bool, delta: seq<string>, topics: seq<string>)
    requires Inv(s) && Enabled(s, ReadMessage(c, subscribe, delta, topics))
    ensures Inv(DoRead(s, c, subscribe, delta, topics))
  {
    assert ConnectionOk(s, c);
    LocalInv(s, c, DoRead(s, c, subscribe, delta, topics).conns[c]);
  }

  lemma UpdateInv(s: State, c: nat)
    requires Inv(s) && Enabled(s, ApplyUpdate(c))
    ensures Inv(DoUpdate(s, c))
  {
    var s', sub, topics := DoUpdate(s, c), s.conns[c].sub, s.conns[c].reader.topics;
    assert ConnectionOk(s, c);
    WithoutEntries(s.subs, sub.id, sub.topics);
    WithEntries(Without(s.subs, sub.id, sub.topics), sub.id, sub.events, topics);
    forall d | d in s'.conns ensures ConnectionOk(s', d) { assert ConnectionOk(s, d); }
    forall id | id in s'.channels ensures LiveOk(s', id) { assert LiveOk(s, id); }
    forall ch | ch in s'.chans ensures LogOk(s', ch) { assert LogOk(s, ch); }
    forall p | p in s'.publishers ensures PublisherOk(s', p) { assert PublisherOk(s, p); }
    UpdateRegistry(s, c);
  }

  lemma UpdateRegistry(s: State, c: nat)
    requires Inv(s) && Enabled(s, ApplyUpdate(c))
    ensures RegistryOk(DoUpdate(s, c))
  {
    var s', sub, topics := DoUpdate(s, c), s.conns[c].sub, s.conns[c].reader.topics;
    assert ConnectionOk(s, c);
    WithoutEntries(s.subs, sub.id, sub.topics);
    WithEntries(Without(s.subs, sub.id, sub.topics), sub.id, sub.events, topics);
    forall t, id, ch
      ensures Entry(s'.subs, t, id, ch) <==>
                id in s'.channels && ch == id && id in s'.owner && IsPumping(s', s'.owner[id]) && t in s'.conns[s'.owner[id]].sub.topics
    {
      assert Entry(s.subs, t, id, ch) <==>
               id in s.channels && ch == id && id in s.owner && IsPumping(s, s.owner[id]) && t in s.conns[s.owner[id]].sub.topics;
      if id in s.channels { assert LiveOk(s, id); }
    }
  }

  lemma ReceiveInv(s: State, c: nat)
    requires Inv(s) && Enabled(s, Receive(c))
    ensures Inv(DoReceive(s, c))
  {
    var s', sub := DoReceive(s, c), s.conns[c].sub;
    assert ConnectionOk(s, c) && LogOk(s, sub.id);
    var buffer, received := s.chans[sub.id].buffer, s.conns[c].received;
    assert received + [buffer[0]] + buffer[1..] == received + buffer;
    forall d | d in s'.conns ensures ConnectionOk(s', d) { assert ConnectionOk(s, d); }
    forall id | id in s'.channels ensures LiveOk(s', id) { assert LiveOk(s, id); }
    forall p | p in s'.publishers ensures PublisherOk(s', p) { assert PublisherOk(s, p); }
    forall ch | ch in s'.chans ensures LogOk(s', ch) { assert LogOk(s, ch); }
  }

  lemma UnsubscribeInv(s: State, c: nat)
    requires Inv(s) && Enabled(s, Unsubscribe(c))
    ensures Inv(DoUnsubscribe(s, c))
  {
    var s', sub := DoUnsubscribe(s, c), s.conns[c].sub;
    assert ConnectionOk(s, c) && LiveOk(s, sub.id);
    WithoutEntries(s.subs, sub.id, sub.topics);
    forall d | d in s'.conns ensures ConnectionOk(s', d) { assert ConnectionOk(s, d); }
    forall id | id in s'.channels ensures LiveOk(s', id) { assert LiveOk(s, id); }
    forall ch | ch in s'.chans ensures LogOk(s', ch) { assert LogOk(s, ch); }
    forall t, id, ch
      ensures Entry(s'.subs, t, id, ch) <==>
                id in s'.channels && ch == id && id in s'.owner && IsPumping(s', s'.owner[id]) && t in s'.conns[s'.owner[id]].sub.topics
    {
      assert Entry(s.subs, t, id, ch) <==>
               id in s.channels && ch == id && id in s.owner && IsPumping(s, s.owner[id]) && t in s.conns[s.owner[id]].sub.topics;
      if id in s.channels { assert LiveOk(s, id); }
    }
  }

  lemma PublishBeginInv(s: State, p: nat, e: Event)
    requires Inv(s) && Enabled(s, PublishBegin(p, e))
    ensures Inv(Apply(s, PublishBegin(p, e)))
  {
    var s' := Apply(s, PublishBegin(p, e));
    var left := SubscribersOf(s.subs, e.topic);
    forall id | id in left
      ensures left[id] == id && id in s.channels && id in s.ever && e.topic in s.ever[id]
    {
      assert Entry(s.subs, e.topic, id, left[id]);
      assert LiveOk(s, id) && ConnectionOk(s, s.owner[id]);
    }
    forall q | q in s'.publishers ensures PublisherOk(s', q) { if q != p { assert PublisherOk(s, q); } }
    forall d | d in s'.conns ensures ConnectionOk(s', d) { assert ConnectionOk(s, d); }
    forall id | id in s'.channels ensures LiveOk(s', id) { assert LiveOk(s, id); }
    forall ch | ch in s'.chans ensures LogOk(s', ch) { assert LogOk(s, ch); }
  }

  /** The receiver of a send is live, so its channel is open. */
  lemma SendTarget(s: State, p: nat, id: nat)
    requires Inv(s) && Enabled(s, PublishSend(p, id))
    ensures s.publishers[p].left[id] == id && id in s.channels && id in s.chans && !s.chans[id].closed
    ensures id in s.ever && s.publishers[p].event.topic in s.ever[id] && id in s.sent
    ensures IsPumping(s, s.owner[id]) && s.conns[s.owner[id]].sub.id == id
  {
  }

  lemma SendConnections(s: State, p: nat, id: nat)
    requires Inv(s) && Enabled(s, PublishSend(p, id))
    ensures ConnectionsOk(DoSend(s, p, id))
  {
    var s' := DoSend(s, p, id);
    SendTarget(s, p, id);
    forall d | d in s'.conns ensures ConnectionOk(s', d) {
      assert ConnectionOk(s, d);
      if !s.conns[d].Connecting? && s.conns[d].sub.id != id { assert s'.chans[s.conns[d].sub.id] == s.chans[s.conns[d].sub.id]; }
    }
  }

  lemma SendLogs(s: State, p: nat, id: nat)
    requires Inv(s) && Enabled(s, PublishSend(p, id))
    ensures LogsOk(DoSend(s, p, id)) && !DoSend(s, p, id).panicked
  {
    var s' := DoSend(s, p, id);
    SendTarget(s, p, id);
    forall ch | ch in s'.chans ensures LogOk(s', ch) { assert LogOk(s, ch); }
  }

  lemma SendInv(s: State, p: nat, id: nat)
    requires Inv(s) && Enabled(s, PublishSend(p, id))
    ensures Inv(DoSend(s, p, id))
  {
    var s' := DoSend(s, p, id);
    SendTarget(s, p, id);
    SendConnections(s, p, id);
    SendLogs(s, p, id);
    forall i | i in s'.channels ensures LiveOk(s', i) { assert LiveOk(s, i); }
    forall q | q in s'.publishers ensures PublisherOk(s', q) { assert PublisherOk(s, q); }
  }

  lemma PublishEndInv(s: State, p: nat)
    requires Inv(s) && Enabled(s, PublishEnd(p))
    ensures Inv(Apply(s, PublishEnd(p)))
  {
  }

  lemma ConnectInv(s: State, c: nat, topics: seq<string>)
    requires Inv(s) && Enabled(s, Connect(c, topics))
    ensures Inv(Apply(s, Connect(c, topics)))
  {
    var s' := Apply(s, Connect(c, topics));
    forall d | d in s'.conns ensures ConnectionOk(s', d) { if d != c { assert ConnectionOk(s, d); } }
    forall id | id in s'.channels ensures LiveOk(s', id) { assert LiveOk(s, id); }
    forall p | p in s'.publishers ensures PublisherOk(s', p) { assert PublisherOk(s, p); }
    forall ch | ch in s'.chans ensures LogOk(s', ch) { assert LogOk(s, ch); }
  }

  /** Every step of every goroutine keeps the invariant. */
  lemma StepInv(s: State, step: Step)
    requires Inv(s) && Enabled(s, step)
    ensures Inv(Apply(s, step))
  {
    match step
    case Connect(c, topics) => ConnectInv(s, c, topics);
    case Allocate(c) => AllocateInv(s, c);
    case Register(c) => RegisterInv(s, c);
    case ReadMessage(c, subscribe, delta, topics) => ReadInv(s, c, subscribe, delta, topics);
    case ApplyUpdate(c) => UpdateInv(s, c);
    case ReaderExit(c) =>
      assert ConnectionOk(s, c);
      LocalInv(s, c, s.conns[c].(reader := ReaderDone));
    case Receive(c) => ReceiveInv(s, c);
    case LoopExit(c) =>
      assert ConnectionOk(s, c);
      LocalInv(s, c, s.conns[c].(loopDone := true));
    case Unsubscribe(c) => UnsubscribeInv(s, c);
    case PublishBegin(p, e) => PublishBeginInv(s, p, e);
    case PublishSend(p, id) => SendInv(s, p, id);
    case PublishEnd(p) => PublishEndInv(s, p);
  }

  // ----- publishers never block -----

  /** A publisher can take its next step whatever the receivers do, full buffers included. */
  lemma PublisherCanStep(s: State, p: nat) returns (step: Step)
    requires Inv(s) && p in s.publishers && s.publishers[p].Sending?
    ensures Enabled(s, step)
    ensures step == PublishEnd(p) || exists id :: step == PublishSend(p, id)
    ensures Apply(s, step).publishers.Keys == s.publishers.Keys
    ensures Apply(s, step).publishers[p] == Idle ||
              (Apply(s, step).publishers[p].Sending? && |Apply(s, step).publishers[p].left| < |s.publishers[p].left|)
  {
    var left := s.publishers[p].left;
    if left == map[] {
      step := PublishEnd(p);
    } else {
      var id :| id in left;
      ReceiverIsOpen(s, p, id);
      step := PublishSend(p, id);
      assert (left - {id}).Keys == left.Keys - {id};
    }
    PublishersMove(s, step);
  }

  lemma ReceiverIsOpen(s: State, p: nat, id: nat)
    requires Inv(s) && p in s.publishers && s.publishers[p].Sending? && id in s.publishers[p].left
    ensures Enabled(s, PublishSend(p, id))
  {
    assert PublisherOk(s, p) && LiveOk(s, id) && ConnectionOk(s, s.owner[id]);
  }

  /** The state after a sequence of steps that are enabled one after the other. */
  ghost predicate Leads(s: State, steps: seq<Step>, t: State)
    decreases |steps|
  {
    if steps == [] then t == s else Enabled(s, steps[0]) && Leads(Apply(s, steps[0]), steps[1..], t)
  }

  /** Publish is non-blocking: its own steps alone, one per subscriber and one to return, bring it to its end. */
  lemma {:induction false} PublishTerminates(s: State, p: nat) returns (steps: seq<Step>, t: State)
    requires Inv(s) && p in s.publishers && s.publishers[p].Sending?
    ensures Leads(s, steps, t) && Inv(t) && p in t.publishers && t.publishers[p] == Idle
    ensures AllBy(steps, p)
    ensures |steps| <= |s.publishers[p].left| + 1
    decreases |s.publishers[p].left|
  {
    var step, s' := PublisherSteps(s, p);
    if s'.publishers[p] == Idle {
      steps, t := [], s';
    } else {
      steps, t := PublishTerminates(s', p);
    }
    LeadsCons(s, step, s', steps, t);
    AllByCons(step, steps, p);
    steps := [step] + steps;
  }

  ghost predicate AllBy(steps: seq<Step>, p: nat) {
    forall step | step in steps :: step == PublishEnd(p) || exists id :: step == PublishSend(p, id)
  }

  lemma AllByCons(step: Step, steps: seq<Step>, p: nat)
    requires AllBy(steps, p) && (step == PublishEnd(p) || exists id :: step == PublishSend(p, id))
    ensures AllBy([step] + steps, p)
  {
  }

  lemma PublisherSteps(s: State, p: nat) returns (step: Step, t: State)
    requires Inv(s) && p in s.publishers && s.publishers[p].Sending?
    ensures Enabled(s, step) && t == Apply(s, step) && Inv(t) && p in t.publishers
    ensures step == PublishEnd(p) || exists id :: step == PublishSend(p, id)
    ensures t.publishers[p] == Idle || (t.publishers[p].Sending? && |t.publishers[p].left| < |s.publishers[p].left|)
  {
    step := PublisherCanStep(s, p);
    StepInv(s, step);
    t := Apply(s, step);
  }

  lemma LeadsCons(s: State, step: Step, t: State, steps: seq<Step>, u: State)
    requires Enabled(s, step) && t == Apply(s, step) && Leads(t, steps, u)
    ensures Leads(s, [step] + steps, u)
  {
    assert ([step] + steps)[1..] == steps;
  }

  // ----- whole runs -----

  /** A run: enabled steps from the empty broker on, in any interleaving. */
  ghost predicate IsRun(steps: seq<Step>, states: seq<State>) {
    && |states| == |steps| + 1 && states[0] == Init()
    && forall i | 0 <= i < |steps| :: Enabled(states[i], steps[i]) && states[i + 1] == Apply(states[i], steps[i])
  }

  lemma {:induction false} RunInv(steps: seq<Step>, states: seq<State>, i: nat)
    requires IsRun(steps, states) && i < |states|
    ensures Inv(states[i])
  {
    if i == 0 {
      InitInv();
    } else {
      RunInv(steps, states, i - 1);
      StepInv(states[i - 1], steps[i - 1]);
    }
  }

  /** A pumping subscriber is registered under exactly its current topics, with its own open channel. */
  ghost predicate RegisteredExactly(s: State, c: nat)
    requires IsPumping(s, c)
  {
    var sub := s.conns[c].sub;
    && sub.events in s.chans && !s.chans[sub.events].closed
    && (forall t :: Entry(s.subs, t, sub.id, sub.events) <==> t in sub.topics)
    && (s.conns[c].reader.Updating? || s.conns[c].active == SetOf(sub.topics))
  }

  /** A finished connection left no entry behind, and its channel is closed. */
  ghost predicate Gone(s: State, c: nat)
    requires c in s.conns && s.conns[c].Finished?
  {
    var sub := s.conns[c].sub;
    && (forall t, ch :: !Entry(s.subs, t, sub.id, ch))
    && sub.events in s.chans && s.chans[sub.events].closed
  }

  /** What a connection received is a prefix of what was put on its channel, all for topics it once had. */
  ghost predicate DeliveredInOrder(s: State, c: nat)
    requires c in s.conns && (s.conns[c].Pumping? || s.conns[c].Finished?)
  {
    var id := s.conns[c].sub.id;
    && id in s.sent && id in s.ever
    && s.conns[c].received <= s.sent[id]
    && forall e | e in s.sent[id] :: e.topic in s.ever[id]
  }

  /** What the broker and the pump promise: no send on a closed channel and no double close, to begin with. */
  ghost predicate Safe(s: State) {
    && !s.panicked
    && NoEmptyTopic(s.subs)
    && (forall ch | ch in s.chans :: |s.chans[ch].buffer| <= BUFFER_SIZE)
    && (forall c | IsPumping(s, c) :: RegisteredExactly(s, c))
    && (forall c | c in s.conns && s.conns[c].Finished? :: Gone(s, c))
    && (forall c | c in s.conns && (s.conns[c].Pumping? || s.conns[c].Finished?) :: DeliveredInOrder(s, c))
  }

  lemma InvIsSafe(s: State)
    requires Inv(s)
    ensures Safe(s)
  {
    forall ch | ch in s.chans ensures |s.chans[ch].buffer| <= BUFFER_SIZE { assert LogOk(s, ch); }
    forall c | IsPumping(s, c) ensures RegisteredExactly(s, c) { assert ConnectionOk(s, c); }
    forall c | c in s.conns && s.conns[c].Finished? ensures Gone(s, c) { assert ConnectionOk(s, c); }
    forall c | c in s.conns && (s.conns[c].Pumping? || s.conns[c].Finished?) ensures DeliveredInOrder(s, c) {
      assert ConnectionOk(s, c) && LogOk(s, s.conns[c].sub.id);
    }
  }

  /** Safety of every state of every interleaving. */
  lemma RunsAreSafe(steps: seq<Step>, states: seq<State>, i: nat)
    requires IsRun(steps, states) && i < |states|
    ensures Safe(states[i])
  {
    RunInv(steps, states, i);
    InvIsSafe(states[i]);
  }

  // ----- delivery -----

  /** A subscriber is registered under a topic. */
  ghost predicate IsSubscribed(s: State, topic: string, id: nat) { exists ch :: Entry(s.subs, topic, id, ch) }

  /** The publisher starts at step `b` and is still at work before step `j`. */
  ghost predicate IsPublishing(steps: seq<Step>, p: nat, e: Event, b: nat, j: nat) {
    && b < j <= |steps| && steps[b] == PublishBegin(p, e)
    && forall k | b < k < j :: steps[k] != PublishEnd(p)
  }

  ghost predicate SentBetween(steps: seq<Step>, p: nat, id: nat, b: nat, j: nat)
    requires j <= |steps|
  {
    exists k | b < k < j :: steps[k] == PublishSend(p, id)
  }

  /** What a step does to the publishers. */
  ghost function PublishersAfter(s: State, step: Step): map<nat, Publisher>
    requires Enabled(s, step)
  {
    match step
    case PublishBegin(p, e) => s.publishers[p := Sending(e, SubscribersOf(s.subs, e.topic))]
    case PublishSend(p, id) => s.publishers[p := Sending(s.publishers[p].event, s.publishers[p].left - {id})]
    case PublishEnd(p) => s.publishers[p := Idle]
    case _ => s.publishers
  }

  predicate IsStart(step: Step) { step.Connect? || step.Allocate? || step.Register? || step.ReadMessage? }

  predicate IsPublish(step: Step) { step.PublishBegin? || step.PublishSend? || step.PublishEnd? }

  lemma StartLeavesPublishers(s: State, step: Step)
    requires Enabled(s, step) && IsStart(step)
    ensures Apply(s, step).publishers == s.publishers
  {
  }

  lemma RestLeavesPublishers(s: State, step: Step)
    requires Enabled(s, step) && !IsStart(step) && !IsPublish(step)
    ensures Apply(s, step).publishers == s.publishers
  {
    if step.Unsubscribe? { UnsubscribeFrame(s, step.c); }
  }

  lemma UnsubscribeFrame(s: State, c: nat)
    requires Enabled(s, Unsubscribe(c))
    ensures DoUnsubscribe(s, c).publishers == s.publishers
    ensures DoUnsubscribe(s, c).conns == s.conns[c := Finished(s.conns[c].sub, s.conns[c].received)]
  {
  }

  lemma PublishersMove(s: State, step: Step)
    requires Enabled(s, step)
    ensures Apply(s, step).publishers == PublishersAfter(s, step)
  {
    if IsStart(step) {
      StartLeavesPublishers(s, step);
    } else if !IsPublish(step) {
      RestLeavesPublishers(s, step);
    }
  }

  lemma PublisherStep(s: State, step: Step, p: nat)
    requires Enabled(s, step) && p in s.publishers && s.publishers[p].Sending? && step != PublishEnd(p)
    ensures var after := PublishersAfter(s, step);
            && p in after && after[p].Sending? && after[p].event == s.publishers[p].event
            && forall id :: id in after[p].left <==> id in s.publishers[p].left && step != PublishSend(p, id)
  {
  }

  /** What a publisher still has to serve: those subscribed when it began and not served since. */
  lemma {:induction false} StillToServe(steps: seq<Step>, states: seq<State>, p: nat, e: Event, b: nat, j: nat)
    requires IsRun(steps, states) && IsPublishing(steps, p, e, b, j)
    ensures p in states[j].publishers && states[j].publishers[p].Sending? && states[j].publishers[p].event == e
    ensures forall id :: id in states[j].publishers[p].left <==>
              IsSubscribed(states[b], e.topic, id) && !SentBetween(steps, p, id, b, j)
    decreases j
  {
    if j == b + 1 {
      forall id ensures id in SubscribersOf(states[b].subs, e.topic) <==> IsSubscribed(states[b], e.topic, id) {
        if id in SubscribersOf(states[b].subs, e.topic) {
          assert Entry(states[b].subs, e.topic, id, SubscribersOf(states[b].subs, e.topic)[id]);
        }
      }
    } else {
      StillToServe(steps, states, p, e, b, j - 1);
      PublishersMove(states[j - 1], steps[j - 1]);
      PublisherStep(states[j - 1], steps[j - 1], p);
      forall id ensures SentBetween(steps, p, id, b, j) <==> SentBetween(steps, p, id, b, j - 1) || steps[j - 1] == PublishSend(p, id) {}
    }
  }

  /** The event goes onto the subscriber's channel, at its end, unless its buffer is full; nothing else is sent. */
  ghost predicate Delivers(s: State, t: State, id: nat, e: Event) {
    && id in s.chans && id in s.sent
    && if |s.chans[id].buffer| < BUFFER_SIZE then
         t.sent == s.sent[id := s.sent[id] + [e]] && t.chans == s.chans[id := s.chans[id].(buffer := s.chans[id].buffer + [e])]
       else t.sent == s.sent && t.chans == s.chans
  }

  lemma SendDelivers(s: State, p: nat, id: nat)
    requires Inv(s) && Enabled(s, PublishSend(p, id))
    ensures Delivers(s, Apply(s, PublishSend(p, id)), id, s.publishers[p].event)
  {
    SendTarget(s, p, id);
    assert s.chans[id := s.chans[id]] == s.chans;
  }

  /** Nothing but a publisher's send is ever sent. */
  lemma OnlySendsSend(s: State, step: Step, ch: nat)
    requires Inv(s) && Enabled(s, step) && !step.PublishSend? && ch in s.sent && ch in s.chans
    ensures ch in Apply(s, step).sent && Apply(s, step).sent[ch] == s.sent[ch]
  {
    assert LogOk(s, ch);
  }

  /**
   * Delivery: between the begin and the end of a publication, in any interleaving, exactly the subscribers registered under
   * the topic at its begin are served, each exactly once, and being served means to get the event unless the buffer is full.
   */
  lemma PublishReachesSubscribers(steps: seq<Step>, states: seq<State>, p: nat, e: Event, b: nat, n: nat, id: nat)
    requires IsRun(steps, states) && n < |steps| && IsPublishing(steps, p, e, b, n) && steps[n] == PublishEnd(p)
    ensures IsSubscribed(states[b], e.topic, id) <==> SentBetween(steps, p, id, b, n)
    ensures forall j, k | b < j < n && b < k < n && steps[j] == PublishSend(p, id) && steps[k] == PublishSend(p, id) :: j == k
    ensures forall k | b < k < n && steps[k] == PublishSend(p, id) :: Delivers(states[k], states[k + 1], id, e)
  {
    StillToServe(steps, states, p, e, b, n);
    assert id !in states[n].publishers[p].left;
    forall k | b < k < n && steps[k] == PublishSend(p, id)
      ensures IsSubscribed(states[b], e.topic, id) && !SentBetween(steps, p, id, b, k)
      ensures Delivers(states[k], states[k + 1], id, e)
    {
      StillToServe(steps, states, p, e, b, k);
      RunInv(steps, states, k);
      SendDelivers(states[k], p, id);
    }
  }

  // ----- requests -----

  /** The topics a client has asked for. */
  ghost function Wanted(steps: seq<Step>, c: nat): set<string> {
    if steps == [] then {} else WantedAfter(Wanted(steps[..|steps| - 1], c), steps[|steps| - 1], c)
  }

  ghost function WantedAfter(before: set<string>, step: Step, c: nat): set<string> {
    if step.Connect? && step.c == c then SetOf(step.topics)
    else if step.ReadMessage? && step.c == c then if step.subscribe then before + SetOf(step.delta) else before - SetOf(step.delta)
    else before
  }

  /** What a connection holds for its client. */
  ghost predicate Follows(conn: Connection, wanted: set<string>) {
    match conn
    case Connecting(topics) => SetOf(topics) == wanted
    case Allocated(sub) => SetOf(sub.topics) == wanted
    case Pumping(_, active, _, _, _) => active == wanted
    case Finished(_, _) => true
  }

  lemma PublishFollows(s: State, step: Step)
    requires Enabled(s, step) && IsPublish(step)
    ensures Apply(s, step).conns == s.conns
  {
    if step.PublishSend? { SendLeavesConnections(s, step.p, step.id); }
  }

  lemma SendLeavesConnections(s: State, p: nat, id: nat)
    requires Enabled(s, PublishSend(p, id))
    ensures DoSend(s, p, id).conns == s.conns
  {
  }

  lemma StartFollows(s: State, step: Step, c: nat, before: set<string>)
    requires Enabled(s, step) && IsStart(step) && (c in s.conns ==> Follows(s.conns[c], before))
    ensures c in Apply(s, step).conns ==> Follows(Apply(s, step).conns[c], WantedAfter(before, step, c))
  {
  }

  lemma UnsubscribeFollows(s: State, d: nat, c: nat, before: set<string>)
    requires Enabled(s, Unsubscribe(d)) && (c in s.conns ==> Follows(s.conns[c], before))
    ensures c in DoUnsubscribe(s, d).conns ==> Follows(DoUnsubscribe(s, d).conns[c], before)
  {
    UnsubscribeFrame(s, d);
  }

  lemma RestFollows(s: State, step: Step, c: nat, before: set<string>)
    requires Enabled(s, step) && !IsStart(step) && !IsPublish(step) && !step.Unsubscribe? && (c in s.conns ==> Follows(s.conns[c], before))
    ensures c in Apply(s, step).conns ==> Follows(Apply(s, step).conns[c], before)
  {
  }

  lemma StepFollows(s: State, step: Step, c: nat, before: set<string>)
    requires Enabled(s, step) && (c in s.conns ==> Follows(s.conns[c], before))
    ensures c in Apply(s, step).conns ==> Follows(Apply(s, step).conns[c], WantedAfter(before, step, c))
  {
    if IsPublish(step) {
      PublishFollows(s, step);
    } else if IsStart(step) {
      StartFollows(s, step, c, before);
    } else if step.Unsubscribe? {
      UnsubscribeFollows(s, step.c, c, before);
    } else {
      RestFollows(s, step, c, before);
    }
  }

  lemma {:induction false} RunFollows(steps: seq<Step>, states: seq<State>, n: nat, c: nat)
    requires IsRun(steps, states) && n < |states|
    ensures c in states[n].conns ==> Follows(states[n].conns[c], Wanted(steps[..n], c))
  {
    if n > 0 {
      RunFollows(steps, states, n - 1, c);
      assert steps[..n][..n - 1] == steps[..n - 1];
      StepFollows(states[n - 1], steps[n - 1], c, Wanted(steps[..n - 1], c));
    }
  }

  /** In every run a client that has no message under way is registered under exactly the topics it asked for. */
  lemma RegisteredAsAsked(steps: seq<Step>, states: seq<State>, n: nat, c: nat)
    requires IsRun(steps, states) && n < |states| && IsPumping(states[n], c) && !states[n].conns[c].reader.Updating?
    ensures forall t :: IsSubscribed(states[n], t, states[n].conns[c].sub.id) <==> t in Wanted(steps[..n], c)
  {
    RunFollows(steps, states, n, c);
    RunInv(steps, states, n);
    RunsAreSafe(steps, states, n);
    var sub := states[n].conns[c].sub;
    assert RegisteredExactly(states[n], c);
    forall t ensures IsSubscribed(states[n], t, sub.id) <==> t in Wanted(steps[..n], c) {
      if ch :| Entry(states[n].subs, t, sub.id, ch) { assert ConnectionOk(states[n], c); }
      assert Entry(states[n].subs, t, sub.id, sub.events) <==> t in sub.topics;
      assert t in sub.topics <==> t in SetOf(sub.topics);
    }
  }
}
