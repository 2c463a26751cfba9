/**
 A runtime session's subscriptions and its publish, subscribe and close operations.  Each object
 carries the execution of the step machine in EventFanout.dfy that its calls amount to.
 */
module EventSession {
  import opened Basics
  import opened EventFanout

  datatype SessionError = ErrClosed

  /** The steps are an execution from the initial state that ends in `s`. */
  ghost predicate Reaches(steps: seq<Step>, s: State) {
    Legal(INITIAL, steps) && Run(INITIAL, steps) == s
  }

  lemma {:induction false} RunOneMore(s: State, steps: seq<Step>, step: Step)
    requires Legal(s, steps) && Enabled(Run(s, steps), step)
    ensures Legal(s, steps + [step]) && Run(s, steps + [step]) == Next(Run(s, steps), step)
    decreases |steps|
  {
    var all := steps + [step];
    if steps == [] {
      assert all == [step] && all[1..] == [];
    } else {
      assert all[0] == steps[0] && all[1..] == steps[1..] + [step];
      RunOneMore(Next(s, steps[0]), steps[1..], step);
    }
  }

  lemma ReachesNext(steps: seq<Step>, s: State, step: Step)
    requires Reaches(steps, s) && Enabled(s, step)
    ensures Reaches(steps + [step], Next(s, step))
  {
    RunOneMore(INITIAL, steps, step);
  }

  lemma LiveIsOpen(steps: seq<Step>, s: State)
    requires Reaches(steps, s)
    ensures forall id :: id in s.live ==> id in s.channels && !s.channels[id].closed
  {
    RunKeepsInv(INITIAL, steps);
    forall id | id in s.live ensures id in s.channels && !s.channels[id].closed { assert SubscriberInv(s, id); }
  }

  /** Some call of close has come to its end. */
  ghost predicate Completed(closers: seq<Closer>) {
    exists k :: 0 <= k < |closers| && closers[k] == ClientClosed
  }

  lemma CompletedIsClosed(steps: seq<Step>, s: State)
    requires Reaches(steps, s)
    ensures Completed(s.closers) ==> s.flag && s.clientCloses == 1 && s.live == {}
    ensures !s.flag ==> s.clientCloses == 0
  {
    RunKeepsInv(INITIAL, steps);
    if Completed(s.closers) {
      var k :| 0 <= k < |s.closers| && s.closers[k] == ClientClosed;
      assert Effective(s.closers[k]) && PastSubscribers(s.closers[k]);
    }
  }

  lemma ServedIsLive(steps: seq<Step>, s: State, id: nat)
    requires Reaches(steps, s) && s.publishing.Some? && s.publishing.value.current == Some(id)
    ensures id in s.live
    ensures id in s.channels ==> 1 <= s.channels[id].capacity
    ensures s.publishing.value.phase == MadeRoom && id in s.channels ==>
      |s.channels[id].buffer| < s.channels[id].capacity
  {
    RunKeepsInv(INITIAL, steps);
    if id in s.channels { assert SubscriberInv(s, id); }
  }

  lemma NumberIsNew(steps: seq<Step>, s: State)
    requires Reaches(steps, s)
    ensures s.nextID + 1 !in s.channels
  {
    RunKeepsInv(INITIAL, steps);
    NumbersInUse(s);
  }

  /** Where the subscribers stand between publishes. */
  lemma Settled(steps: seq<Step>, s: State)
    requires Reaches(steps, s) && s.publishing.None?
    ensures forall id :: id in s.live ==>
      && id in s.channels && s.channels[id].offered == s.Sequence() && NewestKept(s.channels[id])
      && s.channels[id].joined <= s.Sequence()
  {
    RunKeepsInv(INITIAL, steps);
    forall id | id in s.live
      ensures id in s.channels && s.channels[id].offered == s.Sequence() && NewestKept(s.channels[id])
      ensures s.channels[id].joined <= s.Sequence()
    {
      assert SubscriberInv(s, id);
    }
  }

  /** The same channels, made at the same points of the session. */
  ghost predicate SameSubscriptions(a: map<nat, Channel>, b: map<nat, Channel>) {
    a.Keys == b.Keys && forall id :: id in a ==> a[id].joined == b[id].joined && a[id].capacity == b[id].capacity
  }

  /** A subscriber with room has the event added; one without loses its oldest for it. */
  ghost predicate Given(was: Channel, now: Channel, e: Event) {
    && (if |was.buffer| < was.capacity
        then now.buffer == was.buffer + [e] && now.dropped == was.dropped
        else was.buffer != [] && now.buffer == was.buffer[1..] + [e] && now.dropped == was.dropped + 1)
    && now.offered == e.sequence && now.received == was.received && now.closed == was.closed
    && now.capacity == was.capacity && now.joined == was.joined
  }

  /** No consumer receives at any of the three points. */
  predicate Nobody(consumers: (seq<nat>, seq<nat>, seq<nat>)) {
    consumers.0 == [] && consumers.1 == [] && consumers.2 == []
  }

  /** Without consumers, the subscribers that have been served got the event and nothing else changed. */
  ghost predicate ServedOnly(was: map<nat, Channel>, now: map<nat, Channel>, served: set<nat>, e: Event) {
    && now.Keys == was.Keys
    && (forall id :: id in was && id in served ==> Given(was[id], now[id], e))
    && (forall id :: id in was && id !in served ==> now[id] == was[id])
  }

  lemma OneMoreServed(was: map<nat, Channel>, mid: map<nat, Channel>, now: map<nat, Channel>, all: set<nat>,
                      todo: set<nat>, id: nat, e: Event)
    requires ServedOnly(was, mid, all - todo, e) && ServedOnly(mid, now, {id}, e) && id in todo && id in all
    ensures ServedOnly(was, now, all - (todo - {id}), e)
  {
  }

  class Session {
    ghost var history: seq<Step>
    ghost var published: seq<Payload>
    var sequence: nat
    var nextSubscriberID: nat
    var subscribers: set<nat>
    var channels: map<nat, Channel>      // every channel ever made; subscribers are the open ones
    var subscriberDropped: nat
    var closed: bool
    var closers: seq<Closer>             // how far each call of Close has come
    var clientCloses: nat

    /** The machine state, with a publish at the given point or none. */
    ghost function At(p: Option<Publishing>): State
      reads this
    {
      State(published, nextSubscriberID, subscribers, channels, subscriberDropped, p,
            closed, closers, clientCloses, false)
    }

    ghost predicate Valid()
      reads this
    {
      Reaches(history, At(None)) && sequence == |published|
    }

    constructor ()
      ensures Valid() && At(None) == INITIAL
    {
      history := [];
      published, sequence, nextSubscriberID, subscribers := [], 0, 0, {};
      channels, subscriberDropped, closed, closers, clientCloses := map[], 0, false, [], 0;
    }

    /** A new subscription, identified by its number; a buffer below one means the default size. */
    method Subscribe(buffer: int) returns (r: Result<nat, SessionError>)
      requires Valid()
      modifies this
      ensures Valid() && history == old(history) + [Step.Subscribe(buffer)]
      ensures if old(closed) then r == Err(ErrClosed) && At(None) == old(At(None))
              else
                && r.Ok? && r.value !in old(channels) && subscribers == old(subscribers) + {r.value}
                && channels == old(channels)[r.value := NewChannel(buffer, sequence)]
                && channels[r.value].capacity == (if buffer < 1 then 100 else buffer)
                && channels[r.value].buffer == [] && !channels[r.value].closed && channels[r.value].joined == sequence
                && sequence == old(sequence)
    {
      ReachesNext(history, At(None), Step.Subscribe(buffer));
      NumberIsNew(history, At(None));
      history := history + [Step.Subscribe(buffer)];
      if closed { return Err(ErrClosed); }
      var size := if buffer < 1 then DEFAULT_SUBSCRIBER_BUFFER else buffer;
      nextSubscriberID := nextSubscriberID + 1;
      subscribers := subscribers + {nextSubscriberID};
      channels := channels[nextSubscriberID := Channel([], size, false, 0, sequence, sequence, [])];
      r := Ok(nextSubscriberID);
    }

    /** Consumers take events while a publish stands at `p`. */
    method Consume(ids: seq<nat>, ghost p: Publishing)
      requires Reaches(history, At(Some(p)))
      modifies this`channels, this`history
      ensures Reaches(history, At(Some(p))) && old(history) <= history
      ensures SameSubscriptions(old(channels), channels)
      ensures ids == [] ==> channels == old(channels)
    {
      for i := 0 to |ids|
        invariant Reaches(history, At(Some(p))) && old(history) <= history
        invariant SameSubscriptions(old(channels), channels)
        invariant ids == [] ==> channels == old(channels)
      {
        if ids[i] in channels && channels[ids[i]].buffer != [] {
          ReachesNext(history, At(Some(p)), Receive(ids[i]));
          history := history + [Receive(ids[i])];
          var c := channels[ids[i]];
          channels := channels[ids[i] := c.(buffer := c.buffer[1..], received := c.received + [c.buffer[0]])];
        }
      }
    }

    /** The first attempt to send; `sent` tells whether there was room. */
    method TrySendTo(id: nat, p: Publishing, consumers: seq<nat>) returns (sent: bool)
      requires p.current == Some(id) && p.phase == Trying && id in channels
      requires Reaches(history, At(Some(p)))
      modifies this`channels, this`history
      ensures Reaches(history, At(Some(if sent then p.(current := None) else p.(phase := Full))))
      ensures old(history) <= history
      ensures SameSubscriptions(old(channels), channels)
      ensures consumers == [] ==>
        if |old(channels)[id].buffer| < old(channels)[id].capacity
        then sent && ServedOnly(old(channels), channels, {id}, p.event)
        else !sent && channels == old(channels) && channels[id].buffer != []
    {
      Consume(consumers, p);
      ServedIsLive(history, At(Some(p)), id);
      LiveIsOpen(history, At(Some(p)));
      ReachesNext(history, At(Some(p)), TrySend);
      history := history + [TrySend];
      sent := |channels[id].buffer| < channels[id].capacity;
      if sent {
        var c := channels[id];
        channels := channels[id := c.(buffer := c.buffer + [p.event], offered := p.event.sequence)];
      }
    }

    /** One attempt to take the oldest buffered event, which a consumer may have taken already. */
    method DropOldestOf(id: nat, p: Publishing, consumers: seq<nat>)
      requires p.current == Some(id) && p.phase == Full && id in channels
      requires Reaches(history, At(Some(p)))
      modifies this`channels, this`subscriberDropped, this`history
      ensures Reaches(history, At(Some(p.(phase := MadeRoom)))) && old(history) <= history
      ensures SameSubscriptions(old(channels), channels)
      ensures consumers == [] && old(channels)[id].buffer != [] ==>
        var c := old(channels)[id];
        channels == old(channels)[id := c.(buffer := c.buffer[1..], dropped := c.dropped + 1)]
    {
      Consume(consumers, p);
      ReachesNext(history, At(Some(p)), DropOldest);
      history := history + [DropOldest];
      ghost var was := channels;
      if channels[id].buffer != [] {
        var c := channels[id];
        channels := channels[id := c.(buffer := c.buffer[1..], dropped := c.dropped + 1)];
        subscriberDropped := subscriberDropped + 1;
      }
      assert channels == was[id := WithoutOldest(was[id])];
    }

    /** The second attempt to send; there is always room, since only a publish adds events. */
    method SendOrDrop(id: nat, p: Publishing, consumers: seq<nat>)
      requires p.current == Some(id) && p.phase == MadeRoom && id in channels
      requires Reaches(history, At(Some(p)))
      modifies this`channels, this`subscriberDropped, this`history
      ensures Reaches(history, At(Some(p.(current := None)))) && old(history) <= history
      ensures SameSubscriptions(old(channels), channels)
      ensures subscriberDropped == old(subscriberDropped)
      ensures consumers == [] ==>
        var c := old(channels)[id];
        channels == old(channels)[id := c.(buffer := c.buffer + [p.event], offered := p.event.sequence)]
    {
      Consume(consumers, p);
      ServedIsLive(history, At(Some(p)), id);
      LiveIsOpen(history, At(Some(p)));
      ReachesNext(history, At(Some(p)), TrySendAgain);
      history := history + [TrySendAgain];
      if |channels[id].buffer| < channels[id].capacity {
        var c := channels[id];
        channels := channels[id := c.(buffer := c.buffer + [p.event], offered := p.event.sequence)];
      } else {
        assert false;
      }
    }

    /**
     Offers an event to one subscriber: a send if there is room, else one attempt to drop the oldest
     buffered event and one more send.  `consumers` tells who receives before each of the three steps.
     */
    method Offer(id: nat, event: Event, consumers: (seq<nat>, seq<nat>, seq<nat>), todo: set<nat>)
      returns (ghost phase: Phase)
      requires id in channels && Reaches(history, At(Some(Publishing(event, todo, Some(id), Trying))))
      modifies this`channels, this`subscriberDropped, this`history
      ensures Reaches(history, At(Some(Publishing(event, todo, None, phase)))) && old(history) <= history
      ensures SameSubscriptions(old(channels), channels)
      ensures Nobody(consumers) ==> ServedOnly(old(channels), channels, {id}, event)
    {
      var sent := TrySendTo(id, Publishing(event, todo, Some(id), Trying), consumers.0);
      phase := Trying;
      if !sent {
        DropOldestOf(id, Publishing(event, todo, Some(id), Full), consumers.1);
        SendOrDrop(id, Publishing(event, todo, Some(id), MadeRoom), consumers.2);
        phase := MadeRoom;
      }
    }

    /**
     Publishes to every subscriber in some order, with the given consumers receiving in between.
     Afterwards each has been offered the event and has it buffered or received.
     */
    method Publish(payload: Payload, consumers: nat -> (seq<nat>, seq<nat>, seq<nat>))
      requires Valid()
      modifies this
      ensures Valid() && old(history) <= history
      ensures if old(closed) then At(None) == old(At(None))
              else
                && published == old(published) + [payload] && subscribers == old(subscribers)
                && SameSubscriptions(old(channels), channels)
      ensures !old(closed) ==> forall id :: id in subscribers ==>
        id in channels && channels[id].offered == sequence && channels[id].joined < sequence && NewestKept(channels[id])
      ensures !old(closed) && (forall n :: Nobody(consumers(n))) ==>
        && subscribers <= old(channels).Keys
        && ServedOnly(old(channels), channels, subscribers, Event(old(sequence) + 1, payload))
    {
      if closed { return; }
      Settled(history, At(None));
      ReachesNext(history, At(None), Begin(payload));
      history := history + [Begin(payload)];
      sequence := sequence + 1;
      published := published + [payload];
      var event := Event(sequence, payload);
      DeliverToAll(event, consumers);
      Settled(history, At(None));
    }

    /** One round of the range over the subscribers. */
    method Serve(id: nat, event: Event, consumers: (seq<nat>, seq<nat>, seq<nat>), todo: set<nat>, ghost phase: Phase)
      returns (ghost next: Phase)
      requires id in todo && id in channels && Reaches(history, At(Some(Publishing(event, todo, None, phase))))
      modifies this`channels, this`subscriberDropped, this`history
      ensures Reaches(history, At(Some(Publishing(event, todo - {id}, None, next)))) && old(history) <= history
      ensures SameSubscriptions(old(channels), channels)
      ensures Nobody(consumers) ==> ServedOnly(old(channels), channels, {id}, event)
    {
      ReachesNext(history, At(Some(Publishing(event, todo, None, phase))), Pick(id));
      history := history + [Pick(id)];
      next := Offer(id, event, consumers, todo - {id});
    }

    /** The range over the subscribers, once the event has been numbered. */
    method DeliverToAll(event: Event, consumers: nat -> (seq<nat>, seq<nat>, seq<nat>))
      requires Reaches(history, At(Some(Publishing(event, subscribers, None, Trying))))
      modifies this`channels, this`subscriberDropped, this`history
      ensures Reaches(history, At(None)) && old(history) <= history
      ensures SameSubscriptions(old(channels), channels)
      ensures (forall n :: Nobody(consumers(n))) ==> ServedOnly(old(channels), channels, subscribers, event)
    {
      LiveIsOpen(history, At(Some(Publishing(event, subscribers, None, Trying))));
      var todo, turn := subscribers, 0;
      ghost var phase := Trying;
      ghost var quiet := forall n :: Nobody(consumers(n));
      while todo != {}
        invariant todo <= subscribers <= channels.Keys
        invariant SameSubscriptions(old(channels), channels)
        invariant Reaches(history, At(Some(Publishing(event, todo, None, phase)))) && old(history) <= history
        invariant quiet ==> ServedOnly(old(channels), channels, subscribers - todo, event)
      {
        var id :| id in todo;
        ghost var before := channels;
        phase := Serve(id, event, consumers(turn), todo, phase);
        if quiet { OneMoreServed(old(channels), before, channels, subscribers, todo, id, event); }
        todo, turn := todo - {id}, turn + 1;
      }
      ReachesNext(history, At(Some(Publishing(event, todo, None, phase))), Finish);
      history := history + [Finish];
    }

    /** A subscription's cancel; only the first one for a live subscription changes anything. */
    method RemoveSubscriber(id: nat)
      requires Valid()
      modifies this`subscribers, this`channels, this`history
      ensures Valid() && history == old(history) + [Remove(id)]
      ensures subscribers == old(subscribers) - {id}
      ensures channels == if id in old(subscribers) && id in old(channels)
                          then old(channels)[id := old(channels)[id].(closed := true)] else old(channels)
    {
      ReachesNext(history, At(None), Remove(id));
      LiveIsOpen(history, At(None));
      history := history + [Remove(id)];
      if id in subscribers {
        subscribers := subscribers - {id};
        channels := channels[id := channels[id].(closed := true)];
      }
    }

    /** Closes every subscriber's channel, in whatever order the map is ranged over. */
    method CloseChannels()
      requires subscribers <= channels.Keys
      modifies this`subscribers, this`channels
      ensures subscribers == {} && channels.Keys == old(channels).Keys
      ensures forall id :: id in channels ==>
        (channels[id] == if id in old(subscribers) then old(channels)[id].(closed := true) else old(channels)[id])
    {
      while subscribers != {}
        invariant subscribers <= old(subscribers) <= channels.Keys && channels.Keys == old(channels).Keys
        invariant forall id :: id in channels ==>
          (channels[id] == if id in old(subscribers) && id !in subscribers
                           then old(channels)[id].(closed := true) else old(channels)[id])
        decreases |subscribers|
      {
        var id :| id in subscribers;
        subscribers := subscribers - {id};
        channels := channels[id := channels[id].(closed := true)];
      }
    }

    method CloseAllSubscribers(closer: nat)
      requires Valid() && closer < |closers| && closers[closer] == Closer.Unsubscribed
      modifies this`subscribers, this`channels, this`closers, this`history
      ensures Valid() && history == old(history) + [CloseSubscribers(closer)] && subscribers == {}
      ensures closers == old(closers)[closer := SubscribersClosed]
      ensures forall id :: id in old(subscribers) && id in channels ==> channels[id].closed
    {
      ReachesNext(history, At(None), CloseSubscribers(closer));
      LiveIsOpen(history, At(None));
      ghost var next := Next(At(None), CloseSubscribers(closer));
      CloseChannels();
      closers := closers[closer := SubscribersClosed];
      history := history + [CloseSubscribers(closer)];
      assert channels == next.channels;
      assert At(None) == next;
    }

    /** A call of Close enters, and either sets the flag or finds it set and returns. */
    method EnterClose() returns (closer: nat)
      requires Valid()
      modifies this`closed, this`closers, this`history
      ensures Valid() && history == old(history) + [CallClose] + [CompareAndSwap(closer)] && closed
      ensures closer == |old(closers)| && closers == old(closers) + [if old(closed) then Returned else Flagged]
    {
      closer := |closers|;
      ReachesNext(history, At(None), CallClose);
      history := history + [CallClose];
      closers := closers + [Arrived];
      ReachesNext(history, At(None), CompareAndSwap(closer));
      history := history + [CompareAndSwap(closer)];
      if closed {
        closers := closers[closer := Returned];
      } else {
        closed, closers := true, closers[closer := Flagged];
      }
    }

    /** Other goroutines call Close after the flag was set: each returns at once. */
    method LateClosers(count: nat)
      requires Valid() && closed
      modifies this`closed, this`closers, this`history
      ensures Valid() && closed && old(history) <= history && |closers| == |old(closers)| + count
      ensures forall k :: 0 <= k < |closers| ==>
        (closers[k] == if k < |old(closers)| then old(closers)[k] else Returned)
    {
      for i := 0 to count
        invariant Valid() && closed && old(history) <= history && |closers| == |old(closers)| + i
        invariant forall k :: 0 <= k < |closers| ==>
          (closers[k] == if k < |old(closers)| then old(closers)[k] else Returned)
      {
        var closer := EnterClose();
      }
    }

    /** The step of a closer that ends the event source's subscription. */
    method EndSubscription(closer: nat)
      requires Valid() && closer < |closers| && closers[closer] == Flagged
      modifies this`closers, this`history
      ensures Valid() && history == old(history) + [Unsubscribe(closer)]
      ensures closers == old(closers)[closer := Closer.Unsubscribed]
    {
      ReachesNext(history, At(None), Unsubscribe(closer));
      history := history + [Unsubscribe(closer)];
      closers := closers[closer := Closer.Unsubscribed];
    }

    method CloseTheClient(closer: nat)
      requires Valid() && closer < |closers| && closers[closer] == SubscribersClosed
      modifies this`closers, this`clientCloses, this`history
      ensures Valid() && history == old(history) + [CloseClient(closer)]
      ensures closers == old(closers)[closer := ClientClosed]
    {
      ReachesNext(history, At(None), CloseClient(closer));
      history := history + [CloseClient(closer)];
      clientCloses := clientCloses + 1;
      closers := closers[closer := ClientClosed];
    }

    /**
     Only the call that sets the flag closes anything; every other one, wherever that call stands,
     returns at once.  `late` tells how many others come after each of its steps.
     */
    method Close(late: (nat, nat, nat))
      requires Valid()
      modifies this
      ensures Valid() && old(history) <= history && closed
      ensures sequence == old(sequence) && published == old(published)
      ensures old(closed) ==>
        && closers == old(closers) + [Returned] && subscribers == old(subscribers)
        && channels == old(channels) && clientCloses == old(clientCloses)
      ensures !old(closed) ==>
        && |closers| == |old(closers)| + 1 + late.0 + late.1 + late.2
        && closers[|old(closers)|] == ClientClosed && Completed(closers)
        && (forall k :: 0 <= k < |old(closers)| ==> closers[k] == old(closers)[k])
        && (forall k :: |old(closers)| < k < |closers| ==> closers[k] == Returned)
        && clientCloses == 1 && subscribers == {}
    {
      var first := !closed;
      var closer := EnterClose();
      if !first { return; }
      LateClosers(late.0);
      EndSubscription(closer);
      LateClosers(late.1);
      CloseAllSubscribers(closer);
      LateClosers(late.2);
      CloseTheClient(closer);
      CompletedIsClosed(history, At(None));
    }
  }
}
