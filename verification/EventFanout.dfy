/**
 The event fan-out of a runtime session as a machine of atomic steps.  A publish holds the session's
 lock over several steps; consumers may receive, and the closed flag may be set, between any two of
 them.  A select with a default case is one step.
 */
module EventFanout {
  import opened Basics

  const DEFAULT_SUBSCRIBER_BUFFER: nat := 100

  type Payload = string

  datatype Event = Event(sequence: nat, payload: Payload)

  /**
   A subscriber's channel with what has gone through it: the session's sequence when it was made,
   the last event offered to it, and the events its consumer received.
   */
  datatype Channel = Channel(
    buffer: seq<Event>, capacity: nat, closed: bool, dropped: nat,
    joined: nat, offered: nat, received: seq<Event>)

  datatype Phase = Trying | Full | MadeRoom

  /** A publish in progress: its event, the subscribers to come, and the one being served. */
  datatype Publishing = Publishing(event: Event, todo: set<nat>, current: Option<nat>, phase: Phase)

  /** How far one call of close has come; only one that sets the flag does not return at once. */
  datatype Closer = Arrived | Returned | Flagged | Unsubscribed | SubscribersClosed | ClientClosed

  /** `flag` is the closed flag, `closers` are all calls of close so far. */
  datatype State = State(
    published: seq<Payload>, nextID: nat, live: set<nat>, channels: map<nat, Channel>, dropped: nat,
    publishing: Option<Publishing>, flag: bool, closers: seq<Closer>, clientCloses: nat, panicked: bool)
  {
    function Sequence(): nat { |published| }
  }

  const INITIAL: State := State([], 0, {}, map[], 0, None, false, [], 0, false)

  datatype Step =
    | Subscribe(buffer: int)
    | Begin(payload: Payload)
    | Pick(id: nat)
    | TrySend
    | DropOldest
    | TrySendAgain
    | Finish
    | Receive(id: nat)
    | Remove(id: nat)
    | CallClose
    | CompareAndSwap(closer: nat)
    | Unsubscribe(closer: nat)
    | CloseSubscribers(closer: nat)
    | CloseClient(closer: nat)

  predicate Serving(s: State, phase: Phase) {
    s.publishing.Some? && s.publishing.value.current.Some? && s.publishing.value.phase == phase
    && s.publishing.value.current.value in s.channels
  }

  predicate Stands(s: State, closer: nat, phase: Closer) { closer < |s.closers| && s.closers[closer] == phase }

  /** Steps that take the lock need it free; the steps of a publish need its part before. */
  predicate Enabled(s: State, step: Step) {
    match step
    case Subscribe(_) => s.publishing.None?
    case Begin(_) => s.publishing.None?
    case Pick(id) => s.publishing.Some? && s.publishing.value.current.None? && id in s.publishing.value.todo
    case TrySend => Serving(s, Trying)
    case DropOldest => Serving(s, Full)
    case TrySendAgain => Serving(s, MadeRoom)
    case Finish => s.publishing.Some? && s.publishing.value.current.None? && s.publishing.value.todo == {}
    case Receive(id) => id in s.channels && s.channels[id].buffer != []
    case Remove(_) => s.publishing.None?
    case CallClose => true
    case CompareAndSwap(closer) => Stands(s, closer, Arrived)
    case Unsubscribe(closer) => Stands(s, closer, Flagged)
    case CloseSubscribers(closer) => Stands(s, closer, Closer.Unsubscribed) && s.publishing.None?
    case CloseClient(closer) => Stands(s, closer, SubscribersClosed)
  }

  function Enqueued(c: Channel, e: Event): Channel { c.(buffer := c.buffer + [e], offered := e.sequence) }

  /** The oldest buffered event is thrown away, if there still is one. */
  function WithoutOldest(c: Channel): Channel {
    if c.buffer == [] then c else c.(buffer := c.buffer[1..], dropped := c.dropped + 1)
  }

  function Received(c: Channel): Channel
    requires c.buffer != []
  {
    c.(buffer := c.buffer[1..], received := c.received + [c.buffer[0]])
  }

  function NewChannel(buffer: int, sequence: nat): Channel {
    Channel([], if buffer < 1 then DEFAULT_SUBSCRIBER_BUFFER else buffer, false, 0, sequence, sequence, [])
  }

  function AllClosed(channels: map<nat, Channel>, live: set<nat>): map<nat, Channel> {
    map id | id in channels :: if id in live then channels[id].(closed := true) else channels[id]
  }

  function Next(s: State, step: Step): State
    requires Enabled(s, step)
  {
    match step
    case Subscribe(buffer) =>
      if s.flag then s
      else s.(nextID := s.nextID + 1, live := s.live + {s.nextID + 1},
              channels := s.channels[s.nextID + 1 := NewChannel(buffer, s.Sequence())])
    case Begin(payload) =>
      if s.flag then s
      else s.(published := s.published + [payload],
              publishing := Some(Publishing(Event(s.Sequence() + 1, payload), s.live, None, Trying)))
    case Pick(id) =>
      var p := s.publishing.value;
      s.(publishing := Some(p.(todo := p.todo - {id}, current := Some(id), phase := Trying)))
    case TrySend =>
      var p, id := s.publishing.value, s.publishing.value.current.value;
      var c := s.channels[id];
      if c.closed then s.(panicked := true)
      else if |c.buffer| < c.capacity then
        s.(channels := s.channels[id := Enqueued(c, p.event)], publishing := Some(p.(current := None)))
      else s.(publishing := Some(p.(phase := Full)))
    case DropOldest =>
      var p, id := s.publishing.value, s.publishing.value.current.value;
      var c := s.channels[id];
      s.(channels := s.channels[id := WithoutOldest(c)],
         dropped := s.dropped + (if c.buffer == [] then 0 else 1),
         publishing := Some(p.(phase := MadeRoom)))
    case TrySendAgain =>
      var p, id := s.publishing.value, s.publishing.value.current.value;
      var c := s.channels[id];
      if c.closed then s.(panicked := true)
      else if |c.buffer| < c.capacity then
        s.(channels := s.channels[id := Enqueued(c, p.event)], publishing := Some(p.(current := None)))
      else
        s.(channels := s.channels[id := c.(dropped := c.dropped + 1, offered := p.event.sequence)],
           dropped := s.dropped + 1, publishing := Some(p.(current := None)))
    case Finish => s.(publishing := None)
    case Receive(id) => s.(channels := s.channels[id := Received(s.channels[id])])
    case Remove(id) =>
      if id !in s.live || id !in s.channels then s
      else s.(live := s.live - {id}, channels := s.channels[id := s.channels[id].(closed := true)],
              panicked := s.panicked || s.channels[id].closed)
    case CallClose => s.(closers := s.closers + [Arrived])
    case CompareAndSwap(closer) =>
      if s.flag then s.(closers := s.closers[closer := Returned])
      else s.(flag := true, closers := s.closers[closer := Flagged])
    case Unsubscribe(closer) => s.(closers := s.closers[closer := Closer.Unsubscribed])
    case CloseSubscribers(closer) =>
      s.(live := {},
         channels := AllClosed(s.channels, s.live),
         panicked := s.panicked || exists id :: id in s.live && id in s.channels && s.channels[id].closed,
         closers := s.closers[closer := SubscribersClosed])
    case CloseClient(closer) =>
      s.(clientCloses := s.clientCloses + 1, closers := s.closers[closer := ClientClosed])
  }

  ghost predicate Legal(s: State, steps: seq<Step>)
    decreases |steps|
  {
    steps == [] || (Enabled(s, steps[0]) && Legal(Next(s, steps[0]), steps[1..]))
  }

  ghost function Run(s: State, steps: seq<Step>): State
    requires Legal(s, steps)
    decreases |steps|
  {
    if steps == [] then s else Run(Next(s, steps[0]), steps[1..])
  }

  // ---------------------------------------------------------------------------------------------
  // The invariant

  /** Everything offered to a channel since it was made is received, buffered or dropped, in order. */
  ghost predicate ChannelInv(c: Channel, published: seq<Payload>) {
    && 1 <= c.capacity && |c.buffer| <= c.capacity
    && c.joined <= c.offered <= |published|
    && c.offered - c.joined == |c.received| + |c.buffer| + c.dropped
    && (forall i :: 0 <= i < |c.buffer| ==> c.buffer[i].sequence == c.offered - |c.buffer| + 1 + i)
    && (forall i :: 0 <= i < |c.buffer| ==> c.buffer[i].payload == published[c.buffer[i].sequence - 1])
    && (forall i :: 0 <= i < |c.received| ==> c.joined < c.received[i].sequence <= c.offered - |c.buffer|)
    && (forall i :: 0 <= i < |c.received| ==> c.received[i].payload == published[c.received[i].sequence - 1])
    && (forall i, j :: 0 <= i < j < |c.received| ==> c.received[i].sequence < c.received[j].sequence)
  }

  /** The last event offered has been kept: it is buffered or was received. */
  predicate NewestKept(c: Channel) {
    c.offered == c.joined || c.buffer != [] || (c.received != [] && c.received[|c.received| - 1].sequence == c.offered)
  }

  /** A publish has yet to offer its event to this subscriber. */
  predicate Pending(s: State, id: nat) {
    s.publishing.Some? && (id in s.publishing.value.todo || s.publishing.value.current == Some(id))
  }

  predicate Emptying(s: State, id: nat) {
    s.publishing.Some? && s.publishing.value.current == Some(id) && s.publishing.value.phase == MadeRoom
  }

  ghost predicate PublishingInv(s: State) {
    s.publishing.Some? ==>
      var p := s.publishing.value;
      && 0 < s.Sequence() && p.event == Event(s.Sequence(), s.published[s.Sequence() - 1])
      && p.todo <= s.live
      && (p.current.Some? ==> p.current.value in s.live && p.current.value !in p.todo)
      && (p.current.Some? && p.phase == MadeRoom && p.current.value in s.channels ==>
            |s.channels[p.current.value].buffer| < s.channels[p.current.value].capacity)
  }

  ghost function SumDropped(channels: map<nat, Channel>, n: nat): nat {
    if n == 0 then 0 else SumDropped(channels, n - 1) + if n in channels then channels[n].dropped else 0
  }

  ghost predicate SubscriberInv(s: State, id: nat)
    requires id in s.channels
  {
    && 1 <= id <= s.nextID
    && ChannelInv(s.channels[id], s.published)
    && (s.channels[id].closed <==> id !in s.live)
    && (id in s.live ==> s.channels[id].offered == s.Sequence() - if Pending(s, id) then 1 else 0)
    && (!Emptying(s, id) ==> NewestKept(s.channels[id]))
  }

  /** The closer is the one that set the flag. */
  predicate Effective(c: Closer) { c != Arrived && c != Returned }

  predicate PastSubscribers(c: Closer) { c == SubscribersClosed || c == ClientClosed }

  /** Some closer has closed the subscribers. */
  ghost predicate SubscribersGone(s: State) {
    exists k :: 0 <= k < |s.closers| && PastSubscribers(s.closers[k])
  }

  /** At most one closer got past the compare-and-swap, and one did if the flag is set. */
  ghost predicate OneEffective(s: State) {
    && (forall k :: 0 <= k < |s.closers| && Effective(s.closers[k]) ==> s.flag)
    && (forall j, k :: 0 <= j < k < |s.closers| ==> !Effective(s.closers[j]) || !Effective(s.closers[k]))
    && (s.flag ==> exists k :: 0 <= k < |s.closers| && Effective(s.closers[k]))
  }

  ghost predicate CloseInv(s: State) {
    && OneEffective(s)
    && (SubscribersGone(s) ==> s.live == {} && s.publishing.None?)
    && (forall k :: 0 <= k < |s.closers| && Effective(s.closers[k]) ==>
          s.clientCloses == if s.closers[k] == ClientClosed then 1 else 0)
    && (!s.flag ==> s.clientCloses == 0)
  }

  ghost predicate Inv(s: State) {
    && !s.panicked
    && s.live <= s.channels.Keys
    && (forall id :: id in s.channels ==> SubscriberInv(s, id))
    && PublishingInv(s)
    && s.dropped == SumDropped(s.channels, s.nextID)
    && CloseInv(s)
  }

  lemma {:induction false} SumOfUpdate(channels: map<nat, Channel>, id: nat, c: Channel, n: nat)
    requires id in channels
    ensures SumDropped(channels[id := c], n)
         == SumDropped(channels, n) + if 1 <= id <= n then c.dropped - channels[id].dropped else 0
    decreases n
  {
    if n > 0 { SumOfUpdate(channels, id, c, n - 1); }
  }

  lemma {:induction false} SumUnaffected(a: map<nat, Channel>, b: map<nat, Channel>, n: nat)
    requires forall id :: 1 <= id <= n ==> (id in a <==> id in b) && (id in a ==> a[id].dropped == b[id].dropped)
    ensures SumDropped(a, n) == SumDropped(b, n)
    decreases n
  {
    if n > 0 { SumUnaffected(a, b, n - 1); }
  }

  // ---------------------------------------------------------------------------------------------
  // What each change to a channel keeps

  lemma EnqueueKeeps(c: Channel, published: seq<Payload>, e: Event)
    requires ChannelInv(c, published) && |c.buffer| < c.capacity
    requires c.offered + 1 == e.sequence == |published| && e.payload == published[|published| - 1]
    ensures ChannelInv(Enqueued(c, e), published) && NewestKept(Enqueued(c, e))
  {
  }

  lemma DropKeeps(c: Channel, published: seq<Payload>)
    requires ChannelInv(c, published)
    ensures ChannelInv(WithoutOldest(c), published)
    ensures |WithoutOldest(c).buffer| < c.capacity
  {
  }

  lemma ReceiveKeeps(c: Channel, published: seq<Payload>)
    requires ChannelInv(c, published) && c.buffer != []
    ensures ChannelInv(Received(c), published) && NewestKept(Received(c))
  {
  }

  lemma PublishKeeps(c: Channel, published: seq<Payload>, payload: Payload)
    requires ChannelInv(c, published)
    ensures ChannelInv(c, published + [payload])
  {
  }

  /** A subscriber whose channel and place in the publish have not changed. */
  lemma OtherKeeps(s: State, t: State, j: nat)
    requires j in s.channels && j in t.channels && SubscriberInv(s, j) && t.channels[j] == s.channels[j]
    requires t.live == s.live && t.nextID == s.nextID && t.published == s.published
    requires (Pending(t, j) <==> Pending(s, j)) && (Emptying(s, j) ==> Emptying(t, j))
    ensures SubscriberInv(t, j)
  {
  }

  lemma SameClosingKeeps(s: State, t: State)
    requires CloseInv(s) && t.flag == s.flag && t.closers == s.closers && t.clientCloses == s.clientCloses
    requires t.live == s.live && (t.publishing.None? <==> s.publishing.None?)
    ensures CloseInv(t)
  {
  }

  /** Replacing one channel by one that satisfies its part of the invariant keeps the whole. */
  lemma ReplaceKeeps(s: State, t: State, id: nat)
    requires Inv(s) && id in s.channels && id in t.channels && t.channels == s.channels[id := t.channels[id]]
    requires t.live == s.live && t.nextID == s.nextID && t.published == s.published && t.panicked == s.panicked
    requires t.flag == s.flag && t.closers == s.closers && t.clientCloses == s.clientCloses
    requires t.publishing.None? <==> s.publishing.None?
    requires t.dropped - s.dropped == t.channels[id].dropped - s.channels[id].dropped
    requires SubscriberInv(t, id) && PublishingInv(t)
    requires forall j :: j in s.channels && j != id ==>
      (Pending(t, j) <==> Pending(s, j)) && (Emptying(s, j) ==> Emptying(t, j))
    ensures Inv(t)
  {
    assert t.dropped == SumDropped(t.channels, t.nextID) by {
      assert SubscriberInv(s, id);
      SumOfUpdate(s.channels, id, t.channels[id], s.nextID);
    }
    forall j | j in t.channels ensures SubscriberInv(t, j) {
      if j != id { OtherKeeps(s, t, j); }
    }
    SameClosingKeeps(s, t);
  }

  // ---------------------------------------------------------------------------------------------
  // The steps

  lemma NumbersInUse(s: State)
    requires Inv(s)
    ensures forall id :: id in s.channels ==> 1 <= id <= s.nextID
  {
    forall id | id in s.channels ensures 1 <= id <= s.nextID { assert SubscriberInv(s, id); }
  }

  lemma SubscribeKeepsOther(s: State, buffer: int, j: nat)
    requires Inv(s) && s.publishing.None? && !s.flag && j in s.channels && s.nextID + 1 !in s.channels
    ensures SubscriberInv(Next(s, Subscribe(buffer)), j)
  {
    assert SubscriberInv(s, j);
  }

  lemma SameClosingKeepsOpen(s: State, t: State)
    requires CloseInv(s) && !s.flag && !t.flag && t.closers == s.closers && t.clientCloses == s.clientCloses
    ensures CloseInv(t)
  {
    assert forall k :: 0 <= k < |s.closers| ==> !Effective(s.closers[k]);
  }

  lemma SubscribeKeeps(s: State, buffer: int)
    requires Inv(s) && s.publishing.None?
    ensures Inv(Next(s, Subscribe(buffer)))
  {
    var t := Next(s, Subscribe(buffer));
    if !s.flag {
      NumbersInUse(s);
      SumUnaffected(s.channels, t.channels, s.nextID);
      forall j | j in t.channels ensures SubscriberInv(t, j) {
        if j != s.nextID + 1 { SubscribeKeepsOther(s, buffer, j); }
      }
      SameClosingKeepsOpen(s, t);
    }
  }

  lemma BeginKeeps(s: State, payload: Payload)
    requires Inv(s) && s.publishing.None?
    ensures Inv(Next(s, Begin(payload)))
  {
    var t := Next(s, Begin(payload));
    if !s.flag {
      forall j | j in t.channels ensures SubscriberInv(t, j) {
        assert SubscriberInv(s, j);
        PublishKeeps(s.channels[j], s.published, payload);
      }
    }
  }

  lemma PickKeeps(s: State, id: nat)
    requires Inv(s) && Enabled(s, Pick(id))
    ensures Inv(Next(s, Pick(id)))
  {
    var t := Next(s, Pick(id));
    forall j | j in t.channels ensures SubscriberInv(t, j) { assert SubscriberInv(s, j); }
  }

  lemma TrySendKeeps(s: State)
    requires Inv(s) && Enabled(s, TrySend)
    ensures Inv(Next(s, TrySend))
  {
    var t, id := Next(s, TrySend), s.publishing.value.current.value;
    assert SubscriberInv(s, id);
    if |s.channels[id].buffer| < s.channels[id].capacity {
      EnqueueKeeps(s.channels[id], s.published, s.publishing.value.event);
      ReplaceKeeps(s, t, id);
    } else {
      forall j | j in t.channels ensures SubscriberInv(t, j) { assert SubscriberInv(s, j); }
    }
  }

  lemma DropOldestKeeps(s: State)
    requires Inv(s) && Enabled(s, DropOldest)
    ensures Inv(Next(s, DropOldest))
  {
    var t, id := Next(s, DropOldest), s.publishing.value.current.value;
    assert SubscriberInv(s, id);
    DropKeeps(s.channels[id], s.published);
    ReplaceKeeps(s, t, id);
  }

  /** After room was made the second attempt always succeeds: only the publish itself adds events. */
  lemma SecondSendSucceeds(s: State)
    requires Inv(s) && Enabled(s, TrySendAgain)
    ensures var id := s.publishing.value.current.value;
      Next(s, TrySendAgain).channels[id] == Enqueued(s.channels[id], s.publishing.value.event)
  {
    assert SubscriberInv(s, s.publishing.value.current.value);
  }

  lemma TrySendAgainKeeps(s: State)
    requires Inv(s) && Enabled(s, TrySendAgain)
    ensures Inv(Next(s, TrySendAgain))
  {
    var t, id := Next(s, TrySendAgain), s.publishing.value.current.value;
    assert SubscriberInv(s, id);
    EnqueueKeeps(s.channels[id], s.published, s.publishing.value.event);
    ReplaceKeeps(s, t, id);
  }

  lemma FinishKeeps(s: State)
    requires Inv(s) && Enabled(s, Finish)
    ensures Inv(Next(s, Finish))
  {
    var t := Next(s, Finish);
    forall j | j in t.channels ensures SubscriberInv(t, j) { assert SubscriberInv(s, j); }
  }

  lemma ConsumerKeeps(s: State, id: nat)
    requires Inv(s) && Enabled(s, Receive(id))
    ensures Inv(Next(s, Receive(id)))
  {
    assert SubscriberInv(s, id);
    ReceiveKeeps(s.channels[id], s.published);
    ReplaceKeeps(s, Next(s, Receive(id)), id);
  }

  lemma ClosingKeepsChannel(c: Channel, published: seq<Payload>)
    requires ChannelInv(c, published)
    ensures ChannelInv(c.(closed := true), published)
    ensures NewestKept(c) ==> NewestKept(c.(closed := true))
  {
  }

  lemma RemoveKeepsSubscriber(s: State, id: nat, j: nat)
    requires Inv(s) && s.publishing.None? && id in s.live && j in s.channels
    ensures SubscriberInv(Next(s, Remove(id)), j)
  {
    assert SubscriberInv(s, j);
    if j == id {
      ClosingKeepsChannel(s.channels[j], s.published);
      assert Next(s, Remove(id)).channels[j] == s.channels[j].(closed := true);
    } else {
      assert Next(s, Remove(id)).channels[j] == s.channels[j];
    }
  }

  lemma RemoveKeeps(s: State, id: nat)
    requires Inv(s) && s.publishing.None?
    ensures Inv(Next(s, Remove(id)))
  {
    var t := Next(s, Remove(id));
    if id in s.live {
      assert SubscriberInv(s, id);
      SumOfUpdate(s.channels, id, t.channels[id], s.nextID);
      assert t.dropped == SumDropped(t.channels, t.nextID);
      forall j | j in t.channels ensures SubscriberInv(t, j) { RemoveKeepsSubscriber(s, id, j); }
    }
  }

  lemma AllClosedKeeps(s: State, t: State, j: nat)
    requires Inv(s) && s.publishing.None? && j in s.channels
    requires t == s.(live := {}, channels := AllClosed(s.channels, s.live), closers := t.closers)
    ensures SubscriberInv(t, j)
  {
    assert SubscriberInv(s, j);
    ClosingKeepsChannel(s.channels[j], s.published);
  }

  lemma CloseSubscribersKeeps(s: State, closer: nat)
    requires Inv(s) && Enabled(s, CloseSubscribers(closer))
    ensures Inv(Next(s, CloseSubscribers(closer)))
  {
    var t := Next(s, CloseSubscribers(closer));
    forall id | id in s.live ensures !s.channels[id].closed { assert SubscriberInv(s, id); }
    SumUnaffected(s.channels, t.channels, s.nextID);
    forall j | j in t.channels ensures SubscriberInv(t, j) { AllClosedKeeps(s, t, j); }
    CloserMoves(s, t, closer);
  }

  /** One closer, past the flag, takes its next step. */
  lemma CloserMoves(s: State, t: State, closer: nat)
    requires CloseInv(s) && closer < |s.closers| == |t.closers| && t.closers == s.closers[closer := t.closers[closer]]
    requires Effective(s.closers[closer]) && Effective(t.closers[closer]) && t.flag == s.flag
    requires PastSubscribers(s.closers[closer]) ==> PastSubscribers(t.closers[closer])
    requires PastSubscribers(t.closers[closer]) ==> t.live == {} && t.publishing.None?
    requires t.clientCloses - s.clientCloses
          == (if t.closers[closer] == ClientClosed then 1 else 0) - (if s.closers[closer] == ClientClosed then 1 else 0)
    ensures CloseInv(t)
  {
    assert s.flag;
    forall k | 0 <= k < |t.closers| && k != closer ensures !Effective(t.closers[k]) {
      OthersAreNotEffective(s, closer, k);
    }
  }

  lemma OthersAreNotEffective(s: State, closer: nat, k: nat)
    requires OneEffective(s) && closer < |s.closers| && Effective(s.closers[closer]) && k < |s.closers| && k != closer
    ensures !Effective(s.closers[k])
  {
  }

  /** A new call of close, or one that meets the flag. */
  lemma IdleCloserKeeps(s: State, t: State)
    requires CloseInv(s) && t.flag == s.flag && t.clientCloses == s.clientCloses && t.live == s.live
    requires t.publishing == s.publishing
    requires |s.closers| <= |t.closers|
    requires forall k :: 0 <= k < |s.closers| && Effective(s.closers[k]) ==> t.closers[k] == s.closers[k]
    requires forall k :: 0 <= k < |t.closers| && Effective(t.closers[k]) ==>
      k < |s.closers| && t.closers[k] == s.closers[k]
    ensures CloseInv(t)
  {
    if SubscribersGone(t) {
      var k :| 0 <= k < |t.closers| && PastSubscribers(t.closers[k]);
      assert Effective(t.closers[k]);
    }
    if t.flag {
      var k :| 0 <= k < |s.closers| && Effective(s.closers[k]);
      assert Effective(t.closers[k]);
    }
  }

  lemma FirstCloserKeeps(s: State, closer: nat)
    requires CloseInv(s) && Stands(s, closer, Arrived) && !s.flag
    ensures CloseInv(Next(s, CompareAndSwap(closer)))
  {
    var t := Next(s, CompareAndSwap(closer));
    assert forall k :: 0 <= k < |s.closers| ==> !Effective(s.closers[k]);
    assert Effective(t.closers[closer]);
  }

  lemma ClosersKeep(s: State, step: Step)
    requires CloseInv(s) && Enabled(s, step) && OfCloser(step)
    ensures CloseInv(Next(s, step))
  {
    match step {
      case CallClose => IdleCloserKeeps(s, Next(s, step));
      case CompareAndSwap(closer) =>
        if s.flag { IdleCloserKeeps(s, Next(s, step)); } else { FirstCloserKeeps(s, closer); }
      case Unsubscribe(closer) => CloserMoves(s, Next(s, step), closer);
      case CloseClient(closer) =>
        assert PastSubscribers(s.closers[closer]);
        CloserMoves(s, Next(s, step), closer);
    }
  }

  /** A step of a closer that touches no subscriber. */
  predicate OfCloser(step: Step) {
    step == CallClose || step.CompareAndSwap? || step.Unsubscribe? || step.CloseClient?
  }

  lemma ClosingKeeps(s: State, step: Step)
    requires Inv(s) && Enabled(s, step) && OfCloser(step)
    ensures Inv(Next(s, step))
  {
    var t := Next(s, step);
    ClosersKeep(s, step);
    forall j | j in t.channels ensures SubscriberInv(t, j) { assert SubscriberInv(s, j); }
  }

  lemma StepKeepsInv(s: State, step: Step)
    requires Inv(s) && Enabled(s, step)
    ensures Inv(Next(s, step))
  {
    match step {
      case Subscribe(buffer) => SubscribeKeeps(s, buffer);
      case Begin(payload) => BeginKeeps(s, payload);
      case Pick(id) => PickKeeps(s, id);
      case TrySend => TrySendKeeps(s);
      case DropOldest => DropOldestKeeps(s);
      case TrySendAgain => TrySendAgainKeeps(s);
      case Finish => FinishKeeps(s);
      case Receive(id) => ConsumerKeeps(s, id);
      case Remove(id) => RemoveKeeps(s, id);
      case CloseSubscribers(closer) => CloseSubscribersKeeps(s, closer);
      case _ => ClosingKeeps(s, step);
    }
  }

  lemma {:induction false} RunKeepsInv(s: State, steps: seq<Step>)
    requires Inv(s) && Legal(s, steps)
    ensures Inv(Run(s, steps))
    decreases |steps|
  {
    if steps != [] {
      StepKeepsInv(s, steps[0]);
      RunKeepsInv(Next(s, steps[0]), steps[1..]);
    }
  }

  // ---------------------------------------------------------------------------------------------
  // What every interleaving guarantees

  /**
   In every reachable state no send or close hit a closed channel and the session's drop count is
   the sum of its subscribers'; between publishes, each live subscriber's buffer is the unbroken run
   of events ending with the session's latest, its consumer has received increasing sequence
   numbers, and every event since it subscribed is received, buffered or counted as dropped.
   */
  lemma EveryInterleaving(steps: seq<Step>, id: nat)
    requires Legal(INITIAL, steps) && id in Run(INITIAL, steps).channels
    ensures var s := Run(INITIAL, steps);
      && !s.panicked
      && s.dropped == SumDropped(s.channels, s.nextID)
      && (forall i, j :: 0 <= i < j < |s.channels[id].received| ==>
        s.channels[id].received[i].sequence < s.channels[id].received[j].sequence)
      && (s.publishing.None? && id in s.live ==>
            var c := s.channels[id];
            && s.Sequence() - c.joined == |c.received| + |c.buffer| + c.dropped
            && |c.buffer| <= c.capacity
            && (forall i :: 0 <= i < |c.buffer| ==>
                  c.buffer[i] == Event(s.Sequence() - |c.buffer| + 1 + i, s.published[s.Sequence() - |c.buffer| + i]))
            && NewestKept(c))
  {
    RunKeepsInv(INITIAL, steps);
    var s := Run(INITIAL, steps);
    assert SubscriberInv(s, id);
  }

  lemma StepFixesSizeAndStart(s: State, step: Step, id: nat)
    requires Inv(s) && Enabled(s, step) && id in s.channels
    ensures id in Next(s, step).channels
    ensures Next(s, step).channels[id].capacity == s.channels[id].capacity
    ensures Next(s, step).channels[id].joined == s.channels[id].joined
  {
    NumbersInUse(s);
  }

  /** A subscription keeps its buffer size and its starting point through any run. */
  lemma {:induction false} SizeAndStartAreFixed(s: State, steps: seq<Step>, id: nat)
    requires Inv(s) && Legal(s, steps) && id in s.channels
    ensures id in Run(s, steps).channels
    ensures Run(s, steps).channels[id].capacity == s.channels[id].capacity
    ensures Run(s, steps).channels[id].joined == s.channels[id].joined
    decreases |steps|
  {
    if steps != [] {
      StepKeepsInv(s, steps[0]);
      StepFixesSizeAndStart(s, steps[0], id);
      SizeAndStartAreFixed(Next(s, steps[0]), steps[1..], id);
    }
  }

  // ---- when events are dropped ----

  /** A publish has found this subscriber's buffer full and has not made room yet. */
  predicate FoundFull(s: State, id: nat) {
    s.publishing.Some? && s.publishing.value.current == Some(id) && s.publishing.value.phase == Full
  }

  /** A subscriber that has missed events has been given at least as many as its buffer holds. */
  ghost predicate DropsAreNeeded(s: State, id: nat)
    requires id in s.channels
  {
    var c := s.channels[id];
    && (FoundFull(s, id) ==> |c.received| + |c.buffer| >= c.capacity)
    && (c.dropped > 0 ==> |c.received| + |c.buffer| + (if Emptying(s, id) then 1 else 0) >= c.capacity)
    && (Emptying(s, id) ==> |c.received| + |c.buffer| + 1 >= c.capacity)
  }

  lemma SendKeepsNeeded(s: State, step: Step, id: nat)
    requires Inv(s) && Enabled(s, step) && id in s.channels && DropsAreNeeded(s, id)
    requires step.TrySend? || step.DropOldest? || step.TrySendAgain?
    ensures id in Next(s, step).channels && DropsAreNeeded(Next(s, step), id)
  {
    assert SubscriberInv(s, s.publishing.value.current.value);
  }

  lemma StepKeepsNeeded(s: State, step: Step, id: nat)
    requires Inv(s) && Enabled(s, step) && id in Next(s, step).channels
    requires id in s.channels ==> DropsAreNeeded(s, id)
    ensures DropsAreNeeded(Next(s, step), id)
  {
    NumbersInUse(s);
    match step {
      case TrySend => SendKeepsNeeded(s, step, id);
      case DropOldest => SendKeepsNeeded(s, step, id);
      case TrySendAgain => SendKeepsNeeded(s, step, id);
      case Subscribe(_) => assert id !in s.channels ==> s.publishing.None?;
      case _ =>
    }
  }

  lemma {:induction false} RunKeepsNeeded(s: State, steps: seq<Step>, id: nat)
    requires Inv(s) && Legal(s, steps) && id in Run(s, steps).channels
    requires id in s.channels ==> DropsAreNeeded(s, id)
    ensures DropsAreNeeded(Run(s, steps), id)
    decreases |steps|
  {
    if steps != [] {
      var next := Next(s, steps[0]);
      StepKeepsInv(s, steps[0]);
      if id in next.channels { StepKeepsNeeded(s, steps[0], id); }
      RunKeepsNeeded(next, steps[1..], id);
    }
  }

  /**
   In every reachable state between publishes, a subscriber that has missed any events has been given
   as many as its buffer holds: what it missed are no more than the events beyond those.  So nothing is
   dropped before more events were published to it than fit.
   */
  lemma DroppedOnlyBeyondCapacity(steps: seq<Step>, id: nat)
    requires Legal(INITIAL, steps) && id in Run(INITIAL, steps).live && Run(INITIAL, steps).publishing.None?
    ensures var s := Run(INITIAL, steps);
      && id in s.channels
      && var c := s.channels[id];
      c.dropped > 0 ==> c.capacity + c.dropped <= s.Sequence() - c.joined
  {
    RunKeepsInv(INITIAL, steps);
    RunKeepsNeeded(INITIAL, steps, id);
    assert SubscriberInv(Run(INITIAL, steps), id);
  }

  /**
   Of all the calls of close, from however many goroutines, at most one gets past the compare-and-swap,
   and one does once the flag is set; the client is closed at most once, namely when that call is through.
   */
  lemma ClientClosedOnce(steps: seq<Step>)
    requires Legal(INITIAL, steps)
    ensures var s := Run(INITIAL, steps);
      && (forall j, k :: 0 <= j < k < |s.closers| ==> !Effective(s.closers[j]) || !Effective(s.closers[k]))
      && (s.flag <==> exists k :: 0 <= k < |s.closers| && Effective(s.closers[k]))
      && s.clientCloses <= 1
      && (s.clientCloses == 1 <==> exists k :: 0 <= k < |s.closers| && s.closers[k] == ClientClosed)
  {
    RunKeepsInv(INITIAL, steps);
    var s := Run(INITIAL, steps);
    if s.flag {
      var k :| 0 <= k < |s.closers| && Effective(s.closers[k]);
      assert s.clientCloses == if s.closers[k] == ClientClosed then 1 else 0;
    }
    forall k | 0 <= k < |s.closers| && s.closers[k] == ClientClosed ensures s.clientCloses == 1 {
      assert Effective(s.closers[k]);
    }
  }

  lemma StepKeepsGone(s: State, step: Step)
    requires Inv(s) && SubscribersGone(s) && Enabled(s, step)
    ensures SubscribersGone(Next(s, step))
    ensures Next(s, step).published == s.published && Next(s, step).channels.Keys == s.channels.Keys
  {
    var k :| 0 <= k < |s.closers| && PastSubscribers(s.closers[k]);
    assert Effective(s.closers[k]) && s.flag;
    assert PastSubscribers(Next(s, step).closers[k]);
  }

  /** Once the subscribers are closed there are none, and no event is ever published again. */
  lemma {:induction false} ClosedSessionIsFrozen(s: State, steps: seq<Step>)
    requires Inv(s) && SubscribersGone(s) && Legal(s, steps)
    ensures var t := Run(s, steps);
      t.live == {} && t.published == s.published && t.channels.Keys == s.channels.Keys && SubscribersGone(t)
    decreases |steps|
  {
    if steps != [] {
      StepKeepsInv(s, steps[0]);
      StepKeepsGone(s, steps[0]);
      ClosedSessionIsFrozen(Next(s, steps[0]), steps[1..]);
    }
  }

  /** The step ends the subscription if it is live: its own cancel, or the closing of all. */
  predicate EndsSubscription(step: Step, id: nat) { step == Remove(id) || step.CloseSubscribers? }

  predicate EndedIn(steps: seq<Step>, id: nat) { exists i :: 0 <= i < |steps| && EndsSubscription(steps[i], id) }

  lemma EndedNowOrLater(steps: seq<Step>, id: nat)
    requires steps != []
    ensures EndedIn(steps, id) <==> EndsSubscription(steps[0], id) || EndedIn(steps[1..], id)
  {
    forall i | 0 <= i < |steps| && EndsSubscription(steps[i], id)
      ensures EndsSubscription(steps[0], id) || EndedIn(steps[1..], id)
    {
      assert i > 0 ==> steps[1..][i - 1] == steps[i];
    }
  }

  lemma LiveAfterStep(s: State, step: Step, id: nat)
    requires Inv(s) && Enabled(s, step) && id in s.channels
    ensures id in Next(s, step).channels
    ensures id in Next(s, step).live <==> id in s.live && !EndsSubscription(step, id)
  {
    NumbersInUse(s);
  }

  /**
   After any run a subscription's channel is closed exactly when it was closed before or the run holds
   its own cancel or a closing of all: no cancel of another, no repeated or late one, and nothing else
   closes it, and it is never opened again.
   */
  lemma {:induction false} ClosedExactlyWhenEnded(s: State, steps: seq<Step>, id: nat)
    requires Inv(s) && Legal(s, steps) && id in s.channels
    ensures id in Run(s, steps).channels
    ensures Run(s, steps).channels[id].closed <==> s.channels[id].closed || EndedIn(steps, id)
    decreases |steps|
  {
    if steps != [] {
      var next, rest := Next(s, steps[0]), steps[1..];
      StepKeepsInv(s, steps[0]);
      LiveAfterStep(s, steps[0], id);
      ClosedExactlyWhenEnded(next, rest, id);
      assert SubscriberInv(s, id) && SubscriberInv(next, id);
      EndedNowOrLater(steps, id);
    }
  }

  /** A subscription's number is never given to a later one. */
  lemma SubscriptionNumbersAreNew(s: State, buffer: int)
    requires Inv(s) && Enabled(s, Subscribe(buffer)) && !s.flag
    ensures s.nextID + 1 !in s.channels
    ensures s.nextID + 1 in Next(s, Subscribe(buffer)).live
  {
    NumbersInUse(s);
  }
}
