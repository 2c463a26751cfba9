/**
 The engine's event channel as a machine of atomic steps.  Any number of emits run at once under the
 shared side of the lock, consumers receive between any two of their steps, and one close takes the
 exclusive side.  A select with a default case is one step.
 */
module EngineEvents {
  type Event = string

  /** How far an emit has come; from Entered to Settled it holds the shared lock. */
  datatype Phase = Entered | Trying | Full | MadeRoom | Settled | Released | Refused

  datatype Call = Call(event: Event, phase: Phase)

  datatype ClosePhase = Open | Flagged | Cleared | Locked | ChannelClosed

  /** Every emit so far, the channel, what left it either way, and the connection flags. */
  datatype State = State(
    calls: seq<Call>, capacity: nat, buffer: seq<Event>, received: seq<Event>, dropped: seq<Event>,
    droppedCount: nat, connected: bool, e2eeReady: bool, closing: ClosePhase, channelClosed: bool, panicked: bool)
  {
    predicate Closed() { closing != Open }
    predicate Connected() { connected && !Closed() }
    predicate E2EEConnected() { e2eeReady && !Closed() }
  }

  function Initial(eventBuffer: int): State {
    State([], if eventBuffer < 1 then 100 else eventBuffer, [], [], [], 0, false, false, Open, false, false)
  }

  datatype Step =
    | Enter(event: Event)
    | Check(call: nat)
    | TrySend(call: nat)
    | DropOldest(call: nat)
    | TrySendAgain(call: nat)
    | Release(call: nat)
    | Receive
    | RegularState(on: bool)
    | EncryptedState(on: bool)
    | CloseFlag
    | ClearFlags
    | LockEvents
    | CloseChannel

  predicate At(s: State, call: nat, phase: Phase) { call < |s.calls| && s.calls[call].phase == phase }

  predicate Holding(c: Call) { c.phase != Released && c.phase != Refused }

  /** The event has passed the closed check and is neither enqueued nor dropped yet. */
  predicate InFlight(c: Call) { c.phase == Trying || c.phase == Full || c.phase == MadeRoom }

  predicate Accepted(c: Call) { c.phase != Entered && c.phase != Refused }

  /** A step of one emit after it has begun. */
  predicate OfSomeCall(step: Step) {
    step.Check? || step.TrySend? || step.DropOldest? || step.TrySendAgain? || step.Release?
  }

  predicate Enabled(s: State, step: Step) {
    match step
    case Enter(_) => s.closing != Locked
    case Check(call) => At(s, call, Entered)
    case TrySend(call) => At(s, call, Trying)
    case DropOldest(call) => At(s, call, Full)
    case TrySendAgain(call) => At(s, call, MadeRoom)
    case Release(call) => At(s, call, Settled)
    case Receive => s.buffer != []
    case RegularState(_) => true
    case EncryptedState(_) => true
    case CloseFlag => true
    case ClearFlags => s.closing == Flagged
    case LockEvents => s.closing == Cleared && forall i :: 0 <= i < |s.calls| ==> !Holding(s.calls[i])
    case CloseChannel => s.closing == Locked
  }

  function Moved(calls: seq<Call>, call: nat, phase: Phase): seq<Call>
    requires call < |calls|
  {
    calls[call := calls[call].(phase := phase)]
  }

  function Next(s: State, step: Step): State
    requires Enabled(s, step)
  {
    match step
    case Enter(event) => s.(calls := s.calls + [Call(event, Entered)])
    case Check(call) => s.(calls := Moved(s.calls, call, if s.Closed() then Refused else Trying))
    case TrySend(call) =>
      if s.channelClosed then s.(panicked := true)
      else if |s.buffer| < s.capacity then
        s.(buffer := s.buffer + [s.calls[call].event], calls := Moved(s.calls, call, Settled))
      else s.(calls := Moved(s.calls, call, Full))
    case DropOldest(call) =>
      var t := s.(calls := Moved(s.calls, call, MadeRoom));
      if s.buffer != [] then
        t.(buffer := s.buffer[1..], dropped := s.dropped + [s.buffer[0]], droppedCount := s.droppedCount + 1)
      else if s.channelClosed then t.(droppedCount := s.droppedCount + 1)
      else t
    case TrySendAgain(call) =>
      if s.channelClosed then s.(panicked := true)
      else
        var t := s.(calls := Moved(s.calls, call, Settled));
        if |s.buffer| < s.capacity then t.(buffer := s.buffer + [s.calls[call].event])
        else t.(dropped := s.dropped + [s.calls[call].event], droppedCount := s.droppedCount + 1)
    case Release(call) => s.(calls := Moved(s.calls, call, Released))
    case Receive => s.(buffer := s.buffer[1..], received := s.received + [s.buffer[0]])
    case RegularState(on) => s.(connected := on)
    case EncryptedState(on) => s.(e2eeReady := on)
    case CloseFlag => if s.Closed() then s else s.(closing := Flagged)
    case ClearFlags => s.(closing := Cleared, connected := false, e2eeReady := false)
    case LockEvents => s.(closing := Locked)
    case CloseChannel => s.(closing := ChannelClosed, channelClosed := true, panicked := s.panicked || s.channelClosed)
  }

  ghost predicate Legal(s: State, steps: seq<Step>)
    decreases |steps|
  {
    steps == [] || (Enabled(s, steps[0]) && Legal(Next(s, steps[0]), steps[1..]))
  }

  ghost function Run(s: State, steps: seq<Step>): State
    requires Legal(s, steps)
    decreases |steps|
  {
    if steps == [] then s else Run(Next(s, steps[0]), steps[1..])
  }

  // ---------------------------------------------------------------------------------------------
  // Conservation

  ghost function Count(calls: seq<Call>, p: Call -> bool): nat {
    if calls == [] then 0
    else Count(calls[..|calls| - 1], p) + if p(calls[|calls| - 1]) then 1 else 0
  }

  ghost function AcceptedOf(event: Event): Call -> bool { c => Accepted(c) && c.event == event }

  ghost function InFlightOf(event: Event): Call -> bool { c => InFlight(c) && c.event == event }

  /** How often an event occurs in a list. */
  ghost function Times(list: seq<Event>, event: Event): nat { multiset(list)[event] }

  /** The two lists of calls differ at most in the phase of one. */
  ghost predicate SameBut(a: seq<Call>, b: seq<Call>, i: nat) {
    i < |a| == |b| && a[i].event == b[i].event && forall j :: 0 <= j < |a| && j != i ==> a[j] == b[j]
  }

  lemma {:induction false} AfterMove(a: seq<Call>, b: seq<Call>, i: nat, p: Call -> bool)
    requires SameBut(a, b, i)
    ensures Count(b, p) == Count(a, p) + (if p(b[i]) then 1 else 0) - (if p(a[i]) then 1 else 0)
    decreases |a|
  {
    var n := |a| - 1;
    if i < n {
      assert SameBut(a[..n], b[..n], i);
      AfterMove(a[..n], b[..n], i, p);
    } else {
      assert a[..n] == b[..n];
    }
  }

  lemma AfterEnter(calls: seq<Call>, event: Event, p: Call -> bool)
    requires !p(Call(event, Entered))
    ensures Count(calls + [Call(event, Entered)], p) == Count(calls, p)
  {
    assert (calls + [Call(event, Entered)])[..|calls|] == calls;
  }

  lemma TimesAppended(list: seq<Event>, last: Event, event: Event)
    ensures Times(list + [last], event) == Times(list, event) + if last == event then 1 else 0
  {
  }

  lemma TimesOfRest(list: seq<Event>, event: Event)
    requires list != []
    ensures Times(list, event) == Times(list[1..], event) + if list[0] == event then 1 else 0
  {
    assert list == [list[0]] + list[1..];
  }

  lemma {:induction false} NothingInFlight(calls: seq<Call>, event: Event)
    requires forall i :: 0 <= i < |calls| ==> !InFlight(calls[i])
    ensures Count(calls, InFlightOf(event)) == 0 && Count(calls, InFlight) == 0
  {
    if calls != [] { NothingInFlight(calls[..|calls| - 1], event); }
  }

  /** Each emit of the event that was accepted had it received, buffered or dropped, or still holds it. */
  ghost predicate EventConserved(s: State, event: Event) {
    Count(s.calls, AcceptedOf(event))
      == Times(s.received, event) + Times(s.buffer, event) + Times(s.dropped, event) + Count(s.calls, InFlightOf(event))
  }

  /** The event was accepted exactly as often as it was received, is buffered or was dropped. */
  ghost predicate Accounted(s: State, event: Event) {
    Count(s.calls, AcceptedOf(event)) == Times(s.received, event) + Times(s.buffer, event) + Times(s.dropped, event)
  }

  ghost predicate NumberConserved(s: State) {
    Count(s.calls, Accepted) == |s.received| + |s.buffer| + |s.dropped| + Count(s.calls, InFlight)
  }

  ghost predicate Conserved(s: State) {
    NumberConserved(s) && forall event :: EventConserved(s, event)
  }

  /** The channel is not used once closed, and cannot close while an emit is under way. */
  ghost predicate Safe(s: State) {
    && !s.panicked
    && 1 <= s.capacity && |s.buffer| <= s.capacity
    && (s.channelClosed <==> s.closing == ChannelClosed)
    && (s.closing == Locked ==> forall i :: 0 <= i < |s.calls| ==> !Holding(s.calls[i]))
    && (s.closing == ChannelClosed ==> forall i :: 0 <= i < |s.calls| && Holding(s.calls[i]) ==>
      s.calls[i].phase == Entered)
    && s.droppedCount == |s.dropped|
  }

  ghost predicate Inv(s: State) { Safe(s) && Conserved(s) }

  lemma StepKeepsSafe(s: State, step: Step)
    requires Safe(s) && Enabled(s, step)
    ensures Safe(Next(s, step))
  {
  }

  /** The counts of one event and of all of them, after a step of one emit. */
  lemma CountsAfterMove(s: State, t: State, call: nat, event: Event)
    requires SameBut(s.calls, t.calls, call)
    ensures Count(t.calls, AcceptedOf(event)) == Count(s.calls, AcceptedOf(event))
      + (if AcceptedOf(event)(t.calls[call]) then 1 else 0) - (if AcceptedOf(event)(s.calls[call]) then 1 else 0)
    ensures Count(t.calls, InFlightOf(event)) == Count(s.calls, InFlightOf(event))
      + (if InFlightOf(event)(t.calls[call]) then 1 else 0) - (if InFlightOf(event)(s.calls[call]) then 1 else 0)
    ensures Count(t.calls, Accepted) == Count(s.calls, Accepted)
      + (if Accepted(t.calls[call]) then 1 else 0) - (if Accepted(s.calls[call]) then 1 else 0)
    ensures Count(t.calls, InFlight) == Count(s.calls, InFlight)
      + (if InFlight(t.calls[call]) then 1 else 0) - (if InFlight(s.calls[call]) then 1 else 0)
  {
    AfterMove(s.calls, t.calls, call, AcceptedOf(event));
    AfterMove(s.calls, t.calls, call, InFlightOf(event));
    AfterMove(s.calls, t.calls, call, Accepted);
    AfterMove(s.calls, t.calls, call, InFlight);
  }

  lemma CheckConserves(s: State, call: nat, event: Event)
    requires EventConserved(s, event) && NumberConserved(s) && Enabled(s, Check(call))
    ensures EventConserved(Next(s, Check(call)), event) && NumberConserved(Next(s, Check(call)))
  {
    CountsAfterMove(s, Next(s, Check(call)), call, event);
  }

  /** A step that leaves the emit in flight, or out of it, and the events where they are. */
  lemma PhaseConserves(s: State, t: State, call: nat, event: Event)
    requires EventConserved(s, event) && NumberConserved(s) && SameBut(s.calls, t.calls, call)
    requires InFlight(s.calls[call]) == InFlight(t.calls[call]) && Accepted(s.calls[call]) && Accepted(t.calls[call])
    requires t.received == s.received && t.buffer == s.buffer && t.dropped == s.dropped
    ensures EventConserved(t, event) && NumberConserved(t)
  {
    CountsAfterMove(s, t, call, event);
  }

  /** An emit is done with its event, which is now in the buffer or among the dropped. */
  lemma LandingConserves(s: State, t: State, call: nat, kept: bool, event: Event)
    requires EventConserved(s, event) && NumberConserved(s) && call < |s.calls| && InFlight(s.calls[call])
    requires t.calls == Moved(s.calls, call, Settled) && t.received == s.received
    requires t.buffer == if kept then s.buffer + [s.calls[call].event] else s.buffer
    requires t.dropped == if kept then s.dropped else s.dropped + [s.calls[call].event]
    ensures EventConserved(t, event) && NumberConserved(t)
  {
    CountsAfterMove(s, t, call, event);
    TimesAppended(if kept then s.buffer else s.dropped, s.calls[call].event, event);
  }

  lemma DropOldestConserves(s: State, call: nat, event: Event)
    requires EventConserved(s, event) && NumberConserved(s) && Enabled(s, DropOldest(call))
    ensures EventConserved(Next(s, DropOldest(call)), event) && NumberConserved(Next(s, DropOldest(call)))
  {
    CountsAfterMove(s, Next(s, DropOldest(call)), call, event);
    if s.buffer != [] {
      TimesOfRest(s.buffer, event);
      TimesAppended(s.dropped, s.buffer[0], event);
    }
  }

  lemma ReceiveConserves(s: State, event: Event)
    requires EventConserved(s, event) && NumberConserved(s) && s.buffer != []
    ensures EventConserved(Next(s, Receive), event) && NumberConserved(Next(s, Receive))
  {
    TimesOfRest(s.buffer, event);
    TimesAppended(s.received, s.buffer[0], event);
  }

  lemma SendConserves(s: State, step: Step, event: Event)
    requires Safe(s) && EventConserved(s, event) && NumberConserved(s) && Enabled(s, step)
    requires step.TrySend? || step.TrySendAgain?
    ensures EventConserved(Next(s, step), event) && NumberConserved(Next(s, step))
  {
    if |s.buffer| < s.capacity {
      LandingConserves(s, Next(s, step), step.call, true, event);
    } else if step.TrySend? {
      PhaseConserves(s, Next(s, step), step.call, event);
    } else {
      LandingConserves(s, Next(s, step), step.call, false, event);
    }
  }

  /** Each step moves each event at most from one place to the next. */
  lemma StepConserves(s: State, step: Step, event: Event)
    requires Safe(s) && EventConserved(s, event) && NumberConserved(s) && Enabled(s, step)
    ensures EventConserved(Next(s, step), event) && NumberConserved(Next(s, step))
  {
    match step {
      case Enter(e) =>
        AfterEnter(s.calls, e, AcceptedOf(event));
        AfterEnter(s.calls, e, InFlightOf(event));
        AfterEnter(s.calls, e, Accepted);
        AfterEnter(s.calls, e, InFlight);
      case Check(call) => CheckConserves(s, call, event);
      case TrySend(_) => SendConserves(s, step, event);
      case DropOldest(call) => DropOldestConserves(s, call, event);
      case TrySendAgain(_) => SendConserves(s, step, event);
      case Release(call) => PhaseConserves(s, Next(s, step), call, event);
      case Receive => ReceiveConserves(s, event);
      case _ =>
    }
  }

  lemma StepKeepsInv(s: State, step: Step)
    requires Inv(s) && Enabled(s, step)
    ensures Inv(Next(s, step))
  {
    StepKeepsSafe(s, step);
    forall event ensures EventConserved(Next(s, step), event) && NumberConserved(Next(s, step)) {
      assert EventConserved(s, event);
      StepConserves(s, step, event);
    }
    assert EventConserved(Next(s, step), "");
  }

  lemma {:induction false} RunKeepsInv(s: State, steps: seq<Step>)
    requires Inv(s) && Legal(s, steps)
    ensures Inv(Run(s, steps))
    decreases |steps|
  {
    if steps != [] {
      StepKeepsInv(s, steps[0]);
      RunKeepsInv(Next(s, steps[0]), steps[1..]);
    }
  }

  // ---------------------------------------------------------------------------------------------
  // What every interleaving guarantees

  lemma StepFixesCapacity(s: State, step: Step)
    requires Enabled(s, step)
    ensures Next(s, step).capacity == s.capacity
  {
  }

  lemma {:induction false} CapacityIsFixed(s: State, steps: seq<Step>)
    requires Legal(s, steps)
    ensures Run(s, steps).capacity == s.capacity
    decreases |steps|
  {
    if steps != [] {
      StepFixesCapacity(s, steps[0]);
      CapacityIsFixed(Next(s, steps[0]), steps[1..]);
    }
  }

  /**
   With any number of concurrent emits, consumers and closes: nothing is sent on, and nothing closes,
   a closed channel; the buffer keeps to its capacity; and whenever no emit is between its closed
   check and its last send, the accepted events are exactly those received, buffered and dropped.
   */
  lemma EveryInterleaving(eventBuffer: int, steps: seq<Step>)
    requires Legal(Initial(eventBuffer), steps)
    ensures var s := Run(Initial(eventBuffer), steps);
      && !s.panicked
      && |s.buffer| <= s.capacity == (if eventBuffer < 1 then 100 else eventBuffer)
      && ((forall i :: 0 <= i < |s.calls| ==> !InFlight(s.calls[i])) ==>
            && (forall event :: Accounted(s, event))
            && Count(s.calls, Accepted) == |s.received| + |s.buffer| + s.droppedCount)
  {
    var s := Run(Initial(eventBuffer), steps);
    RunKeepsInv(Initial(eventBuffer), steps);
    CapacityIsFixed(Initial(eventBuffer), steps);
    if forall i :: 0 <= i < |s.calls| ==> !InFlight(s.calls[i]) {
      NothingInFlight(s.calls, "");
      forall event ensures Accounted(s, event) {
        assert EventConserved(s, event);
        NothingInFlight(s.calls, event);
      }
    }
  }

  /** Nothing is accepted or dropped from `s` to `t`, and the consumers have only drained the buffer. */
  ghost predicate OnlyDrained(s: State, t: State) {
    t.dropped == s.dropped && t.received + t.buffer == s.received + s.buffer && |s.received| <= |t.received|
    && Count(t.calls, Accepted) == Count(s.calls, Accepted)
  }

  lemma StepOnlyDrains(s: State, step: Step)
    requires Inv(s) && s.channelClosed && Enabled(s, step)
    ensures Next(s, step).channelClosed && OnlyDrained(s, Next(s, step))
  {
    match step {
      case Enter(event) => AfterEnter(s.calls, event, Accepted);
      case Check(call) => AfterMove(s.calls, Next(s, step).calls, call, Accepted);
      case Receive =>
        assert s.buffer == [s.buffer[0]] + s.buffer[1..];
        assert s.received + [s.buffer[0]] + s.buffer[1..] == s.received + s.buffer;
      case _ =>
    }
  }

  /** Once the channel is closed nothing more is accepted or dropped; consumers only drain it. */
  lemma {:induction false} ClosedChannelOnlyDrains(s: State, steps: seq<Step>)
    requires Inv(s) && s.channelClosed && Legal(s, steps)
    ensures Run(s, steps).channelClosed && OnlyDrained(s, Run(s, steps))
    decreases |steps|
  {
    if steps != [] {
      StepKeepsInv(s, steps[0]);
      StepOnlyDrains(s, steps[0]);
      ClosedChannelOnlyDrains(Next(s, steps[0]), steps[1..]);
    }
  }

  /** After the close flag is set the engine never reports a connection again, whatever flags arrive late. */
  lemma {:induction false} ClosedEngineIsNotConnected(s: State, steps: seq<Step>)
    requires s.Closed() && Legal(s, steps)
    ensures Run(s, steps).Closed() && !Run(s, steps).Connected() && !Run(s, steps).E2EEConnected()
    decreases |steps|
  {
    if steps != [] { ClosedEngineIsNotConnected(Next(s, steps[0]), steps[1..]); }
  }

  // ---------------------------------------------------------------------------------------------
  // Which event is lost

  predicate OfCall(step: Step, call: nat) {
    OfSomeCall(step) && step.call == call
  }

  /** The step is a send that finds room. */
  predicate Lands(s: State, step: Step) {
    (step.TrySend? || step.TrySendAgain?) && !s.channelClosed && |s.buffer| < s.capacity
  }

  /** The step takes an event out of the buffer. */
  predicate Takes(s: State, step: Step) {
    (step.Receive? || step.DropOldest?) && s.buffer != []
  }

  /** How many sends of an execution find room. */
  ghost function Landed(s: State, steps: seq<Step>): nat
    requires Legal(s, steps)
    decreases |steps|
  {
    if steps == [] then 0
    else (if Lands(s, steps[0]) then 1 else 0) + Landed(Next(s, steps[0]), steps[1..])
  }

  /** How many receives and drops of an execution take an event. */
  ghost function Taken(s: State, steps: seq<Step>): nat
    requires Legal(s, steps)
    decreases |steps|
  {
    if steps == [] then 0
    else (if Takes(s, steps[0]) then 1 else 0) + Taken(Next(s, steps[0]), steps[1..])
  }

  lemma {:induction false} BufferBalance(s: State, steps: seq<Step>)
    requires Legal(s, steps)
    ensures |Run(s, steps).buffer| == |s.buffer| + Landed(s, steps) - Taken(s, steps)
    decreases |steps|
  {
    if steps != [] { BufferBalance(Next(s, steps[0]), steps[1..]); }
  }

  ghost predicate LeavesAlone(steps: seq<Step>, call: nat) {
    forall i :: 0 <= i < |steps| ==> !OfCall(steps[i], call)
  }

  lemma CallWaitsForCall(s: State, call: nat, step: Step)
    requires call < |s.calls| && Enabled(s, step) && OfSomeCall(step) && step.call != call
    ensures |Next(s, step).calls| == |s.calls| && Next(s, step).calls[call] == s.calls[call]
    ensures Next(s, step).capacity == s.capacity
  {
  }

  lemma CallWaitsOneStep(s: State, call: nat, step: Step)
    requires call < |s.calls| && Enabled(s, step) && !OfCall(step, call)
    ensures call < |Next(s, step).calls| && Next(s, step).calls[call] == s.calls[call]
    ensures Next(s, step).capacity == s.capacity
  {
    if OfSomeCall(step) { CallWaitsForCall(s, call, step); }
  }

  lemma {:induction false} CallWaits(s: State, call: nat, steps: seq<Step>)
    requires Inv(s) && call < |s.calls| && Legal(s, steps) && LeavesAlone(steps, call)
    ensures Inv(Run(s, steps)) && Run(s, steps).capacity == s.capacity
    ensures call < |Run(s, steps).calls| && Run(s, steps).calls[call] == s.calls[call]
    decreases |steps|
  {
    if steps != [] {
      assert !OfCall(steps[0], call) && LeavesAlone(steps[1..], call);
      StepKeepsInv(s, steps[0]);
      CallWaitsOneStep(s, call, steps[0]);
      CallWaits(Next(s, steps[0]), call, steps[1..]);
    }
  }

  /**
   After an emit has tried to make room, whatever happens before its last send, its event is dropped
   if and only if the sends that landed in between have filled up what was free and taken since.
   */
  lemma EventLostExactlyWhenUndercut(s: State, call: nat, steps: seq<Step>)
    requires Inv(s) && At(s, call, MadeRoom) && Legal(s, steps) && LeavesAlone(steps, call)
    ensures var t := Run(s, steps);
      && Enabled(t, TrySendAgain(call))
      && var u, event := Next(t, TrySendAgain(call)), s.calls[call].event;
         && (u.dropped == t.dropped + [event] && u.buffer == t.buffer
             <==> |s.buffer| + Landed(s, steps) - Taken(s, steps) >= s.capacity)
         && (u.dropped == t.dropped && u.buffer == t.buffer + [event]
             <==> |s.buffer| + Landed(s, steps) - Taken(s, steps) < s.capacity)
  {
    BufferBalance(s, steps);
    CallWaits(s, call, steps);
    var t := Run(s, steps);
    assert |t.buffer + [s.calls[call].event]| == |t.buffer| + 1;
  }

  predicate SendsFor(step: Step, other: nat) {
    (step.TrySend? || step.TrySendAgain?) && step.call != other
  }

  ghost predicate Undisturbed(steps: seq<Step>, call: nat) {
    forall i :: 0 <= i < |steps| ==> !OfCall(steps[i], call) && !SendsFor(steps[i], call)
  }

  lemma {:induction false} NothingLands(s: State, call: nat, steps: seq<Step>)
    requires Legal(s, steps) && Undisturbed(steps, call)
    ensures Landed(s, steps) == 0
    decreases |steps|
  {
    if steps != [] {
      assert !OfCall(steps[0], call) && !SendsFor(steps[0], call) && Undisturbed(steps[1..], call);
      NothingLands(Next(s, steps[0]), call, steps[1..]);
    }
  }

  /** If no other emit sends between its two steps, the event of an emit that made room is enqueued. */
  lemma EnqueuedUnlessAnotherSends(s: State, call: nat, steps: seq<Step>)
    requires Inv(s) && Enabled(s, DropOldest(call))
    requires Legal(Next(s, DropOldest(call)), steps) && Undisturbed(steps, call)
    ensures var t := Run(Next(s, DropOldest(call)), steps);
      && Enabled(t, TrySendAgain(call))
      && Next(t, TrySendAgain(call)).buffer == t.buffer + [s.calls[call].event]
      && Next(t, TrySendAgain(call)).dropped == t.dropped
  {
    var made := Next(s, DropOldest(call));
    StepKeepsInv(s, DropOldest(call));
    assert LeavesAlone(steps, call);
    NothingLands(made, call, steps);
    EventLostExactlyWhenUndercut(made, call, steps);
  }

  // ---- one emit at a time ----

  /** How often the emit's own event is enqueued in an execution. */
  ghost function Sent(s: State, call: nat, steps: seq<Step>): nat
    requires Legal(s, steps)
    decreases |steps|
  {
    if steps == [] then 0
    else
      (if OfCall(steps[0], call) && Lands(s, steps[0]) then 1 else 0) + Sent(Next(s, steps[0]), call, steps[1..])
  }

  /** How often the emit's own event is dropped by its last send in an execution. */
  ghost function Lost(s: State, call: nat, steps: seq<Step>): nat
    requires Legal(s, steps)
    decreases |steps|
  {
    if steps == [] then 0
    else
      (if steps[0] == TrySendAgain(call) && !Lands(s, steps[0]) then 1 else 0)
      + Lost(Next(s, steps[0]), call, steps[1..])
  }

  /** No other emit takes a step past its entry. */
  ghost predicate Alone(steps: seq<Step>, call: nat) {
    forall i :: 0 <= i < |steps| ==> OfSomeCall(steps[i]) ==> steps[i].call == call
  }

  predicate Finished(c: Call) { c.phase == Settled || c.phase == Released }

  lemma AloneStep(s: State, call: nat, step: Step)
    requires Inv(s) && Enabled(s, step) && call < |s.calls| && (OfSomeCall(step) ==> step.call == call)
    requires s.calls[call].phase == MadeRoom ==> |s.buffer| < s.capacity
    ensures var t := Next(s, step);
      && call < |t.calls| && (t.calls[call].phase == MadeRoom ==> |t.buffer| < t.capacity)
      && (Finished(t.calls[call]) <==> Finished(s.calls[call]) || (OfCall(step, call) && Lands(s, step)))
      && (OfCall(step, call) && Lands(s, step) ==> !Finished(s.calls[call]))
      && (step == TrySendAgain(call) ==> Lands(s, step))
  {
  }

  lemma {:induction false} AloneFromHere(s: State, call: nat, steps: seq<Step>)
    requires Inv(s) && call < |s.calls| && Legal(s, steps) && Alone(steps, call)
    requires s.calls[call].phase == MadeRoom ==> |s.buffer| < s.capacity
    ensures call < |Run(s, steps).calls| && Lost(s, call, steps) == 0
    ensures Sent(s, call, steps) == if !Finished(s.calls[call]) && Finished(Run(s, steps).calls[call]) then 1 else 0
    ensures Finished(s.calls[call]) ==> Finished(Run(s, steps).calls[call])
    decreases |steps|
  {
    if steps != [] {
      assert OfSomeCall(steps[0]) ==> steps[0].call == call;
      assert Alone(steps[1..], call);
      StepKeepsInv(s, steps[0]);
      AloneStep(s, call, steps[0]);
      AloneFromHere(Next(s, steps[0]), call, steps[1..]);
    }
  }

  /**
   If no other emit takes a step between an emit's call and its end, then in every interleaving with
   consumers, state changes and a close, the emit loses nothing: once it is through, its event has
   been enqueued, exactly once.
   */
  lemma LoneEmitIsEnqueued(s: State, event: Event, steps: seq<Step>)
    requires Inv(s) && Enabled(s, Enter(event)) && Legal(Next(s, Enter(event)), steps) && Alone(steps, |s.calls|)
    ensures var entered, call := Next(s, Enter(event)), |s.calls|;
      && call < |Run(entered, steps).calls|
      && Lost(entered, call, steps) == 0
      && Sent(entered, call, steps) == if Finished(Run(entered, steps).calls[call]) then 1 else 0
  {
    StepKeepsInv(s, Enter(event));
    AloneFromHere(Next(s, Enter(event)), |s.calls|, steps);
  }

  // ---- two emits at a time ----

  /** The steps are an execution from `start` that ends in `s`. */
  ghost predicate Reaches(start: State, steps: seq<Step>, s: State) {
    Legal(start, steps) && Run(start, steps) == s
  }

  lemma {:induction false} ReachesNext(start: State, steps: seq<Step>, s: State, step: Step)
    requires Reaches(start, steps, s) && Enabled(s, step)
    ensures Reaches(start, steps + [step], Next(s, step))
    decreases |steps|
  {
    var all := steps + [step];
    if steps == [] {
      assert all == [step] && all[1..] == [];
    } else {
      assert all[0] == steps[0] && all[1..] == steps[1..] + [step];
      ReachesNext(Next(start, steps[0]), steps[1..], s, step);
    }
  }

  /** One more step of an execution. */
  lemma Goes(start: State, steps: seq<Step>, s: State, step: Step) returns (more: seq<Step>, t: State)
    requires Inv(s) && Reaches(start, steps, s) && Enabled(s, step)
    ensures Inv(t) && Reaches(start, more, t) && t == Next(s, step)
  {
    ReachesNext(start, steps, s, step);
    StepKeepsInv(s, step);
    more, t := steps + [step], Next(s, step);
  }

  /** One whole emit while there is room. */
  lemma EmitsAlone(start: State, steps: seq<Step>, s: State, event: Event) returns (more: seq<Step>, t: State)
    requires Inv(s) && Reaches(start, steps, s) && s.closing == Open && |s.buffer| < s.capacity
    ensures Inv(t) && Reaches(start, more, t) && t.closing == Open && t.capacity == s.capacity
    ensures t.buffer == s.buffer + [event]
  {
    var call := |s.calls|;
    more, t := Goes(start, steps, s, Enter(event));
    more, t := Goes(start, more, t, Check(call));
    more, t := Goes(start, more, t, TrySend(call));
    more, t := Goes(start, more, t, Release(call));
  }

  lemma {:induction false} FillsUp(start: State, steps: seq<Step>, s: State, event: Event)
    returns (more: seq<Step>, t: State)
    requires Inv(s) && Reaches(start, steps, s) && s.closing == Open
    ensures Inv(t) && Reaches(start, more, t) && t.closing == Open && t.capacity == s.capacity
    ensures |t.buffer| == t.capacity
    decreases s.capacity - |s.buffer|
  {
    more, t := steps, s;
    if |s.buffer| < s.capacity {
      more, t := EmitsAlone(start, steps, s, event);
      more, t := FillsUp(start, more, t, event);
    }
  }

  /** The last two calls are past their checks. */
  lemma TwoEnter(start: State, steps: seq<Step>, s: State, older: Event, newer: Event)
    returns (more: seq<Step>, t: State)
    requires Inv(s) && Reaches(start, steps, s) && s.closing == Open
    ensures Inv(t) && Reaches(start, more, t) && t.closing == Open && t.capacity == s.capacity && t.buffer == s.buffer
    ensures t.calls == s.calls + [Call(older, Trying), Call(newer, Trying)]
  {
    var n := |s.calls|;
    more, t := Goes(start, steps, s, Enter(older));
    more, t := Goes(start, more, t, Enter(newer));
    more, t := Goes(start, more, t, Check(n));
    more, t := Goes(start, more, t, Check(n + 1));
  }

  /** The emit called last is about to drop its event, while the one called before it has enqueued its own. */
  predicate LosingNewest(s: State, older: Event, newer: Event) {
    && 2 <= |s.calls|
    && s.calls[|s.calls| - 2] == Call(older, Settled) && s.calls[|s.calls| - 1] == Call(newer, MadeRoom)
    && s.buffer != [] && s.buffer[|s.buffer| - 1] == older && |s.buffer| == s.capacity && !s.channelClosed
  }

  /** The next step of the emit called last drops its event, and the one called before it keeps its own. */
  predicate LosesNewest(s: State, older: Event, newer: Event) {
    && LosingNewest(s, older, newer)
    && Next(s, TrySendAgain(|s.calls| - 1)).dropped == s.dropped + [newer]
    && Next(s, TrySendAgain(|s.calls| - 1)).buffer == s.buffer
  }

  lemma NewestIsDropped(s: State, older: Event, newer: Event)
    requires LosingNewest(s, older, newer)
    ensures Enabled(s, TrySendAgain(|s.calls| - 1))
    ensures Next(s, TrySendAgain(|s.calls| - 1)).dropped == s.dropped + [newer]
    ensures Next(s, TrySendAgain(|s.calls| - 1)).buffer == s.buffer
  {
  }

  /** The last emit makes room in a full buffer, and the one before it takes that room. */
  lemma Undercuts(start: State, steps: seq<Step>, s: State, n: nat, older: Event, newer: Event)
    returns (more: seq<Step>, t: State)
    requires Inv(s) && Reaches(start, steps, s) && s.closing == Open && |s.buffer| == s.capacity && n + 2 == |s.calls|
    requires s.calls[n] == Call(older, Trying) && s.calls[n + 1] == Call(newer, Trying)
    ensures Reaches(start, more, t) && LosingNewest(t, older, newer)
  {
    more, t := Goes(start, steps, s, TrySend(n + 1));
    assert t.calls[n + 1] == Call(newer, Full) && t.calls[n] == Call(older, Trying);
    more, t := Goes(start, more, t, DropOldest(n + 1));
    assert t.calls[n + 1] == Call(newer, MadeRoom) && t.calls[n] == Call(older, Trying);
    more, t := Goes(start, more, t, TrySend(n));
  }

  /**
   Two emits at a time can lose the newest event, whatever the size of the buffer and whatever went
   before: from every open state there is an execution in which the emit called last drops the
   oldest event to make room for its own, the one called before it takes the room, and the newest
   event is dropped while an older one is kept.
   */
  lemma NewestMayBeLost(s: State, older: Event, newer: Event)
    requires Inv(s) && s.closing == Open
    ensures exists steps :: Legal(s, steps) && LosesNewest(Run(s, steps), older, newer)
  {
    var steps, t := FillsUp(s, [], s, older);
    var n := |t.calls|;
    steps, t := TwoEnter(s, steps, t, older, newer);
    steps, t := Undercuts(s, steps, t, n, older, newer);
    NewestIsDropped(t, older, newer);
    assert LosesNewest(t, older, newer);
  }
}
