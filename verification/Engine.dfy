/**
 The engine's emit and Close over its event channel.  Each object carries the execution of the step
 machine in EngineEvents.dfy that its calls, and what other goroutines did in between, amount to.
 */
module EngineModel {
  import opened Basics
  import opened EngineEvents

  lemma ReachableIsSafe(eventBuffer: int, steps: seq<Step>, s: State)
    requires Reaches(Initial(eventBuffer), steps, s)
    ensures Safe(s)
  {
    RunKeepsInv(Initial(eventBuffer), steps);
  }

  /** What a goroutine in the middle of an emit does next. */
  function StepTaking(phase: Phase, call: nat): Option<Step> {
    match phase
    case Entered => Some(Check(call))
    case Trying => Some(TrySend(call))
    case Full => Some(DropOldest(call))
    case MadeRoom => Some(TrySendAgain(call))
    case Settled => Some(Release(call))
    case _ => None
  }

  function StepsLeft(phase: Phase): nat {
    match phase
    case Entered => 5
    case Trying => 4
    case Full => 3
    case MadeRoom => 2
    case Settled => 1
    case _ => 0
  }

  ghost predicate NoInterference(others: nat -> seq<Step>) {
    forall i :: others(i) == []
  }

  class Engine {
    ghost var history: seq<Step>
    ghost var received: seq<Event>
    ghost var dropped: seq<Event>
    const eventBuffer: int
    const capacity: nat
    var calls: seq<Call>             // how far each emit has come
    var buffer: seq<Event>
    var droppedCount: nat
    var connected: bool
    var e2eeReady: bool
    var closing: ClosePhase
    var channelClosed: bool

    ghost function Now(): State
      reads this
    {
      State(calls, capacity, buffer, received, dropped, droppedCount,
            connected, e2eeReady, closing, channelClosed, false)
    }

    ghost predicate Valid()
      reads this
    {
      Reaches(Initial(eventBuffer), history, Now())
    }

    constructor (eventBuffer: int)
      ensures Valid() && this.eventBuffer == eventBuffer && Now() == Initial(eventBuffer)
      ensures capacity == if eventBuffer < 1 then 100 else eventBuffer
    {
      this.eventBuffer := eventBuffer;
      capacity := if eventBuffer < 1 then 100 else eventBuffer;
      history, dropped, received, calls, buffer, droppedCount := [], [], [], [], [], 0;
      connected, e2eeReady, closing, channelClosed := false, false, Open, false;
    }

    /** Records a step that has just been carried out on the fields. */
    ghost method Did(step: Step, before: State)
      requires Reaches(Initial(eventBuffer), history, before) && Enabled(before, step) && Now() == Next(before, step)
      modifies this`history
      ensures Valid() && history == old(history) + [step]
    {
      ReachesNext(Initial(eventBuffer), history, before, step);
      history := history + [step];
    }

    /** What other goroutines and the consumers do meanwhile; none of it is a step of `call`. */
    method Others(steps: seq<Step>, call: nat)
      requires Valid() && call < |calls|
      modifies this
      ensures Valid() && old(history) <= history && |old(calls)| <= |calls| && calls[call] == old(calls)[call]
      ensures old(closing) != Open ==> closing != Open
      ensures steps == [] ==> Now() == old(Now())
    {
      for i := 0 to |steps|
        invariant Valid() && old(history) <= history && |old(calls)| <= |calls| && calls[call] == old(calls)[call]
        invariant old(closing) != Open ==> closing != Open
        invariant steps == [] ==> Now() == old(Now())
      {
        Other(steps[i], call);
      }
    }

    method Other(step: Step, call: nat)
      requires Valid() && call < |calls|
      modifies this
      ensures Valid() && old(history) <= history && |old(calls)| <= |calls| && calls[call] == old(calls)[call]
      ensures old(closing) != Open ==> closing != Open
    {
      if !OfCall(step, call) { Perform(step); }
    }

    /** One step of some goroutine, if it is possible now. */
    method Perform(step: Step)
      requires Valid()
      modifies this
      ensures Valid() && old(history) <= history
      ensures Now() == if Enabled(old(Now()), step) then Next(old(Now()), step) else old(Now())
    {
      ghost var before := Now();
      ReachableIsSafe(eventBuffer, history, before);
      var done := false;
      if OfSomeCall(step) {
        done := PerformOfCall(step);
      } else if step == Receive || step.RegularState? || step.EncryptedState? {
        done := PerformOutside(step);
      } else {
        done := PerformEntryOrClose(step);
      }
      if done { Did(step, before); }
    }

    method PerformOfCall(step: Step) returns (done: bool)
      requires OfSomeCall(step) && Safe(Now())
      modifies this`calls, this`buffer, this`dropped, this`droppedCount
      ensures done == Enabled(old(Now()), step)
      ensures Now() == if done then Next(old(Now()), step) else old(Now())
    {
      var call := step.call;
      done := call < |calls| && StepTaking(calls[call].phase, call) == Some(step);
      if !done { return; }
      if step.Check? {
        Move(call, if closing != Open then Refused else Trying);
      } else if step.TrySend? {
        var sent := TryEnqueue(call);
      } else if step.DropOldest? {
        TakeOldest(call);
      } else if step.TrySendAgain? {
        EnqueueOrDrop(call);
      } else {
        Move(call, Released);
      }
    }

    method PerformOutside(step: Step) returns (done: bool)
      requires step == Receive || step.RegularState? || step.EncryptedState?
      modifies this`buffer, this`received, this`connected, this`e2eeReady
      ensures done == Enabled(old(Now()), step)
      ensures Now() == if done then Next(old(Now()), step) else old(Now())
    {
      done := step != Receive || buffer != [];
      if step.RegularState? {
        connected := step.on;
      } else if step.EncryptedState? {
        e2eeReady := step.on;
      } else if done {
        received, buffer := received + [buffer[0]], buffer[1..];
      }
    }

    method PerformEntryOrClose(step: Step) returns (done: bool)
      requires !OfSomeCall(step) && step != Receive && !step.RegularState? && !step.EncryptedState? && Safe(Now())
      modifies this`calls, this`closing, this`connected, this`e2eeReady, this`channelClosed
      ensures done == Enabled(old(Now()), step)
      ensures Now() == if done then Next(old(Now()), step) else old(Now())
    {
      if step.Enter? {
        done := closing != Locked;
        if done { calls := calls + [Call(step.event, Entered)]; }
      } else if step == CloseFlag {
        done := true;
        if closing == Open { closing := Flagged; }
      } else if step == ClearFlags {
        done := closing == Flagged;
        if done { closing, connected, e2eeReady := Cleared, false, false; }
      } else if step == LockEvents {
        done := closing == Cleared && forall i :: 0 <= i < |calls| ==> !Holding(calls[i]);
        if done { closing := Locked; }
      } else {
        done := closing == Locked;
        if done { closing, channelClosed := ChannelClosed, true; }
      }
    }

    predicate Stands(call: nat, phase: Phase)
      reads this
    {
      call < |calls| && calls[call].phase == phase
    }

    method Move(call: nat, phase: Phase)
      requires call < |calls|
      modifies this`calls
      ensures calls == Moved(old(calls), call, phase)
    {
      calls := calls[call := calls[call].(phase := phase)];
    }

    /** The first select of an emit. */
    method TryEnqueue(call: nat) returns (sent: bool)
      requires Stands(call, Trying) && Safe(Now())
      modifies this`calls, this`buffer
      ensures Now() == Next(old(Now()), TrySend(call)) && sent == (calls[call].phase == Settled)
    {
      sent := |buffer| < capacity;
      if sent {
        buffer := buffer + [calls[call].event];
        Move(call, Settled);
      } else {
        Move(call, Full);
      }
    }

    /** The select that takes the oldest event, unless a consumer was faster. */
    method TakeOldest(call: nat)
      requires Stands(call, Full) && Safe(Now())
      modifies this`calls, this`buffer, this`dropped, this`droppedCount
      ensures Now() == Next(old(Now()), DropOldest(call))
    {
      if buffer != [] {
        dropped, buffer := dropped + [buffer[0]], buffer[1..];
        droppedCount := droppedCount + 1;
      }
      Move(call, MadeRoom);
    }

    /** The last select of an emit; another emit may have taken the room. */
    method EnqueueOrDrop(call: nat)
      requires Stands(call, MadeRoom) && Safe(Now())
      modifies this`calls, this`buffer, this`dropped, this`droppedCount
      ensures Now() == Next(old(Now()), TrySendAgain(call))
    {
      if |buffer| < capacity {
        buffer := buffer + [calls[call].event];
      } else {
        dropped := dropped + [calls[call].event];
        droppedCount := droppedCount + 1;
      }
      Move(call, Settled);
    }

    /** The closed check of a new emit. */
    method Begin(event: Event, others: nat -> seq<Step>) returns (call: nat)
      requires Valid() && closing != Locked
      modifies this
      ensures Valid() && old(history) <= history && call == |old(calls)| < |calls|
      ensures calls[call] == Call(event, Trying) || (calls[call] == Call(event, Refused))
      ensures old(closing) != Open ==> calls[call].phase == Refused
      ensures others(0) == [] && old(closing) == Open ==>
        Now() == old(Now()).(calls := old(calls) + [Call(event, Trying)])
    {
      call := |calls|;
      Perform(Enter(event));
      Others(others(0), call);
      Perform(Check(call));
    }

    /** The first attempt of an emit that has passed its closed check. */
    method TrySending(call: nat, others: seq<Step>)
      requires Valid() && Stands(call, Trying)
      modifies this
      ensures Valid() && old(history) <= history && call < |calls|
      ensures calls[call] == old(calls)[call].(phase := Full) || calls[call] == old(calls)[call].(phase := Settled)
      ensures others == [] ==>
        Now() == old(Now()).(calls := calls, buffer := buffer) && (calls[call].phase == Settled <==>
          |old(buffer)| < capacity)
        && buffer == if |old(buffer)| < capacity then old(buffer) + [calls[call].event] else old(buffer)
    {
      Others(others, call);
      ReachableIsSafe(eventBuffer, history, Now());
      Perform(TrySend(call));
    }

    /** The rest of an emit that found the buffer full. */
    method MakeRoomAndSend(call: nat, before: seq<Step>, between: seq<Step>)
      requires Valid() && Stands(call, Full)
      modifies this
      ensures Valid() && old(history) <= history && call < |calls|
      ensures calls[call] == old(calls)[call].(phase := Settled)
      ensures before == [] && between == [] && 1 <= |old(buffer)| == capacity ==>
        && received == old(received) && buffer == old(buffer)[1..] + [calls[call].event]
        && droppedCount == old(droppedCount) + 1
    {
      Others(before, call);
      Perform(DropOldest(call));
      Others(between, call);
      ReachableIsSafe(eventBuffer, history, Now());
      Perform(TrySendAgain(call));
    }

    /** The selects of an emit that has passed its closed check. */
    method Send(call: nat, others: nat -> seq<Step>)
      requires Valid() && Stands(call, Trying)
      modifies this
      ensures Valid() && old(history) <= history && call < |calls|
      ensures calls[call] == old(calls)[call].(phase := Settled)
      ensures NoInterference(others) ==>
        && received == old(received) && 1 <= capacity
        && buffer == (if |old(buffer)| < capacity then old(buffer) else old(buffer)[1..]) + [calls[call].event]
        && droppedCount - old(droppedCount) == if |old(buffer)| < capacity then 0 else 1
    {
      ReachableIsSafe(eventBuffer, history, Now());
      TrySending(call, others(1));
      if calls[call].phase == Full { MakeRoomAndSend(call, others(2), others(3)); }
    }

    /**
     Offers an event to the channel, with the given interference after each of its steps.  Once the
     engine is closed it is refused; with no interference it is enqueued, at the cost of the oldest
     event if the buffer is full.
     */
    method Emit(event: Event, others: nat -> seq<Step>) returns (accepted: bool)
      requires Valid() && closing != Locked
      modifies this
      ensures Valid() && old(history) <= history && |old(calls)| < |calls|
      ensures calls[|old(calls)|] == Call(event, if accepted then Released else Refused)
      ensures old(closing) != Open ==> !accepted
      ensures NoInterference(others) && old(closing) == Open ==>
        && accepted && received == old(received)
        && 1 <= capacity
        && buffer == (if |old(buffer)| < capacity then old(buffer) else old(buffer)[1..]) + [event]
        && droppedCount - old(droppedCount) == if |old(buffer)| < capacity then 0 else 1
    {
      var call := Begin(event, others);
      accepted := calls[call].phase == Trying;
      if !accepted { return; }
      Send(call, others);
      Others(others(4), call);
      Perform(Release(call));
    }

    /** The close of an engine by whichever caller comes first; the flag is up before anything else. */
    method Close(others: nat -> seq<Step>)
      requires Valid() && (closing == Open || closing == ChannelClosed)
      modifies this
      ensures Valid() && old(history) <= history
      ensures closing == ChannelClosed && channelClosed && !Now().Connected() && !Now().E2EEConnected()
      ensures old(closing) == ChannelClosed ==> Now() == old(Now())
    {
      ReachableIsSafe(eventBuffer, history, Now());
      if closing == ChannelClosed { return; }
      Perform(CloseFlag);
      OthersWhileClosing(others(0));
      Perform(ClearFlags);
      OthersWhileClosing(others(1));
      CloseEvents();
    }

    /** Takes the exclusive lock and closes the channel. */
    method CloseEvents()
      requires Valid() && closing == Cleared
      modifies this
      ensures Valid() && old(history) <= history && closing == ChannelClosed && channelClosed
    {
      FinishEmits();
      ghost var before := Now();
      assert Enabled(before, LockEvents);
      Perform(LockEvents);
      Perform(CloseChannel);
    }

    /** Other goroutines while one is closing: none of them can take the steps of the close. */
    method OthersWhileClosing(steps: seq<Step>)
      requires Valid() && (closing == Flagged || closing == Cleared)
      modifies this
      ensures Valid() && old(history) <= history && closing == old(closing)
    {
      for i := 0 to |steps|
        invariant Valid() && old(history) <= history && closing == old(closing)
      {
        if steps[i] != ClearFlags && steps[i] != LockEvents && steps[i] != CloseChannel { Perform(steps[i]); }
      }
    }

    /** Waiting for the exclusive lock: every emit that holds the shared lock runs to its end. */
    method FinishEmits()
      requires Valid() && closing == Cleared
      modifies this
      ensures Valid() && old(history) <= history && closing == Cleared
      ensures forall i :: 0 <= i < |calls| ==> !Holding(calls[i])
    {
      for i := 0 to |calls|
        invariant Valid() && old(history) <= history && closing == Cleared && |calls| == |old(calls)|
        invariant forall j :: 0 <= j < i ==> !Holding(calls[j])
      {
        while StepTaking(calls[i].phase, i).Some?
          invariant Valid() && old(history) <= history && closing == Cleared && |calls| == |old(calls)|
          invariant forall j :: 0 <= j < i ==> !Holding(calls[j])
          decreases StepsLeft(calls[i].phase)
        {
          FinishStep(i);
        }
      }
    }

    method FinishStep(call: nat)
      requires Valid() && closing == Cleared && call < |calls| && StepTaking(calls[call].phase, call).Some?
      modifies this
      ensures Valid() && old(history) <= history && closing == Cleared && |calls| == |old(calls)|
      ensures forall j :: 0 <= j < |calls| && j != call ==> calls[j] == old(calls)[j]
      ensures StepsLeft(calls[call].phase) < StepsLeft(old(calls)[call].phase)
    {
      ReachableIsSafe(eventBuffer, history, Now());
      Perform(StepTaking(calls[call].phase, call).value);
    }
  }
}
