/**
 The Node SDK's asynchronous event queue.  What each promise settles to is a function of the history
 of accepted events, reads and the end; the queue with its buffer and waiters refines that.
 */
module EventQueueModel {
  import opened Basics

  type Event = string

  /** An error value as a test of truth sees it. */
  datatype Reason = Truthy(text: string) | Falsy(text: string)

  const UNDEFINED: Reason := Falsy("undefined")
  const OVERFLOW: Reason := Truthy("event buffer overflow")

  datatype Promise = Pending | Delivered(event: Event) | Finished | Rejected(reason: Reason)

  datatype Ending = Closed | FailedWith(reason: Reason)

  /** The end of the queue and how many reads had been made by then. */
  datatype End = End(ending: Ending, asked: nat)

  datatype History = History(accepted: seq<Event>, asked: nat, end: Option<End>)

  datatype Op = Push(event: Event) | Next | Close | Fail(reason: Reason)

  // ---------------------------------------------------------------------------------------------
  // The history specification

  /** What the `i`-th read gets: the `i`-th accepted event, or else the end once there is one. */
  function PromiseOf(h: History, i: nat): Promise {
    if i < |h.accepted| then Delivered(h.accepted[i])
    else match h.end
      case None => Pending
      case Some(End(Closed, _)) => Finished
      case Some(End(FailedWith(reason), asked)) => if i < asked || reason.Truthy? then Rejected(reason) else Finished
  }

  /** The events accepted and not read yet. */
  function Unread(h: History): seq<Event> {
    if h.asked <= |h.accepted| then h.accepted[h.asked..] else []
  }

  /** The reads that wait for an event. */
  function Waiting(h: History): nat {
    if h.end.None? && |h.accepted| < h.asked then h.asked - |h.accepted| else 0
  }

  function Ended(h: History, ending: Ending): History {
    if h.end.Some? then h else h.(end := Some(End(ending, h.asked)))
  }

  function Step(h: History, limit: int, op: Op): History {
    match op
    case Push(event) =>
      if h.end.Some? then h
      else if Waiting(h) == 0 && |Unread(h)| >= limit then Ended(h, FailedWith(OVERFLOW))
      else h.(accepted := h.accepted + [event])
    case Next => h.(asked := h.asked + 1)
    case Close => Ended(h, Closed)
    case Fail(reason) => Ended(h, FailedWith(reason))
  }

  function Run(h: History, limit: int, ops: seq<Op>): History
    decreases |ops|
  {
    if ops == [] then h else Run(Step(h, limit, ops[0]), limit, ops[1..])
  }

  const EMPTY: History := History([], 0, None)

  ghost predicate Inv(h: History, limit: int) {
    |Unread(h)| <= (if limit < 0 then 0 else limit) && (h.end.Some? ==> h.end.value.asked <= h.asked)
  }

  lemma {:induction false} RunKeepsInv(h: History, limit: int, ops: seq<Op>)
    requires Inv(h, limit)
    ensures Inv(Run(h, limit, ops), limit)
    decreases |ops|
  {
    if ops != [] { RunKeepsInv(Step(h, limit, ops[0]), limit, ops[1..]); }
  }

  /** The buffer stays within the limit, and a read waits only while the queue is open and empty. */
  lemma BufferIsBounded(limit: int, ops: seq<Op>)
    ensures var h := Run(EMPTY, limit, ops);
      && |Unread(h)| <= (if limit < 0 then 0 else limit)
      && (Waiting(h) > 0 ==> Unread(h) == [] && h.end.None?)
      && forall i :: 0 <= i < h.asked ==> (PromiseOf(h, i).Pending? <==> h.end.None? && h.asked - Waiting(h) <= i)
  {
    RunKeepsInv(EMPTY, limit, ops);
  }

  /** A settled promise never changes, whatever is done to the queue afterwards. */
  lemma {:induction false} SettledOnce(h: History, limit: int, ops: seq<Op>, i: nat)
    requires i < h.asked && !PromiseOf(h, i).Pending?
    ensures PromiseOf(Run(h, limit, ops), i) == PromiseOf(h, i)
    decreases |ops|
  {
    if ops != [] {
      assert PromiseOf(Step(h, limit, ops[0]), i) == PromiseOf(h, i);
      SettledOnce(Step(h, limit, ops[0]), limit, ops[1..], i);
    }
  }

  /** After a close or a failure no promise, made before or later, is pending, and nothing is accepted. */
  lemma {:induction false} NothingPendingAfterEnd(h: History, limit: int, ops: seq<Op>, i: nat)
    requires h.end.Some? && i < Run(h, limit, ops).asked
    ensures !PromiseOf(Run(h, limit, ops), i).Pending?
    ensures Run(h, limit, ops).accepted == h.accepted && Run(h, limit, ops).end == h.end
    decreases |ops|
  {
    if ops != [] { NothingPendingAfterEnd(Step(h, limit, ops[0]), limit, ops[1..], i); }
  }

  /** The events pushed by some operations, in order, accepted or not. */
  function Pushes(ops: seq<Op>): seq<Event>
    decreases |ops|
  {
    if ops == [] then []
    else (if ops[0].Push? then [ops[0].event] else []) + Pushes(ops[1..])
  }

  /** The events that the promises of some reads have delivered, in the order of the reads. */
  function Deliveries(promises: seq<Promise>): seq<Event> {
    if promises == [] then []
    else
      var last := promises[|promises| - 1];
      Deliveries(promises[..|promises| - 1]) + if last.Delivered? then [last.event] else []
  }

  /** What the first `n` reads get. */
  function PromisesOf(h: History, n: nat): (r: seq<Promise>)
    ensures |r| == n && forall i :: 0 <= i < n ==> r[i] == PromiseOf(h, i)
  {
    seq(n, i requires 0 <= i < n => PromiseOf(h, i))
  }

  lemma {:induction false} DeliveredSoFar(h: History, n: nat)
    ensures Deliveries(PromisesOf(h, n)) == if n <= |h.accepted| then h.accepted[..n] else h.accepted
    decreases n
  {
    if n > 0 {
      DeliveredSoFar(h, n - 1);
      assert PromisesOf(h, n)[..n - 1] == PromisesOf(h, n - 1);
      if n <= |h.accepted| { assert h.accepted[..n] == h.accepted[..n - 1] + [h.accepted[n - 1]]; }
    }
  }

  function Reads(ops: seq<Op>): nat
    decreases |ops|
  {
    if ops == [] then 0 else (if ops[0].Next? then 1 else 0) + Reads(ops[1..])
  }

  /**
   The operation ends a queue that is open after `before`: a close, a failure, or a push that finds no
   read waiting and as many events pushed and not read as the limit allows.
   */
  predicate EndsQueue(limit: int, before: seq<Op>, op: Op) {
    match op
    case Push(_) => Reads(before) <= |Pushes(before)| && |Pushes(before)| - Reads(before) >= limit
    case Next => false
    case _ => true
  }

  function EndingOf(op: Op): Ending {
    match op
    case Fail(reason) => FailedWith(reason)
    case Push(_) => FailedWith(OVERFLOW)
    case _ => Closed
  }

  /** The first operation that ends the queue is the one at `n`; none does when `n` is the length. */
  ghost predicate EndsAt(limit: int, ops: seq<Op>, n: nat) {
    && n <= |ops|
    && (forall k :: 0 <= k < n ==> !EndsQueue(limit, ops[..k], ops[k]))
    && (n < |ops| ==> EndsQueue(limit, ops[..n], ops[n]))
  }

  lemma {:induction false} RunOneMore(h: History, limit: int, ops: seq<Op>, op: Op)
    ensures Run(h, limit, ops + [op]) == Step(Run(h, limit, ops), limit, op)
    ensures Reads(ops + [op]) == Reads(ops) + if op.Next? then 1 else 0
    ensures Pushes(ops + [op]) == Pushes(ops) + if op.Push? then [op.event] else []
    decreases |ops|
  {
    if ops == [] {
      assert [op][1..] == [];
      assert Pushes([op]) == (if op.Push? then [op.event] else []) + Pushes([]);
    } else {
      assert (ops + [op])[1..] == ops[1..] + [op];
      RunOneMore(Step(h, limit, ops[0]), limit, ops[1..], op);
    }
  }

  /**
   Over every run: all events pushed before the first operation that ends the queue are accepted, none
   after it, and the queue has ended exactly when there is such an operation, in the way it says.
   */
  lemma {:induction false} AcceptedUntilTheEnd(limit: int, ops: seq<Op>) returns (n: nat)
    ensures EndsAt(limit, ops, n)
    ensures Run(EMPTY, limit, ops) == History(
      Pushes(ops[..n]), Reads(ops), if n < |ops| then Some(End(EndingOf(ops[n]), Reads(ops[..n]))) else None)
    decreases |ops|
  {
    n := 0;
    if ops != [] {
      var front, last := ops[..|ops| - 1], ops[|ops| - 1];
      assert ops == front + [last];
      RunOneMore(EMPTY, limit, front, last);
      n := AcceptedUntilTheEnd(limit, front);
      assert ops[..|ops|] == ops && forall k :: 0 <= k <= |front| ==> ops[..k] == front[..k];
      if n == |front| && !EndsQueue(limit, front, last) { n := |ops|; }
    }
  }

  lemma {:induction false} PrefixIsPushed(ops: seq<Op>, n: nat)
    requires n <= |ops|
    ensures Pushes(ops[..n]) <= Pushes(ops)
    decreases n
  {
    if n > 0 {
      PrefixIsPushed(ops[1..], n - 1);
      assert ops[..n][1..] == ops[1..][..n - 1];
    }
  }

  lemma GivenThenUnread(h: History)
    ensures var given := Deliveries(PromisesOf(h, h.asked));
      given + Unread(h) == h.accepted && (|h.accepted| <= h.asked ==> given == h.accepted)
  {
    DeliveredSoFar(h, h.asked);
  }

  /** A read that is given no event comes after all that are. */
  ghost predicate EndComesLast(promises: seq<Promise>) {
    forall i, j :: 0 <= i < |promises| && 0 <= j < |promises| ==>
      promises[j].Delivered? && !promises[i].Delivered? ==> j < i
  }

  /**
   Over every run, what the reads have been given, followed by what is still buffered, is exactly what
   was pushed, in order, up to the end of the queue: nothing is lost, repeated or reordered, and once
   as many reads as accepted events were made, all of them have been delivered, before any end.
   */
  lemma EventsInOrder(limit: int, ops: seq<Op>)
    ensures var h := Run(EMPTY, limit, ops);
      var promises := PromisesOf(h, h.asked);
      && Deliveries(promises) + Unread(h) == h.accepted <= Pushes(ops)
      && (h.end.None? ==> h.accepted == Pushes(ops))
      && (|h.accepted| <= h.asked ==> Deliveries(promises) == h.accepted)
      && EndComesLast(promises)
  {
    var n := AcceptedUntilTheEnd(limit, ops);
    PrefixIsPushed(ops, n);
    assert n == |ops| ==> ops[..n] == ops;
    GivenThenUnread(Run(EMPTY, limit, ops));
  }

  /**
   A read made after a failure, with everything drained, is rejected exactly when the error is
   truthy; a falsy one looks like a close, although it did reject the reads that were waiting.
   */
  lemma {:induction false} LateReadsSeeTruthyErrorsOnly(h: History, limit: int, reason: Reason, ops: seq<Op>)
    requires Inv(h, limit) && h.end.None? && |h.accepted| <= Run(Step(h, limit, Fail(reason)), limit, ops).asked
    ensures var t := Run(Step(h, limit, Fail(reason)), limit, ops);
      var late := PromiseOf(Step(t, limit, Next), t.asked);
      && (late == Rejected(reason) <==> reason.Truthy?) && (late == Finished <==> reason.Falsy?)
      && forall i :: |h.accepted| <= i < h.asked ==> PromiseOf(t, i) == Rejected(reason)
  {
    var failed := Step(h, limit, Fail(reason));
    var t := Run(failed, limit, ops);
    EndIsKept(failed, limit, ops);
  }

  /**
   Once the queue is closed, over every later run: the reads of accepted events have been or will be given
   them, and every other read, waiting at the close or made later, is finished and not rejected.
   */
  lemma {:induction false} ReadsFinishAfterClose(h: History, limit: int, ops: seq<Op>, i: nat)
    requires Inv(h, limit) && h.end.None? && i < Run(Step(h, limit, Close), limit, ops).asked
    ensures PromiseOf(Run(Step(h, limit, Close), limit, ops), i)
         == if i < |h.accepted| then Delivered(h.accepted[i]) else Finished
  {
    EndIsKept(Step(h, limit, Close), limit, ops);
  }

  lemma {:induction false} EndIsKept(h: History, limit: int, ops: seq<Op>)
    requires h.end.Some?
    ensures var t := Run(h, limit, ops); t.end == h.end && t.accepted == h.accepted && h.asked <= t.asked
    decreases |ops|
  {
    if ops != [] { EndIsKept(Step(h, limit, ops[0]), limit, ops[1..]); }
  }

  // ---------------------------------------------------------------------------------------------
  // The queue

  class EventQueue {
    const limit: int
    ghost var history: History
    var promises: seq<Promise>       // what next() has returned, in order
    var values: seq<Event>
    var waiters: seq<nat>            // the promises that wait, oldest first
    var error: Reason
    var ended: bool

    /** The waiters are the last promises, in order. */
    ghost predicate Consecutive()
      reads this
    {
      |waiters| <= |promises| && forall k :: 0 <= k < |waiters| ==> waiters[k] == |promises| - |waiters| + k
    }

    ghost predicate Valid()
      reads this
    {
      && Inv(history, limit)
      && |promises| == history.asked
      && (forall i :: 0 <= i < |promises| ==> promises[i] == PromiseOf(history, i))
      && values == Unread(history)
      && |waiters| == Waiting(history) && Consecutive()
      && ended == history.end.Some?
      && error == (if ended && history.end.value.ending.FailedWith? then history.end.value.ending.reason else UNDEFINED)
    }

    constructor (limit: int)
      ensures Valid() && this.limit == limit && history == EMPTY
    {
      this.limit := limit;
      history := EMPTY;
      promises, values, waiters, error, ended := [], [], [], UNDEFINED, false;
    }

    /** Settles a promise, which only a pending one may be. */
    method Settle(i: nat, outcome: Promise)
      requires i < |promises| && promises[i].Pending? && !outcome.Pending?
      modifies this`promises
      ensures promises == old(promises)[i := outcome]
    {
      promises := promises[i := outcome];
    }

    method Push(value: Event)
      requires Valid()
      modifies this
      ensures Valid() && history == Step(old(history), limit, Op.Push(value))
      ensures old(ended) ==> promises == old(promises) && values == old(values)
      ensures !old(ended) && old(waiters) != [] ==>
        && old(waiters)[0] < |old(promises)| && waiters == old(waiters)[1..] && values == old(values)
        && promises == old(promises)[old(waiters)[0] := Delivered(value)]
      ensures !old(ended) && old(waiters) == [] ==>
        && promises == old(promises)
        && (if |old(values)| < limit then values == old(values) + [value] && !ended
            else values == old(values) && ended && error == OVERFLOW)
    {
      if ended { return; }
      if waiters != [] {
        var waiter := waiters[0];
        waiters := waiters[1..];
        Settle(waiter, Delivered(value));
      } else if |values| >= limit {
        Fail(OVERFLOW);
        return;
      } else {
        values := values + [value];
      }
      history := history.(accepted := history.accepted + [value]);
    }

    method Next() returns (promise: nat)
      requires Valid()
      modifies this
      ensures Valid() && history == Step(old(history), limit, Op.Next) && promise == |old(promises)| < |promises|
      ensures promises == old(promises) + [
        if old(values) != [] then Delivered(old(values)[0])
        else if old(error).Truthy? then Rejected(old(error))
        else if old(ended) then Finished else Pending]
      ensures values == (if old(values) != [] then old(values)[1..] else [])
      ensures waiters == (if promises[promise].Pending? then old(waiters) + [promise] else old(waiters))
    {
      promise := |promises|;
      if values != [] {
        promises, values := promises + [Delivered(values[0])], values[1..];
      } else if error.Truthy? {
        promises := promises + [Rejected(error)];
      } else if ended {
        promises := promises + [Finished];
      } else {
        promises, waiters := promises + [Pending], waiters + [promise];
      }
      history := history.(asked := history.asked + 1);
    }

    method Close()
      requires Valid()
      modifies this
      ensures Valid() && history == Step(old(history), limit, Op.Close)
      ensures ended && values == old(values) && |promises| == |old(promises)|
      ensures forall i :: 0 <= i < |promises| ==>
        promises[i] == if old(promises)[i].Pending? then Finished else old(promises)[i]
    {
      if ended { return; }
      ended := true;
      SettleWaiters(Finished);
      history := Ended(history, Closed);
    }

    method Fail(reason: Reason)
      requires Valid()
      modifies this
      ensures Valid() && history == Step(old(history), limit, Op.Fail(reason))
      ensures ended && values == old(values) && |promises| == |old(promises)|
      ensures error == if old(ended) then old(error) else reason
      ensures forall i :: 0 <= i < |promises| ==>
        promises[i] == if old(promises)[i].Pending? then Rejected(reason) else old(promises)[i]
    {
      if ended { return; }
      error := reason;
      ended := true;
      SettleWaiters(Rejected(reason));
      history := Ended(history, FailedWith(reason));
    }

    /** Takes all waiters out of the queue and settles each alike. */
    method SettleWaiters(outcome: Promise)
      requires !outcome.Pending? && Consecutive()
      requires forall i :: |promises| - |waiters| <= i < |promises| ==> promises[i].Pending?
      modifies this`promises, this`waiters
      ensures waiters == [] && |promises| == |old(promises)|
      ensures forall i :: 0 <= i < |promises| ==>
        promises[i] == if i < |promises| - |old(waiters)| then old(promises)[i] else outcome
    {
      var taken := waiters;
      waiters := [];
      for k := 0 to |taken|
        invariant waiters == [] && |promises| == |old(promises)|
        invariant forall i :: 0 <= i < |promises| ==>
          promises[i] == if |promises| - |taken| <= i < |promises| - |taken| + k then outcome else old(promises)[i]
      {
        Settle(taken[k], outcome);
      }
    }
  }
}
