/**
 Media over a stream: the receiver that checks an upload while a consumer reads it through a pipe,
 and the sender that cuts a download into chunks.
 */
module MediaStream {
  import opened Basics

  const MAX_MEDIA_CHUNK_BYTES: nat := 65536
  const MAX_MEDIA_BYTES: nat := 104857600
  const SHA256_SIZE: nat := 32

  datatype MediaError =
    | InvalidSize
    | InvalidHashLength
    | ChunkTooLarge
    | ExceedsDeclared
    | SizeMismatch
    | HashMismatch
    | ClosedPipe
    | Canceled
    | RecvFailed(text: string)
    | ConsumeFailed(text: string)

  /** How a stream of chunks ends. */
  datatype End = Eof | Broken(error: MediaError)

  datatype Incoming = Incoming(chunks: seq<Bytes>, end: Outcome<string>)

  /**
   A consumer as a function of what it has read: whether it returns already, how much it reads at
   once, and what it returns when it meets the end of the pipe.
   */
  datatype Consumer<!T> = Consumer(
    stops: Bytes -> Option<Result<T, string>>, appetite: Bytes -> nat, ends: (Bytes, End) -> Result<T, string>)

  /** The bytes of the chunks, in order. */
  ghost function Concat(chunks: seq<Bytes>): Bytes {
    if chunks == [] then [] else Concat(chunks[..|chunks| - 1]) + chunks[|chunks| - 1]
  }

  lemma ConcatOneMore(chunks: seq<Bytes>, i: nat)
    requires i < |chunks|
    ensures Concat(chunks[..i + 1]) == Concat(chunks[..i]) + chunks[i]
  {
    assert chunks[..i + 1][..i] == chunks[..i];
  }

  lemma {:induction false} ConcatPrefix(chunks: seq<Bytes>, i: nat)
    requires i <= |chunks|
    ensures Concat(chunks[..i]) <= Concat(chunks)
    decreases |chunks| - i
  {
    if i == |chunks| {
      assert chunks[..i] == chunks;
    } else {
      ConcatOneMore(chunks, i);
      ConcatPrefix(chunks, i + 1);
    }
  }

  /** No chunk and no sum of chunks is larger than allowed. */
  ghost predicate Fits(chunks: seq<Bytes>, size: int) {
    (forall i :: 0 <= i < |chunks| ==> |chunks[i]| <= MAX_MEDIA_CHUNK_BYTES) && |Concat(chunks)| <= size
  }

  predicate ValidArguments(size: int, expected: Bytes) {
    0 <= size <= MAX_MEDIA_BYTES && (|expected| == 0 || |expected| == SHA256_SIZE)
  }

  /** The payload is what was declared. */
  ghost predicate Declared(payload: Bytes, size: int, expected: Bytes, digest: Bytes -> Bytes) {
    |payload| == size && (expected == [] || digest(payload) == expected)
  }

  /** The consumer does not return before it has read the whole payload. */
  ghost predicate Patient<T>(consumer: Consumer<T>, payload: Bytes) {
    forall p :: p < payload ==> consumer.stops(p).None?
  }

  /** What the consumer returns once the pipe has ended. */
  function Finished<T>(consumer: Consumer<T>, read: Bytes, end: End): Result<T, string> {
    if consumer.stops(read).Some? then consumer.stops(read).value else consumer.ends(read, end)
  }

  /**
   An in-memory pipe with its consumer.  The context may be canceled after any number of reads, none
   included; between two reads nobody can tell when exactly it was.
   */
  class Pipe<!T> {
    const consumer: Consumer<T>
    const cancel: Option<nat>
    var offered: Bytes               // everything passed to Write
    var read: Bytes                  // what the consumer has read
    var writeEnd: Option<End>        // how the writer closed; the first close counts
    var result: Option<Result<T, string>>
    var ticks: nat
    var joins: nat

    ghost predicate Open()
      reads this
    {
      writeEnd.None? && result.None?
    }

    /** The consumer has returned before it read everything, and `failure` is what came of that. */
    ghost predicate Returned(failure: MediaError)
      reads this
    {
      && result.Some? && result == consumer.stops(read) && |read| < |offered|
      && failure == match result.value case Err(text) => ConsumeFailed(text) case Ok(_) => ClosedPipe
    }

    constructor (consumer: Consumer<T>, cancel: Option<nat>)
      ensures this.consumer == consumer && this.cancel == cancel && result.None?
      ensures writeEnd == if cancel == Some(0) then Some(Broken(Canceled)) else None
      ensures offered == [] && read == [] && joins == 0
    {
      this.consumer, this.cancel := consumer, cancel;
      offered, read, result, ticks, joins := [], [], None, 0, 0;
      writeEnd := if cancel == Some(0) then Some(Broken(Canceled)) else None;
    }

    /** One more read is done: the context may be canceled now, which closes the writer. */
    method Tick()
      modifies this`ticks, this`writeEnd
      ensures writeEnd == old(writeEnd) || (old(writeEnd).None? && cancel.Some? && writeEnd == Some(Broken(Canceled)))
    {
      ticks := ticks + 1;
      if cancel == Some(ticks) { CloseWith(Broken(Canceled)); }
    }

    method CloseWith(end: End)
      modifies this`writeEnd
      ensures writeEnd == if old(writeEnd).Some? then old(writeEnd) else Some(end)
    {
      if writeEnd.None? { writeEnd := Some(end); }
    }

    /**
     Hands data to the consumer and returns when all of it is read, or when either side is closed.
     */
    method Write(data: Bytes) returns (failed: Option<MediaError>)
      requires read == offered && data != []
      modifies this`offered, this`read, this`writeEnd, this`result, this`ticks
      ensures offered == old(offered) + data && old(read) <= read <= offered
      ensures failed.None? ==> read == offered && result == old(result)
      ensures failed.Some? ==> !Open()
      ensures old(writeEnd).Some? ==> read == old(read)
      ensures writeEnd == old(writeEnd) || (old(writeEnd).None? && cancel.Some? && writeEnd == Some(Broken(Canceled)))
      ensures old(Open()) && Patient(consumer, old(offered) + data) ==>
        (failed.None? && Open()) || writeEnd == Some(Broken(Canceled))
      ensures old(Open()) && failed.Some? && writeEnd.None? ==> Returned(failed.value)
    {
      offered := offered + data;
      var left := data;
      while left != []
        invariant offered == old(offered) + data && old(read) <= read && read + left == offered
        invariant result == old(result)
        invariant old(writeEnd).Some? ==> read == old(read)
        invariant
          || writeEnd == old(writeEnd)
          || (old(writeEnd).None? && cancel.Some? && writeEnd == Some(Broken(Canceled)))
        decreases |left|
      {
        if writeEnd.Some? { return Some(ClosedPipe); }
        if result.None? { result := consumer.stops(read); }
        if result.Some? {
          assert read < offered;
          return Some(if result.value.Err? then ConsumeFailed(result.value.error) else ClosedPipe);
        }
        var wanted := if consumer.appetite(read) == 0 then 1 else consumer.appetite(read);
        var n := Min(wanted, |left|);
        read, left := read + left[..n], left[n..];
        Tick();
      }
      return None;
    }

    /** Waits for the consumer, which only returns for sure once one side of the pipe is closed. */
    method Join() returns (returned: Result<T, string>)
      requires !Open()
      modifies this`result, this`joins
      ensures joins == old(joins) + 1
      ensures old(result).Some? ==> returned == old(result).value
      ensures old(result).None? ==> returned == Finished(consumer, read, old(writeEnd).value)
    {
      joins := joins + 1;
      if result.None? { result := Some(Finished(consumer, read, writeEnd.value)); }
      returned := result.value;
    }
  }

  datatype Received<+T> = Received(outcome: Result<T, MediaError>, hash: Option<Bytes>)

  /** What happened at the pipe of one call. */
  datatype Trace = Trace(joins: nat, forwarded: nat, read: Bytes, end: Option<End>)

  /** Neither a cancellation nor an early return of the consumer got in the way. */
  ghost predicate Undisturbed<T>(incoming: Incoming, consumer: Consumer<T>, end: Option<End>) {
    end != Some(Broken(Canceled)) && Patient(consumer, Concat(incoming.chunks))
  }

  /** Undisturbed, and every chunk fits. */
  ghost predicate AllTaken<T>(incoming: Incoming, size: int, consumer: Consumer<T>, end: Option<End>) {
    Undisturbed(incoming, consumer, end) && Fits(incoming.chunks, size)
  }

  /** Everything was received and is what was declared. */
  ghost predicate Complete(incoming: Incoming, size: int, expected: Bytes, digest: Bytes -> Bytes) {
    incoming.end.Done? && Fits(incoming.chunks, size) && Declared(Concat(incoming.chunks), size, expected, digest)
  }

  /** The error for a payload that is not what was declared. */
  function Mismatch(payload: Bytes, size: int, expected: Bytes, digest: Bytes -> Bytes): (m: Option<MediaError>)
    ensures m.None? <==> Declared(payload, size, expected, digest)
    ensures m.Some? ==> m.value == if |payload| != size then SizeMismatch else HashMismatch
  {
    if |payload| != size then Some(SizeMismatch)
    else if |expected| > 0 && digest(payload) != expected then Some(HashMismatch)
    else None
  }

  /** The outcome for a consumer's result once the payload has been checked. */
  function Judged<T>(mismatch: Option<MediaError>, returned: Result<T, string>): Result<T, MediaError> {
    if mismatch.Some? then Err(mismatch.value)
    else match returned case Ok(value) => Ok(value) case Err(text) => Err(ConsumeFailed(text))
  }

  /** The state of the receive loop after `i` chunks. */
  ghost predicate Receiving<T>(pipe: Pipe<T>, chunks: seq<Bytes>, i: nat, size: int)
    reads pipe
  {
    i <= |chunks| && pipe.offered == Concat(chunks[..i]) && pipe.read == pipe.offered
    && Fits(chunks[..i], size) && pipe.joins == 0
  }

  /** One data chunk: checked, then handed to the consumer; tells why the loop must end here. */
  method Take<T>(pipe: Pipe<T>, ghost chunks: seq<Bytes>, ghost i: nat, data: Bytes, received: nat, size: int)
    returns (failure: Option<MediaError>, total: nat)
    requires i < |chunks| && data == chunks[i] && Receiving(pipe, chunks, i, size) && received == |pipe.offered|
    modifies pipe`offered, pipe`read, pipe`writeEnd, pipe`result, pipe`ticks
    ensures pipe.joins == 0 && |pipe.offered| <= size && pipe.read <= pipe.offered <= Concat(chunks)
    ensures failure.None? ==>
      Receiving(pipe, chunks, i + 1, size) && total == |pipe.offered| && pipe.result == old(pipe.result)
    ensures failure.Some? ==> !pipe.Open()
    ensures failure.None? && pipe.cancel.None? ==> pipe.writeEnd == old(pipe.writeEnd)
    ensures
      || pipe.writeEnd == old(pipe.writeEnd)
      || (old(pipe.writeEnd).None? && pipe.writeEnd.Some? && pipe.writeEnd.value.Broken?)
    ensures old(pipe.writeEnd).Some? ==> pipe.read == old(pipe.read)
    ensures pipe.cancel.None? && old(pipe.writeEnd) != Some(Broken(Canceled)) ==>
      pipe.writeEnd != Some(Broken(Canceled))
    ensures old(pipe.Open()) && pipe.writeEnd != Some(Broken(Canceled)) && Patient(pipe.consumer, Concat(chunks)) ==>
      (failure.None? ==> pipe.Open())
      && (failure.Some? <==> !Fits(chunks[..i + 1], size))
      && (failure.Some? ==> failure.value == if |data| > MAX_MEDIA_CHUNK_BYTES then ChunkTooLarge else ExceedsDeclared)
    ensures old(pipe.Open()) && failure.Some? && pipe.writeEnd.None? ==> pipe.Returned(failure.value)
    ensures old(pipe.Open()) && pipe.cancel.None? && |pipe.read| < |pipe.offered| ==> pipe.writeEnd.None?
  {
    total := received;
    ConcatOneMore(chunks, i);
    ConcatPrefix(chunks, i);
    ConcatPrefix(chunks, i + 1);
    assert forall j :: 0 <= j < i ==> chunks[..i + 1][j] == chunks[..i][j];
    if |data| > MAX_MEDIA_CHUNK_BYTES {
      assert chunks[..i + 1][i] == data;
      pipe.CloseWith(Broken(ChunkTooLarge));
      return Some(ChunkTooLarge), total;
    }
    if received + |data| > size {
      pipe.CloseWith(Broken(ExceedsDeclared));
      return Some(ExceedsDeclared), total;
    }
    assert Fits(chunks[..i + 1], size);
    if |data| == 0 { return None, total; }
    total := received + |data|;
    failure := pipe.Write(data);
  }

  /** The receive loop: every chunk in turn, until one of them ends it. */
  method TakeAll<T>(pipe: Pipe<T>, chunks: seq<Bytes>, size: nat) returns (failure: Option<MediaError>, ghost at: nat)
    requires pipe.joins == 0 && pipe.offered == [] && pipe.read == [] && pipe.result.None?
    requires pipe.writeEnd.None? || (pipe.cancel.Some? && pipe.writeEnd == Some(Broken(Canceled)))
    modifies pipe`offered, pipe`read, pipe`writeEnd, pipe`result, pipe`ticks
    ensures pipe.joins == 0 && |pipe.offered| <= size && pipe.read <= pipe.offered <= Concat(chunks)
    ensures failure.None? ==>
      Fits(chunks, size) && pipe.offered == Concat(chunks) && pipe.read == Concat(chunks) && pipe.result.None?
    ensures failure.Some? ==> !pipe.Open()
    ensures pipe.writeEnd.Some? ==> pipe.writeEnd.value.Broken?
    ensures old(pipe.writeEnd).Some? ==> pipe.writeEnd == old(pipe.writeEnd) && pipe.read == []
    ensures pipe.cancel.None? ==> pipe.writeEnd != Some(Broken(Canceled))
    ensures pipe.writeEnd != Some(Broken(Canceled)) && Patient(pipe.consumer, Concat(chunks)) ==>
      if Fits(chunks, size) then failure.None? && pipe.Open()
      else MisfitAt(chunks, at, size)
           && failure == Some(if |chunks[at]| > MAX_MEDIA_CHUNK_BYTES then ChunkTooLarge else ExceedsDeclared)
    ensures failure.Some? && pipe.writeEnd.None? ==> pipe.Returned(failure.value)
    ensures pipe.cancel.None? && |pipe.read| < |pipe.offered| ==> pipe.writeEnd.None?
  {
    var i, received := 0, 0;
    at := 0;
    while i < |chunks|
      invariant Receiving(pipe, chunks, i, size) && received == |pipe.offered| && pipe.result.None?
      invariant pipe.writeEnd.Some? ==> pipe.writeEnd.value.Broken?
      invariant old(pipe.writeEnd).Some? ==> pipe.writeEnd == old(pipe.writeEnd) && pipe.read == []
      invariant pipe.cancel.None? ==> pipe.writeEnd.None?
      invariant Patient(pipe.consumer, Concat(chunks)) ==> pipe.Open() || pipe.writeEnd == Some(Broken(Canceled))
    {
      at := i;
      failure, received := Take(pipe, chunks, i, chunks[i], received, size);
      if failure.Some? {
        FitsPrefix(chunks, i + 1, size);
        return;
      }
      i := i + 1;
    }
    assert chunks[..i] == chunks;
    failure := None;
  }

  lemma FitsPrefix(chunks: seq<Bytes>, i: nat, size: int)
    requires i <= |chunks|
    ensures Fits(chunks, size) ==> Fits(chunks[..i], size)
  {
    ConcatPrefix(chunks, i);
  }

  /** The chunks before `k` fit and those up to it do not. */
  ghost predicate MisfitAt(chunks: seq<Bytes>, k: nat, size: int) {
    k < |chunks| && Fits(chunks[..k], size) && !Fits(chunks[..k + 1], size)
  }

  /** Where a list of chunks stops fitting is determined. */
  lemma OneFirstMisfit(chunks: seq<Bytes>, size: int, i: nat, j: nat)
    requires MisfitAt(chunks, i, size) && MisfitAt(chunks, j, size)
    ensures i == j && !Fits(chunks, size)
  {
    FitsPrefix(chunks, i + 1, size);
    if i < j {
      assert chunks[..j][..i + 1] == chunks[..i + 1];
      FitsPrefix(chunks[..j], i + 1, size);
    } else if j < i {
      assert chunks[..i][..j + 1] == chunks[..j + 1];
      FitsPrefix(chunks[..i], j + 1, size);
    }
  }

  lemma OnlyMisfit(chunks: seq<Bytes>, size: int, at: nat)
    ensures forall k: nat :: MisfitAt(chunks, k, size) ==>
      !Fits(chunks, size) && (MisfitAt(chunks, at, size) ==> k == at)
  {
    forall k: nat | MisfitAt(chunks, k, size)
      ensures !Fits(chunks, size) && (MisfitAt(chunks, at, size) ==> k == at)
    {
      OneFirstMisfit(chunks, size, k, k);
      if MisfitAt(chunks, at, size) { OneFirstMisfit(chunks, size, k, at); }
    }
  }

  /** The end of the input: the payload is checked before the pipe is closed. */
  method EndOfInput<T>(pipe: Pipe<T>, size: int, expected: Bytes, hash: Bytes, ghost digest: Bytes -> Bytes)
    returns (r: Received<T>)
    requires pipe.result.None? && pipe.joins == 0 && pipe.read == pipe.offered && hash == digest(pipe.offered)
    requires pipe.writeEnd.Some? ==> pipe.writeEnd.value.Broken?
    modifies pipe
    ensures pipe.joins == 1 && pipe.offered == old(pipe.offered) && pipe.read == old(pipe.read) && pipe.writeEnd.Some?
    ensures old(pipe.writeEnd).Some? ==> pipe.writeEnd == old(pipe.writeEnd)
    ensures pipe.writeEnd == Some(Eof) || r.outcome.Ok? ==> Declared(pipe.read, size, expected, digest)
    ensures r.hash == Some(hash)
    ensures old(pipe.writeEnd).None? ==>
      var mismatch := Mismatch(pipe.read, size, expected, digest);
      && pipe.writeEnd == Some(if mismatch.Some? then Broken(mismatch.value) else Eof)
      && r.outcome == Judged(mismatch, Finished(pipe.consumer, pipe.read, pipe.writeEnd.value))
  {
    var mismatch :=
      if |pipe.read| != size then Some(SizeMismatch)
      else if |expected| > 0 && hash != expected then Some(HashMismatch)
      else None;
    pipe.CloseWith(if mismatch.Some? then Broken(mismatch.value) else Eof);
    var returned := pipe.Join();
    if mismatch.Some? { return Received(Err(mismatch.value), Some(hash)); }
    r := match returned
      case Ok(value) => Received(Ok(value), Some(hash))
      case Err(text) => Received(Err(ConsumeFailed(text)), Some(hash));
  }

  /** A failed receive or write: the consumer's own error comes first. */
  method Failed<T>(pipe: Pipe<T>, failure: MediaError) returns (r: Received<T>)
    requires !pipe.Open() && pipe.joins == 0
    modifies pipe`result, pipe`joins
    ensures pipe.joins == 1 && r.hash.None? && r.outcome.Err?
    ensures old(pipe.result).None? ==>
      var returned := Finished(pipe.consumer, pipe.read, pipe.writeEnd.value);
      r.outcome.error == if returned.Err? then ConsumeFailed(returned.error) else failure
    ensures old(pipe.writeEnd).None? && old(pipe.Returned(failure)) ==> r.outcome.error == failure
  {
    var returned := pipe.Join();
    r := Received(Err(if returned.Err? then ConsumeFailed(returned.error) else failure), None);
  }

  /** A chunk that is too large, alone or in sum: the consumer's result does not matter. */
  method Rejected<T>(pipe: Pipe<T>, failure: MediaError) returns (r: Received<T>)
    requires !pipe.Open() && pipe.joins == 0
    modifies pipe`result, pipe`joins
    ensures pipe.joins == 1 && r == Received(Err(failure), None)
  {
    var returned := pipe.Join();
    r := Received(Err(failure), None);
  }

  /** A chunk that was not taken: it was too large, or the pipe has been closed on either side. */
  method BrokenOff<T>(pipe: Pipe<T>, failure: MediaError) returns (r: Received<T>)
    requires !pipe.Open() && pipe.joins == 0
    modifies pipe`result, pipe`joins
    ensures pipe.joins == 1 && r.hash.None? && r.outcome.Err?
    ensures failure == ChunkTooLarge || failure == ExceedsDeclared ==> r.outcome.error == failure
    ensures old(pipe.writeEnd).None? && old(pipe.Returned(failure)) ==> r.outcome.error == failure
  {
    if failure == ChunkTooLarge || failure == ExceedsDeclared {
      r := Rejected(pipe, failure);
    } else {
      r := Failed(pipe, failure);
    }
  }

  /**
   Receives a payload of a declared size, and of a given hash if there is one, while a consumer reads
   it.  Success means the consumer has read the whole, checked payload; only then did it see the end
   of the input as such.  Past the argument checks the consumer is always waited for, once.
   */
  method ReceiveMedia<T>(size: int, expected: Bytes, incoming: Incoming, consumer: Consumer<T>, cancel: Option<nat>,
                         digest: Bytes -> Bytes)
    returns (r: Received<T>, trace: Trace)
    ensures ValidArguments(size, expected) <==> 0 <= size <= 104857600 && |expected| in {0, 32}
    ensures !ValidArguments(size, expected) ==>
      r.outcome.Err? && r.hash.None? && trace.joins == 0 && trace.end.None? && trace.forwarded == 0
      && r.outcome.error == if 0 <= size <= 104857600 then InvalidHashLength else InvalidSize
    ensures ValidArguments(size, expected) ==>
      trace.joins == 1 && trace.forwarded <= size && trace.read <= Concat(incoming.chunks)
    ensures cancel.None? ==> trace.end != Some(Broken(Canceled))
    ensures ValidArguments(size, expected) && cancel == Some(0) ==>
      trace.end == Some(Broken(Canceled)) && trace.read == []
    ensures trace.end == Some(Eof) ==>
      Complete(incoming, size, expected, digest) && trace.read == Concat(incoming.chunks)
    ensures r.outcome.Ok? ==>
      && Complete(incoming, size, expected, digest)
      && trace.read == Concat(incoming.chunks) && r.hash == Some(digest(trace.read))
    ensures ValidArguments(size, expected) && AllTaken(incoming, size, consumer, trace.end) && incoming.end.Done? ==>
      var payload := Concat(incoming.chunks);
      var stopped := consumer.stops(payload);
      var returned := if stopped.Some? then stopped.value else consumer.ends(payload, Eof);
      && r.hash == Some(digest(payload))
      && (|payload| != size ==> trace.end == Some(Broken(SizeMismatch)) && r.outcome == Err(SizeMismatch))
      && (|payload| == size && expected != [] && digest(payload) != expected ==>
            trace.end == Some(Broken(HashMismatch)) && r.outcome == Err(HashMismatch))
      && (|payload| == size && (expected == [] || digest(payload) == expected) ==>
            && trace.end == Some(Eof)
            && r.outcome == match returned case Ok(value) => Ok(value) case Err(text) => Err(ConsumeFailed(text)))
    ensures ValidArguments(size, expected) && AllTaken(incoming, size, consumer, trace.end) && incoming.end.Failed? ==>
      r.hash.None? && r.outcome.Err?
      && var returned := Finished(consumer, Concat(incoming.chunks), Broken(RecvFailed(incoming.end.error)));
         r.outcome.error == if returned.Err? then ConsumeFailed(returned.error) else RecvFailed(incoming.end.error)
    ensures ValidArguments(size, expected) && Undisturbed(incoming, consumer, trace.end) ==> forall k: nat ::
      MisfitAt(incoming.chunks, k, size) ==>
        r == Received(
          Err(if |incoming.chunks[k]| > 65536 then ChunkTooLarge else ExceedsDeclared), None)
    ensures cancel.None? && |trace.read| < trace.forwarded ==> trace.end.None?
    ensures ValidArguments(size, expected) && trace.end.None? ==>
      && |trace.read| < trace.forwarded && consumer.stops(trace.read).Some? && r.hash.None?
      && r.outcome == match consumer.stops(trace.read).value
                      case Err(text) => Err(ConsumeFailed(text))
                      case Ok(_) => Err(ClosedPipe)
  {
    if size < 0 || size > MAX_MEDIA_BYTES { return Received(Err(InvalidSize), None), Trace(0, 0, [], None); }
    if |expected| != 0 && |expected| != SHA256_SIZE {
      return Received(Err(InvalidHashLength), None), Trace(0, 0, [], None);
    }
    var pipe := new Pipe(consumer, cancel);
    var failure, at := TakeAll(pipe, incoming.chunks, size);
    OnlyMisfit(incoming.chunks, size, at);
    if failure.Some? {
      r := BrokenOff(pipe, failure.value);
    } else if incoming.end.Failed? {
      pipe.CloseWith(Broken(RecvFailed(incoming.end.error)));
      r := Failed(pipe, RecvFailed(incoming.end.error));
    } else {
      r := EndOfInput(pipe, size, expected, digest(pipe.offered), digest);
    }
    trace := Trace(pipe.joins, |pipe.offered|, pipe.read, pipe.writeEnd);
  }
}
