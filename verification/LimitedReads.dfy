/** The reader that cuts a downloaded body off at a limit and reports that it did. */
module LimitedReads {
  import opened Basics

  const INT64_MAX: int := 0x7FFF_FFFF_FFFF_FFFF
  const INT64_SPAN: int := 0x1_0000_0000_0000_0000

  /** The sum of two 64-bit integers, wrapping at the end of the range. */
  function Add64(a: int, b: int): int { if a + b > INT64_MAX then a + b - INT64_SPAN else a + b }

  datatype ReadError = Eof | BodyFailed | LimitExceeded

  /** How a body answers one read: the bytes it has ready, and whether it reports its end with the last ones. */
  datatype Answer = Answer(ready: nat, eager: bool)

  datatype ReadResult = ReadResult(chunk: Bytes, error: Option<ReadError>)

  /** A response body: its bytes, then its end. */
  class Body {
    const data: Bytes
    const end: ReadError
    var position: nat

    ghost predicate Valid()
      reads this
    {
      position <= |data| && end != LimitExceeded
    }

    constructor (data: Bytes, end: ReadError)
      requires end != LimitExceeded
      ensures Valid() && this.data == data && this.end == end && position == 0
    {
      this.data, this.end, position := data, end, 0;
    }

    method Read(length: nat, answer: Answer) returns (r: ReadResult)
      requires Valid()
      modifies this
      ensures Valid() && position == old(position) + |r.chunk|
      ensures |r.chunk| == Min(length, Min(answer.ready, |data| - old(position)))
      ensures r.chunk == data[old(position)..position]
      ensures r.error.Some? ==> position == |data| && r.error == Some(end)
      ensures r.chunk == [] && length > 0 && answer.ready > 0 ==> r.error == Some(end)
    {
      var n := Min(length, Min(answer.ready, |data| - position));
      var chunk := data[position..position + n];
      position := position + n;
      var ended := position == |data| && length > 0 && (n == 0 || answer.eager);
      r := ReadResult(chunk, if ended then Some(end) else None);
    }
  }

  /** At most `budget` more bytes of a body, then an end of its own. */
  class LimitReader {
    const body: Body
    var budget: int

    constructor (body: Body, budget: int)
      ensures this.body == body && this.budget == budget
    {
      this.body, this.budget := body, budget;
    }

    method Read(length: nat, answer: Answer) returns (r: ReadResult)
      requires body.Valid()
      modifies this, body
      ensures body.Valid() && body.position == old(body.position) + |r.chunk|
      ensures budget == old(budget) - |r.chunk| && |r.chunk| <= length
      ensures old(budget) > 0 ==>
        && |r.chunk| == Min(Min(length, old(budget)), Min(answer.ready, |body.data| - old(body.position)))
        && (r.error.Some? ==> body.position == |body.data| && r.error == Some(body.end))
        && (r.chunk == [] && length > 0 && answer.ready > 0 ==> r.error == Some(body.end))
      ensures old(budget) <= 0 ==> r == ReadResult([], Some(Eof))
      ensures r.chunk == body.data[old(body.position)..body.position]
    {
      if budget <= 0 { return ReadResult([], Some(Eof)); }
      r := body.Read(if length > budget then budget else length, answer);
      budget := budget - |r.chunk|;
    }
  }

  /** The limited body handed to the caller. */
  class LimitReadCloser {
    const max: int
    const reader: LimitReader
    ghost var delivered: Bytes
    var remaining: int
    var exceeded: bool

    /**
     What is left of the limit is one less than the inner reader's budget, so the inner reader's own
     end is never met; past the limit, exactly `max` bytes have been delivered.
     */
    ghost predicate Valid()
      reads this, reader, reader.body
    {
      && 1 <= max <= INT64_MAX && reader.body.Valid()
      && delivered <= reader.body.data && |delivered| <= max
      && (exceeded ==> |delivered| == max && max < |reader.body.data|)
      && (max == INT64_MAX ==> delivered == [] && !exceeded)
      && (!exceeded ==> |delivered| == reader.body.position == max - remaining && reader.budget == Add64(remaining, 1))
    }

    constructor (body: Body, maxBytes: int)
      requires body.Valid() && body.position == 0 && 1 <= maxBytes <= INT64_MAX
      ensures Valid() && max == maxBytes && reader.body == body && fresh(reader) && delivered == [] && !exceeded
    {
      max, remaining, exceeded, delivered := maxBytes, maxBytes, false, [];
      reader := new LimitReader(body, Add64(maxBytes, 1));
    }

    /**
     One read.  A slice bound that has wrapped below zero panics, which is what every read does when
     the limit is the largest 64-bit integer, and none does otherwise.
     */
    method Read(length: nat, answer: Answer) returns (panicked: bool, r: ReadResult)
      requires Valid()
      modifies this`delivered, this`remaining, this`exceeded, reader, reader.body
      ensures Valid() && panicked == (max == INT64_MAX)
      ensures delivered == old(delivered) + r.chunk && |r.chunk| <= length
      ensures old(exceeded) ==> exceeded && r == ReadResult([], Some(LimitExceeded))
      ensures !panicked ==> (r.error == Some(LimitExceeded) <==> exceeded)
      ensures r.error.Some? && !exceeded ==> delivered == reader.body.data && r.error == Some(reader.body.end)
      ensures !panicked && length > 0 && answer.ready > 0 ==> r.chunk != [] || r.error.Some?
    {
      if exceeded { return false, ReadResult([], Some(LimitExceeded)); }
      var size := length;
      if length > Add64(remaining, 1) {
        size := Add64(remaining, 1);
        if size < 0 { return true, ReadResult([], None); }
      }
      r := reader.Read(size, answer);
      panicked := false;
      var n := |r.chunk|;
      if n > remaining {
        exceeded := true;
        var allowed := if remaining <= 0 then [] else r.chunk[..remaining];
        remaining := if remaining <= 0 then remaining else 0;
        delivered := delivered + allowed;
        return false, ReadResult(allowed, Some(LimitExceeded));
      }
      remaining := remaining - n;
      delivered := delivered + r.chunk;
    }
  }

  /** The answers always have something ready, which is what makes reading to the end terminate. */
  ghost predicate Ready(answers: nat -> Answer) {
    forall i :: answers(i).ready > 0
  }

  /**
   Reads in any sizes until an error.  A body within the limit is delivered whole, with its own end;
   of a larger one exactly the first `max` bytes are, with the limit error.
   */
  method ReadAll(limited: LimitReadCloser, sizes: nat -> nat, answers: nat -> Answer)
    returns (all: Bytes, error: ReadError)
    requires limited.Valid() && limited.delivered == [] && !limited.exceeded && limited.max < INT64_MAX
    requires Ready(answers) && forall i :: sizes(i) > 0
    modifies limited`delivered, limited`remaining, limited`exceeded, limited.reader, limited.reader.body
    ensures limited.Valid()
    ensures var data := limited.reader.body.data;
      if |data| <= limited.max then all == data && error == limited.reader.body.end && !limited.exceeded
      else all == data[..limited.max] && error == LimitExceeded && limited.exceeded
  {
    all := [];
    var i := 0;
    while true
      invariant limited.Valid() && all == limited.delivered && !limited.exceeded
      decreases limited.max - |all|
    {
      var panicked, r := limited.Read(sizes(i), answers(i));
      all := all + r.chunk;
      if r.error.Some? { return all, r.error.value; }
      i := i + 1;
    }
  }

  function Delivery(results: seq<ReadResult>): Bytes {
    if results == [] then [] else Delivery(results[..|results| - 1]) + results[|results| - 1].chunk
  }

  /** What any sequence of reads from a fresh reader has returned. */
  ghost predicate WithinLimit(results: seq<ReadResult>, data: Bytes, max: int) {
    && Delivery(results) <= data && |Delivery(results)| <= max
    && (forall i, j :: 0 <= i < j < |results| && results[i].error == Some(LimitExceeded) ==>
      results[j] == ReadResult([], Some(LimitExceeded)))
    && (forall i :: 0 <= i < |results| && results[i].error == Some(LimitExceeded) ==>
      max < |data| && |Delivery(results)| == max)
  }

  /**
   Any reads, of any sizes, with any answers of the body: together they return a prefix of at most
   `max` bytes; a limit error only comes after exactly `max` bytes of a larger body, and then forever.
   */
  method ReadEach(limited: LimitReadCloser, calls: seq<(nat, Answer)>) returns (results: seq<ReadResult>)
    requires limited.Valid() && limited.delivered == [] && !limited.exceeded
    modifies limited`delivered, limited`remaining, limited`exceeded, limited.reader, limited.reader.body
    ensures limited.Valid() && |results| == if limited.max == INT64_MAX then 0 else |calls|
    ensures WithinLimit(results, limited.reader.body.data, limited.max)
  {
    results := [];
    for i := 0 to |calls|
      invariant limited.Valid() && |results| == i && Delivery(results) == limited.delivered
      invariant i > 0 ==> limited.max < INT64_MAX
      invariant forall j :: 0 <= j < i && results[j].error == Some(LimitExceeded) ==> limited.exceeded
      invariant forall j, k :: 0 <= j < k < i && results[j].error == Some(LimitExceeded) ==>
        results[k] == ReadResult([], Some(LimitExceeded))
    {
      var panicked, r := limited.Read(calls[i].0, calls[i].1);
      if panicked { return; }
      assert (results + [r])[..i] == results;
      results := results + [r];
    }
  }
}
