/** The sender of downloaded media, and what the receiver of MediaStream.dfy makes of its frames. */
module MediaDownload {
  import opened Basics
  import opened MediaStream

  datatype Frame = Metadata(size: nat, sha256: Bytes) | Chunk(data: Bytes)

  datatype SendError = TooLarge | SendFailed

  /** The smallest number of chunks that can hold `n` bytes. */
  function ChunkCount(n: nat): nat { (n + MAX_MEDIA_CHUNK_BYTES - 1) / MAX_MEDIA_CHUNK_BYTES }

  /** The chunks are the data in order, each full but the last, none empty. */
  ghost predicate Cuts(chunks: seq<Bytes>, data: Bytes) {
    && Concat(chunks) == data
    && |chunks| == ChunkCount(|data|)
    && forall i :: 0 <= i < |chunks| ==> 0 < |chunks[i]| <= MAX_MEDIA_CHUNK_BYTES
                                         && (i + 1 < |chunks| ==> |chunks[i]| == MAX_MEDIA_CHUNK_BYTES)
  }

  function Payloads(frames: seq<Frame>): seq<Bytes>
    requires forall i :: 0 <= i < |frames| ==> frames[i].Chunk?
    ensures |Payloads(frames)| == |frames|
    ensures forall i :: 0 <= i < |frames| ==> Payloads(frames)[i] == frames[i].data
  {
    seq(|frames|, i requires 0 <= i < |frames| => frames[i].data)
  }

  /** The chunks cut off before `offset`, which has passed the end once everything is cut. */
  ghost predicate CutUpTo(chunks: seq<Bytes>, data: Bytes, offset: nat) {
    && offset == |chunks| * MAX_MEDIA_CHUNK_BYTES
    && |chunks| <= ChunkCount(|data|)
    && Concat(chunks) == data[..Min(offset, |data|)]
    && forall i :: 0 <= i < |chunks| ==>
      |chunks[i]| == Min(MAX_MEDIA_CHUNK_BYTES, |data| - i * MAX_MEDIA_CHUNK_BYTES) > 0
  }

  lemma CutOneMore(chunks: seq<Bytes>, data: Bytes, offset: nat)
    requires CutUpTo(chunks, data, offset) && offset < |data|
    ensures var end := Min(offset + MAX_MEDIA_CHUNK_BYTES, |data|);
      CutUpTo(chunks + [data[offset..end]], data, offset + MAX_MEDIA_CHUNK_BYTES)
  {
    var more := chunks + [data[offset..Min(offset + MAX_MEDIA_CHUNK_BYTES, |data|)]];
    assert more[..|chunks|] == chunks;
  }

  lemma CutAll(chunks: seq<Bytes>, data: Bytes, offset: nat)
    requires CutUpTo(chunks, data, offset) && |data| <= offset
    ensures Cuts(chunks, data)
  {
  }

  /** The metadata and the chunks, framed. */
  ghost predicate Framed(sent: seq<Frame>, metadata: Frame, chunks: seq<Bytes>) {
    |sent| == |chunks| + 1 && sent[0] == metadata && forall i :: 1 <= i < |sent| ==> sent[i] == Chunk(chunks[i - 1])
  }

  lemma FramedPayloads(sent: seq<Frame>, metadata: Frame, chunks: seq<Bytes>)
    requires Framed(sent, metadata, chunks)
    ensures (forall i :: 1 <= i < |sent| ==> sent[i].Chunk?) && Payloads(sent[1..]) == chunks
  {
    assert forall i :: 0 <= i < |chunks| ==> sent[1..][i] == sent[i + 1];
  }

  /** Announces the data and sends it in chunks; the given send, if any, fails. */
  method DownloadMedia(data: Bytes, digest: Bytes -> Bytes, failing: Option<nat>)
    returns (r: Outcome<SendError>, sent: seq<Frame>)
    ensures |data| > 104857600 ==> r == Failed(TooLarge) && sent == []
    ensures |data| <= MAX_MEDIA_BYTES ==>
      && r == (if failing.None? || failing.value > ChunkCount(|data|) then Done else Failed(SendFailed))
      && |sent| == (if r == Done then ChunkCount(|data|) + 1 else failing.value)
      && (sent != [] ==> sent[0] == Metadata(|data|, digest(data)))
      && (forall i :: 1 <= i < |sent| ==> sent[i].Chunk?)
    ensures |data| <= MAX_MEDIA_BYTES && sent != [] ==>
      (if r == Done then Cuts(Payloads(sent[1..]), data) else Concat(Payloads(sent[1..])) <= data)
    ensures forall i :: 1 <= i < |sent| - 1 ==> sent[i].Chunk? && |sent[i].data| == 65536
  {
    sent := [];
    if |data| > MAX_MEDIA_BYTES { return Failed(TooLarge), []; }
    if failing == Some(0) { return Failed(SendFailed), []; }
    var metadata := Metadata(|data|, digest(data));
    ghost var chunks: seq<Bytes> := [];
    sent := [metadata];
    var offset := 0;
    while offset < |data|
      invariant CutUpTo(chunks, data, offset) && Framed(sent, metadata, chunks)
      invariant failing.Some? ==> failing.value > |chunks|
      decreases |data| - offset
    {
      var end := Min(offset + MAX_MEDIA_CHUNK_BYTES, |data|);
      CutOneMore(chunks, data, offset);
      if failing == Some(|sent|) {
        FramedPayloads(sent, metadata, chunks);
        return Failed(SendFailed), sent;
      }
      sent := sent + [Chunk(data[offset..end])];
      chunks := chunks + [data[offset..end]];
      offset := offset + MAX_MEDIA_CHUNK_BYTES;
    }
    FramedPayloads(sent, metadata, chunks);
    CutAll(chunks, data, offset);
    r := Done;
  }

  /** A complete download always fits what its metadata declares. */
  lemma CutsAreComplete(chunks: seq<Bytes>, data: Bytes, digest: Bytes -> Bytes)
    requires |data| <= MAX_MEDIA_BYTES && Cuts(chunks, data)
    ensures Complete(Incoming(chunks, Done), |data|, digest(data), digest)
  {
  }

  /**
   What the sender sends, the receiver accepts: a consumer that reads to the end gets exactly the
   data, sees the end of the input, and its result is the result of the whole.
   */
  method SendThenReceive<T>(data: Bytes, consumer: Consumer<T>, digest: Bytes -> Bytes)
    returns (r: Received<T>, trace: Trace)
    requires |data| <= MAX_MEDIA_BYTES && |digest(data)| == SHA256_SIZE
    requires Patient(consumer, data)
    ensures trace.joins == 1 && trace.read == data && trace.end == Some(Eof)
    ensures r.hash == Some(digest(data))
    ensures
      var returned := if consumer.stops(data).Some? then consumer.stops(data).value else consumer.ends(data, Eof);
      r.outcome == match returned case Ok(value) => Ok(value) case Err(text) => Err(ConsumeFailed(text))
  {
    var sending, sent := DownloadMedia(data, digest, None);
    var incoming := Incoming(Payloads(sent[1..]), Done);
    CutsAreComplete(incoming.chunks, data, digest);
    r, trace := ReceiveMedia(sent[0].size, sent[0].sha256, incoming, consumer, None, digest);
  }
}
