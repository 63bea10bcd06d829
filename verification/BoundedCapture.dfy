/**
Bounded capture of a pipe, fail-fast and truncating. Both loops read chunk by chunk; what they
return depends only on the bytes received before the stream ends.
*/
module BoundedCapture {
  import opened Wrappers
  import opened StdioFrames

  const MIN_LIMIT: nat := 1024
  const MAX_LIMIT: nat := 16 * 1024 * 1024
  const USIZE_MAX: nat := 0xFFFF_FFFF_FFFF_FFFF

  /** One completed read: some bytes (none at end of file), or an error. */
  datatype ReadEvent = Chunk(data: Bytes) | Fault

  datatype CaptureError = InvalidLimits | TooLarge | ReadFailed

  datatype TruncatedStream = TruncatedStream(bytes: Bytes, droppedBytes: nat)

  predicate ValidLimit(limit: nat) {
    MIN_LIMIT <= limit <= MAX_LIMIT
  }

  // ----- what the stream carries

  /** The bytes before the first end of file or error; the list running out is an end of file. */
  function Received(events: seq<ReadEvent>): Bytes {
    if events == [] || events[0].Fault? || events[0].data == [] then []
    else events[0].data + Received(events[1..])
  }

  predicate EndsCleanly(events: seq<ReadEvent>) {
    events == [] || (events[0].Chunk? && (events[0].data == [] || EndsCleanly(events[1..])))
  }

  function Min(a: nat, b: nat): nat {
    if a <= b then a else b
  }

  function Bounded(events: seq<ReadEvent>, max: nat): Result<Bytes, CaptureError> {
    if !ValidLimit(max) then Err(InvalidLimits)
    else if |Received(events)| > max then Err(TooLarge)
    else if EndsCleanly(events) then Ok(Received(events))
    else Err(ReadFailed)
  }

  function Truncating(events: seq<ReadEvent>, max: nat): Result<TruncatedStream, CaptureError> {
    if !EndsCleanly(events) then Err(ReadFailed)
    else
      var kept := Min(|Received(events)|, max);
      Ok(TruncatedStream(Received(events)[..kept], Min(|Received(events)| - kept, USIZE_MAX)))
  }

  /** The two policies agree: fail-fast succeeds with `b` exactly when truncation drops nothing and
      keeps `b`. */
  lemma PoliciesAgree(events: seq<ReadEvent>, max: nat, b: Bytes)
    requires ValidLimit(max)
    ensures Bounded(events, max) == Ok(b) <==> Truncating(events, max) == Ok(TruncatedStream(b, 0))
  {
    var all := Received(events);
    assert all[..|all|] == all;
  }

  /** What a clean stream carries, in bytes: the pieces up to the first end of file, one after the other. */
  lemma {:induction false} ReceivedIs(pieces: seq<Bytes>, rest: seq<ReadEvent>)
    requires forall i :: 0 <= i < |pieces| ==> pieces[i] != []
    ensures var events := seq(|pieces|, i requires 0 <= i < |pieces| => Chunk(pieces[i])) + [Chunk([])] + rest;
            Received(events) == Joined(pieces) && EndsCleanly(events)
  {
    var events := seq(|pieces|, i requires 0 <= i < |pieces| => Chunk(pieces[i])) + [Chunk([])] + rest;
    if pieces != [] {
      var later := pieces[1..];
      ReceivedIs(later, rest);
      assert events[1..] == seq(|later|, i requires 0 <= i < |later| => Chunk(later[i])) + [Chunk([])] + rest;
    }
  }

  function Joined(pieces: seq<Bytes>): Bytes {
    if pieces == [] then [] else pieces[0] + Joined(pieces[1..])
  }

  /** Truncation keeps the front of the stream, as much as the limit allows, and accounts for every other
      byte as long as their number fits the machine word. */
  lemma TruncationAccounts(events: seq<ReadEvent>, max: nat)
    ensures Truncating(events, max).Ok? <==> EndsCleanly(events)
    ensures EndsCleanly(events) ==>
              var kept, all := Truncating(events, max).value, Received(events);
              && kept.bytes <= all && |kept.bytes| <= max
              && (|kept.bytes| < max ==> kept.bytes == all)
              && (|all| - |kept.bytes| < 0x1_0000_0000_0000_0000 ==> |kept.bytes| + kept.droppedBytes == |all|)
              && (|all| - |kept.bytes| >= 0x1_0000_0000_0000_0000 ==> kept.droppedBytes == 0xFFFF_FFFF_FFFF_FFFF)
  {
    var all := Received(events);
    assert |all| <= max ==> all[..|all|] == all;
  }

  /** Fail-fast capture: the whole stream for limits from 1 KiB to 16 MiB that it fits, else the reason. */
  lemma BoundedIsWhole(events: seq<ReadEvent>, max: nat, b: Bytes)
    ensures Bounded(events, max) == Ok(b) <==>
            1024 <= max <= 16_777_216 && EndsCleanly(events) && b == Received(events) && |b| <= max
    ensures Bounded(events, max) == Err(InvalidLimits) <==> max < 1024 || max > 16_777_216
    ensures Bounded(events, max) == Err(TooLarge) <==> 1024 <= max <= 16_777_216 && |Received(events)| > max
  {
  }

  /** Neither policy depends on how the pipe was cut into chunks. */
  lemma {:induction false} ChunkingIsIrrelevant(events: seq<ReadEvent>, i: nat, cut: nat, max: nat)
    requires i < |events| && events[i].Chunk? && 0 < cut < |events[i].data|
    ensures var data := events[i].data;
            var split := events[..i] + [Chunk(data[..cut]), Chunk(data[cut..])] + events[i + 1..];
            Received(split) == Received(events) && (EndsCleanly(split) <==> EndsCleanly(events))
  {
    var data := events[i].data;
    var pieces := [Chunk(data[..cut]), Chunk(data[cut..])];
    var split := events[..i] + pieces + events[i + 1..];
    if i == 0 {
      assert split[1..] == [Chunk(data[cut..])] + events[1..];
      assert split[1..][1..] == events[1..];
      assert data == data[..cut] + data[cut..];
      assert data[..cut] + (data[cut..] + Received(events[1..])) == data + Received(events[1..]);
    } else {
      ChunkingIsIrrelevant(events[1..], i - 1, cut, max);
      assert events[1..][..i - 1] + pieces + events[1..][i..] == split[1..];
    }
  }

  // ----- the loops

  class BoundedBytes {
    const limit: nat
    var bytes: Bytes

    constructor (limit: nat)
      requires ValidLimit(limit)
      ensures this.limit == limit && bytes == []
    {
      this.limit, bytes := limit, [];
    }

    /** All of the chunk or none of it; adding up lengths beyond the machine's range also refuses. */
    method ExtendFromSlice(chunk: Bytes) returns (ok: bool)
      requires limit <= USIZE_MAX
      modifies this`bytes
      ensures ok <==> |old(bytes)| + |chunk| <= limit
      ensures bytes == if ok then old(bytes) + chunk else old(bytes)
    {
      var next := |bytes| + |chunk|;
      if next > USIZE_MAX {
        return false;
      }
      if next > limit {
        return false;
      }
      bytes := bytes + chunk;
      ok := true;
    }
  }

  method ReadPipeBounded(events: seq<ReadEvent>, max: nat) returns (r: Result<Bytes, CaptureError>)
    ensures r == Bounded(events, max)
  {
    if !ValidLimit(max) {
      return Err(InvalidLimits);
    }
    var output := new BoundedBytes(max);
    var i := 0;
    while i < |events|
      invariant i <= |events| && fresh(output) && output.limit == max && |output.bytes| <= max
      invariant Received(events) == output.bytes + Received(events[i..])
      invariant EndsCleanly(events) == EndsCleanly(events[i..])
      decreases |events| - i
    {
      if events[i].Fault? {
        return Err(ReadFailed);
      }
      if |events[i].data| == 0 {
        assert Received(events) == output.bytes;
        return Ok(output.bytes);
      }
      assert events[i..][1..] == events[i + 1..];
      var ok := output.ExtendFromSlice(events[i].data);
      if !ok {
        return Err(TooLarge);
      }
      i := i + 1;
    }
    assert Received(events) == output.bytes;
    r := Ok(output.bytes);
  }

  method ReadPipeTruncating(events: seq<ReadEvent>, max: nat) returns (r: Result<TruncatedStream, CaptureError>)
    ensures r == Truncating(events, max)
  {
    var bytes: Bytes, dropped := [], 0;
    ghost var read: Bytes := [];
    var i := 0;
    while i < |events|
      invariant i <= |events|
      invariant Received(events) == read + Received(events[i..])
      invariant EndsCleanly(events) == EndsCleanly(events[i..])
      invariant bytes == read[..Min(|read|, max)] && dropped == Min(|read| - |bytes|, USIZE_MAX)
      decreases |events| - i
    {
      if events[i].Fault? {
        return Err(ReadFailed);
      }
      var chunk := events[i].data;
      if |chunk| == 0 {
        assert Received(events) == read;
        return Ok(TruncatedStream(bytes, dropped));
      }
      assert events[i..][1..] == events[i + 1..];
      var retained := Min(if max > |bytes| then max - |bytes| else 0, |chunk|);
      bytes := bytes + chunk[..retained];
      dropped := Min(dropped + (|chunk| - retained), USIZE_MAX);
      read := read + chunk;
      i := i + 1;
    }
    assert Received(events) == read;
    r := Ok(TruncatedStream(bytes, dropped));
  }
}
