/**
`LineCappedReader`: the incremental form of the stdio frame limiter. It is fed by arbitrary chunks
with pauses and faults anywhere, and drained through caller buffers of any size, yet it refines
`StdioFrames.Rendered`.
*/
module LineCapped {
  import opened StdioFrames
  import opened BufferedInput

  const MAX_STDIO_FRAME_BYTES: nat := 1024 * 1024

  /** What one `poll_read` returns; `put` is what it wrote into the caller's buffer. */
  datatype Poll = NotYet | Error(code: int) | Ready(put: Bytes)

  lemma LineEnds(before: Bytes, buffer: Bytes, offset: nat)
    requires offset < |buffer| && buffer[offset] == LF && LF !in buffer[..offset]
    ensures var after, raw := before + buffer[..offset + 1], Tail(before) + buffer[..offset];
            && Tail(after) == []
            && Rendered(after, MAX_STDIO_FRAME_BYTES) ==
               Rendered(before, MAX_STDIO_FRAME_BYTES)
               + if |raw| > MAX_STDIO_FRAME_BYTES then [] else StripCr(raw) + [LF]
  {
    var chunk := buffer[..offset];
    RenderedNewline(before, chunk, MAX_STDIO_FRAME_BYTES);
    SplitNewline(before, chunk);
    assert before + buffer[..offset + 1] == before + chunk + [LF];
  }

  class LineCappedReader {
    const inner: BufferedInner
    var line: Bytes
    var discarding: bool
    var pending: Bytes
    var pendingOffset: nat
    ghost var delivered: Bytes

    constructor (inner: BufferedInner)
      requires inner.consumed == []
      ensures Valid() && this.inner == inner && delivered == [] && Rest() == []
    {
      this.inner := inner;
      line, discarding, pending, pendingOffset := [], false, [], 0;
      delivered := [];
    }

    /** Rendered bytes not yet handed to any caller. */
    ghost function Rest(): Bytes
      requires pendingOffset <= |pending|
      reads this
    {
      pending[pendingOffset..]
    }

    /** The refinement relation between the reader's fields and the bytes consumed so far. */
    ghost predicate Valid()
      reads this, inner
    {
      && pendingOffset <= |pending| <= MAX_STDIO_FRAME_BYTES + 1
      && (pending == [] || pendingOffset < |pending|)
      && |line| <= MAX_STDIO_FRAME_BYTES
      && (if |Tail(inner.consumed)| <= MAX_STDIO_FRAME_BYTES
          then !discarding && line == Tail(inner.consumed)
          else discarding && line == [])
      && delivered + Rest() == Rendered(inner.consumed, MAX_STDIO_FRAME_BYTES)
    }

    /** Everything that has arrived has been turned into output, and all output was handed out. */
    ghost predicate CaughtUp()
      requires pendingOffset <= |pending|
      reads this, inner
    {
      inner.buffer == [] && Rest() == []
    }

    /** Whatever the chunks still to come, the bytes delivered are a prefix of the final output. */
    lemma DeliveredWithinStream()
      requires Valid()
      ensures delivered <= Rendered(inner.Stream(), MAX_STDIO_FRAME_BYTES)
      ensures CaughtUp() && inner.events == [] ==>
        delivered == Rendered(inner.Stream(), MAX_STDIO_FRAME_BYTES)
    {
      RenderedIsMonotone(inner.consumed, inner.buffer, MAX_STDIO_FRAME_BYTES);
      RenderedIsMonotone(inner.consumed + inner.buffer, Payload(inner.events), MAX_STDIO_FRAME_BYTES);
      assert CaughtUp() && inner.events == [] ==> inner.Stream() == inner.consumed;
    }

    method PollRead(room: nat) returns (r: Poll)
      requires Valid()
      modifies this, inner
      ensures Valid()
      ensures inner.Stream() == old(inner.Stream()) && old(inner.consumed) <= inner.consumed
      ensures delivered == old(delivered) + if r.Ready? then r.put else []
      ensures |inner.events| <= |old(inner.events)|
      ensures r.Ready? ==> |r.put| <= room
      // output already waiting is handed out first, without touching the source
      ensures old(Rest()) != [] ==>
        && r == Ready(old(Rest())[..if |old(Rest())| <= room then |old(Rest())| else room])
        && inner.consumed == old(inner.consumed)
        && inner.buffer == old(inner.buffer) && inner.events == old(inner.events)
      // a call that hands out nothing although there was room has exhausted the source
      ensures (r.Ready? ==> r.put == []) && 0 < room ==>
        && CaughtUp()
        && (|inner.events| < |old(inner.events)| || inner.events == [])
      // and says which way: end of input, not ready, or a fault
      ensures r == Ready([]) && 0 < room ==> inner.latest == Arrived([])
      ensures r == NotYet ==> inner.latest == NotReady || inner.events == []
      ensures r.Error? ==> inner.latest == Fault(r.code)
    {
      if pendingOffset < |pending| {
        var put := CopyPending(room);
        return Ready(put);
      }
      while true
        invariant Valid() && pending == [] && delivered == old(delivered)
        invariant inner.Stream() == old(inner.Stream()) && old(inner.consumed) <= inner.consumed
        invariant |inner.events| <= |old(inner.events)|
        decreases |inner.events|, |inner.buffer|
      {
        var fill := inner.PollFill();
        if fill.Pending? {
          return NotYet;
        }
        if fill.Failed? {
          return Error(fill.code);
        }
        if fill.data == [] {
          return Ready([]);
        }
        var done, put := TakeAvailable(room);
        if done {
          return Ready(put);
        }
      }
    }

    /** What the loop does with available bytes: `done` when they complete a line that is kept. */
    method TakeAvailable(room: nat) returns (done: bool, put: Bytes)
      requires Valid() && pending == [] && inner.buffer != []
      modifies this, inner`buffer, inner`consumed
      ensures Valid()
      ensures inner.Stream() == old(inner.Stream()) && old(inner.consumed) <= inner.consumed
      ensures |inner.buffer| < |old(inner.buffer)|
      ensures delivered == old(delivered) + put && |put| <= room
      ensures if done then put != [] || room == 0 else put == pending == []
      ensures done <==>
        Rendered(inner.consumed, MAX_STDIO_FRAME_BYTES) != Rendered(old(inner.consumed), MAX_STDIO_FRAME_BYTES)
    {
      put := [];
      var found, offset := FindNewline(inner.buffer);
      if found {
        done := EndLine(offset);
        if done {
          put := CopyPending(room);
        }
      } else {
        ExtendLine();
        done := false;
      }
    }

    /** The available bytes hold a newline at `offset`: the line in progress ends there. */
    method EndLine(offset: nat) returns (kept: bool)
      requires Valid() && pending == []
      requires offset < |inner.buffer| && inner.buffer[offset] == LF && LF !in inner.buffer[..offset]
      modifies this`line, this`discarding, this`pending, this`pendingOffset, inner`buffer, inner`consumed
      ensures Valid() && inner.Stream() == old(inner.Stream())
      ensures inner.consumed == old(inner.consumed) + old(inner.buffer)[..offset + 1]
      ensures inner.buffer == old(inner.buffer)[offset + 1..]
      ensures kept <==> pending != []
      ensures kept <==>
        Rendered(inner.consumed, MAX_STDIO_FRAME_BYTES) != Rendered(old(inner.consumed), MAX_STDIO_FRAME_BYTES)
    {
      LineEnds(inner.consumed, inner.buffer, offset);
      kept := !discarding && |line| + offset <= MAX_STDIO_FRAME_BYTES;
      if kept {
        KeepLine(offset);
      } else {
        inner.Consume(offset + 1);
        line, discarding := [], false;
      }
    }

    /** Turns the line in progress and the bytes up to the newline into pending output. */
    method KeepLine(offset: nat)
      requires pending == [] && offset < |inner.buffer|
      modifies this`line, this`pending, this`pendingOffset, inner`buffer, inner`consumed
      ensures pending == StripCr(old(line) + old(inner.buffer)[..offset]) + [LF]
      ensures pendingOffset == 0 && line == [] && inner.Stream() == old(inner.Stream())
      ensures inner.consumed == old(inner.consumed) + old(inner.buffer)[..offset + 1]
      ensures inner.buffer == old(inner.buffer)[offset + 1..]
    {
      line := line + inner.buffer[..offset];
      inner.Consume(offset + 1);
      if line != [] && line[|line| - 1] == CR {
        line := line[..|line| - 1];
      }
      pending, line := pending + line + [LF], [];
      pendingOffset := 0;
    }

    /** The available bytes hold no newline: all of them belong to the line in progress. */
    method ExtendLine()
      requires Valid() && pending == []
      requires LF !in inner.buffer
      modifies this`line, this`discarding, inner`buffer, inner`consumed
      ensures Valid() && inner.Stream() == old(inner.Stream())
      ensures inner.consumed == old(inner.consumed) + old(inner.buffer) && inner.buffer == []
      ensures Rendered(inner.consumed, MAX_STDIO_FRAME_BYTES) == Rendered(old(inner.consumed), MAX_STDIO_FRAME_BYTES)
    {
      RenderedExtend(inner.consumed, inner.buffer, MAX_STDIO_FRAME_BYTES);
      SplitExtend(inner.consumed, inner.buffer);
      var consumed := |inner.buffer|;
      assert inner.buffer[..consumed] == inner.buffer;
      if discarding || |line| + |inner.buffer| > MAX_STDIO_FRAME_BYTES {
        inner.Consume(consumed);
        line, discarding := [], true;
      } else {
        line := line + inner.buffer;
        inner.Consume(consumed);
      }
    }

    method CopyPending(room: nat) returns (put: Bytes)
      requires Valid() && pending != []
      modifies this`pending, this`pendingOffset, this`delivered
      ensures Valid()
      ensures put == old(Rest())[..if |old(Rest())| <= room then |old(Rest())| else room]
      ensures Rest() == old(Rest())[|put|..] && delivered == old(delivered) + put
    {
      var rest := pending[pendingOffset..];
      var copied := if |rest| <= room then |rest| else room;
      put := rest[..copied];
      assert rest == put + rest[copied..];
      pendingOffset := pendingOffset + copied;
      delivered := delivered + put;
      if pendingOffset == |pending| {
        pending, pendingOffset := [], 0;
      }
    }
  }

  /** One consumer polling once per entry of `rooms` (the space it offers each time). What it has
      received is always a prefix of the rendering of the whole input; and once it has offered
      space often enough it has received exactly that rendering, however the input was cut, paused
      or interrupted, and however the space was divided. */
  method Consume(events: seq<Event>, rooms: seq<nat>) returns (got: Bytes)
    ensures got <= Rendered(Payload(events), 1_048_576)
    ensures
      && (forall i :: 0 <= i < |rooms| ==> 0 < rooms[i])
      && |rooms| >= |events| + |Rendered(Payload(events), 1_048_576)|
      ==> got == Rendered(Payload(events), 1_048_576)
  {
    ghost var whole := Rendered(Payload(events), MAX_STDIO_FRAME_BYTES);
    ghost var generous := forall i :: 0 <= i < |rooms| ==> 0 < rooms[i];
    var inner := new BufferedInner(events);
    var reader := new LineCappedReader(inner);
    got := [];
    for i := 0 to |rooms|
      invariant reader.Valid() && reader.inner == inner
      invariant fresh(reader) && fresh(inner)
      invariant got == reader.delivered <= whole
      invariant inner.Stream() == Payload(events)
      invariant generous && got != whole ==> i + |inner.events| <= |events| + |got|
    {
      var r := reader.PollRead(rooms[i]);
      if r.Ready? {
        got := got + r.put;
      }
      reader.DeliveredWithinStream();
    }
  }
}
