/**
The buffered byte source behind the limiter: a `BufReader` over a stream that, each time it is
polled, delivers some bytes (none at end of input), is not ready yet, or fails. Which of these it
does, and how the bytes are cut into chunks, is an arbitrary list of events.
*/
module BufferedInput {
  import opened StdioFrames

  datatype Event = Arrived(data: Bytes) | NotReady | Fault(code: int)

  datatype Fill = Pending | Failed(code: int) | Available(data: Bytes)

  /** The bytes the events still carry, chunk boundaries forgotten. */
  function Payload(events: seq<Event>): Bytes {
    if events == [] then []
    else (if events[0].Arrived? then events[0].data else []) + Payload(events[1..])
  }

  class BufferedInner {
    var buffer: Bytes
    var events: seq<Event>
    ghost var consumed: Bytes
    ghost var latest: Event

    constructor (events: seq<Event>)
      ensures buffer == [] && this.events == events && consumed == []
    {
      this.buffer, this.events, this.consumed := [], events, [];
    }

    /** Everything the source yields over its whole life; no operation may change it. */
    ghost function Stream(): Bytes
      reads this
    {
      consumed + buffer + Payload(events)
    }

    /** `latest` is the event that the last fill of an empty buffer met. */
    method PollFill() returns (r: Fill)
      modifies this`buffer, this`events, this`latest
      ensures Stream() == old(Stream())
      ensures old(buffer) != [] ==>
        events == old(events) && buffer == old(buffer) && r == Available(buffer)
      ensures old(buffer) == [] ==>
        if old(events) == [] then events == [] && buffer == [] && r == Pending
        else
          && events == old(events)[1..] && latest == old(events)[0]
          && match latest
             case Arrived(data) => buffer == data && r == Available(data)
             case NotReady => buffer == [] && r == Pending
             case Fault(code) => buffer == [] && r == Failed(code)
    {
      if buffer != [] {
        return Available(buffer);
      }
      if events == [] {
        return Pending;
      }
      latest := events[0];
      var event := events[0];
      events := events[1..];
      match event
      case Arrived(data) =>
        buffer := data;
        r := Available(data);
      case NotReady =>
        r := Pending;
      case Fault(code) =>
        r := Failed(code);
    }

    method Consume(n: nat)
      requires n <= |buffer|
      modifies this`buffer, this`consumed
      ensures Stream() == old(Stream())
      ensures buffer == old(buffer)[n..] && consumed == old(consumed) + old(buffer)[..n]
    {
      assert buffer == buffer[..n] + buffer[n..];
      consumed := consumed + buffer[..n];
      buffer := buffer[n..];
    }
  }

  /** Position of the first newline, if there is one. */
  method FindNewline(data: Bytes) returns (found: bool, offset: nat)
    ensures found ==> offset < |data| && data[offset] == LF && LF !in data[..offset]
    ensures !found ==> LF !in data
  {
    offset := 0;
    while offset < |data|
      invariant offset <= |data| && LF !in data[..offset]
    {
      if data[offset] == LF {
        return true, offset;
      }
      offset := offset + 1;
    }
    found := false;
  }
}
