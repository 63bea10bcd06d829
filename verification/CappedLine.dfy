/**
`read_capped_line`: the one-line-at-a-time form of the frame limiter. On newline-terminated input
it makes the same decisions as `LineCappedReader`; the two differ on an unterminated last line within
the limit, which this form returns as it stands and the other one never emits.
*/
module CappedLines {
  import opened StdioFrames
  import opened BufferedInput

  datatype CappedLine = Eof | Line(verdict: Verdict)

  /** `Stalled` stands for an await that no later event completes. */
  datatype Outcome = Read(line: CappedLine) | Stalled | Failed(code: int)

  /** An unterminated last line keeps its carriage return. */
  function ClassifyUnterminated(raw: Bytes, max: nat): Verdict {
    if |raw| > max then Discarded else Kept(raw)
  }

  /** The source pauses as it likes, never fails, and ends exactly once, at the end. */
  ghost predicate Uninterrupted(events: seq<Event>) {
    events != [] &&
    if |events| == 1 then events[0] == Arrived([])
    else !events[0].Fault? && events[0] != Arrived([]) && Uninterrupted(events[1..])
  }

  /** One awaited fill: polls until the source is ready, fails, or can never be ready again. */
  method AwaitFill(reader: BufferedInner) returns (r: Fill)
    modifies reader`buffer, reader`events, reader`latest
    ensures reader.Stream() == old(reader.Stream())
    ensures r.Available? ==> r.data == reader.buffer
    ensures !r.Available? ==> reader.buffer == []
    ensures r == Available([]) ==> reader.latest == Arrived([])
    ensures r.Pending? ==> reader.events == []
    ensures r.Failed? ==> reader.latest == Fault(r.code)
    ensures |reader.events| < |old(reader.events)| || r == Pending || reader.buffer == old(reader.buffer) != []
    ensures |reader.events| <= |old(reader.events)|
    ensures Uninterrupted(old(reader.events)) ==>
      r.Available? && if r.data == [] then reader.events == [] else Uninterrupted(reader.events)
  {
    ghost var clean := Uninterrupted(reader.events);
    r := reader.PollFill();
    while r.Pending? && reader.events != []
      invariant reader.Stream() == old(reader.Stream())
      invariant r.Available? ==> r.data == reader.buffer
      invariant !r.Available? ==> reader.buffer == []
      invariant r == Available([]) ==> reader.latest == Arrived([])
      invariant r.Failed? ==> reader.latest == Fault(r.code)
      invariant |reader.events| < |old(reader.events)| || r == Pending || reader.buffer == old(reader.buffer) != []
      invariant |reader.events| <= |old(reader.events)|
      invariant clean ==> !r.Failed? && if r == Available([]) then reader.events == [] else Uninterrupted(reader.events)
      decreases |reader.events|
    {
      r := reader.PollFill();
    }
  }

  /** In bytes: over the limit nothing is kept; a line that ends in byte 13 is kept without it, any other
      one as it came. */
  predicate VerdictInBytes(raw: Bytes, max: nat, verdict: Verdict) {
    if |raw| > max then verdict == Discarded
    else if raw != [] && raw[|raw| - 1] == 13 then verdict.Kept? && raw == verdict.frame + [13]
    else verdict == Kept(raw)
  }

  /** `raw` and `terminated` report the line that was taken: its raw bytes, and whether a newline
      ended it. The original returns only `r`. */
  method ReadCappedLine(reader: BufferedInner, max: nat)
    returns (r: Outcome, ghost raw: Bytes, terminated: bool)
    modifies reader
    ensures reader.Stream() == old(reader.Stream())
    ensures LF !in raw
    ensures reader.consumed == old(reader.consumed) + raw + if terminated then [LF] else []
    ensures terminated ==> r == Read(Line(Classify(raw, max)))
    ensures terminated ==> r.Read? && r.line.Line? && VerdictInBytes(raw, max, r.line.verdict)
    ensures !terminated ==> reader.buffer == []
    ensures !terminated && r.Read? ==>
      && reader.latest == Arrived([])
      && r.line == if raw == [] then Eof else Line(ClassifyUnterminated(raw, max))
    ensures r.Stalled? ==> reader.events == []
    ensures r.Failed? ==> reader.latest == Fault(r.code)
    ensures Uninterrupted(old(reader.events)) ==>
      r.Read? && if terminated then Uninterrupted(reader.events) else reader.events == []
  {
    var data: Bytes, discarding := [], false;
    raw, terminated := [], false;
    while true
      invariant reader.Stream() == old(reader.Stream())
      invariant reader.consumed == old(reader.consumed) + raw
      invariant LF !in raw && !terminated
      invariant if |raw| <= max then !discarding && data == raw else discarding && data == []
      invariant Uninterrupted(old(reader.events)) ==> Uninterrupted(reader.events)
      decreases |reader.events|, |reader.buffer|
    {
      var fill := AwaitFill(reader);
      if !fill.Available? {
        return if fill.Pending? then Stalled else Outcome.Failed(fill.code), raw, terminated;
      }
      var available := fill.data;
      if available == [] {
        r := Read(if data == [] && !discarding then Eof
                  else Line(if discarding || |data| > max then Discarded else Kept(data)));
        return r, raw, terminated;
      }
      var found, offset := FindNewline(available);
      if found {
        var verdict := FinishLine(reader, raw, data, discarding, offset, max);
        raw, terminated := raw + available[..offset], true;
        assert reader.consumed == old(reader.consumed) + raw + [LF];
        return Read(Line(verdict)), raw, terminated;
      }
      data, discarding := AddToLine(reader, raw, data, discarding, max);
      raw := raw + available;
    }
  }

  /** The available bytes hold no newline: all of them belong to the line whose bytes so far are `raw`. */
  method AddToLine(reader: BufferedInner, ghost raw: Bytes, data: Bytes, discarding: bool, max: nat)
    returns (newData: Bytes, nowDiscarding: bool)
    requires if |raw| <= max then !discarding && data == raw else discarding && data == []
    modifies reader`buffer, reader`consumed
    ensures reader.Stream() == old(reader.Stream())
    ensures reader.consumed == old(reader.consumed) + old(reader.buffer) && reader.buffer == []
    ensures if |raw + old(reader.buffer)| <= max
            then !nowDiscarding && newData == raw + old(reader.buffer)
            else nowDiscarding && newData == []
  {
    var consumed := |reader.buffer|;
    assert reader.buffer[..consumed] == reader.buffer;
    if discarding || |data| + |reader.buffer| > max {
      reader.Consume(consumed);
      newData, nowDiscarding := [], true;
    } else {
      newData, nowDiscarding := data + reader.buffer, false;
      reader.Consume(consumed);
    }
  }

  /** The available bytes hold a newline at `offset`: the line whose bytes so far are `raw` ends. */
  method FinishLine(reader: BufferedInner, ghost raw: Bytes, data: Bytes, discarding: bool, offset: nat, max: nat)
    returns (verdict: Verdict)
    requires offset < |reader.buffer| && reader.buffer[offset] == LF && LF !in reader.buffer[..offset]
    requires if |raw| <= max then !discarding && data == raw else discarding && data == []
    modifies reader`buffer, reader`consumed
    ensures reader.Stream() == old(reader.Stream())
    ensures reader.consumed == old(reader.consumed) + old(reader.buffer)[..offset] + [LF]
    ensures verdict == Classify(raw + old(reader.buffer)[..offset], max)
    ensures VerdictInBytes(raw + old(reader.buffer)[..offset], max, verdict)
  {
    var available := reader.buffer;
    assert available[..offset + 1] == available[..offset] + [LF];
    reader.Consume(offset + 1);
    if discarding || |data| + offset > max {
      return Discarded;
    }
    var line := data + available[..offset];
    if line != [] && line[|line| - 1] == CR {
      line := line[..|line| - 1];
    }
    verdict := Kept(line);
  }

  /** What reading the whole input to its end gives. */
  function VerdictsOf(input: Bytes, max: nat): seq<Verdict> {
    ClassifyAll(Lines(input), max) + if Tail(input) == [] then [] else [ClassifyUnterminated(Tail(input), max)]
  }

  /** The verdicts on some prefix of the input, with or without its unterminated rest. */
  ghost predicate ReadsPrefix(read: seq<Verdict>, whole: Bytes, max: nat) {
    exists input :: input <= whole && (read == ClassifyAll(Lines(input), max) || read == VerdictsOf(input, max))
  }

  /** The exact condition under which the two readers deliver the same bytes: the input ends with a
      newline, or its unterminated rest is over the limit. */
  lemma ReadersAgreeIff(input: Bytes, max: nat)
    ensures Unsplit(Frames(VerdictsOf(input, max)), []) == Rendered(input, max) <==>
            Tail(input) == [] || |Tail(input)| > max
  {
    var verdicts, rest := ClassifyAll(Lines(input), max), Tail(input);
    if rest == [] {
      assert VerdictsOf(input, max) == verdicts;
    } else {
      FramesSnoc(verdicts, ClassifyUnterminated(rest, max));
      if |rest| > max {
        assert Frames(verdicts) + [] == Frames(verdicts);
      } else {
        UnsplitSnoc(Frames(verdicts), rest, []);
        assert |Unsplit(Frames(VerdictsOf(input, max)), [])| > |Rendered(input, max)|;
      }
    }
  }

  /** They differ on the two bytes "a" and carriage return followed by the end of the input: one reader
      returns both bytes as a line, the other emits nothing. */
  lemma ReadersDiffer(max: nat)
    requires 2 <= max
    ensures var events := [Arrived([97, CR]), Arrived([])];
            && Uninterrupted(events)
            && VerdictsOf(Payload(events), max) == [Kept([97, CR])]
            && Rendered(Payload(events), max) == []
  {
    var events: seq<Event> := [Arrived([97, CR]), Arrived([])];
    assert Payload(events[1..]) == [];
    assert Payload(events) == [97, CR];
    assert [97, CR][..1] == [97];
    SplitExtend([], [97, CR]);
    assert [] + [97, CR] == [97, CR];
  }

  /** Reading line after line until the source ends, stalls or fails. */
  method ReadLines(events: seq<Event>, max: nat) returns (read: seq<Verdict>)
    ensures ReadsPrefix(read, Payload(events), max)
    ensures Uninterrupted(events) ==> read == VerdictsOf(Payload(events), max)
    ensures Uninterrupted(events) ==>
      var rest := Tail(Payload(events));
      (Unsplit(Frames(read), []) == Rendered(Payload(events), max) <==> rest == [] || |rest| > max)
  {
    var reader := new BufferedInner(events);
    ReadersAgreeIff(Payload(events), max);
    read := [];
    while true
      invariant fresh(reader) && reader.Stream() == Payload(events)
      invariant Tail(reader.consumed) == [] && read == ClassifyAll(Lines(reader.consumed), max)
      invariant Uninterrupted(events) ==> Uninterrupted(reader.events)
      decreases |Payload(events)| - |reader.consumed|
    {
      ghost var before := reader.consumed;
      var r, raw, terminated := ReadCappedLine(reader, max);
      SplitExtend(before, raw);
      assert [] + raw == raw;
      if !terminated {
        assert reader.consumed == before + raw;
        if r.Read? && r.line.Line? {
          read := read + [r.line.verdict];
        }
        assert reader.consumed <= Payload(events);
        return;
      }
      SplitNewline(before, raw);
      ClassifyAllSnoc(Lines(before), raw, max);
      read := read + [r.line.verdict];
    }
  }
}
