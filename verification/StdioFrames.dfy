/**
The stdio frame limiter as a plain function of the bytes read: split on newline, drop the lines
whose raw length exceeds the limit, and render the others without one trailing carriage return.
Nothing in this module knows about chunks, polling or caller buffers.
*/
module StdioFrames {

  type Byte = b: int | 0 <= b < 256

  type Bytes = seq<Byte>

  const LF: Byte := 10
  const CR: Byte := 13

  /** What one complete raw line (its newline excluded) turns into. */
  datatype Verdict = Discarded | Kept(frame: Bytes)

  /** The bytes after the last newline. */
  function Tail(input: Bytes): Bytes {
    if input == [] then []
    else if input[|input| - 1] == LF then []
    else Tail(input[..|input| - 1]) + [input[|input| - 1]]
  }

  /** The complete lines, each without its newline. */
  function Lines(input: Bytes): seq<Bytes> {
    if input == [] then []
    else
      var rest := input[..|input| - 1];
      if input[|input| - 1] == LF then Lines(rest) + [Tail(rest)] else Lines(rest)
  }

  /** Splitting undone: every line followed by a newline, then the tail. */
  function Unsplit(lines: seq<Bytes>, tail: Bytes): Bytes {
    if lines == [] then tail else lines[0] + [LF] + Unsplit(lines[1..], tail)
  }

  function StripCr(line: Bytes): Bytes {
    if line != [] && line[|line| - 1] == CR then line[..|line| - 1] else line
  }

  function Classify(line: Bytes, max: nat): Verdict {
    if |line| > max then Discarded else Kept(StripCr(line))
  }

  function ClassifyAll(lines: seq<Bytes>, max: nat): seq<Verdict> {
    seq(|lines|, i requires 0 <= i < |lines| => Classify(lines[i], max))
  }

  /** The frames that survive, in order. */
  function Frames(verdicts: seq<Verdict>): seq<Bytes> {
    if verdicts == [] then []
    else
      var init := Frames(verdicts[..|verdicts| - 1]);
      match verdicts[|verdicts| - 1]
      case Discarded => init
      case Kept(frame) => init + [frame]
  }

  /** The byte stream that the codec behind the limiter is meant to see. */
  function Rendered(input: Bytes, max: nat): Bytes {
    Unsplit(Frames(ClassifyAll(Lines(input), max)), [])
  }

  // ----- splitting

  ghost predicate NewlineFree(lines: seq<Bytes>) {
    forall i :: 0 <= i < |lines| ==> LF !in lines[i]
  }

  lemma {:induction false} UnsplitSnoc(lines: seq<Bytes>, line: Bytes, tail: Bytes)
    ensures Unsplit(lines + [line], tail) == Unsplit(lines, []) + line + [LF] + tail
  {
    if lines == [] {
      assert Unsplit([line][1..], tail) == tail;
    } else {
      assert (lines + [line])[1..] == lines[1..] + [line];
      UnsplitSnoc(lines[1..], line, tail);
    }
  }

  lemma {:induction false} UnsplitTail(lines: seq<Bytes>, tail: Bytes)
    ensures Unsplit(lines, tail) == Unsplit(lines, []) + tail
  {
    if lines != [] {
      UnsplitTail(lines[1..], tail);
    }
  }

  lemma {:induction false} SplitExtend(input: Bytes, chunk: Bytes)
    requires LF !in chunk
    ensures Lines(input + chunk) == Lines(input)
    ensures Tail(input + chunk) == Tail(input) + chunk
  {
    if chunk == [] {
      assert input + chunk == input;
    } else {
      var front := chunk[..|chunk| - 1];
      assert (input + chunk)[..|input + chunk| - 1] == input + front;
      SplitExtend(input, front);
      assert Tail(input) + front + [chunk[|chunk| - 1]] == Tail(input) + chunk;
    }
  }

  lemma SplitNewline(input: Bytes, chunk: Bytes)
    requires LF !in chunk
    ensures Lines(input + chunk + [LF]) == Lines(input) + [Tail(input) + chunk]
    ensures Tail(input + chunk + [LF]) == []
  {
    SplitExtend(input, chunk);
    assert (input + chunk + [LF])[..|input + chunk|] == input + chunk;
  }

  /** Splitting loses nothing, and cuts at every newline. */
  lemma {:induction false} SplitIsExact(input: Bytes)
    ensures Unsplit(Lines(input), Tail(input)) == input
    ensures NewlineFree(Lines(input)) && LF !in Tail(input)
  {
    if input != [] {
      var rest, last := input[..|input| - 1], input[|input| - 1];
      SplitIsExact(rest);
      assert input == rest + [last];
      UnsplitTail(Lines(rest), Tail(rest));
      if last == LF {
        UnsplitSnoc(Lines(rest), Tail(rest), []);
      } else {
        UnsplitTail(Lines(rest), Tail(rest) + [last]);
      }
    }
  }

  /** It is the only way to write the input as newline-free lines and a newline-free tail. */
  lemma {:induction false} SplitIsUnique(lines: seq<Bytes>, tail: Bytes)
    requires NewlineFree(lines) && LF !in tail
    ensures Lines(Unsplit(lines, tail)) == lines
    ensures Tail(Unsplit(lines, tail)) == tail
  {
    if lines == [] {
      SplitExtend([], tail);
      assert [] + tail == tail;
    } else {
      var front, line := lines[..|lines| - 1], lines[|lines| - 1];
      assert lines == front + [line];
      SplitIsUnique(front, []);
      UnsplitSnoc(front, line, tail);
      SplitNewline(Unsplit(front, []), line);
      assert [] + line == line;
      SplitExtend(Unsplit(front, []) + line + [LF], tail);
    }
  }

  // ----- what the codec sees

  lemma ClassifyAllSnoc(lines: seq<Bytes>, line: Bytes, max: nat)
    ensures ClassifyAll(lines + [line], max) == ClassifyAll(lines, max) + [Classify(line, max)]
  {
  }

  lemma FramesSnoc(verdicts: seq<Verdict>, v: Verdict)
    ensures Frames(verdicts + [v]) == Frames(verdicts) + if v.Kept? then [v.frame] else []
  {
    assert (verdicts + [v])[..|verdicts|] == verdicts;
  }

  lemma RenderedSnoc(lines: seq<Bytes>, line: Bytes, max: nat)
    ensures Unsplit(Frames(ClassifyAll(lines + [line], max)), []) ==
            Unsplit(Frames(ClassifyAll(lines, max)), []) + if |line| > max then [] else StripCr(line) + [LF]
  {
    var verdicts := ClassifyAll(lines, max);
    ClassifyAllSnoc(lines, line, max);
    FramesSnoc(verdicts, Classify(line, max));
    if |line| <= max {
      UnsplitSnoc(Frames(verdicts), StripCr(line), []);
    } else {
      assert Frames(verdicts) + [] == Frames(verdicts);
    }
  }

  /** One more complete line adds exactly its own frame, or nothing. */
  lemma RenderedNewline(input: Bytes, chunk: Bytes, max: nat)
    requires LF !in chunk
    ensures var line := Tail(input) + chunk;
            Rendered(input + chunk + [LF], max) ==
            Rendered(input, max) + if |line| > max then [] else StripCr(line) + [LF]
  {
    SplitNewline(input, chunk);
    RenderedSnoc(Lines(input), Tail(input) + chunk, max);
  }

  lemma CrIsStripped(line: Bytes)
    ensures StripCr(line + [CR]) == line
    ensures line == [] || line[|line| - 1] != CR ==> StripCr(line) == line
  {
    assert (line + [CR])[..|line|] == line;
  }

  /** In bytes: a line that fits and ends in carriage return and newline is passed on with the newline
      alone ... */
  lemma CarriageReturnIsDropped(input: Bytes, chunk: Bytes, max: nat)
    requires LF !in chunk && |Tail(input)| + |chunk| + 1 <= max
    ensures Rendered(input + chunk + [CR, LF], max) == Rendered(input, max) + (Tail(input) + chunk + [LF])
  {
    RenderedNewline(input, chunk + [CR], max);
    CrIsStripped(Tail(input) + chunk);
    assert input + (chunk + [CR]) + [LF] == input + chunk + [CR, LF];
    assert Tail(input) + (chunk + [CR]) == Tail(input) + chunk + [CR];
  }

  /** ... one that fits and does not end in carriage return is passed on as it came ... */
  lemma OtherLinesAreKept(input: Bytes, chunk: Bytes, max: nat)
    requires LF !in chunk && |Tail(input)| + |chunk| <= max
    requires var line := Tail(input) + chunk; line == [] || line[|line| - 1] != CR
    ensures Rendered(input + chunk + [LF], max) == Rendered(input, max) + (Tail(input) + chunk + [LF])
  {
    RenderedNewline(input, chunk, max);
    CrIsStripped(Tail(input) + chunk);
  }

  /** ... and one over the limit, carriage return included, leaves no trace. */
  lemma OversizedLinesAreDropped(input: Bytes, chunk: Bytes, max: nat)
    requires LF !in chunk && |Tail(input)| + |chunk| > max
    ensures Rendered(input + chunk + [LF], max) == Rendered(input, max)
  {
    RenderedNewline(input, chunk, max);
  }

  lemma RenderedExtend(input: Bytes, chunk: Bytes, max: nat)
    requires LF !in chunk
    ensures Rendered(input + chunk, max) == Rendered(input, max)
  {
    SplitExtend(input, chunk);
  }

  /** Output only ever grows: what was rendered for a prefix stays a prefix. */
  lemma {:induction false} RenderedIsMonotone(input: Bytes, more: Bytes, max: nat)
    ensures Rendered(input, max) <= Rendered(input + more, max)
  {
    if more == [] {
      assert input + more == input;
    } else {
      var front, last := more[..|more| - 1], more[|more| - 1];
      RenderedIsMonotone(input, front, max);
      assert input + more == (input + front) + [last];
      if last == LF {
        assert input + more == (input + front) + [] + [LF];
        RenderedNewline(input + front, [], max);
      } else {
        RenderedExtend(input + front, [last], max);
      }
    }
  }

  lemma {:induction false} FramesAreBounded(lines: seq<Bytes>, max: nat)
    requires NewlineFree(lines)
    ensures NewlineFree(Frames(ClassifyAll(lines, max)))
    ensures forall f :: f in Frames(ClassifyAll(lines, max)) ==> |f| <= max
  {
    if lines != [] {
      var front, line := lines[..|lines| - 1], lines[|lines| - 1];
      assert lines == front + [line];
      FramesAreBounded(front, max);
      ClassifyAllSnoc(front, line, max);
      assert ClassifyAll(lines, max)[..|front|] == ClassifyAll(front, max);
    }
  }

  /** A line codec reading the rendered stream recovers exactly the surviving frames: none is over
      the limit, none is torn, and nothing is left unterminated. */
  lemma CodecSeesExactlyTheFrames(input: Bytes, max: nat)
    ensures var frames := Frames(ClassifyAll(Lines(input), max));
            && Lines(Rendered(input, max)) == frames
            && Tail(Rendered(input, max)) == []
            && forall f :: f in frames ==> |f| <= max
  {
    SplitIsExact(input);
    FramesAreBounded(Lines(input), max);
    SplitIsUnique(Frames(ClassifyAll(Lines(input), max)), []);
  }
}
