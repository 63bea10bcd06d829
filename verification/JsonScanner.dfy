/**
The string-aware brace scanner of the fleet audit. Offsets count characters: every character the
scanner reacts to is one byte long, so it takes the same decisions on bytes.
*/
module JsonScanner {
  import opened Wrappers

  /** Where the scanner is: outside strings, inside one, or just after a backslash in one. */
  datatype Mode = Code | InString | Escaped

  datatype Scan = Scan(depth: int, mode: Mode)

  function Feed(s: Scan, c: char): Scan {
    match s.mode
    case Escaped => s.(mode := InString)
    case InString => if c == '\\' then s.(mode := Escaped) else if c == '"' then s.(mode := Code) else s
    case Code =>
      if c == '"' then s.(mode := InString)
      else if c == '{' then s.(depth := s.depth + 1)
      else if c == '}' then s.(depth := s.depth - 1)
      else s
  }

  function FeedAll(s: Scan, text: string): Scan {
    if text == [] then s else Feed(FeedAll(s, text[..|text| - 1]), text[|text| - 1])
  }

  const START := Scan(0, Code)

  /** `end` is the first position after the start at which every brace outside strings is closed. */
  ghost predicate ObjectEnds(text: string, end: nat) {
    && 1 <= end <= |text| && FeedAll(START, text[..end]).depth == 0
    && forall k :: 1 <= k < end ==> FeedAll(START, text[..k]).depth > 0
  }

  /** Callers only pass text that starts with `{`; the depth then never drops below zero. */
  method BalancedObjectEnd(text: string) returns (end: Option<nat>)
    requires text != [] ==> text[0] == '{'
    ensures end.Some? ==> ObjectEnds(text, end.value)
    ensures end.None? ==> forall k :: 1 <= k <= |text| ==> FeedAll(START, text[..k]).depth > 0
  {
    var depth: nat, inString, escaped := 0, false, false;
    for index := 0 to |text|
      invariant FeedAll(START, text[..index]) ==
                Scan(depth, if !inString then Code else if escaped then Escaped else InString)
      invariant escaped ==> inString
      invariant forall k :: 1 <= k <= index ==> FeedAll(START, text[..k]).depth > 0
    {
      var byte := text[index];
      assert text[..index + 1][..index] == text[..index];
      assert index == 0 || depth > 0;
      if inString {
        if escaped {
          escaped := false;
        } else if byte == '\\' {
          escaped := true;
        } else if byte == '"' {
          inString := false;
        }
        continue;
      }
      if byte == '"' {
        inString := true;
      } else if byte == '{' {
        depth := depth + 1;
      } else if byte == '}' {
        depth := depth - 1;
        if depth == 0 {
          return Some(index + 1);
        }
      }
    }
    end := None;
  }

  lemma ObjectEndIsUnique(text: string, a: nat, b: nat)
    requires ObjectEnds(text, a) && ObjectEnds(text, b)
    ensures a == b
  {
  }

  /** Outside strings the depth counts braces, whatever else the text holds ... */
  lemma {:induction false} CodeCountsBraces(s: Scan, code: string)
    requires s.mode == Code && '"' !in code
    ensures FeedAll(s, code) == Scan(s.depth + multiset(code)['{'] - multiset(code)['}'], Code)
  {
    if code != [] {
      CodeCountsBraces(s, code[..|code| - 1]);
      assert code == code[..|code| - 1] + [code[|code| - 1]];
    }
  }

  /** ... and inside a string nothing counts up to the first quote that no backslash escapes: neither
      plain characters nor a backslash with whatever follows it. */
  lemma {:induction false} StringCountsNothing(s: Scan, pieces: seq<string>)
    requires s.mode == InString
    requires forall i :: 0 <= i < |pieces| ==>
               || (|pieces[i]| == 1 && pieces[i][0] !in {'"', '\\'})
               || (|pieces[i]| == 2 && pieces[i][0] == '\\')
    ensures FeedAll(s, Flat(pieces)) == s
    ensures FeedAll(s, Flat(pieces) + ['"']) == s.(mode := Code)
  {
    if pieces != [] {
      var front, last := pieces[..|pieces| - 1], pieces[|pieces| - 1];
      StringCountsNothing(s, front);
      FeedConcat(s, Flat(front), last);
      FeedPiece(s, last);
    }
    FeedConcat(s, Flat(pieces), ['"']);
    FeedOne(s, '"');
  }

  function Flat(pieces: seq<string>): string {
    if pieces == [] then [] else Flat(pieces[..|pieces| - 1]) + pieces[|pieces| - 1]
  }

  lemma FeedPiece(s: Scan, piece: string)
    requires s.mode == InString
    requires (|piece| == 1 && piece[0] !in {'"', '\\'}) || (|piece| == 2 && piece[0] == '\\')
    ensures FeedAll(s, piece) == s
  {
    FeedOne(s, piece[0]);
    if |piece| == 1 {
      assert piece == [piece[0]];
    } else {
      assert piece == [piece[0]] + [piece[1]];
      FeedConcat(s, [piece[0]], [piece[1]]);
      FeedOne(s.(mode := Escaped), piece[1]);
    }
  }

  // ----- feeding text in pieces

  lemma {:induction false} FeedConcat(s: Scan, a: string, b: string)
    ensures FeedAll(s, a + b) == FeedAll(FeedAll(s, a), b)
  {
    if b == [] {
      assert a + b == a;
    } else {
      assert (a + b)[..|a + b| - 1] == a + b[..|b| - 1];
      FeedConcat(s, a, b[..|b| - 1]);
    }
  }

  lemma FeedOne(s: Scan, c: char)
    ensures FeedAll(s, [c]) == Feed(s, c)
  {
    assert [c][..0] == [];
  }

  /** The text leaves the scanner where it was and never goes below the depth it started at. */
  ghost predicate Neutral(s: Scan, text: string) {
    FeedAll(s, text) == s && forall k :: 0 <= k <= |text| ==> FeedAll(s, text[..k]).depth >= s.depth
  }

  lemma NeutralConcat(s: Scan, a: string, b: string)
    requires Neutral(s, a) && Neutral(s, b)
    ensures Neutral(s, a + b)
  {
    FeedConcat(s, a, b);
    forall k | 0 <= k <= |a + b| ensures FeedAll(s, (a + b)[..k]).depth >= s.depth {
      if k <= |a| {
        assert (a + b)[..k] == a[..k];
      } else {
        assert (a + b)[..k] == a + b[..k - |a|];
        FeedConcat(s, a, b[..k - |a|]);
      }
    }
  }

  /** Outside strings: no quote and no brace. */
  predicate Inert(text: string) {
    forall i :: 0 <= i < |text| ==> text[i] !in {'"', '{', '}'}
  }

  lemma {:induction false} InertIsNeutral(s: Scan, text: string)
    requires s.mode == Code && Inert(text)
    ensures Neutral(s, text)
  {
    if text == [] {
    } else {
      var front := text[..|text| - 1];
      InertIsNeutral(s, front);
      forall k | 0 <= k <= |text| ensures FeedAll(s, text[..k]).depth >= s.depth {
        if k < |text| {
          assert text[..k] == front[..k];
        } else {
          assert text[..k] == text;
        }
      }
    }
  }

  /** Braces around something neutral are strictly deeper in between ... */
  lemma BracesEnclose(s: Scan, inner: string, k: nat)
    requires s.mode == Code && 1 <= k < |inner| + 2
    requires FeedAll(s.(depth := s.depth + 1), inner[..k - 1]).depth >= s.depth + 1
    ensures FeedAll(s, (['{'] + inner + ['}'])[..k]).depth > s.depth
  {
    var deeper := s.(depth := s.depth + 1);
    assert FeedAll(s, ['{'] + inner[..k - 1]) == FeedAll(deeper, inner[..k - 1]) by {
      FeedOne(s, '{');
      FeedConcat(s, ['{'], inner[..k - 1]);
    }
    EnclosedPrefix('{', inner, '}', k);
  }

  lemma EnclosedPrefix(open: char, inner: string, close: char, k: nat)
    requires 1 <= k < |inner| + 2
    ensures ([open] + inner + [close])[..k] == [open] + inner[..k - 1]
  {
  }

  /** ... and come back to where they started. */
  lemma BracedIsNeutral(s: Scan, inner: string)
    requires s.mode == Code && Neutral(s.(depth := s.depth + 1), inner)
    ensures Neutral(s, ['{'] + inner + ['}'])
  {
    var text := ['{'] + inner + ['}'];
    FeedOne(s, '{');
    FeedConcat(s, ['{'], inner);
    FeedConcat(s, ['{'] + inner, ['}']);
    FeedOne(s.(depth := s.depth + 1), '}');
    forall k | 0 <= k <= |text| ensures FeedAll(s, text[..k]).depth >= s.depth {
      if k == |text| {
        assert text[..k] == text;
      } else if 0 < k {
        BracesEnclose(s, inner, k);
      }
    }
  }
}
