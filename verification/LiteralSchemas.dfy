/** `literal_schemas`: every literal input schema in a source text, with its exact position. */
module LiteralSchemas {
  import opened Wrappers
  import opened JsonScanner
  import opened JsonPrinting

  const NEEDLE := "\"inputSchema\""

  /** A reported schema: where its `{` is, and how long its text is. */
  datatype Schema = Schema(offset: nat, length: nat)

  predicate Space(c: char) {
    || '\t' <= c <= '\r' || '\U{2000}' <= c <= '\U{200A}'
    || c in {' ', '\U{85}', '\U{A0}', '\U{1680}', '\U{2028}', '\U{2029}', '\U{202F}', '\U{205F}', '\U{3000}'}
  }

  predicate At(text: string, k: nat) {
    k + |NEEDLE| <= |text| && text[k..k + |NEEDLE|] == NEEDLE
  }

  /** `match_indices`: the non-overlapping occurrences from `from` on, left to right. */
  function Occurrences(text: string, from: nat): seq<nat>
    decreases |text| - from
  {
    if from + |NEEDLE| > |text| then []
    else if At(text, from) then [from] + Occurrences(text, from + |NEEDLE|)
    else Occurrences(text, from + 1)
  }

  /** The occurrence at `k` introduces an object at `o`: from its end to the first colon anything,
      then only white space, then the `{`. */
  ghost predicate Introduces(text: string, k: nat, o: nat) {
    o < |text| && text[o] == '{' && exists c :: ColonBefore(text, k, c, o)
  }

  ghost predicate ColonBefore(text: string, k: nat, c: nat, o: nat) {
    && k + |NEEDLE| <= c < o <= |text| && text[c] == ':'
    && (forall i :: k + |NEEDLE| <= i < c ==> text[i] != ':')
    && (forall i :: c < i < o ==> Space(text[i]))
  }

  lemma IntroducedOnce(text: string, k: nat, a: nat, b: nat)
    requires Introduces(text, k, a) && Introduces(text, k, b)
    ensures a == b
  {
    var c :| ColonBefore(text, k, c, a);
    var d :| ColonBefore(text, k, d, b);
    assert c == d;
  }

  ghost predicate Found(text: string, parses: string -> bool, k: nat, s: Schema) {
    && Introduces(text, k, s.offset) && ObjectEnds(text[s.offset..], s.length)
    && parses(text[s.offset..][..s.length])
  }

  /** Past the first colon and the white space behind it: where the value of the occurrence at `k` starts. */
  method ValueStart(text: string, k: nat) returns (start: Option<nat>)
    requires At(text, k)
    ensures start.Some? ==> start.value <= |text| && exists c :: ColonBefore(text, k, c, start.value)
    ensures start.Some? && start.value < |text| ==> !Space(text[start.value])
    ensures start.None? ==> forall i :: k + |NEEDLE| <= i < |text| ==> text[i] != ':'
  {
    var colon := k + |NEEDLE|;
    while colon < |text| && text[colon] != ':'
      invariant k + |NEEDLE| <= colon <= |text|
      invariant forall i :: k + |NEEDLE| <= i < colon ==> text[i] != ':'
    {
      colon := colon + 1;
    }
    if colon == |text| {
      return None;
    }
    var after := colon + 1;
    while after < |text| && Space(text[after])
      invariant colon < after <= |text|
      invariant forall i :: colon < i < after ==> Space(text[i])
    {
      after := after + 1;
    }
    assert ColonBefore(text, k, colon, after);
    start := Some(after);
  }

  /** `parses` says whether the JSON parser accepts a text. */
  method SchemaOf(text: string, parses: string -> bool, k: nat) returns (r: Option<Schema>)
    requires At(text, k)
    ensures forall s :: Found(text, parses, k, s) <==> r == Some(s)
  {
    var start := ValueStart(text, k);
    if start.None? {
      return None;
    }
    if start.value == |text| || text[start.value] != '{' {
      forall s ensures !Found(text, parses, k, s) {
        if Found(text, parses, k, s) {
          StartIsForced(text, k, start.value, s.offset);
        }
      }
      return None;
    }
    var o := start.value;
    assert Introduces(text, k, o);
    forall s | Found(text, parses, k, s) ensures s.offset == o {
      IntroducedOnce(text, k, s.offset, o);
    }
    var end := BalancedObjectEnd(text[o..]);
    if end.None? {
      return None;
    }
    forall s | Found(text, parses, k, s) ensures s.length == end.value {
      ObjectEndIsUnique(text[o..], s.length, end.value);
    }
    r := if parses(text[o..][..end.value]) then Some(Schema(o, end.value)) else None;
  }

  /** The colon is the first one and the skipping stops at the first other character. */
  lemma StartIsForced(text: string, k: nat, start: nat, o: nat)
    requires start <= |text| && (exists c :: ColonBefore(text, k, c, start)) && (start < |text| ==> !Space(text[start]))
    requires Introduces(text, k, o)
    ensures start == o
  {
    var c :| ColonBefore(text, k, c, start);
    var d :| ColonBefore(text, k, d, o);
    assert c == d;
    assert !Space('{');
  }

  // ----- the whole report

  /** What the occurrence at `k` contributes, if anything. */
  ghost function SchemaAt(text: string, parses: string -> bool, k: nat): Option<Schema> {
    if exists s :: Found(text, parses, k, s) then
      var s :| Found(text, parses, k, s);
      Some(s)
    else None
  }

  ghost function Collected(text: string, parses: string -> bool, ks: seq<nat>): seq<Schema> {
    if ks == [] then []
    else
      var front := Collected(text, parses, ks[..|ks| - 1]);
      var last := SchemaAt(text, parses, ks[|ks| - 1]);
      if last.Some? then front + [last.value] else front
  }

  /** One report, in order, for every occurrence that introduces a balanced object the parser accepts. */
  method FindSchemas(text: string, parses: string -> bool) returns (out: seq<Schema>)
    ensures out == Collected(text, parses, Occurrences(text, 0))
  {
    var offsets := Occurrences(text, 0);
    out := [];
    for i := 0 to |offsets|
      invariant out == Collected(text, parses, offsets[..i])
    {
      OccurrencesMatch(text, 0, i);
      var schema := SchemaOf(text, parses, offsets[i]);
      assert offsets[..i + 1][..i] == offsets[..i];
      if schema.Some? {
        assert Found(text, parses, offsets[i], schema.value);
        out := out + [schema.value];
      }
    }
    assert offsets[..|offsets|] == offsets;
  }

  ghost predicate FoundIn(text: string, parses: string -> bool, ks: seq<nat>, s: Schema) {
    exists k :: k in ks && Found(text, parses, k, s)
  }

  lemma FoundOnce(text: string, parses: string -> bool, k: nat, a: Schema, b: Schema)
    requires Found(text, parses, k, a) && Found(text, parses, k, b)
    ensures a == b
  {
    IntroducedOnce(text, k, a.offset, b.offset);
    ObjectEndIsUnique(text[a.offset..], a.length, b.length);
  }

  /** A schema is reported exactly when one of the occurrences introduces it, and what it reports is
      the position of the object's opening brace and the object's exact extent. */
  lemma {:induction false} CollectedIff(text: string, parses: string -> bool, ks: seq<nat>, s: Schema)
    ensures s in Collected(text, parses, ks) <==> FoundIn(text, parses, ks, s)
  {
    if ks != [] {
      var front, k := ks[..|ks| - 1], ks[|ks| - 1];
      CollectedIff(text, parses, front, s);
      assert ks == front + [k];
      assert FoundIn(text, parses, ks, s) <==> FoundIn(text, parses, front, s) || Found(text, parses, k, s);
      var last := SchemaAt(text, parses, k);
      if Found(text, parses, k, s) && last.Some? {
        FoundOnce(text, parses, k, s, last.value);
      }
    }
  }

  // ----- the occurrences

  lemma {:induction false} OccurrencesMatch(text: string, from: nat, i: nat)
    requires i < |Occurrences(text, from)|
    ensures At(text, Occurrences(text, from)[i])
    decreases |text| - from
  {
    if At(text, from) {
      if i > 0 {
        OccurrencesMatch(text, from + |NEEDLE|, i - 1);
      }
    } else {
      OccurrencesMatch(text, from + 1, i);
    }
  }

  /** None is missed: wherever the needle stands, it is one of the occurrences or overlaps an earlier one. */
  lemma {:induction false} OccurrencesCover(text: string, from: nat, k: nat) returns (j: nat)
    requires from <= k && At(text, k)
    ensures j in Occurrences(text, from) && j <= k < j + |NEEDLE|
    decreases |text| - from
  {
    if At(text, from) {
      if k < from + |NEEDLE| {
        j := from;
      } else {
        j := OccurrencesCover(text, from + |NEEDLE|, k);
      }
    } else {
      j := OccurrencesCover(text, from + 1, k);
    }
  }

  /** They stand in order and do not overlap. */
  lemma {:induction false} OccurrencesApart(text: string, from: nat, i: nat, j: nat)
    requires i < j < |Occurrences(text, from)|
    ensures Occurrences(text, from)[i] + |NEEDLE| <= Occurrences(text, from)[j]
    decreases |text| - from
  {
    if At(text, from) {
      if i > 0 {
        OccurrencesApart(text, from + |NEEDLE|, i - 1, j - 1);
      } else {
        OccurrencesFrom(text, from + |NEEDLE|, j - 1);
      }
    } else {
      OccurrencesApart(text, from + 1, i, j);
    }
  }

  lemma {:induction false} OccurrencesFrom(text: string, from: nat, i: nat)
    requires i < |Occurrences(text, from)|
    ensures from <= Occurrences(text, from)[i]
    decreases |text| - from
  {
    if At(text, from) {
      if i > 0 {
        OccurrencesFrom(text, from + |NEEDLE|, i - 1);
      }
    } else {
      OccurrencesFrom(text, from + 1, i);
    }
  }

  /** The white space skipped before a value, by code point. */
  lemma SpaceIff(c: char)
    ensures Space(c) <==>
            c as int in {9, 10, 11, 12, 13, 32, 0x85, 0xA0, 0x1680, 0x2000, 0x2001, 0x2002, 0x2003, 0x2004, 0x2005,
                         0x2006, 0x2007, 0x2008, 0x2009, 0x200A, 0x2028, 0x2029, 0x202F, 0x205F, 0x3000}
  {
  }

  // ----- printed schemas

  /** Where no needle starts shortly before it, a needle is one of the occurrences. */
  lemma FreeNeedleOccurs(text: string, k: nat)
    requires At(text, k) && forall i: nat :: i < k < i + |NEEDLE| ==> !At(text, i)
    ensures k in Occurrences(text, 0)
  {
    var j := OccurrencesCover(text, 0, k);
    var i :| 0 <= i < |Occurrences(text, 0)| && Occurrences(text, 0)[i] == j;
    OccurrencesMatch(text, 0, i);
  }

  lemma PrintedSchemaIsIntroduced(parses: string -> bool, before: string, gap: string, blank: string, v: Value,
                                  after: string)
    requires ':' !in gap && WhiteSpace(blank)
    requires v.Obj? && Good(v) && parses(Print(v))
    ensures Found(before + NEEDLE + gap + ":" + blank + Print(v) + after, parses, |before|,
                  Schema(|before + NEEDLE + gap + ":" + blank|, |Print(v)|))
  {
    var head := before + NEEDLE + gap;
    var text, o := head + ":" + blank + Print(v) + after, |head + ":" + blank|;
    assert text[o..] == Print(v) + after;
    PrintedObjectEnds(v, after);
    assert text[o..][..|Print(v)|] == Print(v);
    assert Print(v)[0] == '{';
    assert ColonBefore(text, |before|, |head|, o) by {
      assert forall i :: |before| + |NEEDLE| <= i < |head| ==> text[i] == gap[i - |before| - |NEEDLE|];
      assert forall i :: |head| < i < o ==> text[i] == blank[i - |head| - 1] && Space(text[i]);
    }
  }

  /** An object printed after a needle that no other needle overlaps from the left, anything without a
      colon, a colon and white space is reported, with the position of its first character and its
      whole length. */
  lemma PrintedSchemaIsReported(parses: string -> bool, before: string, gap: string, blank: string, v: Value,
                                after: string)
    requires ':' !in gap && WhiteSpace(blank)
    requires v.Obj? && Good(v) && parses(Print(v))
    requires var text := before + NEEDLE + gap + ":" + blank + Print(v) + after;
             forall i: nat :: i < |before| < i + |NEEDLE| ==> !At(text, i)
    ensures var text := before + NEEDLE + gap + ":" + blank + Print(v) + after;
            Schema(|before + NEEDLE + gap + ":" + blank|, |Print(v)|) in Collected(text, parses, Occurrences(text, 0))
  {
    var text := before + NEEDLE + gap + ":" + blank + Print(v) + after;
    assert text[|before|..|before| + |NEEDLE|] == NEEDLE;
    FreeNeedleOccurs(text, |before|);
    PrintedSchemaIsIntroduced(parses, before, gap, blank, v, after);
    CollectedIff(text, parses, Occurrences(text, 0), Schema(|before + NEEDLE + gap + ":" + blank|, |Print(v)|));
  }

  // ----- line numbers

  function Newlines(text: string): nat {
    if text == [] then 0 else Newlines(text[..|text| - 1]) + if text[|text| - 1] == '\n' then 1 else 0
  }

  function LineOf(text: string, offset: nat): nat {
    Newlines(text[..if offset <= |text| then offset else |text|]) + 1
  }

  /** Lines with their newlines. */
  function Joined(lines: seq<string>): string {
    if lines == [] then [] else Joined(lines[..|lines| - 1]) + lines[|lines| - 1] + ['\n']
  }

  lemma {:induction false} NewlinesConcat(a: string, b: string)
    ensures Newlines(a + b) == Newlines(a) + Newlines(b)
  {
    if b == [] {
      assert a + b == a;
    } else {
      assert (a + b)[..|a + b| - 1] == a + b[..|b| - 1];
      NewlinesConcat(a, b[..|b| - 1]);
    }
  }

  lemma {:induction false} NoNewlines(text: string)
    requires '\n' !in text
    ensures Newlines(text) == 0
  {
    if text != [] {
      NoNewlines(text[..|text| - 1]);
    }
  }

  lemma {:induction false} NewlinesJoined(lines: seq<string>)
    requires forall i :: 0 <= i < |lines| ==> '\n' !in lines[i]
    ensures Newlines(Joined(lines)) == |lines|
  {
    if lines != [] {
      var front, last := lines[..|lines| - 1], lines[|lines| - 1];
      NewlinesJoined(front);
      NoNewlines(last);
      NewlinesConcat(Joined(front), last);
      assert (Joined(front) + last + ['\n'])[..|Joined(front) + last|] == Joined(front) + last;
    }
  }

  /** An offset behind the text is reported as the last line. */
  lemma LineOfBeyond(text: string, offset: nat)
    requires offset >= |text|
    ensures LineOf(text, offset) == LineOf(text, |text|)
  {
  }

  /** Every position of the line after `lines` is reported as that line, counting from one. */
  lemma LineOfPosition(lines: seq<string>, left: string, right: string)
    requires (forall i :: 0 <= i < |lines| ==> '\n' !in lines[i]) && '\n' !in left
    ensures LineOf(Joined(lines) + left + right, |Joined(lines) + left|) == |lines| + 1
  {
    var text := Joined(lines) + left + right;
    assert text[..|Joined(lines) + left|] == Joined(lines) + left;
    NewlinesConcat(Joined(lines), left);
    NewlinesJoined(lines);
    NoNewlines(left);
  }
}
