/**
`production_text`: a Rust source without its exact `#[cfg(test)]` items, on lists of lines. What is
removed after an attribute is described by brace sums over whole prefixes, not by the loop.
*/
module ProductionText {

  // ----- the exact attribute line

  /** White space in the sense of Python's `\s` and `str.strip`. */
  predicate Space(c: char) {
    || '\t' <= c <= '\r' || '\U{1C}' <= c <= '\U{20}' || '\U{2000}' <= c <= '\U{200A}'
    || c in {'\U{85}', '\U{A0}', '\U{1680}', '\U{2028}', '\U{2029}', '\U{202F}', '\U{205F}', '\U{3000}'}
  }

  predicate Blank(s: string) {
    forall i :: 0 <= i < |s| ==> Space(s[i])
  }

  function LeftStrip(s: string): string {
    if s != [] && Space(s[0]) then LeftStrip(s[1..]) else s
  }

  predicate StartsWith(s: string, prefix: string) {
    |prefix| <= |s| && s[..|prefix|] == prefix
  }

  /** The tokens in order, with nothing but white space around and between them. */
  predicate Matches(tokens: seq<string>, s: string) {
    var t := LeftStrip(s);
    if tokens == [] then t == []
    else StartsWith(t, tokens[0]) && Matches(tokens[1..], t[|tokens[0]|..])
  }

  function CfgTestTokens(): seq<string> {
    ["#", "[", "cfg", "(", "test", ")", "]"]
  }

  predicate CfgTest(line: string) {
    Matches(CfgTestTokens(), line)
  }

  function Interleave(tokens: seq<string>, gaps: seq<string>): string
    requires |gaps| == |tokens| + 1
  {
    if tokens == [] then gaps[0] else gaps[0] + tokens[0] + Interleave(tokens[1..], gaps[1..])
  }

  ghost predicate Gaps(tokens: seq<string>, gaps: seq<string>) {
    |gaps| == |tokens| + 1 && forall i :: 0 <= i < |gaps| ==> Blank(gaps[i])
  }

  predicate Solid(tokens: seq<string>) {
    forall i :: 0 <= i < |tokens| ==> tokens[i] != [] && !Space(tokens[i][0])
  }

  lemma {:induction false} StripGap(gap: string, s: string)
    requires Blank(gap) && (s == [] || !Space(s[0]))
    ensures LeftStrip(gap + s) == s
  {
    if gap == [] {
      assert gap + s == s;
    } else {
      assert (gap + s)[1..] == gap[1..] + s;
      StripGap(gap[1..], s);
    }
  }

  lemma {:induction false} StrippedGap(s: string) returns (gap: string)
    ensures Blank(gap) && s == gap + LeftStrip(s)
  {
    if s != [] && Space(s[0]) {
      var later := StrippedGap(s[1..]);
      gap := [s[0]] + later;
      assert LeftStrip(s) == LeftStrip(s[1..]);
      assert gap + LeftStrip(s) == [s[0]] + (later + LeftStrip(s));
      assert s == [s[0]] + s[1..];
    } else {
      gap := [];
    }
  }

  /** The greedy matcher accepts exactly the language of the regular expression. */
  lemma {:induction false} MatchesIff(tokens: seq<string>, s: string)
    requires Solid(tokens)
    ensures Matches(tokens, s) <==> exists gaps :: Gaps(tokens, gaps) && s == Interleave(tokens, gaps)
  {
    if Matches(tokens, s) {
      var gaps := MatchGaps(tokens, s);
    }
    if exists gaps :: Gaps(tokens, gaps) && s == Interleave(tokens, gaps) {
      var gaps :| Gaps(tokens, gaps) && s == Interleave(tokens, gaps);
      InterleaveMatches(tokens, gaps);
    }
  }

  lemma {:induction false} MatchGaps(tokens: seq<string>, s: string) returns (gaps: seq<string>)
    requires Matches(tokens, s)
    ensures Gaps(tokens, gaps) && s == Interleave(tokens, gaps)
  {
    var gap := StrippedGap(s);
    var t := LeftStrip(s);
    if tokens == [] {
      gaps := [gap];
    } else {
      gaps := MatchGaps(tokens[1..], t[|tokens[0]|..]);
      gaps := [gap] + gaps;
      assert t == tokens[0] + t[|tokens[0]|..];
    }
  }

  lemma {:induction false} InterleaveMatches(tokens: seq<string>, gaps: seq<string>)
    requires Solid(tokens) && Gaps(tokens, gaps)
    ensures Matches(tokens, Interleave(tokens, gaps))
  {
    if tokens == [] {
      StripGap(gaps[0], []);
      assert gaps[0] + [] == gaps[0];
    } else {
      var later := Interleave(tokens[1..], gaps[1..]);
      InterleaveMatches(tokens[1..], gaps[1..]);
      StripGap(gaps[0], tokens[0] + later);
      assert gaps[0] + (tokens[0] + later) == Interleave(tokens, gaps);
      assert (tokens[0] + later)[|tokens[0]|..] == later;
    }
  }

  lemma TokensAreSolid()
    ensures Solid(CfgTestTokens())
  {
    var tokens := CfgTestTokens();
    forall i | 0 <= i < |tokens| ensures tokens[i] != [] && !Space(tokens[i][0]) {
      assert tokens[i][0] in {'#', '[', 'c', '(', 't', ')', ']'};
    }
  }

  lemma CfgTestIff(line: string)
    ensures CfgTest(line) <==> exists gaps :: Gaps(CfgTestTokens(), gaps) && line == Interleave(CfgTestTokens(), gaps)
  {
    TokensAreSolid();
    MatchesIff(CfgTestTokens(), line);
  }

  // ----- the removed item

  /** Blank lines and further attributes between `#[cfg(test)]` and its item. */
  predicate Skippable(line: string) {
    LeftStrip(line) == [] || StartsWith(LeftStrip(line), "#[")
  }

  function Count(line: string, c: char): nat {
    if line == [] then 0 else (if line[0] == c then 1 else 0) + Count(line[1..], c)
  }

  function BraceDelta(line: string): int {
    Count(line, '{') - Count(line, '}')
  }

  function Depth(lines: seq<string>): int {
    if lines == [] then 0 else Depth(lines[..|lines| - 1]) + BraceDelta(lines[|lines| - 1])
  }

  predicate SawBrace(lines: seq<string>) {
    exists i :: 0 <= i < |lines| && '{' in lines[i]
  }

  /** The item ends with the last of these lines: its braces are closed again, or it ended in a
      semicolon before any brace was opened. */
  predicate Complete(lines: seq<string>) {
    && lines != []
    && if SawBrace(lines) then Depth(lines) <= 0 else ';' in lines[|lines| - 1]
  }

  predicate CompleteWithin(lines: seq<string>) {
    exists k :: 0 < k <= |lines| && Complete(lines[..k])
  }

  /** The lines one test item spans when it follows the attribute. */
  predicate IsItem(item: seq<string>) {
    && item != [] && !Skippable(item[0]) && Complete(item)
    && forall k :: 0 < k < |item| ==> !Complete(item[..k])
  }

  function SkipLength(lines: seq<string>): (n: nat)
    ensures n <= |lines|
  {
    if lines != [] && Skippable(lines[0]) then 1 + SkipLength(lines[1..]) else 0
  }

  /** How many lines are taken: up to the first complete prefix, or all of them. */
  function ItemLength(lines: seq<string>, k: nat): (n: nat)
    requires k <= |lines|
    ensures k <= n <= |lines|
    decreases |lines| - k
  {
    if k == |lines| then k
    else if Complete(lines[..k + 1]) then k + 1
    else ItemLength(lines, k + 1)
  }

  /** How many lines go when the first one is a test attribute: itself, what is skipped, the item. */
  function Removed(lines: seq<string>): (n: nat)
    requires lines != []
    ensures 1 <= n <= |lines|
  {
    var skip := SkipLength(lines[1..]);
    1 + skip + ItemLength(lines[1 + skip..], 0)
  }

  /** `isTest` recognises the attribute lines; `production_text` uses `CfgTest`, and the results below
      hold for any recogniser. */
  function Production(isTest: string -> bool, lines: seq<string>): seq<string>
    decreases |lines|
  {
    if lines == [] then []
    else if !isTest(lines[0]) then [lines[0]] + Production(isTest, lines[1..])
    else Production(isTest, lines[Removed(lines)..])
  }

  // ----- the nested loops

  method ScanProduction(isTest: string -> bool, lines: seq<string>) returns (production: seq<string>)
    ensures production == Production(isTest, lines)
  {
    production := [];
    var index := 0;
    while index < |lines|
      invariant index <= |lines|
      invariant Production(isTest, lines) == production + Production(isTest, lines[index..])
    {
      ghost var rest := lines[index..];
      assert rest[0] == lines[index] && rest[1..] == lines[index + 1..];
      if !isTest(lines[index]) {
        production := production + [lines[index]];
        index := index + 1;
        continue;
      }
      var next := SkipRemoved(lines, index);
      assert rest[Removed(rest)..] == lines[next..];
      index := next;
    }
  }

  /** `production_text` itself. */
  method ProductionText(lines: seq<string>) returns (production: seq<string>)
    ensures production == Production(CfgTest, lines)
  {
    production := ScanProduction(CfgTest, lines);
  }

  method SkipRemoved(lines: seq<string>, start: nat) returns (index: nat)
    requires start < |lines|
    ensures start < index <= |lines| && index == start + Removed(lines[start..])
  {
    index := start + 1;
    while index < |lines| && Skippable(lines[index])
      invariant start < index <= |lines|
      invariant SkipLength(lines[start + 1..]) == index - (start + 1) + SkipLength(lines[index..])
    {
      assert lines[index..][1..] == lines[index + 1..];
      index := index + 1;
    }
    assert lines[start..][1..] == lines[start + 1..];
    assert lines[start..][index - start..] == lines[index..];
    index := SkipItem(lines, index);
  }

  method SkipItem(lines: seq<string>, start: nat) returns (index: nat)
    requires start <= |lines|
    ensures start <= index <= |lines| && index - start == ItemLength(lines[start..], 0)
  {
    index := start;
    var sawBrace, depth := false, 0;
    ghost var rest := lines[start..];
    while index < |lines|
      invariant start <= index <= |lines|
      invariant sawBrace == SawBrace(rest[..index - start]) && depth == Depth(rest[..index - start])
      invariant ItemLength(rest, 0) == ItemLength(rest, index - start)
    {
      var line := lines[index];
      TakeItemLine(rest, index - start);
      if '{' in line {
        sawBrace := true;
      }
      depth := depth + BraceDelta(line);
      index := index + 1;
      if sawBrace && depth <= 0 {
        return;
      }
      if !sawBrace && ';' in line {
        return;
      }
    }
  }

  /** What one more line does to the running sums and to the length of the item. */
  lemma TakeItemLine(rest: seq<string>, n: nat)
    requires n < |rest|
    ensures Depth(rest[..n + 1]) == Depth(rest[..n]) + BraceDelta(rest[n])
    ensures SawBrace(rest[..n + 1]) <==> SawBrace(rest[..n]) || '{' in rest[n]
    ensures var complete := if SawBrace(rest[..n + 1]) then Depth(rest[..n + 1]) <= 0 else ';' in rest[n];
            ItemLength(rest, n) == if complete then n + 1 else ItemLength(rest, n + 1)
  {
    assert rest[..n + 1] == rest[..n] + [rest[n]];
    TakeLine(rest[..n], rest[n]);
  }

  lemma TakeLine(taken: seq<string>, line: string)
    ensures Depth(taken + [line]) == Depth(taken) + BraceDelta(line)
    ensures SawBrace(taken + [line]) <==> SawBrace(taken) || '{' in line
  {
    var more := taken + [line];
    assert more[..|more| - 1] == taken && more[|taken|] == line;
    assert forall i :: 0 <= i < |taken| ==> more[i] == taken[i];
  }

  // ----- what it returns

  /** `s` is `t` with some elements left out. */
  ghost predicate Subsequence(s: seq<string>, t: seq<string>) {
    if s == [] then true
    else t != [] && ((s[0] == t[0] && Subsequence(s[1..], t[1..])) || Subsequence(s, t[1..]))
  }

  lemma {:induction false} SubsequenceOfLonger(s: seq<string>, t: seq<string>, n: nat)
    requires n <= |t| && Subsequence(s, t[n..])
    ensures Subsequence(s, t)
  {
    if n == 0 {
      assert t[0..] == t;
    } else {
      assert t[1..][n - 1..] == t[n..];
      SubsequenceOfLonger(s, t[1..], n - 1);
    }
  }

  /** Source lines in their order, and no test attribute among them. */
  lemma {:induction false} ProductionIsSubsequence(isTest: string -> bool, lines: seq<string>)
    ensures Subsequence(Production(isTest, lines), lines)
    ensures forall line :: line in Production(isTest, lines) ==> !isTest(line)
    decreases |lines|
  {
    if lines == [] {
    } else if !isTest(lines[0]) {
      ProductionIsSubsequence(isTest, lines[1..]);
    } else {
      ProductionIsSubsequence(isTest, lines[Removed(lines)..]);
      SubsequenceOfLonger(Production(isTest, lines), lines, Removed(lines));
    }
  }

  lemma {:induction false} PlainPrefixIsKept(isTest: string -> bool, prefix: seq<string>, lines: seq<string>)
    requires forall i :: 0 <= i < |prefix| ==> !isTest(prefix[i])
    ensures Production(isTest, prefix + lines) == prefix + Production(isTest, lines)
    decreases |prefix|
  {
    if prefix == [] {
      assert prefix + lines == lines;
    } else {
      assert (prefix + lines)[1..] == prefix[1..] + lines;
      PlainPrefixIsKept(isTest, prefix[1..], lines);
    }
  }

  lemma ProductionIsIdempotent(isTest: string -> bool, lines: seq<string>)
    ensures Production(isTest, Production(isTest, lines)) == Production(isTest, lines)
  {
    var p := Production(isTest, lines);
    ProductionIsSubsequence(isTest, lines);
    assert forall i :: 0 <= i < |p| ==> p[i] in p;
    PlainPrefixIsKept(isTest, p, []);
    assert p + [] == p;
  }

  lemma {:induction false} SkipsExactly(skipped: seq<string>, rest: seq<string>)
    requires forall i :: 0 <= i < |skipped| ==> Skippable(skipped[i])
    requires rest == [] || !Skippable(rest[0])
    ensures SkipLength(skipped + rest) == |skipped|
    decreases |skipped|
  {
    if skipped == [] {
      assert skipped + rest == rest;
    } else {
      assert (skipped + rest)[1..] == skipped[1..] + rest;
      SkipsExactly(skipped[1..], rest);
    }
  }

  lemma {:induction false} TakesExactly(item: seq<string>, rest: seq<string>, k: nat)
    requires IsItem(item) && k < |item|
    ensures ItemLength(item + rest, k) == |item|
    decreases |item| - k
  {
    assert (item + rest)[..k + 1] == item[..k + 1];
    if k + 1 == |item| {
      assert item[..k + 1] == item;
    } else {
      TakesExactly(item, rest, k + 1);
    }
  }

  lemma {:induction false} TakesEverything(rest: seq<string>, k: nat)
    requires k <= |rest| && !CompleteWithin(rest)
    ensures ItemLength(rest, k) == |rest|
    decreases |rest| - k
  {
    if k < |rest| {
      assert !Complete(rest[..k + 1]);
      TakesEverything(rest, k + 1);
    }
  }

  lemma RemovesExactly(attribute: string, skipped: seq<string>, item: seq<string>, rest: seq<string>)
    requires (forall i :: 0 <= i < |skipped| ==> Skippable(skipped[i])) && IsItem(item)
    ensures Removed([attribute] + skipped + item + rest) == 1 + |skipped| + |item|
  {
    var body := [attribute] + skipped + item + rest;
    assert body[1..] == skipped + (item + rest);
    SkipsExactly(skipped, item + rest);
    assert body[1 + |skipped|..] == item + rest;
    TakesExactly(item, rest, 0);
  }

  lemma RemovesEverything(attribute: string, skipped: seq<string>, rest: seq<string>)
    requires forall i :: 0 <= i < |skipped| ==> Skippable(skipped[i])
    requires (rest == [] || !Skippable(rest[0])) && !CompleteWithin(rest)
    ensures Removed([attribute] + skipped + rest) == 1 + |skipped| + |rest|
  {
    var body := [attribute] + skipped + rest;
    assert body[1..] == skipped + rest;
    SkipsExactly(skipped, rest);
    assert body[1 + |skipped|..] == rest;
    TakesEverything(rest, 0);
  }

  /** Exactly the attributed item goes, and the source after it is audited again. */
  lemma OnlyTheTestItemIsRemoved(isTest: string -> bool, prefix: seq<string>, attribute: string,
                                 skipped: seq<string>, item: seq<string>, rest: seq<string>)
    requires forall i :: 0 <= i < |prefix| ==> !isTest(prefix[i])
    requires isTest(attribute) && (forall i :: 0 <= i < |skipped| ==> Skippable(skipped[i])) && IsItem(item)
    ensures Production(isTest, prefix + ([attribute] + skipped + item + rest)) == prefix + Production(isTest, rest)
  {
    var body := [attribute] + skipped + item + rest;
    PlainPrefixIsKept(isTest, prefix, body);
    RemovesExactly(attribute, skipped, item, rest);
    assert body[0] == attribute && body[1 + |skipped| + |item|..] == rest;
  }

  /** An item that never completes takes everything after the attribute with it. */
  lemma UnterminatedItemIsExcluded(isTest: string -> bool, prefix: seq<string>, attribute: string,
                                   skipped: seq<string>, rest: seq<string>)
    requires forall i :: 0 <= i < |prefix| ==> !isTest(prefix[i])
    requires isTest(attribute) && (forall i :: 0 <= i < |skipped| ==> Skippable(skipped[i]))
    requires (rest == [] || !Skippable(rest[0])) && !CompleteWithin(rest)
    ensures Production(isTest, prefix + ([attribute] + skipped + rest)) == prefix
  {
    var body := [attribute] + skipped + rest;
    PlainPrefixIsKept(isTest, prefix, body);
    RemovesEverything(attribute, skipped, rest);
    assert body[0] == attribute && body[1 + |skipped| + |rest|..] == [];
  }

  // ----- when exactly one item goes

  /** What is left of some lines behind their leading attribute and blank lines. */
  function Core(lines: seq<string>): seq<string> {
    lines[SkipLength(lines)..]
  }

  lemma {:induction false} CoreBehind(skipped: seq<string>, lines: seq<string>)
    requires forall i :: 0 <= i < |skipped| ==> Skippable(skipped[i])
    ensures SkipLength(skipped + lines) == |skipped| + SkipLength(lines)
    ensures Core(skipped + lines) == Core(lines)
  {
    if skipped == [] {
      assert skipped + lines == lines;
    } else {
      assert (skipped + lines)[1..] == skipped[1..] + lines;
      CoreBehind(skipped[1..], lines);
    }
  }

  lemma {:induction false} SkippedLines(lines: seq<string>)
    ensures forall i :: 0 <= i < SkipLength(lines) ==> Skippable(lines[i])
    ensures SkipLength(lines) < |lines| ==> !Skippable(lines[SkipLength(lines)])
  {
    if lines != [] && Skippable(lines[0]) {
      SkippedLines(lines[1..]);
      assert forall i :: 0 < i < |lines| ==> lines[i] == lines[1..][i - 1];
    }
  }

  /** Stopping before the end means stopping at the first complete prefix. */
  lemma {:induction false} StopsAtItem(lines: seq<string>, k: nat)
    requires k <= |lines| && forall j :: 0 < j <= k ==> !Complete(lines[..j])
    requires ItemLength(lines, k) < |lines|
    ensures var n := ItemLength(lines, k);
            n > k && Complete(lines[..n]) && forall j :: 0 < j < n ==> !Complete(lines[..j])
    decreases |lines| - k
  {
    if !Complete(lines[..k + 1]) {
      StopsAtItem(lines, k + 1);
    }
  }

  /** The scan goes on right behind `item`, whatever it finds there. */
  ghost predicate ResumesBehind(attribute: string, skipped: seq<string>, item: seq<string>) {
    forall rest :: Removed([attribute] + (skipped + (item + rest))) == 1 + |skipped| + |item|
  }

  lemma RemovedParts(attribute: string, lines: seq<string>)
    ensures Removed([attribute] + lines) == 1 + SkipLength(lines) + ItemLength(Core(lines), 0)
  {
    var body := [attribute] + lines;
    assert body[1..] == lines;
    assert body[1 + SkipLength(lines)..] == lines[SkipLength(lines)..];
  }

  lemma {:induction false} CoreThenRest(item: seq<string>, rest: seq<string>)
    requires Core(item) != [] || rest == [] || !Skippable(rest[0])
    ensures SkipLength(item + rest) == |item| - |Core(item)|
    ensures Core(item + rest) == Core(item) + rest
  {
    if item == [] {
      assert item + rest == rest;
    } else {
      assert (item + rest)[1..] == item[1..] + rest;
      if Skippable(item[0]) {
        assert Core(item) == Core(item[1..]);
        CoreThenRest(item[1..], rest);
        assert Core(item + rest) == Core(item[1..] + rest);
      }
    }
  }

  lemma RemovedCore(attribute: string, skipped: seq<string>, item: seq<string>, rest: seq<string>)
    requires forall i :: 0 <= i < |skipped| ==> Skippable(skipped[i])
    requires Core(item) != [] || rest == [] || !Skippable(rest[0])
    ensures Removed([attribute] + (skipped + (item + rest))) ==
            1 + |skipped| + |item| - |Core(item)| + ItemLength(Core(item) + rest, 0)
  {
    CoreThenRest(item, rest);
    CoreBehind(skipped, item + rest);
    RemovedParts(attribute, skipped + (item + rest));
  }

  /** For any lines at all: exactly they go if and only if what is left of them behind their leading
      attribute and blank lines is one item. In particular lines whose opening brace shares a line with
      an attribute do not, unless the remaining lines happen to be an item themselves. */
  lemma ResumesBehindIff(attribute: string, skipped: seq<string>, item: seq<string>)
    requires forall i :: 0 <= i < |skipped| ==> Skippable(skipped[i])
    ensures ResumesBehind(attribute, skipped, item) <==> IsItem(Core(item))
  {
    var core := Core(item);
    SkippedLines(item);
    if IsItem(core) {
      forall rest ensures Removed([attribute] + (skipped + (item + rest))) == 1 + |skipped| + |item| {
        RemovedCore(attribute, skipped, item, rest);
        TakesExactly(core, rest, 0);
      }
    } else if ResumesBehind(attribute, skipped, item) {
      RemovedCore(attribute, skipped, item, ["x"]);
      assert ItemLength(core + ["x"], 0) == |core|;
      StopsInside(core, ["x"]);
    }
  }

  lemma StopsInside(core: seq<string>, rest: seq<string>)
    requires (core != [] ==> !Skippable(core[0])) && rest != [] && ItemLength(core + rest, 0) == |core|
    ensures IsItem(core)
  {
    StopsAtItem(core + rest, 0);
    assert (core + rest)[..|core|] == core;
    forall k | 0 < k < |core| ensures !Complete(core[..k]) {
      assert (core + rest)[..k] == core[..k];
    }
  }

  /** A two-line test function whose header shares its line with another attribute: the header is
      skipped, its closing brace completes nothing, and production text behind it goes too. */
  lemma SharedLineIsNotResumed(attribute: string, skipped: seq<string>, header: string)
    requires header == "#[test] fn f() {" && forall i :: 0 <= i < |skipped| ==> Skippable(skipped[i])
    ensures !ResumesBehind(attribute, skipped, [header, "}"])
  {
    var item := [header, "}"];
    ResumesBehindIff(attribute, skipped, item);
    assert header[0] == '#' && header[..2] == "#[";
    var last := item[1..];
    assert last == ["}"] && last[0][0] == '}' && !Skippable(last[0]);
    assert SkipLength(last) == 0 && SkipLength(item) == 1;
    assert !SawBrace(last) && last[|last| - 1] == "}";
  }

  /** The first brace of the item is on line `m`, and its last line closes the last of them. */
  predicate Balanced(item: seq<string>, m: nat) {
    && m < |item| && !Skippable(item[0])
    && '{' in item[m] && (forall i :: 0 <= i < m ==> '{' !in item[i])
    && Depth(item) <= 0 && forall k :: m < k < |item| ==> Depth(item[..k]) > 0
  }

  lemma BalancedPrefix(item: seq<string>, m: nat, k: nat)
    requires Balanced(item, m) && 0 < k <= |item|
    ensures Complete(item[..k]) <==> if k <= m then ';' in item[k - 1] else k == |item|
  {
    var front := item[..k];
    if k <= m {
      assert !SawBrace(front);
    } else {
      assert front[m] == item[m];
      assert k == |item| ==> front == item;
    }
  }

  /** A balanced item is one item exactly when no header line before its first brace holds a semicolon. */
  lemma BalancedItemIff(item: seq<string>, m: nat)
    requires Balanced(item, m)
    ensures IsItem(item) <==> forall i :: 0 <= i < m ==> ';' !in item[i]
  {
    forall k | 0 < k <= |item|
      ensures Complete(item[..k]) <==> if k <= m then ';' in item[k - 1] else k == |item|
    {
      BalancedPrefix(item, m, k);
    }
    assert item[..|item|] == item;
    if IsItem(item) {
      forall i | 0 <= i < m ensures ';' !in item[i] {
        assert !Complete(item[..i + 1]);
      }
    }
  }

  /** An item without braces is one item exactly when its last line holds its only semicolon line. */
  lemma PlainItemIff(item: seq<string>)
    requires item != [] && !Skippable(item[0]) && forall i :: 0 <= i < |item| ==> '{' !in item[i]
    ensures IsItem(item) <==> forall i :: 0 <= i < |item| ==> (';' in item[i] <==> i == |item| - 1)
  {
    forall k | 0 < k <= |item| ensures Complete(item[..k]) <==> ';' in item[k - 1] {
      assert !SawBrace(item[..k]);
    }
    assert item[..|item|] == item;
    if IsItem(item) {
      forall i | 0 <= i < |item| ensures ';' in item[i] <==> i == |item| - 1 {
        assert Complete(item[..i + 1]) <==> i == |item| - 1;
      }
    }
  }

  lemma CutIsItem(item: seq<string>, m: nat, i: nat)
    requires Balanced(item, m) && i < m && ';' in item[i] && forall k :: 0 <= k < i ==> ';' !in item[k]
    ensures IsItem(item[..i + 1])
  {
    var taken := item[..i + 1];
    BalancedPrefix(item, m, i + 1);
    forall k | 0 < k < |taken| ensures !Complete(taken[..k]) {
      BalancedPrefix(item, m, k);
      assert taken[..k] == item[..k];
    }
  }

  lemma Regroup(front: seq<string>, item: seq<string>, k: nat, rest: seq<string>)
    requires k <= |item|
    ensures front + item[..k] + (item[k..] + rest) == front + item + rest
  {
    assert item[..k] + item[k..] == item;
  }

  lemma CutItemIsRemoved(isTest: string -> bool, prefix: seq<string>, attribute: string,
                         skipped: seq<string>, item: seq<string>, k: nat, rest: seq<string>)
    requires forall i :: 0 <= i < |prefix| ==> !isTest(prefix[i])
    requires isTest(attribute) && (forall i :: 0 <= i < |skipped| ==> Skippable(skipped[i]))
    requires k <= |item| && IsItem(item[..k])
    ensures Production(isTest, prefix + ([attribute] + skipped + item + rest)) ==
            prefix + Production(isTest, item[k..] + rest)
  {
    OnlyTheTestItemIsRemoved(isTest, prefix, attribute, skipped, item[..k], item[k..] + rest);
    Regroup([attribute] + skipped, item, k, rest);
  }

  /** Otherwise the first header line with a semicolon ends the removal, and the rest of the item is
      scanned as production text. */
  lemma EarlySemicolonCutsItem(isTest: string -> bool, prefix: seq<string>, attribute: string,
                               skipped: seq<string>, item: seq<string>, m: nat, i: nat, rest: seq<string>)
    requires forall k :: 0 <= k < |prefix| ==> !isTest(prefix[k])
    requires isTest(attribute) && (forall k :: 0 <= k < |skipped| ==> Skippable(skipped[k]))
    requires Balanced(item, m) && i < m && ';' in item[i] && forall k :: 0 <= k < i ==> ';' !in item[k]
    ensures Production(isTest, prefix + ([attribute] + skipped + item + rest)) ==
            prefix + Production(isTest, item[i + 1..] + rest)
  {
    CutIsItem(item, m, i);
    CutItemIsRemoved(isTest, prefix, attribute, skipped, item, i + 1, rest);
  }

  /** So a balanced item with no test attribute inside goes as a whole exactly when no header line
      before its first brace holds a semicolon. */
  lemma BalancedItemIsRemovedIff(isTest: string -> bool, prefix: seq<string>, attribute: string,
                                 skipped: seq<string>, item: seq<string>, m: nat, rest: seq<string>)
    requires forall k :: 0 <= k < |prefix| ==> !isTest(prefix[k])
    requires isTest(attribute) && (forall k :: 0 <= k < |skipped| ==> Skippable(skipped[k]))
    requires Balanced(item, m) && forall k :: 0 <= k < |item| ==> !isTest(item[k])
    ensures Production(isTest, prefix + ([attribute] + skipped + item + rest)) == prefix + Production(isTest, rest) <==>
            forall i :: 0 <= i < m ==> ';' !in item[i]
  {
    BalancedItemIff(item, m);
    if IsItem(item) {
      OnlyTheTestItemIsRemoved(isTest, prefix, attribute, skipped, item, rest);
    } else {
      var i := FirstSemicolon(item, m);
      EarlySemicolonCutsItem(isTest, prefix, attribute, skipped, item, m, i, rest);
      PlainPrefixIsKept(isTest, item[i + 1..], rest);
    }
  }

  lemma {:induction false} FirstSemicolon(item: seq<string>, m: nat) returns (i: nat)
    requires m <= |item| && exists k :: 0 <= k < m && ';' in item[k]
    ensures i < m && ';' in item[i] && forall k :: 0 <= k < i ==> ';' !in item[k]
  {
    if exists k :: 0 <= k < m - 1 && ';' in item[k] {
      i := FirstSemicolon(item, m - 1);
    } else {
      i := m - 1;
    }
  }

  // ----- braces, blanks and the attribute in plain terms

  lemma {:induction false} CountIs(line: string, c: char)
    ensures Count(line, c) == multiset(line)[c]
  {
    if line != [] {
      CountIs(line[1..], c);
      assert line == [line[0]] + line[1..];
    }
  }

  /** The depth is the number of opening braces less the number of closing ones. */
  lemma {:induction false} DepthCounts(lines: seq<string>)
    ensures Depth(lines) == multiset(Whole(lines))['{'] as int - multiset(Whole(lines))['}']
  {
    if lines != [] {
      DepthCounts(lines[..|lines| - 1]);
      CountIs(lines[|lines| - 1], '{');
      CountIs(lines[|lines| - 1], '}');
    }
  }

  /** The lines without their ends. */
  function Whole(lines: seq<string>): string {
    if lines == [] then [] else Whole(lines[..|lines| - 1]) + lines[|lines| - 1]
  }

  /** Skipped are the lines of white space alone, and those that start, after white space, with an
      attribute. */
  lemma SkippableIff(line: string)
    ensures Skippable(line) <==>
            Blank(line) || exists gap, more :: Blank(gap) && line == gap + "#[" + more
  {
    var gap := StrippedGap(line);
    var t := LeftStrip(line);
    if t == [] {
      assert line == gap;
    } else if Skippable(line) {
      assert t == "#[" + t[2..];
      assert line == gap + "#[" + t[2..];
    }
    if Blank(line) {
      StripGap(line, []);
      assert line + [] == line;
    }
    if g, more :| Blank(g) && line == g + "#[" + more {
      assert line == g + ("#[" + more);
      StripGap(g, "#[" + more);
    }
  }

  /** White space, by code point. */
  lemma SpaceIff(c: char)
    ensures Space(c) <==>
            c as int in {9, 10, 11, 12, 13, 28, 29, 30, 31, 32, 0x85, 0xA0, 0x1680, 0x2000, 0x2001, 0x2002, 0x2003,
                         0x2004, 0x2005, 0x2006, 0x2007, 0x2008, 0x2009, 0x200A, 0x2028, 0x2029, 0x202F, 0x205F, 0x3000}
  {
  }

  lemma PlainAttribute()
    ensures Compact(CfgTestTokens()) == "#[cfg(test)]"
  {
    var t := CfgTestTokens();
    assert Compact(t[6..]) == "]" by { assert t[6..] == ["]"] && t[6..][1..] == []; }
    assert Compact(t[5..]) == ")]" by { assert t[5..][1..] == t[6..]; }
    assert Compact(t[4..]) == "test)]" by { assert t[4..][1..] == t[5..]; }
    assert Compact(t[3..]) == "(test)]" by { assert t[3..][1..] == t[4..]; }
    assert Compact(t[2..]) == "cfg(test)]" by { assert t[2..][1..] == t[3..]; }
    assert Compact(t[1..]) == "[cfg(test)]" by { assert t[1..][1..] == t[2..]; }
  }

  // ----- a signature over several lines

  lemma {:induction false} CountNone(line: string, c: char)
    requires c !in line
    ensures Count(line, c) == 0
  {
    if line != [] {
      CountNone(line[1..], c);
    }
  }

  /** Two header lines without braces, then a line that opens one and a line that closes it. */
  predicate Spanned(item: seq<string>) {
    && |item| == 4 && !Skippable(item[0]) && item[2] == "{" && item[3] == "}"
    && forall i :: 0 <= i < 2 ==> '{' !in item[i] && '}' !in item[i]
  }

  lemma BraceLines()
    ensures BraceDelta("{") == 1 && BraceDelta("}") == -1
  {
    assert "{"[1..] == [] && "}"[1..] == [];
  }

  lemma SpannedDepths(item: seq<string>)
    requires |item| == 4 && BraceDelta(item[0]) == BraceDelta(item[1]) == 0
    requires BraceDelta(item[2]) == 1 && BraceDelta(item[3]) == -1
    ensures Depth(item[..3]) == 1 && Depth(item) == 0
  {
    TakeLine([], item[0]);
    TakeLine(item[..1], item[1]);
    TakeLine(item[..2], item[2]);
    TakeLine(item[..3], item[3]);
    assert [] + [item[0]] == item[..1] && item[..1] + [item[1]] == item[..2];
    assert item[..2] + [item[2]] == item[..3] && item[..3] + [item[3]] == item;
  }

  lemma SpannedIsBalanced(item: seq<string>)
    requires Spanned(item)
    ensures Balanced(item, 2)
  {
    forall i | 0 <= i < 2 ensures BraceDelta(item[i]) == 0 {
      CountNone(item[i], '{');
      CountNone(item[i], '}');
    }
    BraceLines();
    SpannedDepths(item);
    assert item[2][0] == '{';
  }

  /** The signature mentions an array type on its second line. */
  function SpannedSignature(): seq<string> {
    ["fn f(", "x: [u8; 4])", "{", "}"]
  }

  lemma SpannedSignatureLines(item: seq<string>)
    requires item == SpannedSignature()
    ensures Spanned(item) && ';' !in item[0] && ';' in item[1]
  {
    assert item[0][0] == 'f' && item[1][6] == ';';
  }

  /** Tokens with no white space at all. */
  function Compact(tokens: seq<string>): string {
    if tokens == [] then [] else tokens[0] + Compact(tokens[1..])
  }

  lemma {:induction false} CompactMatches(tokens: seq<string>)
    requires Solid(tokens)
    ensures Matches(tokens, Compact(tokens))
  {
    if tokens != [] {
      CompactMatches(tokens[1..]);
      assert Compact(tokens)[|tokens[0]|..] == Compact(tokens[1..]);
    }
  }

  lemma OtherLine(line: string)
    requires line != [] && !Space(line[0]) && line[0] != '#'
    ensures !CfgTest(line)
  {
    assert CfgTestTokens()[0] == "#";
  }

  lemma SpannedIsCut(item: seq<string>, attribute: string)
    requires Spanned(item) && ';' !in item[0] && ';' in item[1] && CfgTest(attribute)
    ensures Balanced(item, 2) && !IsItem(item) && Production(CfgTest, [attribute] + item) == ["{", "}"]
  {
    SpannedIsBalanced(item);
    BalancedItemIff(item, 2);
    CutIsItem(item, 2, 1);
    LinesStay(item, attribute);
  }

  /** Behind the plain attribute the last two lines of the test function stay in the production text. */
  lemma SpannedSignatureIsCut(attribute: string, item: seq<string>)
    requires attribute == "#[cfg(test)]" && item == SpannedSignature()
    ensures Balanced(item, 2) && !IsItem(item) && Production(CfgTest, [attribute] + item) == ["{", "}"]
  {
    TokensAreSolid();
    CompactMatches(CfgTestTokens());
    PlainAttribute();
    SpannedSignatureLines(item);
    SpannedIsCut(item, attribute);
  }

  lemma LinesStay(item: seq<string>, attribute: string)
    requires |item| == 4 && item[2] == "{" && item[3] == "}" && IsItem(item[..2]) && CfgTest(attribute)
    ensures Production(CfgTest, [attribute] + item) == ["{", "}"]
  {
    var left := item[2..];
    assert Production(CfgTest, [attribute] + item) == Production(CfgTest, left) by {
      CutItemIsRemoved(CfgTest, [], attribute, [], item, 2, []);
      assert [] + ([attribute] + [] + item + []) == [attribute] + item && left + [] == left;
    }
    assert left == ["{", "}"];
    OtherLine(left[0]);
    OtherLine(left[1]);
    PlainPrefixIsKept(CfgTest, left, []);
    assert left + [] == left;
  }
}
