/**
JSON texts (sections 2 to 7 of RFC 8259) with any insignificant white space and any choice of
escapes, and the proof that the scanner finds exactly the end of a printed object.
*/
module JsonPrinting {
  import opened JsonScanner

  /** One character of a string literal: itself, a two-character escape, or a \u escape. */
  datatype Item = Plain(c: char) | Short(c: char) | Unicode(hex: string)

  datatype Value =
    | Literal(token: string)                // number, true, false, null
    | Str(items: seq<Item>)
    | Arr(open: string, elements: Elements)
    | Obj(open: string, members: Members)

  datatype Elements = NoElements | Element(value: Value, after: string, before: string, rest: Elements)

  datatype Members =
    | NoMembers
    | Member(key: seq<Item>, beforeColon: string, afterColon: string, value: Value, after: string,
             before: string, rest: Members)

  // ----- well-formedness

  predicate WhiteSpace(text: string) {
    forall i :: 0 <= i < |text| ==> text[i] in {' ', '\t', '\n', '\r'}
  }

  predicate HexDigit(c: char) {
    '0' <= c <= '9' || 'a' <= c <= 'f' || 'A' <= c <= 'F'
  }

  predicate GoodItem(item: Item) {
    match item
    case Plain(c) => ' ' <= c && c != '"' && c != '\\'
    case Short(c) => c in {'"', '\\', '/', 'b', 'f', 'n', 'r', 't'}
    case Unicode(hex) => |hex| == 4 && forall i :: 0 <= i < 4 ==> HexDigit(hex[i])
  }

  predicate GoodItems(items: seq<Item>) {
    forall i :: 0 <= i < |items| ==> GoodItem(items[i])
  }

  /** Covers every number and the three names, and more. */
  predicate GoodToken(token: string) {
    forall i :: 0 <= i < |token| ==>
      '0' <= token[i] <= '9' || 'a' <= token[i] <= 'z' || 'A' <= token[i] <= 'Z' || token[i] in {'+', '-', '.'}
  }

  predicate Good(v: Value) {
    match v
    case Literal(token) => GoodToken(token)
    case Str(items) => GoodItems(items)
    case Arr(open, elements) => WhiteSpace(open) && GoodElements(elements)
    case Obj(open, members) => WhiteSpace(open) && GoodMembers(members)
  }

  predicate GoodElements(es: Elements) {
    match es
    case NoElements => true
    case Element(value, after, before, rest) =>
      Good(value) && WhiteSpace(after) && WhiteSpace(before) && GoodElements(rest)
  }

  predicate GoodMembers(ms: Members) {
    match ms
    case NoMembers => true
    case Member(key, beforeColon, afterColon, value, after, before, rest) =>
      && GoodItems(key) && WhiteSpace(beforeColon) && WhiteSpace(afterColon) && Good(value)
      && WhiteSpace(after) && WhiteSpace(before) && GoodMembers(rest)
  }

  // ----- printing

  function PrintItem(item: Item): string {
    match item
    case Plain(c) => [c]
    case Short(c) => ['\\', c]
    case Unicode(hex) => ['\\', 'u'] + hex
  }

  function PrintItems(items: seq<Item>): string {
    if items == [] then [] else PrintItems(items[..|items| - 1]) + PrintItem(items[|items| - 1])
  }

  function PrintString(items: seq<Item>): string {
    ['"'] + PrintItems(items) + ['"']
  }

  function Print(v: Value): string {
    match v
    case Literal(token) => token
    case Str(items) => PrintString(items)
    case Arr(open, elements) => "[" + open + PrintElements(elements) + "]"
    case Obj(open, members) => ['{'] + (open + PrintMembers(members)) + ['}']
  }

  function PrintElements(es: Elements): string {
    match es
    case NoElements => []
    case Element(value, after, before, rest) =>
      Print(value) + (after + if rest.NoElements? then [] else "," + before) + PrintElements(rest)
  }

  function PrintMembers(ms: Members): string {
    match ms
    case NoMembers => []
    case Member(key, beforeColon, afterColon, value, after, before, rest) =>
      PrintString(key) + (beforeColon + ":" + afterColon) + Print(value)
      + (after + if rest.NoMembers? then [] else "," + before) + PrintMembers(rest)
  }

  // ----- the scanner passes over it

  /** Inside a string the depth stands still, and whole items lead back inside the string. */
  lemma {:induction false} ItemsStayInside(s: Scan, items: seq<Item>)
    requires s.mode == InString && GoodItems(items)
    ensures FeedAll(s, PrintItems(items)) == s
  {
    if items != [] {
      var front, last := items[..|items| - 1], items[|items| - 1];
      ItemsStayInside(s, front);
      FeedConcat(s, PrintItems(front), PrintItem(last));
      ItemStaysInside(s, last);
    }
  }

  lemma ItemStaysInside(s: Scan, item: Item)
    requires s.mode == InString && GoodItem(item)
    ensures FeedAll(s, PrintItem(item)) == s
  {
    match item
    case Plain(c) => FeedOne(s, c);
    case Short(c) => EscapePair(s, c);
    case Unicode(hex) =>
      FeedConcat(s, ['\\', 'u'], hex);
      EscapePair(s, 'u');
      PlainStaysInside(s, hex);
  }

  lemma EscapePair(s: Scan, c: char)
    requires s.mode == InString
    ensures FeedAll(s, ['\\', c]) == s
  {
    assert ['\\', c] == ['\\'] + [c];
    FeedConcat(s, ['\\'], [c]);
    FeedOne(s, '\\');
    FeedOne(s.(mode := Escaped), c);
  }

  lemma {:induction false} PlainStaysInside(s: Scan, text: string)
    requires s.mode == InString && forall i :: 0 <= i < |text| ==> text[i] != '"' && text[i] != '\\'
    ensures FeedAll(s, text) == s
  {
    if text != [] {
      PlainStaysInside(s, text[..|text| - 1]);
    }
  }

  lemma {:induction false} DepthStandsStill(s: Scan, text: string)
    requires s.mode != Code
    requires forall k :: 0 <= k < |text| ==> FeedAll(s, text[..k]).mode != Code
    ensures FeedAll(s, text).depth == s.depth
  {
    if text != [] {
      var front := text[..|text| - 1];
      forall k | 0 <= k < |front| ensures FeedAll(s, front[..k]).mode != Code {
        assert front[..k] == text[..k];
      }
      DepthStandsStill(s, front);
    }
  }

  lemma {:induction false} ItemsNeverLeave(s: Scan, items: seq<Item>, k: nat)
    requires s.mode == InString && GoodItems(items) && k <= |PrintItems(items)|
    ensures FeedAll(s, PrintItems(items)[..k]).mode != Code
  {
    if items == [] {
      assert PrintItems(items)[..k] == [];
    } else {
      var front, last := items[..|items| - 1], items[|items| - 1];
      var before := PrintItems(front);
      if k <= |before| {
        assert PrintItems(items)[..k] == before[..k];
        ItemsNeverLeave(s, front, k);
      } else {
        var m := k - |before|;
        assert PrintItems(items)[..k] == before + PrintItem(last)[..m];
        FeedConcat(s, before, PrintItem(last)[..m]);
        ItemsStayInside(s, front);
        ItemNeverLeaves(s, last, m);
      }
    }
  }

  lemma ItemNeverLeaves(s: Scan, item: Item, m: nat)
    requires s.mode == InString && GoodItem(item) && 0 < m <= |PrintItem(item)|
    ensures FeedAll(s, PrintItem(item)[..m]).mode != Code
  {
    var text := PrintItem(item);
    if m == |text| {
      assert text[..m] == text;
      ItemStaysInside(s, item);
    } else if m == 1 {
      assert text[..1] == ['\\'];
      FeedOne(s, '\\');
    } else {
      assert text[..m] == ['\\', 'u'] + item.hex[..m - 2];
      FeedConcat(s, ['\\', 'u'], item.hex[..m - 2]);
      EscapePair(s, 'u');
      PlainStaysInside(s, item.hex[..m - 2]);
    }
  }

  lemma ItemsKeepDepth(s: Scan, items: seq<Item>, k: nat)
    requires s.mode == InString && GoodItems(items) && k <= |PrintItems(items)|
    ensures FeedAll(s, PrintItems(items)[..k]).depth == s.depth
  {
    var part := PrintItems(items)[..k];
    forall j: nat | j < |part| ensures FeedAll(s, part[..j]).mode != Code {
      assert part[..j] == PrintItems(items)[..j];
      ItemsNeverLeave(s, items, j);
    }
    DepthStandsStill(s, part);
  }

  lemma StringIsNeutral(s: Scan, items: seq<Item>)
    requires s.mode == Code && GoodItems(items)
    ensures Neutral(s, PrintString(items))
  {
    var body, text, inside := PrintItems(items), PrintString(items), s.(mode := InString);
    FeedOne(s, '"');
    ItemsStayInside(inside, items);
    FeedConcat(s, ['"'], body);
    FeedConcat(s, ['"'] + body, ['"']);
    FeedOne(inside, '"');
    forall k | 0 <= k <= |text| ensures FeedAll(s, text[..k]).depth >= s.depth {
      if k == |text| {
        assert text[..k] == text;
      } else if k > 0 {
        EnclosedPrefix('"', body, '"', k);
        FeedConcat(s, ['"'], body[..k - 1]);
        ItemsKeepDepth(inside, items, k - 1);
      }
    }
  }

  lemma {:induction false} ValueIsNeutral(s: Scan, v: Value)
    requires s.mode == Code && Good(v)
    ensures Neutral(s, Print(v))
    decreases v
  {
    match v
    case Literal(token) => InertIsNeutral(s, token);
    case Str(items) => StringIsNeutral(s, items);
    case Arr(open, elements) =>
      InertIsNeutral(s, "[" + open);
      ElementsAreNeutral(s, elements);
      InertIsNeutral(s, "]");
      NeutralConcat(s, "[" + open, PrintElements(elements));
      NeutralConcat(s, "[" + open + PrintElements(elements), "]");
    case Obj(open, members) =>
      ObjectIsNeutral(s, v);
  }

  lemma {:induction false} ObjectIsNeutral(s: Scan, v: Value)
    requires s.mode == Code && Good(v) && v.Obj?
    ensures Neutral(s, Print(v))
    ensures forall k :: 1 <= k < |Print(v)| ==> FeedAll(s, Print(v)[..k]).depth > s.depth
    decreases v, 0
  {
    var deeper := s.(depth := s.depth + 1);
    InertIsNeutral(deeper, v.open);
    MembersAreNeutral(deeper, v.members);
    NeutralConcat(deeper, v.open, PrintMembers(v.members));
    BracedIsNeutral(s, v.open + PrintMembers(v.members));
    forall k | 1 <= k < |Print(v)| ensures FeedAll(s, Print(v)[..k]).depth > s.depth {
      BracesEnclose(s, v.open + PrintMembers(v.members), k);
    }
  }

  lemma {:induction false} ElementsAreNeutral(s: Scan, es: Elements)
    requires s.mode == Code && GoodElements(es)
    ensures Neutral(s, PrintElements(es))
    decreases es
  {
    match es
    case NoElements => InertIsNeutral(s, []);
    case Element(value, after, before, rest) =>
      var gap := after + if rest.NoElements? then [] else "," + before;
      ValueIsNeutral(s, value);
      InertIsNeutral(s, gap);
      ElementsAreNeutral(s, rest);
      NeutralConcat(s, Print(value), gap);
      NeutralConcat(s, Print(value) + gap, PrintElements(rest));
  }

  lemma {:induction false} MembersAreNeutral(s: Scan, ms: Members)
    requires s.mode == Code && GoodMembers(ms)
    ensures Neutral(s, PrintMembers(ms))
    decreases ms
  {
    match ms
    case NoMembers => InertIsNeutral(s, []);
    case Member(key, beforeColon, afterColon, value, after, before, rest) =>
      var gap := after + if rest.NoMembers? then [] else "," + before;
      ValueIsNeutral(s, value);
      PairIsNeutral(s, key, beforeColon, afterColon, Print(value));
      InertIsNeutral(s, gap);
      MembersAreNeutral(s, rest);
      var pair := PrintString(key) + (beforeColon + ":" + afterColon) + Print(value);
      NeutralConcat(s, pair, gap);
      NeutralConcat(s, pair + gap, PrintMembers(rest));
  }

  lemma PairIsNeutral(s: Scan, key: seq<Item>, beforeColon: string, afterColon: string, value: string)
    requires s.mode == Code && GoodItems(key) && WhiteSpace(beforeColon) && WhiteSpace(afterColon)
    requires Neutral(s, value)
    ensures Neutral(s, PrintString(key) + (beforeColon + ":" + afterColon) + value)
  {
    var colon := beforeColon + ":" + afterColon;
    StringIsNeutral(s, key);
    InertIsNeutral(s, colon);
    NeutralConcat(s, PrintString(key), colon);
    NeutralConcat(s, PrintString(key) + colon, value);
  }

  /** Round trip: whatever follows a printed object, its end is where the printing ended. */
  lemma PrintedObjectEnds(v: Value, suffix: string)
    requires v.Obj? && Good(v)
    ensures ObjectEnds(Print(v) + suffix, |Print(v)|)
  {
    ObjectIsNeutral(START, v);
    var text := Print(v) + suffix;
    assert text[..|Print(v)|] == Print(v);
    forall k | 1 <= k < |Print(v)| ensures FeedAll(START, text[..k]).depth > 0 {
      assert text[..k] == Print(v)[..k];
    }
  }
}
