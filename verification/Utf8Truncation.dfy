/** `truncate_utf8` over well-formed UTF-8 as sections 3 and 4 of RFC 3629 define it. */
module Utf8Truncation {
  import opened StdioFrames

  predicate Continuation(b: Byte) {
    0x80 <= b <= 0xBF
  }

  predicate Three(s: Bytes)
    requires |s| >= 3
  {
    && Continuation(s[2])
    && ((s[0] == 0xE0 && 0xA0 <= s[1] <= 0xBF) || (0xE1 <= s[0] <= 0xEC && Continuation(s[1]))
        || (s[0] == 0xED && 0x80 <= s[1] <= 0x9F) || (0xEE <= s[0] <= 0xEF && Continuation(s[1])))
  }

  predicate Four(s: Bytes)
    requires |s| >= 4
  {
    && Continuation(s[2]) && Continuation(s[3])
    && ((s[0] == 0xF0 && 0x90 <= s[1] <= 0xBF) || (0xF1 <= s[0] <= 0xF3 && Continuation(s[1]))
        || (s[0] == 0xF4 && 0x80 <= s[1] <= 0x8F))
  }

  /** The length of the well-formed character at the front, or zero if there is none. */
  function CharLength(s: Bytes): (n: nat)
    ensures n <= |s| && n <= 4
    ensures n > 0 ==> !Continuation(s[0]) && forall i :: 0 < i < n ==> Continuation(s[i])
  {
    if |s| >= 1 && s[0] <= 0x7F then 1
    else if |s| >= 2 && 0xC2 <= s[0] <= 0xDF && Continuation(s[1]) then 2
    else if |s| >= 3 && Three(s) then 3
    else if |s| >= 4 && Four(s) then 4
    else 0
  }

  predicate WellFormed(s: Bytes)
    decreases |s|
  {
    s == [] || (CharLength(s) > 0 && WellFormed(s[CharLength(s)..]))
  }

  // ----- well-formed means encoded

  /** Unicode scalar values. */
  predicate Scalar(cp: nat) {
    cp < 0xD800 || 0xE000 <= cp < 0x11_0000
  }

  /** The encoding of a scalar value, six bits to a continuation byte. */
  function Encode(cp: nat): Bytes
    requires Scalar(cp)
  {
    if cp < 0x80 then [cp]
    else if cp < 0x800 then [0xC0 + cp / 64, 0x80 + cp % 64]
    else if cp < 0x1_0000 then [0xE0 + cp / 64 / 64, 0x80 + cp / 64 % 64, 0x80 + cp % 64]
    else [0xF0 + cp / 64 / 64 / 64, 0x80 + cp / 64 / 64 % 64, 0x80 + cp / 64 % 64, 0x80 + cp % 64]
  }

  function EncodeAll(cps: seq<nat>): Bytes
    requires forall i :: 0 <= i < |cps| ==> Scalar(cps[i])
  {
    if cps == [] then [] else Encode(cps[0]) + EncodeAll(cps[1..])
  }

  lemma EncodedIsCharacter(cp: nat, rest: Bytes)
    requires Scalar(cp)
    ensures CharLength(Encode(cp) + rest) == |Encode(cp)|
  {
  }

  lemma LowDigit(q: nat, r: nat)
    requires r < 64
    ensures (q * 64 + r) / 64 == q && (q * 64 + r) % 64 == r
  {
  }

  lemma TwoBytes(a: int, b: int) returns (cp: nat)
    requires 0xC2 <= a <= 0xDF && 0x80 <= b <= 0xBF
    ensures Scalar(cp) && Encode(cp) == [a, b]
  {
    LowDigit(a - 0xC0, b - 0x80);
    cp := (a - 0xC0) * 64 + (b - 0x80);
  }

  lemma ThreeBytes(a: int, b: int, c: int) returns (cp: nat)
    requires 0xE0 <= a <= 0xEF && 0x80 <= b <= 0xBF && 0x80 <= c <= 0xBF
    requires (a == 0xE0 ==> 0xA0 <= b) && (a == 0xED ==> b <= 0x9F)
    ensures Scalar(cp) && Encode(cp) == [a, b, c]
  {
    var q := (a - 0xE0) * 64 + (b - 0x80);
    LowDigit(a - 0xE0, b - 0x80);
    LowDigit(q, c - 0x80);
    cp := q * 64 + (c - 0x80);
  }

  lemma FourBytes(a: int, b: int, c: int, d: int) returns (cp: nat)
    requires 0xF0 <= a <= 0xF4 && 0x80 <= b <= 0xBF && 0x80 <= c <= 0xBF && 0x80 <= d <= 0xBF
    requires (a == 0xF0 ==> 0x90 <= b) && (a == 0xF4 ==> b <= 0x8F)
    ensures Scalar(cp) && Encode(cp) == [a, b, c, d]
  {
    var p := (a - 0xF0) * 64 + (b - 0x80);
    var q := p * 64 + (c - 0x80);
    LowDigit(a - 0xF0, b - 0x80);
    LowDigit(p, c - 0x80);
    LowDigit(q, d - 0x80);
    cp := q * 64 + (d - 0x80);
  }

  lemma CharacterIsEncoded(s: Bytes) returns (cp: nat)
    requires CharLength(s) > 0
    ensures Scalar(cp) && Encode(cp) == s[..CharLength(s)]
  {
    var n := CharLength(s);
    if n == 1 {
      cp := s[0];
    } else if n == 2 {
      cp := TwoBytes(s[0], s[1]);
    } else if n == 3 {
      cp := ThreeBytes(s[0], s[1], s[2]);
    } else {
      cp := FourBytes(s[0], s[1], s[2], s[3]);
    }
  }

  /** The well-formed byte strings are exactly the encodings of sequences of scalar values. */
  lemma WellFormedIff(s: Bytes)
    ensures WellFormed(s) <==>
            exists cps: seq<nat> :: (forall i :: 0 <= i < |cps| ==> Scalar(cps[i])) && s == EncodeAll(cps)
  {
    if WellFormed(s) {
      var cps := Decoded(s);
    }
    if cps: seq<nat> :| (forall i :: 0 <= i < |cps| ==> Scalar(cps[i])) && s == EncodeAll(cps) {
      EncodedIsWellFormed(cps);
    }
  }

  lemma {:induction false} Decoded(s: Bytes) returns (cps: seq<nat>)
    requires WellFormed(s)
    ensures (forall i :: 0 <= i < |cps| ==> Scalar(cps[i])) && s == EncodeAll(cps)
    decreases |s|
  {
    if s == [] {
      cps := [];
    } else {
      var cp := CharacterIsEncoded(s);
      var later := Decoded(s[CharLength(s)..]);
      cps := [cp] + later;
      assert cps[1..] == later;
    }
  }

  lemma {:induction false} EncodedIsWellFormed(cps: seq<nat>)
    requires forall i :: 0 <= i < |cps| ==> Scalar(cps[i])
    ensures WellFormed(EncodeAll(cps))
  {
    if cps != [] {
      EncodedIsWellFormed(cps[1..]);
      EncodedIsCharacter(cps[0], EncodeAll(cps[1..]));
      assert (Encode(cps[0]) + EncodeAll(cps[1..]))[|Encode(cps[0])|..] == EncodeAll(cps[1..]);
    }
  }

  // ----- character boundaries

  /** `is_char_boundary`. */
  predicate Boundary(s: Bytes, i: nat) {
    i == 0 || i == |s| || (i < |s| && !Continuation(s[i]))
  }

  /** A shorter piece of one character is not a character. */
  lemma PieceIsNoCharacter(s: Bytes, i: nat)
    requires 0 < i < CharLength(s)
    ensures CharLength(s[..i]) == 0
  {
  }

  lemma SameCharacter(s: Bytes, i: nat)
    requires 0 < CharLength(s) <= i <= |s|
    ensures CharLength(s[..i]) == CharLength(s)
  {
  }

  /** Cutting a well-formed string leaves a well-formed prefix exactly at the character boundaries. */
  lemma {:induction false} BoundaryIff(s: Bytes, i: nat)
    requires WellFormed(s) && i <= |s|
    ensures Boundary(s, i) <==> WellFormed(s[..i])
    decreases |s|
  {
    if 0 < i {
      var n := CharLength(s);
      if i < n {
        PieceIsNoCharacter(s, i);
      } else {
        SameCharacter(s, i);
        BoundaryIff(s[n..], i - n);
        assert s[..i][n..] == s[n..][..i - n];
        assert i == n && n < |s| ==> !Continuation(s[n..][0]);
      }
    }
  }

  lemma {:induction false} Concatenation(a: Bytes, b: Bytes)
    requires WellFormed(a) && WellFormed(b)
    ensures WellFormed(a + b)
    decreases |a|
  {
    if a == [] {
      assert a + b == b;
    } else {
      var n := CharLength(a);
      assert (a + b)[..|a|] == a;
      LongerText(a, b);
      assert (a + b)[n..] == a[n..] + b;
      Concatenation(a[n..], b);
    }
  }

  lemma LongerText(a: Bytes, b: Bytes)
    requires CharLength(a) > 0
    ensures CharLength(a + b) == CharLength(a)
  {
  }

  /** There is a boundary at most three bytes before any position. */
  lemma {:induction false} BoundaryIsNear(s: Bytes, i: nat) returns (b: nat)
    requires WellFormed(s) && i <= |s|
    ensures b <= i <= b + 3 && Boundary(s, b)
    decreases |s|
  {
    if i == 0 {
      b := 0;
    } else {
      var n := CharLength(s);
      if i < n {
        b := 0;
      } else {
        var rest := BoundaryIsNear(s[n..], i - n);
        b := rest + n;
        assert rest == 0 && n < |s| ==> !Continuation(s[n..][0]);
      }
    }
  }

  /** `kept` is the longest character-aligned prefix that leaves room for the suffix. */
  ghost predicate LongestFit(value: Bytes, room: nat, kept: Bytes) {
    && kept <= value && WellFormed(kept) && |kept| <= room
    && forall p :: p <= value && WellFormed(p) && |p| <= room ==> |p| <= |kept|
  }

  method TruncateUtf8(value: Bytes, maxBytes: nat, suffix: Bytes) returns (r: Bytes)
    requires WellFormed(value) && WellFormed(suffix)
    ensures |r| <= maxBytes && WellFormed(r)
    ensures |value| <= maxBytes ==> r == value
    ensures |value| > maxBytes && |suffix| > maxBytes ==> r == []
    ensures |value| > maxBytes && |suffix| <= maxBytes ==>
      && |suffix| <= |r| && r[|r| - |suffix|..] == suffix
      && LongestFit(value, maxBytes - |suffix|, r[..|r| - |suffix|])
      && maxBytes - |r| <= 3
  {
    if |value| <= maxBytes {
      return value;
    }
    if |suffix| > maxBytes {
      return [];
    }
    var end := maxBytes - |suffix|;
    ghost var near := BoundaryIsNear(value, end);
    while end > 0 && !Boundary(value, end)
      invariant near <= end <= maxBytes - |suffix|
      invariant forall j :: end < j <= maxBytes - |suffix| ==> !Boundary(value, j)
    {
      end := end - 1;
    }
    BoundaryIff(value, end);
    Concatenation(value[..end], suffix);
    r := value[..end] + suffix;
    assert r[..|r| - |suffix|] == value[..end];
    forall p | p <= value && WellFormed(p) && |p| <= maxBytes - |suffix| ensures |p| <= end {
      assert p == value[..|p|];
      BoundaryIff(value, |p|);
    }
  }
}
