/** Strings as their UTF-8 octets: validity, character count, trimming. These are
    the standard library's operations, as the APRS code uses them. */
module Utf8Text {
  import opened Octets

  type Text = seq<octet>

  predicate IsContinuation(c: octet) {
    0x80 <= c <= 0xBF
  }

  /** The length of the well-formed character at the front, or 0
      (section 3.9 of the Unicode Standard, table 3-7). */
  function CharLength(s: Text): (n: nat)
    ensures n <= |s| && n <= 4
  {
    if s == [] then 0
    else if s[0] < 0x80 then 1
    else if |s| >= 2 && 0xC2 <= s[0] <= 0xDF && IsContinuation(s[1]) then 2
    else if |s| >= 3 && 0xE0 <= s[0] <= 0xEF && IsContinuation(s[1]) && IsContinuation(s[2])
        && (s[0] == 0xE0 ==> 0xA0 <= s[1]) && (s[0] == 0xED ==> s[1] <= 0x9F) then 3
    else if |s| >= 4 && 0xF0 <= s[0] <= 0xF4 && IsContinuation(s[1]) && IsContinuation(s[2]) && IsContinuation(s[3])
        && (s[0] == 0xF0 ==> 0x90 <= s[1]) && (s[0] == 0xF4 ==> s[1] <= 0x8F) then 4
    else 0
  }

  predicate Valid(s: Text) {
    s == [] || (CharLength(s) > 0 && Valid(s[CharLength(s)..]))
  }

  /** Octets as a string, empty when they are not one (server/src/aprs/parse.rs:84-86). */
  function AsStr(b: seq<octet>): Text {
    if Valid(b) then b else []
  }

  function CharCount(s: Text): nat {
    if s == [] then 0 else (if IsContinuation(s[0]) then 0 else 1) + CharCount(s[1..])
  }

  lemma {:induction false} CharCountConcat(a: Text, b: Text)
    ensures CharCount(a + b) == CharCount(a) + CharCount(b)
  {
    if a == [] {
      assert a + b == b;
    } else {
      assert (a + b)[1..] == a[1..] + b;
      CharCountConcat(a[1..], b);
    }
  }

  lemma {:induction false} ValidConcat(a: Text, b: Text)
    requires Valid(a) && Valid(b)
    ensures Valid(a + b)
    decreases |a|
  {
    if a == [] {
      assert a + b == b;
    } else {
      hide CharLength;
      var n := CharLength(a);
      CharLengthConcat(a, b);
      assert (a + b)[n..] == a[n..] + b;
      ValidConcat(a[n..], b);
    }
  }

  lemma CharLengthConcat(a: Text, b: Text)
    requires CharLength(a) > 0
    ensures CharLength(a + b) == CharLength(a)
  {}

  predicate IsAscii(s: Text) {
    forall k | 0 <= k < |s| :: s[k] < 0x80
  }

  lemma {:induction false} AsciiValid(s: Text)
    requires IsAscii(s)
    ensures Valid(s)
  {
    if s == [] {
    } else {
      AsciiValid(s[1..]);
    }
  }

  lemma {:induction false} CharCountBound(s: Text)
    ensures CharCount(s) <= |s|
    ensures CharCount(s) == |s| <==> forall c | c in s :: !IsContinuation(c)
  {
    if s == [] {
    } else {
      CharCountBound(s[1..]);
      assert s == [s[0]] + s[1..];
    }
  }

  // ----- Characters as code points (section 3.9 of the Unicode Standard, table 3-6) -----

  type codepoint = bv32

  predicate IsScalar(p: codepoint) {
    p <= 0xD7FF || 0xE000 <= p <= 0x10FFFF
  }

  /** Six bits in a continuation octet. */
  function Tail(p: codepoint): octet {
    0x80 | (p & 0x3F) as octet
  }

  /** The UTF-8 octets of a code point. */
  function Utf8(p: codepoint): (r: Text)
    requires IsScalar(p)
    ensures r != []
  {
    if p <= 0x7F then [p as octet]
    else if p <= 0x7FF then [0xC0 | (p >> 6) as octet, Tail(p)]
    else if p <= 0xFFFF then [0xE0 | (p >> 12) as octet, Tail(p >> 6), Tail(p)]
    else [0xF0 | (p >> 18) as octet, Tail(p >> 12), Tail(p >> 6), Tail(p)]
  }

  function Two(a: octet, b: octet): codepoint {
    ((a & 0x1F) as codepoint << 6) | (b & 0x3F) as codepoint
  }

  function Three(a: octet, b: octet, c: octet): codepoint {
    ((a & 0x0F) as codepoint << 12) | ((b & 0x3F) as codepoint << 6) | (c & 0x3F) as codepoint
  }

  function Four(a: octet, b: octet, c: octet, d: octet): codepoint {
    ((a & 0x07) as codepoint << 18) | ((b & 0x3F) as codepoint << 12) | ((c & 0x3F) as codepoint << 6)
    | (d & 0x3F) as codepoint
  }

  /** The code point of the character at the front. */
  function CodePoint(s: Text): codepoint
    requires CharLength(s) > 0
  {
    var n := CharLength(s);
    if n == 1 then s[0] as codepoint
    else if n == 2 then Two(s[0], s[1])
    else if n == 3 then Three(s[0], s[1], s[2])
    else Four(s[0], s[1], s[2], s[3])
  }

  /** Every encoding of a code point is a character. */
  lemma Utf8IsCharacter(p: codepoint, rest: Text)
    requires IsScalar(p)
    ensures CharLength(Utf8(p) + rest) == |Utf8(p)|
  {}

  lemma OneOctet(a: octet)
    requires a < 0x80
    ensures IsScalar(a as codepoint) && Utf8(a as codepoint) == [a]
  {}

  lemma TwoRange(a: octet, b: octet)
    requires 0xC2 <= a <= 0xDF && IsContinuation(b)
    ensures 0x80 <= Two(a, b) <= 0x7FF
  {}

  lemma TwoLead(a: octet, b: octet)
    requires 0xC2 <= a <= 0xDF
    ensures Two(a, b) >> 6 == (a & 0x1F) as codepoint && 0xC0 | (a & 0x1F) == a
  {}

  lemma TwoSecond(a: octet, b: octet)
    requires IsContinuation(b)
    ensures Tail(Two(a, b)) == b
  {}

  lemma TwoOctets(a: octet, b: octet)
    requires 0xC2 <= a <= 0xDF && IsContinuation(b)
    ensures IsScalar(Two(a, b)) && Utf8(Two(a, b)) == [a, b]
  {
    TwoRange(a, b);
    TwoLead(a, b);
    TwoSecond(a, b);
    hide Two, Tail, IsContinuation;
    Narrowed(a & 0x1F);
  }

  lemma ThreeRange(a: octet, b: octet, c: octet)
    requires 0xE0 <= a <= 0xEF && IsContinuation(b)
    requires (a == 0xE0 ==> 0xA0 <= b) && (a == 0xED ==> b <= 0x9F)
    ensures 0x800 <= Three(a, b, c) <= 0xFFFF && IsScalar(Three(a, b, c))
  {}

  lemma ThreeLead(a: octet, b: octet, c: octet)
    requires 0xE0 <= a <= 0xEF
    ensures Three(a, b, c) >> 12 == (a & 0x0F) as codepoint && 0xE0 | (a & 0x0F) == a
  {}

  lemma ThreeSecond(a: octet, b: octet, c: octet)
    requires IsContinuation(b)
    ensures Tail(Three(a, b, c) >> 6) == b
  {}

  lemma ThreeThird(a: octet, b: octet, c: octet)
    requires IsContinuation(c)
    ensures Tail(Three(a, b, c)) == c
  {}

  lemma ThreeOctets(a: octet, b: octet, c: octet)
    requires 0xE0 <= a <= 0xEF && IsContinuation(b) && IsContinuation(c)
    requires (a == 0xE0 ==> 0xA0 <= b) && (a == 0xED ==> b <= 0x9F)
    ensures IsScalar(Three(a, b, c)) && Utf8(Three(a, b, c)) == [a, b, c]
  {
    ThreeRange(a, b, c);
    ThreeLead(a, b, c);
    ThreeSecond(a, b, c);
    ThreeThird(a, b, c);
    hide Three, Tail, IsContinuation, IsScalar;
    Narrowed(a & 0x0F);
  }

  lemma Narrowed(a: octet)
    ensures (a as codepoint) as octet == a
  {}

  lemma FourRange(a: octet, b: octet, c: octet, d: octet)
    requires 0xF0 <= a <= 0xF4 && IsContinuation(b)
    requires (a == 0xF0 ==> 0x90 <= b) && (a == 0xF4 ==> b <= 0x8F)
    ensures 0x1_0000 <= Four(a, b, c, d) <= 0x10FFFF
  {}

  lemma FourLead(a: octet, b: octet, c: octet, d: octet)
    requires 0xF0 <= a <= 0xF4
    ensures Four(a, b, c, d) >> 18 == (a & 0x07) as codepoint && 0xF0 | (a & 0x07) == a
  {}

  lemma FourSecond(a: octet, b: octet, c: octet, d: octet)
    requires IsContinuation(b)
    ensures Tail(Four(a, b, c, d) >> 12) == b
  {}

  lemma FourThird(a: octet, b: octet, c: octet, d: octet)
    requires IsContinuation(c)
    ensures Tail(Four(a, b, c, d) >> 6) == c
  {}

  lemma FourFourth(a: octet, b: octet, c: octet, d: octet)
    requires IsContinuation(d)
    ensures Tail(Four(a, b, c, d)) == d
  {}

  lemma FourOctets(a: octet, b: octet, c: octet, d: octet)
    requires 0xF0 <= a <= 0xF4 && IsContinuation(b) && IsContinuation(c) && IsContinuation(d)
    requires (a == 0xF0 ==> 0x90 <= b) && (a == 0xF4 ==> b <= 0x8F)
    ensures IsScalar(Four(a, b, c, d)) && Utf8(Four(a, b, c, d)) == [a, b, c, d]
  {
    FourRange(a, b, c, d);
    FourLead(a, b, c, d);
    FourSecond(a, b, c, d);
    FourThird(a, b, c, d);
    FourFourth(a, b, c, d);
    hide Four, Tail, IsContinuation;
    Narrowed(a & 0x07);
  }

  /** Every character is the encoding of a code point. */
  lemma CharacterIsUtf8(s: Text)
    requires CharLength(s) > 0
    ensures IsScalar(CodePoint(s)) && Utf8(CodePoint(s)) == s[..CharLength(s)]
  {
    hide Two, Three, Four, Utf8, IsScalar;
    if s[0] < 0x80 {
      OneOctet(s[0]);
    } else if s[0] <= 0xDF {
      TwoOctets(s[0], s[1]);
    } else if s[0] <= 0xEF {
      ThreeOctets(s[0], s[1], s[2]);
    } else {
      FourOctets(s[0], s[1], s[2], s[3]);
    }
  }

  predicate AreScalars(points: seq<codepoint>) {
    forall k | 0 <= k < |points| :: IsScalar(points[k])
  }

  /** A string of code points. */
  function Encoded(points: seq<codepoint>): Text
    requires AreScalars(points)
  {
    if points == [] then [] else Utf8(points[0]) + Encoded(points[1..])
  }

  /** Strings are valid exactly when they encode code points, and count those. */
  lemma {:induction false} EncodedValid(points: seq<codepoint>)
    requires AreScalars(points)
    ensures Valid(Encoded(points)) && CharCount(Encoded(points)) == |points|
  {
    hide CharLength, Utf8;
    if points == [] {
    } else {
      hide CharCount;
      EncodedValid(points[1..]);
      Utf8IsCharacter(points[0], Encoded(points[1..]));
      Utf8IsCharacter(points[0], []);
      assert Utf8(points[0]) + [] == Utf8(points[0]);
      OneCharacter(Utf8(points[0]));
      CharCountConcat(Utf8(points[0]), Encoded(points[1..]));
    }
  }

  lemma OneCharacter(s: Text)
    requires s != [] && CharLength(s) == |s|
    ensures CharCount(s) == 1
  {
    assert forall k | 1 <= k < |s| :: IsContinuation(s[k]);
    CharCountRest(s[1..]);
  }

  lemma {:induction false} CharCountRest(s: Text)
    requires forall k | 0 <= k < |s| :: IsContinuation(s[k])
    ensures CharCount(s) == 0
  {
    if s == [] {
    } else {
      CharCountRest(s[1..]);
    }
  }

  lemma {:induction false} ValidEncoded(s: Text) returns (points: seq<codepoint>)
    requires Valid(s)
    ensures AreScalars(points)
    ensures Encoded(points) == s
    decreases |s|
  {
    hide CharLength, Utf8, CodePoint;
    if s == [] {
      points := [];
    } else {
      var n := CharLength(s);
      var rest := ValidEncoded(s[n..]);
      CharacterIsUtf8(s);
      points := [CodePoint(s)] + rest;
      assert points[1..] == rest;
    }
  }

  // ----- White space (the Unicode White_Space property) -----

  predicate IsAsciiSpace(c: octet) {
    0x09 <= c <= 0x0D || c == 0x20
  }

  predicate IsWideSpace(a: octet, b: octet, c: octet) {
    || (a == 0xE1 && b == 0x9A && c == 0x80)
    || (a == 0xE2 && b == 0x80 && (c <= 0x8A || c == 0xA8 || c == 0xA9 || c == 0xAF) && 0x80 <= c)
    || (a == 0xE2 && b == 0x81 && c == 0x9F)
    || (a == 0xE3 && b == 0x80 && c == 0x80)
  }

  /** The length of the white-space character at the end, or 0. */
  function SpaceAtEnd(s: Text): (n: nat)
    ensures n <= |s|
  {
    var k := |s|;
    if k >= 1 && IsAsciiSpace(s[k - 1]) then 1
    else if k >= 2 && s[k - 2] == 0xC2 && (s[k - 1] == 0x85 || s[k - 1] == 0xA0) then 2
    else if k >= 3 && IsWideSpace(s[k - 3], s[k - 2], s[k - 1]) then 3
    else 0
  }

  function SpaceAtStart(s: Text): (n: nat)
    ensures n <= |s|
  {
    if |s| >= 1 && IsAsciiSpace(s[0]) then 1
    else if |s| >= 2 && s[0] == 0xC2 && (s[1] == 0x85 || s[1] == 0xA0) then 2
    else if |s| >= 3 && IsWideSpace(s[0], s[1], s[2]) then 3
    else 0
  }

  function TrimEnd(s: Text): (r: Text)
    ensures |r| <= |s| && r == s[..|r|] && SpaceAtEnd(r) == 0
    decreases |s|
  {
    var n := SpaceAtEnd(s);
    if n == 0 then s else TrimEnd(s[..|s| - n])
  }

  function TrimStart(s: Text): (r: Text)
    ensures |r| <= |s| && r == s[|s| - |r|..] && SpaceAtStart(r) == 0
    decreases |s|
  {
    var n := SpaceAtStart(s);
    if n == 0 then s else TrimStart(s[n..])
  }

  function Trim(s: Text): Text {
    TrimStart(TrimEnd(s))
  }

  function Spaces(n: nat): (r: Text)
    ensures |r| == n
  {
    seq(n, _ => 0x20)
  }

  lemma {:induction false} TrimsPadding(s: Text, n: nat)
    ensures Trim(s + Spaces(n)) == Trim(s)
    decreases n
  {
    hide SpaceAtEnd, TrimStart;
    if n == 0 {
      assert s + Spaces(0) == s;
    } else {
      var p := s + Spaces(n);
      SpaceIsOne(p);
      assert p[..|p| - 1] == s + Spaces(n - 1);
      TrimsPadding(s, n - 1);
    }
  }

  lemma SpaceIsOne(s: Text)
    requires s != [] && s[|s| - 1] == 0x20
    ensures SpaceAtEnd(s) == 1
  {}

  lemma TrimmedEnds(s: Text)
    requires Trim(s) == s
    ensures SpaceAtEnd(s) == 0 && SpaceAtStart(s) == 0
  {}

  /** The Unicode White_Space property. */
  predicate IsWhite(p: codepoint) {
    || 0x09 <= p <= 0x0D || p == 0x20 || p == 0x85 || p == 0xA0 || p == 0x1680 || 0x2000 <= p <= 0x200A
    || p == 0x2028 || p == 0x2029 || p == 0x202F || p == 0x205F || p == 0x3000
  }

  lemma SpaceAtFront(p: codepoint, rest: Text)
    requires IsScalar(p)
    ensures SpaceAtStart(Utf8(p) + rest) == if IsWhite(p) then |Utf8(p)| else 0
  {}

  lemma SpaceAtBack(before: Text, p: codepoint)
    requires IsScalar(p)
    ensures SpaceAtEnd(before + Utf8(p)) == if IsWhite(p) then |Utf8(p)| else 0
  {}

  predicate AllWhite(points: seq<codepoint>) {
    forall k | 0 <= k < |points| :: IsScalar(points[k]) && IsWhite(points[k])
  }

  lemma {:induction false} EncodedSnoc(points: seq<codepoint>, p: codepoint)
    requires AreScalars(points) && IsScalar(p)
    ensures AreScalars(points + [p])
    ensures Encoded(points + [p]) == Encoded(points) + Utf8(p)
  {
    hide Utf8, IsScalar;
    if points == [] {
      assert Encoded([p][1..]) == [];
    } else {
      EncodedSnoc(points[1..], p);
      assert (points + [p])[1..] == points[1..] + [p];
    }
  }

  lemma {:induction false} TrimEndEncoded(core: seq<codepoint>, white: seq<codepoint>)
    requires AreScalars(core) && AllWhite(white)
    requires core == [] || !IsWhite(core[|core| - 1])
    ensures AreScalars(core + white)
    ensures TrimEnd(Encoded(core + white)) == Encoded(core)
    decreases |white|
  {
    hide Utf8, IsScalar, IsWhite, SpaceAtEnd;
    var all := core + white;
    if white == [] {
      assert all == core;
      if core == [] {
        NoSpaceInNothing();
      } else {
        var front, p := core[..|core| - 1], core[|core| - 1];
        assert core == front + [p];
        EncodedSnoc(front, p);
        SpaceAtBack(Encoded(front), p);
      }
    } else {
      var fewer, p := white[..|white| - 1], white[|white| - 1];
      assert all == core + fewer + [p];
      TrimEndEncoded(core, fewer);
      EncodedSnoc(core + fewer, p);
      SpaceAtBack(Encoded(core + fewer), p);
      var s := Encoded(all);
      assert s[..|s| - |Utf8(p)|] == Encoded(core + fewer);
    }
  }

  lemma NoSpaceInNothing()
    ensures SpaceAtEnd([]) == 0 && SpaceAtStart([]) == 0
  {}

  lemma {:induction false} TrimStartEncoded(white: seq<codepoint>, core: seq<codepoint>)
    requires AreScalars(core) && AllWhite(white)
    requires core == [] || !IsWhite(core[0])
    ensures AreScalars(white + core)
    ensures TrimStart(Encoded(white + core)) == Encoded(core)
    decreases |white|
  {
    hide Utf8, IsScalar, IsWhite, SpaceAtStart;
    var all := white + core;
    if white == [] {
      assert all == core;
      if core == [] {
        NoSpaceInNothing();
      } else {
        SpaceAtFront(core[0], Encoded(core[1..]));
      }
    } else {
      assert all[1..] == white[1..] + core;
      TrimStartEncoded(white[1..], core);
      SpaceAtFront(white[0], Encoded(all[1..]));
      assert Encoded(all)[|Utf8(white[0])|..] == Encoded(all[1..]);
    }
  }

  /** Trimming takes away exactly the white space around a text. */
  lemma TrimEncoded(before: seq<codepoint>, core: seq<codepoint>, after: seq<codepoint>)
    requires AreScalars(core) && AllWhite(before) && AllWhite(after)
    requires core == [] || (!IsWhite(core[0]) && !IsWhite(core[|core| - 1]))
    ensures AreScalars(before + core + after)
    ensures Trim(Encoded(before + core + after)) == Encoded(core)
  {
    hide IsWhite, IsScalar, Encoded;
    if core == [] {
      assert before + core + after == [] + (before + after);
      TrimEndEncoded([], before + after);
      TrimStartEncoded([], []);
      assert [] + core == core;
    } else {
      TrimEndEncoded(before + core, after);
      TrimStartEncoded(before, core);
    }
  }

  // ----- ASCII upper-casing -----

  function Upper(c: octet): octet {
    if 0x61 <= c <= 0x7A then c - 0x20 else c
  }

  function Uppercased(s: Text): (r: Text)
    ensures |r| == |s|
    ensures forall k | 0 <= k < |s| :: r[k] == Upper(s[k])
  {
    if s == [] then [] else [Upper(s[0])] + Uppercased(s[1..])
  }

  lemma {:induction false} UppercasedValid(s: Text)
    requires Valid(s)
    ensures Valid(Uppercased(s))
    decreases |s|
  {
    if s == [] {
    } else {
      var n, u := CharLength(s), Uppercased(s);
      assert CharLength(u) == n;
      assert u[n..] == Uppercased(s[n..]);
      UppercasedValid(s[n..]);
    }
  }

  lemma {:induction false} UppercasedCount(s: Text)
    ensures CharCount(Uppercased(s)) == CharCount(s)
  {
    if s == [] {
    } else {
      UppercasedCount(s[1..]);
      assert Uppercased(s)[1..] == Uppercased(s[1..]);
    }
  }

  /** Upper-casing moves letters only. */
  lemma UpperKeepsOthers(c: octet)
    ensures IsAsciiSpace(Upper(c)) == IsAsciiSpace(c)
    ensures c >= 0x80 ==> Upper(c) == c
    ensures Upper(c) >= 0x80 ==> Upper(c) == c
  {}

  lemma UpperKeepsPair(a: octet, b: octet)
    ensures (Upper(a) == 0xC2 && (Upper(b) == 0x85 || Upper(b) == 0xA0)) == (a == 0xC2 && (b == 0x85 || b == 0xA0))
  {}

  lemma UpperKeepsWide(a: octet, b: octet, c: octet)
    ensures IsWideSpace(Upper(a), Upper(b), Upper(c)) == IsWideSpace(a, b, c)
  {
    hide Upper;
    UpperKeepsOthers(a);
    UpperKeepsOthers(b);
    UpperKeepsOthers(c);
  }

  lemma UppercasedSpaceAtEnd(s: Text)
    ensures SpaceAtEnd(Uppercased(s)) == SpaceAtEnd(s)
  {
    hide Upper, Uppercased, IsAsciiSpace, IsWideSpace;
    var k := |s|;
    if k >= 1 {
      UpperKeepsOthers(s[k - 1]);
    }
    if k >= 2 {
      UpperKeepsPair(s[k - 2], s[k - 1]);
    }
    if k >= 3 {
      UpperKeepsWide(s[k - 3], s[k - 2], s[k - 1]);
    }
  }

  lemma UppercasedSpaceAtStart(s: Text)
    ensures SpaceAtStart(Uppercased(s)) == SpaceAtStart(s)
  {
    hide Upper, Uppercased, IsAsciiSpace, IsWideSpace;
    if |s| >= 1 {
      UpperKeepsOthers(s[0]);
    }
    if |s| >= 2 {
      UpperKeepsPair(s[0], s[1]);
    }
    if |s| >= 3 {
      UpperKeepsWide(s[0], s[1], s[2]);
    }
  }

  lemma UppercasedTrimmed(s: Text)
    requires Trim(s) == s
    ensures Trim(Uppercased(s)) == Uppercased(s)
  {
    hide SpaceAtEnd, SpaceAtStart;
    TrimmedEnds(s);
    UppercasedSpaceAtEnd(s);
    UppercasedSpaceAtStart(s);
  }

  lemma {:induction false} TrimStartKeepsEnd(s: Text)
    requires SpaceAtEnd(s) == 0
    ensures SpaceAtEnd(TrimStart(s)) == 0
    decreases |s|
  {
    var n := SpaceAtStart(s);
    if n == 0 {
    } else {
      SuffixKeepsEnd(s, n);
      TrimStartKeepsEnd(s[n..]);
    }
  }

  lemma SuffixKeepsEnd(s: Text, n: nat)
    requires n <= |s| && SpaceAtEnd(s) == 0
    ensures SpaceAtEnd(s[n..]) == 0
  {}

  lemma TrimTwice(s: Text)
    ensures Trim(Trim(s)) == Trim(s)
  {
    hide SpaceAtEnd, SpaceAtStart;
    TrimStartKeepsEnd(TrimEnd(s));
    var t := Trim(s);
    assert TrimEnd(t) == t;
  }

  // ----- Decimal digits -----

  predicate IsDigit(c: octet) {
    0x30 <= c <= 0x39
  }

  predicate IsDecimal(s: Text) {
    forall k | 0 <= k < |s| :: IsDigit(s[k])
  }

  /** The number that decimal digits show. */
  function Number(s: Text): nat
    requires IsDecimal(s)
  {
    if s == [] then 0 else 10 * Number(s[..|s| - 1]) + (s[|s| - 1] - 0x30) as int
  }

  /** The same from the first digit on, behind a value read before. */
  function Accumulated(s: Text, value: int): int
    requires IsDecimal(s)
  {
    if s == [] then value else Accumulated(s[1..], 10 * value + (s[0] - 0x30) as int)
  }

  lemma {:induction false} AccumulatedSnoc(s: Text, c: octet, value: int)
    requires IsDecimal(s) && IsDigit(c)
    ensures Accumulated(s + [c], value) == 10 * Accumulated(s, value) + (c - 0x30) as int
  {
    if s == [] {
      assert ([] + [c])[1..] == [];
    } else {
      assert (s + [c])[1..] == s[1..] + [c];
      AccumulatedSnoc(s[1..], c, 10 * value + (s[0] - 0x30) as int);
    }
  }

  lemma {:induction false} AccumulatedIs(s: Text)
    requires IsDecimal(s)
    ensures Accumulated(s, 0) == Number(s)
  {
    hide IsDigit;
    if s == [] {
    } else {
      var front, c := s[..|s| - 1], s[|s| - 1];
      AccumulatedIs(front);
      AccumulatedSnoc(front, c, 0);
      assert s == front + [c];
    }
  }
}
