/** The six-bit armor of AIVDM payloads (server/src/ais/message.rs:62-126). */
module Armor {
  import opened Wrappers
  import opened Octets

  function ArmorValue(v: octet): octet {
    if v < 40 then v + 48 else v + 56
  }

  /** Subtraction wraps, as on a u8. */
  function UnarmorChar(c: octet): Option<octet> {
    var v := c - 48;
    var w := if v > 40 then v - 8 else v;
    if w < 64 then Some(w) else None
  }

  lemma CharRoundTrip(v: octet)
    requires v < 64
    ensures UnarmorChar(ArmorValue(v)) == Some(v)
    ensures 48 <= ArmorValue(v) <= 87 || 96 <= ArmorValue(v) <= 119
  {}

  /** The characters stand in the order of their values, so the two ranges fix them all. */
  lemma CharsInOrder(v: octet, w: octet)
    requires v < w < 64
    ensures ArmorValue(v) < ArmorValue(w)
  {}

  /** The reader takes 48 to 119, so also eight characters that the writer never
      uses; each of them reads as a value another character already has. */
  lemma CharsAccepted(c: octet)
    ensures UnarmorChar(c).Some? <==> 48 <= c <= 119
    ensures UnarmorChar(c).Some? ==> UnarmorChar(c).value < 64
    ensures UnarmorChar(c).Some? && !(88 <= c <= 95) ==> ArmorValue(UnarmorChar(c).value) == c
    ensures UnarmorChar(c).Some? && 88 <= c <= 95 ==> ArmorValue(UnarmorChar(c).value) != c
  {}

  // ----- Six bits -----

  function Bit(b: bool): octet {
    if b then 1 else 0
  }

  function ShiftIn(v: octet, b: bool): octet {
    (v << 1) | Bit(b)
  }

  /** The bits shifted in one by one, the first ending up highest. */
  function Shifted(bits: seq<bool>): octet {
    if bits == [] then 0 else ShiftIn(Shifted(bits[..|bits| - 1]), bits[|bits| - 1])
  }

  lemma ShiftInLowest(v: octet, b: bool)
    ensures BitAt(ShiftIn(v, b), 0) == b
  {}

  lemma ShiftInAbove(v: octet, b: bool, j: nat)
    requires 1 <= j < 8
    ensures BitAt(ShiftIn(v, b), j) == BitAt(v, j - 1)
  {
    if j == 1 {
    } else if j == 2 {
    } else if j == 3 {
    } else if j == 4 {
    } else if j == 5 {
    } else if j == 6 {
    } else {
    }
  }

  lemma ZeroHasNoBits(j: nat)
    requires j < 8
    ensures !BitAt(0, j)
  {}

  lemma {:induction false} ShiftedAt(bits: seq<bool>, j: nat)
    requires |bits| <= 8 && j < 8
    ensures BitAt(Shifted(bits), j) == (j < |bits| && bits[|bits| - 1 - j])
  {
    hide BitAt, ShiftIn;
    if bits == [] {
      ZeroHasNoBits(j);
    } else {
      var init, last := bits[..|bits| - 1], bits[|bits| - 1];
      if j == 0 {
        ShiftInLowest(Shifted(init), last);
      } else {
        ShiftInAbove(Shifted(init), last, j);
        ShiftedAt(init, j - 1);
      }
    }
  }

  lemma BelowSixtyFour(v: octet)
    requires !BitAt(v, 6) && !BitAt(v, 7)
    ensures v < 64
  {}

  function SixBits(v: octet): (r: seq<bool>)
    ensures |r| == 6
  {
    seq(6, k requires 0 <= k < 6 => BitAt(v, 5 - k))
  }

  lemma SixRoundTrip(bits: seq<bool>)
    requires |bits| == 6
    ensures Shifted(bits) < 64 && SixBits(Shifted(bits)) == bits
  {
    hide BitAt;
    forall j: nat | j < 8
      ensures BitAt(Shifted(bits), j) == (j < 6 && bits[5 - j])
    {
      ShiftedAt(bits, j);
    }
    BelowSixtyFour(Shifted(bits));
  }

  /** The first of six bits counts 32, the last 1. */
  lemma SixWeights(bits: seq<bool>)
    requires |bits| == 6
    ensures Shifted(bits) == (if bits[0] then 32 else 0) + (if bits[1] then 16 else 0) + (if bits[2] then 8 else 0)
        + (if bits[3] then 4 else 0) + (if bits[4] then 2 else 0) + (if bits[5] then 1 else 0)
  {
    var v := Shifted(bits);
    SixRoundTrip(bits);
    assert BitAt(v, 5) == bits[0] && BitAt(v, 4) == bits[1] && BitAt(v, 3) == bits[2] by {
      assert SixBits(v)[0] == bits[0] && SixBits(v)[1] == bits[1] && SixBits(v)[2] == bits[2];
    }
    assert BitAt(v, 2) == bits[3] && BitAt(v, 1) == bits[4] && BitAt(v, 0) == bits[5] by {
      assert SixBits(v)[3] == bits[3] && SixBits(v)[4] == bits[4] && SixBits(v)[5] == bits[5];
    }
    hide SixBits, Shifted;
    SixWeighed(v);
  }

  lemma SixWeighed(v: octet)
    requires v < 64
    ensures v == (if BitAt(v, 5) then 32 else 0) + (if BitAt(v, 4) then 16 else 0) + (if BitAt(v, 3) then 8 else 0)
        + (if BitAt(v, 2) then 4 else 0) + (if BitAt(v, 1) then 2 else 0) + (if BitAt(v, 0) then 1 else 0)
  {}

  // ----- Armor -----

  function Falses(n: nat): (r: seq<bool>)
    ensures |r| == n
  {
    seq(n, _ => false)
  }

  function Fill(bits: seq<bool>): (fill: nat)
    ensures fill < 6 && (|bits| + fill) % 6 == 0
  {
    (6 - |bits| % 6) % 6
  }

  /** One character for every six bits, the last group filled with zeros. */
  function ArmorText(bits: seq<bool>): seq<octet> {
    if bits == [] then []
    else if |bits| < 6 then [ArmorValue(Shifted(bits + Falses(6 - |bits|)))]
    else [ArmorValue(Shifted(bits[..6]))] + ArmorText(bits[6..])
  }

  function Group(bits: seq<bool>, i: nat): (r: seq<bool>)
    ensures |r| == 6
  {
    seq(6, k requires 0 <= k < 6 => i + k < |bits| && bits[i + k])
  }

  lemma ShiftedNext(six: seq<bool>, k: nat)
    requires k < |six|
    ensures Shifted(six[..k + 1]) == ShiftIn(Shifted(six[..k]), six[k])
  {
    hide ShiftIn;
    assert six[..k + 1][..k] == six[..k];
  }

  /** Six bits from position i on, zeros past the end, shifted into a value. */
  method SixValue(bits: seq<bool>, i: nat) returns (v: octet)
    ensures v == Shifted(Group(bits, i))
  {
    hide ShiftIn;
    v := 0;
    ghost var six := Group(bits, i);
    for k := 0 to 6
      invariant v == Shifted(six[..k])
    {
      ShiftedNext(six, k);
      v := ShiftIn(v, i + k < |bits| && bits[i + k]);
    }
    assert six[..6] == six;
  }

  method Armor(bits: seq<bool>) returns (s: seq<octet>, fill: nat)
    ensures s == ArmorText(bits) && fill == Fill(bits)
  {
    hide ArmorValue, ArmorText, Group, Shifted;
    fill := (6 - |bits| % 6) % 6;
    s := [];
    var i := 0;
    while i < |bits|
      invariant 0 <= i
      invariant s + ArmorFrom(bits, i) == ArmorFrom(bits, 0)
    {
      GroupIsHead(bits, i);
      var v := SixValue(bits, i);
      s := s + [ArmorValue(v)];
      i := i + 6;
    }
    ArmorFromEnds(bits, i);
  }

  function ArmorFrom(bits: seq<bool>, i: nat): seq<octet> {
    if i >= |bits| then [] else ArmorText(bits[i..])
  }

  lemma ArmorFromEnds(bits: seq<bool>, i: nat)
    requires i >= |bits|
    ensures ArmorFrom(bits, i) == [] && ArmorFrom(bits, 0) == ArmorText(bits)
  {
    assert bits[0..] == bits;
  }

  lemma GroupIsHead(bits: seq<bool>, i: nat)
    requires i < |bits|
    ensures ArmorFrom(bits, i) == [ArmorValue(Shifted(Group(bits, i)))] + ArmorFrom(bits, i + 6)
  {
    var rest := bits[i..];
    if |rest| < 6 {
      assert Group(bits, i) == rest + Falses(6 - |rest|);
    } else {
      assert Group(bits, i) == rest[..6];
      assert rest[6..] == bits[i + 6..];
    }
  }

  /** The bits of an armored text, or nothing if a character is not armor. */
  function TextBits(text: seq<octet>): Option<seq<bool>> {
    if text == [] then Some([]) else
    match (UnarmorChar(text[0]), TextBits(text[1..]))
    case (Some(v), Some(rest)) => Some(SixBits(v) + rest)
    case _ => None
  }

  lemma FillOf(bits: seq<bool>)
    ensures 0 < |bits| < 6 ==> Fill(bits) == 6 - |bits|
    ensures |bits| == 0 ==> Fill(bits) == 0
    ensures |bits| >= 6 ==> Fill(bits[6..]) == Fill(bits)
  {
    if |bits| >= 6 {
      DropSix(|bits|, |bits[6..]|);
    }
  }

  lemma DropSix(n: nat, m: nat)
    requires n == m + 6
    ensures n % 6 == m % 6
  {}

  lemma TextBitsHead(six: seq<bool>, text: seq<octet>)
    requires |six| == 6 && TextBits(text).Some?
    ensures TextBits([ArmorValue(Shifted(six))] + text) == Some(six + TextBits(text).value)
  {
    SixRoundTrip(six);
    CharRoundTrip(Shifted(six));
    hide UnarmorChar, ArmorValue, SixBits, Shifted;
    var t := [ArmorValue(Shifted(six))] + text;
    assert t[1..] == text;
  }

  lemma {:induction false} ArmorInverts(bits: seq<bool>)
    ensures TextBits(ArmorText(bits)) == Some(bits + Falses(Fill(bits)))
  {
    hide UnarmorChar, ArmorValue, SixBits, Shifted, Fill, TextBits;
    FillOf(bits);
    assert TextBits([]) == Some([]) by {
      EmptyText();
    }
    if bits == [] {
      assert bits + Falses(0) == [];
    } else if |bits| < 6 {
      var six := bits + Falses(6 - |bits|);
      TextBitsHead(six, []);
      assert [ArmorValue(Shifted(six))] + [] == ArmorText(bits);
      assert six + [] == six;
    } else {
      ArmorInverts(bits[6..]);
      TextBitsHead(bits[..6], ArmorText(bits[6..]));
      assert bits[..6] + (bits[6..] + Falses(Fill(bits))) == bits + Falses(Fill(bits));
    }
  }

  lemma EmptyText()
    ensures TextBits([]) == Some([])
  {}

  /** Characters a field separator or a checksum mark could not be. */
  lemma {:induction false} ArmorAlphabet(bits: seq<bool>)
    ensures forall c | c in ArmorText(bits) :: 48 <= c <= 87 || 96 <= c <= 119
  {
    hide ArmorValue, Shifted;
    if bits == [] {
    } else if |bits| < 6 {
      var six := bits + Falses(6 - |bits|);
      SixRoundTrip(six);
      CharRoundTrip(Shifted(six));
    } else {
      SixRoundTrip(bits[..6]);
      CharRoundTrip(Shifted(bits[..6]));
      ArmorAlphabet(bits[6..]);
    }
  }

  // ----- Octets, most significant bit first -----

  function MsbBits(octets: seq<octet>): (r: seq<bool>)
    ensures |r| == 8 * |octets|
  {
    seq(8 * |octets|, i requires 0 <= i < 8 * |octets| => BitAt(octets[i / 8], 7 - i % 8))
  }

  /** The octets that hold these bits, zeros after them. */
  ghost predicate Packs(octets: seq<octet>, bits: seq<bool>) {
    |octets| == (|bits| + 7) / 8
    && MsbBits(octets) == bits + Falses(8 * |octets| - |bits|)
  }

  lemma PackingIsUnique(a: seq<octet>, b: seq<octet>, bits: seq<bool>)
    requires Packs(a, bits) && Packs(b, bits)
    ensures a == b
  {
    forall k | 0 <= k < |a|
      ensures a[k] == b[k]
    {
      hide BitAt;
      forall j: nat | j < 8
        ensures BitAt(a[k], j) == BitAt(b[k], j)
      {
        var i := 8 * k + (7 - j);
        assert i / 8 == k && i % 8 == 7 - j;
        assert MsbBits(a)[i] == MsbBits(b)[i];
      }
      OctetExtensional(a[k], b[k]);
    }
  }

  lemma SetFromTop(b: octet, i: nat, j: nat)
    requires i < 8 && j < 8
    ensures BitAt(b | (0x80 >> i), j) == (7 - i == j || BitAt(b, j))
  {
    if i == 0 {
    } else if i == 1 {
    } else if i == 2 {
    } else if i == 3 {
    } else if i == 4 {
    } else if i == 5 {
    } else if i == 6 {
    } else {
    }
  }

  method PackMsb(bits: seq<bool>) returns (octets: array<octet>)
    ensures fresh(octets) && Packs(octets[..], bits)
  {
    octets := new octet[(|bits| + 7) / 8](_ => 0);
    for i := 0 to |bits|
      invariant fresh(octets)
      invariant forall k, j: nat | 0 <= k < octets.Length && j < 8 ::
          BitAt(octets[k], j) == (8 * k + (7 - j) < i && bits[8 * k + (7 - j)])
    {
      if bits[i] {
        ghost var was := octets[i / 8];
        octets[i / 8] := octets[i / 8] | (0x80 >> (i % 8));
        forall j: nat | j < 8
          ensures BitAt(octets[i / 8], j) == (7 - i % 8 == j || BitAt(was, j))
        {
          SetFromTop(was, i % 8, j);
        }
      }
    }
    PackedBits(octets[..], bits);
  }

  lemma PackedBits(r: seq<octet>, bits: seq<bool>)
    requires |r| == (|bits| + 7) / 8
    requires forall k, j: nat | 0 <= k < |r| && j < 8 ::
               BitAt(r[k], j) == (8 * k + (7 - j) < |bits| && bits[8 * k + (7 - j)])
    ensures Packs(r, bits)
  {
    hide BitAt;
    forall i | 0 <= i < 8 * |r|
      ensures MsbBits(r)[i] == (bits + Falses(8 * |r| - |bits|))[i]
    {
      var k, j := i / 8, 7 - i % 8;
      assert 8 * k + (7 - j) == i;
    }
  }

  /** Packed octets and the exact bit count, or nothing for text that is not armor. */
  method Unarmor(text: seq<octet>, fill: nat) returns (octets: Option<array<octet>>, bitLen: nat)
    ensures octets.Some? == TextBits(text).Some?
    ensures octets.Some? ==>
              && fresh(octets.value)
              && bitLen == (if fill <= 6 * |text| then 6 * |text| - fill else 0)
              && bitLen <= |TextBits(text).value|
              && Packs(octets.value[..], TextBits(text).value[..bitLen])
  {
    var bits: seq<bool> := [];
    bitLen := 0;
    assert text[0..] == text;
    assert TextBits(text).Some? ==> [] + TextBits(text).value == TextBits(text).value;
    for i := 0 to |text|
      invariant |bits| == 6 * i
      invariant TextBits(text) == match TextBits(text[i..]) { case Some(rest) => Some(bits + rest) case None => None }
    {
      hide UnarmorChar, SixBits;
      var v := UnarmorChar(text[i]);
      assert text[i..][1..] == text[i + 1..];
      if v == None {
        return None, 0;
      }
      assert TextBits(text[i + 1..]).Some? ==>
               bits + (SixBits(v.value) + TextBits(text[i + 1..]).value)
               == bits + SixBits(v.value) + TextBits(text[i + 1..]).value;
      bits := bits + SixBits(v.value);
    }
    assert TextBits(text) == Some(bits) by {
      assert bits + [] == bits;
      assert text[|text|..] == [];
    }
    bitLen := if fill <= |bits| then |bits| - fill else 0;
    var packed := PackMsb(bits[..bitLen]);
    octets := Some(packed);
  }

  lemma {:induction false} ArmorLength(bits: seq<bool>)
    ensures 6 * |ArmorText(bits)| == |bits| + Fill(bits)
  {
    hide Fill, ArmorValue, Shifted;
    FillOf(bits);
    if |bits| >= 6 {
      ArmorLength(bits[6..]);
    }
  }

  /** What Armor writes, Unarmor reads back: the same bits and their exact number. */
  lemma ArmorRoundTrip(bits: seq<bool>)
    ensures TextBits(ArmorText(bits)).Some?
    ensures Fill(bits) <= 6 * |ArmorText(bits)|
    ensures 6 * |ArmorText(bits)| - Fill(bits) == |bits| <= |TextBits(ArmorText(bits)).value|
    ensures TextBits(ArmorText(bits)).value[..|bits|] == bits
  {
    ArmorInverts(bits);
    ArmorLength(bits);
  }

  /** Whole octets come back as they were. */
  lemma WholeOctets(payload: seq<octet>)
    ensures Packs(payload, MsbBits(payload))
  {
    assert MsbBits(payload) + Falses(0) == MsbBits(payload);
  }
}
