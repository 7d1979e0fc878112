/** AIVDM sentences (server/src/ais/nmea.rs:11-19) and what a reader of NMEA 0183
    makes of them. */
module Nmea {
  import opened Wrappers
  import opened Octets
  import opened Armor

  const BANG: octet := 0x21
  const STAR: octet := 0x2A
  const COMMA: octet := 0x2C

  /** "AIVDM,1,1,," */
  const PREFIX: seq<octet> := [0x41, 0x49, 0x56, 0x44, 0x4D, 0x2C, 0x31, 0x2C, 0x31, 0x2C, 0x2C]

  const CRLF: seq<octet> := [0x0D, 0x0A]

  function Xor(a: octet, b: octet): octet {
    a ^ b
  }

  function Checksum(body: seq<octet>): octet {
    if body == [] then 0 else Xor(Checksum(body[..|body| - 1]), body[|body| - 1])
  }

  function HexDigit(n: octet): octet {
    if n < 10 then n + 0x30 else n + 0x37
  }

  function Hex(n: octet): seq<octet> {
    [HexDigit(n >> 4), HexDigit(n & 0xF)]
  }

  function FillDigit(fill: nat): (d: octet)
    requires fill < 6
    ensures 0x30 <= d <= 0x35
  {
    match fill
    case 0 => 0x30 case 1 => 0x31 case 2 => 0x32 case 3 => 0x33 case 4 => 0x34 case 5 => 0x35
  }

  function Body(bits: seq<bool>, channel: seq<octet>): seq<octet> {
    PREFIX + channel + [COMMA] + ArmorText(bits) + [COMMA] + [FillDigit(Fill(bits))]
  }

  /** A body between its start and its checksum. */
  function Wrapped(body: seq<octet>): seq<octet> {
    [BANG] + body + [STAR] + Hex(Checksum(body)) + CRLF
  }

  function Sentence(bits: seq<bool>, channel: seq<octet>): seq<octet> {
    Wrapped(Body(bits, channel))
  }

  /** One sentence for the first bitLen bits of the payload. */
  method Aivdm(payload: seq<octet>, bitLen: nat, channel: seq<octet>) returns (s: seq<octet>)
    requires bitLen <= 8 * |payload|
    ensures s == Sentence(MsbBits(payload)[..bitLen], channel)
  {
    var bits := seq(bitLen, i requires 0 <= i < bitLen => BitAt(payload[i / 8], 7 - i % 8));
    assert bits == MsbBits(payload)[..bitLen];
    var armored, fill := Armor.Armor(bits);
    var body := PREFIX + channel + [COMMA] + armored + [COMMA] + [FillDigit(fill)];
    s := [BANG] + body + [STAR] + Hex(Checksum(body)) + CRLF;
  }

  // ----- A reader -----

  /** How many octets have bit j set. */
  function CountBit(body: seq<octet>, j: nat): nat
    requires j < 8
  {
    if body == [] then 0 else CountBit(body[..|body| - 1], j) + if BitAt(body[|body| - 1], j) then 1 else 0
  }

  /** The value of an upper-case hexadecimal digit. */
  function HexValue(c: octet): Option<octet> {
    if 0x30 <= c <= 0x39 then Some(c - 0x30) else if 0x41 <= c <= 0x46 then Some(c - 0x37) else None
  }

  /** Two hexadecimal digits show, bit by bit, the parity of the octets of the body. */
  ghost predicate ShowsParity(body: seq<octet>, high: octet, low: octet) {
    HexValue(high).Some? && HexValue(low).Some?
    && forall j: nat | j < 8 ::
         BitAt((HexValue(high).value << 4) | HexValue(low).value, j) == (CountBit(body, j) % 2 == 1)
  }

  function Before(s: seq<octet>, c: octet): seq<octet> {
    if s == [] || s[0] == c then [] else [s[0]] + Before(s[1..], c)
  }

  function After(s: seq<octet>, c: octet): seq<octet> {
    if s == [] then [] else if s[0] == c then s[1..] else After(s[1..], c)
  }

  /** Field k of a comma-separated body. */
  function Field(body: seq<octet>, k: nat): seq<octet>
    decreases k
  {
    if k == 0 then Before(body, 0x2C) else Field(After(body, 0x2C), k - 1)
  }

  function DigitOf(field: seq<octet>): Option<nat> {
    if |field| != 1 then None
    else if field[0] == 0x30 then Some(0) else if field[0] == 0x31 then Some(1)
    else if field[0] == 0x32 then Some(2) else if field[0] == 0x33 then Some(3)
    else if field[0] == 0x34 then Some(4) else if field[0] == 0x35 then Some(5)
    else None
  }

  /** A sentence from '!' to the end of line, with the parity of its body behind the star. */
  ghost predicate IsSentence(s: seq<octet>) {
    s != [] && s[0] == 0x21
    && var body, tail := Before(s[1..], 0x2A), After(s[1..], 0x2A);
       |tail| == 4 && tail[2] == 0x0D && tail[3] == 0x0A && ShowsParity(body, tail[0], tail[1])
  }

  /** A first and only fragment without message number, from this channel. */
  predicate IsSingleFragment(body: seq<octet>, channel: seq<octet>) {
    && Field(body, 0) == [0x41, 0x49, 0x56, 0x44, 0x4D]
    && Field(body, 1) == [0x31] && Field(body, 2) == [0x31] && Field(body, 3) == []
    && Field(body, 4) == channel
  }

  /** The payload bits a reader takes from a sentence of one fragment: the sixth field
      unarmored, less the fill bits the seventh counts. */
  ghost function ReadBits(s: seq<octet>, channel: seq<octet>): Option<seq<bool>> {
    if !IsSentence(s) then None else
    var body := Before(s[1..], 0x2A);
    if !IsSingleFragment(body, channel) then None else
    match (TextBits(Field(body, 5)), DigitOf(Field(body, 6)))
    case (Some(bits), Some(fill)) => if fill <= |bits| then Some(bits[..|bits| - fill]) else None
    case _ => None
  }

  lemma XorBit(a: octet, b: octet, j: nat)
    requires j < 8
    ensures BitAt(Xor(a, b), j) == (BitAt(a, j) != BitAt(b, j))
  {
    if j == 0 {
    } else if j == 1 {
    } else if j == 2 {
    } else if j == 3 {
    } else if j == 4 {
    } else if j == 5 {
    } else if j == 6 {
    } else {
    }
  }

  /** Each bit of the checksum is the parity of that bit over the body. */
  lemma {:induction false} ChecksumIsParity(body: seq<octet>, j: nat)
    requires j < 8
    ensures BitAt(Checksum(body), j) == (CountBit(body, j) % 2 == 1)
  {
    hide BitAt, Xor;
    if body == [] {
      ZeroHasNoBits(j);
    } else {
      ChecksumIsParity(body[..|body| - 1], j);
      XorBit(Checksum(body[..|body| - 1]), body[|body| - 1], j);
    }
  }

  lemma HexShows(n: octet)
    ensures HexValue(HexDigit(n >> 4)) == Some(n >> 4) && HexValue(HexDigit(n & 0xF)) == Some(n & 0xF)
    ensures ((n >> 4) << 4) | (n & 0xF) == n
  {}

  lemma HexShowsParity(body: seq<octet>)
    ensures var h := Hex(Checksum(body)); |h| == 2 && ShowsParity(body, h[0], h[1])
  {
    hide BitAt, HexValue, HexDigit, CountBit, Checksum;
    HexShows(Checksum(body));
    forall j: nat | j < 8
      ensures BitAt(Checksum(body), j) == (CountBit(body, j) % 2 == 1)
    {
      ChecksumIsParity(body, j);
    }
  }

  lemma {:induction false} SplitAt(a: seq<octet>, c: octet, b: seq<octet>)
    requires c !in a
    ensures Before(a + [c] + b, c) == a
    ensures After(a + [c] + b, c) == b
  {
    var s := a + [c] + b;
    if a == [] {
    } else {
      assert s[1..] == a[1..] + [c] + b;
      SplitAt(a[1..], c, b);
    }
  }

  lemma {:induction false} NoSplit(a: seq<octet>, c: octet)
    requires c !in a
    ensures Before(a, c) == a
  {
    if a == [] {
    } else {
      NoSplit(a[1..], c);
    }
  }

  lemma NextField(a: seq<octet>, rest: seq<octet>, k: nat)
    requires COMMA !in a
    ensures Field(a + [COMMA] + rest, k) == if k == 0 then a else Field(rest, k - 1)
  {
    SplitAt(a, COMMA, rest);
  }

  lemma FieldAfter(rest: seq<octet>, fields: seq<seq<octet>>, k: nat)
    requires forall f | f in fields :: COMMA !in f
    ensures Field(Joined(fields, rest), k) == if k < |fields| then fields[k] else Field(rest, k - |fields|)
  {
    hide Field;
    if fields == [] {
    } else {
      NextField(fields[0], Joined(fields[1..], rest), k);
      if k > 0 {
        FieldAfter(rest, fields[1..], k - 1);
      }
    }
  }

  /** Fields, each with a comma behind it, and a rest. */
  function Joined(fields: seq<seq<octet>>, rest: seq<octet>): seq<octet> {
    if fields == [] then rest else fields[0] + [COMMA] + Joined(fields[1..], rest)
  }

  /** The fields of the body. */
  lemma BodyFields(bits: seq<bool>, channel: seq<octet>)
    requires COMMA !in channel
    ensures IsSingleFragment(Body(bits, channel), channel)
    ensures Field(Body(bits, channel), 5) == ArmorText(bits)
    ensures Field(Body(bits, channel), 6) == [FillDigit(Fill(bits))]
  {
    hide Field, ArmorText, FillDigit, Fill;
    ArmorAlphabet(bits);
    var aivdm: seq<octet> := [0x41, 0x49, 0x56, 0x44, 0x4D];
    var one: seq<octet> := [0x31];
    var digit := [FillDigit(Fill(bits))];
    var fields := [aivdm, one, one, [], channel, ArmorText(bits)];
    BodyJoined(bits, channel);
    FieldAfter(digit, fields, 0);
    FieldAfter(digit, fields, 1);
    FieldAfter(digit, fields, 2);
    FieldAfter(digit, fields, 3);
    FieldAfter(digit, fields, 4);
    FieldAfter(digit, fields, 5);
    FieldAfter(digit, fields, 6);
    LastField(digit);
  }

  lemma BodyJoined(bits: seq<bool>, channel: seq<octet>)
    ensures Body(bits, channel)
      == Joined([[0x41, 0x49, 0x56, 0x44, 0x4D], [0x31], [0x31], [], channel, ArmorText(bits)], [FillDigit(Fill(bits))])
  {
    hide ArmorText, FillDigit, Fill, Joined;
    var text, digit := ArmorText(bits), [FillDigit(Fill(bits))];
    var aivdm: seq<octet> := [0x41, 0x49, 0x56, 0x44, 0x4D];
    var one: seq<octet> := [0x31];
    JoinedFirst([text], [], digit);
    JoinedFirst([channel, text], [text], digit);
    JoinedFirst([[], channel, text], [channel, text], digit);
    JoinedFirst([one, [], channel, text], [[], channel, text], digit);
    JoinedFirst([one, one, [], channel, text], [one, [], channel, text], digit);
    JoinedFirst([aivdm, one, one, [], channel, text], [one, one, [], channel, text], digit);
    NoneJoined(digit);
    assert PREFIX == aivdm + [COMMA] + (one + [COMMA] + (one + [COMMA] + ([] + [COMMA])));
  }

  lemma NoneJoined(rest: seq<octet>)
    ensures Joined([], rest) == rest
  {}

  lemma JoinedFirst(fields: seq<seq<octet>>, others: seq<seq<octet>>, rest: seq<octet>)
    requires fields != [] && fields[1..] == others
    ensures Joined(fields, rest) == fields[0] + [COMMA] + Joined(others, rest)
  {}

  lemma LastField(a: seq<octet>)
    requires COMMA !in a
    ensures Field(a, 0) == a
  {
    NoSplit(a, COMMA);
  }

  lemma NoStar(bits: seq<bool>, channel: seq<octet>)
    requires STAR !in channel
    ensures STAR !in Body(bits, channel)
  {
    hide ArmorText;
    ArmorAlphabet(bits);
    assert STAR !in ArmorText(bits);
  }

  /** A reader gets back exactly the bits the sentence was made of; for whole octets
      those pack into the payload and into nothing else. */
  lemma SentenceRoundTrip(payload: seq<octet>, bitLen: nat, channel: seq<octet>)
    requires bitLen <= 8 * |payload| && COMMA !in channel && STAR !in channel
    ensures ReadBits(Sentence(MsbBits(payload)[..bitLen], channel), channel) == Some(MsbBits(payload)[..bitLen])
    ensures bitLen == 8 * |payload| ==>
              forall octets :: Packs(octets, MsbBits(payload)[..bitLen]) <==> octets == payload
  {
    var bits := MsbBits(payload)[..bitLen];
    SentenceBits(bits, channel);
    if bitLen == 8 * |payload| {
      WholeOctets(payload);
      assert bits == MsbBits(payload);
      forall octets | Packs(octets, bits)
        ensures octets == payload
      {
        PackingIsUnique(octets, payload, bits);
      }
    }
  }

  lemma WrappedReads(body: seq<octet>, channel: seq<octet>, all: seq<bool>, fill: nat)
    requires STAR !in body && fill <= |all| && IsSingleFragment(body, channel)
    requires TextBits(Field(body, 5)) == Some(all) && DigitOf(Field(body, 6)) == Some(fill)
    ensures ReadBits(Wrapped(body), channel) == Some(all[..|all| - fill])
  {
    hide TextBits, Field, DigitOf, Checksum, Hex, IsSingleFragment, ShowsParity;
    var s, hex := Wrapped(body), Hex(Checksum(body));
    HexShowsParity(body);
    SplitAt(body, STAR, hex + CRLF);
    assert s[1..] == body + [STAR] + (hex + CRLF);
    assert (hex + CRLF)[..2] == hex;
  }

  lemma SentenceBits(bits: seq<bool>, channel: seq<octet>)
    requires COMMA !in channel && STAR !in channel
    ensures ReadBits(Sentence(bits, channel), channel) == Some(bits)
  {
    NoStar(bits, channel);
    BodyFields(bits, channel);
    ArmorInverts(bits);
    var all := bits + Falses(Fill(bits));
    hide Body, ArmorText, Fill, TextBits, Field, Wrapped, IsSingleFragment, ReadBits;
    WrappedReads(Body(bits, channel), channel, all, Fill(bits));
    assert all[..|bits|] == bits;
  }
}
