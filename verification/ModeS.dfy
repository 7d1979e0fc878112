/** Mode S CRC-24 and its single-bit repair (server/src/adsb/message.rs:9-54). */
module ModeS {
  import opened Octets

  const POLY: bv32 := 0x00FF_F409

  /** The inner step of the source, on an unmasked 32-bit register. */
  function WideStep(rem: bv32): bv32 {
    if rem & 0x0080_0000 != 0 then (rem << 1) ^ POLY else rem << 1
  }

  function WideSteps(rem: bv32, n: nat): bv32 {
    if n == 0 then rem else WideStep(WideSteps(rem, n - 1))
  }

  function Entered(rem: bv32, b: octet): bv32 {
    rem ^ ((b as bv32) << 16)
  }

  function CrcFrom(rem: bv32, data: seq<octet>): bv32
    decreases |data|
  {
    if data == [] then rem
    else CrcFrom(Masked(WideSteps(Entered(rem, data[0]), 8)), data[1..])
  }

  function Masked(rem: bv32): bv32 {
    rem & 0x00FF_FFFF
  }

  function Crc(data: seq<octet>): bv32 {
    CrcFrom(0, data)
  }

  method ComputeCrc(data: seq<octet>) returns (rem: bv32)
    ensures rem == Crc(data)
  {
    hide WideStep, Masked, Entered;
    rem := 0;
    assert data[0..] == data;
    for i := 0 to |data|
      invariant CrcFrom(rem, data[i..]) == Crc(data)
    {
      assert data[i..][1..] == data[i + 1..];
      rem := Entered(rem, data[i]);
      ghost var start := rem;
      for k := 0 to 8
        invariant rem == WideSteps(start, k)
      {
        rem := WideStep(rem);
      }
      rem := Masked(rem);
    }
  }

  // ----- Bits of a frame, most significant first -----

  function Mask(i: nat): octet
    requires i < 8
  {
    0x80 >> i
  }

  /** The frame with bit i inverted. */
  function Flip(frame: seq<octet>, i: nat): (r: seq<octet>)
    requires i < 8 * |frame|
    ensures |r| == |frame|
  {
    frame[i / 8 := frame[i / 8] ^ Mask(i % 8)]
  }

  function ByteBits(b: octet, n: nat): (r: seq<bool>)
    ensures |r| == n
    decreases n
  {
    if n == 0 then [] else [b & 0x80 != 0] + ByteBits(b << 1, n - 1)
  }

  function FrameBits(frame: seq<octet>): (r: seq<bool>)
    ensures |r| == 8 * |frame|
  {
    if frame == [] then [] else ByteBits(frame[0], 8) + FrameBits(frame[1..])
  }

  function Inverted(bits: seq<bool>, i: nat): seq<bool>
    requires i < |bits|
  {
    bits[i := !bits[i]]
  }

  lemma MaskShift(i: nat)
    requires 0 < i < 8
    ensures Mask(i) << 1 == Mask(i - 1) && Mask(i) & 0x80 == 0
  {}

  lemma XorShift(a: octet, m: octet)
    ensures (a ^ m) << 1 == (a << 1) ^ (m << 1)
  {}

  lemma XorBelowTop(a: octet, m: octet)
    requires m & 0x80 == 0
    ensures (a ^ m) & 0x80 == a & 0x80
  {}

  lemma XorTop(a: octet, m: octet)
    requires m == 0x80
    ensures ((a ^ m) & 0x80 != 0) != (a & 0x80 != 0)
    ensures (a ^ m) << 1 == a << 1
  {}

  lemma {:induction false} FlipByte(b: octet, i: nat, n: nat)
    requires i < n <= 8
    ensures ByteBits(b ^ Mask(i), n) == Inverted(ByteBits(b, n), i)
    decreases n
  {
    hide Mask, Inverted;
    FlipTop(b, i);
    var rest := ByteBits(b << 1, n - 1);
    InvertedCons(b & 0x80 != 0, rest, i);
    if i == 0 {
    } else {
      FlipByte(b << 1, i - 1, n - 1);
    }
  }

  lemma InvertedCons(bit: bool, rest: seq<bool>, i: nat)
    requires i <= |rest|
    ensures Inverted([bit] + rest, i) == if i == 0 then [!bit] + rest else [bit] + Inverted(rest, i - 1)
  {}

  lemma FlipTop(b: octet, i: nat)
    requires i < 8
    ensures ((b ^ Mask(i)) & 0x80 != 0) == ((i == 0) != (b & 0x80 != 0))
    ensures (b ^ Mask(i)) << 1 == if i == 0 then b << 1 else (b << 1) ^ Mask(i - 1)
  {
    hide Mask;
    if i == 0 {
      TopMask();
      XorTop(b, Mask(0));
    } else {
      MaskShift(i);
      XorShift(b, Mask(i));
      XorBelowTop(b, Mask(i));
    }
  }

  lemma TopMask()
    ensures Mask(0) == 0x80
  {}

  lemma {:induction false} FlipBits(frame: seq<octet>, i: nat)
    requires i < 8 * |frame|
    ensures FrameBits(Flip(frame, i)) == Inverted(FrameBits(frame), i)
    decreases |frame|
  {
    hide Mask, ByteBits;
    var first, rest := ByteBits(frame[0], 8), FrameBits(frame[1..]);
    if i < 8 {
      FlipByte(frame[0], i, 8);
      assert Flip(frame, i)[1..] == frame[1..];
      assert Inverted(first + rest, i) == Inverted(first, i) + rest;
    } else {
      FlipBits(frame[1..], i - 8);
      assert Flip(frame, i)[1..] == Flip(frame[1..], i - 8);
      assert Inverted(first + rest, i) == first + Inverted(rest, i - 8);
    }
  }

  lemma FlipTwice(frame: seq<octet>, i: nat)
    requires i < 8 * |frame|
    ensures Flip(Flip(frame, i), i) == frame
  {
    hide Mask;
    XorTwice(frame[i / 8], Mask(i % 8));
  }

  lemma XorTwice(a: octet, m: octet)
    ensures (a ^ m) ^ m == a
  {}

  // ----- Polynomials modulo the generator -----

  /** Multiplication by x in 24 bits: the carry out of the top place is the
      generator's leading term. */
  function TimesX(r: bv24): bv24 {
    if r & 0x80_0000 != 0 then (r << 1) ^ 0xFF_F409 else r << 1
  }

  function TimesXn(r: bv24, n: nat): bv24 {
    if n == 0 then r else TimesX(TimesXn(r, n - 1))
  }

  function Xor(a: bv24, b: bv24): bv24 {
    a ^ b
  }

  const TOP: bv24 := 0x80_0000

  /** x to the power k + 23 modulo the generator. */
  function Power(k: nat): bv24 {
    TimesXn(TOP, k)
  }

  /** The polynomial with these coefficients, highest first, times x^24, modulo the
      generator: the sum of one power per nonzero coefficient. */
  function Remainder(bits: seq<bool>): bv24
    decreases |bits|
  {
    if bits == [] then 0
    else Xor(if bits[0] then Power(|bits|) else 0, Remainder(bits[1..]))
  }

  /** The 32-bit register holds this remainder below whatever is above bit 23. */
  predicate Holds(rem: bv32, r: bv24) {
    Masked(rem) == r as bv32
  }

  /** Nothing above bit 23 ever comes back: the unmasked loop computes in 24 bits. */
  lemma HoldsStep(rem: bv32, r: bv24)
    requires Holds(rem, r)
    ensures Holds(WideStep(rem), TimesX(r))
  {
    hide Holds;
    HoldsTest(rem, r);
    HoldsShift(rem, r);
    if r & TOP != 0 {
      HoldsTap(rem << 1, r << 1);
    }
  }

  lemma HoldsTest(rem: bv32, r: bv24)
    requires Holds(rem, r)
    ensures rem & 0x0080_0000 != 0 <==> r & TOP != 0
  {}

  lemma HoldsShift(rem: bv32, r: bv24)
    requires Holds(rem, r)
    ensures Holds(rem << 1, r << 1)
  {}

  lemma HoldsTap(rem: bv32, r: bv24)
    requires Holds(rem, r)
    ensures Holds(rem ^ POLY, r ^ 0xFF_F409)
  {}

  lemma {:induction false} HoldsSteps(rem: bv32, r: bv24, n: nat)
    requires Holds(rem, r)
    ensures Holds(WideSteps(rem, n), TimesXn(r, n))
  {
    hide Holds, WideStep, TimesX;
    if n == 0 {
    } else {
      HoldsSteps(rem, r, n - 1);
      HoldsStep(WideSteps(rem, n - 1), TimesXn(r, n - 1));
    }
  }

  lemma HoldsMasked(rem: bv32, r: bv24)
    requires Holds(rem, r)
    ensures Holds(Masked(rem), r)
  {}

  /** A byte in the top eight places. */
  function Placed(b: octet): bv24 {
    (b as bv24) << 16
  }

  lemma HoldsEntered(rem: bv32, r: bv24, b: octet)
    requires Holds(rem, r)
    ensures Holds(Entered(rem, b), Xor(r, Placed(b)))
  {}

  lemma XorAssoc(a: bv24, b: bv24, c: bv24)
    ensures Xor(Xor(a, b), c) == Xor(a, Xor(b, c))
  {}

  lemma XorComm(a: bv24, b: bv24)
    ensures Xor(a, b) == Xor(b, a)
  {}

  lemma XorNone(a: bv24)
    ensures Xor(a, 0) == a && Xor(0, a) == a
  {}

  lemma XorSelf(a: bv24)
    ensures Xor(a, a) == 0
  {}

  lemma XorZero(a: bv24, b: bv24)
    ensures Xor(a, 0) == a && Xor(0, a) == a
    ensures Xor(a, b) == 0 <==> a == b
  {
    hide Xor;
    XorNone(a);
    XorNone(b);
    XorSelf(b);
    XorAssoc(a, b, b);
  }

  lemma XorSwap(a: bv24, b: bv24, c: bv24, d: bv24)
    ensures Xor(Xor(a, b), Xor(c, d)) == Xor(Xor(a, c), Xor(b, d))
  {
    hide Xor;
    XorAssoc(a, b, Xor(c, d));
    XorAssoc(b, c, d);
    XorComm(b, c);
    XorAssoc(c, b, d);
    XorAssoc(a, c, Xor(b, d));
  }

  lemma TimesXLinear(a: bv24, b: bv24)
    ensures TimesX(Xor(a, b)) == Xor(TimesX(a), TimesX(b))
  {
    hide TimesX, Xor;
    if a & 0x80_0000 == 0 && b & 0x80_0000 == 0 {
      LinearNoTap(a, b);
    } else if a & 0x80_0000 == 0 {
      LinearOneTap(b, a);
      XorComm(a, b);
      XorComm(TimesX(a), TimesX(b));
    } else if b & 0x80_0000 == 0 {
      LinearOneTap(a, b);
    } else {
      LinearTwoTaps(a, b);
    }
  }

  lemma LinearNoTap(a: bv24, b: bv24)
    requires a & 0x80_0000 == 0 && b & 0x80_0000 == 0
    ensures TimesX(Xor(a, b)) == Xor(TimesX(a), TimesX(b))
  {}

  lemma LinearOneTap(a: bv24, b: bv24)
    requires a & 0x80_0000 != 0 && b & 0x80_0000 == 0
    ensures TimesX(Xor(a, b)) == Xor(TimesX(a), TimesX(b))
  {}

  lemma LinearTwoTaps(a: bv24, b: bv24)
    requires a & 0x80_0000 != 0 && b & 0x80_0000 != 0
    ensures TimesX(Xor(a, b)) == Xor(TimesX(a), TimesX(b))
  {}

  lemma TimesXZero(r: bv24)
    ensures TimesX(r) == 0 <==> r == 0
  {}

  lemma {:induction false} TimesXnLinear(a: bv24, b: bv24, n: nat)
    ensures TimesXn(Xor(a, b), n) == Xor(TimesXn(a, n), TimesXn(b, n))
  {
    hide TimesX, Xor;
    if n == 0 {
    } else {
      TimesXnLinear(a, b, n - 1);
      TimesXLinear(TimesXn(a, n - 1), TimesXn(b, n - 1));
    }
  }

  lemma {:induction false} TimesXnZero(r: bv24, n: nat)
    ensures TimesXn(r, n) == 0 <==> r == 0
  {
    hide TimesX;
    if n == 0 {
    } else {
      TimesXnZero(r, n - 1);
      TimesXZero(TimesXn(r, n - 1));
    }
  }

  lemma {:induction false} TimesXnAdds(r: bv24, m: nat, n: nat)
    ensures TimesXn(TimesXn(r, m), n) == TimesXn(r, m + n)
  {
    hide TimesX;
    if n == 0 {
    } else {
      TimesXnAdds(r, m, n - 1);
    }
  }

  /** The register fed one bit. */
  function Feed(r: bv24, bit: bool): bv24 {
    TimesX(Xor(r, Unit(bit)))
  }

  function Unit(bit: bool): bv24 {
    if bit then TOP else 0
  }

  function FeedAll(r: bv24, bits: seq<bool>): bv24
    decreases |bits|
  {
    if bits == [] then r else FeedAll(Feed(r, bits[0]), bits[1..])
  }

  lemma {:induction false} FeedConcat(r: bv24, a: seq<bool>, b: seq<bool>)
    ensures FeedAll(r, a + b) == FeedAll(FeedAll(r, a), b)
    decreases |a|
  {
    hide Feed;
    if a == [] {
      assert a + b == b;
    } else {
      FeedConcat(Feed(r, a[0]), a[1..], b);
      assert (a + b)[1..] == a[1..] + b;
    }
  }

  lemma PlacedSplits(b: octet)
    ensures Placed(b) == Xor(Unit(b & 0x80 != 0), Placed(b & 0x7F))
  {}

  lemma PlacedDoubles(b: octet)
    ensures TimesX(Placed(b & 0x7F)) == Placed(b << 1)
  {}

  lemma PlacedStep(r: bv24, b: octet)
    ensures TimesX(Xor(r, Placed(b))) == Xor(Feed(r, b & 0x80 != 0), Placed(b << 1))
  {
    hide TimesX, Xor, Placed, Unit;
    PlacedSplits(b);
    PlacedDoubles(b);
    XorAssoc(r, Unit(b & 0x80 != 0), Placed(b & 0x7F));
    TimesXLinear(Xor(r, Unit(b & 0x80 != 0)), Placed(b & 0x7F));
  }

  lemma {:induction false} TimesXnFirst(r: bv24, n: nat)
    ensures TimesXn(TimesX(r), n) == TimesX(TimesXn(r, n))
  {
    hide TimesX;
    if n == 0 {
    } else {
      TimesXnFirst(r, n - 1);
    }
  }

  function ShiftedOut(b: octet, n: nat): octet
    decreases n
  {
    if n == 0 then b else ShiftedOut(b << 1, n - 1)
  }

  lemma EightShifts(b: octet)
    ensures ShiftedOut(b, 8) == 0
  {
    assert ShiftedOut(b, 8) == ShiftedOut(b << 4, 4);
  }

  /** Entering a byte at once and shifting is feeding its bits one by one. */
  lemma {:induction false} ByteFed(r: bv24, b: octet, n: nat)
    ensures TimesXn(Xor(r, Placed(b)), n) == Xor(FeedAll(r, ByteBits(b, n)), Placed(ShiftedOut(b, n)))
    decreases n
  {
    hide TimesX, Xor, Placed, Feed;
    if n == 0 {
    } else {
      PlacedStep(r, b);
      TimesXnFirst(Xor(r, Placed(b)), n - 1);
      ByteFed(Feed(r, b & 0x80 != 0), b << 1, n - 1);
      assert ByteBits(b, n)[1..] == ByteBits(b << 1, n - 1);
    }
  }

  lemma PlacedZero(r: bv24)
    ensures Xor(r, Placed(0)) == r
  {}

  lemma {:induction false} CrcFeeds(rem: bv32, r: bv24, data: seq<octet>)
    requires Holds(rem, r)
    ensures Holds(CrcFrom(rem, data), FeedAll(r, FrameBits(data)))
    decreases |data|
  {
    hide Holds, Feed, WideSteps, Entered, ByteBits, Xor, Placed, Masked, TimesXn;
    if data == [] {
    } else {
      var x := Entered(rem, data[0]);
      HoldsEntered(rem, r, data[0]);
      HoldsSteps(x, Xor(r, Placed(data[0])), 8);
      ByteFed(r, data[0], 8);
      EightShifts(data[0]);
      var r' := FeedAll(r, ByteBits(data[0], 8));
      PlacedZero(r');
      HoldsMasked(WideSteps(x, 8), r');
      FeedConcat(r, ByteBits(data[0], 8), FrameBits(data[1..]));
      CrcFeeds(Masked(WideSteps(x, 8)), r', data[1..]);
    }
  }

  lemma {:induction false} FeedIsRemainder(r: bv24, bits: seq<bool>)
    ensures FeedAll(r, bits) == Xor(TimesXn(r, |bits|), Remainder(bits))
    decreases |bits|
  {
    hide TimesX, Xor;
    if bits == [] {
      XorZero(r, 0);
    } else {
      var n, u := |bits|, Unit(bits[0]);
      FeedIsRemainder(Feed(r, bits[0]), bits[1..]);
      TimesXnFirst(Xor(r, u), n - 1);
      TimesXnLinear(r, u, n);
      TimesXnZero(0, n);
      XorAssoc(TimesXn(r, n), TimesXn(u, n), Remainder(bits[1..]));
    }
  }

  lemma {:induction false} CrcFromSmall(rem: bv32, data: seq<octet>)
    requires Masked(rem) == rem
    ensures Masked(CrcFrom(rem, data)) == CrcFrom(rem, data)
    decreases |data|
  {
    hide WideSteps, Entered, Masked;
    if data == [] {
    } else {
      var r := WideSteps(Entered(rem, data[0]), 8);
      MaskTwice(r);
      CrcFromSmall(Masked(r), data[1..]);
    }
  }

  lemma MaskTwice(r: bv32)
    ensures Masked(Masked(r)) == Masked(r)
  {}

  /** The byte-wise loop over an unmasked 32-bit register computes the polynomial
      remainder of the frame times x^24. */
  lemma CrcIsRemainder(data: seq<octet>)
    ensures Crc(data) == Remainder(FrameBits(data)) as bv32
  {
    hide Xor, CrcFrom, Feed, Remainder, FeedAll, FrameBits;
    CrcFeeds(0, 0, data);
    FeedIsRemainder(0, FrameBits(data));
    TimesXnZero(0, 8 * |data|);
    XorZero(Remainder(FrameBits(data)), 0);
    CrcFromSmall(0, data);
  }

  /** Inverting a bit adds its power of x. */
  lemma {:induction false} InvertedRemainder(bits: seq<bool>, i: nat)
    requires i < |bits|
    ensures Remainder(Inverted(bits, i)) == Xor(Remainder(bits), Power(|bits| - i))
    decreases |bits|
  {
    hide Xor, Power;
    var r := Remainder(bits[1..]);
    var p := Power(|bits|);
    if i == 0 {
      assert Inverted(bits, 0)[1..] == bits[1..];
      XorZero(r, 0);
      XorZero(p, p);
      XorComm(p, r);
      XorAssoc(r, p, p);
    } else {
      var q := Power(|bits| - i);
      InvertedRemainder(bits[1..], i - 1);
      assert Inverted(bits, i)[1..] == Inverted(bits[1..], i - 1);
      XorAssoc(if bits[0] then p else 0, r, q);
    }
  }

  // ----- The powers of x in a frame are distinct -----

  function Iterated(r: bv24, n: nat): bv24
    decreases n
  {
    if n == 0 then r else Iterated(TimesX(r), n - 1)
  }

  predicate Avoids(r: bv24, n: nat)
    decreases n
  {
    n == 0 || (TimesX(r) != TOP && Avoids(TimesX(r), n - 1))
  }

  lemma AvoidsStep(r: bv24, v: bv24, n: nat)
    requires TimesX(r) == v && v != TOP && Avoids(v, n)
    ensures Avoids(r, n + 1) && Iterated(r, n + 1) == Iterated(v, n)
  {}

  lemma AvoidsNone(r: bv24)
    ensures Avoids(r, 0) && Iterated(r, 0) == r
  {}

  /** Seven steps, each named. */
  lemma AvoidsSeven(r: bv24, a: bv24, b: bv24, c: bv24, d: bv24, e: bv24, f: bv24, g: bv24)
    requires TimesX(r) == a && TimesX(a) == b && TimesX(b) == c && TimesX(c) == d
    requires TimesX(d) == e && TimesX(e) == f && TimesX(f) == g
    requires a != TOP && b != TOP && c != TOP && d != TOP && e != TOP && f != TOP && g != TOP
    ensures Avoids(r, 7) && Iterated(r, 7) == g
  {
    hide TimesX;
    AvoidsNone(g);
    AvoidsStep(f, g, 0);
    AvoidsStep(e, f, 1);
    AvoidsStep(d, e, 2);
    AvoidsStep(c, d, 3);
    AvoidsStep(b, c, 4);
    AvoidsStep(a, b, 5);
    AvoidsStep(r, a, 6);
  }

  lemma {:induction false} AvoidsJoin(r: bv24, m: nat, n: nat)
    requires Avoids(r, m) && Avoids(Iterated(r, m), n)
    ensures Avoids(r, m + n)
    ensures Iterated(r, m + n) == Iterated(Iterated(r, m), n)
    decreases m
  {
    hide TimesX;
    if m == 0 {
    } else {
      AvoidsJoin(TimesX(r), m - 1, n);
    }
  }

  lemma Avoids0()
    ensures Avoids(TOP, 28) && Iterated(TOP, 28) == 0xA01E91
  {
    AvoidsSeven(TOP, 0xFFF409, 0x001C1B, 0x003836, 0x00706C, 0x00E0D8, 0x01C1B0, 0x038360);
    AvoidsSeven(0x038360, 0x0706C0, 0x0E0D80, 0x1C1B00, 0x383600, 0x706C00, 0xE0D800, 0x3E4409);
    AvoidsSeven(0x3E4409, 0x7C8812, 0xF91024, 0x0DD441, 0x1BA882, 0x375104, 0x6EA208, 0xDD4410);
    AvoidsSeven(0xDD4410, 0x457C29, 0x8AF852, 0xEA04AD, 0x2BFD53, 0x57FAA6, 0xAFF54C, 0xA01E91);
    hide Avoids, Iterated, TimesX;
    AvoidsJoin(TOP, 7, 7);
    AvoidsJoin(TOP, 14, 7);
    AvoidsJoin(TOP, 21, 7);
  }

  lemma Avoids28()
    ensures Avoids(0xA01E91, 28) && Iterated(0xA01E91, 28) == 0x3F6D11
  {
    AvoidsSeven(0xA01E91, 0xBFC92B, 0x80665F, 0xFF38B7, 0x018567, 0x030ACE, 0x06159C, 0x0C2B38);
    AvoidsSeven(0x0C2B38, 0x185670, 0x30ACE0, 0x6159C0, 0xC2B380, 0x7A9309, 0xF52612, 0x15B82D);
    AvoidsSeven(0x15B82D, 0x2B705A, 0x56E0B4, 0xADC168, 0xA476D9, 0xB719BB, 0x91C77F, 0xDC7AF7);
    AvoidsSeven(0xDC7AF7, 0x4701E7, 0x8E03CE, 0xE3F395, 0x381323, 0x702646, 0xE04C8C, 0x3F6D11);
    hide Avoids, Iterated, TimesX;
    AvoidsJoin(0xA01E91, 7, 7);
    AvoidsJoin(0xA01E91, 14, 7);
    AvoidsJoin(0xA01E91, 21, 7);
  }

  lemma Avoids56()
    ensures Avoids(0x3F6D11, 28) && Iterated(0x3F6D11, 28) == 0xC397DB
  {
    AvoidsSeven(0x3F6D11, 0x7EDA22, 0xFDB444, 0x049C81, 0x093902, 0x127204, 0x24E408, 0x49C810);
    AvoidsSeven(0x49C810, 0x939020, 0xD8D449, 0x4E5C9B, 0x9CB936, 0xC68665, 0x72F8C3, 0xE5F186);
    AvoidsSeven(0xE5F186, 0x341705, 0x682E0A, 0xD05C14, 0x5F4C21, 0xBE9842, 0x82C48D, 0xFA7D13);
    AvoidsSeven(0xFA7D13, 0x0B0E2F, 0x161C5E, 0x2C38BC, 0x587178, 0xB0E2F0, 0x9E31E9, 0xC397DB);
    hide Avoids, Iterated, TimesX;
    AvoidsJoin(0x3F6D11, 7, 7);
    AvoidsJoin(0x3F6D11, 14, 7);
    AvoidsJoin(0x3F6D11, 21, 7);
  }

  lemma Avoids84()
    ensures Avoids(0xC397DB, 28) && Iterated(0xC397DB, 28) == 0x16C19E
  {
    AvoidsSeven(0xC397DB, 0x78DBBF, 0xF1B77E, 0x1C9AF5, 0x3935EA, 0x726BD4, 0xE4D7A8, 0x365B59);
    AvoidsSeven(0x365B59, 0x6CB6B2, 0xD96D64, 0x4D2EC1, 0x9A5D82, 0xCB4F0D, 0x696A13, 0xD2D426);
    AvoidsSeven(0xD2D426, 0x5A5C45, 0xB4B88A, 0x96851D, 0xD2FE33, 0x5A086F, 0xB410DE, 0x97D5B5);
    AvoidsSeven(0x97D5B5, 0xD05F63, 0x5F4ACF, 0xBE959E, 0x82DF35, 0xFA4A63, 0x0B60CF, 0x16C19E);
    hide Avoids, Iterated, TimesX;
    AvoidsJoin(0xC397DB, 7, 7);
    AvoidsJoin(0xC397DB, 14, 7);
    AvoidsJoin(0xC397DB, 21, 7);
  }

  /** The order of x modulo the generator exceeds 112. */
  lemma OrderAbove112()
    ensures Avoids(TOP, 112)
  {
    hide Avoids, Iterated;
    Avoids0();
    Avoids28();
    AvoidsJoin(TOP, 28, 28);
    Avoids56();
    AvoidsJoin(TOP, 56, 28);
    Avoids84();
    AvoidsJoin(TOP, 84, 28);
  }

  lemma {:induction false} AvoidsMeans(r: bv24, n: nat, k: nat)
    requires Avoids(r, n) && 0 < k <= n
    ensures TimesXn(r, k) != TOP
    decreases k
  {
    hide TimesX;
    if k == 1 {
      assert TimesXn(r, 1) == TimesX(TimesXn(r, 0));
    } else {
      AvoidsMeans(TimesX(r), n - 1, k - 1);
      TimesXnFirst(r, k - 1);
    }
  }

  lemma PowersDistinct(a: nat, b: nat)
    requires a < b <= a + 112
    ensures Power(a) != Power(b)
  {
    hide Xor, Avoids, TimesX;
    OrderAbove112();
    AvoidsMeans(TOP, 112, b - a);
    var t := TimesXn(TOP, b - a);
    TimesXnAdds(TOP, b - a, a);
    TimesXnLinear(TOP, t, a);
    TimesXnZero(Xor(TOP, t), a);
    XorZero(TOP, t);
    XorZero(Power(a), Power(b));
  }

  // ----- Parity -----

  predicate LowParity(r: bv24) {
    (((r & 0x1 != 0) != (r & 0x2 != 0)) != ((r & 0x4 != 0) != (r & 0x8 != 0))) !=
    (((r & 0x10 != 0) != (r & 0x20 != 0)) != ((r & 0x40 != 0) != (r & 0x80 != 0)))
  }

  /** Whether a remainder has an odd number of terms. */
  predicate Parity(r: bv24) {
    LowParity(r) != (LowParity(r >> 8) != LowParity(r >> 16))
  }

  lemma LowParityXor(a: bv24, b: bv24)
    ensures LowParity(Xor(a, b)) == (LowParity(a) != LowParity(b))
  {}

  lemma XorShifts(a: bv24, b: bv24)
    ensures Xor(a, b) >> 8 == Xor(a >> 8, b >> 8)
    ensures Xor(a, b) >> 16 == Xor(a >> 16, b >> 16)
  {}

  lemma ParityXor(a: bv24, b: bv24)
    ensures Parity(Xor(a, b)) == (Parity(a) != Parity(b))
  {
    hide Xor, LowParity;
    XorShifts(a, b);
    LowParityXor(a, b);
    LowParityXor(a >> 8, b >> 8);
    LowParityXor(a >> 16, b >> 16);
  }

  /** The generator has an even number of terms. */
  lemma TimesXParity(r: bv24)
    ensures Parity(TimesX(r)) == Parity(r)
  {
    hide Parity;
    if r & 0x80_0000 == 0 {
      ParityNoTap(r);
    } else {
      ParityTap(r);
    }
  }

  lemma ParityNoTap(r: bv24)
    requires r & 0x80_0000 == 0
    ensures Parity(r << 1) == Parity(r)
  {}

  lemma ParityTap(r: bv24)
    requires r & 0x80_0000 != 0
    ensures Parity((r << 1) ^ 0xFF_F409) == Parity(r)
  {}

  lemma {:induction false} PowerOdd(k: nat)
    ensures Parity(Power(k))
  {
    hide Parity, TimesX;
    if k == 0 {
      TopOdd();
    } else {
      PowerOdd(k - 1);
      TimesXParity(Power(k - 1));
    }
  }

  lemma TopOdd()
    ensures Parity(TOP)
    ensures !Parity(0)
  {}

  // ----- Repair -----

  const BITS: nat := 112

  /** The CRC of an all-zero 14-byte frame with bit i set. */
  function Syndrome(i: nat): bv32
    requires i < BITS
  {
    Crc(Flip(seq(14, _ => 0), i))
  }

  /** The first bit from i on whose syndrome is the residual, or 112. */
  function FirstMatch(residual: bv32, i: nat): (k: nat)
    requires i <= BITS
    ensures i <= k <= BITS
    ensures k < BITS ==> Syndrome(k) == residual
    ensures forall j | i <= j < k :: Syndrome(j) != residual
    decreases BITS - i
  {
    if i == BITS || Syndrome(i) == residual then i else FirstMatch(residual, i + 1)
  }

  function Repaired(frame: seq<octet>): (r: seq<octet>)
    requires |frame| == 14
    ensures |r| == 14
  {
    if Crc(frame) == 0 || FirstMatch(Crc(frame), 0) == BITS then frame
    else Flip(frame, FirstMatch(Crc(frame), 0))
  }

  predicate Repairs(frame: seq<octet>)
    requires |frame| == 14
  {
    Crc(frame) == 0 || FirstMatch(Crc(frame), 0) < BITS
  }

  method Syndromes() returns (t: seq<bv32>)
    ensures |t| == BITS && forall i | 0 <= i < BITS :: t[i] == Syndrome(i)
  {
    hide Crc, Mask;
    t := [];
    for i := 0 to BITS
      invariant |t| == i && forall k | 0 <= k < i :: t[k] == Syndrome(k)
    {
      var frame := seq(14, _ => 0);
      frame := frame[i / 8 := frame[i / 8] ^ Mask(i % 8)];
      var slot := ComputeCrc(frame);
      t := t + [slot];
    }
  }

  method FixSingleBit(frame: array<octet>) returns (fixed: bool)
    requires frame.Length == 14
    modifies frame
    ensures frame[..] == Repaired(old(frame[..]))
    ensures fixed == Repairs(old(frame[..]))
  {
    hide Crc, Mask;
    var residual := ComputeCrc(frame[..]);
    if residual == 0 {
      return true;
    }
    var table := Syndromes();
    for bit := 0 to BITS
      invariant frame[..] == old(frame[..])
      invariant FirstMatch(residual, 0) == FirstMatch(residual, bit)
    {
      if table[bit] == residual {
        frame[bit / 8] := frame[bit / 8] ^ Mask(bit % 8);
        assert frame[..] == Flip(old(frame[..]), bit);
        return true;
      }
    }
    return false;
  }

  lemma {:induction false} ZeroRemainder(bits: seq<bool>)
    requires forall k | 0 <= k < |bits| :: !bits[k]
    ensures Remainder(bits) == 0
    decreases |bits|
  {
    if bits == [] {
    } else {
      ZeroRemainder(bits[1..]);
    }
  }

  lemma ZeroByteBits()
    ensures ByteBits(0, 8) == seq(8, _ => false)
  {
    assert ByteBits(0, 4) == seq(4, _ => false);
  }

  lemma {:induction false} ZeroFrame(n: nat)
    ensures FrameBits(seq(n, _ => 0)) == seq(8 * n, _ => false)
  {
    hide ByteBits;
    if n == 0 {
    } else {
      ZeroByteBits();
      ZeroFrame(n - 1);
      var frame: seq<octet> := seq(n, _ => 0);
      assert frame[1..] == seq(n - 1, _ => 0);
    }
  }

  function FrameRemainder(frame: seq<octet>): bv24 {
    Remainder(FrameBits(frame))
  }

  /** Inverting bit i of any frame changes its remainder by x to the power 135 - i. */
  lemma FlippedRemainder(frame: seq<octet>, i: nat)
    requires i < 8 * |frame|
    ensures FrameRemainder(Flip(frame, i)) == Xor(FrameRemainder(frame), Power(8 * |frame| - i))
  {
    hide Xor, Power, Remainder, FrameBits, Flip;
    FlipBits(frame, i);
    InvertedRemainder(FrameBits(frame), i);
  }

  lemma ValidMeans(frame: seq<octet>)
    ensures Crc(frame) == 0 <==> FrameRemainder(frame) == 0
  {
    hide Remainder, FrameBits, Crc;
    CrcIsRemainder(frame);
    WidenInjective(FrameRemainder(frame), 0);
  }

  lemma SyndromeIsPower(i: nat)
    requires i < BITS
    ensures Syndrome(i) == Power(BITS - i) as bv32
  {
    hide Xor, Power, Remainder, FrameBits, Crc, Flip;
    var zero: seq<octet> := seq(14, _ => 0);
    CrcIsRemainder(Flip(zero, i));
    FlippedRemainder(zero, i);
    ZeroFrame(14);
    ZeroRemainder(FrameBits(zero));
    XorZero(Power(BITS - i), 0);
  }

  lemma WidenInjective(a: bv24, b: bv24)
    ensures a as bv32 == b as bv32 <==> a == b
  {}

  lemma SyndromesDistinct(i: nat, k: nat)
    requires i < k < BITS
    ensures Syndrome(i) != Syndrome(k)
  {
    hide Power, Syndrome;
    SyndromeIsPower(i);
    SyndromeIsPower(k);
    WidenInjective(Power(BITS - i), Power(BITS - k));
    PowersDistinct(BITS - k, BITS - i);
  }

  /** A residual that is a power of x in range names its bit. */
  lemma MatchIs(frame: seq<octet>, i: nat)
    requires |frame| == 14 && i < BITS && FrameRemainder(frame) == Power(BITS - i)
    ensures FirstMatch(Crc(frame), 0) == i
  {
    hide Power, Syndrome, FrameRemainder, Crc;
    CrcIsFrameRemainder(frame);
    SyndromeIsPower(i);
    FirstIs(Crc(frame), i);
  }

  lemma FirstIs(residual: bv32, i: nat)
    requires i < BITS && Syndrome(i) == residual
    ensures FirstMatch(residual, 0) == i
  {
    hide Syndrome;
    var k := FirstMatch(residual, 0);
    if k < i {
      SyndromesDistinct(k, i);
    }
  }

  lemma CrcIsFrameRemainder(frame: seq<octet>)
    ensures Crc(frame) == FrameRemainder(frame) as bv32
  {
    hide Crc, Remainder, FrameBits;
    CrcIsRemainder(frame);
  }

  lemma PowerNonzero(k: nat)
    ensures Power(k) != 0
  {
    hide TimesXn;
    TimesXnZero(TOP, k);
  }

  /** Any one inverted bit of a valid frame is found and restored. */
  lemma SingleBitRestored(frame: seq<octet>, i: nat)
    requires |frame| == 14 && Crc(frame) == 0 && i < BITS
    ensures Repairs(Flip(frame, i)) && Repaired(Flip(frame, i)) == frame
  {
    hide Xor, Power, FrameRemainder, Crc, Flip;
    ValidMeans(frame);
    FlippedRemainder(frame, i);
    XorZero(Power(BITS - i), 0);
    PowerNonzero(BITS - i);
    ValidMeans(Flip(frame, i));
    MatchIs(Flip(frame, i), i);
    FlipTwice(frame, i);
  }

  /** A frame whose remainder has an even number of terms matches no syndrome. */
  lemma EvenUnmatched(frame: seq<octet>)
    requires |frame| == 14 && !Parity(FrameRemainder(frame))
    ensures FirstMatch(Crc(frame), 0) == BITS
  {
    hide Power, Syndrome, Parity, FrameRemainder, Crc;
    CrcIsFrameRemainder(frame);
    var k := FirstMatch(Crc(frame), 0);
    if k < BITS {
      SyndromeIsPower(k);
      WidenInjective(Power(BITS - k), FrameRemainder(frame));
      PowerOdd(BITS - k);
    }
  }

  /** Any two inverted bits of a valid frame are reported and left alone. */
  lemma DoubleBitRefused(frame: seq<octet>, i: nat, j: nat)
    requires |frame| == 14 && Crc(frame) == 0 && i < j < BITS
    ensures var bad := Flip(Flip(frame, i), j); !Repairs(bad) && Repaired(bad) == bad
  {
    hide Xor, Power, FrameRemainder, Crc, Flip, Parity;
    var once, bad := Flip(frame, i), Flip(Flip(frame, i), j);
    var a, b := Power(BITS - i), Power(BITS - j);
    ValidMeans(frame);
    FlippedRemainder(frame, i);
    XorZero(a, b);
    FlippedRemainder(once, j);
    PowersDistinct(BITS - j, BITS - i);
    ValidMeans(bad);
    assert FrameRemainder(bad) == Xor(a, b);
    PowersEven(BITS - i, BITS - j);
    EvenUnmatched(bad);
  }

  lemma PowersEven(m: nat, n: nat)
    ensures !Parity(Xor(Power(m), Power(n)))
  {
    hide Xor, Power, Parity;
    ParityXor(Power(m), Power(n));
    PowerOdd(m);
    PowerOdd(n);
  }

  /** The frame with each listed bit inverted in turn. */
  function FlipAll(frame: seq<octet>, at: seq<nat>): (r: seq<octet>)
    requires forall k | 0 <= k < |at| :: at[k] < 8 * |frame|
    ensures |r| == |frame|
    decreases |at|
  {
    if at == [] then frame else FlipAll(Flip(frame, at[0]), at[1..])
  }

  lemma {:induction false} FlipAllParity(frame: seq<octet>, at: seq<nat>)
    requires forall k | 0 <= k < |at| :: at[k] < 8 * |frame|
    ensures Parity(FrameRemainder(FlipAll(frame, at))) == (Parity(FrameRemainder(frame)) != (|at| % 2 == 1))
    decreases |at|
  {
    hide Xor, Power, FrameRemainder, Flip, Parity;
    if at == [] {
    } else {
      FlippedRemainder(frame, at[0]);
      ParityXor(FrameRemainder(frame), Power(8 * |frame| - at[0]));
      PowerOdd(8 * |frame| - at[0]);
      FlipAllParity(Flip(frame, at[0]), at[1..]);
    }
  }

  /** No even number of inverted bits is ever miscorrected: the frame stays as
      received, and it is passed only if the error is itself a code word. */
  lemma EvenErrorsNeverAltered(frame: seq<octet>, at: seq<nat>)
    requires |frame| == 14 && Crc(frame) == 0 && |at| % 2 == 0
    requires forall k | 0 <= k < |at| :: at[k] < BITS
    ensures var bad := FlipAll(frame, at);
      Repaired(bad) == bad && (Repairs(bad) <==> Crc(bad) == 0)
  {
    hide FrameRemainder, Crc, Flip, Parity, FlipAll;
    ValidMeans(frame);
    TopOdd();
    FlipAllParity(frame, at);
    EvenUnmatched(FlipAll(frame, at));
  }

  /** Whatever is reported repaired passes the CRC, and the rest does not. */
  lemma RepairedIsValid(frame: seq<octet>)
    requires |frame| == 14
    ensures Repairs(frame) <==> Crc(Repaired(frame)) == 0
  {
    hide Xor, Power, FrameRemainder, Crc, Flip, Syndrome;
    var k := FirstMatch(Crc(frame), 0);
    if Crc(frame) != 0 && k < BITS {
      SyndromeIsPower(k);
      CrcIsFrameRemainder(frame);
      WidenInjective(Power(BITS - k), FrameRemainder(frame));
      FlippedRemainder(frame, k);
      ValidMeans(Flip(frame, k));
      XorZero(Power(BITS - k), Power(BITS - k));
    }
  }
}
