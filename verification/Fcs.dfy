/** The HDLC / X.25 frame check sequence: the shift register the transmitter and
    both receivers run, and what it detects. */
module Fcs {
  import opened Octets

  const GOOD_RESIDUAL: bv16 := 0xF0B8

  /** One step of the reflected register. */
  function Shift(c: bv16): bv16 {
    if c & 1 != 0 then (c >> 1) ^ 0x8408 else c >> 1
  }

  function ShiftN(c: bv16, n: nat): bv16 {
    if n == 0 then c else Shift(ShiftN(c, n - 1))
  }

  function Register(c: bv16, octets: seq<octet>): bv16
    decreases |octets|
  {
    if octets == [] then c
    else Register(ShiftN(Xor(c, octets[0] as bv16), 8), octets[1..])
  }

  function Xor(a: bv16, b: bv16): bv16 {
    a ^ b
  }

  /** The two octets the transmitter appends, low byte first. */
  function Trailer(body: seq<octet>): (r: seq<octet>)
    ensures |r| == 2
  {
    var fcs := !Register(0xFFFF, body);
    [(fcs & 0xFF) as octet, (fcs >> 8) as octet]
  }

  function Framed(body: seq<octet>): seq<octet> {
    body + Trailer(body)
  }

  predicate FcsOk(octets: seq<octet>) {
    |octets| >= 3 && Register(0xFFFF, octets) == GOOD_RESIDUAL
  }

  /** The register loop, octet by octet and bit by bit
      (server/src/ais/message.rs:134-140, server/src/aprs/tx.rs:63-69). */
  method ComputeRegister(octets: seq<octet>) returns (crc: bv16)
    ensures crc == Register(0xFFFF, octets)
  {
    crc := 0xFFFF;
    for i := 0 to |octets|
      invariant Register(crc, octets[i..]) == Register(0xFFFF, octets)
    {
      ghost var rest := octets[i..];
      crc := crc ^ (octets[i] as bv16);
      ghost var start := crc;
      for k := 0 to 8
        invariant crc == ShiftN(start, k)
      {
        crc := if crc & 1 != 0 then (crc >> 1) ^ 0x8408 else crc >> 1;
      }
      assert rest[1..] == octets[i + 1..];
    }
  }

  method ComputeTrailer(body: seq<octet>) returns (low: octet, high: octet)
    ensures [low, high] == Trailer(body)
  {
    hide Register;
    var crc := ComputeRegister(body);
    var fcs := !crc;
    low, high := (fcs & 0xFF) as octet, (fcs >> 8) as octet;
  }

  method CheckFcs(octets: seq<octet>) returns (ok: bool)
    ensures ok == FcsOk(octets)
  {
    if |octets| < 3 {
      return false;
    }
    var crc := ComputeRegister(octets);
    return crc == GOOD_RESIDUAL;
  }

  // ----- The register as a linear map over GF(2) -----

  function Unit(bit: bool): bv16 {
    if bit then 1 else 0
  }

  lemma XorAssoc(a: bv16, b: bv16, c: bv16)
    ensures Xor(Xor(a, b), c) == Xor(a, Xor(b, c))
  {}

  lemma XorComm(a: bv16, b: bv16)
    ensures Xor(a, b) == Xor(b, a)
  {}

  lemma XorNone(a: bv16)
    ensures Xor(a, 0) == a && Xor(0, a) == a
  {}

  lemma XorSelf(a: bv16)
    ensures Xor(a, a) == 0
  {}

  lemma XorZero(a: bv16, b: bv16)
    ensures Xor(a, 0) == a && Xor(0, a) == a
    ensures Xor(a, b) == 0 <==> a == b
  {
    hide Xor;
    XorNone(a);
    XorNone(b);
    XorSelf(b);
    XorAssoc(a, b, b);
  }

  lemma XorUnits(p: bool, q: bool)
    ensures Xor(Unit(p), Unit(q)) == Unit(p != q)
  {}

  lemma XorSwap(a: bv16, b: bv16, c: bv16, d: bv16)
    ensures Xor(Xor(a, b), Xor(c, d)) == Xor(Xor(a, c), Xor(b, d))
  {
    hide Xor;
    XorAssoc(a, b, Xor(c, d));
    XorAssoc(b, c, d);
    XorComm(b, c);
    XorAssoc(c, b, d);
    XorAssoc(a, c, Xor(b, d));
  }

  lemma ShiftLinear(a: bv16, b: bv16)
    ensures Shift(Xor(a, b)) == Xor(Shift(a), Shift(b))
  {
    if a & 1 == 0 && b & 1 == 0 {
    } else if a & 1 == 0 {
    } else if b & 1 == 0 {
    } else {
    }
  }

  lemma ShiftZero(c: bv16)
    ensures Shift(c) == 0 <==> c == 0
  {}

  lemma {:induction false} ShiftNZero(c: bv16, n: nat)
    ensures ShiftN(c, n) == 0 <==> c == 0
  {
    hide Shift;
    if n == 0 {
    } else {
      ShiftNZero(c, n - 1);
      ShiftZero(ShiftN(c, n - 1));
    }
  }

  lemma {:induction false} ShiftNFirst(c: bv16, n: nat)
    ensures ShiftN(Shift(c), n) == Shift(ShiftN(c, n))
  {
    hide Shift;
    if n == 0 {
    } else {
      ShiftNFirst(c, n - 1);
    }
  }

  /** The register fed one wire bit. */
  function Feed(c: bv16, bit: bool): bv16 {
    Shift(Xor(c, Unit(bit)))
  }

  function FeedAll(c: bv16, bits: seq<bool>): bv16
    decreases |bits|
  {
    if bits == [] then c else FeedAll(Feed(c, bits[0]), bits[1..])
  }

  lemma {:induction false} FeedConcat(c: bv16, a: seq<bool>, b: seq<bool>)
    ensures FeedAll(c, a + b) == FeedAll(FeedAll(c, a), b)
    decreases |a|
  {
    hide Feed;
    if a == [] {
      assert a + b == b;
    } else {
      FeedConcat(Feed(c, a[0]), a[1..], b);
      assert (a + b)[1..] == a[1..] + b;
    }
  }

  /** Up to sixteen bits as the word the register would see them in. */
  function Word(bits: seq<bool>): bv16
    decreases |bits|
  {
    if bits == [] then 0 else Grow(Word(bits[1..]), bits[0])
  }

  function Grow(w: bv16, bit: bool): bv16 {
    Xor(w << 1, Unit(bit))
  }

  /** Whether a word fits in its low n places. */
  predicate Below(w: bv16, n: nat) {
    if n == 0 then w == 0 else Below(w >> 1, n - 1)
  }

  function Place(k: nat): bv16 {
    if k == 0 then 1 else Place(k - 1) << 1
  }

  lemma {:induction false} NotBelow(w: bv16, n: nat, k: nat)
    requires n <= k && w & Place(k) != 0
    ensures !Below(w, n)
  {
    if n == 0 {
    } else {
      HalfPlace(w, Place(k - 1));
      NotBelow(w >> 1, n - 1, k - 1);
    }
  }

  lemma HalfPlace(w: bv16, b: bv16)
    ensures w & (b << 1) != 0 ==> (w >> 1) & b != 0
  {}

  lemma TopPlace()
    ensures Place(15) == 0x8000
  {
    assert Place(5) == 0x20 && Place(10) == 0x400;
  }

  lemma GrowBelow(w: bv16, bit: bool, n: nat)
    requires n < 16 && Below(w, n)
    ensures Below(Grow(w, bit), n + 1)
    ensures w & 0x8000 == 0
  {
    hide Grow, Place;
    TopPlace();
    if w & Place(15) != 0 {
      NotBelow(w, n, 15);
    }
    GrowShift(w, bit);
  }

  lemma GrowShift(w: bv16, bit: bool)
    requires w & 0x8000 == 0
    ensures Shift(w << 1) == w
    ensures Grow(w, bit) >> 1 == w
    ensures Grow(w, bit) == 0 <==> w == 0 && !bit
  {
    hide *;
    ShiftDoubled(w);
    GrowHalved(w, bit);
    GrowZero(w, bit);
  }

  lemma ShiftDoubled(w: bv16)
    requires w & 0x8000 == 0
    ensures Shift(w << 1) == w
  {}

  lemma GrowHalved(w: bv16, bit: bool)
    requires w & 0x8000 == 0
    ensures Grow(w, bit) >> 1 == w
  {}

  lemma GrowZero(w: bv16, bit: bool)
    requires w & 0x8000 == 0
    ensures Grow(w, bit) == 0 <==> w == 0 && !bit
  {}

  lemma {:induction false} WordBelow(bits: seq<bool>)
    requires |bits| <= 16
    ensures Below(Word(bits), |bits|)
    ensures Word(bits) == 0 <==> true !in bits
  {
    hide Grow;
    if bits == [] {
    } else {
      WordBelow(bits[1..]);
      GrowBelow(Word(bits[1..]), bits[0], |bits| - 1);
      GrowShift(Word(bits[1..]), bits[0]);
      assert bits == [bits[0]] + bits[1..];
    }
  }

  /** Feeding up to sixteen bits one at a time is the same as adding them to the
      register all at once and then shifting: the octet-wise loop and the
      bit-serial register agree. */
  lemma {:induction false} FeedIsShift(c: bv16, bits: seq<bool>)
    requires |bits| <= 16
    ensures FeedAll(c, bits) == ShiftN(Xor(c, Word(bits)), |bits|)
    decreases |bits|
  {
    hide Shift, Xor, Unit;
    if bits == [] {
      XorZero(c, 0);
    } else {
      var w, n := Word(bits[1..]), |bits| - 1;
      FeedGrow(c, w, bits[0], bits[1..]);
      FeedIsShift(Feed(c, bits[0]), bits[1..]);
      ShiftNFirst(Xor(c, Word(bits)), n);
    }
  }

  lemma FeedGrow(c: bv16, w: bv16, bit: bool, rest: seq<bool>)
    requires |rest| < 16 && w == Word(rest)
    ensures Xor(Feed(c, bit), w) == Shift(Xor(c, Grow(w, bit)))
  {
    hide Shift, Xor, Unit;
    WordTop(rest);
    GrowShift(w, bit);
    ShiftLinear(Xor(c, Unit(bit)), w << 1);
    XorAssoc(c, Unit(bit), w << 1);
    XorComm(Unit(bit), w << 1);
  }

  lemma WordTop(bits: seq<bool>)
    requires |bits| < 16
    ensures Word(bits) & 0x8000 == 0
  {
    hide Word;
    WordBelow(bits);
    GrowBelow(Word(bits), false, |bits|);
  }

  lemma OctetWord(b: octet)
    ensures Word(OctetBits(b)) == b as bv16
  {
    hide Grow, BitAt, Word;
    WordOfEight(OctetBits(b));
    OctetWordUnrolled(b);
  }

  lemma WordOfEight(s: seq<bool>)
    requires |s| == 8
    ensures Word(s) == Grow(Grow(Grow(Grow(Grow(Grow(Grow(Grow(0, s[7]), s[6]), s[5]), s[4]), s[3]), s[2]), s[1]), s[0])
  {
    hide Grow;
    WordOfFour(s[4..]);
    assert s[1..][1..] == s[2..] && s[2..][1..] == s[3..] && s[3..][1..] == s[4..];
    assert Word(s[2..]) == Grow(Word(s[3..]), s[2]) && Word(s[3..]) == Grow(Word(s[4..]), s[3]);
    assert Word(s[1..]) == Grow(Word(s[2..]), s[1]);
  }

  lemma WordOfFour(s: seq<bool>)
    requires |s| == 4
    ensures Word(s) == Grow(Grow(Grow(Grow(0, s[3]), s[2]), s[1]), s[0])
  {
    hide Grow;
    assert s[1..][1..] == s[2..] && s[2..][1..] == s[3..] && s[3..][1..] == [];
    assert Word(s[2..]) == Grow(Word(s[3..]), s[2]) && Word(s[3..]) == Grow(Word([]), s[3]);
    assert Word(s[1..]) == Grow(Word(s[2..]), s[1]);
  }

  lemma OctetWordUnrolled(b: octet)
    ensures Grow(Grow(Grow(Grow(Grow(Grow(Grow(Grow(0,
        BitAt(b, 7)), BitAt(b, 6)), BitAt(b, 5)), BitAt(b, 4)),
        BitAt(b, 3)), BitAt(b, 2)), BitAt(b, 1)), BitAt(b, 0)) == b as bv16
  {}

  lemma {:induction false} RegisterFeeds(c: bv16, octets: seq<octet>)
    ensures Register(c, octets) == FeedAll(c, Bits(octets))
    decreases |octets|
  {
    hide Xor, Feed, Shift;
    if octets == [] {
    } else {
      OctetWord(octets[0]);
      FeedIsShift(c, OctetBits(octets[0]));
      FeedConcat(c, OctetBits(octets[0]), Bits(octets[1..]));
      RegisterFeeds(FeedAll(c, OctetBits(octets[0])), octets[1..]);
    }
  }

  lemma {:induction false} RegisterConcat(c: bv16, a: seq<octet>, b: seq<octet>)
    ensures Register(c, a + b) == Register(Register(c, a), b)
    decreases |a|
  {
    hide Xor, Shift;
    if a == [] {
      assert a + b == b;
    } else {
      RegisterConcat(ShiftN(Xor(c, a[0] as bv16), 8), a[1..], b);
      assert (a + b)[1..] == a[1..] + b;
    }
  }

  // ----- Soundness -----

  function Shift8(c: bv16): bv16 {
    Shift(Shift(Shift(Shift(Shift(Shift(Shift(Shift(c))))))))
  }

  lemma Shift8Is(c: bv16)
    ensures ShiftN(c, 8) == Shift8(c)
  {
    hide Shift;
    assert ShiftN(c, 2) == Shift(ShiftN(c, 1)) && ShiftN(c, 1) == Shift(ShiftN(c, 0));
    assert ShiftN(c, 4) == Shift(ShiftN(c, 3)) && ShiftN(c, 3) == Shift(ShiftN(c, 2));
    assert ShiftN(c, 6) == Shift(ShiftN(c, 5)) && ShiftN(c, 5) == Shift(ShiftN(c, 4));
  }

  /** Whatever the register holds, feeding it its own complement leaves the constant. */
  lemma ComplementResidual(c: bv16)
    ensures Shift8(Xor(Shift8(Xor(c, !c & 0xFF)), !c >> 8)) == GOOD_RESIDUAL
  {}

  lemma TrailerOctets(body: seq<octet>)
    ensures var c := Register(0xFFFF, body);
      Trailer(body)[0] as bv16 == !c & 0xFF && Trailer(body)[1] as bv16 == !c >> 8
  {
    hide Register;
  }

  lemma RegisterOne(c: bv16, x: octet, rest: seq<octet>)
    ensures Register(c, [x] + rest) == Register(Shift8(Xor(c, x as bv16)), rest)
  {
    hide Xor, Shift, Shift8, ShiftN;
    Shift8Is(Xor(c, x as bv16));
    assert ([x] + rest)[1..] == rest;
  }

  lemma RegisterPair(c: bv16, x: octet, y: octet)
    ensures Register(c, [x, y]) == Shift8(Xor(Shift8(Xor(c, x as bv16)), y as bv16))
  {
    hide Xor, Shift8;
    RegisterOne(c, x, [y]);
    assert [x, y] == [x] + [y];
    RegisterOne(Shift8(Xor(c, x as bv16)), y, []);
    assert [y] == [y] + [];
  }

  lemma FcsSound(body: seq<octet>)
    requires body != []
    ensures FcsOk(Framed(body))
  {
    hide Register, Shift8, Xor, Trailer;
    var c, t := Register(0xFFFF, body), Trailer(body);
    RegisterConcat(0xFFFF, body, t);
    TrailerOctets(body);
    RegisterPair(c, t[0], t[1]);
    assert t == [t[0], t[1]];
    ComplementResidual(c);
  }

  // ----- Detection -----

  /** Which wire bits differ. */
  function Difference(x: seq<bool>, y: seq<bool>): (d: seq<bool>)
    requires |x| == |y|
    ensures |d| == |x|
  {
    seq(|x|, i requires 0 <= i < |x| => x[i] != y[i])
  }

  lemma FeedLinearStep(c: bv16, d: bv16, p: bool, q: bool)
    ensures Xor(Feed(c, p), Feed(d, q)) == Feed(Xor(c, d), p != q)
  {
    hide Shift, Xor, Unit;
    XorSwap(c, Unit(p), d, Unit(q));
    XorUnits(p, q);
    ShiftLinear(Xor(c, Unit(p)), Xor(d, Unit(q)));
  }

  /** Two runs of the register differ by a run started from zero on the difference. */
  lemma {:induction false} FeedLinear(c: bv16, d: bv16, x: seq<bool>, y: seq<bool>)
    requires |x| == |y|
    ensures Xor(FeedAll(c, x), FeedAll(d, y)) == FeedAll(Xor(c, d), Difference(x, y))
    decreases |x|
  {
    hide Feed, Xor;
    if x == [] {
    } else {
      FeedLinearStep(c, d, x[0], y[0]);
      FeedLinear(Feed(c, x[0]), Feed(d, y[0]), x[1..], y[1..]);
      assert Difference(x, y)[1..] == Difference(x[1..], y[1..]);
    }
  }

  lemma FeedZero(c: bv16)
    ensures Feed(c, false) == 0 <==> c == 0
  {
    hide Xor, Shift;
    XorZero(c, 0);
    ShiftZero(c);
  }

  lemma {:induction false} FeedZeros(c: bv16, bits: seq<bool>)
    requires true !in bits
    ensures FeedAll(c, bits) == 0 <==> c == 0
    decreases |bits|
  {
    hide Feed;
    if bits == [] {
    } else {
      assert !bits[0];
      FeedZero(c);
      FeedZeros(Feed(c, false), bits[1..]);
    }
  }

  /** Whether a register holds an odd number of ones. */
  predicate Parity(c: bv16) {
    ((((c & 0x1 != 0) != (c & 0x2 != 0)) != ((c & 0x4 != 0) != (c & 0x8 != 0))) !=
     (((c & 0x10 != 0) != (c & 0x20 != 0)) != ((c & 0x40 != 0) != (c & 0x80 != 0)))) !=
    ((((c & 0x100 != 0) != (c & 0x200 != 0)) != ((c & 0x400 != 0) != (c & 0x800 != 0))) !=
     (((c & 0x1000 != 0) != (c & 0x2000 != 0)) != ((c & 0x4000 != 0) != (c & 0x8000 != 0))))
  }

  /** The generator has an even number of terms, so a shift keeps parity. */
  lemma ShiftParity(c: bv16)
    ensures Parity(Shift(c)) == Parity(c)
  {
    hide Parity;
    if c & 1 == 0 {
      ShiftParityNoTap(c);
    } else {
      ShiftParityTap(c);
    }
  }

  lemma ShiftParityNoTap(c: bv16)
    requires c & 1 == 0
    ensures Parity(c >> 1) == Parity(c)
  {}

  lemma ShiftParityTap(c: bv16)
    requires c & 1 != 0
    ensures Parity((c >> 1) ^ 0x8408) == Parity(c)
  {}

  lemma UnitParity(c: bv16, bit: bool)
    ensures Parity(Xor(c, Unit(bit))) == (Parity(c) != bit)
  {}

  function Flips(d: seq<bool>): nat {
    if d == [] then 0 else (if d[0] then 1 else 0) + Flips(d[1..])
  }

  lemma {:induction false} FeedAllParity(c: bv16, bits: seq<bool>)
    ensures Parity(FeedAll(c, bits)) == (Parity(c) != (Flips(bits) % 2 == 1))
    decreases |bits|
  {
    hide Parity, Xor, Shift, Unit;
    if bits == [] {
    } else {
      UnitParity(c, bits[0]);
      ShiftParity(Xor(c, Unit(bits[0])));
      FeedAllParity(Feed(c, bits[0]), bits[1..]);
    }
  }

  /** Of two octet strings of one length, one of them good, the other is good
      exactly when the register, started from zero, returns to zero on the
      difference. */
  lemma GoodTogether(a: seq<octet>, b: seq<octet>)
    requires |a| == |b| && FcsOk(a)
    ensures FcsOk(b) <==> FeedAll(0, Difference(Bits(a), Bits(b))) == 0
  {
    hide Feed, Xor, Register, FeedAll;
    RegisterFeeds(0xFFFF, a);
    RegisterFeeds(0xFFFF, b);
    FeedLinear(0xFFFF, 0xFFFF, Bits(a), Bits(b));
    XorZero(0xFFFF, 0xFFFF);
    XorZero(GOOD_RESIDUAL, FeedAll(0xFFFF, Bits(b)));
  }

  lemma DetectsOddFlips(a: seq<octet>, b: seq<octet>)
    requires |a| == |b| && FcsOk(a)
    requires Flips(Difference(Bits(a), Bits(b))) % 2 == 1
    ensures !FcsOk(b)
  {
    hide FeedAll, Register;
    GoodTogether(a, b);
    FeedAllParity(0, Difference(Bits(a), Bits(b)));
  }

  /** A run of the register from zero over at most sixteen arbitrary bits, with
      zeros before and after, returns to zero only if they are zeros too. */
  lemma BurstNonzero(before: seq<bool>, burst: seq<bool>, after: seq<bool>)
    requires true !in before && true !in after
    requires |burst| <= 16
    ensures FeedAll(0, before + (burst + after)) == 0 <==> true !in burst
  {
    hide FeedAll, Word, Xor, ShiftN;
    FeedConcat(0, before, burst + after);
    FeedZeros(0, before);
    FeedConcat(0, burst, after);
    FeedIsShift(0, burst);
    WordBelow(burst);
    XorZero(Word(burst), 0);
    ShiftNZero(Word(burst), |burst|);
    FeedZeros(FeedAll(0, burst), after);
  }

  /** Every change confined to sixteen consecutive wire bits is caught. */
  lemma DetectsBursts(a: seq<octet>, b: seq<octet>, p: nat)
    requires |a| == |b| && a != b && FcsOk(a)
    requires forall i | 0 <= i < 8 * |a| && !(p <= i < p + 16) :: Bits(a)[i] == Bits(b)[i]
    ensures !FcsOk(b)
  {
    hide FeedAll, Register, Bits, FcsOk;
    var d := Difference(Bits(a), Bits(b));
    var lo := if p < |d| then p else |d|;
    var hi := if p + 16 < |d| then p + 16 else |d|;
    assert d == d[..lo] + (d[lo..hi] + d[hi..]);
    if true !in d[lo..hi] {
      forall i | 0 <= i < |d|
        ensures Bits(a)[i] == Bits(b)[i]
      {
        assert lo <= i < hi ==> d[lo..hi][i - lo] == d[i];
      }
      BitsInjective(a, b);
    }
    BurstNonzero(d[..lo], d[lo..hi], d[hi..]);
    GoodTogether(a, b);
  }
}
