/** The order of the frame check register: two inverted bits go unnoticed exactly
    when they are a multiple of 32767 bits apart. */
module FcsOrder {
  import opened Octets
  import opened Fcs

  /** x to the power 0; in the reflected register the highest place. */
  const ONE: bv16 := 0x8000

  const ORDER := 32767

  /** The powers of x modulo the generator. */
  function Power(n: nat): bv16 {
    ShiftN(ONE, n)
  }

  // ----- Products of powers -----

  predicate Has(w: bv16, mask: bv16) {
    w & mask != 0
  }

  function Next(acc: bv16, has: bool, v: bv16): bv16 {
    Xor(Shift(acc), if has then v else 0)
  }

  /** Four steps of Horner's rule, by the four places of w from a mask on. */
  function Four(acc: bv16, w: bv16, v: bv16, mask: bv16): bv16 {
    Next(Next(Next(Next(acc, Has(w, mask), v), Has(w, mask << 1), v), Has(w, mask << 2), v), Has(w, mask << 3), v)
  }

  /** The word w as a polynomial, highest degree in its lowest place, applied to v. */
  function Apply(w: bv16, v: bv16): bv16 {
    Four(Four(Four(Four(0, w, v, 0x1), w, v, 0x10), w, v, 0x100), w, v, 0x1000)
  }

  lemma {:induction false} ShiftNLinear(a: bv16, b: bv16, n: nat)
    ensures ShiftN(Xor(a, b), n) == Xor(ShiftN(a, n), ShiftN(b, n))
  {
    hide Shift, Xor;
    if n == 0 {
    } else {
      ShiftNLinear(a, b, n - 1);
      ShiftLinear(ShiftN(a, n - 1), ShiftN(b, n - 1));
    }
  }

  lemma {:induction false} ShiftNAdds(c: bv16, m: nat, n: nat)
    ensures ShiftN(c, m + n) == ShiftN(ShiftN(c, n), m)
  {
    hide Shift;
    if m == 0 {
    } else {
      ShiftNAdds(c, m - 1, n);
    }
  }

  lemma {:induction false} ShiftNInjective(a: bv16, b: bv16, n: nat)
    requires ShiftN(a, n) == ShiftN(b, n)
    ensures a == b
  {
    hide ShiftN, Xor;
    ShiftNLinear(a, b, n);
    ShiftNZero(Xor(a, b), n);
    XorZero(ShiftN(a, n), ShiftN(b, n));
    XorZero(a, b);
  }

  lemma NextShifts(acc: bv16, has: bool, v: bv16, n: nat)
    ensures ShiftN(Next(acc, has, v), n) == Next(ShiftN(acc, n), has, ShiftN(v, n))
  {
    hide Shift, Xor, ShiftN;
    ShiftNZero(0, n);
    ShiftNLinear(Shift(acc), if has then v else 0, n);
    ShiftNFirst(acc, n);
  }

  lemma FourShifts(acc: bv16, w: bv16, v: bv16, mask: bv16, n: nat)
    ensures ShiftN(Four(acc, w, v, mask), n) == Four(ShiftN(acc, n), w, ShiftN(v, n), mask)
  {
    hide Next, ShiftN, Has;
    var a := Next(acc, Has(w, mask), v);
    var b := Next(a, Has(w, mask << 1), v);
    var c := Next(b, Has(w, mask << 2), v);
    NextShifts(acc, Has(w, mask), v, n);
    NextShifts(a, Has(w, mask << 1), v, n);
    NextShifts(b, Has(w, mask << 2), v, n);
    NextShifts(c, Has(w, mask << 3), v, n);
  }

  /** Shifting commutes with every polynomial. */
  lemma ApplyShifts(w: bv16, v: bv16, n: nat)
    ensures ShiftN(Apply(w, v), n) == Apply(w, ShiftN(v, n))
  {
    hide Four, ShiftN;
    var a := Four(0, w, v, 0x1);
    var b := Four(a, w, v, 0x10);
    var c := Four(b, w, v, 0x100);
    ShiftNZero(0, n);
    FourShifts(0, w, v, 0x1, n);
    FourShifts(a, w, v, 0x10, n);
    FourShifts(b, w, v, 0x100, n);
    FourShifts(c, w, v, 0x1000, n);
  }

  /** Powers multiply by adding exponents, for a word that is itself its own
      polynomial applied to one. */
  lemma Multiply(m: nat, n: nat, w: bv16, v: bv16, product: bv16)
    requires Power(m) == w && Power(n) == v && Apply(w, ONE) == w && Apply(w, v) == product
    ensures Power(m + n) == product
  {
    hide ShiftN, Apply;
    ShiftNAdds(ONE, n, m);
    ApplyShifts(w, ONE, n);
  }

  // ----- Some powers -----

  /** A product, with the values on the way. */
  lemma Product(w: bv16, v: bv16, a: bv16, b: bv16, c: bv16, product: bv16)
    requires Four(0, w, v, 0x1) == a && Four(a, w, v, 0x10) == b
    requires Four(b, w, v, 0x100) == c && Four(c, w, v, 0x1000) == product
    ensures Apply(w, v) == product
  {
    hide Four;
  }

  lemma FirstPowers()
    ensures Power(0) == ONE && Power(1) == 0x4000
  {
    assert ShiftN(ONE, 0) == ONE;
  }

  /** Squaring, five times each: the last power is x again. */
  lemma LowSquares()
    ensures Power(2) == 0x2000
    ensures Power(4) == 0x0800
    ensures Power(8) == 0x0080
    ensures Power(16) == 0x8408
    ensures Power(32) == 0x0CEC
  {
    hide ShiftN, Apply;
    FirstPowers();
    Product(0x4000, ONE, 0x0000, 0x0000, 0x0000, 0x4000);
    Product(0x4000, 0x4000, 0x0000, 0x0000, 0x0000, 0x2000);
    Multiply(1, 1, 0x4000, 0x4000, 0x2000);
    Product(0x2000, ONE, 0x0000, 0x0000, 0x0000, 0x2000);
    Product(0x2000, 0x2000, 0x0000, 0x0000, 0x0000, 0x0800);
    Multiply(2, 2, 0x2000, 0x2000, 0x0800);
    Product(0x0800, ONE, 0x0000, 0x0000, 0x8000, 0x0800);
    Product(0x0800, 0x0800, 0x0000, 0x0000, 0x0800, 0x0080);
    Multiply(4, 4, 0x0800, 0x0800, 0x0080);
    Product(0x0080, ONE, 0x0000, 0x8000, 0x0800, 0x0080);
    Product(0x0080, 0x0080, 0x0000, 0x0080, 0x0008, 0x8408);
    Multiply(8, 8, 0x0080, 0x0080, 0x8408);
    Product(0x8408, ONE, 0x8000, 0x0800, 0x4080, 0x8408);
    Product(0x8408, 0x8408, 0x8408, 0x8C48, 0xCEC8, 0x0CEC);
    Multiply(16, 16, 0x8408, 0x8408, 0x0CEC);
  }

  lemma MiddleSquares()
    ensures Power(64) == 0x861D
    ensures Power(128) == 0x3F75
    ensures Power(256) == 0x9471
    ensures Power(512) == 0x3FC8
    ensures Power(1024) == 0x236C
  {
    hide ShiftN, Apply;
    LowSquares();
    Product(0x0CEC, ONE, 0xC000, 0xEC00, 0xCEC0, 0x0CEC);
    Product(0x0CEC, 0x0CEC, 0x0A9A, 0xAC02, 0x2158, 0x861D);
    Multiply(32, 32, 0x0CEC, 0x0CEC, 0x861D);
    Product(0x861D, ONE, 0xD000, 0x1D00, 0x61D0, 0x861D);
    Product(0x861D, 0x861D, 0xF4D2, 0x9B86, 0xCE3B, 0x3F75);
    Multiply(64, 64, 0x861D, 0x861D, 0x3F75);
    Product(0x3F75, ONE, 0x5000, 0x7500, 0xF750, 0x3F75);
    Product(0x3F75, 0x3F75, 0x3956, 0x141C, 0x8CB7, 0x9471);
    Multiply(128, 128, 0x3F75, 0x3F75, 0x9471);
    Product(0x9471, ONE, 0x1000, 0x7100, 0x4710, 0x9471);
    Product(0x9471, 0x9471, 0x338C, 0x5F90, 0xCBC9, 0x3FC8);
    Multiply(256, 256, 0x9471, 0x9471, 0x3FC8);
    Product(0x3FC8, ONE, 0x8000, 0xC800, 0xFC80, 0x3FC8);
    Product(0x3FC8, 0x3FC8, 0x3FC8, 0xA7D8, 0xA652, 0x236C);
    Multiply(512, 512, 0x3FC8, 0x3FC8, 0x236C);
  }

  lemma HighSquares()
    ensures Power(2048) == 0x0ABF
    ensures Power(4096) == 0x7955
    ensures Power(8192) == 0x3811
    ensures Power(16384) == 0x1A22
    ensures Power(32768) == 0x4000
  {
    hide ShiftN, Apply;
    MiddleSquares();
    Product(0x236C, ONE, 0xC000, 0x6C00, 0x36C0, 0x236C);
    Product(0x236C, 0x236C, 0x32DA, 0xBF4A, 0x2640, 0x0ABF);
    Multiply(1024, 1024, 0x236C, 0x236C, 0x0ABF);
    Product(0x0ABF, ONE, 0xF000, 0xBF00, 0xABF0, 0x0ABF);
    Product(0x0ABF, 0x0ABF, 0xA912, 0x03D6, 0xAD27, 0x7955);
    Multiply(2048, 2048, 0x0ABF, 0x0ABF, 0x7955);
    Product(0x7955, ONE, 0x5000, 0x5500, 0x9550, 0x7955);
    Product(0x7955, 0x7955, 0x1282, 0x32A8, 0x5457, 0x3811);
    Multiply(4096, 4096, 0x7955, 0x7955, 0x3811);
    Product(0x3811, ONE, 0x1000, 0x1100, 0x8110, 0x3811);
    Product(0x3811, 0x3811, 0x2600, 0x2460, 0x3A57, 0x1A22);
    Multiply(8192, 8192, 0x3811, 0x3811, 0x1A22);
    Product(0x1A22, ONE, 0x2000, 0x2200, 0xA220, 0x1A22);
    Product(0x1A22, 0x1A22, 0x8280, 0x8AA8, 0x1400, 0x4000);
    Multiply(16384, 16384, 0x1A22, 0x1A22, 0x4000);
  }

  lemma Power217()
    ensures Power(217) == 0xC712
  {
    hide ShiftN, Apply;
    FirstPowers();
    LowSquares();
    MiddleSquares();
    HighSquares();
    Product(0x3F75, ONE, 0x5000, 0x7500, 0xF750, 0x3F75);
    Product(0x3F75, 0x861D, 0x72CF, 0xE1EF, 0x6EC0, 0xD0A6);
    Multiply(128, 64, 0x3F75, 0x861D, 0xD0A6);
    Product(0xD0A6, ONE, 0x6000, 0xA600, 0x0A60, 0xD0A6);
    Product(0xD0A6, 0x8408, 0x6306, 0xC03C, 0xCA0F, 0x2DA2);
    Multiply(192, 16, 0xD0A6, 0x8408, 0x2DA2);
    Product(0x2DA2, ONE, 0x2000, 0xA200, 0xDA20, 0x2DA2);
    Product(0x2DA2, 0x0080, 0x0020, 0x00A2, 0x21D8, 0x8635);
    Multiply(208, 8, 0x2DA2, 0x0080, 0x8635);
    Product(0x8635, ONE, 0x5000, 0x3500, 0x6350, 0x8635);
    Product(0x8635, 0x4000, 0x2800, 0x1A80, 0x31A8, 0xC712);
    Multiply(216, 1, 0x8635, 0x4000, 0xC712);
  }

  lemma Power1057()
    ensures Power(1057) == 0xF54F
  {
    hide ShiftN, Apply;
    FirstPowers();
    LowSquares();
    MiddleSquares();
    HighSquares();
    Product(0x236C, ONE, 0xC000, 0x6C00, 0x36C0, 0x236C);
    Product(0x236C, 0x0CEC, 0x0A9A, 0xA0EE, 0x6BAE, 0xE28F);
    Multiply(1024, 32, 0x236C, 0x0CEC, 0xE28F);
    Product(0xE28F, ONE, 0xF000, 0x8F00, 0x28F0, 0xE28F);
    Product(0xE28F, 0x4000, 0x7800, 0x4780, 0x1478, 0xF54F);
    Multiply(1056, 1, 0xE28F, 0x4000, 0xF54F);
  }

  lemma Power4681()
    ensures Power(4681) == 0x4234
  {
    hide ShiftN, Apply;
    FirstPowers();
    LowSquares();
    MiddleSquares();
    HighSquares();
    Product(0x7955, ONE, 0x5000, 0x5500, 0x9550, 0x7955);
    Product(0x7955, 0x3FC8, 0x181D, 0xCF11, 0x2441, 0x052A);
    Multiply(4096, 512, 0x7955, 0x3FC8, 0x052A);
    Product(0x052A, ONE, 0xA000, 0x2A00, 0x52A0, 0x052A);
    Product(0x052A, 0x861D, 0xE59E, 0x8AD4, 0x3866, 0x6080);
    Multiply(4608, 64, 0x052A, 0x861D, 0x6080);
    Product(0x6080, ONE, 0x0000, 0x8000, 0x0800, 0x6080);
    Product(0x6080, 0x0080, 0x0000, 0x0080, 0x0008, 0x8468);
    Multiply(4672, 8, 0x6080, 0x0080, 0x8468);
    Product(0x8468, ONE, 0x8000, 0x6800, 0x4680, 0x8468);
    Product(0x8468, 0x4000, 0x4000, 0x3400, 0x2340, 0x4234);
    Multiply(4680, 1, 0x8468, 0x4000, 0x4234);
  }

  // ----- Periods -----

  predicate IsPeriod(n: nat) {
    Power(n) == ONE
  }

  lemma OrderIsPeriod()
    ensures IsPeriod(ORDER)
  {
    hide ShiftN;
    FirstPowers();
    HighSquares();
    ShiftNAdds(ONE, 1, ORDER);
    ShiftNAdds(ONE, 1, 0);
    ShiftNInjective(Power(ORDER), ONE, 1);
  }

  lemma PeriodsSubtract(a: nat, b: nat)
    requires IsPeriod(a + b) && IsPeriod(b)
    ensures IsPeriod(a)
  {
    hide ShiftN;
    ShiftNAdds(ONE, a, b);
  }

  lemma {:induction false} Multiples(g: nat, t: nat)
    requires IsPeriod(g)
    ensures IsPeriod(g * t)
  {
    hide ShiftN;
    if t == 0 {
      FirstPowers();
    } else {
      Multiples(g, t - 1);
      assert g * t == g * (t - 1) + g;
      ShiftNAdds(ONE, g * (t - 1), g);
    }
  }

  /** Two periods have a common measure that is one too. */
  lemma {:induction false} Measure(a: nat, b: nat) returns (g: nat, i: nat, j: nat)
    requires a > 0 && b > 0 && IsPeriod(a) && IsPeriod(b)
    ensures g > 0 && IsPeriod(g) && a == g * i && b == g * j
    decreases a + b
  {
    hide IsPeriod;
    if a == b {
      g, i, j := a, 1, 1;
    } else if a > b {
      PeriodsSubtract(a - b, b);
      g, i, j := Measure(a - b, b);
      assert g * (i + j) == g * i + g * j;
      i := i + j;
    } else {
      PeriodsSubtract(b - a, a);
      g, i, j := Measure(a, b - a);
      assert g * (i + j) == g * i + g * j;
      j := i + j;
    }
  }

  // ----- The divisors of the order, 7 * 31 * 151 -----

  predicate NoneDivide(first: nat, count: nat)
    requires first > 0
    decreases count
  {
    count == 0 || (ORDER % first != 0 && NoneDivide(first + 1, count - 1))
  }

  lemma {:induction false} NotDividing(first: nat, count: nat, d: nat)
    requires first > 0 && NoneDivide(first, count) && first <= d < first + count
    ensures ORDER % d != 0
    decreases count
  {
    if d == first {
    } else {
      NotDividing(first + 1, count - 1, d);
    }
  }

  lemma {:induction false} NoneDivideJoin(first: nat, m: nat, n: nat)
    requires first > 0 && NoneDivide(first, m) && NoneDivide(first + m, n)
    ensures NoneDivide(first, m + n)
    decreases m
  {
    if m == 0 {
    } else {
      NoneDivideJoin(first + 1, m - 1, n);
    }
  }

  lemma None2To30()
    ensures NoneDivide(2, 5) && NoneDivide(8, 23)
  {
    assert NoneDivide(2, 5);
    assert NoneDivide(8, 8);
    assert NoneDivide(16, 8);
    assert NoneDivide(24, 7);
    hide NoneDivide;
    NoneDivideJoin(8, 8, 8);
    NoneDivideJoin(8, 16, 7);
  }

  lemma None32To63()
    ensures NoneDivide(32, 32)
  {
    assert NoneDivide(32, 8);
    assert NoneDivide(40, 8);
    assert NoneDivide(48, 8);
    assert NoneDivide(56, 8);
    hide NoneDivide;
    NoneDivideJoin(32, 8, 8);
    NoneDivideJoin(32, 16, 8);
    NoneDivideJoin(32, 24, 8);
  }

  lemma None64To95()
    ensures NoneDivide(64, 32)
  {
    assert NoneDivide(64, 8);
    assert NoneDivide(72, 8);
    assert NoneDivide(80, 8);
    assert NoneDivide(88, 8);
    hide NoneDivide;
    NoneDivideJoin(64, 8, 8);
    NoneDivideJoin(64, 16, 8);
    NoneDivideJoin(64, 24, 8);
  }

  lemma None96To127()
    ensures NoneDivide(96, 32)
  {
    assert NoneDivide(96, 8);
    assert NoneDivide(104, 8);
    assert NoneDivide(112, 8);
    assert NoneDivide(120, 8);
    hide NoneDivide;
    NoneDivideJoin(96, 8, 8);
    NoneDivideJoin(96, 16, 8);
    NoneDivideJoin(96, 24, 8);
  }

  lemma None128To150()
    ensures NoneDivide(128, 23)
  {
    assert NoneDivide(128, 8);
    assert NoneDivide(136, 8);
    assert NoneDivide(144, 7);
    hide NoneDivide;
    NoneDivideJoin(128, 8, 8);
    NoneDivideJoin(128, 16, 7);
  }

  lemma None152To181()
    ensures NoneDivide(152, 30)
  {
    assert NoneDivide(152, 8);
    assert NoneDivide(160, 8);
    assert NoneDivide(168, 8);
    assert NoneDivide(176, 6);
    hide NoneDivide;
    NoneDivideJoin(152, 8, 8);
    NoneDivideJoin(152, 16, 8);
    NoneDivideJoin(152, 24, 6);
  }

  lemma SmallDivisors(d: nat)
    requires 0 < d <= 181 && ORDER % d == 0
    ensures d == 1 || d == 7 || d == 31 || d == 151
  {
    hide NoneDivide;
    None2To30();
    None32To63();
    None64To95();
    None96To127();
    None128To150();
    None152To181();
    if 2 <= d < 7 {
      NotDividing(2, 5, d);
    } else if 7 < d < 31 {
      NotDividing(8, 23, d);
    } else if 31 < d < 64 {
      NotDividing(32, 32, d);
    } else if 64 <= d < 96 {
      NotDividing(64, 32, d);
    } else if 96 <= d < 128 {
      NotDividing(96, 32, d);
    } else if 128 <= d < 151 {
      NotDividing(128, 23, d);
    } else if 151 < d {
      NotDividing(152, 30, d);
    }
  }

  lemma Half(g: nat, j: nat)
    requires g * j == ORDER
    ensures 0 < g && 0 < j && (g <= 181 || j <= 181)
  {
    if g > 181 && j > 181 {
      AtLeast(g, j);
    }
  }

  lemma AtLeast(g: nat, j: nat)
    requires g >= 182 && j >= 182
    ensures g * j >= 182 * 182
  {
    assert g * j == (g - 182) * j + 182 * j;
    assert (g - 182) * j >= 0;
  }

  lemma Divides(d: nat, e: nat)
    requires d > 0 && d * e == ORDER
    ensures ORDER % d == 0
  {
    var q, r := ORDER / d, ORDER % d;
    assert d * (e - q) == r;
    if e > q {
      Grows(d, e - q);
    } else if e < q {
      Grows(d, q - e);
    }
  }

  lemma Grows(d: nat, k: nat)
    requires k >= 1
    ensures d * k >= d
  {}

  /** A proper divisor of the order is a divisor of one of its three largest. */
  lemma ProperDivisor(g: nat, j: nat) returns (t: nat)
    requires g * j == ORDER && j > 1
    ensures g * t == 217 || g * t == 1057 || g * t == 4681
  {
    Half(g, j);
    if g <= 181 {
      Divides(g, j);
      SmallDivisors(g);
      t := if g == 1 then 217 else if g == 7 then 31 else 7;
    } else {
      assert j * g == ORDER;
      Divides(j, g);
      SmallDivisors(j);
      t := 1;
    }
  }

  /** x has order 32767: a power of x is one exactly when 32767 divides the exponent. */
  lemma {:induction false} Order(n: nat)
    ensures Power(n) == ONE <==> n % ORDER == 0
    decreases n
  {
    hide ShiftN;
    FirstPowers();
    OrderIsPeriod();
    if n == 0 {
    } else if n >= ORDER {
      Order(n - ORDER);
      if IsPeriod(n) {
        PeriodsSubtract(n - ORDER, ORDER);
      } else {
        ShiftNAdds(ONE, n - ORDER, ORDER);
      }
    } else if IsPeriod(n) {
      var g, i, j := Measure(n, ORDER);
      if j <= 1 {
        Grows(g, i);
      }
      var t := ProperDivisor(g, j);
      Multiples(g, t);
      Power217();
      Power1057();
      Power4681();
    }
  }

  // ----- Two inverted bits -----

  function Silence(n: nat): (s: seq<bool>)
    ensures |s| == n && true !in s
  {
    seq(n, _ => false)
  }

  lemma {:induction false} FeedSilence(c: bv16, n: nat)
    ensures FeedAll(c, Silence(n)) == ShiftN(c, n)
    decreases n
  {
    hide Shift, Xor;
    if n == 0 {
    } else {
      assert Silence(n)[1..] == Silence(n - 1);
      XorZero(c, 0);
      FeedSilence(Feed(c, false), n - 1);
      ShiftNFirst(c, n - 1);
    }
  }

  /** A register started from zero is back at zero after two ones exactly when the
      order divides their distance. */
  lemma PairIsSilent(before: nat, gap: nat, after: nat)
    ensures FeedAll(0, Silence(before) + [true] + Silence(gap) + [true] + Silence(after)) == 0
        <==> (gap + 1) % ORDER == 0
  {
    hide Feed, FeedAll, ShiftN, Xor, Shift;
    var a, g, z := Silence(before), Silence(gap), Silence(after);
    FeedConcat(0, a + [true] + g + [true], z);
    FeedConcat(0, a + [true] + g, [true]);
    FeedConcat(0, a + [true], g);
    FeedConcat(0, a, [true]);
    FeedZeros(0, a);
    FeedBit(0, true);
    var one := Feed(0, true);
    FeedSilence(one, gap);
    var c := ShiftN(one, gap);
    FeedBit(c, true);
    FeedZeros(Feed(c, true), z);
    SecondOne(gap);
  }

  lemma FeedBit(c: bv16, bit: bool)
    ensures FeedAll(c, [bit]) == Feed(c, bit)
  {
    hide Feed;
    assert [bit][1..] == [];
  }

  lemma SecondOne(gap: nat)
    ensures Feed(ShiftN(Feed(0, true), gap), true) == 0 <==> (gap + 1) % ORDER == 0
  {
    hide Shift, Xor, ShiftN;
    var d := gap + 1;
    XorZero(0, 1);
    XorZero(1, 0);
    XorComm(0, 1);
    ShiftNFirst(1, gap);
    ShiftNNext(1, gap);
    var c := ShiftN(1, d);
    ShiftZero(Xor(c, 1));
    XorZero(c, 1);
    LowestIsPower();
    ShiftNAdds(ONE, d, 15);
    ShiftNAdds(ONE, 15, d);
    if c == 1 {
      ShiftNInjective(Power(d), ONE, 15);
    }
    Order(d);
  }

  lemma ShiftNNext(c: bv16, n: nat)
    ensures ShiftN(c, n + 1) == Shift(ShiftN(c, n))
  {
    hide Shift;
  }

  lemma LowestIsPower()
    ensures ShiftN(ONE, 15) == 1
  {
    assert ShiftN(ONE, 5) == 0x0400;
    assert ShiftN(ONE, 10) == 0x0020;
  }

  /** A good string with two wire bits inverted passes exactly when they are a
      multiple of 32767 bits apart, so never in a frame. */
  lemma DetectsDoubleFlips(a: seq<octet>, b: seq<octet>, i: nat, j: nat)
    requires |a| == |b| && FcsOk(a) && i < j < 8 * |a|
    requires forall k | 0 <= k < 8 * |a| :: (Bits(a)[k] != Bits(b)[k]) == (k == i || k == j)
    ensures FcsOk(b) <==> (j - i) % ORDER == 0
    ensures 8 * |a| <= ORDER ==> !FcsOk(b)
  {
    hide FeedAll, Register, Bits, FcsOk;
    var d := Difference(Bits(a), Bits(b));
    PairOf(d, i, j);
    PairIsSilent(i, j - i - 1, |d| - j - 1);
    GoodTogether(a, b);
  }

  lemma PairOf(d: seq<bool>, i: nat, j: nat)
    requires i < j < |d| && forall k | 0 <= k < |d| :: d[k] == (k == i || k == j)
    ensures d == Silence(i) + [true] + Silence(j - i - 1) + [true] + Silence(|d| - j - 1)
  {}
}
