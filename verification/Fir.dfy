/** Ring-buffered filters over exact reals: the decimating FIR
    (server/src/radio/dsp.rs:896-916) against direct convolution, and the boxcar
    (server/src/ais/demod.rs:177-187) against the direct window sum. */
module Fir {
  import opened Wrappers
  import opened Basics

  datatype Complex = Complex(re: real, im: real)

  const ZERO := Complex(0.0, 0.0)

  /** A sample of a stream, zero outside it. */
  function At<T>(stream: seq<T>, i: int, zero: T): T {
    if 0 <= i < |stream| then stream[i] else zero
  }

  // ----- The ring -----

  /** Which sample of a stream of n0 the slot of a ring holds. */
  function Held(slot: int, size: int, write: int, n0: int): int {
    n0 - write + slot - (if slot < write then 0 else size)
  }

  /** A ring with the last samples of a stream, zeros before its start. */
  ghost predicate IsRing<T>(ring: seq<T>, write: int, stream: seq<T>, zero: T) {
    0 <= write < |ring|
    && forall j | 0 <= j < |ring| :: ring[j] == At(stream, Held(j, |ring|, write, |stream|), zero)
  }

  function Advance(write: int, size: int): int
    requires 0 <= write < size
  {
    if write + 1 == size then 0 else write + 1
  }

  lemma AdvanceIsMod(write: int, size: int)
    requires 0 <= write < size
    ensures (write + 1) % size == Advance(write, size)
  {}

  lemma BackIsMod(write: int, size: int)
    requires 0 <= write < size
    ensures (write + size - 1) % size == if write == 0 then size - 1 else write - 1
  {
    if write > 0 {
      WrapOnce(write - 1, size);
    }
  }

  lemma WrapOnce(a: int, size: int)
    requires 0 <= a < size
    ensures (a + size) % size == a
  {
    var q, r := (a + size) / size, (a + size) % size;
    assert size * (q - 1) == a - r;
    if q > 1 {
      AtLeastSize(size, q - 1);
    } else if q < 1 {
      AtLeastSize(size, 1 - q);
    }
  }

  lemma AtLeastSize(size: int, k: int)
    requires size > 0 && k >= 1
    ensures size * k >= size
  {}

  lemma RingAdvances<T>(ring: seq<T>, write: int, stream: seq<T>, x: T, zero: T)
    requires IsRing(ring, write, stream, zero)
    ensures IsRing(ring[write := x], Advance(write, |ring|), stream + [x], zero)
  {
    var r, w := ring[write := x], Advance(write, |ring|);
    forall j | 0 <= j < |ring|
      ensures r[j] == At(stream + [x], Held(j, |ring|, w, |stream| + 1), zero)
    {
      if j != write {
        assert r[j] == At(stream, Held(j, |ring|, write, |stream|), zero);
      }
    }
  }

  // ----- Convolution -----

  function Scale(h: real, s: Complex): Complex {
    Complex(h * s.re, h * s.im)
  }

  function Add(a: Complex, b: Complex): Complex {
    Complex(a.re + b.re, a.im + b.im)
  }

  /** The first k terms of the convolution at time i. */
  function Convolve(taps: seq<real>, stream: seq<Complex>, i: int, k: nat): Complex
    requires k <= |taps|
  {
    if k == 0 then ZERO else
    Add(Convolve(taps, stream, i, k - 1), Scale(taps[k - 1], At(stream, i - (k - 1), ZERO)))
  }

  /** The filter output at time i. */
  function Filtered(taps: seq<real>, stream: seq<Complex>, i: int): Complex {
    Convolve(taps, stream, i, |taps|)
  }

  predicate IsImpulse(stream: seq<Complex>, p: nat, z: Complex) {
    p < |stream| && stream[p] == z && forall j | 0 <= j < |stream| && j != p :: stream[j] == Complex(0.0, 0.0)
  }

  lemma {:induction false} ImpulseConvolved(taps: seq<real>, stream: seq<Complex>, p: nat, z: Complex, i: int, k: nat)
    requires k <= |taps| && IsImpulse(stream, p, z)
    ensures Convolve(taps, stream, i, k)
        == if 0 <= i - p < k then Complex(taps[i - p] * z.re, taps[i - p] * z.im) else Complex(0.0, 0.0)
  {
    if k == 0 {
    } else {
      ImpulseConvolved(taps, stream, p, z, i, k - 1);
      var s := At(stream, i - (k - 1), ZERO);
      assert s == if i - (k - 1) == p then z else ZERO;
    }
  }

  /** A single sample z comes out as z times one tap after the other. */
  lemma ImpulseResponse(taps: seq<real>, stream: seq<Complex>, p: nat, z: Complex, i: int)
    requires IsImpulse(stream, p, z)
    ensures Filtered(taps, stream, i)
        == if 0 <= i - p < |taps| then Complex(taps[i - p] * z.re, taps[i - p] * z.im) else Complex(0.0, 0.0)
  {
    ImpulseConvolved(taps, stream, p, z, i, |taps|);
  }

  ghost predicate IsSumOf(c: seq<Complex>, a: seq<Complex>, b: seq<Complex>) {
    |a| == |b| == |c| && forall j | 0 <= j < |c| :: c[j] == Complex(a[j].re + b[j].re, a[j].im + b[j].im)
  }

  lemma {:induction false} ConvolveAdds(taps: seq<real>, a: seq<Complex>, b: seq<Complex>, c: seq<Complex>, i: int,
                                        k: nat)
    requires k <= |taps| && IsSumOf(c, a, b)
    ensures var (x, y) := (Convolve(taps, a, i, k), Convolve(taps, b, i, k));
            Convolve(taps, c, i, k) == Complex(x.re + y.re, x.im + y.im)
  {
    if k == 0 {
    } else {
      ConvolveAdds(taps, a, b, c, i, k - 1);
      ScaleAdds(taps[k - 1], At(a, i - (k - 1), ZERO), At(b, i - (k - 1), ZERO));
      hide Scale;
      assert At(c, i - (k - 1), ZERO) == Add(At(a, i - (k - 1), ZERO), At(b, i - (k - 1), ZERO));
    }
  }

  lemma ScaleAdds(h: real, x: Complex, y: Complex)
    ensures Scale(h, Add(x, y)) == Add(Scale(h, x), Scale(h, y))
  {}

  /** What the filter makes of a sum is the sum of what it makes of its parts. */
  lemma FilterAdds(taps: seq<real>, a: seq<Complex>, b: seq<Complex>, c: seq<Complex>, i: int)
    requires IsSumOf(c, a, b)
    ensures var (x, y) := (Filtered(taps, a, i), Filtered(taps, b, i));
            Filtered(taps, c, i) == Complex(x.re + y.re, x.im + y.im)
  {
    ConvolveAdds(taps, a, b, c, i, |taps|);
  }

  /** Later samples do not matter. */
  lemma {:induction false} ConvolvePrefix(taps: seq<real>, stream: seq<Complex>, more: seq<Complex>, i: int, k: nat)
    requires k <= |taps| && i < |stream|
    ensures Convolve(taps, stream + more, i, k) == Convolve(taps, stream, i, k)
  {
    if k == 0 {
    } else {
      ConvolvePrefix(taps, stream, more, i, k - 1);
    }
  }

  lemma ConvolveNone(taps: seq<real>, stream: seq<Complex>, i: int)
    ensures Convolve(taps, stream, i, 0) == ZERO
  {}

  lemma ConvolveNext(taps: seq<real>, stream: seq<Complex>, i: int, k: nat)
    requires k < |taps|
    ensures var (c, s) := (Convolve(taps, stream, i, k), At(stream, i - k, ZERO));
            Convolve(taps, stream, i, k + 1) == Complex(c.re + taps[k] * s.re, c.im + taps[k] * s.im)
  {}

  class FirDecimator {
    const taps: seq<real>
    const hist: array<Complex>
    const decim: nat
    var widx: int
    var counter: nat
    /** All samples pushed, and how many outputs they gave. */
    ghost var stream: seq<Complex>
    ghost var outputs: nat

    ghost predicate Valid()
      reads this, hist
    {
      && hist.Length == |taps|
      && IsRing(hist[..], widx, stream, ZERO)
      && |stream| == GroupEnd(outputs, decim) + counter
      && counter < AtLeastOne(decim)
    }

    constructor (taps: seq<real>, decim: nat)
      requires taps != []
      ensures Valid() && stream == [] && outputs == 0 && this.taps == taps && this.decim == decim
      ensures fresh(hist)
    {
      this.taps, this.decim := taps, decim;
      hist := new Complex[|taps|](_ => ZERO);
      widx, counter := 0, 0;
      stream, outputs := [], 0;
    }

    method Push(x: Complex) returns (out: Option<Complex>)
      requires Valid()
      modifies this, hist
      ensures Valid() && stream == old(stream) + [x]
      ensures out.Some? <==> outputs == old(outputs) + 1
      ensures out.None? <==> outputs == old(outputs)
      ensures out.Some? ==>
        |stream| == GroupEnd(outputs, decim) && out.value == Filtered(taps, stream, |stream| - 1)
    {
      hide IsRing, Convolve, GroupEnd;
      ghost var before := hist[..];
      RingBounds(before, widx, stream, ZERO);
      RingAdvances(before, widx, stream, x, ZERO);
      AdvanceIsMod(widx, hist.Length);
      hist[widx] := x;
      assert hist[..] == before[widx := x];
      widx := (widx + 1) % hist.Length;
      stream := stream + [x];
      counter := counter + 1;
      if counter < decim {
        return None;
      }
      GroupFull(outputs, decim);
      counter := 0;
      outputs := outputs + 1;
      var acc := Accumulate();
      out := Some(acc);
    }

    /** Walk the ring from the newest sample back, one tap each. */
    method Accumulate() returns (acc: Complex)
      requires hist.Length == |taps| && IsRing(hist[..], widx, stream, ZERO)
      ensures acc == Filtered(taps, stream, |stream| - 1)
    {
      hide Convolve, Add, Scale;
      var n := hist.Length;
      acc := ZERO;
      ConvolveNone(taps, stream, |stream| - 1);
      BackIsMod(widx, n);
      var idx := (widx + n - 1) % n;
      for k := 0 to |taps|
        invariant 0 <= idx < n
        invariant k < n ==> Held(idx, n, widx, |stream|) == |stream| - 1 - k
        invariant acc == Convolve(taps, stream, |stream| - 1, k)
      {
        var s := hist[idx];
        assert s == hist[..][idx] == At(stream, |stream| - 1 - k, ZERO);
        ConvolveNext(taps, stream, |stream| - 1, k);
        acc := Complex(acc.re + taps[k] * s.re, acc.im + taps[k] * s.im);
        idx := if idx == 0 then n - 1 else idx - 1;
      }
    }
  }

  /** How many samples fill a number of groups. */
  function GroupEnd(groups: nat, decim: nat): nat {
    groups * AtLeastOne(decim)
  }

  lemma GroupFull(groups: nat, decim: nat)
    ensures GroupEnd(groups + 1, decim) == GroupEnd(groups, decim) + AtLeastOne(decim)
  {}

  lemma RingBounds<T>(ring: seq<T>, write: int, stream: seq<T>, zero: T)
    requires IsRing(ring, write, stream, zero)
    ensures 0 <= write < |ring|
  {}

  lemma GroupEndIs(decim: nat)
    ensures forall n: nat :: GroupEnd(n, decim) == n * (if decim == 0 then 1 else decim)
  {}

  /** However the samples are handed over, output m is the convolution at input
      (m + 1) * decim - 1, and there is one per full group. */
  method FilterAll(taps: seq<real>, decim: nat, stream: seq<Complex>) returns (out: seq<Complex>)
    requires taps != []
    ensures var group := if decim == 0 then 1 else decim;
            && |out| * group <= |stream| < (|out| + 1) * group
            && forall m: nat | m < |out| :: out[m] == Filtered(taps, stream, (m + 1) * group - 1)
  {
    hide IsRing, Filtered, GroupEnd;
    var f := new FirDecimator(taps, decim);
    out := [];
    for i := 0 to |stream|
      invariant f.Valid() && fresh(f) && fresh(f.hist) && f.taps == taps && f.decim == decim
      invariant f.stream == stream[..i] && f.outputs == |out|
      invariant forall m: nat | m < |out| :: out[m] == Filtered(taps, stream, GroupEnd(m + 1, decim) - 1)
    {
      var o := f.Push(stream[i]);
      assert f.stream == stream[..i + 1];
      if o.Some? {
        FilteredPrefix(taps, stream, i);
        out := out + [o.value];
      }
    }
    assert stream[..|stream|] == stream;
    GroupFull(|out|, decim);
    GroupEndIs(decim);
  }

  lemma FilteredPrefix(taps: seq<real>, stream: seq<Complex>, i: nat)
    requires i < |stream|
    ensures Filtered(taps, stream[..i + 1], i) == Filtered(taps, stream, i)
  {
    assert stream == stream[..i + 1] + stream[i + 1..];
    ConvolvePrefix(taps, stream[..i + 1], stream[i + 1..], i, |taps|);
  }

  // ----- Boxcar -----

  /** The sum of the last k samples before time i. */
  function WindowSum(stream: seq<real>, i: int, k: nat): real {
    if k == 0 then 0.0 else WindowSum(stream, i, k - 1) + At(stream, i - k, 0.0)
  }

  lemma {:induction false} WindowSlides(stream: seq<real>, x: real, k: nat)
    ensures WindowSum(stream + [x], |stream| + 1, k + 1) == WindowSum(stream, |stream|, k) + x
  {
    if k > 0 {
      WindowSlides(stream, x, k - 1);
    } else {
      assert WindowSum(stream + [x], |stream| + 1, 1) == WindowSum(stream + [x], |stream| + 1, 0) + x;
    }
  }

  class Boxcar {
    const buf: array<real>
    var idx: int
    var sum: real
    ghost var stream: seq<real>

    ghost predicate Valid()
      reads this, buf
    {
      IsRing(buf[..], idx, stream, 0.0) && sum == WindowSum(stream, |stream|, buf.Length)
    }

    constructor (len: nat)
      ensures Valid() && stream == [] && buf.Length == AtLeastOne(len) && fresh(buf)
    {
      var size := AtLeastOne(len);
      buf := new real[size](_ => 0.0);
      idx, sum, stream := 0, 0.0, [];
      new;
      EmptyWindow(size);
    }

    /** The mean of the last window, by one addition and one subtraction. */
    method Push(x: real) returns (mean: real)
      requires Valid()
      modifies this, buf
      ensures Valid() && stream == old(stream) + [x]
      ensures mean == WindowSum(stream, |stream|, buf.Length) / buf.Length as real
    {
      ghost var n := buf.Length;
      assert buf[idx] == buf[..][idx] == At(stream, |stream| - n, 0.0);
      WindowSlides(stream, x, n - 1);
      RingAdvances(buf[..], idx, stream, x, 0.0);
      AdvanceIsMod(idx, n);
      sum := sum + x - buf[idx];
      buf[idx] := x;
      idx := (idx + 1) % buf.Length;
      stream := stream + [x];
      mean := sum / buf.Length as real;
    }
  }

  lemma {:induction false} EmptyWindow(k: nat)
    ensures WindowSum([], 0, k) == 0.0
  {
    if k == 0 {
    } else {
      EmptyWindow(k - 1);
    }
  }
}
