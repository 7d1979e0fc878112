/** The streaming linear resampler (server/src/radio/dsp.rs:1010-1045) over exact
    reals, against interpolation of the whole signal. */
module Resampler {
  import opened Wrappers
  import opened Basics

  /** Linear interpolation of a signal at a time in samples. */
  function Interpolate(x: seq<real>, t: real): real
    requires 0.0 <= t < (|x| - 1) as real
  {
    var i := t.Floor;
    Blend(x[i], x[i + 1], t - i as real)
  }

  function Blend(a: real, b: real, f: real): real {
    a + (b - a) * f
  }

  /** An output instant falls exactly on the last of `total` samples. */
  ghost predicate Lands(step: real, total: nat) {
    exists k: nat :: Instant(k, step) == (total - 1) as real
  }

  function Instant(k: nat, step: real): real {
    k as real * step
  }

  /** The outputs of a whole signal: one interpolation per instant before its last
      sample, and no more. */
  ghost predicate IsResampled(out: seq<real>, x: seq<real>, step: real) {
    && (forall k: nat | k < |out| ::
          0.0 <= Instant(k, step) < (|x| - 1) as real && out[k] == Interpolate(x, Instant(k, step)))
    && (|x| > 0 ==> (|x| - 1) as real < Instant(|out|, step))
    && (|x| == 0 ==> out == [])
  }

  lemma InstantNext(k: nat, step: real)
    ensures Instant(k + 1, step) == Instant(k, step) + step
  {}

  lemma {:induction false} InstantMonotone(j: nat, k: nat, step: real)
    requires step > 0.0 && j <= k
    ensures 0.0 <= Instant(j, step) <= Instant(k, step)
    decreases k - j
  {
    if j < k {
      InstantNext(k - 1, step);
      InstantMonotone(j, k - 1, step);
    } else {
      NonNegative(k as real, step);
    }
  }

  lemma NonNegative(a: real, b: real)
    requires a >= 0.0 && b >= 0.0
    ensures a * b >= 0.0
  {}

  class LinearResampler {
    const step: real
    var nextT: real
    var last: real
    var primed: bool
    /** All samples taken in and all outputs given so far. */
    ghost var taken: seq<real>
    ghost var given: seq<real>

    ghost predicate Valid()
      reads this
    {
      && step > 0.0
      && nextT == Instant(|given|, step) - |taken| as real
      && primed == (taken != [])
      && (primed ==> last == taken[|taken| - 1])
      && IsResampled(given, taken, step)
    }

    constructor (fsIn: real, fsOut: real)
      requires fsIn > 0.0 && fsOut > 0.0
      ensures Valid() && taken == [] && given == [] && step == fsIn / fsOut
    {
      step, nextT, last, primed := fsIn / fsOut, 0.0, 0.0, false;
      taken, given := [], [];
    }

    /** One block. None stands for the source's index out of range. */
    method Process(input: seq<real>) returns (out: Option<seq<real>>)
      requires Valid()
      modifies this
      ensures out.Some? ==> Valid() && taken == old(taken) + input && given == old(given) + out.value
      ensures out == None <==> input != [] && Lands(step, |old(taken) + input|)
    {
      if input == [] {
        assert taken + input == taken && given + [] == given;
        return Some([]);
      }
      if !primed {
        last := input[0];
        primed := true;
      }
      EarlierFit(given, taken, input, step);
      var o, t := EmitBlock(input, last, nextT, step, taken, given);
      if o == None {
        return None;
      }
      nextT := t - |input| as real;
      last := input[|input| - 1];
      taken, given := taken + input, given + o.value;
      NoLanding(given, taken, step);
      return o;
    }
  }

  /** The loop over one block. */
  method EmitBlock(input: seq<real>, last: real, start: real, step: real, ghost taken: seq<real>,
                   ghost given: seq<real>)
    returns (out: Option<seq<real>>, nextT: real)
    requires step > 0.0 && input != [] && Fits(given, taken + input, step)
    requires start == Instant(|given|, step) - |taken| as real
    requires if taken == [] then start >= 0.0 else start > -1.0 && last == taken[|taken| - 1]
    ensures out == None ==> Lands(step, |taken + input|)
    ensures out.Some? ==>
      Fits(given + out.value, taken + input, step) && nextT > (|input| - 1) as real
      && nextT == Instant(|given + out.value|, step) - |taken| as real
  {
    hide Fits, Interpolate, Blend, Instant, StepsLeft;
    ghost var whole := taken + input;
    var o: seq<real> := [];
    assert given + o == given;
    nextT := start;
    while nextT <= (|input| - 1) as real
      invariant nextT == Instant(|given + o|, step) - |taken| as real
      invariant if taken == [] then nextT >= 0.0 else nextT > -1.0
      invariant Fits(given + o, whole, step)
      decreases StepsLeft(|input| as real - nextT, step)
    {
      var idx := nextT.Floor;
      var f := nextT - idx as real;
      if idx + 1 >= |input| {
        assert Instant(|given + o|, step) == (|whole| - 1) as real;
        return None, nextT;
      }
      var a := if idx < 0 then last else input[idx];
      var b := input[idx + 1];
      ghost var so := given + o;
      InterpolatesAt(taken, input, nextT, Instant(|so|, step), a, b);
      var y := Blend(a, b, f);
      FitsNext(so, whole, step, y);
      o := o + [y];
      assert given + o == so + [y];
      InstantNext(|so|, step);
      OneStepLess(|input| as real - nextT, step);
      nextT := nextT + step;
    }
    out := Some(o);
  }

  /** Between two samples the nearer one counts more: an instant a fraction f behind
      sample i gives 1 - f of it and f of the next. */
  lemma InterpolateWeighs(x: seq<real>, i: nat, f: real)
    requires i + 1 < |x| && 0.0 <= f < 1.0
    ensures Interpolate(x, i as real + f) == (1.0 - f) * x[i] + f * x[i + 1]
  {
    assert (i as real + f).Floor == i;
    assert (1.0 - f) * x[i] + f * x[i + 1] == x[i] + (x[i + 1] - x[i]) * f;
  }

  /** Output k is the signal at k steps, from the two samples around it. */
  lemma OutputAt(out: seq<real>, x: seq<real>, step: real, k: nat, i: nat, f: real)
    requires IsResampled(out, x, step) && k < |out|
    requires k as real * step == i as real + f && 0.0 <= f < 1.0
    ensures i + 1 < |x| && out[k] == (1.0 - f) * x[i] + f * x[i + 1]
  {
    hide Interpolate;
    assert 0.0 <= Instant(k, step) < (|x| - 1) as real;
    InterpolateWeighs(x, i, f);
  }

  /** Interpolating inside a block is interpolating the whole signal. */
  lemma InterpolatesAt(taken: seq<real>, input: seq<real>, local: real, t: real, a: real, b: real)
    requires t == local + |taken| as real && -1.0 <= local && local.Floor + 1 < |input|
    requires local < 0.0 ==> taken != [] && a == taken[|taken| - 1]
    requires local >= 0.0 ==> a == input[local.Floor]
    requires b == input[local.Floor + 1]
    ensures 0.0 <= t < (|taken + input| - 1) as real
    ensures Interpolate(taken + input, t) == Blend(a, b, local - local.Floor as real)
  {
    var x, i := taken + input, local.Floor;
    assert t.Floor == |taken| + i;
    assert x[|taken| + i] == a && x[|taken| + i + 1] == b;
  }

  /** Outputs so far, each an interpolation of the whole signal. */
  ghost predicate Fits(out: seq<real>, x: seq<real>, step: real) {
    forall k: nat | k < |out| ::
      0.0 <= Instant(k, step) < (|x| - 1) as real && out[k] == Interpolate(x, Instant(k, step))
  }

  lemma FitsNext(out: seq<real>, x: seq<real>, step: real, y: real)
    requires Fits(out, x, step)
    requires 0.0 <= Instant(|out|, step) < (|x| - 1) as real && y == Interpolate(x, Instant(|out|, step))
    ensures Fits(out + [y], x, step)
  {}

  /** More samples at the end change no interpolation already made. */
  lemma EarlierFit(out: seq<real>, x: seq<real>, more: seq<real>, step: real)
    requires IsResampled(out, x, step)
    ensures Fits(out, x + more, step)
  {
    hide Instant, Interpolate;
    forall k: nat | k < |out|
      ensures Interpolate(x + more, Instant(k, step)) == Interpolate(x, Instant(k, step))
    {
      InterpolateExtends(x, more, Instant(k, step));
    }
  }

  lemma InterpolateExtends(x: seq<real>, more: seq<real>, t: real)
    requires 0.0 <= t < (|x| - 1) as real
    ensures Interpolate(x + more, t) == Interpolate(x, t)
  {
    var i := t.Floor;
    assert (x + more)[i] == x[i] && (x + more)[i + 1] == x[i + 1];
  }

  function StepsLeft(a: real, step: real): real
    requires step > 0.0
  {
    a / step
  }

  lemma OneStepLess(a: real, step: real)
    requires step > 0.0 && a > 0.0
    ensures StepsLeft(a - step, step) == StepsLeft(a, step) - 1.0 && StepsLeft(a, step) >= 0.0
  {
    var q := a / step;
    assert a == q * step;
    DivideBack(a - step, q - 1.0, step);
  }

  lemma DivideBack(x: real, q: real, step: real)
    requires step > 0.0 && x == q * step
    ensures x / step == q
  {}

  lemma NoLanding(out: seq<real>, x: seq<real>, step: real)
    requires step > 0.0 && x != [] && Fits(out, x, step) && (|x| - 1) as real < Instant(|out|, step)
    ensures !Lands(step, |x|)
  {
    forall k: nat
      ensures Instant(k, step) != (|x| - 1) as real
    {
      if k >= |out| {
        InstantMonotone(|out|, k, step);
      }
    }
  }

  /** A block that ends on an output instant, taken after `before` samples. */
  ghost predicate SomeBlockLands(chunks: seq<seq<real>>, step: real, before: nat)
    decreases |chunks|
  {
    chunks != []
    && ((chunks[0] != [] && Lands(step, before + |chunks[0]|))
      || SomeBlockLands(chunks[1..], step, before + |chunks[0]|))
  }

  /** However a signal is cut into blocks, resampling them in turn gives the
      interpolation of the whole signal, exactly when no block ends on an output
      instant; otherwise the source indexes past the end of a block. */
  method ResampleAll(chunks: seq<seq<real>>, fsIn: real, fsOut: real) returns (out: Option<seq<real>>)
    requires fsIn > 0.0 && fsOut > 0.0
    ensures out.Some? <==> !SomeBlockLands(chunks, fsIn / fsOut, 0)
    ensures out.Some? ==> IsResampled(out.value, Flatten(chunks), fsIn / fsOut)
  {
    hide IsResampled, Lands;
    var r := new LinearResampler(fsIn, fsOut);
    var all: seq<real> := [];
    assert chunks[0..] == chunks && [] + Flatten(chunks) == Flatten(chunks);
    for i := 0 to |chunks|
      invariant r.Valid() && fresh(r) && r.step == fsIn / fsOut && r.given == all
      invariant r.taken + Flatten(chunks[i..]) == Flatten(chunks)
      invariant SomeBlockLands(chunks, r.step, 0) == SomeBlockLands(chunks[i..], r.step, |r.taken|)
    {
      assert chunks[i..][1..] == chunks[i + 1..];
      ghost var before := r.taken;
      var o := r.Process(chunks[i]);
      if o == None {
        return None;
      }
      assert before + (chunks[i] + Flatten(chunks[i + 1..])) == r.taken + Flatten(chunks[i + 1..]);
      all := all + o.value;
    }
    assert chunks[|chunks|..] == [];
    assert r.taken + [] == r.taken;
    return Some(all);
  }

  /** At equal rates every instant is a sample, so every nonempty block fails. */
  lemma EqualRatesLand(rate: real, total: nat)
    requires rate > 0.0 && total > 0
    ensures Lands(rate / rate, total)
  {
    assert rate / rate == 1.0;
    assert Instant(total - 1, 1.0) == (total - 1) as real;
  }
}
