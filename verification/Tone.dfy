/** The AFSK tone correlator (server/src/aprs/demod.rs:117-184) over exact reals:
    four running sums against direct sums over the last window. */
module Tone {
  import opened Basics
  import opened Fir

  function Mix(x: real, w: real): real {
    x * w
  }

  /** The samples multiplied by a local oscillator. */
  function Mixed(samples: seq<real>, wave: nat -> real): (r: seq<real>)
    ensures |r| == |samples|
  {
    seq(|samples|, i requires 0 <= i < |samples| => Mix(samples[i], wave(i)))
  }

  lemma MixedSnoc(samples: seq<real>, wave: nat -> real, x: real)
    ensures Mixed(samples + [x], wave) == Mixed(samples, wave) + [Mix(x, wave(|samples|))]
  {
    forall i | 0 <= i <= |samples|
      ensures Mixed(samples + [x], wave)[i] == (Mixed(samples, wave) + [Mix(x, wave(|samples|))])[i]
    {}
  }

  function SquareSum(c: real, s: real): real {
    c * c + s * s
  }

  /** The energy of a tone over the last window. */
  function Energy(samples: seq<real>, cosine: nat -> real, sine: nat -> real, len: nat): real {
    var c := WindowSum(Mixed(samples, cosine), |samples|, len);
    var s := WindowSum(Mixed(samples, sine), |samples|, len);
    SquareSum(c, s)
  }

  /** One running sum: a ring of mixed samples and their total. */
  ghost predicate IsSum(ring: seq<real>, idx: int, sum: real, samples: seq<real>, wave: nat -> real) {
    IsRing(ring, idx, Mixed(samples, wave), 0.0)
    && sum == WindowSum(Mixed(samples, wave), |samples|, |ring|)
  }

  lemma SumAdvances(ring: seq<real>, idx: int, sum: real, samples: seq<real>, wave: nat -> real, x: real,
                    w: real)
    requires IsSum(ring, idx, sum, samples, wave) && w == wave(|samples|)
    ensures var p := Mix(x, w);
            0 <= idx < |ring|
            && IsSum(ring[idx := p], Advance(idx, |ring|), sum + (p - ring[idx]), samples + [x], wave)
  {
    var p := Mix(x, w);
    var mixed := Mixed(samples, wave);
    MixedSnoc(samples, wave, x);
    WindowSlides(mixed, p, |ring| - 1);
    RingAdvances(ring, idx, mixed, p, 0.0);
    assert ring[idx] == At(mixed, |mixed| - |ring|, 0.0);
  }

  lemma EnergyOf(c: seq<real>, s: seq<real>, idx: int, sumC: real, sumS: real, samples: seq<real>,
                 cosine: nat -> real, sine: nat -> real)
    requires IsSum(c, idx, sumC, samples, cosine) && IsSum(s, idx, sumS, samples, sine) && |c| == |s|
    ensures SquareSum(sumC, sumS) == Energy(samples, cosine, sine, |c|)
  {}

  /** Puts a product into its ring and brings the running sum up to date. */
  method Replace(ring: array<real>, idx: int, sum: real, x: real, w: real,
                 ghost samples: seq<real>, ghost wave: nat -> real)
    returns (next: real)
    requires IsSum(ring[..], idx, sum, samples, wave) && 0 <= idx < ring.Length
    requires w == wave(|samples|)
    modifies ring
    ensures IsSum(ring[..], Advance(idx, ring.Length), next, samples + [x], wave)
  {
    SumAdvances(ring[..], idx, sum, samples, wave, x, w);
    hide IsSum;
    ghost var was := ring[..];
    var p := Mix(x, w);
    next := sum + (p - ring[idx]);
    ring[idx] := p;
    assert ring[..] == was[idx := p];
  }

  /** The phase of a local oscillator at each sample, kept below one turn. */
  function Phase(n: nat, step: real, turn: real): real {
    if n == 0 then 0.0 else Advanced(Phase(n - 1, step, turn), step, turn)
  }

  function Advanced(phase: real, step: real, turn: real): real {
    if phase + step >= turn then phase + step - turn else phase + step
  }

  function Oscillation(f: real -> real, step: real, turn: real): nat -> real {
    (n: nat) => f(Phase(n, step, turn))
  }

  /** Trigonometry and the square root. */
  datatype Analytic = Analytic(sine: real -> real, cosine: real -> real, root: real -> real, turn: real)

  lemma OscillationAt(f: real -> real, step: real, turn: real, n: nat)
    ensures Oscillation(f, step, turn)(n) == f(Phase(n, step, turn))
  {}

  lemma PhaseNext(n: nat, step: real, turn: real)
    ensures Phase(n + 1, step, turn) == Advanced(Phase(n, step, turn), step, turn)
  {}

  function ToneEnergy(samples: seq<real>, f: Analytic, step: real, len: nat): real {
    Energy(samples, Oscillation(f.cosine, step, f.turn), Oscillation(f.sine, step, f.turn), len)
  }

  /** The energy is the sum of the squares of two window sums, one against the cosine
      and one against the sine. */
  lemma EnergyMeans(samples: seq<real>, f: Analytic, step: real, len: nat)
    ensures var c := WindowSum(Mixed(samples, Oscillation(f.cosine, step, f.turn)), |samples|, len);
            var s := WindowSum(Mixed(samples, Oscillation(f.sine, step, f.turn)), |samples|, len);
            ToneEnergy(samples, f, step, len) == c * c + s * s
  {
    hide Oscillation, WindowSum;
  }

  /** A phase below one turn that has moved on by its step n times. */
  lemma {:induction false} PhaseIs(n: nat, step: real, turn: real) returns (turns: nat)
    requires 0.0 <= step < turn
    ensures 0.0 <= Phase(n, step, turn) < turn
    ensures Phase(n, step, turn) == n as real * step - turns as real * turn
  {
    if n == 0 {
      turns := 0;
    } else {
      turns := PhaseIs(n - 1, step, turn);
      assert n as real * step == (n - 1) as real * step + step;
      if Phase(n - 1, step, turn) + step >= turn {
        turns := turns + 1;
        assert turns as real * turn == (turns - 1) as real * turn + turn;
      }
    }
  }

  /** Two running sums against the cosine and the sine of one oscillator. */
  ghost predicate IsTone(c: seq<real>, s: seq<real>, idx: int, sumC: real, sumS: real, samples: seq<real>,
                         f: Analytic, step: real)
  {
    |c| == |s|
    && IsSum(c, idx, sumC, samples, Oscillation(f.cosine, step, f.turn))
    && IsSum(s, idx, sumS, samples, Oscillation(f.sine, step, f.turn))
  }

  /** Brings both sums up to date and gives the tone's energy. */
  method Follow(c: array<real>, s: array<real>, idx: int, sumC: real, sumS: real, a: real, phase: real,
                f: Analytic, step: real, ghost samples: seq<real>)
    returns (nextC: real, nextS: real, energy: real)
    requires c != s && 0 <= idx < c.Length
    requires IsTone(c[..], s[..], idx, sumC, sumS, samples, f, step) && phase == Phase(|samples|, step, f.turn)
    modifies c, s
    ensures IsTone(c[..], s[..], Advance(idx, c.Length), nextC, nextS, samples + [a], f, step)
    ensures energy == ToneEnergy(samples + [a], f, step, c.Length)
  {
    ghost var waveC, waveS := Oscillation(f.cosine, step, f.turn), Oscillation(f.sine, step, f.turn);
    OscillationAt(f.cosine, step, f.turn, |samples|);
    OscillationAt(f.sine, step, f.turn, |samples|);
    hide IsSum, Energy, Oscillation, Phase, SquareSum;
    nextC := Replace(c, idx, sumC, a, f.cosine(phase), samples, waveC);
    nextS := Replace(s, idx, sumS, a, f.sine(phase), samples, waveS);
    EnergyOf(c[..], s[..], Advance(idx, c.Length), nextC, nextS, samples + [a], waveC, waveS);
    energy := SquareSum(nextC, nextS);
  }

  /** Four running sums over one window, for two tones. */
  class ToneCorr {
    const f: Analytic
    const markStep: real
    const spaceStep: real
    const mc: array<real>
    const ms: array<real>
    const sc: array<real>
    const ss: array<real>
    var markPhase: real
    var spacePhase: real
    var idx: int
    var smc: real
    var sms: real
    var ssc: real
    var sss: real
    ghost var samples: seq<real>

    ghost predicate Valid()
      reads this, mc, ms, sc, ss
    {
      && markPhase == Phase(|samples|, markStep, f.turn) && spacePhase == Phase(|samples|, spaceStep, f.turn)
      && 0 <= idx < mc.Length
      && mc != ms && mc != sc && mc != ss && ms != sc && ms != ss && sc != ss
      && mc.Length == ms.Length == sc.Length == ss.Length
      && IsTone(mc[..], ms[..], idx, smc, sms, samples, f, markStep)
      && IsTone(sc[..], ss[..], idx, ssc, sss, samples, f, spaceStep)
    }

    constructor (len: nat, f: Analytic, markStep: real, spaceStep: real)
      requires len > 0
      ensures Valid() && samples == [] && mc.Length == len
      ensures fresh(mc) && fresh(ms) && fresh(sc) && fresh(ss)
      ensures this.f == f && this.markStep == markStep && this.spaceStep == spaceStep
    {
      this.f, this.markStep, this.spaceStep := f, markStep, spaceStep;
      mc := new real[len](_ => 0.0);
      ms := new real[len](_ => 0.0);
      sc := new real[len](_ => 0.0);
      ss := new real[len](_ => 0.0);
      markPhase, spacePhase := 0.0, 0.0;
      idx, samples := 0, [];
      smc, sms, ssc, sss := 0.0, 0.0, 0.0, 0.0;
      new;
      EmptyWindow(len);
    }

    /** How much stronger the mark is than the space over the last window. */
    method Push(a: real) returns (soft: real)
      requires Valid()
      modifies this, mc, ms, sc, ss
      ensures Valid() && samples == old(samples) + [a]
      ensures soft == f.root(ToneEnergy(samples, f, markStep, mc.Length))
                      - f.root(ToneEnergy(samples, f, spaceStep, mc.Length))
    {
      hide IsTone, ToneEnergy, Phase, Advanced;
      PhaseNext(|samples|, markStep, f.turn);
      PhaseNext(|samples|, spaceStep, f.turn);
      AdvanceIsMod(idx, mc.Length);
      var mark, space: real;
      smc, sms, mark := Follow(mc, ms, idx, smc, sms, a, markPhase, f, markStep, samples);
      ssc, sss, space := Follow(sc, ss, idx, ssc, sss, a, spacePhase, f, spaceStep, samples);
      markPhase := Advanced(markPhase, markStep, f.turn);
      spacePhase := Advanced(spacePhase, spaceStep, f.turn);
      idx := (idx + 1) % mc.Length;
      samples := samples + [a];
      soft := f.root(mark) - f.root(space);
    }
  }
}
