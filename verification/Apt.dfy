/** APT line extraction (server/src/apt/demod.rs:244-260, 344-403) and the
    whole-stream extraction it must agree with. Samples are exact reals and the
    square root is a parameter. */
module Apt {
  import opened Wrappers
  import opened Basics

  const WORDS_PER_LINE: nat := 2080
  const HALF_LINE: nat := 1040
  const SYNC_LEN: nat := 39
  const IMAGE_LEN: nat := 909
  const IMAGE_A_START: nat := 86
  const IMAGE_B_START: nat := 1126
  const RESYNC_RADIUS: nat := 24

  datatype Line = Line(imageA: seq<int>, imageB: seq<int>, quality: real)

  datatype Levels = Levels(min: real, max: real)

  /** The square root behind the confidence. */
  type Root = real -> real

  // ----- Finding a sync -----

  function Total(s: seq<real>): real {
    if s == [] then 0.0 else Total(s[..|s| - 1]) + s[|s| - 1]
  }

  function Mean(s: seq<real>): real
    requires s != []
  {
    Total(s) / |s| as real
  }

  /** The square wave of Sync A, two words high and two low. */
  function Template(i: nat): real {
    if i / 2 % 2 == 0 then 1.0 else -1.0
  }

  /** A value times the template. */
  function Signed(x: real, i: nat): real {
    if i / 2 % 2 == 0 then x else -x
  }

  function Correlated(s: seq<real>, mean: real): real {
    if s == [] then 0.0
    else Correlated(s[..|s| - 1], mean) + Signed(s[|s| - 1] - mean, |s| - 1)
  }

  function Square(x: real): real {
    x * x
  }

  function SquaredDeviations(s: seq<real>, mean: real): real {
    if s == [] then 0.0
    else SquaredDeviations(s[..|s| - 1], mean) + Square(s[|s| - 1] - mean)
  }

  function NoiseFloor(s: seq<real>, root: Root): (f: real)
    requires s != []
    ensures f > 0.0
  {
    var f := root(SquaredDeviations(s, Mean(s)) / |s| as real) * root(SYNC_LEN as real);
    if f > 0.000001 then f else 0.000001
  }

  /** How strongly the segment at an offset correlates with the template. */
  function Score(words: seq<real>, offset: nat): (s: real)
    requires offset + SYNC_LEN <= |words|
    ensures s >= 0.0
  {
    var seg := words[offset..offset + SYNC_LEN];
    var v := Correlated(seg, Mean(seg));
    if v < 0.0 then -v else v
  }

  method Sum(seg: seq<real>) returns (sum: real)
    ensures sum == Total(seg)
  {
    sum := 0.0;
    for i := 0 to |seg|
      invariant sum == Total(seg[..i])
    {
      assert seg[..i + 1][..i] == seg[..i];
      sum := sum + seg[i];
    }
    assert seg[..|seg|] == seg;
  }

  method CorrAt(words: seq<real>, offset: nat) returns (s: real)
    requires offset + SYNC_LEN <= |words|
    ensures s == Score(words, offset)
  {
    var seg := words[offset..offset + SYNC_LEN];
    var sum := Sum(seg);
    var mean := sum / SYNC_LEN as real;
    s := 0.0;
    for i := 0 to |seg|
      invariant s == Correlated(seg[..i], mean)
    {
      assert seg[..i + 1][..i] == seg[..i];
      s := s + (seg[i] - mean) * Template(i);
    }
    assert seg[..|seg|] == seg;
    s := if s < 0.0 then -s else s;
  }

  method MeasureNoise(seg: seq<real>, root: Root) returns (f: real)
    requires seg != []
    ensures f == NoiseFloor(seg, root)
  {
    var sum := Sum(seg);
    var mean := sum / |seg| as real;
    var squares := 0.0;
    for i := 0 to |seg|
      invariant squares == SquaredDeviations(seg[..i], mean)
    {
      assert seg[..i + 1][..i] == seg[..i];
      squares := squares + Square(seg[i] - mean);
    }
    assert seg[..|seg|] == seg;
    f := root(squares / |seg| as real) * root(SYNC_LEN as real);
    f := if f > 0.000001 then f else 0.000001;
  }

  /** The first offset in the range with the largest score. */
  ghost predicate IsFirstBest(words: seq<real>, lo: nat, hi: nat, best: nat)
    requires lo <= hi && hi + SYNC_LEN <= |words|
  {
    lo <= best <= hi
    && (forall o: nat | lo <= o < best :: Score(words, o) < Score(words, best))
    && (forall o: nat | best <= o <= hi :: Score(words, o) <= Score(words, best))
  }

  function FirstBest(words: seq<real>, lo: nat, hi: nat): (best: nat)
    requires lo <= hi && hi + SYNC_LEN <= |words|
    ensures lo <= best <= hi && IsFirstBest(words, lo, hi, best)
    decreases hi - lo
  {
    if lo == hi then lo else
    var best := FirstBest(words, lo, hi - 1);
    if Score(words, hi) > Score(words, best) then hi else best
  }

  function Confidence(words: seq<real>, lo: nat, hi: nat, best: nat, root: Root): real
    requires lo <= best <= hi && hi + SYNC_LEN <= |words|
  {
    Score(words, best) / NoiseFloor(words[lo..hi + SYNC_LEN], root)
  }

  function SatSub(a: nat, b: nat): nat {
    if a >= b then a - b else 0
  }

  method FindSync(words: seq<real>, center: nat, radius: nat, root: Root) returns (best: nat, confidence: real)
    requires center + radius + SYNC_LEN <= |words|
    ensures var lo, hi := if center >= radius then center - radius else 0, center + radius;
      best == FirstBest(words, lo, hi) && confidence == Confidence(words, lo, hi, best, root)
  {
    hide IsFirstBest, Score;
    var lo := SatSub(center, radius);
    var hi := if center + radius < SatSub(|words|, SYNC_LEN) then center + radius else SatSub(|words|, SYNC_LEN);
    best := lo;
    var score := -1.0;
    for o := lo to hi + 1
      invariant lo <= best <= hi
      invariant o == lo ==> best == lo && score == -1.0
      invariant o > lo ==> best == FirstBest(words, lo, o - 1) && score == Score(words, best)
    {
      var s := CorrAt(words, o);
      if s > score {
        best, score := o, s;
      }
    }
    var segHi := if hi + SYNC_LEN < |words| then hi + SYNC_LEN else |words|;
    assert segHi == hi + SYNC_LEN;
    var noise := MeasureNoise(words[lo..segHi], root);
    confidence := score / noise;
  }

  /** Two words high, two low, around a base. */
  predicate IsSquareWave(s: seq<real>, base: real, a: real) {
    forall i | 0 <= i < |s| :: s[i] == if i % 4 < 2 then base + a else base - a
  }

  /** How many more words are high than low. */
  function Surplus(n: nat): int {
    if n % 4 == 0 then 0 else if n % 4 == 2 then 2 else 1
  }

  function Times(k: int, x: real): real {
    k as real * x
  }

  lemma TimesNext(k: int, x: real)
    ensures Times(k + 1, x) == Times(k, x) + x && Times(k - 1, x) == Times(k, x) - x
  {}

  lemma {:induction false} WaveTotal(s: seq<real>, base: real, a: real)
    requires IsSquareWave(s, base, a)
    ensures Total(s) == Times(|s|, base) + Times(Surplus(|s|), a)
  {
    if s == [] {
    } else {
      var front, n := s[..|s| - 1], |s| - 1;
      WaveTotal(front, base, a);
      assert s[n] == if n % 4 < 2 then base + a else base - a;
      NextSurplus(n);
      TimesNext(n, base);
      TimesNext(Surplus(n), a);
      hide Times, Surplus;
    }
  }

  lemma NextSurplus(n: nat)
    ensures Surplus(n + 1) == if n % 4 < 2 then Surplus(n) + 1 else Surplus(n) - 1
    ensures n / 2 % 2 == 0 <==> n % 4 < 2
  {}

  lemma {:induction false} WaveCorrelated(s: seq<real>, base: real, a: real, mean: real)
    requires IsSquareWave(s, base, a)
    ensures Correlated(s, mean) == Times(|s|, a) + Times(Surplus(|s|), base - mean)
  {
    if s == [] {
    } else {
      var front, n := s[..|s| - 1], |s| - 1;
      WaveCorrelated(front, base, a, mean);
      assert s[n] == if n % 4 < 2 then base + a else base - a;
      NextSurplus(n);
      TimesNext(n, a);
      TimesNext(Surplus(n), base - mean);
      hide Times, Surplus;
    }
  }

  /** A sync of amplitude a scores 39 - 1/39 times that, whatever its base. */
  lemma SyncScores(words: seq<real>, offset: nat, base: real, a: real)
    requires offset + 39 <= |words| && IsSquareWave(words[offset..offset + 39], base, a)
    ensures Score(words, offset) == (39.0 - 1.0 / 39.0) * (if a < 0.0 then -a else a)
  {
    hide Total, Correlated, IsSquareWave;
    var seg := words[offset..offset + SYNC_LEN];
    WaveTotal(seg, base, a);
    assert Total(seg) == 39.0 * base + a;
    assert Mean(seg) == base + a / 39.0;
    WaveCorrelated(seg, base, a, Mean(seg));
  }

  lemma {:induction false} WaveDeviations(s: seq<real>, base: real, a: real)
    requires IsSquareWave(s, base, a)
    ensures SquaredDeviations(s, base) == Times(|s|, Square(a))
  {
    if s == [] {
    } else {
      var front, n := s[..|s| - 1], |s| - 1;
      WaveDeviations(front, base, a);
      Squared(s[n] - base, a);
      TimesNext(n, Square(a));
      hide Times, Square;
    }
  }

  lemma Squared(d: real, a: real)
    requires d == a || d == -a
    ensures Square(d) == Square(a)
  {}

  lemma Shared(n: nat, x: real)
    requires n > 0
    ensures Times(n, x) / n as real == x
  {}

  /** The noise of whole periods is the root of their squared amplitude, times that of 39. */
  lemma WaveNoise(s: seq<real>, base: real, a: real, root: Root)
    requires s != [] && |s| % 4 == 0 && IsSquareWave(s, base, a)
    ensures var noise := root(a * a) * root(39.0);
      NoiseFloor(s, root) == if noise > 0.000001 then noise else 0.000001
  {
    WaveTotal(s, base, a);
    assert Times(0, a) == 0.0;
    WaveDeviations(s, base, a);
    Shared(|s|, base);
    Shared(|s|, Square(a));
    hide Times, Total, SquaredDeviations, IsSquareWave;
    assert Mean(s) == base;
    assert SquaredDeviations(s, Mean(s)) / |s| as real == a * a;
  }

  // ----- Levels and pixels -----

  function Track(l: Levels, w: real): Levels {
    Levels(
      if w < l.min then w else l.min + (w - l.min) * 0.001,
      if w > l.max then w else l.max + (w - l.max) * 0.001)
  }

  function TrackAll(l: Levels, words: seq<real>): Levels
    decreases |words|
  {
    if words == [] then l else TrackAll(Track(l, words[0]), words[1..])
  }

  function Pixel(v: real, l: Levels): int {
    var span := if l.max - l.min > 0.000001 then l.max - l.min else 0.000001;
    var p := (v - l.min) / span * 255.0;
    (if p < 0.0 then 0.0 else if p > 255.0 then 255.0 else p).Floor
  }

  function LineOf(words: seq<real>, l: Levels, quality: real): Line
    requires |words| == WORDS_PER_LINE
  {
    Line(seq(IMAGE_LEN, k requires 0 <= k < IMAGE_LEN => Pixel(words[IMAGE_A_START + k], l)),
      seq(IMAGE_LEN, k requires 0 <= k < IMAGE_LEN => Pixel(words[IMAGE_B_START + k], l)),
      quality)
  }

  // ----- The whole stream -----

  function SearchLow(last: Option<nat>): nat {
    match last case None => 0 case Some(s) => s + WORDS_PER_LINE - RESYNC_RADIUS
  }

  function SearchHigh(last: Option<nat>): nat {
    match last case None => WORDS_PER_LINE case Some(s) => s + WORDS_PER_LINE + RESYNC_RADIUS
  }

  /** Whether the next line is complete in a stream. */
  predicate Complete(stream: seq<real>, last: Option<nat>) {
    SearchHigh(last) + SYNC_LEN <= |stream|
    && FirstBest(stream, SearchLow(last), SearchHigh(last)) + WORDS_PER_LINE <= |stream|
  }

  function NextStart(stream: seq<real>, last: Option<nat>): (s: nat)
    requires Complete(stream, last)
    ensures SearchLow(last) <= s <= SearchHigh(last) && s + WORDS_PER_LINE <= |stream|
  {
    FirstBest(stream, SearchLow(last), SearchHigh(last))
  }

  function NextLevels(stream: seq<real>, last: Option<nat>, l: Levels): Levels
    requires Complete(stream, last)
  {
    var s := NextStart(stream, last);
    TrackAll(l, stream[s..s + WORDS_PER_LINE])
  }

  function NextLine(stream: seq<real>, last: Option<nat>, l: Levels, root: Root): Line
    requires Complete(stream, last)
  {
    var s := NextStart(stream, last);
    LineOf(stream[s..s + WORDS_PER_LINE], NextLevels(stream, last, l),
      Confidence(stream, SearchLow(last), SearchHigh(last), s, root))
  }

  /** All lines of a stream, each searched for around the previous one. */
  function Lines(stream: seq<real>, last: Option<nat>, l: Levels, root: Root): seq<Line>
    decreases |stream| - (if last.Some? then last.value else 0), last.None?
  {
    if !Complete(stream, last) then [] else
    [NextLine(stream, last, l, root)]
      + Lines(stream, Some(NextStart(stream, last)), NextLevels(stream, last, l), root)
  }

  /** Where those lines start. */
  function Starts(stream: seq<real>, last: Option<nat>): seq<nat>
    decreases |stream| - (if last.Some? then last.value else 0), last.None?
  {
    if !Complete(stream, last) then [] else
    var s := NextStart(stream, last);
    [s] + Starts(stream, Some(s))
  }

  /** The start of the last line and the levels after it. */
  function End(stream: seq<real>, last: Option<nat>, l: Levels): (Option<nat>, Levels)
    decreases |stream| - (if last.Some? then last.value else 0), last.None?
  {
    if !Complete(stream, last) then (last, l) else
    End(stream, Some(NextStart(stream, last)), NextLevels(stream, last, l))
  }

  /** Consecutive lines start 2080 words apart, plus or minus 24, and lie in the stream. */
  lemma {:induction false} LineSpacing(stream: seq<real>, last: Option<nat>, i: nat)
    requires i < |Starts(stream, last)|
    ensures var e := Starts(stream, last);
      e[i] + WORDS_PER_LINE <= |stream|
      && (if i == 0 then SearchLow(last) <= e[0] <= SearchHigh(last)
          else e[i - 1] + 2056 <= e[i] <= e[i - 1] + 2104)
    decreases i
  {
    hide Complete, NextStart;
    if i == 0 {
    } else {
      var s := NextStart(stream, last);
      LineSpacing(stream, Some(s), i - 1);
      if i > 1 {
        assert Starts(stream, last)[i - 1] == Starts(stream, Some(s))[i - 2];
      }
    }
  }

  lemma {:induction false} AsManyStarts(stream: seq<real>, last: Option<nat>, l: Levels, root: Root)
    ensures |Starts(stream, last)| == |Lines(stream, last, l, root)|
    decreases |stream| - (if last.Some? then last.value else 0), last.None?
  {
    hide NextLevels, NextLine, Complete, NextStart;
    if Complete(stream, last) {
      AsManyStarts(stream, Some(NextStart(stream, last)), NextLevels(stream, last, l), root);
    }
  }

  // ----- What a line shows -----

  /** One word moves the trackers to itself, or a thousandth of the way to it. */
  lemma TrackMeans(l: Levels, w: real)
    ensures var t := Track(l, w);
      && (w < l.min ==> t.min == w) && (w >= l.min ==> 1000.0 * (t.min - l.min) == w - l.min)
      && (w > l.max ==> t.max == w) && (w <= l.max ==> 1000.0 * (l.max - t.max) == l.max - w)
      && t.min <= w <= t.max
  {}

  lemma {:induction false} TrackAllSnoc(l: Levels, words: seq<real>, w: real)
    ensures TrackAll(l, words + [w]) == Track(TrackAll(l, words), w)
    decreases |words|
  {
    hide Track;
    if words == [] {
      assert [w][1..] == [];
    } else {
      assert (words + [w])[1..] == words[1..] + [w];
      TrackAllSnoc(Track(l, words[0]), words[1..], w);
    }
  }

  lemma {:induction false} TrackAllConcat(l: Levels, a: seq<real>, b: seq<real>)
    ensures TrackAll(l, a + b) == TrackAll(TrackAll(l, a), b)
    decreases |a|
  {
    hide Track;
    if a == [] {
      assert a + b == b;
    } else {
      assert (a + b)[1..] == a[1..] + b;
      TrackAllConcat(Track(l, a[0]), a[1..], b);
    }
  }

  /** The trackers stay within what they have seen, and enclose the last word. */
  lemma {:induction false} TrackAllBounds(l: Levels, words: seq<real>, lo: real, hi: real)
    requires lo <= l.min <= hi && lo <= l.max <= hi && forall k | 0 <= k < |words| :: lo <= words[k] <= hi
    ensures var t := TrackAll(l, words);
      && lo <= t.min <= hi && lo <= t.max <= hi
      && (words != [] ==> t.min <= words[|words| - 1] <= t.max)
    decreases |words|
  {
    if words == [] {
    } else {
      var front, w := words[..|words| - 1], words[|words| - 1];
      assert words == front + [w];
      TrackAllBounds(l, front, lo, hi);
      TrackAllSnoc(l, front, w);
      TrackMeans(TrackAll(l, front), w);
    }
  }

  /** A pixel is black at and below the lower level, white at and above the upper
      one, and in between the whole part of 255 times the share of the span. */
  predicate Shows(p: int, v: real, min: real, max: real) {
    var span := if max - min > 0.000001 then max - min else 0.000001;
    && (v <= min ==> p == 0)
    && (v >= min + span ==> p == 255)
    && (min < v < min + span ==> 0 <= p <= 254 && p as real * span <= (v - min) * 255.0 < (p as real + 1.0) * span)
  }

  lemma PixelShows(v: real, l: Levels)
    ensures Shows(Pixel(v, l), v, l.min, l.max)
  {
    var span := if l.max - l.min > 0.000001 then l.max - l.min else 0.000001;
    var share := (v - l.min) / span;
    ShareBounds(v - l.min, span, share);
    if l.min < v < l.min + span {
      var p := (share * 255.0).Floor;
      Scaled(p as real, share * 255.0, span);
      Scaled(share * 255.0, p as real + 1.0, span);
      assert share * 255.0 * span == share * span * 255.0;
    }
  }

  lemma ShareBounds(d: real, span: real, share: real)
    requires span > 0.0 && share == d / span
    ensures share * span == d
    ensures d <= 0.0 <==> share <= 0.0
    ensures d >= span <==> share >= 1.0
  {
    assert share * span == d;
    Scaled(share, 0.0, span);
    Scaled(1.0, share, span);
  }

  lemma Scaled(a: real, b: real, span: real)
    requires span > 0.0
    ensures a <= b <==> a * span <= b * span
    ensures a < b <==> a * span < b * span
  {}

  /** A picture shows the 909 words from a place on. */
  predicate ShowsAll(image: seq<int>, stream: seq<real>, from: nat, levels: Levels) {
    |image| == 909 && from + 909 <= |stream|
    && forall k | 0 <= k < 909 :: Shows(image[k], stream[from + k], levels.min, levels.max)
  }

  /** The first place of the best correlation, about 2080 words after the one before. */
  ghost predicate IsSyncAt(stream: seq<real>, before: Option<nat>, s: nat) {
    var lo := if before.Some? then before.value + 2056 else 0;
    var hi := if before.Some? then before.value + 2104 else 2080;
    && lo <= s <= hi && s + 2080 <= |stream| && hi + 39 <= |stream|
    && (forall o: nat | lo <= o <= hi :: Score(stream, o) <= Score(stream, s))
    && (forall o: nat | lo <= o < s :: Score(stream, o) < Score(stream, s))
  }

  /** A line that starts at s: its quality against the noise of the words searched,
      its pictures from words 86 and 1126 on, against given levels. */
  ghost predicate IsLineAt(line: Line, stream: seq<real>, before: Option<nat>, s: nat, levels: Levels, root: Root) {
    var lo := if before.Some? then before.value + 2056 else 0;
    var hi := if before.Some? then before.value + 2104 else 2080;
    && IsSyncAt(stream, before, s)
    && line.quality == Score(stream, s) / NoiseFloor(stream[lo..hi + 39], root)
    && ShowsAll(line.imageA, stream, s + 86, levels) && ShowsAll(line.imageB, stream, s + 1126, levels)
  }

  lemma NextLineShows(stream: seq<real>, last: Option<nat>, l: Levels, root: Root)
    requires Complete(stream, last)
    ensures var s := NextStart(stream, last);
      s + 2080 <= |stream|
      && IsLineAt(NextLine(stream, last, l, root), stream, last, s, TrackAll(l, stream[s..s + 2080]), root)
  {
    hide TrackAll, Score, NoiseFloor, ShowsAll, LineOf, IsSyncAt, FirstBest, IsFirstBest;
    var s := NextStart(stream, last);
    NextIsSync(stream, last);
    var quality := Confidence(stream, SearchLow(last), SearchHigh(last), s, root);
    PicturesShow(stream, s, NextLevels(stream, last, l), quality);
  }

  lemma NextIsSync(stream: seq<real>, last: Option<nat>)
    requires Complete(stream, last)
    ensures IsSyncAt(stream, last, NextStart(stream, last))
  {
    hide Score, FirstBest;
    assert IsFirstBest(stream, SearchLow(last), SearchHigh(last), NextStart(stream, last));
  }

  lemma PicturesShow(stream: seq<real>, s: nat, levels: Levels, quality: real)
    requires s + 2080 <= |stream|
    ensures var line := LineOf(stream[s..s + 2080], levels, quality);
      ShowsAll(line.imageA, stream, s + 86, levels) && ShowsAll(line.imageB, stream, s + 1126, levels)
      && line.quality == quality
  {
    hide Pixel, Shows;
    var line := LineOf(stream[s..s + 2080], levels, quality);
    forall k | 0 <= k < 909
      ensures Shows(line.imageA[k], stream[s + 86 + k], levels.min, levels.max)
      ensures Shows(line.imageB[k], stream[s + 1126 + k], levels.min, levels.max)
    {
      PixelShows(stream[s + 86 + k], levels);
      PixelShows(stream[s + 1126 + k], levels);
    }
  }

  predicate InStream(stream: seq<real>, starts: seq<nat>) {
    forall j | 0 <= j < |starts| :: starts[j] + 2080 <= |stream|
  }

  /** All words of the lines with these starts. */
  function WordsOf(stream: seq<real>, starts: seq<nat>): seq<real>
    requires InStream(stream, starts)
  {
    if starts == [] then [] else stream[starts[0]..starts[0] + 2080] + WordsOf(stream, starts[1..])
  }

  lemma {:induction false} StartsInStream(stream: seq<real>, last: Option<nat>)
    ensures InStream(stream, Starts(stream, last))
    decreases |stream| - (if last.Some? then last.value else 0), last.None?
  {
    hide Complete, NextStart;
    if Complete(stream, last) {
      StartsInStream(stream, Some(NextStart(stream, last)));
    }
  }

  /** The levels that all words of lines 0 to i lead to. */
  function LevelsAt(stream: seq<real>, starts: seq<nat>, l: Levels, i: nat): Levels
    requires i < |starts| && InStream(stream, starts)
  {
    TrackAll(l, WordsOf(stream, starts[..i + 1]))
  }

  /** Every line shows the stream at its start, against the levels that all words of
      the lines up to it have led to. */
  lemma {:induction false} LinesShow(stream: seq<real>, last: Option<nat>, l: Levels, root: Root, i: nat)
    requires i < |Starts(stream, last)|
    ensures |Starts(stream, last)| == |Lines(stream, last, l, root)| && InStream(stream, Starts(stream, last))
    ensures var starts := Starts(stream, last);
      IsLineAt(Lines(stream, last, l, root)[i], stream, if i == 0 then last else Some(starts[i - 1]), starts[i],
        LevelsAt(stream, starts, l, i), root)
    decreases i
  {
    hide IsLineAt, Complete, NextStart, NextLine, TrackAll;
    AsManyStarts(stream, last, l, root);
    StartsInStream(stream, last);
    var s := NextStart(stream, last);
    var starts, rest := Starts(stream, last), Starts(stream, Some(s));
    assert starts == [s] + rest;
    NextLineShows(stream, last, l, root);
    var words := stream[s..s + 2080];
    assert NextLevels(stream, last, l) == TrackAll(l, words);
    if i == 0 {
      assert starts[..1] == [s] && WordsOf(stream, [s]) == words;
    } else {
      LinesShow(stream, Some(s), TrackAll(l, words), root, i - 1);
      LevelsShift(stream, s, rest, l, i);
    }
  }

  lemma LevelsShift(stream: seq<real>, s: nat, rest: seq<nat>, l: Levels, i: nat)
    requires 0 < i <= |rest| && InStream(stream, [s] + rest)
    ensures InStream(stream, rest) && s + 2080 <= |stream|
    ensures LevelsAt(stream, [s] + rest, l, i) == LevelsAt(stream, rest, TrackAll(l, stream[s..s + 2080]), i - 1)
  {
    hide TrackAll;
    var starts := [s] + rest;
    assert starts[0] == s && forall j | 0 <= j < |rest| :: rest[j] == starts[j + 1];
    assert starts[..i + 1] == [s] + rest[..i];
    assert ([s] + rest[..i])[1..] == rest[..i];
    TrackAllConcat(l, stream[s..s + 2080], WordsOf(stream, rest[..i]));
  }

  // ----- Prefixes and suffixes of the stream -----

  /** Offsets count from the front: dropping words shifts the best offset. */
  lemma FirstBestShift(stream: seq<real>, base: nat, lo: nat, hi: nat)
    requires base <= |stream| && lo <= hi && base + hi + SYNC_LEN <= |stream|
    ensures FirstBest(stream, base + lo, base + hi) == base + FirstBest(stream[base..], lo, hi)
    decreases hi - lo
  {
    hide Score, IsFirstBest;
    ScoreShift(stream, base, hi);
    if lo < hi {
      FirstBestShift(stream, base, lo, hi - 1);
      ScoreShift(stream, base, FirstBest(stream[base..], lo, hi - 1));
    }
  }

  lemma ScoreShift(stream: seq<real>, base: nat, o: nat)
    requires base + o + SYNC_LEN <= |stream|
    ensures Score(stream[base..], o) == Score(stream, base + o)
  {
    assert stream[base..][o..o + SYNC_LEN] == stream[base + o..base + o + SYNC_LEN];
  }

  /** Words that arrive later do not change a search that was already possible. */
  lemma FirstBestExtend(stream: seq<real>, more: seq<real>, lo: nat, hi: nat)
    requires lo <= hi && hi + SYNC_LEN <= |stream|
    ensures FirstBest(stream + more, lo, hi) == FirstBest(stream, lo, hi)
    decreases hi - lo
  {
    hide Score, IsFirstBest;
    ScoreExtend(stream, more, hi);
    if lo < hi {
      FirstBestExtend(stream, more, lo, hi - 1);
      ScoreExtend(stream, more, FirstBest(stream, lo, hi - 1));
    }
  }

  lemma ScoreExtend(stream: seq<real>, more: seq<real>, o: nat)
    requires o + SYNC_LEN <= |stream|
    ensures Score(stream + more, o) == Score(stream, o)
  {
    assert (stream + more)[o..o + SYNC_LEN] == stream[o..o + SYNC_LEN];
  }

  lemma NextExtend(stream: seq<real>, more: seq<real>, last: Option<nat>, l: Levels, root: Root)
    requires Complete(stream, last)
    ensures Complete(stream + more, last)
    ensures NextStart(stream + more, last) == NextStart(stream, last)
    ensures NextLevels(stream + more, last, l) == NextLevels(stream, last, l)
    ensures NextLine(stream + more, last, l, root) == NextLine(stream, last, l, root)
  {
    hide FirstBest, IsFirstBest, Score, LineOf, TrackAll;
    var lo, hi := SearchLow(last), SearchHigh(last);
    FirstBestExtend(stream, more, lo, hi);
    var s := FirstBest(stream, lo, hi);
    ScoreExtend(stream, more, s);
    SliceExtend(stream, more, s, s + WORDS_PER_LINE);
    SliceExtend(stream, more, lo, hi + SYNC_LEN);
  }

  lemma SliceExtend(stream: seq<real>, more: seq<real>, lo: nat, hi: nat)
    requires lo <= hi <= |stream|
    ensures (stream + more)[lo..hi] == stream[lo..hi]
  {}

  lemma SliceShift(stream: seq<real>, base: nat, lo: nat, hi: nat)
    requires lo <= hi && base + hi <= |stream|
    ensures stream[base..][lo..hi] == stream[base + lo..base + hi]
  {}

  /** Extraction can stop at any prefix of the stream and resume. */
  lemma {:induction false} Resumes(stream: seq<real>, more: seq<real>, last: Option<nat>, l: Levels, root: Root)
    ensures var (last', l') := End(stream, last, l);
      && Lines(stream + more, last, l, root) == Lines(stream, last, l, root) + Lines(stream + more, last', l', root)
      && End(stream + more, last, l) == End(stream + more, last', l')
    decreases |stream| - (if last.Some? then last.value else 0), last.None?
  {
    hide Complete, NextStart, NextLevels, NextLine;
    if Complete(stream, last) {
      NextExtend(stream, more, last, l, root);
      Resumes(stream, more, Some(NextStart(stream, last)), NextLevels(stream, last, l), root);
    }
  }

  /** The lines emitted when the stream arrives in pieces and each is drained. */
  function Chunked(stream: seq<real>, chunks: seq<seq<real>>, last: Option<nat>, l: Levels, root: Root): seq<Line>
    decreases |chunks|
  {
    if chunks == [] then [] else
    var s := stream + chunks[0];
    var (last', l') := End(s, last, l);
    Lines(s, last, l, root) + Chunked(s, chunks[1..], last', l', root)
  }

  /** Where that leaves the decoder. */
  function ChunkedEnd(stream: seq<real>, chunks: seq<seq<real>>, last: Option<nat>, l: Levels): (Option<nat>, Levels)
    decreases |chunks|
  {
    if chunks == [] then (last, l) else
    var s := stream + chunks[0];
    var (last', l') := End(s, last, l);
    ChunkedEnd(s, chunks[1..], last', l')
  }

  lemma {:induction false} EndIsDone(stream: seq<real>, last: Option<nat>, l: Levels)
    ensures var (last', l') := End(stream, last, l); !Complete(stream, last')
    decreases |stream| - (if last.Some? then last.value else 0), last.None?
  {
    hide NextLevels;
    if Complete(stream, last) {
      EndIsDone(stream, Some(NextStart(stream, last)), NextLevels(stream, last, l));
    }
  }

  /** Neither the lines nor the state they leave depend on how the stream is cut. */
  lemma {:induction false} ChunkingIrrelevant(stream: seq<real>, chunks: seq<seq<real>>, last: Option<nat>, l: Levels,
      root: Root)
    requires !Complete(stream, last)
    ensures Chunked(stream, chunks, last, l, root) == Lines(stream + Flatten(chunks), last, l, root)
    ensures ChunkedEnd(stream, chunks, last, l) == End(stream + Flatten(chunks), last, l)
    decreases |chunks|
  {
    hide Complete, End, Lines;
    if chunks == [] {
      assert stream + Flatten(chunks) == stream;
      NothingLeft(stream, last, l, root);
    } else {
      var s := stream + chunks[0];
      var (last', l') := End(s, last, l);
      EndIsDone(s, last, l);
      ChunkingIrrelevant(s, chunks[1..], last', l', root);
      Resumes(s, Flatten(chunks[1..]), last, l, root);
      assert s + Flatten(chunks[1..]) == stream + (chunks[0] + Flatten(chunks[1..]));
    }
  }

  lemma NothingLeft(stream: seq<real>, last: Option<nat>, l: Levels, root: Root)
    requires !Complete(stream, last)
    ensures Lines(stream, last, l, root) == [] && End(stream, last, l) == (last, l)
  {}

  // ----- The decoder -----

  /** What the decoder keeps of a stream: everything from the start of the last line
      on, and where it expects the next. */
  ghost predicate Keeps(words: seq<real>, next: Option<nat>, stream: seq<real>, last: Option<nat>) {
    match last
    case None => next == None && words == stream
    case Some(s) => next == Some(WORDS_PER_LINE) && s <= |stream| && words == stream[s..]
  }

  /** Once nothing more is complete, the buffer is short. */
  lemma RetainedBound(words: seq<real>, next: Option<nat>, stream: seq<real>, last: Option<nat>)
    requires Keeps(words, next, stream, last) && !Complete(stream, last)
    ensures |words| < 4184
  {}

  lemma KeepsMeans(words: seq<real>, next: Option<nat>, stream: seq<real>, last: Option<nat>)
    requires Keeps(words, next, stream, last)
    ensures Base(last) <= |stream| && words == stream[Base(last)..] && |stream| == Base(last) + |words|
    ensures next == if last.Some? then Some(WORDS_PER_LINE) else None
  {}

  lemma Rekeeps(words: seq<real>, stream: seq<real>, start: nat)
    requires start <= |stream| && words == stream[start..]
    ensures Keeps(words, Some(WORDS_PER_LINE), stream, Some(start))
  {}

  lemma Unrolled(stream: seq<real>, last: Option<nat>, l: Levels, root: Root)
    ensures if Complete(stream, last) then
        Lines(stream, last, l, root) == [NextLine(stream, last, l, root)]
          + Lines(stream, Some(NextStart(stream, last)), NextLevels(stream, last, l), root)
        && End(stream, last, l) == End(stream, Some(NextStart(stream, last)), NextLevels(stream, last, l))
      else Lines(stream, last, l, root) == [] && End(stream, last, l) == (last, l)
  {
    hide Complete, NextLine, NextStart, NextLevels;
  }

  function Center(next: Option<nat>): nat {
    if next.Some? then next.value else HALF_LINE
  }

  function Radius(next: Option<nat>): nat {
    if next.Some? then RESYNC_RADIUS else HALF_LINE
  }

  lemma TooShort(words: seq<real>, next: Option<nat>, stream: seq<real>, last: Option<nat>)
    requires Keeps(words, next, stream, last) && |words| < Center(next) + Radius(next) + SYNC_LEN
    ensures !Complete(stream, last)
  {
    hide FirstBest;
  }

  function Base(last: Option<nat>): nat {
    if last.Some? then last.value else 0
  }

  /** A search in the buffer is the search in the stream, dropped words aside. */
  lemma SearchInBuffer(words: seq<real>, next: Option<nat>, stream: seq<real>, last: Option<nat>, lo: nat, hi: nat)
    requires Keeps(words, next, stream, last)
    requires lo == SatSub(Center(next), Radius(next)) && hi == Center(next) + Radius(next) && hi + SYNC_LEN <= |words|
    ensures SearchLow(last) == Base(last) + lo && SearchHigh(last) == Base(last) + hi
    ensures SearchHigh(last) + SYNC_LEN <= |stream|
    ensures FirstBest(stream, SearchLow(last), SearchHigh(last)) == Base(last) + FirstBest(words, lo, hi)
    ensures Complete(stream, last) <==> FirstBest(words, lo, hi) + WORDS_PER_LINE <= |words|
  {
    hide FirstBest, IsFirstBest;
    KeepsMeans(words, next, stream, last);
    FirstBestShift(stream, Base(last), lo, hi);
  }

  /** The line found in the buffer is the line found in the stream. */
  lemma LineInBuffer(words: seq<real>, next: Option<nat>, stream: seq<real>, last: Option<nat>, lo: nat, hi: nat,
      l: Levels, root: Root)
    requires Keeps(words, next, stream, last)
    requires lo == SatSub(Center(next), Radius(next)) && hi == Center(next) + Radius(next) && hi + SYNC_LEN <= |words|
    requires FirstBest(words, lo, hi) + WORDS_PER_LINE <= |words|
    ensures var best := FirstBest(words, lo, hi);
      var line := words[best..best + WORDS_PER_LINE];
      Complete(stream, last)
      && NextStart(stream, last) == Base(last) + best
      && NextLevels(stream, last, l) == TrackAll(l, line)
      && NextLine(stream, last, l, root) == LineOf(line, TrackAll(l, line), Confidence(words, lo, hi, best, root))
  {
    hide FirstBest, IsFirstBest, Confidence, TrackAll, LineOf;
    SearchInBuffer(words, next, stream, last, lo, hi);
    KeepsMeans(words, next, stream, last);
    var best := FirstBest(words, lo, hi);
    ConfidenceShift(stream, Base(last), lo, hi, best, root);
    SliceShift(stream, Base(last), best, best + WORDS_PER_LINE);
  }

  lemma ConfidenceShift(stream: seq<real>, base: nat, lo: nat, hi: nat, best: nat, root: Root)
    requires base <= |stream| && lo <= best <= hi && base + hi + SYNC_LEN <= |stream|
    ensures Confidence(stream, base + lo, base + hi, base + best, root)
        == Confidence(stream[base..], lo, hi, best, root)
  {
    hide Score;
    ScoreShift(stream, base, best);
    SliceShift(stream, base, lo, hi + SYNC_LEN);
  }

  /** What taking a line out of the buffer leaves to be done. */
  lemma LineFound(words: seq<real>, next: Option<nat>, stream: seq<real>, last: Option<nat>, lo: nat, hi: nat,
      l: Levels, root: Root)
    requires Keeps(words, next, stream, last)
    requires lo == SatSub(Center(next), Radius(next)) && hi == Center(next) + Radius(next) && hi + SYNC_LEN <= |words|
    requires FirstBest(words, lo, hi) + WORDS_PER_LINE <= |words|
    ensures var best := FirstBest(words, lo, hi);
      var line := words[best..best + WORDS_PER_LINE];
      var (at, levels) := (Some(Base(last) + best), TrackAll(l, line));
      && Lines(stream, last, l, root)
         == [LineOf(line, levels, Confidence(words, lo, hi, best, root))] + Lines(stream, at, levels, root)
      && End(stream, last, l) == End(stream, at, levels)
      && Keeps(words[best..], Some(WORDS_PER_LINE), stream, at)
      && (last.Some? ==> best > 0)
  {
    hide FirstBest, IsFirstBest, Confidence, TrackAll, LineOf, Lines, End, Complete, NextStart, NextLevels, NextLine;
    KeepsMeans(words, next, stream, last);
    SearchInBuffer(words, next, stream, last, lo, hi);
    LineInBuffer(words, next, stream, last, lo, hi, l, root);
    Unrolled(stream, last, l, root);
    var best := FirstBest(words, lo, hi);
    assert words[best..] == stream[Base(last) + best..];
    Rekeeps(words[best..], stream, Base(last) + best);
  }

  class AptDemod {
    var words: seq<real>
    var nextLineStart: Option<nat>
    var lvlMin: real
    var lvlMax: real
    /** The words that have arrived and the start of the last line among them. */
    ghost var stream: seq<real>
    ghost var last: Option<nat>

    ghost predicate Valid()
      reads this
    {
      Keeps(words, nextLineStart, stream, last)
    }

    ghost function Tracked(): Levels
      reads this
    {
      Levels(lvlMin, lvlMax)
    }

    constructor ()
      ensures Valid() && stream == [] && last == None && Tracked() == Levels(0.0, 0.05)
    {
      words, nextLineStart, lvlMin, lvlMax := [], None, 0.0, 0.05;
      stream, last := [], None;
    }

    /** Take in the words of one block and drain. */
    method Process(chunk: seq<real>, root: Root) returns (lines: seq<Line>)
      requires Valid()
      modifies this
      ensures Valid() && stream == old(stream) + chunk
      ensures lines == Lines(stream, old(last), old(Tracked()), root)
      ensures (last, Tracked()) == End(stream, old(last), old(Tracked()))
      ensures |words| < 4184
    {
      words := words + chunk;
      stream := stream + chunk;
      assert last.Some? ==> words == stream[last.value..];
      lines := DrainLines(root);
      EndIsDone(stream, old(last), old(Tracked()));
      RetainedBound(words, nextLineStart, stream, last);
    }

    method DrainLines(root: Root) returns (lines: seq<Line>)
      requires Valid()
      modifies this
      ensures Valid() && stream == old(stream)
      ensures lines == Lines(stream, old(last), old(Tracked()), root)
      ensures (last, Tracked()) == End(stream, old(last), old(Tracked()))
    {
      hide LineOf, Lines, End, Complete, FirstBest, IsFirstBest, Score, TrackAll, Keeps, Confidence, NextStart,
        NextLevels, NextLine;
      lines := [];
      while true
        invariant Valid() && stream == old(stream)
        invariant Lines(stream, old(last), old(Tracked()), root) == lines + Lines(stream, last, Tracked(), root)
        invariant End(stream, old(last), old(Tracked())) == End(stream, last, Tracked())
        decreases |words|, last.None?
      {
        var center := if nextLineStart.Some? then nextLineStart.value else HALF_LINE;
        var radius := if nextLineStart.Some? then RESYNC_RADIUS else HALF_LINE;
        if |words| < center + radius + SYNC_LEN {
          TooShort(words, nextLineStart, stream, last);
          NothingLeft(stream, last, Tracked(), root);
          return;
        }
        var start, confidence := FindSync(words, center, radius, root);
        ghost var lo, hi := SatSub(center, radius), center + radius;
        if |words| < start + WORDS_PER_LINE {
          SearchInBuffer(words, nextLineStart, stream, last, lo, hi);
          NothingLeft(stream, last, Tracked(), root);
          return;
        }
        LineFound(words, nextLineStart, stream, last, lo, hi, Tracked(), root);
        var lineWords := words[start..start + WORDS_PER_LINE];
        FollowLevels(lineWords);
        nextLineStart := Some(start + WORDS_PER_LINE);
        lines := lines + [LineOf(lineWords, Levels(lvlMin, lvlMax), confidence)];
        Trim(start);
        last := Some(Base(last) + start);
      }
    }

    method FollowLevels(lineWords: seq<real>)
      modifies this`lvlMin, this`lvlMax
      ensures Tracked() == TrackAll(old(Tracked()), lineWords)
    {
      assert lineWords[0..] == lineWords;
      for i := 0 to |lineWords|
        invariant TrackAll(Tracked(), lineWords[i..]) == TrackAll(old(Tracked()), lineWords)
      {
        assert lineWords[i..][1..] == lineWords[i + 1..];
        var w := lineWords[i];
        lvlMin := if w < lvlMin then w else lvlMin + (w - lvlMin) * 0.001;
        lvlMax := if w > lvlMax then w else lvlMax + (w - lvlMax) * 0.001;
      }
    }

    method Trim(upto: nat)
      requires nextLineStart.Some? ==> upto <= nextLineStart.value
      modifies this`words, this`nextLineStart
      ensures var keep := if upto < |old(words)| then upto else |old(words)|;
        && words == old(words)[keep..]
        && nextLineStart == match old(nextLineStart) { case None => None case Some(s) => Some(s - keep) }
    {
      var keepFrom := if upto < |words| then upto else |words|;
      if keepFrom == 0 {
        return;
      }
      words := words[keepFrom..];
      if nextLineStart.Some? {
        nextLineStart := Some(nextLineStart.value - keepFrom);
      }
    }
  }

  /** From a fresh decoder, however the words are cut into blocks: the lines, the
      levels, the expected start and the words kept are those of draining once. */
  method ProcessAll(chunks: seq<seq<real>>, root: Root) returns (lines: seq<Line>, demod: AptDemod)
    ensures fresh(demod) && demod.Valid() && demod.stream == Flatten(chunks)
    ensures lines == Lines(Flatten(chunks), None, Levels(0.0, 0.05), root)
    ensures (demod.last, demod.Tracked()) == End(Flatten(chunks), None, Levels(0.0, 0.05))
    ensures Base(demod.last) <= |Flatten(chunks)| && demod.words == Flatten(chunks)[Base(demod.last)..]
    ensures demod.nextLineStart == if demod.last.Some? then Some(WORDS_PER_LINE) else None
  {
    hide Lines, End, Complete, Keeps;
    demod := new AptDemod();
    lines := [];
    assert chunks[0..] == chunks;
    NothingYet();
    for i := 0 to |chunks|
      invariant demod.Valid() && fresh(demod)
      invariant demod.stream + Flatten(chunks[i..]) == Flatten(chunks)
      invariant lines + Chunked(demod.stream, chunks[i..], demod.last, demod.Tracked(), root)
          == Chunked([], chunks, None, Levels(0.0, 0.05), root)
      invariant ChunkedEnd(demod.stream, chunks[i..], demod.last, demod.Tracked())
          == ChunkedEnd([], chunks, None, Levels(0.0, 0.05))
    {
      assert chunks[i..][1..] == chunks[i + 1..];
      ghost var before := demod.stream;
      var more := demod.Process(chunks[i], root);
      assert before + (chunks[i] + Flatten(chunks[i + 1..])) == demod.stream + Flatten(chunks[i + 1..]);
      lines := lines + more;
    }
    ChunkingIrrelevant([], chunks, None, Levels(0.0, 0.05), root);
    assert [] + Flatten(chunks) == Flatten(chunks);
    assert demod.stream + [] == demod.stream;
    KeepsMeans(demod.words, demod.nextLineStart, demod.stream, demod.last);
  }

  lemma NothingYet()
    ensures !Complete([], None)
  {}
}
