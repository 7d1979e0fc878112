/** The APRS deframer (server/src/aprs/demod.rs:235-290, 352-368): NRZI decode,
    hunt for the flag in an eight-bit window, remove stuffed zeros, check the FCS.
    A symbol is the sign of the soft sample, a boolean level. */
module Hdlc {
  import opened Wrappers
  import opened Basics
  import opened Octets
  import opened LineCode
  import Fcs

  datatype State = State(prevLevel: bool, window: bv8, inFrame: bool, ones: nat, bits: seq<bool>)

  const INITIAL := State(false, 0, false, 0, [])

  function Slide(window: bv8, bit: bool): bv8 {
    (window << 1) | (if bit then 1 else 0)
  }

  /** One decoded bit. */
  function Take(s: State, bit: bool): (State, Option<seq<bool>>) {
    var w := Slide(s.window, bit);
    if w == 0x7E then
      (State(s.prevLevel, w, true, 0, []),
       if s.inFrame && |s.bits| >= 7 then Some(s.bits[..|s.bits| - 7]) else None)
    else if !s.inFrame then
      (s.(window := w), None)
    else if bit then
      if s.ones + 1 >= 7 then (State(s.prevLevel, w, false, s.ones + 1, []), None)
      else (s.(window := w, ones := s.ones + 1, bits := s.bits + [true]), None)
    else
      (s.(window := w, ones := 0, bits := if s.ones != 5 then s.bits + [false] else s.bits), None)
  }

  /** One symbol. */
  function Step(s: State, level: bool): (State, Option<seq<bool>>) {
    Take(s.(prevLevel := level), level == s.prevLevel)
  }

  class Hdlc {
    var prevLevel: bool
    var window: bv8
    var inFrame: bool
    var ones: nat
    var bits: seq<bool>

    ghost function Abs(): State
      reads this
    {
      State(prevLevel, window, inFrame, ones, bits)
    }

    constructor ()
      ensures Abs() == INITIAL
    {
      prevLevel, window, inFrame, ones, bits := false, 0, false, 0, [];
    }

    method Push(level: bool) returns (frame: Option<seq<bool>>)
      modifies this
      ensures Abs() == Step(old(Abs()), level).0
      ensures frame == Step(old(Abs()), level).1
    {
      var bit := level == prevLevel;
      prevLevel := level;
      window := Slide(window, bit);
      if window == 0x7E {
        frame := None;
        if inFrame && |bits| >= 7 {
          var n := |bits| - 7;
          frame := Some(bits[..n]);
        }
        inFrame := true;
        ones := 0;
        bits := [];
        return;
      }
      if !inFrame {
        return None;
      }
      if bit {
        ones := ones + 1;
        bits := bits + [true];
        if ones >= 7 {
          inFrame := false;
          bits := [];
        }
      } else {
        if ones != 5 {
          bits := bits + [false];
        }
        ones := 0;
      }
      frame := None;
    }
  }

  // ----- Runs -----

  function Emit(o: Option<seq<bool>>): seq<seq<bool>> {
    if o.Some? then [o.value] else []
  }

  /** The state after a run of symbols. */
  function RunState(s: State, levels: seq<bool>): State
    decreases |levels|
  {
    if levels == [] then s else RunState(Step(s, levels[0]).0, levels[1..])
  }

  /** The frames a run of symbols emits. */
  function RunFrames(s: State, levels: seq<bool>): seq<seq<bool>>
    decreases |levels|
  {
    if levels == [] then []
    else Emit(Step(s, levels[0]).1) + RunFrames(Step(s, levels[0]).0, levels[1..])
  }

  /** The same over decoded bits. */
  function After(s: State, bits: seq<bool>): State
    decreases |bits|
  {
    if bits == [] then s else After(Take(s, bits[0]).0, bits[1..])
  }

  function Frames(s: State, bits: seq<bool>): seq<seq<bool>>
    decreases |bits|
  {
    if bits == [] then []
    else Emit(Take(s, bits[0]).1) + Frames(Take(s, bits[0]).0, bits[1..])
  }

  lemma TakeKeepsLevel(s: State, bit: bool, level: bool)
    ensures Take(s.(prevLevel := level), bit)
        == (Take(s, bit).0.(prevLevel := level), Take(s, bit).1)
    ensures Take(s, bit).0.prevLevel == s.prevLevel
  {}

  /** NRZI decoding undoes NRZI encoding when both start at one level. */
  lemma {:induction false} RunDecodes(s: State, bits: seq<bool>)
    ensures RunFrames(s, Nrzi(bits, s.prevLevel)) == Frames(s, bits)
    ensures RunState(s, Nrzi(bits, s.prevLevel))
        == After(s, bits).(prevLevel := NrziEnd(bits, s.prevLevel))
    decreases |bits|
  {
    hide Take;
    if bits == [] {
    } else {
      var next := if bits[0] then s.prevLevel else !s.prevLevel;
      var t := Take(s.(prevLevel := next), bits[0]).0;
      TakeKeepsLevel(s, bits[0], next);
      RunDecodes(t, bits[1..]);
      AfterKeepsLevel(Take(s, bits[0]).0, bits[1..], next);
    }
  }

  lemma {:induction false} AfterKeepsLevel(s: State, bits: seq<bool>, level: bool)
    ensures After(s.(prevLevel := level), bits) == After(s, bits).(prevLevel := level)
    ensures Frames(s.(prevLevel := level), bits) == Frames(s, bits)
    decreases |bits|
  {
    hide Take;
    if bits == [] {
    } else {
      TakeKeepsLevel(s, bits[0], level);
      AfterKeepsLevel(Take(s, bits[0]).0, bits[1..], level);
    }
  }

  lemma {:induction false} RunConcat(s: State, a: seq<bool>, b: seq<bool>)
    ensures RunState(s, a + b) == RunState(RunState(s, a), b)
    ensures RunFrames(s, a + b) == RunFrames(s, a) + RunFrames(RunState(s, a), b)
    decreases |a|
  {
    hide Step;
    if a == [] {
      assert a + b == b;
    } else {
      assert (a + b)[1..] == a[1..] + b;
      RunConcat(Step(s, a[0]).0, a[1..], b);
    }
  }

  lemma {:induction false} Concat(s: State, a: seq<bool>, b: seq<bool>)
    ensures After(s, a + b) == After(After(s, a), b)
    ensures Frames(s, a + b) == Frames(s, a) + Frames(After(s, a), b)
    decreases |a|
  {
    hide Take;
    if a == [] {
      assert a + b == b;
    } else {
      assert (a + b)[1..] == a[1..] + b;
      Concat(Take(s, a[0]).0, a[1..], b);
    }
  }

  lemma NoBits(s: State)
    ensures After(s, []) == s && Frames(s, []) == []
  {}

  lemma OneBit(s: State, bit: bool)
    ensures After(s, [bit]) == Take(s, bit).0
    ensures Frames(s, [bit]) == Emit(Take(s, bit).1)
  {
    hide Take;
    assert [bit][1..] == [];
  }

  // ----- The window -----

  /** The window ends in a zero and then r ones. */
  predicate EndsIn(window: bv8, r: nat) {
    match r
    case 0 => window & 0x01 == 0x00
    case 1 => window & 0x03 == 0x01
    case 2 => window & 0x07 == 0x03
    case 3 => window & 0x0F == 0x07
    case 4 => window & 0x1F == 0x0F
    case 5 => window & 0x3F == 0x1F
    case 6 => window & 0x7F == 0x3F
    case _ => false
  }

  /** With fewer than seven ones behind it, the window shows a flag exactly when
      a zero follows six ones. */
  lemma WindowStep(window: bv8, r: nat, bit: bool)
    requires EndsIn(window, r)
    ensures r <= 6
    ensures Slide(window, bit) == 0x7E <==> !bit && r == 6
    ensures !bit ==> EndsIn(Slide(window, bit), 0)
    ensures bit && r < 6 ==> EndsIn(Slide(window, bit), r + 1)
  {}

  /** Just after a flag, at any line level. */
  function Synced(level: bool): State {
    State(level, 0x7E, true, 0, [])
  }

  lemma FlagWindow(w: bv8)
    ensures Slide(Slide(Slide(Slide(Slide(Slide(Slide(Slide(w, false), true), true), true), true), true), true), false)
        == 0x7E
  {}

  /** From every state, a flag synchronises. */
  lemma FlagSyncs(s: State)
    ensures After(s, FLAG) == Synced(s.prevLevel)
  {
    hide Take, Slide, After, SlideAll;
    Concat(s, FLAG[..7], [false]);
    assert FLAG == FLAG[..7] + [false];
    AfterSlides(s, FLAG[..7]);
    SlideSeven(s.window, FLAG[..7]);
    FlagWindow(s.window);
    FlagTaken(After(s, FLAG[..7]));
  }

  lemma FlagTaken(s: State)
    requires Slide(s.window, false) == 0x7E
    ensures After(s, [false]) == Synced(s.prevLevel)
    ensures Frames(s, [false])
        == (if s.inFrame && |s.bits| >= 7 then [s.bits[..|s.bits| - 7]] else [])
  {
    hide After, Frames, Slide;
    OneBit(s, false);
  }

  function SlideAll(w: bv8, bits: seq<bool>): bv8
    decreases |bits|
  {
    if bits == [] then w else SlideAll(Slide(w, bits[0]), bits[1..])
  }

  lemma {:induction false} AfterSlides(s: State, bits: seq<bool>)
    ensures After(s, bits).window == SlideAll(s.window, bits)
    ensures After(s, bits).prevLevel == s.prevLevel
    decreases |bits|
  {
    hide Slide;
    if bits == [] {
    } else {
      AfterSlides(Take(s, bits[0]).0, bits[1..]);
    }
  }

  lemma SlideSeven(w: bv8, b: seq<bool>)
    requires |b| == 7
    ensures SlideAll(w, b)
        == Slide(Slide(Slide(Slide(Slide(Slide(Slide(w, b[0]), b[1]), b[2]), b[3]), b[4]), b[5]), b[6])
  {
    hide Slide, SlideAll;
    SlideHead(w, b);
    var w1 := Slide(w, b[0]);
    SlideHead(w1, b[1..]);
    var w2 := Slide(w1, b[1]);
    SlideHead(w2, b[1..][1..]);
    var w3 := Slide(w2, b[2]);
    assert b[1..][1..][1..] == b[3..];
    SlideHead(w3, b[3..]);
    var w4 := Slide(w3, b[3]);
    SlideHead(w4, b[3..][1..]);
    var w5 := Slide(w4, b[4]);
    SlideHead(w5, b[3..][1..][1..]);
    var w6 := Slide(w5, b[5]);
    assert b[3..][1..][1..][1..] == [b[6]];
    SlideHead(w6, [b[6]]);
    SlideNone(Slide(w6, b[6]), [b[6]][1..]);
  }

  lemma SlideHead(w: bv8, b: seq<bool>)
    requires b != []
    ensures SlideAll(w, b) == SlideAll(Slide(w, b[0]), b[1..])
  {
    hide Slide;
  }

  lemma SlideNone(w: bv8, b: seq<bool>)
    requires b == []
    ensures SlideAll(w, b) == w
  {}

  // ----- Stuffed data -----

  /** In frame with `ones` ones in a row, transmitter and receiver agreeing. */
  predicate Aligned(s: State) {
    s.inFrame && s.ones < 5 && EndsIn(s.window, s.ones)
  }

  /** Removing the stuffed zeros: the receiver gains exactly the data bits. */
  lemma {:induction false} Destuffs(s: State, data: seq<bool>)
    requires Aligned(s)
    ensures var t := After(s, Stuff(data, s.ones));
      Aligned(t) && t.bits == s.bits + data && t.prevLevel == s.prevLevel
    ensures Frames(s, Stuff(data, s.ones)) == []
    decreases |data|
  {
    hide EndsIn, After, Frames;
    if data == [] {
      NoBits(s);
      assert s.bits + [] == s.bits;
    } else {
      var e := Emitted(data[0], s.ones);
      Concat(s, e, Stuff(data[1..], NextOnes(data[0], s.ones)));
      DestuffsOne(s, data[0]);
      Destuffs(After(s, e), data[1..]);
      assert s.bits + data == (s.bits + [data[0]]) + data[1..];
    }
  }

  lemma DestuffsOne(s: State, bit: bool)
    requires Aligned(s)
    ensures var t := After(s, Emitted(bit, s.ones));
      Aligned(t) && t.ones == NextOnes(bit, s.ones)
      && t.bits == s.bits + [bit] && t.prevLevel == s.prevLevel
    ensures Frames(s, Emitted(bit, s.ones)) == []
  {
    hide EndsIn, Slide, After, Frames;
    var t := Take(s, bit).0;
    WindowStep(s.window, s.ones, bit);
    OneBit(s, bit);
    if bit && s.ones == 4 {
      WindowStep(t.window, 5, false);
      OneBit(t, false);
      Concat(s, [true], [false]);
      assert [true] + [false] == Emitted(bit, s.ones);
    }
  }

  /** A flag after aligned data closes the frame. */
  lemma FlagCloses(s: State)
    requires Aligned(s)
    ensures After(s, FLAG) == Synced(s.prevLevel)
    ensures Frames(s, FLAG) == [s.bits]
  {
    hide Take, After, Frames, EndsIn, Slide;
    FlagSyncs(s);
    Concat(s, FLAG[..7], [false]);
    assert FLAG == FLAG[..7] + [false];
    OpenFlag(s);
    var t := After(s, FLAG[..7]);
    WindowStep(t.window, 6, false);
    FlagTaken(t);
    assert t.bits[..|t.bits| - 7] == s.bits;
  }

  /** The first seven bits of a flag look like data. */
  lemma OpenFlag(s: State)
    requires Aligned(s)
    ensures var t := After(s, FLAG[..7]);
      t.inFrame && EndsIn(t.window, 6) && t.bits == s.bits + FLAG[..7]
    ensures Frames(s, FLAG[..7]) == []
  {
    hide EndsIn, Slide, After, Frames;
    Concat(s, [false], Ones(6));
    assert FLAG[..7] == [false] + Ones(6);
    WindowStep(s.window, s.ones, false);
    OneBit(s, false);
    TakesOnes(After(s, [false]), 6);
  }

  function Ones(n: nat): (r: seq<bool>)
    ensures |r| == n
  {
    seq(n, _ => true)
  }

  lemma {:induction false} TakesOnes(s: State, n: nat)
    requires s.inFrame && EndsIn(s.window, s.ones) && s.ones + n <= 6
    ensures var t := After(s, Ones(n));
      t.inFrame && t.ones == s.ones + n && EndsIn(t.window, t.ones) && t.bits == s.bits + Ones(n)
    ensures Frames(s, Ones(n)) == []
    decreases n
  {
    hide EndsIn, Slide;
    if n == 0 {
    } else {
      WindowStep(s.window, s.ones, true);
      TakesOnes(Take(s, true).0, n - 1);
      assert Ones(n)[1..] == Ones(n - 1);
      assert Ones(n) == [true] + Ones(n - 1);
    }
  }

  lemma SyncedAligned(level: bool)
    ensures Aligned(Synced(level))
  {}

  // ----- Hunting -----

  /** No flag shows in the window while these bits pass. */
  predicate Clear(w: bv8, bits: seq<bool>)
    decreases |bits|
  {
    bits == [] || (Slide(w, bits[0]) != 0x7E && Clear(Slide(w, bits[0]), bits[1..]))
  }

  lemma {:induction false} ClearConcat(w: bv8, a: seq<bool>, b: seq<bool>)
    ensures Clear(w, a + b) <==> Clear(w, a) && Clear(SlideAll(w, a), b)
    ensures SlideAll(w, a + b) == SlideAll(SlideAll(w, a), b)
    decreases |a|
  {
    hide Slide;
    if a == [] {
      assert a + b == b;
    } else {
      assert (a + b)[1..] == a[1..] + b;
      ClearConcat(Slide(w, a[0]), a[1..], b);
    }
  }

  lemma ClearOne(w: bv8, bit: bool)
    ensures Clear(w, [bit]) <==> Slide(w, bit) != 0x7E
    ensures SlideAll(w, [bit]) == Slide(w, bit)
  {
    hide Slide;
    assert [bit][1..] == [];
  }

  lemma {:induction false} Hunts(s: State, bits: seq<bool>)
    requires !s.inFrame && Clear(s.window, bits)
    ensures After(s, bits) == s.(window := SlideAll(s.window, bits))
    ensures Frames(s, bits) == []
    decreases |bits|
  {
    hide Slide;
    if bits == [] {
    } else {
      Hunts(Take(s, bits[0]).0, bits[1..]);
    }
  }

  /** Stuffed data never shows a flag. */
  lemma {:induction false} StuffedClear(w: bv8, data: seq<bool>, ones: nat)
    requires ones < 5 && EndsIn(w, ones)
    ensures Clear(w, Stuff(data, ones))
    ensures exists r: nat :: r < 5 && EndsIn(SlideAll(w, Stuff(data, ones)), r)
    decreases |data|
  {
    hide EndsIn, Slide, Clear, SlideAll;
    if data == [] {
      ClearNothing(w);
    } else {
      var next := NextOnes(data[0], ones);
      var e := Emitted(data[0], ones);
      ClearConcat(w, e, Stuff(data[1..], next));
      EmittedClear(w, data[0], ones);
      StuffedClear(SlideAll(w, e), data[1..], next);
    }
  }

  lemma ClearNothing(w: bv8)
    ensures Clear(w, []) && SlideAll(w, []) == w
  {}

  lemma EmittedClear(w: bv8, bit: bool, ones: nat)
    requires ones < 5 && EndsIn(w, ones)
    ensures Clear(w, Emitted(bit, ones))
    ensures EndsIn(SlideAll(w, Emitted(bit, ones)), NextOnes(bit, ones))
  {
    hide EndsIn, Slide, Clear, SlideAll;
    WindowStep(w, ones, bit);
    ClearOne(w, bit);
    if bit && ones == 4 {
      WindowStep(Slide(w, true), 5, false);
      ClearOne(Slide(w, true), false);
      ClearConcat(w, [true], [false]);
      assert [true] + [false] == Emitted(bit, ones);
    }
  }

  lemma {:induction false} OnesClear(w: bv8, r: nat, n: nat)
    requires EndsIn(w, r) && r + n <= 6
    ensures Clear(w, Ones(n)) && EndsIn(SlideAll(w, Ones(n)), r + n)
    decreases n
  {
    hide EndsIn, Slide;
    if n == 0 {
    } else {
      WindowStep(w, r, true);
      OnesClear(Slide(w, true), r + 1, n - 1);
      assert Ones(n)[1..] == Ones(n - 1);
    }
  }

  lemma OpenFlagClear(w: bv8, r: nat)
    requires EndsIn(w, r) && r < 6
    ensures Clear(w, FLAG[..7]) && EndsIn(SlideAll(w, FLAG[..7]), 6)
  {
    hide EndsIn, Slide, Clear, SlideAll;
    WindowStep(w, r, false);
    ClearOne(w, false);
    OnesClear(Slide(w, false), 0, 6);
    ClearConcat(w, [false], Ones(6));
    assert FLAG[..7] == [false] + Ones(6);
  }

  /** The first flag while hunting opens a frame and emits nothing. */
  lemma FlagOpens(s: State, r: nat)
    requires !s.inFrame && EndsIn(s.window, r) && r < 6
    ensures After(s, FLAG) == Synced(s.prevLevel)
    ensures Frames(s, FLAG) == []
  {
    hide EndsIn, Slide, Clear, SlideAll, After, Frames;
    OpenFlagClear(s.window, r);
    Hunts(s, FLAG[..7]);
    Concat(s, FLAG[..7], [false]);
    assert FLAG == FLAG[..7] + [false];
    WindowStep(SlideAll(s.window, FLAG[..7]), 6, false);
    FlagTaken(After(s, FLAG[..7]));
  }

  // ----- Self-synchronisation -----

  /** A frame to send and the number of idle flags after its closing flag. */
  datatype Burst = Burst(data: seq<bool>, idle: nat)

  function Sent(bursts: seq<Burst>): seq<bool> {
    if bursts == [] then []
    else Stuff(bursts[0].data, 0) + FLAG + Flags(bursts[0].idle) + Sent(bursts[1..])
  }

  function Empties(n: nat): (r: seq<seq<bool>>)
    ensures |r| == n
  {
    seq(n, _ => [])
  }

  function Expected(bursts: seq<Burst>): seq<seq<bool>> {
    if bursts == [] then []
    else [bursts[0].data] + Empties(bursts[0].idle) + Expected(bursts[1..])
  }

  lemma {:induction false} IdleFlags(level: bool, n: nat)
    ensures After(Synced(level), Flags(n)) == Synced(level)
    ensures Frames(Synced(level), Flags(n)) == Empties(n)
  {
    if n == 0 {
    } else {
      SyncedAligned(level);
      FlagCloses(Synced(level));
      Concat(Synced(level), FLAG, Flags(n - 1));
      IdleFlags(level, n - 1);
      assert Empties(n) == [[]] + Empties(n - 1);
    }
  }

  lemma FrameReceived(level: bool, data: seq<bool>)
    ensures After(Synced(level), Stuff(data, 0) + FLAG) == Synced(level)
    ensures Frames(Synced(level), Stuff(data, 0) + FLAG) == [data]
  {
    hide After, Frames, Aligned;
    var s := Synced(level);
    SyncedAligned(level);
    Concat(s, Stuff(data, 0), FLAG);
    Destuffs(s, data);
    FlagCloses(After(s, Stuff(data, 0)));
    assert [] + data == data;
  }

  lemma {:induction false} BurstsReceived(level: bool, bursts: seq<Burst>)
    ensures After(Synced(level), Sent(bursts)) == Synced(level)
    ensures Frames(Synced(level), Sent(bursts)) == Expected(bursts)
  {
    hide Take, Stuff, Flags;
    if bursts == [] {
    } else {
      var b := bursts[0];
      FrameReceived(level, b.data);
      IdleFlags(level, b.idle);
      BurstsReceived(level, bursts[1..]);
      Concat(Synced(level), Stuff(b.data, 0) + FLAG, Flags(b.idle));
      Concat(Synced(level), Stuff(b.data, 0) + FLAG + Flags(b.idle), Sent(bursts[1..]));
    }
  }

  /** Whatever the deframer holds and whatever level the line is at, two flags
      bring it to the synchronised state; from there it emits exactly the frames
      sent, in order, plus one empty frame per idle flag. */
  lemma SelfSynchronises(s: State, level: bool, bursts: seq<Burst>)
    ensures var head := Nrzi(FLAG + FLAG, level);
      var body := Nrzi(Sent(bursts), NrziEnd(FLAG + FLAG, level));
      Nrzi(FLAG + FLAG + Sent(bursts), level) == head + body
      && RunState(s, head) == Synced(NrziEnd(FLAG + FLAG, level))
      && RunFrames(s, head + body) == RunFrames(s, head) + Expected(bursts)
  {
    hide RunState, RunFrames, After, Frames, Nrzi, NrziEnd, Sent;
    NrziConcat(FLAG + FLAG, Sent(bursts), level);
    var head := Nrzi(FLAG + FLAG, level);
    var mid := NrziEnd(FLAG + FLAG, level);
    TwoFlagsSync(s, level);
    RunConcat(s, head, Nrzi(Sent(bursts), mid));
    RunDecodes(Synced(mid), Sent(bursts));
    BurstsReceived(mid, bursts);
  }

  lemma {:induction false} NrziConcat(a: seq<bool>, b: seq<bool>, level: bool)
    ensures Nrzi(a + b, level) == Nrzi(a, level) + Nrzi(b, NrziEnd(a, level))
    decreases |a|
  {
    hide Nrzi;
    if a == [] {
      assert a + b == b && Nrzi(a, level) == [];
    } else {
      var next := if a[0] then level else !level;
      NrziConcat(a[1..], b, next);
      NrziHead(a + b, level);
      NrziHead(a, level);
      assert (a + b)[1..] == a[1..] + b;
    }
  }

  lemma NrziHead(bits: seq<bool>, level: bool)
    requires bits != []
    ensures var next := if bits[0] then level else !level;
      Nrzi(bits, level) == [next] + Nrzi(bits[1..], next)
  {}

  lemma {:induction false} NrziEndConcat(a: seq<bool>, b: seq<bool>, level: bool)
    ensures NrziEnd(a + b, level) == NrziEnd(b, NrziEnd(a, level))
    decreases |a|
  {
    if a == [] {
      assert a + b == b;
    } else {
      NrziEndConcat(a[1..], b, if a[0] then level else !level);
      assert (a + b)[1..] == a[1..] + b;
    }
  }

  lemma {:induction false} RunLevel(s: State, levels: seq<bool>)
    ensures RunState(s, levels).prevLevel == if levels == [] then s.prevLevel else levels[|levels| - 1]
    decreases |levels|
  {
    hide Take;
    if levels == [] {
    } else {
      TakeKeepsLevel(s.(prevLevel := levels[0]), levels[0] == s.prevLevel, levels[0]);
      RunLevel(Step(s, levels[0]).0, levels[1..]);
    }
  }

  lemma {:induction false} NrziLast(bits: seq<bool>, level: bool)
    ensures NrziEnd(bits, level) == if bits == [] then level else Nrzi(bits, level)[|bits| - 1]
    decreases |bits|
  {
    if bits == [] {
    } else {
      NrziLast(bits[1..], if bits[0] then level else !level);
    }
  }

  lemma TwoFlagsSync(s: State, level: bool)
    ensures RunState(s, Nrzi(FLAG + FLAG, level)) == Synced(NrziEnd(FLAG + FLAG, level))
  {
    hide RunState, RunFrames, After, Frames, Nrzi, NrziEnd;
    NrziConcat(FLAG, FLAG, level);
    NrziEndConcat(FLAG, FLAG, level);
    var first := Nrzi(FLAG, level);
    var mid := NrziEnd(FLAG, level);
    RunConcat(s, first, Nrzi(FLAG, mid));
    var t := RunState(s, first);
    RunLevel(s, first);
    NrziLast(FLAG, level);
    assert t.prevLevel == mid;
    RunDecodes(t, FLAG);
    FlagSyncs(t);
  }

  // ----- Validation -----

  /** Data bits to octets, FCS checked and removed. */
  function Validated(frame: seq<bool>): Option<seq<octet>> {
    if |frame| < 144 || |frame| % 8 != 0 || |frame| > 2048 then None else
    var octets := Pack(frame);
    if !Fcs.FcsOk(octets) then None else Some(octets[..|octets| - 2])
  }

  method Validate(frame: seq<bool>) returns (r: Option<seq<octet>>)
    ensures r == Validated(frame)
  {
    if |frame| < 18 * 8 || |frame| % 8 != 0 || |frame| > 2048 {
      return None;
    }
    var octets := PackInPlace(frame);
    var ok := Fcs.CheckFcs(octets[..]);
    if !ok {
      return None;
    }
    return Some(octets[..][..octets.Length - 2]);
  }

  /** A transmitted body validates exactly when it has 16 to 254 octets. */
  lemma ValidatedFramed(body: seq<octet>)
    ensures Validated(Bits(Fcs.Framed(body)))
        == if 16 <= |body| <= 254 then Some(body) else None
  {
    hide Fcs.FcsOk, Fcs.Trailer;
    var framed := Fcs.Framed(body);
    PackBits(framed);
    assert framed[..|framed| - 2] == body;
    if body != [] {
      Fcs.FcsSound(body);
    }
  }

  function Accepted(frames: seq<seq<bool>>): seq<seq<octet>> {
    if frames == [] then [] else
    var v := Validated(frames[0]);
    (if v.Some? then [v.value] else []) + Accepted(frames[1..])
  }

  lemma {:induction false} AcceptedConcat(a: seq<seq<bool>>, b: seq<seq<bool>>)
    ensures Accepted(a + b) == Accepted(a) + Accepted(b)
  {
    if a == [] {
      assert a + b == b;
    } else {
      assert (a + b)[1..] == a[1..] + b;
      AcceptedConcat(a[1..], b);
    }
  }

  lemma {:induction false} EmptiesRejected(n: nat)
    ensures Accepted(Empties(n)) == []
  {
    if n == 0 {
    } else {
      assert Empties(n)[1..] == Empties(n - 1);
      EmptiesRejected(n - 1);
    }
  }

  // ----- One transmission into a fresh receiver -----

  /** Seven ones and a zero: how a receiver at the wrong level hears a flag. */
  const MISHEARD: seq<bool> := [true, true, true, true, true, true, true, false]

  /** The transmitter starts at level true, the receiver expects false: the first
      decoded bit is wrong, the rest are right. */
  lemma FirstBitMisheard(rest: seq<bool>)
    ensures Nrzi(FLAG + rest, true) == Nrzi(MISHEARD + rest, false)
  {
    hide Nrzi;
    var tail := FLAG[1..] + rest;
    NrziHead(FLAG + rest, true);
    NrziHead(MISHEARD + rest, false);
    assert (FLAG + rest)[1..] == tail && (MISHEARD + rest)[1..] == tail;
  }

  lemma EightRun(w: bv8)
    requires EndsIn(w, 6)
    ensures Slide(w, true) != 0x7E
    ensures Slide(Slide(w, true), false) != 0x7E
    ensures EndsIn(Slide(Slide(w, true), false), 0)
  {}

  lemma MisheardClear()
    ensures Clear(0, MISHEARD) && EndsIn(SlideAll(0, MISHEARD), 0)
  {
    hide Slide, Clear, SlideAll;
    OnesClear(0, 0, 6);
    var w := SlideAll(0, Ones(6));
    EightRun(w);
    ClearOne(w, true);
    ClearOne(Slide(w, true), false);
    ClearConcat(0, Ones(6), [true]);
    ClearConcat(0, Ones(6) + [true], [false]);
    assert MISHEARD == Ones(6) + [true] + [false];
  }

  /** Flags while in the synchronised state, then a frame, then five flags. */
  lemma SyncedTransmission(level: bool, n: nat, data: seq<bool>)
    ensures Frames(Synced(level), Flags(n) + (Stuff(data, 0) + Flags(5)))
        == Empties(n) + [data] + Empties(4)
  {
    hide After, Frames, Stuff;
    var s := Synced(level);
    IdleFlags(level, n);
    Concat(s, Flags(n), Stuff(data, 0) + Flags(5));
    FrameReceived(level, data);
    IdleFlags(level, 4);
    Concat(s, Stuff(data, 0) + FLAG, Flags(4));
    assert Flags(5) == FLAG + Flags(4);
    assert Stuff(data, 0) + Flags(5) == Stuff(data, 0) + FLAG + Flags(4);
  }

  /** A receiver that missed the only lead flag hears the rest as idle. */
  lemma HuntedTransmission(s: State, data: seq<bool>)
    requires !s.inFrame && EndsIn(s.window, 0)
    ensures Frames(s, Stuff(data, 0) + Flags(5)) == Empties(4)
  {
    hide After, Frames, Stuff, EndsIn, Clear, SlideAll;
    StuffedClear(s.window, data, 0);
    Hunts(s, Stuff(data, 0));
    var r: nat :| r < 5 && EndsIn(SlideAll(s.window, Stuff(data, 0)), r);
    var t := After(s, Stuff(data, 0));
    FlagOpens(t, r);
    Concat(s, Stuff(data, 0), Flags(5));
    assert Flags(5) == FLAG + Flags(4);
    Concat(t, FLAG, Flags(4));
    IdleFlags(t.prevLevel, 4);
  }

  /** A fresh receiver misses the first flag and is hunting after it. */
  lemma FirstFlagMissed(rest: seq<bool>)
    ensures var s := After(INITIAL, MISHEARD);
      !s.inFrame && EndsIn(s.window, 0)
      && RunFrames(INITIAL, Nrzi(FLAG + rest, true)) == Frames(s, rest)
  {
    hide After, Frames, RunFrames, RunState, Nrzi, EndsIn, SlideAll, Clear;
    FirstBitMisheard(rest);
    RunDecodes(INITIAL, MISHEARD + rest);
    Concat(INITIAL, MISHEARD, rest);
    MisheardClear();
    Hunts(INITIAL, MISHEARD);
  }

  /** What a fresh receiver hands on of one modulated frame: the frame, exactly
      when there are two or more lead flags and 16 to 254 octets of body. */
  lemma TransmissionReceived(body: seq<octet>, leadFlags: nat)
    ensures Accepted(RunFrames(INITIAL, Nrzi(Wire(body, leadFlags), true)))
        == if leadFlags >= 2 && 16 <= |body| <= 254 then [body] else []
  {
    hide After, Frames, RunFrames, Nrzi, Stuff, EndsIn, Validated, Fcs.Framed, Bits;
    var data := Bits(Fcs.Framed(body));
    var n := AtLeastOne(leadFlags) - 1;
    var rest := Flags(n) + (Stuff(data, 0) + Flags(5));
    assert Wire(body, leadFlags) == FLAG + rest;
    FirstFlagMissed(rest);
    var s := After(INITIAL, MISHEARD);
    if n == 0 {
      assert rest == Stuff(data, 0) + Flags(5);
      HuntedTransmission(s, data);
      EmptiesRejected(4);
    } else {
      var rest' := Flags(n - 1) + (Stuff(data, 0) + Flags(5));
      assert rest == FLAG + rest';
      FlagOpens(s, 0);
      Concat(s, FLAG, rest');
      SyncedTransmission(s.prevLevel, n - 1, data);
      assert Frames(s, rest) == Empties(n - 1) + [data] + Empties(4);
      AcceptedFrame(n - 1, data, 4);
      ValidatedFramed(body);
    }
  }

  lemma AcceptedFrame(n: nat, data: seq<bool>, m: nat)
    ensures Accepted(Empties(n) + [data] + Empties(m))
        == if Validated(data).Some? then [Validated(data).value] else []
  {
    hide Validated;
    AcceptedConcat(Empties(n) + [data], Empties(m));
    AcceptedConcat(Empties(n), [data]);
    EmptiesRejected(n);
    EmptiesRejected(m);
    assert [data][1..] == [];
  }

  /** What one emission hands on. */
  function Passed(o: Option<seq<bool>>): seq<seq<octet>> {
    if o.Some? && Validated(o.value).Some? then [Validated(o.value).value] else []
  }

  /** The symbol loop of the receiver (server/src/aprs/demod.rs:340-345). */
  method Receive(hdlc: Hdlc, levels: seq<bool>) returns (frames: seq<seq<octet>>)
    modifies hdlc
    ensures hdlc.Abs() == RunState(old(hdlc.Abs()), levels)
    ensures frames == Accepted(RunFrames(old(hdlc.Abs()), levels))
  {
    hide Step, Validated, RunState, RunFrames, Accepted;
    frames := [];
    ghost var start := hdlc.Abs();
    assert levels[0..] == levels;
    for i := 0 to |levels|
      invariant RunState(start, levels) == RunState(hdlc.Abs(), levels[i..])
      invariant Accepted(RunFrames(start, levels)) == frames + Accepted(RunFrames(hdlc.Abs(), levels[i..]))
    {
      assert levels[i..][1..] == levels[i + 1..];
      ReceiveStep(frames, hdlc.Abs(), levels[i..]);
      var frame := hdlc.Push(levels[i]);
      ghost var before := frames;
      if frame.Some? {
        var v := Validate(frame.value);
        if v.Some? {
          frames := frames + [v.value];
        }
      }
      assert frames == before + Passed(frame);
    }
    ReceiveNone(hdlc.Abs(), levels[|levels|..]);
  }

  lemma ReceiveStep(frames: seq<seq<octet>>, s: State, levels: seq<bool>)
    requires levels != []
    ensures RunState(s, levels) == RunState(Step(s, levels[0]).0, levels[1..])
    ensures frames + Accepted(RunFrames(s, levels))
        == frames + Passed(Step(s, levels[0]).1) + Accepted(RunFrames(Step(s, levels[0]).0, levels[1..]))
  {
    hide Step, Accepted, Emit, Passed;
    var (t, o) := Step(s, levels[0]);
    AcceptedConcat(Emit(o), RunFrames(t, levels[1..]));
    AcceptedEmit(o);
  }

  lemma AcceptedEmit(o: Option<seq<bool>>)
    ensures Accepted(Emit(o)) == Passed(o)
  {
    hide Validated;
    if o.Some? {
      assert [o.value][1..] == [];
    }
  }

  lemma ReceiveNone(s: State, levels: seq<bool>)
    requires levels == []
    ensures RunState(s, levels) == s && Accepted(RunFrames(s, levels)) == []
  {}
}
