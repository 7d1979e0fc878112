/** The AIS deframer (server/src/ais/demod.rs:190-254, 319-336), a second machine
    for the same line code: it looks for the flag only while hunting, closes a
    frame by counting ones, and leaves the frame when it closes one. */
module AisHdlc {
  import opened Wrappers
  import opened Octets
  import opened LineCode
  import opened H = Hdlc
  import Fcs

  datatype AisState = AisState(prevLevel: bool, inFrame: bool, hunt: bv8, ones: nat, bits: seq<bool>)

  const AIS_INITIAL := AisState(false, false, 0, 0, [])

  /** The bits left when a closing flag's first seven bits are dropped. */
  function DropFlag(bits: seq<bool>): seq<bool> {
    if |bits| >= 7 then bits[..|bits| - 7] else []
  }

  /** One decoded bit. */
  function AisTake(s: AisState, bit: bool): (AisState, Option<seq<bool>>) {
    var h := Slide(s.hunt, bit);
    if !s.inFrame then
      if h == 0x7E then (AisState(s.prevLevel, true, h, 0, []), None) else (s.(hunt := h), None)
    else if bit then
      (AisState(s.prevLevel, s.ones + 1 < 7, h, s.ones + 1, s.bits + [true]), None)
    else if s.ones == 5 then
      (s.(hunt := h, ones := 0), None)
    else if s.ones == 6 then
      (AisState(s.prevLevel, false, h, s.ones, []), Some(DropFlag(s.bits)))
    else
      (s.(hunt := h, ones := 0, bits := s.bits + [false]), None)
  }

  function AisStep(s: AisState, level: bool): (AisState, Option<seq<bool>>) {
    AisTake(s.(prevLevel := level), level == s.prevLevel)
  }

  class AisHdlc {
    var prevLevel: bool
    var inFrame: bool
    var hunt: bv8
    var ones: nat
    var bits: seq<bool>

    ghost function Abs(): AisState
      reads this
    {
      AisState(prevLevel, inFrame, hunt, ones, bits)
    }

    constructor ()
      ensures Abs() == AIS_INITIAL
    {
      prevLevel, inFrame, hunt, ones, bits := false, false, 0, 0, [];
    }

    method Push(level: bool) returns (frame: Option<seq<bool>>)
      modifies this
      ensures Abs() == AisStep(old(Abs()), level).0
      ensures frame == AisStep(old(Abs()), level).1
    {
      var bit := level == prevLevel;
      prevLevel := level;
      hunt := Slide(hunt, bit);
      if !inFrame {
        if hunt == 0x7E {
          inFrame := true;
          ones := 0;
          bits := [];
        }
        return None;
      }
      if bit {
        ones := ones + 1;
        bits := bits + [true];
        if ones >= 7 {
          inFrame := false;
        }
        return None;
      }
      if ones == 5 {
        ones := 0;
        return None;
      }
      if ones == 6 {
        var n := if |bits| >= 7 then |bits| - 7 else 0;
        bits := bits[..n];
        inFrame := false;
        frame := Some(bits);
        bits := [];
        return;
      }
      ones := 0;
      bits := bits + [false];
      frame := None;
    }
  }

  function AisAfter(s: AisState, bits: seq<bool>): AisState
    decreases |bits|
  {
    if bits == [] then s else AisAfter(AisTake(s, bits[0]).0, bits[1..])
  }

  function AisFrames(s: AisState, bits: seq<bool>): seq<seq<bool>>
    decreases |bits|
  {
    if bits == [] then []
    else Emit(AisTake(s, bits[0]).1) + AisFrames(AisTake(s, bits[0]).0, bits[1..])
  }

  function AisRunFrames(s: AisState, levels: seq<bool>): seq<seq<bool>>
    decreases |levels|
  {
    if levels == [] then []
    else Emit(AisStep(s, levels[0]).1) + AisRunFrames(AisStep(s, levels[0]).0, levels[1..])
  }

  lemma AisKeepsLevel(s: AisState, bit: bool, level: bool)
    ensures AisTake(s.(prevLevel := level), bit)
        == (AisTake(s, bit).0.(prevLevel := level), AisTake(s, bit).1)
  {}

  lemma {:induction false} AisFramesKeepLevel(s: AisState, bits: seq<bool>, level: bool)
    ensures AisFrames(s.(prevLevel := level), bits) == AisFrames(s, bits)
    decreases |bits|
  {
    hide AisTake;
    if bits == [] {
    } else {
      AisKeepsLevel(s, bits[0], level);
      AisFramesKeepLevel(AisTake(s, bits[0]).0, bits[1..], level);
    }
  }

  lemma {:induction false} AisRunDecodes(s: AisState, bits: seq<bool>)
    ensures AisRunFrames(s, Nrzi(bits, s.prevLevel)) == AisFrames(s, bits)
    decreases |bits|
  {
    hide AisTake;
    if bits == [] {
    } else {
      var next := if bits[0] then s.prevLevel else !s.prevLevel;
      AisKeepsLevel(s, bits[0], next);
      AisPrev(s.(prevLevel := next), bits[0]);
      AisRunDecodes(AisTake(s.(prevLevel := next), bits[0]).0, bits[1..]);
      AisFramesKeepLevel(AisTake(s, bits[0]).0, bits[1..], next);
    }
  }

  lemma AisPrev(s: AisState, bit: bool)
    ensures AisTake(s, bit).0.prevLevel == s.prevLevel
  {}

  lemma {:induction false} AisConcat(s: AisState, a: seq<bool>, b: seq<bool>)
    ensures AisAfter(s, a + b) == AisAfter(AisAfter(s, a), b)
    ensures AisFrames(s, a + b) == AisFrames(s, a) + AisFrames(AisAfter(s, a), b)
    decreases |a|
  {
    hide AisTake;
    if a == [] {
      assert a + b == b;
    } else {
      assert (a + b)[1..] == a[1..] + b;
      AisConcat(AisTake(s, a[0]).0, a[1..], b);
    }
  }

  // ----- The two machines in step -----

  /** Both machines hunt, or both are in the same frame. */
  predicate InStep(a: AisState, s: H.State) {
    && a.prevLevel == s.prevLevel
    && a.hunt == s.window
    && a.inFrame == s.inFrame
    && (a.inFrame ==> a.bits == s.bits && a.ones == s.ones && EndsIn(a.hunt, a.ones))
  }

  /** On every bit: unless it closes a frame the machines stay in step and emit
      nothing; when it does, they emit the same frame, except that the window
      machine emits nothing when a flag shares its first zero with the flag that
      opened the frame. */
  lemma TakeInStep(a: AisState, s: H.State, bit: bool)
    requires InStep(a, s)
    ensures var closes := a.inFrame && a.ones == 6 && !bit;
      if closes then
        AisTake(a, bit).1 == Some(DropFlag(a.bits))
        && Take(s, bit).1 == (if |a.bits| >= 7 then Some(DropFlag(a.bits)) else None)
      else
        AisTake(a, bit).1 == None && Take(s, bit).1 == None
        && InStep(AisTake(a, bit).0, Take(s, bit).0)
  {
    hide Slide, EndsIn;
    if a.inFrame {
      Bounded(a.hunt, a.ones);
      WindowStep(a.hunt, a.ones, bit);
    } else {
      FlagEndsInZero(a.hunt, bit);
    }
  }

  lemma Bounded(w: bv8, r: nat)
    requires EndsIn(w, r)
    ensures r <= 6
  {}

  lemma FlagEndsInZero(w: bv8, bit: bool)
    ensures Slide(w, bit) == 0x7E ==> EndsIn(Slide(w, bit), 0)
  {}

  /** On every bit stream, from any states in step, the first frame either machine
      could hand on is the same: while the ones-counter has emitted nothing neither
      has the window machine, and a nonempty first frame is common to both. */
  lemma {:induction false} FirstFrameAgrees(a: AisState, s: H.State, bits: seq<bool>)
    requires InStep(a, s)
    ensures AisFrames(a, bits) == [] ==>
        Frames(s, bits) == [] && InStep(AisAfter(a, bits), After(s, bits))
    ensures AisFrames(a, bits) != [] && AisFrames(a, bits)[0] != [] ==>
        Frames(s, bits) != [] && Frames(s, bits)[0] == AisFrames(a, bits)[0]
    decreases |bits|
  {
    hide AisTake, Take, InStep;
    if bits == [] {
    } else {
      TakeInStep(a, s, bits[0]);
      if AisTake(a, bits[0]).1 == None {
        FirstFrameAgrees(AisTake(a, bits[0]).0, Take(s, bits[0]).0, bits[1..]);
      }
    }
  }

  lemma InitialInStep()
    ensures InStep(AIS_INITIAL, INITIAL)
  {}

  /** While no flag shows, the machines stay in step and silent. */
  lemma {:induction false} ClearInStep(a: AisState, s: H.State, bits: seq<bool>)
    requires InStep(a, s) && Clear(a.hunt, bits)
    ensures AisFrames(a, bits) == [] && Frames(s, bits) == []
    ensures InStep(AisAfter(a, bits), After(s, bits))
    ensures AisAfter(a, bits).hunt == SlideAll(a.hunt, bits)
    decreases |bits|
  {
    hide AisTake, Take, Slide, EndsIn;
    if bits == [] {
    } else {
      TakeInStep(a, s, bits[0]);
      AisSlides(a, bits[0]);
      if a.inFrame {
        WindowStep(a.hunt, a.ones, bits[0]);
      }
      ClearInStep(AisTake(a, bits[0]).0, Take(s, bits[0]).0, bits[1..]);
    }
  }

  lemma AisSlides(a: AisState, bit: bool)
    ensures AisTake(a, bit).0.hunt == Slide(a.hunt, bit)
  {}

  lemma AisOneBit(a: AisState, bit: bool)
    ensures AisAfter(a, [bit]) == AisTake(a, bit).0
    ensures AisFrames(a, [bit]) == Emit(AisTake(a, bit).1)
  {
    hide AisTake;
    assert [bit][1..] == [];
  }

  function AisSynced(level: bool): AisState {
    AisState(level, true, 0x7E, 0, [])
  }

  lemma SyncedInStep(level: bool)
    ensures InStep(AisSynced(level), Synced(level))
    ensures EndsIn(0x7E, 0)
  {}

  /** Anything flag-free and then a flag brings both hunting machines into the
      same new frame. */
  lemma HuntedFlag(a: AisState, s: H.State, before: seq<bool>)
    requires InStep(a, s) && !a.inFrame && Clear(a.hunt, before + FLAG[..7])
    ensures AisAfter(a, before + FLAG) == AisSynced(a.prevLevel)
    ensures After(s, before + FLAG) == Synced(s.prevLevel)
    ensures AisFrames(a, before + FLAG) == [] && Frames(s, before + FLAG) == []
  {
    hide AisAfter, AisFrames, After, Frames, EndsIn, Slide, SlideAll, Clear;
    var head := before + FLAG[..7];
    assert before + FLAG == head + [false];
    ClearInStep(a, s, head);
    Hunts(s, head);
    AisHuntingLevel(a, head);
    var w := SlideAll(a.hunt, before);
    ClearConcat(a.hunt, before, FLAG[..7]);
    SlideSeven(w, FLAG[..7]);
    FlagWindow(w);
    Concat(s, head, [false]);
    AisConcat(a, head, [false]);
    FlagTaken(After(s, head));
    AisOneBit(AisAfter(a, head), false);
  }

  lemma {:induction false} AisHuntingLevel(a: AisState, bits: seq<bool>)
    ensures AisAfter(a, bits).prevLevel == a.prevLevel
    decreases |bits|
  {
    hide AisTake;
    if bits == [] {
    } else {
      AisPrev(a, bits[0]);
      AisHuntingLevel(AisTake(a, bits[0]).0, bits[1..]);
    }
  }

  /** Both machines on stuffed data and a flag, just after a flag. */
  lemma FrameInBoth(level: bool, data: seq<bool>)
    ensures AisFrames(AisSynced(level), Stuff(data, 0) + FLAG) == [data]
    ensures Frames(Synced(level), Stuff(data, 0) + FLAG) == [data]
    ensures var a := AisAfter(AisSynced(level), Stuff(data, 0) + FLAG);
      !a.inFrame && a.hunt == 0x7E && a.prevLevel == level
  {
    hide AisAfter, AisFrames, After, Frames, EndsIn, Slide, SlideAll, Clear, Stuff, Aligned, AisTake, Take;
    FrameReceived(level, data);
    var a, s := AisSynced(level), Synced(level);
    SyncedInStep(level);
    SyncedAligned(level);
    var stuffed := Stuff(data, 0);
    var head := stuffed + FLAG[..7];
    assert stuffed + FLAG == head + [false];
    StuffedClear(a.hunt, data, 0);
    var r: nat :| r < 5 && EndsIn(SlideAll(a.hunt, stuffed), r);
    OpenFlagClear(SlideAll(a.hunt, stuffed), r);
    ClearConcat(a.hunt, stuffed, FLAG[..7]);
    ClearInStep(a, s, head);
    Destuffs(s, data);
    OpenFlag(After(s, stuffed));
    Concat(s, stuffed, FLAG[..7]);
    var t := AisAfter(a, head);
    AisHuntingLevel(a, head);
    AisConcat(a, head, [false]);
    AisOneBit(t, false);
    AisCloses(t);
    assert t.bits == [] + data + FLAG[..7];
    assert DropFlag(t.bits) == data;
  }

  lemma AisCloses(a: AisState)
    requires a.inFrame && EndsIn(a.hunt, a.ones) && EndsIn(a.hunt, 6)
    ensures AisTake(a, false) == (AisState(a.prevLevel, false, 0x7E, 6, []), Some(DropFlag(a.bits)))
  {
    Bounded(a.hunt, a.ones);
    WindowStep(a.hunt, 6, false);
  }

  /** From power-up, on the levels of any flag-free preamble, a flag, stuffed data
      and a flag, both deframers emit exactly the data. */
  lemma DeframersAgree(preamble: seq<bool>, data: seq<bool>)
    requires Clear(0, preamble + FLAG[..7])
    ensures var levels := Nrzi(preamble + FLAG + (Stuff(data, 0) + FLAG), false);
      AisRunFrames(AIS_INITIAL, levels) == [data] && RunFrames(INITIAL, levels) == [data]
  {
    hide AisAfter, AisFrames, AisRunFrames, RunFrames, After, Frames, Clear, Stuff, Nrzi;
    InitialInStep();
    HuntedFlag(AIS_INITIAL, INITIAL, preamble);
    FrameInBoth(false, data);
    var bits := preamble + FLAG + (Stuff(data, 0) + FLAG);
    AisConcat(AIS_INITIAL, preamble + FLAG, Stuff(data, 0) + FLAG);
    Concat(INITIAL, preamble + FLAG, Stuff(data, 0) + FLAG);
    AisRunDecodes(AIS_INITIAL, bits);
    RunDecodes(INITIAL, bits);
  }

  // ----- Where they part -----

  /** A hunting ones-counter takes flags in pairs, so it receives the frame behind
      n flags exactly when n is odd; every even flag closes an empty frame. */
  lemma {:induction false} AisNeedsOddFlags(a: AisState, n: nat, data: seq<bool>)
    requires !a.inFrame && EndsIn(a.hunt, 0)
    ensures AisFrames(a, Flags(n) + (Stuff(data, 0) + FLAG))
        == Empties(n / 2) + (if n % 2 == 1 then [data] else [])
    decreases n
  {
    hide AisAfter, AisFrames, After, Frames, Clear, Stuff, EndsIn, SlideAll;
    var s := H.State(a.prevLevel, a.hunt, false, 0, []);
    var tail := Stuff(data, 0) + FLAG;
    if n == 0 {
      assert Flags(0) + tail == tail;
      HuntsPiece(a, data);
    } else {
      OpenFlagClear(a.hunt, 0);
      assert [] + FLAG[..7] == FLAG[..7] && [] + FLAG == FLAG;
      HuntedFlag(a, s, []);
      var b := AisSynced(a.prevLevel);
      FrameInBoth(a.prevLevel, data);
      if n == 1 {
        assert Flags(1) == FLAG + Flags(0) == FLAG;
        AisConcat(a, FLAG, tail);
      } else {
        FrameInBoth(a.prevLevel, []);
        StuffNothing([], 0);
        assert Stuff([], 0) + FLAG == FLAG;
        SyncedInStep(a.prevLevel);
        var rest := Flags(n - 2) + tail;
        assert Flags(n) + tail == FLAG + (FLAG + rest);
        AisConcat(a, FLAG, FLAG + rest);
        AisConcat(b, FLAG, rest);
        AisNeedsOddFlags(AisAfter(b, FLAG), n - 2, data);
        assert Empties(n / 2) == [[]] + Empties((n - 2) / 2);
      }
    }
  }

  /** The window machine receives the frame behind any positive number of flags. */
  lemma AprsNeedsOneFlag(s: H.State, n: nat, data: seq<bool>)
    requires !s.inFrame && EndsIn(s.window, 0)
    ensures Frames(s, Flags(n) + (Stuff(data, 0) + FLAG))
        == if n == 0 then [] else Empties(n - 1) + [data]
  {
    hide After, Frames, Clear, Stuff, EndsIn, SlideAll;
    var tail := Stuff(data, 0) + FLAG;
    if n == 0 {
      assert Flags(0) + tail == tail;
      StuffedClear(s.window, data, 0);
      var r: nat :| r < 5 && EndsIn(SlideAll(s.window, Stuff(data, 0)), r);
      Hunts(s, Stuff(data, 0));
      Concat(s, Stuff(data, 0), FLAG);
      FlagOpens(After(s, Stuff(data, 0)), r);
    } else {
      assert Flags(n) + tail == FLAG + (Flags(n - 1) + tail);
      FlagOpens(s, 0);
      Concat(s, FLAG, Flags(n - 1) + tail);
      IdleFlags(s.prevLevel, n - 1);
      Concat(Synced(s.prevLevel), Flags(n - 1), tail);
      FrameReceived(s.prevLevel, data);
    }
  }

  // ----- Frames that share flags -----

  /** Each piece is stuffed and closed by one flag. */
  function Joined(pieces: seq<seq<bool>>): seq<bool> {
    if pieces == [] then [] else Stuff(pieces[0], 0) + FLAG + Joined(pieces[1..])
  }

  /** The first of a list, the third, the fifth and so on. */
  function EveryOther(s: seq<seq<bool>>): seq<seq<bool>> {
    if s == [] then [] else if |s| == 1 then [s[0]] else [s[0]] + EveryOther(s[2..])
  }

  /** A hunting ones-counter lets a piece pass and starts at the flag behind it. */
  lemma HuntsPiece(a: AisState, data: seq<bool>)
    requires !a.inFrame && EndsIn(a.hunt, 0)
    ensures AisAfter(a, Stuff(data, 0) + FLAG) == AisSynced(a.prevLevel)
    ensures AisFrames(a, Stuff(data, 0) + FLAG) == []
  {
    hide AisAfter, AisFrames, After, Frames, Clear, Stuff, EndsIn, SlideAll;
    var s := H.State(a.prevLevel, a.hunt, false, 0, []);
    StuffedClear(a.hunt, data, 0);
    var r: nat :| r < 5 && EndsIn(SlideAll(a.hunt, Stuff(data, 0)), r);
    OpenFlagClear(SlideAll(a.hunt, Stuff(data, 0)), r);
    ClearConcat(a.hunt, Stuff(data, 0), FLAG[..7]);
    HuntedFlag(a, s, Stuff(data, 0));
  }

  /** Just after a flag, of pieces with one flag between each the ones-counter emits
      every second one, beginning with the first; the window machine emits all. */
  lemma {:induction false} AisTakesEveryOther(level: bool, pieces: seq<seq<bool>>)
    ensures AisFrames(AisSynced(level), Joined(pieces)) == EveryOther(pieces)
    ensures Frames(Synced(level), Joined(pieces)) == pieces
    decreases |pieces|
  {
    hide AisAfter, AisFrames, After, Frames, Stuff, EndsIn;
    if pieces == [] {
      NoBits(Synced(level));
      AisNoBits(AisSynced(level));
    } else {
      var first := Stuff(pieces[0], 0) + FLAG;
      FrameInBoth(level, pieces[0]);
      FrameReceived(level, pieces[0]);
      Concat(Synced(level), first, Joined(pieces[1..]));
      AisTakesEveryOther(level, pieces[1..]);
      var a := AisAfter(AisSynced(level), first);
      AisConcat(AisSynced(level), first, Joined(pieces[1..]));
      if |pieces| == 1 {
        AisNoBits(a);
      } else {
        var second := Stuff(pieces[1], 0) + FLAG;
        SyncedInStep(level);
        HuntsPiece(a, pieces[1]);
        assert pieces[1..][1..] == pieces[2..];
        AisConcat(a, second, Joined(pieces[2..]));
        AisTakesEveryOther(level, pieces[2..]);
      }
    }
  }

  lemma AisNoBits(a: AisState)
    ensures AisAfter(a, []) == a && AisFrames(a, []) == []
  {}

  /** Frames and idle flags as pieces: an idle flag closes an empty one. */
  function Pieces(bursts: seq<Burst>): seq<seq<bool>> {
    if bursts == [] then [] else [bursts[0].data] + Empties(bursts[0].idle) + Pieces(bursts[1..])
  }

  lemma {:induction false} JoinedConcat(a: seq<seq<bool>>, b: seq<seq<bool>>)
    ensures Joined(a + b) == Joined(a) + Joined(b)
  {
    hide Stuff;
    if a == [] {
      assert a + b == b;
    } else {
      assert (a + b)[1..] == a[1..] + b;
      JoinedConcat(a[1..], b);
    }
  }

  lemma {:induction false} JoinedEmpties(n: nat)
    ensures Joined(Empties(n)) == Flags(n)
  {
    if n == 0 {
    } else {
      assert Empties(n)[1..] == Empties(n - 1);
      assert Stuff([], 0) == [];
      JoinedEmpties(n - 1);
    }
  }

  lemma {:induction false} SentIsJoined(bursts: seq<Burst>)
    ensures Sent(bursts) == Joined(Pieces(bursts))
  {
    hide Stuff;
    if bursts == [] {
    } else {
      var b := bursts[0];
      SentIsJoined(bursts[1..]);
      JoinedConcat([b.data] + Empties(b.idle), Pieces(bursts[1..]));
      JoinedConcat([b.data], Empties(b.idle));
      JoinedEmpties(b.idle);
      assert [b.data][1..] == [];
      assert Joined([b.data]) == Stuff(b.data, 0) + FLAG;
    }
  }

  /** What the ones-counter makes of bursts of frames with any numbers of idle flags:
      every second one of the frames and idle flags, counted together. */
  lemma AisBursts(level: bool, bursts: seq<Burst>)
    ensures AisFrames(AisSynced(level), Sent(bursts)) == EveryOther(Pieces(bursts))
  {
    SentIsJoined(bursts);
    AisTakesEveryOther(level, Pieces(bursts));
  }
}
