/** From AIS symbols to AIVDM sentences: deframing, the FCS check
    (server/src/ais/demod.rs:319-336) and the sentence each payload becomes
    (server/src/ais/mod.rs:55-56). */
module AisLink {
  import opened Wrappers
  import opened Octets
  import opened LineCode
  import opened AisHdlc
  import H = Hdlc
  import Fcs
  import Armor
  import Nmea

  /** The payload of a deframed message with a good FCS. */
  function AisValidated(frame: seq<bool>): Option<seq<octet>> {
    if |frame| < 40 || |frame| % 8 != 0 || |frame| > 1200 then None else
    var octets := Pack(frame);
    if !Fcs.FcsOk(octets) then None else Some(octets[..|octets| - 2])
  }

  method AisValidate(frame: seq<bool>) returns (r: Option<seq<octet>>)
    ensures r == AisValidated(frame)
  {
    if |frame| < 40 || |frame| % 8 != 0 || |frame| > 1200 {
      return None;
    }
    var octets := PackInPlace(frame);
    var ok := Fcs.CheckFcs(octets[..]);
    if !ok {
      return None;
    }
    return Some(octets[..][..octets.Length - 2]);
  }

  /** A transmitted payload validates exactly when it has 3 to 148 octets. */
  lemma AisValidatedFramed(payload: seq<octet>)
    ensures AisValidated(Bits(Fcs.Framed(payload)))
        == if 3 <= |payload| <= 148 then Some(payload) else None
  {
    hide Fcs.FcsOk, Fcs.Trailer;
    var framed := Fcs.Framed(payload);
    PackBits(framed);
    assert framed[..|framed| - 2] == payload;
    if payload != [] {
      Fcs.FcsSound(payload);
    }
  }

  function SentenceOf(payload: seq<octet>, channel: seq<octet>): seq<octet> {
    Nmea.Sentence(Armor.MsbBits(payload), channel)
  }

  /** The sentences of the valid frames, in order. */
  function Sentences(frames: seq<seq<bool>>, channel: seq<octet>): seq<seq<octet>> {
    if frames == [] then [] else
    var v := AisValidated(frames[0]);
    (if v.Some? then [SentenceOf(v.value, channel)] else []) + Sentences(frames[1..], channel)
  }

  /** Sentences come in the order of their frames; a frame that is not valid gives none. */
  lemma {:induction false} SentencesInOrder(a: seq<seq<bool>>, b: seq<seq<bool>>, channel: seq<octet>)
    ensures Sentences(a + b, channel) == Sentences(a, channel) + Sentences(b, channel)
    ensures |a| == 1 ==>
      Sentences(a, channel)
      == if AisValidated(a[0]).Some? then [SentenceOf(AisValidated(a[0]).value, channel)] else []
  {
    hide AisValidated, SentenceOf;
    if a == [] {
      assert a + b == b;
    } else {
      assert (a + b)[1..] == a[1..] + b;
      SentencesInOrder(a[1..], b, channel);
    }
  }

  /** What one emission of the deframer adds. */
  function Reported(o: Option<seq<bool>>, channel: seq<octet>): seq<seq<octet>> {
    if o.Some? && AisValidated(o.value).Some? then [SentenceOf(AisValidated(o.value).value, channel)] else []
  }

  lemma SentencesOne(o: Option<seq<bool>>, rest: seq<seq<bool>>, channel: seq<octet>)
    ensures Sentences(H.Emit(o) + rest, channel) == Reported(o, channel) + Sentences(rest, channel)
  {
    hide AisValidated, SentenceOf;
    if o.Some? {
      assert (H.Emit(o) + rest)[1..] == rest;
    } else {
      assert H.Emit(o) + rest == rest;
    }
  }

  lemma ReceiveStep(out: seq<seq<octet>>, s: AisState, levels: seq<bool>, channel: seq<octet>)
    requires levels != []
    ensures out + Sentences(AisRunFrames(s, levels), channel)
        == out + Reported(AisStep(s, levels[0]).1, channel)
           + Sentences(AisRunFrames(AisStep(s, levels[0]).0, levels[1..]), channel)
  {
    hide AisStep, Sentences, Reported;
    SentencesOne(AisStep(s, levels[0]).1, AisRunFrames(AisStep(s, levels[0]).0, levels[1..]), channel);
  }

  /** The symbol loop: deframe, check, and make a sentence of each payload. */
  method Receive(hdlc: AisHdlc, levels: seq<bool>, channel: seq<octet>) returns (out: seq<seq<octet>>)
    modifies hdlc
    ensures out == Sentences(AisRunFrames(old(hdlc.Abs()), levels), channel)
  {
    hide AisStep, AisValidated, SentenceOf, Sentences, AisRunFrames;
    ghost var all := Sentences(AisRunFrames(hdlc.Abs(), levels), channel);
    out := [];
    assert levels[0..] == levels;
    for i := 0 to |levels|
      invariant out + Sentences(AisRunFrames(hdlc.Abs(), levels[i..]), channel) == all
    {
      assert levels[i..][1..] == levels[i + 1..];
      ReceiveStep(out, hdlc.Abs(), levels[i..], channel);
      var frame := hdlc.Push(levels[i]);
      ghost var before := out;
      if frame.Some? {
        var payload := AisValidate(frame.value);
        if payload.Some? {
          var sentence := MakeSentence(payload.value, channel);
          out := out + [sentence];
        }
      }
      assert out == before + Reported(frame, channel);
    }
    NoFramesLeft(hdlc.Abs(), levels[|levels|..], channel);
  }

  lemma NoFramesLeft(s: AisState, levels: seq<bool>, channel: seq<octet>)
    requires levels == []
    ensures Sentences(AisRunFrames(s, levels), channel) == []
  {}

  method MakeSentence(payload: seq<octet>, channel: seq<octet>) returns (s: seq<octet>)
    ensures s == SentenceOf(payload, channel)
  {
    var bits := Armor.MsbBits(payload);
    assert bits[..8 * |payload|] == bits;
    s := Nmea.Aivdm(payload, 8 * |payload|, channel);
  }

  /** A payload on the air, behind any preamble without a flag in it, becomes
      exactly one sentence if it has 3 to 148 octets and none otherwise, and a
      reader of that sentence gets the payload's bits back. */
  lemma PayloadReported(preamble: seq<bool>, payload: seq<octet>, channel: seq<octet>)
    requires H.Clear(0, preamble + FLAG[..7])
    requires Nmea.COMMA !in channel && Nmea.STAR !in channel
    ensures var levels := Nrzi(preamble + FLAG + (Stuff(Bits(Fcs.Framed(payload)), 0) + FLAG), false);
            Sentences(AisRunFrames(AIS_INITIAL, levels), channel)
            == if 3 <= |payload| <= 148 then [SentenceOf(payload, channel)] else []
    ensures Nmea.ReadBits(SentenceOf(payload, channel), channel) == Some(Armor.MsbBits(payload))
  {
    var data := Bits(Fcs.Framed(payload));
    DeframersAgree(preamble, data);
    AisValidatedFramed(payload);
    SentencesOne(Some(data), [], channel);
    assert H.Emit(Some(data)) + [] == [data];
    assert Sentences([], channel) == [];
    Nmea.SentenceBits(Armor.MsbBits(payload), channel);
  }
}
