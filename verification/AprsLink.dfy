/** The whole APRS link, transmitter to parsed packet, at the level of symbols. */
module AprsLink {
  import opened Wrappers
  import opened Octets
  import opened Utf8Text
  import Fcs
  import LineCode
  import Hdlc
  import Ax25
  import AprsData

  datatype Packet = Packet(frame: Ax25.Frame, data: AprsData.Data)

  /** What the receiver records of its validated frames (server/src/aprs/mod.rs:56-72).
      A panic in the parser ends the decoding thread, so nothing follows it. */
  function Recorded(bodies: seq<seq<octet>>, others: AprsData.Unmodelled): seq<Packet> {
    if bodies == [] then [] else
    match Ax25.Parsed(bodies[0])
    case None => Recorded(bodies[1..], others)
    case Some(f) =>
      match AprsData.Parsed(f, others)
      case None => []
      case Some(d) => [Packet(f, d)] + Recorded(bodies[1..], others)
  }

  method Record(bodies: seq<seq<octet>>, others: AprsData.Unmodelled) returns (packets: seq<Packet>)
    ensures packets == Recorded(bodies, others)
  {
    hide Ax25.Parsed, AprsData.Parsed;
    packets := [];
    var i := 0;
    while i < |bodies|
      invariant 0 <= i <= |bodies|
      invariant packets + Recorded(bodies[i..], others) == Recorded(bodies, others)
    {
      assert bodies[i..][1..] == bodies[i + 1..];
      var f := Ax25.Parse(bodies[i]);
      if f.Some? {
        var d := AprsData.Parsed(f.value, others);
        if d.None? {
          return;
        }
        packets := packets + [Packet(f.value, d.value)];
      }
      i := i + 1;
    }
  }

  /** Parsing this body ends the decoding thread. */
  predicate Ends(body: seq<octet>, others: AprsData.Unmodelled) {
    Ax25.Parsed(body).Some? && AprsData.ParsePanics(Ax25.Parsed(body).value.info, others)
  }

  /** Bodies are recorded one after the other, up to the first that ends it all. */
  lemma {:induction false} RecordedInOrder(a: seq<seq<octet>>, b: seq<seq<octet>>, others: AprsData.Unmodelled)
    requires forall k | 0 <= k < |a| :: !Ends(a[k], others)
    ensures Recorded(a + b, others) == Recorded(a, others) + Recorded(b, others)
    ensures b != [] && Ends(b[0], others) ==> Recorded(b, others) == []
  {
    hide Ax25.Parsed, AprsData.Parsed, AprsData.ParsePanics;
    if b != [] && Ax25.Parsed(b[0]).Some? {
      PanicsUnparsed(Ax25.Parsed(b[0]).value, others);
    }
    if a == [] {
      assert a + b == b;
    } else {
      assert (a + b)[1..] == a[1..] + b;
      assert !Ends(a[0], others);
      if Ax25.Parsed(a[0]).Some? {
        PanicsUnparsed(Ax25.Parsed(a[0]).value, others);
      }
      RecordedInOrder(a[1..], b, others);
    }
  }

  /** What a fresh receiver records of the symbols of one transmission. */
  function Heard(info: Text, source: Text, dest: Text, path: seq<Text>, leadFlags: nat,
      others: AprsData.Unmodelled): seq<Packet>
  {
    var wire := LineCode.Wire(Ax25.EncodedUi(dest, source, path, info), leadFlags);
    Recorded(Hdlc.Accepted(Hdlc.RunFrames(Hdlc.INITIAL, LineCode.Nrzi(wire, true))), others)
  }

  predicate Addressable(source: Text, dest: Text, path: seq<Text>) {
    Ax25.Canonical(dest) && Ax25.Canonical(source) && |path| <= 8 && forall p | p in path :: Ax25.Canonical(p)
  }

  /** Lead flags, length, callsigns and path are within the limits. */
  predicate Sendable(info: Text, source: Text, dest: Text, path: seq<Text>, leadFlags: nat) {
    leadFlags >= 2 && 16 + 7 * |path| + |info| <= 254 && Addressable(source, dest, path)
  }

  /** This one packet, and no other, is recorded. */
  predicate IsHeard(heard: seq<Packet>, frame: Ax25.Frame) {
    |heard| == 1 && heard[0].frame == frame
  }

  /** Exactly one packet, with the fields sent and their parse, is recorded of a
      transmission if and only if there are two or more lead flags, the body has at
      most 254 octets, all callsigns are canonical, the path has at most eight, and
      the parser does not panic on the information field. If it does, nothing is. */
  lemma FrameDelivered(info: Text, source: Text, dest: Text, path: seq<Text>, leadFlags: nat,
      others: AprsData.Unmodelled)
    ensures var f := Ax25.Frame(dest, source, path, info);
      var heard := Heard(info, source, dest, path, leadFlags, others);
      && (IsHeard(heard, f)
          <==> Sendable(info, source, dest, path, leadFlags) && !AprsData.ParsePanics(info, others))
      && (IsHeard(heard, f) ==> AprsData.Parsed(f, others) == Some(heard[0].data))
      && (Sendable(info, source, dest, path, leadFlags) && AprsData.ParsePanics(info, others) ==> heard == [])
  {
    hide Ax25.Parsed, AprsData.Parsed, Ax25.Canonical, Ax25.EncodedAddr, LineCode.Nrzi, LineCode.Wire;
    hide Hdlc.RunFrames, Hdlc.Accepted, AprsData.ParsePanics;
    var body := Ax25.EncodedUi(dest, source, path, info);
    Ax25.PathLength(path);
    assert |body| == 16 + 7 * |path| + |info|;
    Hdlc.TransmissionReceived(body, leadFlags);
    Ax25.UiRoundTrip(dest, source, path, info);
    RecordedOne(body, others);
    PanicsUnparsed(Ax25.Frame(dest, source, path, info), others);
    HeardParsed(info, source, dest, path, leadFlags, others);
  }

  /** Whatever is recorded carries its own parse. */
  lemma HeardParsed(info: Text, source: Text, dest: Text, path: seq<Text>, leadFlags: nat,
      others: AprsData.Unmodelled)
    ensures forall p | p in Heard(info, source, dest, path, leadFlags, others) ::
      AprsData.Parsed(p.frame, others) == Some(p.data)
  {
    hide AprsData.Parsed, Ax25.Parsed, Hdlc.Accepted, Hdlc.RunFrames, LineCode.Nrzi, LineCode.Wire, Ax25.EncodedUi;
    var wire := LineCode.Wire(Ax25.EncodedUi(dest, source, path, info), leadFlags);
    RecordedParsed(Hdlc.Accepted(Hdlc.RunFrames(Hdlc.INITIAL, LineCode.Nrzi(wire, true))), others);
  }

  lemma {:induction false} RecordedParsed(bodies: seq<seq<octet>>, others: AprsData.Unmodelled)
    ensures forall p | p in Recorded(bodies, others) :: AprsData.Parsed(p.frame, others) == Some(p.data)
  {
    hide AprsData.Parsed, Ax25.Parsed;
    if bodies == [] {
    } else {
      RecordedParsed(bodies[1..], others);
    }
  }

  lemma PanicsUnparsed(f: Ax25.Frame, others: AprsData.Unmodelled)
    ensures AprsData.Parsed(f, others) == None <==> AprsData.ParsePanics(f.info, others)
  {
    hide AprsData.ParsePanics, AprsData.ParsedMessage, AprsData.ParsedPosition;
  }

  lemma RecordedOne(body: seq<octet>, others: AprsData.Unmodelled)
    ensures Recorded([body], others) == match Ax25.Parsed(body)
      case None => []
      case Some(f) =>
        match AprsData.Parsed(f, others)
        case None => []
        case Some(d) => [Packet(f, d)]
  {
    hide AprsData.Parsed, Ax25.Parsed;
    assert [body][1..] == [];
  }

  /** "/A=1" */
  const CUT_COMMENT: Text := [0x2F, 0x41, 0x3D, 0x31]

  /** A report with this comment is sent, for any place and symbol, and the receiver
      panics on it: a car at 29 degrees north and 82 east reads
      "!2900.00N/08200.00E>/A=1". */
  lemma CutReportUnheard(lat: real, lon: real, round: real -> int, symbol: Text, source: Text, dest: Text,
      path: seq<Text>, leadFlags: nat, others: AprsData.Unmodelled)
    requires AprsData.RoundsToNearest(round) && AprsData.Abs(lat) < 100.0 && AprsData.Abs(lon) < 1000.0
    requires Valid(symbol) && AprsData.PlainSymbol(symbol)
    requires leadFlags >= 2 && Addressable(source, dest, path)
    ensures var info := AprsData.PositionOctets(lat, lon, symbol, CUT_COMMENT, round);
      Sendable(info, source, dest, path, leadFlags) && Heard(info, source, dest, path, leadFlags, others) == []
  {
    hide Heard, Valid, AprsData.RoundsToNearest, AprsData.ParsedPosition, AprsData.PositionPanics, AprsData.SymbolParts,
      Ax25.Canonical, AprsData.AngleText, AprsData.ParsedAngle, AprsData.IsReport, AprsData.Abs, AprsData.PlainSymbol;
    var info := AprsData.PositionOctets(lat, lon, symbol, CUT_COMMENT, round);
    AsciiValid(CUT_COMMENT);
    CutCommentIsCut();
    hide AprsData.AltitudeCut;
    AprsData.PositionRoundTrip(lat, lon, symbol, CUT_COMMENT, round, others);
    AprsData.SymbolCharacters(symbol);
    AprsData.AngleRoundTrip(lat, 2, round, 0x4E, 0x53);
    AprsData.AngleRoundTrip(lon, 3, round, 0x45, 0x57);
    FrameDelivered(info, source, dest, path, leadFlags, others);
    assert info[0] == 0x21;
  }

  lemma CutCommentIsCut()
    ensures AprsData.AltitudeCut(CUT_COMMENT)
  {
    assert [0x2F, 0x41, 0x3D] <= CUT_COMMENT;
  }

  /** A text message reaches the other end as one packet with the same source,
      destination and path, the trimmed upper-cased addressee and the end-trimmed
      text, exactly under the conditions listed. */
  lemma MessageDelivered(to: Text, text: Text, source: Text, dest: Text, path: seq<Text>, leadFlags: nat,
      others: AprsData.Unmodelled)
    requires Valid(to) && Valid(text)
    ensures var info := AprsData.MessageOctets(to, text);
      var heard := Heard(info, source, dest, path, leadFlags, others);
      (IsHeard(heard, Ax25.Frame(dest, source, path, info)) && AprsData.IsMessage(Some(heard[0].data), to, text))
      <==>
      (Sendable(info, source, dest, path, leadFlags) && |to| <= 9 && CharCount(to) == |to| && text != [])
  {
    hide Heard, Sendable, Valid, Trim, AprsData.MessageOctets, AprsData.ParsedMessage, AprsData.IsMessage;
    var info := AprsData.MessageOctets(to, text);
    var f := Ax25.Frame(dest, source, path, info);
    FrameDelivered(info, source, dest, path, leadFlags, others);
    AprsData.MessageRoundTrip(to, text);
    MessageDispatch(to, text, f, others);
  }

  lemma MessageDispatch(to: Text, text: Text, f: Ax25.Frame, others: AprsData.Unmodelled)
    requires f.info == AprsData.MessageOctets(to, text)
    ensures !AprsData.ParsePanics(f.info, others)
    ensures AprsData.IsMessage(AprsData.Parsed(f, others), to, text)
        <==> AprsData.IsMessage(AprsData.ParsedMessage(f.info[1..]), to, text)
  {
    hide AprsData.ParsedMessage, CharCount, Uppercased, TrimEnd, Trim;
    assert f.info[0] == AprsData.COLON;
  }

  /** A position report reaches the other end within half a hundredth of a minute,
      exactly under the conditions listed. */
  lemma PositionDelivered(lat: real, lon: real, symbol: Text, comment: Text, round: real -> int,
      source: Text, dest: Text, path: seq<Text>, leadFlags: nat, others: AprsData.Unmodelled)
    requires AprsData.RoundsToNearest(round) && Valid(symbol) && Valid(comment)
    ensures var info := AprsData.PositionOctets(lat, lon, symbol, comment, round);
      var heard := Heard(info, source, dest, path, leadFlags, others);
      (IsHeard(heard, Ax25.Frame(dest, source, path, info))
        && AprsData.IsReport(Some(heard[0].data), lat, lon, symbol, comment))
      <==>
      (Sendable(info, source, dest, path, leadFlags) && AprsData.Abs(lat) < 100.0 && AprsData.Abs(lon) < 1000.0
        && AprsData.PlainSymbol(symbol) && !AprsData.AltitudeCut(comment))
  {
    hide Heard, Sendable, Valid, AprsData.AltitudeCut, AprsData.ParsedPosition, AprsData.PositionPanics,
      AprsData.RoundsToNearest, AprsData.IsReport, AprsData.PlainSymbol, AprsData.Abs;
    var info := AprsData.PositionOctets(lat, lon, symbol, comment, round);
    FrameDelivered(info, source, dest, path, leadFlags, others);
    AprsData.PositionRoundTrip(lat, lon, symbol, comment, round, others);
    assert info[0] == 0x21;
    ReportKept(AprsData.ParsedPosition(info[1..], others), lat, lon, symbol, comment);
  }

  lemma ReportKept(d: Option<AprsData.Data>, lat: real, lon: real, symbol: Text, comment: Text)
    ensures AprsData.IsReport(Some(AprsData.OrOther(d)), lat, lon, symbol, comment)
        <==> AprsData.IsReport(d, lat, lon, symbol, comment)
  {}

  /** The transmit path and the receive path run one after the other, as in the
      loopback at server/src/aprs/tx.rs:158-181, here without the audio between. */
  method Loopback(to: Text, text: Text, source: Text, dest: Text, path: seq<Text>, leadFlags: nat,
      others: AprsData.Unmodelled)
    returns (packets: seq<Packet>)
    ensures packets == Heard(AprsData.MessageOctets(to, text), source, dest, path, leadFlags, others)
  {
    hide Ax25.EncodedUi, AprsData.MessageOctets, Hdlc.Accepted, Hdlc.RunFrames, Hdlc.RunState, LineCode.Nrzi,
      LineCode.Wire, Recorded;
    var info := AprsData.MessageInfo(to, text);
    var body := Ax25.EncodeUi(dest, source, path, info);
    var levels := LineCode.Modulate(body, leadFlags);
    var receiver := new Hdlc.Hdlc();
    var bodies := Hdlc.Receive(receiver, levels);
    packets := Record(bodies, others);
  }
}
