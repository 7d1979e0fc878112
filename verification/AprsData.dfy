/** The APRS information field: building messages and positions
    (server/src/aprs/tx.rs:19-55) and parsing them (server/src/aprs/parse.rs:49-178,
    275-286). Numbers are exact reals. */
module AprsData {
  import opened Wrappers
  import opened Octets
  import opened Utf8Text
  import Ax25

  datatype Kind = Position | Status | Message | Other

  datatype Data = Data(
    kind: Kind,
    lat: Option<Float>,
    lon: Option<Float>,
    symbolTable: Option<octet>,
    symbolCode: Option<octet>,
    course: Option<Float>,
    speed: Option<Float>,
    altitude: Option<Float>,
    comment: Text,
    messageTo: Option<Text>,
    messageText: Option<Text>)

  function Empty(kind: Kind): Data {
    Data(kind, None, None, None, None, None, None, None, [], None, None)
  }

  /** The packet kinds without an encoder in the repository: MIC-E and compressed
      positions, status texts and anything unrecognised. None of them panics. */
  datatype Unmodelled = Unmodelled(packet: Ax25.Frame -> Data, compressed: Text -> Option<Data>)

  const COLON: octet := 0x3A

  // ----- Messages -----

  function MessageOctets(to: Text, text: Text): Text {
    var padding := if CharCount(to) < 9 then 9 - CharCount(to) else 0;
    [COLON] + (Uppercased(to) + Spaces(padding)) + [COLON] + text
  }

  method MessageInfo(to: Text, text: Text) returns (out: seq<octet>)
    ensures out == MessageOctets(to, text)
  {
    var upper := Uppercased(to);
    UppercasedCount(to);
    out := [COLON];
    out := out + (upper + Spaces(if CharCount(upper) < 9 then 9 - CharCount(upper) else 0));
    out := out + [COLON];
    out := out + text;
  }

  function ParsedMessage(body: seq<octet>): Option<Data> {
    var s := AsStr(body);
    if |s| < 11 || s[9] != COLON then None
    else Some(Empty(Message).(
      messageTo := Some(Trim(s[..9])),
      messageText := Some(TrimEnd(s[10..])),
      comment := TrimEnd(s[10..])))
  }

  lemma {:induction false} SpacesValid(n: nat)
    ensures Valid(Spaces(n))
  {
    AsciiValid(Spaces(n));
  }

  lemma ColonValid()
    ensures Valid([COLON])
  {
    AsciiValid([COLON]);
  }

  lemma MessageValid(to: Text, text: Text)
    requires Valid(to) && Valid(text)
    ensures Valid(MessageOctets(to, text)[1..])
  {
    hide Valid, CharCount, Uppercased, Spaces;
    var padding := if CharCount(to) < 9 then 9 - CharCount(to) else 0;
    UppercasedValid(to);
    SpacesValid(padding);
    ColonValid();
    ValidConcat(Uppercased(to), Spaces(padding));
    ValidConcat(Uppercased(to) + Spaces(padding), [COLON]);
    ValidConcat(Uppercased(to) + Spaces(padding) + [COLON], text);
    assert MessageOctets(to, text)[1..] == Uppercased(to) + Spaces(padding) + [COLON] + text;
  }

  predicate IsMessage(d: Option<Data>, to: Text, text: Text) {
    d == Some(Data(Message, None, None, None, None, None, None, None, TrimEnd(text), Some(Trim(Uppercased(to))),
                   Some(TrimEnd(text))))
  }

  function UpperCase(c: octet): octet {
    if 0x61 <= c <= 0x7A then c & 0xDF else c
  }

  lemma UpperIsCase(c: octet)
    ensures Upper(c) == UpperCase(c)
  {}

  /** The octets of a message: a colon, nine characters, a colon, the text. */
  lemma MessageLayout(to: Text, text: Text)
    requires CharCount(to) == |to| <= 9
    ensures var m := MessageOctets(to, text);
      |m| == 11 + |text| && m[0] == 0x3A && m[10] == 0x3A && m[11..] == text
      && forall k | 0 <= k < 9 :: m[1 + k] == if k < |to| then UpperCase(to[k]) else 0x20
  {
    hide Upper, UpperCase;
    var m := MessageOctets(to, text);
    var field := Uppercased(to) + Spaces(9 - |to|);
    assert m == [0x3A] + field + [0x3A] + text;
    forall k | 0 <= k < 9
      ensures m[1 + k] == if k < |to| then UpperCase(to[k]) else 0x20
    {
      if k < |to| {
        UpperIsCase(to[k]);
      }
    }
  }

  /** Nine octets, a colon and a text read as addressee and text. */
  lemma MessageReads(field: Text, text: Text)
    requires Valid(field + [0x3A] + text) && |field| == 9
    ensures ParsedMessage(field + [0x3A] + text) == if text == [] then None else
      Some(Data(Message, None, None, None, None, None, None, None, TrimEnd(text), Some(Trim(field)),
                Some(TrimEnd(text))))
  {
    hide Valid, Trim, TrimEnd;
    var body := field + [0x3A] + text;
    assert body[..9] == field && body[10..] == text;
  }

  /** A message parses back to the trimmed upper-cased addressee and the end-trimmed
      text exactly when the addressee is at most nine ASCII characters and the text
      is not empty. A trimmed addressee is not changed by trimming. */
  lemma MessageRoundTrip(to: Text, text: Text)
    requires Valid(to) && Valid(text)
    ensures IsMessage(ParsedMessage(MessageOctets(to, text)[1..]), to, text)
        <==> |to| <= 9 && CharCount(to) == |to| && text != []
    ensures Trim(to) == to ==> Trim(Uppercased(to)) == Uppercased(to)
  {
    hide Valid, Trim, TrimEnd, CharCount, Uppercased, Spaces;
    if Trim(to) == to {
      UppercasedTrimmed(to);
    }
    var padding := if CharCount(to) < 9 then 9 - CharCount(to) else 0;
    var upper := Uppercased(to);
    var field := upper + Spaces(padding);
    var body := field + ([COLON] + text);
    assert MessageOctets(to, text)[1..] == body;
    MessageValid(to, text);
    CharCountBound(to);
    if |to| <= 9 {
      if CharCount(to) == |to| {
        FieldSlice(field, text);
        TrimsPadding(upper, padding);
      } else {
        TenthIsSpace(upper, padding, [COLON] + text);
      }
    } else if ParsedMessage(body).Some? {
      assert body[..9] == upper[..9] && body[9] == upper[9];
      CutIsShorter(upper, 9);
    }
  }

  /** Trimming what lies before a colon never gives what trimming the whole gives. */
  lemma CutIsShorter(s: Text, k: nat)
    requires k < |s| && s[k] == COLON
    ensures Trim(s[..k]) != Trim(s)
  {
    hide TrimEnd, TrimStart;
    var whole, part := TrimEnd(s), TrimEnd(s[..k]);
    TrimEndKeeps(s, k);
    assert whole[k] == COLON;
    TrimStartKeeps(whole, k);
    TrimStartOfPrefix(part, whole);
    var t := TrimStart(whole);
    assert t[k - (|whole| - |t|)] == COLON;
  }

  lemma {:induction false} TrimEndKeeps(s: Text, k: nat)
    requires k < |s| && s[k] == COLON
    ensures |TrimEnd(s)| > k
    decreases |s|
  {
    var n := SpaceAtEnd(s);
    if n == 0 {
    } else {
      assert k < |s| - n;
      TrimEndKeeps(s[..|s| - n], k);
    }
  }

  lemma {:induction false} TrimStartKeeps(s: Text, k: nat)
    requires k < |s| && s[k] == COLON
    ensures |s| - |TrimStart(s)| <= k
    decreases |s|
  {
    var n := SpaceAtStart(s);
    if n == 0 {
    } else {
      assert n <= k;
      TrimStartKeeps(s[n..], k - n);
    }
  }

  /** A prefix loses the same white space at its start, or has no colon left. */
  lemma {:induction false} TrimStartOfPrefix(p: Text, s: Text)
    requires p <= s
    ensures |p| - |TrimStart(p)| == |s| - |TrimStart(s)| || COLON !in TrimStart(p)
    decreases |s|
  {
    hide SpaceAtStart;
    var n := SpaceAtStart(s);
    SpaceOfPrefix(p, s);
    if n == 0 {
    } else if |p| < n {
    } else {
      TrimStartOfPrefix(p[n..], s[n..]);
    }
  }

  /** A prefix starts with the same white space, or is a cut piece of it. */
  lemma SpaceOfPrefix(p: Text, s: Text)
    requires p <= s
    ensures |p| >= SpaceAtStart(s) ==> SpaceAtStart(p) == SpaceAtStart(s)
    ensures |p| < SpaceAtStart(s) ==> SpaceAtStart(p) == 0 && COLON !in p
  {}

  lemma FieldSlice(field: Text, text: Text)
    requires |field| == 9
    ensures var body := field + ([COLON] + text);
      body[..9] == field && body[9] == COLON && body[10..] == text
  {}

  lemma TenthIsSpace(to: Text, padding: nat, rest: Text)
    requires |to| <= 9 < |to| + padding
    ensures (to + Spaces(padding) + rest)[9] == 0x20
  {}

  // ----- Decimal numbers -----

  function DigitOctet(d: int): octet
    requires 0 <= d < 10
  {
    if d == 0 then 0x30 else if d == 1 then 0x31 else if d == 2 then 0x32 else if d == 3 then 0x33
    else if d == 4 then 0x34 else if d == 5 then 0x35 else if d == 6 then 0x36 else if d == 7 then 0x37
    else if d == 8 then 0x38 else 0x39
  }

  function DigitValue(c: octet): Option<int> {
    if c == 0x30 then Some(0) else if c == 0x31 then Some(1) else if c == 0x32 then Some(2)
    else if c == 0x33 then Some(3) else if c == 0x34 then Some(4) else if c == 0x35 then Some(5)
    else if c == 0x36 then Some(6) else if c == 0x37 then Some(7) else if c == 0x38 then Some(8)
    else if c == 0x39 then Some(9) else None
  }

  const POINT: octet := 0x2E

  function Digits(n: nat): (r: Text)
    ensures r != []
  {
    if n < 10 then [DigitOctet(n)] else Digits(n / 10) + [DigitOctet(n % 10)]
  }

  function Zeros(n: nat): (r: Text)
    ensures |r| == n
  {
    seq(n, _ => 0x30)
  }

  /** Zero-padded to at least `width` digits. */
  function PaddedDigits(n: nat, width: nat): Text {
    var d := Digits(n);
    Zeros(if |d| < width then width - |d| else 0) + d
  }

  /** Hundredths as a number with two decimals, padded to five characters. */
  function TwoDecimals(hundredths: nat): Text {
    PaddedDigits(hundredths / 100, 2) + [POINT] + PaddedDigits(hundredths % 100, 2)
  }

  function DigitsValue(s: Text, value: int): Option<int> {
    if s == [] then Some(value) else
    match DigitValue(s[0])
    case None => None
    case Some(d) => DigitsValue(s[1..], 10 * value + d)
  }

  function FirstPoint(s: Text): (i: nat)
    ensures i <= |s| && (i < |s| ==> s[i] == POINT)
  {
    if s == [] || s[0] == POINT then 0 else 1 + FirstPoint(s[1..])
  }

  function PowerOfTen(n: nat): (r: real)
    ensures r > 0.0
  {
    if n == 0 then 1.0 else 10.0 * PowerOfTen(n - 1)
  }

  /** Digits with an optional decimal point among them. */
  function ParseReal(s: Text): Option<real> {
    var i := FirstPoint(s);
    var fraction := if i < |s| then s[i + 1..] else [];
    if s[..i] + fraction == [] then None else
    match DigitsValue(s[..i] + fraction, 0)
    case None => None
    case Some(v) => Some(v as real / PowerOfTen(|fraction|))
  }

  /** A parsed number; a finite one is exact. */
  datatype Float = Finite(value: real) | Infinite(negative: bool) | NaN

  function Negated(x: Float): Float {
    match x
    case Finite(v) => Finite(-v)
    case Infinite(n) => Infinite(!n)
    case NaN => NaN
  }

  function Sum(x: Float, y: Float): Float {
    match (x, y)
    case (Finite(a), Finite(b)) => Finite(a + b)
    case (NaN, _) => NaN
    case (_, NaN) => NaN
    case (Finite(_), Infinite(n)) => Infinite(n)
    case (Infinite(n), Finite(_)) => Infinite(n)
    case (Infinite(m), Infinite(n)) => if m == n then Infinite(m) else NaN
  }

  function Sixtieth(x: Float): Float {
    match x
    case Finite(v) => Finite(v / 60.0)
    case _ => x
  }

  const PLUS: octet := 0x2B
  const MINUS: octet := 0x2D

  predicate IsSign(c: octet) {
    c == PLUS || c == MINUS
  }

  function FirstExponent(s: Text): (i: nat)
    ensures i <= |s|
  {
    if s == [] || Upper(s[0]) == 0x45 then 0 else 1 + FirstExponent(s[1..])
  }

  /** Digits after an optional sign. */
  function ParseExponent(s: Text): Option<int> {
    var digits := if s != [] && IsSign(s[0]) then s[1..] else s;
    if digits == [] then None else
    match DigitsValue(digits, 0)
    case None => None
    case Some(v) => Some(if s[0] == MINUS then -v else v)
  }

  function Scaled(x: real, exponent: int): real {
    if exponent >= 0 then x * PowerOfTen(exponent) else x / PowerOfTen(-exponent)
  }

  /** A number without sign: decimal, with an exponent, infinite or not a number. */
  function ParseUnsigned(s: Text): Option<Float> {
    var e := FirstExponent(s);
    if ParseReal(s).Some? then Some(Finite(ParseReal(s).value))
    else if Uppercased(s) in {INF, INFINITY} then Some(Infinite(false))
    else if Uppercased(s) == NAN then Some(NaN)
    else if e == |s| then None
    else
      match (ParseReal(s[..e]), ParseExponent(s[e + 1..]))
      case (Some(v), Some(n)) => Some(Finite(Scaled(v, n)))
      case _ => None
  }

  const INF: Text := [0x49, 0x4E, 0x46]
  const INFINITY: Text := [0x49, 0x4E, 0x46, 0x49, 0x4E, 0x49, 0x54, 0x59]
  const NAN: Text := [0x4E, 0x41, 0x4E]

  /** A 64-bit float as Rust reads it from text. */
  function ParseFloat(s: Text): Option<Float> {
    if ParseReal(s).Some? then Some(Finite(ParseReal(s).value))
    else if s == [] || !IsSign(s[0]) then ParseUnsigned(s)
    else
      match ParseUnsigned(s[1..])
      case None => None
      case Some(x) => Some(if s[0] == MINUS then Negated(x) else x)
  }

  // ----- Positions -----

  /** A way to round to the nearest integer; ties may go either way. */
  ghost predicate RoundsToNearest(round: real -> int) {
    forall x: real :: -0.5 <= round(x) as real - x <= 0.5
  }

  function Abs(x: real): real {
    if x < 0.0 then -x else x
  }

  function Degrees(x: real): (d: nat)
    requires x >= 0.0
  {
    x.Floor
  }

  function Minutes(x: real): real
    requires x >= 0.0
  {
    (x - x.Floor as real) * 60.0
  }

  /** Minutes in hundredths, as the two-decimal format rounds them. */
  ghost function MinuteHundredths(x: real, round: real -> int): (h: nat)
    requires x >= 0.0 && RoundsToNearest(round)
    ensures h <= 6000
    ensures -0.005 <= h as real / 100.0 - Minutes(x) <= 0.005
  {
    var h := round(Minutes(x) * 100.0);
    h
  }

  /** Table and code when the symbol is two characters, else the house. */
  function SymbolParts(symbol: Text): (Text, Text) {
    if CharCount(symbol) == 2 && Valid(symbol)
    then (symbol[..CharLength(symbol)], symbol[CharLength(symbol)..])
    else ([0x2F], [0x2D])
  }

  /** The text of one coordinate. */
  ghost function AngleText(x: real, width: nat, round: real -> int, positive: octet, negative: octet): Text
    requires RoundsToNearest(round)
  {
    PaddedDigits(Degrees(Abs(x)), width) + TwoDecimals(MinuteHundredths(Abs(x), round))
      + [if x >= 0.0 then positive else negative]
  }

  ghost function PositionOctets(lat: real, lon: real, symbol: Text, comment: Text, round: real -> int): Text
    requires RoundsToNearest(round)
  {
    var (t, c) := SymbolParts(symbol);
    [0x21] + AngleText(lat, 2, round, 0x4E, 0x53) + t + AngleText(lon, 3, round, 0x45, 0x57) + c + comment
  }

  /** `degrees` digits, five characters of minutes, a hemisphere letter. */
  function ParsedAngle(s: Text, degrees: nat, positive: octet, negative: octet): Option<Float> {
    if |s| != degrees + 6 then None else
    match (ParseFloat(Trim(s[..degrees])), ParseFloat(s[degrees..degrees + 5]))
    case (Some(deg), Some(min)) =>
      var v := Sum(deg, Sixtieth(min));
      if s[degrees + 5] == positive then Some(v)
      else if s[degrees + 5] == negative then Some(Negated(v))
      else None
    case _ => None
  }

  /** Slicing a string here panics. */
  predicate Splits(s: Text, k: nat) {
    k > |s| || (k < |s| && IsContinuation(s[k]))
  }

  /** A coordinate whose slices do not end between characters; the minutes are
      sliced only if the degrees are a number. */
  predicate AnglePanics(s: Text, degrees: nat) {
    |s| == degrees + 6
    && (Splits(s, degrees) || (ParseFloat(Trim(s[..degrees])).Some? && Splits(s, degrees + 5)))
  }

  predicate IsCompressedTable(c: octet) {
    c == 0x2F || c == 0x5C || 0x41 <= c <= 0x5A || 0x61 <= c <= 0x6A
  }

  const SLASH: octet := 0x2F

  /** Course and speed, three characters each with a slash between, when both are numbers. */
  function CourseSpeed(rest: seq<octet>): Option<(Float, Float)> {
    if |rest| < 7 || rest[3] != SLASH then None else
    match (ParseFloat(AsStr(rest[0..3])), ParseFloat(AsStr(rest[4..7])))
    case (Some(c), Some(s)) => Some((c, s))
    case _ => None
  }

  /** The first "/A=" of a comment, or its length. */
  function AltitudeMark(text: Text): (i: nat)
    ensures i <= |text|
  {
    if text == [] then 0
    else if [SLASH, 0x41, 0x3D] <= text then 0
    else 1 + AltitudeMark(text[1..])
  }

  /** Six octets of altitude are sliced out behind the mark: this panics when the
      text ends before them or they end inside a character. */
  predicate AltitudeCut(text: Text) {
    AltitudeMark(text) < |text| && Splits(text, AltitudeMark(text) + 9)
  }

  function Altitude(text: Text): Option<Float> {
    var i := AltitudeMark(text);
    if i + 9 > |text| then None else ParseFloat(text[i + 3..i + 9])
  }

  function Latitude(body: seq<octet>): Text
    requires |body| >= 19
  {
    AsStr(body[0..8])
  }

  function Longitude(body: seq<octet>): Text
    requires |body| >= 19
  {
    AsStr(body[9..18])
  }

  function ParsedUncompressed(body: seq<octet>): Option<Data> {
    if |body| < 19 then None else
    match (ParsedAngle(Latitude(body), 2, 0x4E, 0x53), ParsedAngle(Longitude(body), 3, 0x45, 0x57))
    case (Some(lat), Some(lon)) =>
      var rest := body[19..];
      var cs := CourseSpeed(rest);
      Some(Data(Position, Some(lat), Some(lon), Some(body[8]), Some(body[18]),
                if cs.Some? then Some(cs.value.0) else None, if cs.Some? then Some(cs.value.1) else None,
                Altitude(AsStr(rest)), Trim(AsStr(rest)), None, None))
    case _ => None
  }

  predicate UncompressedPanics(body: seq<octet>) {
    |body| >= 19
    && (AnglePanics(Latitude(body), 2)
        || (ParsedAngle(Latitude(body), 2, 0x4E, 0x53).Some?
            && (AnglePanics(Longitude(body), 3)
                || (ParsedAngle(Longitude(body), 3, 0x45, 0x57).Some? && AltitudeCut(AsStr(body[19..]))))))
  }

  predicate IsCompressed(body: seq<octet>, others: Unmodelled) {
    |body| >= 13 && IsCompressedTable(body[0]) && others.compressed(body).Some?
  }

  function ParsedPosition(body: seq<octet>, others: Unmodelled): Option<Data> {
    if IsCompressed(body, others) then others.compressed(body) else ParsedUncompressed(body)
  }

  predicate PositionPanics(body: seq<octet>, others: Unmodelled) {
    !IsCompressed(body, others) && UncompressedPanics(body)
  }

  /** The position in an information field: at once, or behind seven characters of time. */
  function PositionBody(info: Text): Option<seq<octet>> {
    if info == [] then None
    else if info[0] == 0x21 || info[0] == 0x3D then Some(info[1..])
    else if (info[0] == SLASH || info[0] == 0x40) && |info| > 8 then Some(info[8..])
    else None
  }

  /** Parsing this information field panics. */
  predicate ParsePanics(info: Text, others: Unmodelled) {
    PositionBody(info).Some? && PositionPanics(PositionBody(info).value, others)
  }

  /** The parsed packet, or None where the source panics. */
  function Parsed(frame: Ax25.Frame, others: Unmodelled): Option<Data> {
    var info := frame.info;
    if ParsePanics(info, others) then None
    else if info == [] then Some(Empty(Other))
    else if PositionBody(info).Some? then Some(OrOther(ParsedPosition(PositionBody(info).value, others)))
    else if info[0] == SLASH || info[0] == 0x40 then Some(Empty(Other))
    else if info[0] == COLON then Some(OrOther(ParsedMessage(info[1..])))
    else Some(others.packet(frame))
  }

  function OrOther(d: Option<Data>): Data {
    if d.Some? then d.value else Empty(Other)
  }

  lemma DigitRoundTrip(d: int)
    requires 0 <= d < 10
    ensures DigitValue(DigitOctet(d)) == Some(d)
    ensures 0x30 <= DigitOctet(d) <= 0x39
  {}

  /** Every character is a digit or the point. */
  predicate IsNumeric(s: Text) {
    forall k | 0 <= k < |s| :: 0x30 <= s[k] <= 0x39 || s[k] == POINT
  }

  lemma {:induction false} DigitsNumeric(n: nat)
    ensures IsNumeric(Digits(n))
  {
    DigitRoundTrip(n % 10);
    if n >= 10 {
      DigitsNumeric(n / 10);
    } else {
      DigitRoundTrip(n);
    }
  }

  lemma NumericPlain(s: Text)
    requires IsNumeric(s)
    ensures Valid(s) && Trim(s) == s
  {
    hide SpaceAtEnd, SpaceAtStart, Valid;
    AsciiValid(s);
    NumericNoSpace(s);
  }

  lemma NumericNoSpace(s: Text)
    requires IsNumeric(s)
    ensures SpaceAtEnd(s) == 0 && SpaceAtStart(s) == 0
  {}

  lemma TwoDigits(n: nat)
    requires n < 100
    ensures PaddedDigits(n, 2) == [DigitOctet(n / 10), DigitOctet(n % 10)]
  {
    hide DigitOctet;
    if n < 10 {
      assert DigitOctet(0) == 0x30 by { ZeroDigit(); }
      assert Zeros(1) == [0x30];
    } else {
      assert Digits(n / 10) == [DigitOctet(n / 10)];
      assert Zeros(0) + Digits(n) == Digits(n);
    }
  }

  lemma ZeroDigit()
    ensures DigitOctet(0) == 0x30
  {}

  lemma ThreeDigits(n: nat)
    requires n < 1000
    ensures PaddedDigits(n, 3) == [DigitOctet(n / 100), DigitOctet(n / 10 % 10), DigitOctet(n % 10)]
  {
    hide DigitOctet;
    ZeroDigit();
    if n < 10 {
      assert Zeros(2) == [0x30, 0x30];
    } else if n < 100 {
      assert Digits(n / 10) == [DigitOctet(n / 10)];
      assert Zeros(1) == [0x30];
    } else {
      assert Digits(n / 100) == [DigitOctet(n / 100)];
      assert Digits(n / 10) == [DigitOctet(n / 100)] + [DigitOctet(n / 10 % 10)];
      assert Zeros(0) + Digits(n) == Digits(n);
    }
  }

  lemma OneDigit(d: int, rest: Text, value: int)
    requires 0 <= d < 10
    ensures DigitsValue([DigitOctet(d)] + rest, value) == DigitsValue(rest, 10 * value + d)
  {
    hide DigitOctet, DigitValue;
    DigitRoundTrip(d);
    assert ([DigitOctet(d)] + rest)[1..] == rest;
  }

  lemma {:induction false} NoPoint(s: Text)
    requires POINT !in s
    ensures FirstPoint(s) == |s|
  {
    if s == [] {
    } else {
      NoPoint(s[1..]);
    }
  }

  lemma DigitNotPoint(d: int)
    requires 0 <= d < 10
    ensures DigitOctet(d) != POINT
  {}

  /** Two digits, a point and two digits read back as the hundredths they show. */
  lemma ReadsTwoDecimals(a: int, b: int, c: int, d: int)
    requires 0 <= a < 10 && 0 <= b < 10 && 0 <= c < 10 && 0 <= d < 10
    ensures var s := [DigitOctet(a), DigitOctet(b), POINT, DigitOctet(c), DigitOctet(d)];
      ParseReal(s) == Some((1000 * a + 100 * b + 10 * c + d) as real / 100.0)
  {
    hide DigitOctet, DigitValue, DigitsValue, FirstPoint;
    var s := [DigitOctet(a), DigitOctet(b), POINT, DigitOctet(c), DigitOctet(d)];
    PointAtTwo(s, a, b);
    var digits := s[..2] + s[3..];
    assert digits == [DigitOctet(a)] + ([DigitOctet(b)] + ([DigitOctet(c)] + ([DigitOctet(d)] + [])));
    OneDigit(d, [], 100 * a + 10 * b + c);
    OneDigit(c, [DigitOctet(d)] + [], 10 * a + b);
    OneDigit(b, [DigitOctet(c)] + ([DigitOctet(d)] + []), a);
    OneDigit(a, [DigitOctet(b)] + ([DigitOctet(c)] + ([DigitOctet(d)] + [])), 0);
    NoDigits(1000 * a + 100 * b + 10 * c + d);
    assert PowerOfTen(2) == 100.0;
  }

  lemma NoDigits(value: int)
    ensures DigitsValue([], value) == Some(value)
  {}

  lemma PointAtTwo(s: Text, a: int, b: int)
    requires 0 <= a < 10 && 0 <= b < 10
    requires |s| == 5 && s[0] == DigitOctet(a) && s[1] == DigitOctet(b) && s[2] == POINT
    ensures FirstPoint(s) == 2
  {
    hide DigitOctet;
    DigitNotPoint(a);
    DigitNotPoint(b);
    assert s[1..][1..][0] == POINT;
    assert FirstPoint(s[1..][1..]) == 0;
  }

  lemma MinutesText(h: nat)
    requires h <= 6000
    ensures |TwoDecimals(h)| == 5 && IsNumeric(TwoDecimals(h))
    ensures ParseReal(TwoDecimals(h)) == Some(h as real / 100.0)
  {
    hide DigitOctet, PaddedDigits, ParseReal;
    var m, f := h / 100, h % 100;
    TwoDigits(m);
    TwoDigits(f);
    DigitRoundTrip(m / 10);
    DigitRoundTrip(m % 10);
    DigitRoundTrip(f / 10);
    DigitRoundTrip(f % 10);
    assert TwoDecimals(h)
        == [DigitOctet(m / 10), DigitOctet(m % 10), POINT, DigitOctet(f / 10), DigitOctet(f % 10)];
    ReadsTwoDecimals(m / 10, m % 10, f / 10, f % 10);
  }

  lemma ReadsInteger(s: Text, n: nat)
    requires s != [] && POINT !in s && DigitsValue(s, 0) == Some(n)
    ensures ParseReal(s) == Some(n as real)
  {
    NoPoint(s);
    assert s[..|s|] + [] == s;
  }

  /** Degrees that fit print in exactly `width` digits and read back. */
  lemma DegreesText(n: nat, width: nat)
    requires (width == 2 && n < 100) || (width == 3 && n < 1000)
    ensures var d := PaddedDigits(n, width);
      |d| == width && IsNumeric(d) && POINT !in d && ParseReal(d) == Some(n as real)
  {
    hide DigitOctet, PaddedDigits, ParseReal, DigitsValue;
    var d := PaddedDigits(n, width);
    NoDigits(n);
    var low := [DigitOctet(n % 10)] + [];
    OneDigit(n % 10, [], n / 10);
    var middle := [DigitOctet(n / 10 % 10)] + low;
    OneDigit(n / 10 % 10, low, n / 100);
    if width == 2 {
      TwoDigits(n);
      assert d == middle;
    } else {
      ThreeDigits(n);
      OneDigit(n / 100, middle, 0);
      assert d == [DigitOctet(n / 100)] + middle;
    }
    assert forall k | 0 <= k < |d| :: IsDigit(d[k]) by {
      DigitIsDigit(n / 100 % 10);
      DigitIsDigit(n / 10 % 10);
      DigitIsDigit(n % 10);
    }
    ReadsInteger(d, n);
  }

  lemma DigitIsDigit(d: int)
    requires 0 <= d < 10
    ensures IsDigit(DigitOctet(d))
  {}

  predicate IsClose(x: real, y: real) {
    -1.0 / 12000.0 <= x - y <= 1.0 / 12000.0 && (x >= 0.0 ==> y >= 0.0) && (x < 0.0 ==> y <= 0.0)
  }

  /** A coordinate that fits its degrees field reads back within half a hundredth
      of a minute, in the right hemisphere. */
  lemma AngleRoundTrip(x: real, width: nat, round: real -> int, positive: octet, negative: octet)
    requires RoundsToNearest(round) && positive < 0x80 && negative < 0x80 && positive != negative
    requires (width == 2 && Abs(x) < 100.0) || (width == 3 && Abs(x) < 1000.0)
    ensures var s := AngleText(x, width, round, positive, negative);
      |s| == width + 6 && AsStr(s) == s && 0x30 <= s[0] <= 0x39
      && !AnglePanics(s, width)
      && match ParsedAngle(s, width, positive, negative) { case Some(Finite(y)) => IsClose(x, y) case _ => false }
  {
    hide PaddedDigits, TwoDecimals, ParseReal, Valid, Trim, RoundsToNearest, ParseUnsigned;
    var deg, h := Degrees(Abs(x)), MinuteHundredths(Abs(x), round);
    var d, m := PaddedDigits(deg, width), TwoDecimals(h);
    var letter := if x >= 0.0 then positive else negative;
    var s := AngleText(x, width, round, positive, negative);
    DegreesText(deg, width);
    MinutesText(h);
    NumericPlain(d);
    AsciiValid(s);
    assert s[..width] == d && s[width..width + 5] == m && s[width + 5] == letter;
    var v := deg as real + h as real / 100.0 / 60.0;
    assert Abs(x) == deg as real + Minutes(Abs(x)) / 60.0;
    FirstIsDigit(d);
  }

  lemma FirstIsDigit(s: Text)
    requires s != [] && IsNumeric(s) && ParseReal(s).Some? && POINT !in s
    ensures 0x30 <= s[0] <= 0x39
  {}

  lemma DigitsLength(n: nat)
    ensures n >= 100 ==> |Digits(n)| >= 3
    ensures n >= 1000 ==> |Digits(n)| >= 4
  {
    hide DigitOctet;
    if n >= 100 {
      assert |Digits(n / 10)| >= 2;
    }
    if n >= 1000 {
      assert |Digits(n / 100)| >= 2;
      assert |Digits(n / 10)| >= 3;
    }
  }

  /** A coordinate too wide for its field leaves a digit or point where the
      hemisphere letter belongs. */
  lemma WideAngle(x: real, width: nat, round: real -> int, positive: octet, negative: octet)
    requires RoundsToNearest(round) && positive > 0x39 && negative > 0x39
    requires (width == 2 && Abs(x) >= 100.0) || (width == 3 && Abs(x) >= 1000.0)
    ensures var s := AngleText(x, width, round, positive, negative);
      |s| > width + 6 && IsNumeric(s[..width + 6]) && s[0] != POINT
      && !AnglePanics(AsStr(s[..width + 6]), width)
      && ParsedAngle(AsStr(s[..width + 6]), width, positive, negative) == None
  {
    hide Digits, TwoDecimals, RoundsToNearest, ParsedAngle, AnglePanics, AsStr;
    var deg, h := Degrees(Abs(x)), MinuteHundredths(Abs(x), round);
    var d, m := Digits(deg), TwoDecimals(h);
    DigitsLength(deg);
    DigitsNumeric(deg);
    DigitsNoPoint(deg);
    MinutesText(h);
    assert PaddedDigits(deg, width) == d;
    var letter := if x >= 0.0 then positive else negative;
    assert AngleText(x, width, round, positive, negative) == d + m + [letter];
    NumericPrefix(d, m, letter, width + 6);
    NoHemisphere((d + m + [letter])[..width + 6], width, positive, negative);
  }

  lemma NumericPrefix(d: Text, m: Text, letter: octet, k: nat)
    requires IsNumeric(d) && IsNumeric(m) && k <= |d| + |m|
    ensures IsNumeric((d + m + [letter])[..k])
  {}

  lemma NoHemisphere(s: Text, width: nat, positive: octet, negative: octet)
    requires |s| == width + 6 && IsNumeric(s) && positive > 0x39 && negative > 0x39
    ensures ParsedAngle(AsStr(s), width, positive, negative) == None && !AnglePanics(AsStr(s), width)
  {
    hide ParseFloat, Trim, Valid;
    NumericPlain(s);
  }

  lemma {:induction false} DigitsNoPoint(n: nat)
    ensures POINT !in Digits(n)
  {
    DigitNotPoint(n % 10);
    if n >= 10 {
      DigitsNoPoint(n / 10);
    } else {
      DigitNotPoint(n);
    }
  }

  /** The two characters of the symbol in their order, or the house. */
  predicate ShowsSymbol(symbol: Text, table: octet, code: octet) {
    if CharCount(symbol) == 2 then symbol == [table, code] else table == 0x2F && code == 0x2D
  }

  predicate IsReport(d: Option<Data>, lat: real, lon: real, symbol: Text, comment: Text) {
    match d
    case Some(Data(Position, Some(Finite(y)), Some(Finite(x)), Some(table), Some(code), course, speed, altitude, c,
                   None, None)) =>
      && IsClose(lat, y) && IsClose(lon, x)
      && ShowsSymbol(symbol, table, code)
      && c == Trim(comment) && altitude == Altitude(comment)
      && course.Some? == speed.Some? == CourseSpeed(comment).Some?
      && (course.Some? ==> CourseSpeed(comment) == Some((course.value, speed.value)))
    case _ => false
  }

  /** Both characters of the symbol are one octet, or it is replaced by the house. */
  predicate PlainSymbol(symbol: Text) {
    CharCount(symbol) == 2 ==> |symbol| == 2
  }

  /** A position report parses back exactly when |latitude| < 100 and |longitude|
      < 1000 degrees and the symbol's characters are ASCII: to both coordinates
      within half a hundredth of a minute, the symbol and the trimmed comment,
      whichever way ties round and also when minutes round up to 60.00. Such a
      report, and no other, panics if an altitude mark in its comment is cut short. */
  lemma PositionRoundTrip(lat: real, lon: real, symbol: Text, comment: Text, round: real -> int, others: Unmodelled)
    requires RoundsToNearest(round) && Valid(symbol) && Valid(comment)
    ensures var body := PositionOctets(lat, lon, symbol, comment, round)[1..];
      var fits := Abs(lat) < 100.0 && Abs(lon) < 1000.0;
      && (PositionPanics(body, others) <==> fits && PlainSymbol(symbol) && AltitudeCut(comment))
      && (IsReport(ParsedPosition(body, others), lat, lon, symbol, comment) <==> fits && PlainSymbol(symbol))
      && (!fits ==> ParsedPosition(body, others) == None)
    ensures PositionOctets(lat, lon, symbol, comment, round)[0] == 0x21
  {
    hide AngleText, ParsedAngle, AnglePanics, ParsedUncompressed, UncompressedPanics, Valid, RoundsToNearest, CharCount,
      SymbolParts, IsReport, AltitudeCut, PositionOctets, PlainSymbol, IsClose;
    var (t, c) := SymbolParts(symbol);
    SymbolCharacters(symbol);
    var y, x := AngleText(lat, 2, round, 0x4E, 0x53), AngleText(lon, 3, round, 0x45, 0x57);
    ReportBody(lat, lon, symbol, comment, round);
    AngleOpens(lat, 2, round, 0x4E, 0x53);
    AngleOpens(lon, 3, round, 0x45, 0x57);
    NotCompressed(y, t + (x + (c + comment)), others);
    if Abs(lat) >= 100.0 {
      WideAngle(lat, 2, round, 0x4E, 0x53);
      RejectsLatitude(y, t + (x + (c + comment)));
      NoReport(None, lat, lon, symbol, comment);
    } else {
      AngleRoundTrip(lat, 2, round, 0x4E, 0x53);
      if |t| > 1 {
        WideTable(y, t, x + (c + comment));
        NoReport(None, lat, lon, symbol, comment);
      } else if Abs(lon) >= 1000.0 {
        WideAngle(lon, 3, round, 0x45, 0x57);
        RejectsLongitude(y, t, x, c + comment);
        NoReport(None, lat, lon, symbol, comment);
      } else {
        AngleRoundTrip(lon, 3, round, 0x45, 0x57);
        FieldsRead(y, t, x, c, comment);
        if |c| > 1 {
          WideCode(c, comment);
          NoReport(ParsedUncompressed(y + (t + (x + (c + comment)))), lat, lon, symbol, comment);
        } else {
          CodeOnly(c, comment);
          IsReportOf(lat, lon, symbol, comment, round, ParsedUncompressed(y + (t + (x + (c + comment)))));
        }
      }
    }
  }

  lemma NoReport(d: Option<Data>, lat: real, lon: real, symbol: Text, comment: Text)
    requires d == None || |SymbolParts(symbol).0| + |SymbolParts(symbol).1| > 2
    ensures !IsReport(d, lat, lon, symbol, comment)
  {
    hide IsClose;
    var (t, c) := SymbolParts(symbol);
    assert CharCount(symbol) == 2 && Valid(symbol) && d.Some? ==> |symbol| > 2 by {
      assert CharCount(symbol) == 2 && Valid(symbol) ==> symbol == t + c;
    }
  }

  /** What is read of fields in their places. */
  lemma FieldsRead(y: Text, t: Text, x: Text, c: Text, comment: Text)
    requires |y| == 8 && |t| == 1 && |x| == 9 && c != []
    requires AsStr(y) == y && AsStr(x) == x && !AnglePanics(y, 2) && !AnglePanics(x, 3)
    requires ParsedAngle(y, 2, 0x4E, 0x53).Some? && ParsedAngle(x, 3, 0x45, 0x57).Some?
    ensures var body := y + (t + (x + (c + comment)));
      var rest := c[1..] + comment;
      var cs := CourseSpeed(rest);
      && (UncompressedPanics(body) <==> AltitudeCut(AsStr(rest)))
      && ParsedUncompressed(body) == Some(Data(Position,
           ParsedAngle(y, 2, 0x4E, 0x53), ParsedAngle(x, 3, 0x45, 0x57), Some(t[0]), Some(c[0]),
           if cs.Some? then Some(cs.value.0) else None, if cs.Some? then Some(cs.value.1) else None,
           Altitude(AsStr(rest)), Trim(AsStr(rest)), None, None))
  {
    hide ParsedAngle, AnglePanics, AsStr, Trim, CourseSpeed, Altitude, AltitudeCut;
    LatitudeSlice(y, t + (x + (c + comment)));
    LongitudeSlice(y, t, x, c + comment);
    CommentSlice(y, t, x, c, comment);
  }

  lemma IsReportOf(lat: real, lon: real, symbol: Text, comment: Text, round: real -> int, d: Option<Data>)
    requires RoundsToNearest(round) && Valid(symbol) && Abs(lat) < 100.0 && Abs(lon) < 1000.0
    requires var (t, c) := SymbolParts(symbol);
      var y, x := AngleText(lat, 2, round, 0x4E, 0x53), AngleText(lon, 3, round, 0x45, 0x57);
      var cs := CourseSpeed(comment);
      |t| == |c| == 1
      && d == Some(Data(Position, ParsedAngle(y, 2, 0x4E, 0x53), ParsedAngle(x, 3, 0x45, 0x57), Some(t[0]), Some(c[0]),
           if cs.Some? then Some(cs.value.0) else None, if cs.Some? then Some(cs.value.1) else None,
           Altitude(comment), Trim(comment), None, None))
    ensures IsReport(d, lat, lon, symbol, comment)
  {
    hide AngleText, ParsedAngle, AnglePanics, RoundsToNearest, SymbolParts, IsClose, Trim, Altitude, CourseSpeed,
      ShowsSymbol, Valid;
    AngleRoundTrip(lat, 2, round, 0x4E, 0x53);
    AngleRoundTrip(lon, 3, round, 0x45, 0x57);
    var (t, c) := SymbolParts(symbol);
    SymbolShown(symbol, t, c);
  }

  lemma SymbolShown(symbol: Text, t: Text, c: Text)
    requires SymbolParts(symbol) == (t, c) && |t| == |c| == 1 && Valid(symbol)
    ensures ShowsSymbol(symbol, t[0], c[0])
  {
    if CharCount(symbol) == 2 {
      assert symbol == t + c;
    }
  }

  lemma CodeOnly(c: Text, comment: Text)
    requires |c| == 1 && Valid(comment)
    ensures c[1..] + comment == comment && AsStr(comment) == comment
  {}

  /** No string starts inside a character. */
  lemma NotAString(s: Text)
    requires s != [] && IsContinuation(s[0])
    ensures AsStr(s) == []
  {}

  /** A wide symbol code spills into the comment, which is lost with it. */
  lemma WideCode(c: Text, comment: Text)
    requires |c| > 1 && IsContinuation(c[1])
    ensures AsStr(c[1..] + comment) == [] && !AltitudeCut(AsStr(c[1..] + comment))
  {
    NotAString(c[1..] + comment);
  }

  lemma TableSlice(y: Text, t: Text, rest: Text)
    requires |y| == 8 && |t| > 1 && |rest| >= 9
    ensures var body := y + (t + rest);
      |body| >= 19 && body[0..8] == y && body[9..18] != [] && body[9..18][0] == t[1]
  {}

  lemma EmptyAngle()
    ensures ParsedAngle([], 3, 0x45, 0x57) == None && !AnglePanics([], 3)
  {}

  /** A wide symbol table spills into the longitude. */
  lemma WideTable(y: Text, t: Text, rest: Text)
    requires |y| == 8 && |t| > 1 && IsContinuation(t[1]) && |rest| >= 9
    requires AsStr(y) == y && !AnglePanics(y, 2)
    ensures ParsedUncompressed(y + (t + rest)) == None && !UncompressedPanics(y + (t + rest))
  {
    TableSlice(y, t, rest);
    var field := (y + (t + rest))[9..18];
    NotAString(field);
    EmptyAngle();
    hide AsStr, IsContinuation, ParsedAngle, AnglePanics;
  }

  lemma NotCompressed(y: Text, rest: Text, others: Unmodelled)
    requires y != [] && 0x30 <= y[0] <= 0x39
    ensures ParsedPosition(y + rest, others) == ParsedUncompressed(y + rest)
    ensures PositionPanics(y + rest, others) == UncompressedPanics(y + rest)
  {
    hide ParsedUncompressed, UncompressedPanics;
    assert (y + rest)[0] == y[0];
  }

  lemma RejectsLatitude(y: Text, rest: Text)
    requires |y| >= 8 && ParsedAngle(AsStr(y[..8]), 2, 0x4E, 0x53) == None && !AnglePanics(AsStr(y[..8]), 2)
    ensures ParsedUncompressed(y + rest) == None && !UncompressedPanics(y + rest)
  {
    hide ParsedAngle, AnglePanics, AsStr;
    LatitudeSlice(y, rest);
  }

  lemma RejectsLongitude(y: Text, t: Text, x: Text, rest: Text)
    requires |y| == 8 && |t| == 1 && |x| >= 9 && ParsedAngle(AsStr(x[..9]), 3, 0x45, 0x57) == None
    requires AsStr(y) == y && !AnglePanics(y, 2) && !AnglePanics(AsStr(x[..9]), 3)
    ensures ParsedUncompressed(y + (t + (x + rest))) == None && !UncompressedPanics(y + (t + (x + rest)))
  {
    hide ParsedAngle, AnglePanics, AsStr;
    LatitudeSlice(y, t + (x + rest));
    assert y[..8] == y;
    LongitudeSlice(y, t, x, rest);
  }

  lemma ReportBody(lat: real, lon: real, symbol: Text, comment: Text, round: real -> int)
    requires RoundsToNearest(round)
    ensures var (t, c) := SymbolParts(symbol);
      PositionOctets(lat, lon, symbol, comment, round)
        == [0x21] + (AngleText(lat, 2, round, 0x4E, 0x53)
                     + (t + (AngleText(lon, 3, round, 0x45, 0x57) + (c + comment))))
  {
    hide AngleText, RoundsToNearest, SymbolParts;
  }

  lemma LatitudeSlice(y: Text, rest: Text)
    requires |y| >= 8
    ensures |y + rest| >= 8 && (y + rest)[0..8] == y[..8] && (y + rest)[0] == y[0]
  {}

  lemma LongitudeSlice(y: Text, t: Text, x: Text, rest: Text)
    requires |y| == 8 && |t| == 1 && |x| >= 9
    ensures var body := y + (t + (x + rest));
      |body| >= 18 && y[..8] == y && body[8] == t[0] && body[9..18] == x[..9]
  {}

  lemma CommentSlice(y: Text, t: Text, x: Text, c: Text, comment: Text)
    requires |y| == 8 && |t| == 1 && |x| == 9 && c != []
    ensures var body := y + (t + (x + (c + comment)));
      |body| >= 19 && x[..9] == x && body[18] == c[0] && body[19..] == c[1..] + comment
  {}

  /** Both parts of a symbol are characters; a wide one has a continuation octet. */
  lemma SymbolCharacters(symbol: Text)
    requires Valid(symbol)
    ensures var (t, c) := SymbolParts(symbol);
      && t != [] && c != []
      && (PlainSymbol(symbol) <==> |t| == |c| == 1)
      && (|t| > 1 ==> IsContinuation(t[1])) && (|c| > 1 ==> IsContinuation(c[1]))
  {
    CharCountBound(symbol);
    if CharCount(symbol) == 2 {
      var n := CharLength(symbol);
      var t, c := symbol[..n], symbol[n..];
      assert symbol == t + c;
      CharCountConcat(t, c);
      CharCountBound(t);
      if c == [] {
        assert |symbol| == n && n > 1;
        OneCharacter(symbol);
        assert false;
      }
      if |c| > 1 && !IsContinuation(c[1]) {
        TwoCharacters(c);
        assert false;
      }
    }
  }

  lemma TwoCharacters(s: Text)
    requires |s| > 1 && CharLength(s) > 0 && !IsContinuation(s[1])
    ensures CharCount(s) >= 2
  {
    assert s[1..][0] == s[1];
  }

  /** A coordinate opens with a digit and fills at least its field. */
  lemma AngleOpens(x: real, width: nat, round: real -> int, positive: octet, negative: octet)
    requires RoundsToNearest(round) && width in {2, 3} && positive > 0x39 && negative > 0x39
    requires positive < 0x80 && negative < 0x80 && positive != negative
    ensures var s := AngleText(x, width, round, positive, negative);
      |s| >= width + 6 && 0x30 <= s[0] <= 0x39
  {
    hide AngleText, RoundsToNearest;
    if (width == 2 && Abs(x) < 100.0) || (width == 3 && Abs(x) < 1000.0) {
      AngleRoundTrip(x, width, round, positive, negative);
    } else {
      WideAngle(x, width, round, positive, negative);
    }
  }

  // ----- Reports in decimal digits -----

  predicate AllDigits(s: Text, length: nat) {
    |s| == length && IsDecimal(s)
  }

  lemma DigitValueIs(c: octet)
    requires IsDigit(c)
    ensures DigitValue(c) == Some((c - 0x30) as int)
  {}

  lemma {:induction false} DigitsAccumulate(s: Text, value: int)
    requires IsDecimal(s)
    ensures DigitsValue(s, value) == Some(Accumulated(s, value))
  {
    hide DigitValue;
    if s == [] {
    } else {
      DigitValueIs(s[0]);
      DigitsAccumulate(s[1..], 10 * value + (s[0] - 0x30) as int);
    }
  }

  lemma DigitsValueIs(s: Text)
    requires IsDecimal(s)
    ensures DigitsValue(s, 0) == Some(Number(s))
  {
    DigitsAccumulate(s, 0);
    AccumulatedIs(s);
  }

  lemma NumberReads(s: Text)
    requires s != [] && IsDecimal(s)
    ensures ParseFloat(s) == Some(Finite(Number(s) as real))
  {
    hide DigitsValue, Number;
    DigitsValueIs(s);
    ReadsInteger(s, Number(s));
  }

  /** A sign before a number turns it, or leaves it; two signs are none. */
  lemma SignReads(s: Text)
    requires s != [] && s[0] != 0x2B && s[0] != 0x2D
    ensures ParseFloat([0x2B] + s) == ParseFloat(s)
    ensures ParseFloat([0x2D] + s) == match ParseFloat(s) case None => None case Some(x) => Some(Negated(x))
  {
    hide ParseUnsigned;
    SignedNoReal(0x2B, s);
    SignedNoReal(0x2D, s);
    assert ([0x2B] + s)[1..] == s && ([0x2D] + s)[1..] == s;
    RealIsUnsigned(s);
  }

  lemma RealIsUnsigned(s: Text)
    ensures ParseReal(s).Some? ==> ParseUnsigned(s) == Some(Finite(ParseReal(s).value))
  {
    hide ParseReal;
  }

  lemma SignedNoReal(sign: octet, s: Text)
    requires sign == 0x2B || sign == 0x2D
    ensures ParseReal([sign] + s) == None
  {
    var t := [sign] + s;
    assert FirstPoint(t) == 1 + FirstPoint(t[1..]);
    assert DigitValue(sign) == None;
    var i := FirstPoint(t);
    var digits := t[..i] + if i < |t| then t[i + 1..] else [];
    assert digits[0] == sign;
  }

  /** Digits, an exponent letter and digits: so many times ten. */
  lemma ExponentReads(m: Text, letter: octet, sign: Text, e: Text)
    requires IsDecimal(m) && m != [] && IsDecimal(e) && e != [] && (letter == 0x65 || letter == 0x45)
    requires sign == [] || sign == [0x2B] || sign == [0x2D]
    ensures ParseFloat(m + [letter] + (sign + e))
        == Some(Finite(Scaled(Number(m) as real, if sign == [0x2D] then -(Number(e) as int) else Number(e))))
  {
    hide DigitsValue, Number, ParseReal, ParseExponent, ParseUnsigned, Scaled;
    DigitsValueIs(m);
    ReadsInteger(m, Number(m));
    SignedExponent(sign, e);
    LetterNoReal(m, letter, sign + e);
    UnsignedExponent(m, letter, sign + e);
    NotSigned(m, [letter] + (sign + e));
    assert m + [letter] + (sign + e) == m + ([letter] + (sign + e));
  }

  lemma NotSigned(m: Text, rest: Text)
    requires IsDecimal(m) && m != []
    ensures !IsSign((m + rest)[0])
  {
    assert IsDigit(m[0]);
  }

  lemma ScaledMeans(x: real, k: nat)
    ensures Scaled(x, k) == x * PowerOfTen(k) && Scaled(x, -(k as int)) * PowerOfTen(k) == x
  {
    if k == 0 {
      assert PowerOfTen(0) == 1.0;
    }
  }

  lemma SignedExponent(sign: Text, e: Text)
    requires IsDecimal(e) && e != [] && (sign == [] || sign == [0x2B] || sign == [0x2D])
    ensures ParseExponent(sign + e) == Some(if sign == [0x2D] then -(Number(e) as int) else Number(e))
  {
    hide DigitsValue, Number;
    DigitsValueIs(e);
    var tail := sign + e;
    if sign == [] {
      assert tail == e && IsDigit(e[0]);
    } else {
      assert tail[0] == sign[0] && tail[1..] == e;
    }
  }

  lemma UnsignedExponent(m: Text, letter: octet, tail: Text)
    requires IsDecimal(m) && m != [] && (letter == 0x65 || letter == 0x45)
    requires ParseReal(m).Some? && ParseExponent(tail).Some?
    ensures ParseUnsigned(m + [letter] + tail)
        == Some(Finite(Scaled(ParseReal(m).value, ParseExponent(tail).value)))
  {
    hide ParseReal, ParseExponent, Uppercased, FirstExponent;
    var s := m + [letter] + tail;
    LetterNoReal(m, letter, tail);
    assert s == m + ([letter] + tail);
    ExponentAt(m, [letter] + tail);
    assert s[..|m|] == m && s[|m| + 1..] == tail;
    assert s[0] == m[0] && IsDigit(m[0]);
    WordsStartWithLetters(s);
  }

  lemma {:induction false} ExponentAt(m: Text, rest: Text)
    requires IsDecimal(m) && rest != [] && (rest[0] == 0x65 || rest[0] == 0x45)
    ensures FirstExponent(m + rest) == |m|
  {
    if m == [] {
      assert m + rest == rest;
    } else {
      assert (m + rest)[1..] == m[1..] + rest;
      assert IsDigit(m[0]);
      ExponentAt(m[1..], rest);
    }
  }

  /** No text with a letter in it is plain digits. */
  lemma LetterNoReal(m: Text, letter: octet, tail: Text)
    requires letter == 0x65 || letter == 0x45
    ensures ParseReal(m + [letter] + tail) == None
  {
    var s := m + [letter] + tail;
    var i := FirstPoint(s);
    var digits := s[..i] + if i < |s| then s[i + 1..] else [];
    assert s[|m|] == letter;
    assert letter in digits by {
      if |m| < i {
        assert digits[|m|] == letter;
      } else {
        assert digits[|m| - 1] == letter;
      }
    }
    LetterNoValue(digits, letter, 0);
  }

  lemma {:induction false} LetterNoValue(s: Text, letter: octet, value: int)
    requires letter in s && DigitValue(letter) == None
    ensures DigitsValue(s, value) == None
  {
    if s[0] == letter || DigitValue(s[0]) == None {
    } else {
      assert s == [s[0]] + s[1..];
      LetterNoValue(s[1..], letter, 10 * value + DigitValue(s[0]).value);
    }
  }

  lemma WordsStartWithLetters(s: Text)
    requires s != [] && IsDigit(s[0])
    ensures Uppercased(s) !in {INF, INFINITY} && Uppercased(s) != NAN
  {
    assert Uppercased(s)[0] == Upper(s[0]);
  }

  /** "inf", "infinity" and "nan" in letters of either case. */
  lemma WordReads(s: Text, word: Text)
    requires word in {[0x49, 0x4E, 0x46], [0x49, 0x4E, 0x46, 0x49, 0x4E, 0x49, 0x54, 0x59], [0x4E, 0x41, 0x4E]}
    requires |s| == |word| && forall k | 0 <= k < |s| :: UpperCase(s[k]) == word[k]
    ensures ParseFloat(s) == Some(if word == [0x4E, 0x41, 0x4E] then NaN else Infinite(false))
  {
    hide Upper, UpperCase, ParseReal;
    forall k | 0 <= k < |s|
      ensures Upper(s[k]) == word[k]
    {
      UpperIsCase(s[k]);
    }
    FirstLetter(s, word[0]);
    assert Uppercased(s) == word;
  }

  lemma FirstLetter(s: Text, first: octet)
    requires s != [] && Upper(s[0]) == first && (first == 0x49 || first == 0x4E)
    ensures ParseReal(s) == None && !IsSign(s[0])
  {
    assert FirstPoint(s) == 1 + FirstPoint(s[1..]);
    assert DigitValue(s[0]) == None;
    var i := FirstPoint(s);
    var digits := s[..i] + if i < |s| then s[i + 1..] else [];
    assert digits[0] == s[0];
  }

  lemma DecimalReads(m: Text, h: Text)
    requires AllDigits(m, 2) && AllDigits(h, 2)
    ensures AllDigits(m + h, 4) && ParseFloat(m + [0x2E] + h) == Some(Finite(Number(m + h) as real / 100.0))
  {
    hide DigitsValue, Number, FirstPoint;
    var s := m + [0x2E] + h;
    DigitsValueIs(m + h);
    PointBehind(m, h);
    assert s[..2] + s[3..] == m + h;
    assert PowerOfTen(2) == 100.0;
  }

  lemma {:induction false} PointBehind(m: Text, h: Text)
    requires POINT !in m
    ensures FirstPoint(m + [0x2E] + h) == |m|
  {
    if m == [] {
    } else {
      assert (m + [0x2E] + h)[1..] == m[1..] + [0x2E] + h;
      PointBehind(m[1..], h);
    }
  }

  /** Degrees, minutes, hundredths and a hemisphere letter. */
  function AngleField(degrees: Text, minutes: Text, hundredths: Text, letter: octet): Text {
    degrees + (minutes + [0x2E] + hundredths) + [letter]
  }

  lemma AngleReads(degrees: Text, minutes: Text, hundredths: Text, letter: octet, width: nat, positive: octet,
                   negative: octet)
    requires width in {2, 3} && AllDigits(degrees, width) && AllDigits(minutes, 2) && AllDigits(hundredths, 2)
    requires letter in {positive, negative} && positive < 0x80 && negative < 0x80
    ensures AllDigits(minutes + hundredths, 4)
    ensures var s := AngleField(degrees, minutes, hundredths, letter);
      var v := Number(degrees) as real + Number(minutes + hundredths) as real / 6000.0;
      |s| == width + 6 && AsStr(s) == s && !AnglePanics(s, width)
      && ParsedAngle(s, width, positive, negative) == Some(Finite(if letter == positive then v else -v))
  {
    hide ParseFloat, Number, Trim, Valid, ParsedAngle, AnglePanics, IsDecimal, IsNumeric;
    NumberReads(degrees);
    DecimalReads(minutes, hundredths);
    FieldAscii(degrees, minutes, hundredths, letter);
    NumericPlain(degrees);
    var m, n := minutes + [0x2E] + hundredths, Number(minutes + hundredths);
    FieldFront(minutes, hundredths);
    SixThousandth(n);
    hide AllDigits;
    AngleOfParts(degrees, m, letter, positive, negative, Number(degrees) as real, n as real / 100.0);
  }

  lemma FieldFront(minutes: Text, hundredths: Text)
    requires |minutes| == 2 && |hundredths| == 2
    ensures |minutes + [0x2E] + hundredths| == 5 && (minutes + [0x2E] + hundredths)[0] == minutes[0]
  {}

  lemma SixThousandth(n: nat)
    ensures n as real / 100.0 / 60.0 == n as real / 6000.0
  {}

  lemma FieldAscii(degrees: Text, minutes: Text, hundredths: Text, letter: octet)
    requires IsDecimal(degrees) && IsDecimal(minutes) && IsDecimal(hundredths) && letter < 0x80 && minutes != []
    ensures Valid(AngleField(degrees, minutes, hundredths, letter))
    ensures IsNumeric(degrees) && minutes[0] < 0x80
  {
    AsciiValid(AngleField(degrees, minutes, hundredths, letter));
  }

  lemma AngleOfParts(d: Text, m: Text, letter: octet, positive: octet, negative: octet, deg: real, min: real)
    requires |m| == 5 && letter in {positive, negative} && m[0] < 0x80 && letter < 0x80
    requires ParseFloat(Trim(d)) == Some(Finite(deg)) && ParseFloat(m) == Some(Finite(min))
    ensures var s := d + m + [letter];
      !AnglePanics(s, |d|)
      && ParsedAngle(s, |d|, positive, negative)
         == Some(Finite(if letter == positive then deg + min / 60.0 else -(deg + min / 60.0)))
  {
    hide ParseFloat, Trim;
    var s := d + m + [letter];
    assert s[..|d|] == d && s[|d|..|d| + 5] == m && s[|d| + 5] == letter && s[|d|] == m[0];
  }

  /** A coordinate is cut when the octet behind its degrees continues a character, or
      the octet behind its minutes does and the degrees are a number. */
  lemma AngleCut(s: Text, width: nat)
    ensures AnglePanics(s, width) <==>
      |s| == width + 6
      && (0x80 <= s[width] <= 0xBF || (ParseFloat(Trim(s[..width])).Some? && 0x80 <= s[width + 5] <= 0xBF))
  {
    hide ParseFloat, Trim;
  }

  /** A body of thirteen octets or more that starts with a slash, a backslash, 'A' to
      'Z' or 'a' to 'j' is read as a compressed report if it is one; no other is. */
  lemma CompressedFirst(body: seq<octet>, others: Unmodelled)
    ensures ParsedPosition(body, others) ==
      if |body| >= 13 && (body[0] == 0x2F || body[0] == 0x5C || 0x41 <= body[0] <= 0x5A || 0x61 <= body[0] <= 0x6A)
         && others.compressed(body).Some?
      then others.compressed(body) else ParsedUncompressed(body)
  {
    hide ParsedUncompressed;
  }

  /** A mark of altitude, "/A=". */
  predicate IsMarked(text: Text, k: nat) {
    k + 3 <= |text| && text[k] == 0x2F && text[k + 1] == 0x41 && text[k + 2] == 0x3D
  }

  lemma {:induction false} AltitudeMarkIs(text: Text, i: nat)
    requires IsMarked(text, i) && forall k: nat | k < i :: !IsMarked(text, k)
    ensures AltitudeMark(text) == i
  {
    if i == 0 {
      assert [SLASH, 0x41, 0x3D] <= text;
    } else {
      assert !IsMarked(text, 0);
      assert IsMarked(text[1..], i - 1);
      forall k: nat | k < i - 1
        ensures !IsMarked(text[1..], k)
      {
        assert !IsMarked(text, k + 1);
      }
      AltitudeMarkIs(text[1..], i - 1);
    }
  }

  lemma {:induction false} NoMark(text: Text)
    requires forall k: nat | k < |text| :: !IsMarked(text, k)
    ensures AltitudeMark(text) == |text|
  {
    if text == [] {
    } else {
      assert !IsMarked(text, 0);
      forall k: nat | k < |text| - 1
        ensures !IsMarked(text[1..], k)
      {
        assert !IsMarked(text, k + 1);
      }
      NoMark(text[1..]);
    }
  }

  /** Without a mark there is no altitude; behind the first one it is the next six
      characters, and it is cut when they are not there or end inside a character. */
  lemma AltitudeReads(text: Text, i: nat)
    requires i <= |text| && (forall k: nat | k < i :: !IsMarked(text, k)) && (i == |text| || IsMarked(text, i))
    ensures i == |text| ==> Altitude(text) == None && !AltitudeCut(text)
    ensures i < |text| ==> (AltitudeCut(text) <==> |text| < i + 9 || (|text| > i + 9 && 0x80 <= text[i + 9] < 0xC0))
    ensures i < |text| && |text| >= i + 9 && AllDigits(text[i + 3..i + 9], 6)
        ==> Altitude(text) == Some(Finite(Number(text[i + 3..i + 9]) as real))
  {
    hide ParseFloat, Number, AltitudeMark;
    if i == |text| {
      NoMark(text);
    } else {
      AltitudeMarkIs(text, i);
      if |text| >= i + 9 && AllDigits(text[i + 3..i + 9], 6) {
        NumberReads(text[i + 3..i + 9]);
      }
    }
  }

  /** Course and speed are the numbers before and behind the slash. */
  lemma CourseSpeedReads(rest: Text)
    ensures |rest| < 7 || rest[3] != 0x2F ==> CourseSpeed(rest) == None
    ensures |rest| >= 7 && rest[3] == 0x2F && AllDigits(rest[0..3], 3) && AllDigits(rest[4..7], 3)
        ==> CourseSpeed(rest) == Some((Finite(Number(rest[0..3]) as real), Finite(Number(rest[4..7]) as real)))
  {
    hide ParseFloat, Number, Valid;
    if |rest| >= 7 && rest[3] == 0x2F && AllDigits(rest[0..3], 3) && AllDigits(rest[4..7], 3) {
      NumberReads(rest[0..3]);
      NumberReads(rest[4..7]);
      AsciiValid(rest[0..3]);
      AsciiValid(rest[4..7]);
    }
  }

  /** What stands before a position: '!' or '=', or '/' or '@' and seven octets of time. */
  predicate IsLead(lead: seq<octet>) {
    lead == [0x21] || lead == [0x3D] || (|lead| == 8 && (lead[0] == 0x2F || lead[0] == 0x40))
  }

  lemma LeadSkipped(frame: Ax25.Frame, lead: seq<octet>, body: seq<octet>, others: Unmodelled)
    requires IsLead(lead) && frame.info == lead + body && body != []
    ensures Parsed(frame, others)
        == if PositionPanics(body, others) then None else Some(OrOther(ParsedPosition(body, others)))
  {
    hide PositionPanics, ParsedPosition;
    assert frame.info[|lead|..] == body;
    assert frame.info[0] == lead[0];
  }

  /** Nothing at all, seven octets of time or fewer with nothing behind them, and
      positions and messages that do not read as such are kept as empty packets. */
  lemma OtherReads(frame: Ax25.Frame, others: Unmodelled)
    requires var info := frame.info;
      || info == []
      || (|info| <= 8 && (info[0] == 0x2F || info[0] == 0x40))
      || (info[0] == 0x3A && ParsedMessage(info[1..]) == None)
      || ((info[0] == 0x21 || info[0] == 0x3D) && ParsedPosition(info[1..], others) == None
          && !PositionPanics(info[1..], others))
    ensures Parsed(frame, others) == Some(Data(Other, None, None, None, None, None, None, None, [], None, None))
  {
    hide ParsedPosition, ParsedMessage, PositionPanics;
  }

  /** Only '!', '=', '/', '@' and ':' are read here. */
  lemma HandedOn(frame: Ax25.Frame, others: Unmodelled)
    requires frame.info != [] && frame.info[0] !in {0x21, 0x3D, 0x2F, 0x40, 0x3A}
    ensures Parsed(frame, others) == Some(others.packet(frame))
  {
    hide ParsedPosition, ParsedMessage, PositionPanics;
  }

  /** Latitude, symbol table, longitude, symbol code and comment. */
  function ReportText(lat: Text, table: octet, lon: Text, code: octet, rest: Text): Text {
    lat + [table] + lon + [code] + rest
  }

  /** How a report in decimal digits reads, field by field. */
  lemma {:induction false} ReportReads(frame: Ax25.Frame, lead: seq<octet>, latD: Text, latM: Text, latH: Text,
                    ns: octet, table: octet, lonD: Text, lonM: Text, lonH: Text, ew: octet, code: octet, rest: Text,
                    others: Unmodelled)
    requires IsLead(lead) && Valid(rest) && !AltitudeCut(rest)
    requires AllDigits(latD, 2) && AllDigits(latM, 2) && AllDigits(latH, 2) && ns in {0x4E, 0x53}
    requires AllDigits(lonD, 3) && AllDigits(lonM, 2) && AllDigits(lonH, 2) && ew in {0x45, 0x57}
    requires frame.info
          == lead + ReportText(AngleField(latD, latM, latH, ns), table, AngleField(lonD, lonM, lonH, ew), code, rest)
    ensures AllDigits(latM + latH, 4) && AllDigits(lonM + lonH, 4)
    ensures Parsed(frame, others).Some?
    ensures var d := Parsed(frame, others).value;
      && d.kind == Position && d.symbolTable == Some(table) && d.symbolCode == Some(code)
      && d.comment == Trim(rest) && d.altitude == Altitude(rest) && d.messageTo == None && d.messageText == None
    ensures var v := Number(latD) as real + Number(latM + latH) as real / 6000.0;
      Parsed(frame, others).value.lat == Some(Finite(if ns == 0x4E then v else -v))
    ensures var v := Number(lonD) as real + Number(lonM + lonH) as real / 6000.0;
      Parsed(frame, others).value.lon == Some(Finite(if ew == 0x45 then v else -v))
    ensures |rest| < 7 || rest[3] != 0x2F ==>
      Parsed(frame, others).value.course == None && Parsed(frame, others).value.speed == None
    ensures |rest| >= 7 && rest[3] == 0x2F && AllDigits(rest[0..3], 3) && AllDigits(rest[4..7], 3) ==>
      && Parsed(frame, others).value.course == Some(Finite(Number(rest[0..3]) as real))
      && Parsed(frame, others).value.speed == Some(Finite(Number(rest[4..7]) as real))
  {
    hide AltitudeCut, ParsedAngle, AnglePanics, Number, Altitude, CourseSpeed, Parsed, Valid, Trim, AngleField;
    var y, x := AngleField(latD, latM, latH, ns), AngleField(lonD, lonM, lonH, ew);
    AngleReads(latD, latM, latH, ns, 2, 0x4E, 0x53);
    AngleReads(lonD, lonM, lonH, ew, 3, 0x45, 0x57);
    AngleStarts(latD, latM, latH, ns);
    CourseSpeedReads(rest);
    TextReads(frame, lead, y, table, x, code, rest, others);
  }

  lemma AngleStarts(degrees: Text, minutes: Text, hundredths: Text, letter: octet)
    requires IsDecimal(degrees) && degrees != []
    ensures IsDigit(AngleField(degrees, minutes, hundredths, letter)[0])
  {}

  lemma TextReads(frame: Ax25.Frame, lead: seq<octet>, y: Text, table: octet, x: Text, code: octet, rest: Text,
                  others: Unmodelled)
    requires IsLead(lead) && Valid(rest) && !AltitudeCut(rest)
    requires frame.info == lead + ReportText(y, table, x, code, rest)
    requires |y| == 8 && |x| == 9 && AsStr(y) == y && AsStr(x) == x && !AnglePanics(y, 2) && !AnglePanics(x, 3)
    requires ParsedAngle(y, 2, 0x4E, 0x53).Some? && ParsedAngle(x, 3, 0x45, 0x57).Some? && IsDigit(y[0])
    ensures var cs := CourseSpeed(rest);
      Parsed(frame, others) == Some(Data(Position,
           ParsedAngle(y, 2, 0x4E, 0x53), ParsedAngle(x, 3, 0x45, 0x57), Some(table), Some(code),
           if cs.Some? then Some(cs.value.0) else None, if cs.Some? then Some(cs.value.1) else None,
           Altitude(rest), Trim(rest), None, None))
  {
    hide AltitudeCut, ParsedAngle, AnglePanics, Altitude, CourseSpeed, Parsed, Valid, Trim, ParsedUncompressed,
      UncompressedPanics;
    var body := y + ([table] + (x + ([code] + rest)));
    assert ReportText(y, table, x, code, rest) == body;
    CodeOnly([code], rest);
    FieldsRead(y, [table], x, [code], rest);
    NotCompressed(y, [table] + (x + ([code] + rest)), others);
    LeadSkipped(frame, lead, body, others);
  }
}
