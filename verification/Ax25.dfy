/** AX.25 UI frames (server/src/aprs/ax25.rs): address fields, encoder and parser.
    Strings are their UTF-8 octets. */
module Ax25 {
  import opened Wrappers
  import opened Octets
  import opened Utf8Text
  import opened Basics

  const DASH: octet := 0x2D
  const SPACE: octet := 0x20
  const STAR: octet := 0x2A

  predicate IsAlphanumeric(c: octet) {
    0x30 <= c <= 0x39 || 0x41 <= c <= 0x5A || 0x61 <= c <= 0x7A
  }

  datatype Address = Address(call: Text, last: bool, repeated: bool)

  datatype Frame = Frame(dest: Text, source: Text, digipeaters: seq<Text>, info: Text)

  // ----- Numbers in text -----

  /** What the standard library prints for a number below 16. */
  function Decimal(n: octet): Text
    requires n < 16
  {
    if n < 10 then [0x30 + n] else [0x31, 0x30 + (n - 10)]
  }

  function ParseDigits(s: Text, value: int): Option<int> {
    if s == [] then Some(value)
    else if !(0x30 <= s[0] <= 0x39) then None
    else
      var v := 10 * value + (s[0] - 0x30) as int;
      if v > 255 then None else ParseDigits(s[1..], v)
  }

  /** What the standard library reads as an unsigned octet: an optional plus and
      decimal digits, with a value of at most 255. */
  function ParseU8(s: Text): (r: Option<int>)
    ensures r.Some? ==> 0 <= r.value
  {
    var digits := if s != [] && s[0] == 0x2B then s[1..] else s;
    if digits == [] then None else
    ParsedPositive(digits, 0);
    ParseDigits(digits, 0)
  }

  lemma {:induction false} ParsedPositive(s: Text, value: int)
    requires value >= 0
    ensures ParseDigits(s, value).Some? ==> ParseDigits(s, value).value >= value
    decreases |s|
  {
    if s == [] || !(0x30 <= s[0] <= 0x39) {
    } else {
      ParsedPositive(s[1..], 10 * value + (s[0] - 0x30) as int);
    }
  }

  // ----- Address fields -----

  function FirstDash(s: Text): (i: nat)
    ensures i <= |s|
    ensures i < |s| ==> s[i] == DASH
    ensures DASH !in s[..i]
  {
    if s == [] || s[0] == DASH then 0 else
    assert s[..1 + FirstDash(s[1..])] == [s[0]] + s[1..][..FirstDash(s[1..])];
    1 + FirstDash(s[1..])
  }

  function NamePart(call: Text): Text {
    call[..FirstDash(call)]
  }

  function SsidPart(call: Text): octet {
    var i := FirstDash(call);
    if i == |call| then 0 else
    match ParseU8(call[i + 1..])
    case None => 0
    case Some(v) => (v % 16) as octet
  }

  function Padded(name: Text, i: nat): octet {
    Shifted(if i < |name| then name[i] else SPACE)
  }

  function Shifted(c: octet): octet {
    c << 1
  }

  /** The six shifted name octets, space padded. */
  function NameField(name: Text): (r: seq<octet>)
    ensures |r| == 6
  {
    seq(6, i requires 0 <= i < 6 => Padded(name, i))
  }

  function SsidField(ssid: octet, last: bool): octet {
    (ssid << 1) | 0x60 | (if last then 1 else 0)
  }

  function EncodedAddr(call: Text, last: bool): (r: seq<octet>)
    ensures |r| == 7
  {
    NameField(NamePart(call)) + [SsidField(SsidPart(call), last)]
  }

  /** The characters of shifted name octets, spaces skipped. */
  function DecodedName(a: seq<octet>): Option<Text> {
    if a == [] then Some([]) else
    var c := a[0] >> 1;
    if c != SPACE && !IsAlphanumeric(c) then None else
    match DecodedName(a[1..])
    case None => None
    case Some(rest) => Some(if c != SPACE then [c] + rest else rest)
  }

  function WithSsid(name: Text, ssid: octet): Text
    requires ssid < 16
  {
    if ssid == 0 then name else name + [DASH] + Decimal(ssid)
  }

  lemma LowNibble(b: octet)
    ensures (b >> 1) & 0x0F < 16
  {}

  function DecodedAddr(a: seq<octet>): Option<Address> {
    if |a| < 7 then None else
    match DecodedName(a[..6])
    case None => None
    case Some(name) =>
      if name == [] then None else
      LowNibble(a[6]);
      Some(Address(WithSsid(name, (a[6] >> 1) & 0x0F), a[6] & 0x01 != 0, a[6] & 0x80 != 0))
  }

  method EncodeAddr(call: Text, last: bool) returns (out: seq<octet>)
    ensures out == EncodedAddr(call, last)
  {
    hide FirstDash, ParseU8;
    var dash := FirstDash(call);
    var name, ssid: octet := call, 0;
    if dash < |call| {
      name := call[..dash];
      var parsed := ParseU8(call[dash + 1..]);
      ssid := if parsed.Some? then (parsed.value % 16) as octet else 0;
    }
    assert name == NamePart(call);
    assert ssid == SsidPart(call);
    out := seq(7, _ => Shifted(SPACE));
    var i := 0;
    while i < 6 && i < |name|
      invariant 0 <= i <= 6 && i <= |name| && |out| == 7
      invariant forall k | 0 <= k < 7 :: out[k] == Shifted(if k < i then name[k] else SPACE)
    {
      out := out[i := Shifted(name[i])];
      i := i + 1;
    }
    out := out[6 := (ssid << 1) | 0x60 | (if last then 1 else 0)];
    assert out[..6] == NameField(name);
  }

  method DecodeName(field: seq<octet>) returns (r: Option<Text>)
    ensures r == DecodedName(field)
  {
    var call: Text := [];
    assert field[0..] == field;
    for i := 0 to |field|
      invariant DecodedName(field).Some? == DecodedName(field[i..]).Some?
      invariant DecodedName(field).Some? ==> DecodedName(field).value == call + DecodedName(field[i..]).value
    {
      assert field[i..][1..] == field[i + 1..];
      var c := field[i] >> 1;
      if c != SPACE {
        if !IsAlphanumeric(c) {
          return None;
        }
        call := call + [c];
      }
    }
    assert call + DecodedName(field[|field|..]).value == call;
    return Some(call);
  }

  method DecodeAddr(a: seq<octet>) returns (r: Option<Address>)
    ensures r == DecodedAddr(a)
  {
    hide DecodedName;
    if |a| < 7 {
      return None;
    }
    var name := DecodeName(a[..6]);
    if name == None || name.value == [] {
      return None;
    }
    var call := name.value;
    var ssid := (a[6] >> 1) & 0x0F;
    LowNibble(a[6]);
    if ssid != 0 {
      call := call + [DASH];
      call := call + Decimal(ssid);
    }
    return Some(Address(call, a[6] & 0x01 != 0, a[6] & 0x80 != 0));
  }

  // ----- Frames -----

  function EncodedPath(path: seq<Text>): seq<octet> {
    if path == [] then [] else EncodedAddr(path[0], |path| == 1) + EncodedPath(path[1..])
  }

  function EncodedUi(dest: Text, source: Text, path: seq<Text>, info: Text): seq<octet> {
    EncodedAddr(dest, false) + EncodedAddr(source, path == []) + EncodedPath(path) + [0x03, 0xF0] + info
  }

  method EncodeUi(dest: Text, source: Text, path: seq<Text>, info: Text) returns (out: seq<octet>)
    ensures out == EncodedUi(dest, source, path, info)
  {
    hide EncodedAddr;
    out := EncodeAddr(dest, false);
    var field := EncodeAddr(source, path == []);
    out := out + field;
    ghost var head := out;
    assert path[0..] == path;
    for i := 0 to |path|
      invariant out + EncodedPath(path[i..]) == head + EncodedPath(path)
    {
      assert path[i..][1..] == path[i + 1..];
      field := EncodeAddr(path[i], i + 1 == |path|);
      out := out + field;
    }
    assert out == head + EncodedPath(path);
    out := out + [0x03];
    out := out + [0xF0];
    out := out + info;
  }

  /** The digipeater walk from `pos`: the path and where it ends. */
  function Walk(octets: seq<octet>, pos: nat, seen: seq<Text>): Option<(seq<Text>, nat)>
    decreases |octets| - pos
  {
    if pos + 7 > |octets| then None else
    match DecodedAddr(octets[pos..pos + 7])
    case None => None
    case Some(a) =>
      var path := seen + [if a.repeated then a.call + [STAR] else a.call];
      if |path| > 8 then None
      else if a.last then Some((path, pos + 7))
      else Walk(octets, pos + 7, path)
  }

  function AfterAddresses(octets: seq<octet>, dest: Text, source: Text, path: seq<Text>, pos: nat): Option<Frame> {
    if pos + 2 > |octets| || octets[pos] != 0x03 then None
    else Some(Frame(dest, source, path, octets[pos + 2..]))
  }

  function Parsed(octets: seq<octet>): Option<Frame> {
    if |octets| < 15 then None else
    match (DecodedAddr(octets[0..7]), DecodedAddr(octets[7..14]))
    case (Some(d), Some(s)) =>
      if d.last then None
      else if s.last then AfterAddresses(octets, d.call, s.call, [], 14)
      else (match Walk(octets, 14, [])
            case None => None
            case Some(w) => AfterAddresses(octets, d.call, s.call, w.0, w.1))
    case _ => None
  }

  method Parse(octets: seq<octet>) returns (r: Option<Frame>)
    ensures r == Parsed(octets)
  {
    hide DecodedAddr;
    if |octets| < 15 {
      return None;
    }
    var d := DecodeAddr(octets[0..7]);
    if d == None || d.value.last {
      return None;
    }
    var s := DecodeAddr(octets[7..14]);
    if s == None {
      return None;
    }
    var slast := s.value.last;
    var digipeaters: seq<Text> := [];
    var pos := 14;
    while !slast
      invariant 14 <= pos <= |octets|
      invariant |digipeaters| <= 8
      invariant Parsed(octets) ==
          if slast then AfterAddresses(octets, d.value.call, s.value.call, digipeaters, pos)
          else match Walk(octets, pos, digipeaters)
            case None => None
            case Some(w) => AfterAddresses(octets, d.value.call, s.value.call, w.0, w.1)
      decreases |octets| - pos, !slast
    {
      if pos + 7 > |octets| {
        return None;
      }
      var a := DecodeAddr(octets[pos..pos + 7]);
      if a == None {
        return None;
      }
      var call := a.value.call;
      if a.value.repeated {
        call := call + [STAR];
      }
      digipeaters := digipeaters + [call];
      slast := a.value.last;
      pos := pos + 7;
      if |digipeaters| > 8 {
        return None;
      }
    }
    if pos + 2 > |octets| || octets[pos] != 0x03 {
      return None;
    }
    pos := pos + 2;
    return Some(Frame(d.value.call, s.value.call, digipeaters, octets[pos..]));
  }

  // ----- Round trips -----

  /** One to six letters and digits, and an SSID from 1 to 15 written without
      leading zeros, or no SSID. */
  predicate IsCallsign(name: Text, ssid: octet) {
    1 <= |name| <= 6 && ssid < 16 && forall c | c in name :: IsAlphanumeric(c)
  }

  predicate Canonical(call: Text) {
    var i := FirstDash(call);
    IsCallsign(call[..i], SsidPart(call)) && call == WithSsid(call[..i], SsidPart(call))
  }

  lemma ParsesDecimal(ssid: octet)
    requires 0 < ssid < 16
    ensures ParseU8(Decimal(ssid)) == Some(ssid as int)
  {
    var s := Decimal(ssid);
    if ssid < 10 {
      assert s[1..] == [];
      assert ParseDigits(s, 0) == ParseDigits(s[1..], ssid as int);
    } else {
      TensOf(ssid);
      assert s[1..][1..] == [];
      assert ParseDigits(s, 0) == ParseDigits(s[1..], 1);
      assert ParseDigits(s[1..], 1) == ParseDigits(s[1..][1..], 10 + (ssid - 10) as int);
    }
  }

  lemma TensOf(ssid: octet)
    requires 10 <= ssid < 16
    ensures 10 + (ssid - 10) as int == ssid as int
  {}

  lemma SixteenKeeps(ssid: octet)
    requires ssid < 16
    ensures (ssid as int) % 16 == ssid as int && (ssid as int) as octet == ssid
  {}

  lemma {:induction false} DashAfter(name: Text, tail: Text)
    requires DASH !in name && (tail == [] || tail[0] == DASH)
    ensures FirstDash(name + tail) == |name|
  {
    if name == [] {
      assert name + tail == tail;
    } else {
      assert (name + tail)[1..] == name[1..] + tail;
      DashAfter(name[1..], tail);
    }
  }

  /** Splitting a callsign gives back its parts. */
  lemma SplitsParts(name: Text, ssid: octet)
    requires IsCallsign(name, ssid)
    ensures NamePart(WithSsid(name, ssid)) == name
    ensures SsidPart(WithSsid(name, ssid)) == ssid
  {
    hide ParseU8, FirstDash, Decimal;
    var call := WithSsid(name, ssid);
    assert DASH !in name;
    if ssid == 0 {
      DashAfter(name, []);
      assert name + [] == name;
    } else {
      DashAfter(name, [DASH] + Decimal(ssid));
      assert name + ([DASH] + Decimal(ssid)) == call;
      assert call[|name| + 1..] == Decimal(ssid);
      ParsesDecimal(ssid);
      SixteenKeeps(ssid);
    }
  }

  lemma ShiftBack(c: octet)
    requires c < 0x80
    ensures Shifted(c) >> 1 == c
  {}

  lemma AlphanumericAscii(c: octet)
    requires IsAlphanumeric(c)
    ensures c < 0x80 && c != SPACE
  {}

  lemma {:induction false} DecodesSpaces(a: seq<octet>)
    requires forall k | 0 <= k < |a| :: a[k] == Shifted(SPACE)
    ensures DecodedName(a) == Some([])
  {
    if a == [] {
    } else {
      ShiftBack(SPACE);
      DecodesSpaces(a[1..]);
    }
  }

  lemma {:induction false} DecodesNameField(name: Text, a: seq<octet>)
    requires |name| <= |a| && forall c | c in name :: IsAlphanumeric(c)
    requires forall k | 0 <= k < |a| :: a[k] == Padded(name, k)
    ensures DecodedName(a) == Some(name)
  {
    if name == [] {
      assert forall k | 0 <= k < |a| :: a[k] == Padded(name, k);
      DecodesSpaces(a);
    } else {
      AlphanumericAscii(name[0]);
      ShiftBack(name[0]);
      assert a[0] == Padded(name, 0);
      assert forall k | 0 <= k < |a| - 1 :: a[1..][k] == a[k + 1] == Padded(name, k + 1) == Padded(name[1..], k);
      DecodesNameField(name[1..], a[1..]);
      assert name == [name[0]] + name[1..];
    }
  }

  lemma SsidFieldBits(ssid: octet, last: bool)
    requires ssid < 16
    ensures (SsidField(ssid, last) >> 1) & 0x0F == ssid
    ensures (SsidField(ssid, last) & 0x01 != 0) == last
    ensures SsidField(ssid, last) & 0x80 == 0
  {}

  lemma {:induction false} DecodedNameIsName(a: seq<octet>)
    ensures DecodedName(a).Some? ==>
        |DecodedName(a).value| <= |a| && forall c | c in DecodedName(a).value :: IsAlphanumeric(c)
  {
    if a == [] {
    } else {
      DecodedNameIsName(a[1..]);
    }
  }

  lemma CallsignCanonical(name: Text, ssid: octet)
    requires IsCallsign(name, ssid)
    ensures Canonical(WithSsid(name, ssid))
  {
    hide FirstDash, WithSsid, SsidPart;
    SplitsParts(name, ssid);
  }

  /** Whatever decodes, decodes to a canonical callsign. */
  lemma DecodedCanonical(a: seq<octet>)
    ensures DecodedAddr(a).Some? ==> Canonical(DecodedAddr(a).value.call)
  {
    hide Canonical, WithSsid, DecodedName;
    if DecodedAddr(a).Some? {
      DecodedNameIsName(a[..6]);
      LowNibble(a[6]);
      CallsignCanonical(DecodedName(a[..6]).value, (a[6] >> 1) & 0x0F);
    }
  }

  lemma SsidPartSmall(call: Text)
    ensures SsidPart(call) < 16
  {
    hide ParseU8, FirstDash;
  }

  /** The H bit is never set and the last bit is the one given. */
  lemma EncodedFlags(call: Text, last: bool)
    ensures var a := DecodedAddr(EncodedAddr(call, last));
      a.Some? ==> a.value.last == last && !a.value.repeated
  {
    hide DecodedName, SsidField, WithSsid, SsidPart, NameField;
    SsidPartSmall(call);
    SsidFieldBits(SsidPart(call), last);
  }

  /** An address field round-trips exactly when the callsign is canonical. */
  lemma AddressRoundTrip(call: Text, last: bool)
    ensures DecodedAddr(EncodedAddr(call, last)) == Some(Address(call, last, false))
        <==> Canonical(call)
  {
    hide FirstDash, ParseU8, SsidField, DecodedName, WithSsid;
    var a := EncodedAddr(call, last);
    if Canonical(call) {
      var name := NamePart(call);
      assert a[..6] == NameField(name);
      DecodesNameField(name, a[..6]);
      SsidFieldBits(SsidPart(call), last);
      assert a[6] == SsidField(SsidPart(call), last);
    } else {
      DecodedCanonical(a);
    }
  }

  lemma WalkStep(before: seq<octet>, path: seq<Text>, after: seq<octet>, seen: seq<Text>)
    requires path != []
    ensures var field := EncodedAddr(path[0], |path| == 1);
      var octets := before + EncodedPath(path) + after;
      var w := Walk(octets, |before|, seen);
      octets == before + field + EncodedPath(path[1..]) + after
      && if DecodedAddr(field).None? || |seen| >= 8 then w == None
         else if |path| == 1 then w == Some((seen + [DecodedAddr(field).value.call], |before| + 7))
         else w == Walk(octets, |before| + 7, seen + [DecodedAddr(field).value.call])
  {
    hide DecodedAddr, EncodedAddr, EncodedPath;
    PathHead(before, path, after);
    EncodedFlags(path[0], |path| == 1);
  }

  lemma PathHead(before: seq<octet>, path: seq<Text>, after: seq<octet>)
    requires path != []
    ensures var field := EncodedAddr(path[0], |path| == 1);
      var octets := before + EncodedPath(path) + after;
      octets == before + field + EncodedPath(path[1..]) + after
      && |before| + 7 <= |octets| && octets[|before|..|before| + 7] == field
  {
    hide EncodedAddr;
    var field := EncodedAddr(path[0], |path| == 1);
    assert before + EncodedPath(path) == before + field + EncodedPath(path[1..]);
  }

  /** Encoded digipeaters walk back to themselves, in order, to the end. */
  lemma {:induction false} WalksPath(before: seq<octet>, path: seq<Text>, after: seq<octet>, seen: seq<Text>)
    requires path != [] && |seen| + |path| <= 8
    requires forall p | p in path :: Canonical(p)
    ensures Walk(before + EncodedPath(path) + after, |before|, seen)
        == Some((seen + path, |before| + |EncodedPath(path)|))
    decreases |path|
  {
    hide DecodedAddr, EncodedAddr, Canonical, Walk;
    assert path[0] in path;
    AddressRoundTrip(path[0], |path| == 1);
    WalkStep(before, path, after, seen);
    if |path| == 1 {
      assert path == [path[0]];
      assert EncodedPath(path[1..]) == [];
    } else {
      WalksPath(before + EncodedAddr(path[0], false), path[1..], after, seen + [path[0]]);
      assert seen + [path[0]] + path[1..] == seen + path;
    }
  }

  /** A walk that succeeds over encoded digipeaters returns canonical callsigns,
      one per field, at most eight of them. */
  lemma {:induction false} WalkCanonical(before: seq<octet>, path: seq<Text>, after: seq<octet>, seen: seq<Text>)
    requires path != [] && forall p | p in seen :: Canonical(p)
    ensures var w := Walk(before + EncodedPath(path) + after, |before|, seen);
      w.Some? ==> (|w.value.0| == |seen| + |path| <= 8 && forall p | p in w.value.0 :: Canonical(p))
    decreases |path|
  {
    hide DecodedAddr, EncodedAddr, Canonical, Walk;
    var field := EncodedAddr(path[0], |path| == 1);
    DecodedCanonical(field);
    WalkStep(before, path, after, seen);
    if DecodedAddr(field).Some? && |path| > 1 {
      WalkCanonical(before + field, path[1..], after, seen + [DecodedAddr(field).value.call]);
    }
  }

  /** An encoded UI frame parses back to its fields exactly when every callsign is
      canonical and there are at most eight digipeaters. */
  lemma UiRoundTrip(dest: Text, source: Text, path: seq<Text>, info: Text)
    ensures Parsed(EncodedUi(dest, source, path, info)) == Some(Frame(dest, source, path, info))
        <==> Canonical(dest) && Canonical(source) && |path| <= 8 && forall p | p in path :: Canonical(p)
  {
    hide DecodedAddr, EncodedAddr, Canonical, Walk;
    var d, s := EncodedAddr(dest, false), EncodedAddr(source, path == []);
    var before, after := d + s, [0x03, 0xF0] + info;
    var octets := EncodedUi(dest, source, path, info);
    assert octets == before + EncodedPath(path) + after;
    assert octets[0..7] == d && octets[7..14] == s;
    AddressRoundTrip(dest, false);
    AddressRoundTrip(source, path == []);
    EncodedFlags(dest, false);
    EncodedFlags(source, path == []);
    DecodedCanonical(d);
    DecodedCanonical(s);
    var end := 14 + |EncodedPath(path)|;
    assert octets[end] == 0x03 && octets[end + 2..] == info;
    if path != [] {
      if |path| <= 8 && forall p | p in path :: Canonical(p) {
        WalksPath(before, path, after, []);
        assert [] + path == path;
      }
      WalkCanonical(before, path, after, []);
    }
  }

  // ----- Frames of others -----

  /** A callsign in writing. */
  function Written(name: Text, ssid: octet): Text
    requires ssid < 16
  {
    if ssid == 0 then name else if ssid < 10 then name + [0x2D, 0x30 + ssid] else name + [0x2D, 0x31, 0x26 + ssid]
  }

  /** An address field on the air: six characters and the SSID in the high bits of
      their octets, last and repeated bit in the seventh, anything in the two
      reserved bits and in the low bits of the six. */
  predicate IsField(a: seq<octet>, name: Text, ssid: octet, last: bool, repeated: bool) {
    && |a| == 7 && 1 <= |name| <= 6 && ssid < 16
    && (forall k | 0 <= k < |name| :: IsAlphanumeric(name[k]))
    && (forall k | 0 <= k < 6 :: a[k] & 0xFE == (if k < |name| then name[k] else 0x20) << 1)
    && a[6] & 0x9F == (if repeated then 0x80 else 0x00) | (ssid << 1) | (if last then 0x01 else 0x00)
  }

  lemma HighBits(a: octet, c: octet)
    requires c < 0x80 && a & 0xFE == c << 1
    ensures a >> 1 == c
  {}

  lemma {:induction false} DecodesHigh(name: Text, a: seq<octet>)
    requires |name| <= |a| && forall k | 0 <= k < |name| :: IsAlphanumeric(name[k])
    requires forall k | 0 <= k < |a| :: a[k] >> 1 == if k < |name| then name[k] else 0x20
    ensures DecodedName(a) == Some(name)
  {
    if a == [] {
    } else if name == [] {
      DecodesHigh([], a[1..]);
    } else {
      AlphanumericAscii(name[0]);
      forall k | 0 <= k < |a| - 1
        ensures a[1..][k] >> 1 == if k < |name| - 1 then name[1..][k] else 0x20
      {
        assert a[1..][k] == a[k + 1];
      }
      DecodesHigh(name[1..], a[1..]);
      assert name == [name[0]] + name[1..];
    }
  }

  lemma SeventhBits(b: octet, ssid: octet, last: bool, repeated: bool)
    requires ssid < 16
    requires b & 0x9F == (if repeated then 0x80 else 0x00) | (ssid << 1) | (if last then 0x01 else 0x00)
    ensures (b >> 1) & 0x0F == ssid && (b & 0x01 != 0) == last && (b & 0x80 != 0) == repeated
  {}

  lemma WrittenIs(name: Text, ssid: octet)
    requires ssid < 16
    ensures WithSsid(name, ssid) == Written(name, ssid)
  {
    if ssid >= 10 {
      assert 0x30 + (ssid - 10) == 0x26 + ssid;
      assert name + [DASH] + Decimal(ssid) == name + ([DASH] + Decimal(ssid));
    }
  }

  /** How an address field reads, whoever wrote it. */
  lemma FieldReads(a: seq<octet>, name: Text, ssid: octet, last: bool, repeated: bool)
    requires IsField(a, name, ssid, last, repeated)
    ensures DecodedAddr(a) == Some(Address(Written(name, ssid), last, repeated))
  {
    hide DecodedName, WithSsid, Written;
    forall k | 0 <= k < 6
      ensures a[..6][k] >> 1 == if k < |name| then name[k] else 0x20
    {
      if k < |name| {
        AlphanumericAscii(name[k]);
      }
      HighBits(a[k], if k < |name| then name[k] else 0x20);
    }
    DecodesHigh(name, a[..6]);
    SeventhBits(a[6], ssid, last, repeated);
    WrittenIs(name, ssid);
  }

  /** Fields of which the last one, and only that, ends the addresses. */
  ghost predicate IsPath(fields: seq<seq<octet>>) {
    forall i | 0 <= i < |fields| ::
      |fields[i]| == 7 && DecodedAddr(fields[i]).Some? && DecodedAddr(fields[i]).value.last == (i == |fields| - 1)
  }

  /** Digipeaters as they are listed, a star behind those that have repeated. */
  function Listed(fields: seq<seq<octet>>): seq<Text> {
    if fields == [] then [] else
    (match DecodedAddr(fields[0])
     case None => []
     case Some(a) => [if a.repeated then a.call + [0x2A] else a.call]) + Listed(fields[1..])
  }

  lemma FieldAt(before: seq<octet>, fields: seq<seq<octet>>, after: seq<octet>)
    requires fields != [] && |fields[0]| == 7
    ensures var octets := before + Flatten(fields) + after;
      octets == before + fields[0] + Flatten(fields[1..]) + after
      && |before| + 7 <= |octets| && octets[|before|..|before| + 7] == fields[0]
  {
    assert before + Flatten(fields) == before + fields[0] + Flatten(fields[1..]);
  }

  function Name(a: Address): Text {
    if a.repeated then a.call + [0x2A] else a.call
  }

  lemma FieldStep(before: seq<octet>, fields: seq<seq<octet>>, after: seq<octet>, seen: seq<Text>, a: Address)
    requires fields != [] && |fields[0]| == 7 && DecodedAddr(fields[0]) == Some(a) && |seen| < 8
    ensures var octets := before + Flatten(fields) + after;
      octets == before + fields[0] + Flatten(fields[1..]) + after
      && Walk(octets, |before|, seen)
         == if a.last then Some((seen + [Name(a)], |before| + 7)) else Walk(octets, |before| + 7, seen + [Name(a)])
  {
    hide DecodedAddr, Flatten;
    FieldAt(before, fields, after);
  }

  lemma LaterPath(fields: seq<seq<octet>>)
    requires fields != [] && IsPath(fields)
    ensures IsPath(fields[1..]) && |fields[0]| == 7 && DecodedAddr(fields[0]).Some?
    ensures DecodedAddr(fields[0]).value.last == (|fields| == 1)
    ensures Listed(fields) == [Name(DecodedAddr(fields[0]).value)] + Listed(fields[1..])
  {
    hide DecodedAddr;
    var rest := fields[1..];
    assert forall i | 0 <= i < |rest| :: rest[i] == fields[i + 1];
  }

  lemma {:induction false} WalksFields(before: seq<octet>, fields: seq<seq<octet>>, after: seq<octet>, seen: seq<Text>)
    requires fields != [] && |seen| + |fields| <= 8 && IsPath(fields)
    ensures Walk(before + Flatten(fields) + after, |before|, seen)
        == Some((seen + Listed(fields), |before| + 7 * |fields|))
    decreases |fields|
  {
    hide DecodedAddr, Walk, IsPath, Flatten, Listed;
    LaterPath(fields);
    var a := DecodedAddr(fields[0]).value;
    FieldStep(before, fields, after, seen, a);
    if |fields| == 1 {
      NoneListed(fields[1..]);
      assert Listed(fields) == [Name(a)];
      assert before + fields[0] + Flatten(fields[1..]) + after == before + Flatten(fields) + after;
    } else {
      WalksFields(before + fields[0], fields[1..], after, seen + [Name(a)]);
      assert seen + [Name(a)] + Listed(fields[1..]) == seen + Listed(fields);
    }
  }

  lemma NoneListed(fields: seq<seq<octet>>)
    ensures fields == [] ==> Listed(fields) == [] && Flatten(fields) == []
  {}

  lemma {:induction false} FieldsLength(fields: seq<seq<octet>>)
    requires forall i | 0 <= i < |fields| :: |fields[i]| == 7
    ensures |Flatten(fields)| == 7 * |fields|
  {
    if fields == [] {
    } else {
      FieldsLength(fields[1..]);
    }
  }

  lemma FrameSlices(d: seq<octet>, s: seq<octet>, path: seq<octet>, control: octet, pid: octet, info: Text)
    requires |d| == |s| == 7
    ensures var octets := d + s + path + ([control, pid] + info);
      && octets == d + s + path + [control, pid] + info
      && octets[0..7] == d && octets[7..14] == s
      && 14 + |path| + 2 <= |octets| && octets[14 + |path|] == control && octets[14 + |path| + 2..] == info
  {}

  /** Any frame with at most eight digipeaters, repeated or not, reads as its fields
      and what follows control and protocol octet; unnumbered information only. */
  lemma FrameReads(d: seq<octet>, s: seq<octet>, fields: seq<seq<octet>>, control: octet, pid: octet, info: Text)
    requires |fields| <= 8 && IsPath(fields)
    requires |d| == |s| == 7 && DecodedAddr(d).Some? && DecodedAddr(s).Some?
    requires !DecodedAddr(d).value.last && DecodedAddr(s).value.last == (fields == [])
    ensures Parsed(d + s + Flatten(fields) + [control, pid] + info)
        == if control == 0x03
           then Some(Frame(DecodedAddr(d).value.call, DecodedAddr(s).value.call, Listed(fields), info))
           else None
  {
    hide DecodedAddr, Walk, Flatten, Listed;
    FieldsLength(fields);
    FrameSlices(d, s, Flatten(fields), control, pid, info);
    NoneListed(fields);
    if fields != [] {
      hide IsPath;
      WalksFields(d + s, fields, [control, pid] + info, []);
      assert [] + Listed(fields) == Listed(fields);
    }
  }

  // ----- What the encoder writes -----

  /** Octet by octet: the name shifted and padded, both reserved bits set, the SSID and
      the last bit, never the repeated bit. */
  lemma AddressLayout(call: Text, last: bool)
    ensures var a := EncodedAddr(call, last);
      && (forall k | 0 <= k < 6 :: a[k] == (if k < FirstDash(call) then call[k] else 0x20) << 1)
      && a[6] == 0x60 | (SsidPart(call) << 1) | (if last then 0x01 else 0x00)
      && a[6] & 0xE0 == 0x60
  {
    hide FirstDash, ParseU8;
    SsidPartSmall(call);
    SeventhWritten(SsidPart(call), last);
  }

  lemma SeventhWritten(ssid: octet, last: bool)
    requires ssid < 16
    ensures SsidField(ssid, last) == 0x60 | (ssid << 1) | (if last then 0x01 else 0x00)
    ensures SsidField(ssid, last) & 0xE0 == 0x60
  {}

  lemma {:induction false} PathLength(path: seq<Text>)
    ensures |EncodedPath(path)| == 7 * |path|
  {
    hide EncodedAddr;
    if path == [] {
    } else {
      PathLength(path[1..]);
    }
  }

  /** Destination, source and path, the last of them marked, then 0x03, 0xF0 and the
      information. */
  lemma UiLayout(dest: Text, source: Text, path: seq<Text>, info: Text)
    ensures var u := EncodedUi(dest, source, path, info);
      var n := 14 + 7 * |path|;
      && |u| == n + 2 + |info| && u[n] == 0x03 && u[n + 1] == 0xF0 && u[n + 2..] == info
      && u[..7] == EncodedAddr(dest, false) && u[7..14] == EncodedAddr(source, path == [])
      && forall k | 0 <= k < |path| :: u[14 + 7 * k..][..7] == EncodedAddr(path[k], k == |path| - 1)
  {
    hide EncodedAddr, EncodedPath;
    var d, s, p := EncodedAddr(dest, false), EncodedAddr(source, path == []), EncodedPath(path);
    PathLength(path);
    FrameSlices(d, s, p, 0x03, 0xF0, info);
    var u := d + s + p + [0x03, 0xF0] + info;
    assert u == EncodedUi(dest, source, path, info);
    assert u[0..7] == u[..7];
    forall k | 0 <= k < |path|
      ensures u[14 + 7 * k..][..7] == EncodedAddr(path[k], k == |path| - 1)
    {
      PathAt(path, k);
      SliceInside(d + s, p, [0x03, 0xF0] + info, 7 * k);
      assert u == d + s + p + ([0x03, 0xF0] + info);
    }
  }

  lemma SliceInside(before: seq<octet>, p: seq<octet>, after: seq<octet>, k: nat)
    requires k + 7 <= |p|
    ensures (before + p + after)[|before| + k..][..7] == p[k..][..7]
  {}

  lemma {:induction false} PathAt(path: seq<Text>, k: nat)
    requires k < |path|
    ensures 7 * k + 7 <= |EncodedPath(path)|
    ensures EncodedPath(path)[7 * k..][..7] == EncodedAddr(path[k], k == |path| - 1)
  {
    hide EncodedAddr;
    var first, rest := EncodedAddr(path[0], |path| == 1), EncodedPath(path[1..]);
    if k == 0 {
      assert (first + rest)[0..][..7] == first;
    } else {
      PathAt(path[1..], k - 1);
      assert (first + rest)[7 * k..] == rest[7 * (k - 1)..];
    }
  }

  // ----- What is not an address -----

  /** The characters of a field are letters, digits and spaces, not all spaces. */
  lemma FieldDecodes(a: seq<octet>)
    ensures DecodedAddr(a).Some? <==>
      |a| >= 7
      && (forall k | 0 <= k < 6 :: var c := a[k] >> 1;
            0x30 <= c <= 0x39 || 0x41 <= c <= 0x5A || 0x61 <= c <= 0x7A || c == 0x20)
      && exists k :: 0 <= k < 6 && a[k] >> 1 != 0x20
  {
    hide DecodedName;
    if |a| >= 7 {
      NameDecodes(a[..6]);
      LowNibble(a[6]);
      assert forall k | 0 <= k < 6 :: a[..6][k] == a[k];
    }
  }

  predicate IsNameOctet(b: octet) {
    var c := b >> 1;
    0x30 <= c <= 0x39 || 0x41 <= c <= 0x5A || 0x61 <= c <= 0x7A || c == 0x20
  }

  lemma {:induction false} NameDecodes(a: seq<octet>)
    ensures DecodedName(a).Some? <==> forall k | 0 <= k < |a| :: IsNameOctet(a[k])
    ensures DecodedName(a).Some? ==> (DecodedName(a).value == [] <==> forall k | 0 <= k < |a| :: a[k] >> 1 == 0x20)
  {
    if a == [] {
    } else {
      NameDecodes(a[1..]);
      assert forall k | 0 < k < |a| :: a[k] == a[1..][k - 1];
      assert forall k | 0 <= k < |a| - 1 :: a[1..][k] == a[k + 1];
    }
  }

  /** Behind the first dash, up to 255 in decimal digits gives its four low bits,
      with or without a plus before it; anything else gives SSID 0. */
  lemma SsidReads(name: Text, tail: Text)
    requires DASH !in name
    ensures SsidPart(name) == 0
    ensures IsDecimal(tail) && tail != [] ==>
      SsidPart(name + [0x2D] + tail) == (if Number(tail) <= 255 then (Number(tail) % 16) as octet else 0)
      && SsidPart(name + [0x2D, 0x2B] + tail) == SsidPart(name + [0x2D] + tail)
    ensures (tail == [] || (tail[0] != 0x2B && !IsDecimal(tail))) ==> SsidPart(name + [0x2D] + tail) == 0
  {
    hide FirstDash, Number;
    DashAfter(name, []);
    assert name + [] == name;
    SsidBehind(name, tail);
    SsidBehind(name, [0x2B] + tail);
    assert name + [0x2D, 0x2B] + tail == name + [0x2D] + ([0x2B] + tail);
    assert ([0x2B] + tail)[1..] == tail;
    if IsDecimal(tail) {
      DigitsParse(tail, 0);
      AccumulatedIs(tail);
    } else {
      GarbageParse(tail, 0);
    }
  }

  lemma SsidBehind(name: Text, tail: Text)
    requires DASH !in name
    ensures SsidPart(name + [0x2D] + tail) == match ParseU8(tail) case None => 0 case Some(v) => (v % 16) as octet
  {
    hide FirstDash, ParseU8;
    var call := name + [0x2D] + tail;
    DashAfter(name, [0x2D] + tail);
    assert call == name + ([0x2D] + tail);
    assert call[|name| + 1..] == tail;
  }

  lemma {:induction false} AccumulatedGrows(s: Text, value: int)
    requires IsDecimal(s) && value >= 0
    ensures Accumulated(s, value) >= value
  {
    if s == [] {
    } else {
      AccumulatedGrows(s[1..], 10 * value + (s[0] - 0x30) as int);
    }
  }

  lemma {:induction false} DigitsParse(s: Text, value: int)
    requires IsDecimal(s) && 0 <= value <= 255
    ensures ParseDigits(s, value) == if Accumulated(s, value) <= 255 then Some(Accumulated(s, value)) else None
  {
    if s == [] {
    } else {
      var v := 10 * value + (s[0] - 0x30) as int;
      AccumulatedGrows(s[1..], v);
      if v <= 255 {
        DigitsParse(s[1..], v);
      }
    }
  }

  lemma {:induction false} GarbageParse(s: Text, value: int)
    requires !IsDecimal(s)
    ensures ParseDigits(s, value) == None
  {
    if !(0x30 <= s[0] <= 0x39) {
    } else {
      assert !IsDecimal(s[1..]) by {
        var k :| 0 <= k < |s| && !IsDigit(s[k]);
        assert s[1..][k - 1] == s[k];
      }
      GarbageParse(s[1..], 10 * value + (s[0] - 0x30) as int);
    }
  }
}
