/** Beast binary output (server/src/adsb/beast.rs:13-43). The amplitude, a power
    of ten of the signal strength, is an input. */
module Beast {
  import opened Wrappers
  import opened Bytes

  const ESCAPE: byte := 0x1A

  datatype Message = Message(frame: seq<byte>, level: byte, clock: nat)

  function TypeOf(length: nat): Option<byte> {
    match length
    case 2 => Some(0x31)
    case 7 => Some(0x32)
    case 14 => Some(0x33)
    case _ => None
  }

  function EscapedByte(b: byte): seq<byte> {
    if b == ESCAPE then [ESCAPE, ESCAPE] else [b]
  }

  function Escaped(b: seq<byte>): seq<byte> {
    if b == [] then [] else EscapedByte(b[0]) + Escaped(b[1..])
  }

  function BigEndian(n: nat, k: nat): (b: seq<byte>)
    ensures |b| == k
  {
    if k == 0 then [] else BigEndian(n / 256, k - 1) + [n % 256]
  }

  function Value(b: seq<byte>): nat {
    if b == [] then 0 else 256 * Value(b[..|b| - 1]) + b[|b| - 1]
  }

  const TWO_48 := 0x1_0000_0000_0000

  /** The 48 bits of the clock that are sent. */
  function Stamp(clock: nat): (t: nat)
    ensures t < TWO_48
  {
    clock % TWO_48
  }

  function Encoded(m: Message): seq<byte> {
    match TypeOf(|m.frame|)
    case None => []
    case Some(t) => [ESCAPE, t] + Escaped(BigEndian(Stamp(m.clock), 6) + [m.level] + m.frame)
  }

  lemma {:induction false} EscapedConcat(a: seq<byte>, b: seq<byte>)
    ensures Escaped(a + b) == Escaped(a) + Escaped(b)
  {
    if a == [] {
      assert a + b == b;
    } else {
      assert (a + b)[1..] == a[1..] + b;
      EscapedConcat(a[1..], b);
    }
  }

  method PushEscaped(out: seq<byte>, b: seq<byte>) returns (r: seq<byte>)
    ensures r == out + Escaped(b)
  {
    r := out;
    for i := 0 to |b|
      invariant r + Escaped(b[i..]) == out + Escaped(b)
    {
      r := r + [b[i]];
      if b[i] == ESCAPE {
        r := r + [ESCAPE];
      }
      assert b[i..][1..] == b[i + 1..];
    }
  }

  /** The signal level of an amplitude: 255 times it, held between 1 and 255 and cut
      to a whole number. */
  function Level(amplitude: real): (level: byte)
    ensures level >= 1
    ensures level < 255 ==> amplitude * 255.0 < level as real + 1.0
    ensures level > 1 ==> level as real <= amplitude * 255.0
  {
    var x := amplitude * 255.0;
    (if x < 1.0 then 1.0 else if x > 255.0 then 255.0 else x).Floor
  }

  method Encode(frame: seq<byte>, amplitude: real, clock: nat) returns (out: seq<byte>)
    ensures out == Encoded(Message(frame, Level(amplitude), clock))
  {
    hide Escaped, BigEndian, TypeOf, Level;
    var level := Level(amplitude);
    var t := TypeOf(|frame|);
    if t == None {
      return [];
    }
    out := [ESCAPE, t.value];
    var stamp := BigEndian(clock % TWO_48, 6);
    out := PushEscaped(out, stamp);
    out := PushEscaped(out, [level]);
    out := PushEscaped(out, frame);
    EscapedConcat(stamp + [level], frame);
    EscapedConcat(stamp, [level]);
    assert out == [ESCAPE, t.value] + Escaped(stamp + [level] + frame);
  }

  // ----- A reader -----

  /** The first n bytes behind the escaping, and what follows them. */
  datatype Taken = Taken(bytes: seq<byte>, rest: seq<byte>)

  function Take(s: seq<byte>, n: nat): (r: Option<Taken>)
    ensures r.Some? ==> |r.value.bytes| == n && |r.value.rest| <= |s|
  {
    if n == 0 then Some(Taken([], s))
    else if s == [] then None
    else if s[0] != ESCAPE then Prepend(s[0], Take(s[1..], n - 1))
    else if |s| >= 2 && s[1] == ESCAPE then Prepend(ESCAPE, Take(s[2..], n - 1))
    else None
  }

  function Prepend(b: byte, t: Option<Taken>): Option<Taken> {
    match t
    case None => None
    case Some(Taken(bytes, rest)) => Some(Taken([b] + bytes, rest))
  }

  function LengthOf(t: byte): nat {
    if t == 0x31 then 2 else if t == 0x32 then 7 else if t == 0x33 then 14 else 0
  }

  /** All messages of a stream, or nothing if it is not one. */
  function Read(s: seq<byte>): Option<seq<Message>>
    decreases |s|
  {
    if s == [] then Some([])
    else if |s| < 2 || s[0] != ESCAPE || LengthOf(s[1]) == 0 then None
    else
      match Take(s[2..], 7 + LengthOf(s[1]))
      case None => None
      case Some(Taken(bytes, rest)) =>
        match Read(rest)
        case None => None
        case Some(more) => Some([Message(bytes[7..], bytes[6], Value(bytes[..6]))] + more)
  }

  function Stream(messages: seq<Message>): seq<byte> {
    if messages == [] then [] else Encoded(messages[0]) + Stream(messages[1..])
  }

  /** What can be read back: frames of a known length, 48 bits of the clock. */
  function Sent(messages: seq<Message>): seq<Message> {
    if messages == [] then []
    else (if TypeOf(|messages[0].frame|).Some?
          then [messages[0].(clock := Stamp(messages[0].clock))] else [])
         + Sent(messages[1..])
  }

  lemma {:induction false} ValueInverts(n: nat, k: nat)
    requires n < Power256(k)
    ensures Value(BigEndian(n, k)) == n
  {
    if k == 0 {
    } else {
      ValueInverts(n / 256, k - 1);
      assert BigEndian(n, k)[..k - 1] == BigEndian(n / 256, k - 1);
    }
  }

  lemma TakeByte(b: byte, tail: seq<byte>, n: nat)
    requires n > 0
    ensures Take(EscapedByte(b) + tail, n) == Prepend(b, Take(tail, n - 1))
  {
    var s := EscapedByte(b) + tail;
    if b == ESCAPE {
      assert s[2..] == tail;
    } else {
      assert s[1..] == tail;
    }
  }

  lemma {:induction false} TakeInverts(b: seq<byte>, rest: seq<byte>)
    ensures Take(Escaped(b) + rest, |b|) == Some(Taken(b, rest))
  {
    if b == [] {
      assert Escaped(b) + rest == rest;
    } else {
      TakeInverts(b[1..], rest);
      TakeByte(b[0], Escaped(b[1..]) + rest, |b|);
      hide Take, EscapedByte;
      assert Escaped(b) + rest == EscapedByte(b[0]) + (Escaped(b[1..]) + rest);
      assert [b[0]] + b[1..] == b;
    }
  }

  /** Reading the concatenated encodings gives every sendable message back, in order. */
  lemma {:induction false} StreamReads(messages: seq<Message>)
    ensures Read(Stream(messages)) == Some(Sent(messages))
  {
    if messages == [] {
    } else {
      var m, tail := messages[0], Stream(messages[1..]);
      StreamReads(messages[1..]);
      if TypeOf(|m.frame|) == None {
        assert Stream(messages) == tail;
        assert Sent(messages) == Sent(messages[1..]);
      } else {
        MessageReads(m, tail);
      }
    }
  }

  lemma StampReads(clock: nat)
    ensures Value(BigEndian(Stamp(clock), 6)) == Stamp(clock)
  {
    assert Power256(2) == 0x1_0000;
    assert Power256(4) == 0x1_0000_0000;
    assert Power256(6) == TWO_48;
    ValueInverts(Stamp(clock), 6);
  }

  lemma MessageReads(m: Message, tail: seq<byte>)
    requires TypeOf(|m.frame|).Some? && Read(tail).Some?
    ensures Read(Encoded(m) + tail) == Some([m.(clock := Stamp(m.clock))] + Read(tail).value)
  {
    var stamp := BigEndian(Stamp(m.clock), 6);
    StampReads(m.clock);
    hide Escaped, BigEndian, Value, Stamp, Take, Read;
    var bytes := stamp + [m.level] + m.frame;
    var s := Encoded(m) + tail;
    assert s[2..] == Escaped(bytes) + tail;
    TakeInverts(bytes, tail);
    assert bytes[..6] == stamp && bytes[7..] == m.frame;
    assert LengthOf(s[1]) == |m.frame|;
    ReadOne(s, bytes, tail);
  }

  lemma ReadOne(s: seq<byte>, bytes: seq<byte>, rest: seq<byte>)
    requires |s| >= 2 && s[0] == ESCAPE && LengthOf(s[1]) > 0 && Read(rest).Some?
    requires Take(s[2..], 7 + LengthOf(s[1])) == Some(Taken(bytes, rest))
    ensures Read(s) == Some([Message(bytes[7..], bytes[6], Value(bytes[..6]))] + Read(rest).value)
  {
    hide Value, Take;
  }

  /** A doubling is undone by dropping the second of two. */
  predicate IsDoubled(e: seq<byte>, b: seq<byte>)
    decreases |b|
  {
    if b == [] then e == []
    else if b[0] == 0x1A then |e| >= 2 && e[0] == 0x1A && e[1] == 0x1A && IsDoubled(e[2..], b[1..])
    else |e| >= 1 && e[0] == b[0] && IsDoubled(e[1..], b[1..])
  }

  lemma {:induction false} EscapedDoubles(b: seq<byte>)
    ensures IsDoubled(Escaped(b), b)
  {
    if b == [] {
    } else {
      EscapedDoubles(b[1..]);
      var e := Escaped(b);
      if b[0] == ESCAPE {
        assert e[2..] == Escaped(b[1..]);
      } else {
        assert e[1..] == Escaped(b[1..]);
      }
    }
  }

  /** The six bytes of the clock, highest first. */
  lemma StampBytes(clock: nat)
    ensures var b := BigEndian(Stamp(clock), 6);
      0x100_0000_0000 * b[0] as int + 0x1_0000_0000 * b[1] as int + 0x100_0000 * b[2] as int + 0x1_0000 * b[3] as int
        + 0x100 * b[4] as int + b[5] as int == clock % 0x1_0000_0000_0000
  {
    var n := Stamp(clock);
    BigEndianLast(n, 6);
    BigEndianLast(n / 256, 5);
    BigEndianLast(n / 256 / 256, 4);
    BigEndianLast(n / 256 / 256 / 256, 3);
    BigEndianLast(n / 256 / 256 / 256 / 256, 2);
    BigEndianLast(n / 256 / 256 / 256 / 256 / 256, 1);
  }

  lemma BigEndianLast(n: nat, k: nat)
    requires k > 0
    ensures BigEndian(n, k)[..k - 1] == BigEndian(n / 256, k - 1) && BigEndian(n, k)[k - 1] == n % 256
  {}

  /** The layout on the wire: 0x1A, '1', '2' or '3', then the clock, the level and the
      frame with every 0x1A doubled; nothing for a frame of another length. */
  lemma MessageLayout(m: Message)
    ensures |m.frame| !in {2, 7, 14} ==> Encoded(m) == []
    ensures |m.frame| in {2, 7, 14} ==>
      && |Encoded(m)| >= 2 && Encoded(m)[0] == 0x1A
      && Encoded(m)[1] == (if |m.frame| == 2 then 0x31 else if |m.frame| == 7 then 0x32 else 0x33)
      && IsDoubled(Encoded(m)[2..], BigEndian(Stamp(m.clock), 6) + [m.level] + m.frame)
  {
    hide Escaped, BigEndian, Stamp, IsDoubled;
    var bytes := BigEndian(Stamp(m.clock), 6) + [m.level] + m.frame;
    EscapedDoubles(bytes);
    if TypeOf(|m.frame|).Some? {
      assert Encoded(m)[2..] == Escaped(bytes);
    }
  }

  predicate Sendable(m: Message) {
    TypeOf(|m.frame|).Some? && m.clock < TWO_48
  }

  /** Different message lists have different streams. */
  lemma StreamsDiffer(a: seq<Message>, b: seq<Message>)
    requires forall k | 0 <= k < |a| :: Sendable(a[k])
    requires forall k | 0 <= k < |b| :: Sendable(b[k])
    ensures Stream(a) == Stream(b) <==> a == b
  {
    hide Stream, Sent, Read;
    StreamReads(a);
    StreamReads(b);
    SentAll(a);
    SentAll(b);
  }

  lemma StampKeeps(m: Message)
    requires Sendable(m)
    ensures m.(clock := Stamp(m.clock)) == m && TypeOf(|m.frame|).Some?
  {}

  lemma {:induction false} SentAll(a: seq<Message>)
    requires forall k | 0 <= k < |a| :: Sendable(a[k])
    ensures Sent(a) == a
  {
    hide Sendable, Stamp, TypeOf;
    if a == [] {
    } else {
      StampKeeps(a[0]);
      SentAll(a[1..]);
      assert [a[0]] + a[1..] == a;
    }
  }
}
