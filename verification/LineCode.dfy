/** The transmitter's line code (server/src/aprs/tx.rs:61-116): frame check
    sequence, bit stuffing, flags and NRZI. The audio modulation that follows is
    not part of this model; a tone is the boolean level that selects it. */
module LineCode {
  import opened Basics
  import opened Octets
  import Fcs

  const FLAG: seq<bool> := [false, true, true, true, true, true, true, false]

  function Flags(n: nat): seq<bool> {
    if n == 0 then [] else FLAG + Flags(n - 1)
  }

  /** What one data bit puts on the wire after `ones` consecutive ones. */
  function Emitted(bit: bool, ones: nat): seq<bool> {
    if bit && ones == 4 then [true, false] else [bit]
  }

  function NextOnes(bit: bool, ones: nat): (r: nat)
    requires ones < 5
    ensures r < 5
  {
    if bit && ones < 4 then ones + 1 else 0
  }

  /** Data bits after `ones` consecutive ones, with a zero after every fifth one. */
  function Stuff(data: seq<bool>, ones: nat): seq<bool>
    requires ones < 5
  {
    if data == [] then []
    else Emitted(data[0], ones) + Stuff(data[1..], NextOnes(data[0], ones))
  }

  /** A zero toggles the level, a one holds it. */
  function Nrzi(bits: seq<bool>, level: bool): (r: seq<bool>)
    ensures |r| == |bits|
  {
    if bits == [] then [] else
    var next := if bits[0] then level else !level;
    [next] + Nrzi(bits[1..], next)
  }

  /** The level after the last bit. */
  function NrziEnd(bits: seq<bool>, level: bool): bool {
    if bits == [] then level
    else NrziEnd(bits[1..], if bits[0] then level else !level)
  }

  /** Everything sent for one frame body, before NRZI. */
  function Wire(body: seq<octet>, leadFlags: nat): seq<bool> {
    Flags(AtLeastOne(leadFlags)) + (Stuff(Bits(Fcs.Framed(body)), 0) + Flags(5))
  }

  method Modulate(frameNoFcs: seq<octet>, leadFlags: nat) returns (nrzi: seq<bool>)
    ensures nrzi == Nrzi(Wire(frameNoFcs, leadFlags), true)
  {
    hide Fcs.Framed, Stuff, Flags;
    var framed := AppendFcs(frameNoFcs);
    var dataBits := StuffOctets(framed);
    var wire := PushFlags([], AtLeastOne(leadFlags));
    wire := wire + dataBits;
    wire := PushFlags(wire, 5);
    Regroup(Flags(AtLeastOne(leadFlags)), dataBits, Flags(5));
    nrzi := EncodeNrzi(wire);
  }

  lemma Regroup(a: seq<bool>, b: seq<bool>, c: seq<bool>)
    ensures [] + a + b + c == a + (b + c)
  {}

  method AppendFcs(frameNoFcs: seq<octet>) returns (framed: seq<octet>)
    ensures framed == Fcs.Framed(frameNoFcs)
  {
    hide Fcs.Trailer;
    var low, high := Fcs.ComputeTrailer(frameNoFcs);
    framed := frameNoFcs + [low];
    framed := framed + [high];
  }

  method EncodeNrzi(wire: seq<bool>) returns (nrzi: seq<bool>)
    ensures nrzi == Nrzi(wire, true)
  {
    var level := true;
    nrzi := [];
    for i := 0 to |wire|
      invariant nrzi + Nrzi(wire[i..], level) == Nrzi(wire, true)
    {
      assert wire[i..][1..] == wire[i + 1..];
      if !wire[i] {
        level := !level;
      }
      nrzi := nrzi + [level];
    }
  }

  method PushFlags(w: seq<bool>, n: nat) returns (r: seq<bool>)
    ensures r == w + Flags(n)
  {
    r := w;
    assert w + Flags(0) == w;
    for i := 0 to n
      invariant r == w + Flags(i)
    {
      r := PushFlag(r);
      FlagsSnoc(i);
    }
  }

  method PushFlag(w: seq<bool>) returns (r: seq<bool>)
    ensures r == w + FLAG
  {
    r := w;
    for i := 0 to 8
      invariant r == w + FLAG[..i]
    {
      FlagBits(i);
      r := r + [(0x7E as bv8 >> i) & 1 == 1];
    }
  }

  lemma FlagBits(i: nat)
    requires i < 8
    ensures ((0x7E as bv8 >> i) & 1 == 1) == FLAG[i]
  {
    if i == 0 {
    } else if i == 7 {
    } else {
    }
  }

  lemma {:induction false} FlagsSnoc(n: nat)
    ensures Flags(n) + FLAG == Flags(n + 1)
  {
    if n == 0 {
    } else {
      FlagsSnoc(n - 1);
    }
  }

  method StuffOctets(framed: seq<octet>) returns (dataBits: seq<bool>)
    ensures dataBits == Stuff(Bits(framed), 0)
  {
    hide Stuff;
    dataBits := [];
    var ones := 0;
    assert framed[0..] == framed;
    for n := 0 to |framed|
      invariant ones < 5
      invariant dataBits + Stuff(Bits(framed[n..]), ones) == Stuff(Bits(framed), 0)
    {
      ghost var octetBits, rest := OctetBits(framed[n]), Bits(framed[n + 1..]);
      assert framed[n..][1..] == framed[n + 1..];
      assert octetBits[0..] + rest == Bits(framed[n..]);
      for i := 0 to 8
        invariant ones < 5
        invariant dataBits + Stuff(octetBits[i..] + rest, ones) == Stuff(Bits(framed), 0)
      {
        var bit := (framed[n] >> i) & 1 == 1;
        assert octetBits[i..] + rest == [bit] + (octetBits[i + 1..] + rest);
        StuffCons(dataBits, bit, octetBits[i + 1..] + rest, ones);
        dataBits := dataBits + [bit];
        if bit {
          ones := ones + 1;
          if ones == 5 {
            dataBits := dataBits + [false];
            ones := 0;
          }
        } else {
          ones := 0;
        }
      }
      assert octetBits[8..] + rest == rest;
    }
    StuffNothing(dataBits, ones);
  }

  lemma StuffNothing(sent: seq<bool>, ones: nat)
    requires ones < 5
    ensures sent + Stuff([], ones) == sent
  {}

  lemma StuffCons(sent: seq<bool>, bit: bool, rest: seq<bool>, ones: nat)
    requires ones < 5
    ensures sent + Stuff([bit] + rest, ones) == sent + [bit] + (if bit && ones == 4 then [false] else [])
        + Stuff(rest, NextOnes(bit, ones))
  {
    assert ([bit] + rest)[1..] == rest;
  }

  // ----- What goes over the wire -----

  /** The level changes exactly at the zeros. */
  lemma {:induction false} NrziToggles(bits: seq<bool>, level: bool, i: nat)
    requires i < |bits|
    ensures var r := Nrzi(bits, level); (r[i] != (if i == 0 then level else r[i - 1])) <==> !bits[i]
  {
    if i == 0 {
    } else {
      NrziToggles(bits[1..], if bits[0] then level else !level, i - 1);
    }
  }

  lemma {:induction false} StuffConcat(a: seq<bool>, b: seq<bool>, ones: nat)
    requires ones < 5
    ensures OnesAfter(a, ones) < 5
    ensures Stuff(a + b, ones) == Stuff(a, ones) + Stuff(b, OnesAfter(a, ones))
  {
    if a == [] {
      assert a + b == b;
    } else {
      assert (a + b)[1..] == a[1..] + b;
      StuffConcat(a[1..], b, NextOnes(a[0], ones));
    }
  }

  /** How many ones are pending after the data. */
  function OnesAfter(a: seq<bool>, ones: nat): (r: nat)
    requires ones < 5
    ensures r < 5
  {
    if a == [] then ones else OnesAfter(a[1..], NextOnes(a[0], ones))
  }

  function Ones(k: nat): (r: seq<bool>)
    ensures |r| == k
  {
    seq(k, _ => true)
  }

  /** Behind a zero: five ones are followed by a stuffed zero and the rest starts
      over; four ones and a zero, or fewer, go out as they are. */
  lemma StuffFive(before: seq<bool>, k: nat, after: seq<bool>)
    requires k <= 5
    ensures Stuff(before + ([false] + (Ones(k) + (if k < 5 then [false] else []) + after)), 0)
        == Stuff(before, 0) + ([false] + (Ones(k) + [false] + Stuff(after, 0)))
  {
    hide Stuff, OnesAfter, Ones;
    var run := Ones(k) + if k < 5 then [false] else [];
    StuffConcat(before, [false] + (run + after), 0);
    StuffZero(run + after, OnesAfter(before, 0));
    StuffConcat(run, after, 0);
    StuffTail(k, 0);
  }

  lemma StuffZero(rest: seq<bool>, ones: nat)
    requires ones < 5
    ensures Stuff([false] + rest, ones) == [false] + Stuff(rest, 0)
  {
    assert ([false] + rest)[1..] == rest;
  }

  lemma {:induction false} StuffTail(k: nat, ones: nat)
    requires ones + k <= 5 && ones < 5
    ensures var end := if ones + k < 5 then [false] else [];
      Stuff(Ones(k) + end, ones) == Ones(k) + [false] && OnesAfter(Ones(k) + end, ones) == 0
  {
    var run := Ones(k);
    var end := if ones + k < 5 then [false] else [];
    if k == 0 {
      assert run + end == [false];
      assert [false][1..] == [];
    } else if ones == 4 {
      assert run + end == [true];
      assert [true][1..] == [];
      assert run + [false] == [true, false];
    } else {
      var less := Ones(k - 1);
      assert (run + end)[1..] == less + end;
      StuffTail(k - 1, ones + 1);
      assert run + [false] == [true] + (less + [false]);
    }
  }

  lemma {:induction false} FlagsAt(n: nat, k: nat)
    requires k < n
    ensures |Flags(n)| == 8 * n && Flags(n)[8 * k..][..8] == FLAG
  {
    FlagsLength(n - 1);
    if k == 0 {
      assert (FLAG + Flags(n - 1))[0..][..8] == FLAG;
    } else {
      FlagsAt(n - 1, k - 1);
      assert (FLAG + Flags(n - 1))[8 * k..] == Flags(n - 1)[8 * (k - 1)..];
    }
  }

  lemma {:induction false} FlagsLength(n: nat)
    ensures |Flags(n)| == 8 * n
  {
    if n == 0 {
    } else {
      FlagsLength(n - 1);
    }
  }

  predicate IsFlag(bits: seq<bool>) {
    bits == [false, true, true, true, true, true, true, false]
  }

  /** The lead flags, one at least, the stuffed frame and five flags. */
  lemma WireLayout(body: seq<octet>, leadFlags: nat)
    ensures var (w, s) := (Wire(body, leadFlags), Stuff(Bits(Fcs.Framed(body)), 0));
      var n := if leadFlags == 0 then 1 else leadFlags;
      && |w| == 8 * n + |s| + 40 && w[8 * n..8 * n + |s|] == s
      && (forall k | 0 <= k < n :: IsFlag(w[8 * k..][..8]))
      && (forall k | 0 <= k < 5 :: IsFlag(w[8 * n + |s| + 8 * k..][..8]))
  {
    hide Stuff, Flags, Fcs.Framed, Bits;
    var s := Stuff(Bits(Fcs.Framed(body)), 0);
    var n := AtLeastOne(leadFlags);
    var w := Wire(body, leadFlags);
    FlagsLength(n);
    FlagsLength(5);
    forall k | 0 <= k < n
      ensures IsFlag(w[8 * k..][..8])
    {
      FlagsAt(n, k);
      assert w[8 * k..][..8] == Flags(n)[8 * k..][..8];
    }
    forall k | 0 <= k < 5
      ensures IsFlag(w[8 * n + |s| + 8 * k..][..8])
    {
      FlagsAt(5, k);
      assert w[8 * n + |s| + 8 * k..] == Flags(5)[8 * k..];
    }
  }

  // ----- Transparency: no flag inside stuffed data -----

  /** Six consecutive ones starting at position i. */
  predicate SixOnes(bits: seq<bool>, i: nat) {
    i + 6 <= |bits| && forall k | i <= k < i + 6 :: bits[k]
  }

  /** Stuffed data opens with at most 5 - ones ones and never shows six in a row. */
  lemma {:induction false} StuffRuns(data: seq<bool>, ones: nat, i: nat)
    requires ones < 5
    ensures !SixOnes(Stuff(data, ones), i)
    ensures |Stuff(data, ones)| > 5 - ones ==> exists k :: 0 <= k <= 5 - ones && !Stuff(data, ones)[k]
    decreases |data|
  {
    if data == [] {
    } else {
      var s := Stuff(data, ones);
      assert s == Emitted(data[0], ones) + Stuff(data[1..], NextOnes(data[0], ones));
      if !data[0] {
        assert !s[0];
        if i > 0 { StuffRuns(data[1..], 0, i - 1); SixOnesShift(s, 1, i); }
      } else if ones == 4 {
        assert !s[1];
        if i > 1 { StuffRuns(data[1..], 0, i - 2); SixOnesShift(s, 2, i); }
      } else {
        var t := Stuff(data[1..], ones + 1);
        assert s == [true] + t;
        StuffRuns(data[1..], ones + 1, if i > 0 then i - 1 else 0);
        if |s| > 5 - ones {
          var k :| 0 <= k <= 4 - ones && !t[k];
          assert !s[k + 1];
        }
        if i > 0 { SixOnesShift(s, 1, i); }
      }
    }
  }

  lemma SixOnesShift(s: seq<bool>, n: nat, i: nat)
    requires n <= i && n <= |s|
    ensures SixOnes(s, i) ==> SixOnes(s[n..], i - n)
  {}

  /** In flag, stuffed data, flag, the flag pattern occurs at the two flags only. */
  lemma NoFlagInside(data: seq<bool>, i: nat)
    requires i + 8 <= |FLAG + Stuff(data, 0) + FLAG|
    ensures (FLAG + Stuff(data, 0) + FLAG)[i..i + 8] == FLAG
        <==> i == 0 || i == 8 + |Stuff(data, 0)|
  {
    var s := Stuff(data, 0);
    var w := FLAG + s + FLAG;
    var n := |s|;
    assert !w[7] && !w[8 + n];
    assert w[0..8] == FLAG && w[8 + n..8 + n + 8] == FLAG;
    if w[i..i + 8] == FLAG {
      forall k | i + 1 <= k < i + 7
        ensures w[k]
      {
        assert w[k] == w[i..i + 8][k - i] == FLAG[k - i];
      }
      assert i == 0 || 7 <= i by {
        assert w[7] || !(i + 1 <= 7 < i + 7);
      }
      assert i + 7 <= 8 + n || i == 8 + n by {
        assert w[8 + n] || !(i + 1 <= 8 + n < i + 7);
      }
      if 7 <= i && i + 7 <= 8 + n {
        assert forall k | i + 1 - 8 <= k < i + 7 - 8 :: s[k] == w[k + 8];
        assert SixOnes(s, i + 1 - 8);
        StuffRuns(data, 0, i + 1 - 8);
      }
    }
  }
}
