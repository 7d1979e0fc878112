/** Octets as bit-vectors and their wire order: least significant bit first,
    which is what AX.25 and AIS put on the air. */
module Octets {

  type octet = bv8

  predicate BitAt(b: octet, i: nat)
    requires i < 8
  {
    (b >> i) & 1 == 1
  }

  function OctetBits(b: octet): (r: seq<bool>)
    ensures |r| == 8
  {
    seq(8, i requires 0 <= i < 8 => BitAt(b, i))
  }

  function Bits(octets: seq<octet>): (r: seq<bool>)
    ensures |r| == 8 * |octets|
  {
    if octets == [] then [] else OctetBits(octets[0]) + Bits(octets[1..])
  }

  lemma {:induction false} BitsAt(octets: seq<octet>, i: nat)
    requires i < 8 * |octets|
    ensures Bits(octets)[i] == BitAt(octets[i / 8], i % 8)
  {
    if i >= 8 {
      BitsAt(octets[1..], i - 8);
      assert octets[1..][(i - 8) / 8] == octets[i / 8];
    }
  }

  lemma {:induction false} BitsConcat(a: seq<octet>, b: seq<octet>)
    ensures Bits(a + b) == Bits(a) + Bits(b)
  {
    if a == [] {
      assert a + b == b;
    } else {
      calc {
        Bits(a + b);
        { assert (a + b)[1..] == a[1..] + b; }
        OctetBits(a[0]) + Bits(a[1..] + b);
        { BitsConcat(a[1..], b); }
        OctetBits(a[0]) + (Bits(a[1..]) + Bits(b));
        Bits(a) + Bits(b);
      }
    }
  }

  /** An octet is determined by its bits. */
  lemma OctetExtensional(a: octet, b: octet)
    requires forall j: nat | j < 8 :: BitAt(a, j) == BitAt(b, j)
    ensures a == b
  {
    assert BitAt(a, 0) == BitAt(b, 0) && BitAt(a, 1) == BitAt(b, 1);
    assert BitAt(a, 2) == BitAt(b, 2) && BitAt(a, 3) == BitAt(b, 3);
    assert BitAt(a, 4) == BitAt(b, 4) && BitAt(a, 5) == BitAt(b, 5);
    assert BitAt(a, 6) == BitAt(b, 6) && BitAt(a, 7) == BitAt(b, 7);
  }

  /** Octet sequences with the same wire bits are the same. */
  lemma BitsInjective(a: seq<octet>, b: seq<octet>)
    requires Bits(a) == Bits(b)
    ensures a == b
  {
    forall k | 0 <= k < |a|
      ensures a[k] == b[k]
    {
      forall j: nat | j < 8
        ensures BitAt(a[k], j) == BitAt(b[k], j)
      {
        BitsAt(a, 8 * k + j);
        BitsAt(b, 8 * k + j);
        assert (8 * k + j) / 8 == k && (8 * k + j) % 8 == j;
      }
      OctetExtensional(a[k], b[k]);
    }
  }

  lemma SetBit(b: octet, i: nat, j: nat)
    requires i < 8 && j < 8
    ensures BitAt(b | (1 << i), j) == (i == j || BitAt(b, j))
  {
    if i == 0 {
    } else if i == 1 {
    } else if i == 2 {
    } else if i == 3 {
    } else if i == 4 {
    } else if i == 5 {
    } else if i == 6 {
    } else {
    }
  }

  /** Reassembles octets from wire-order bits; a final partial octet is dropped. */
  function Pack(bits: seq<bool>): (r: seq<octet>)
    ensures |r| == |bits| / 8
    ensures Bits(r) == bits[..8 * (|bits| / 8)]
  {
    if |bits| < 8 then [] else
    var o := OctetOf(bits[..8]);
    var r := [o] + Pack(bits[8..]);
    assert r[1..] == Pack(bits[8..]);
    r
  }

  function OctetOf(bits: seq<bool>): (o: octet)
    requires |bits| == 8
    ensures OctetBits(o) == bits
  {
    var o: octet :=
      (if bits[0] then 1 else 0) | (if bits[1] then 2 else 0) |
      (if bits[2] then 4 else 0) | (if bits[3] then 8 else 0) |
      (if bits[4] then 16 else 0) | (if bits[5] then 32 else 0) |
      (if bits[6] then 64 else 0) | (if bits[7] then 128 else 0);
    assert BitAt(o, 0) == bits[0] && BitAt(o, 1) == bits[1];
    assert BitAt(o, 2) == bits[2] && BitAt(o, 3) == bits[3];
    assert BitAt(o, 4) == bits[4] && BitAt(o, 5) == bits[5];
    assert BitAt(o, 6) == bits[6] && BitAt(o, 7) == bits[7];
    o
  }

  lemma PackBits(octets: seq<octet>)
    ensures Pack(Bits(octets)) == octets
  {
    BitsInjective(Pack(Bits(octets)), octets);
  }

  /** The loop both deframers use: start from zero octets and set a bit per true
      data bit (server/src/aprs/demod.rs:357-362, server/src/ais/demod.rs:323-328). */
  method PackInPlace(bits: seq<bool>) returns (octets: array<octet>)
    requires |bits| % 8 == 0
    ensures fresh(octets) && octets[..] == Pack(bits)
  {
    octets := new octet[|bits| / 8](_ => 0);
    for i := 0 to |bits|
      invariant fresh(octets)
      invariant forall k, j: nat | 0 <= k < octets.Length && j < 8 ::
          BitAt(octets[k], j) == (8 * k + j < i && bits[8 * k + j])
    {
      if bits[i] {
        ghost var was := octets[i / 8];
        octets[i / 8] := octets[i / 8] | (1 << (i % 8));
        forall j: nat | j < 8
          ensures BitAt(octets[i / 8], j) == (i % 8 == j || BitAt(was, j))
        {
          SetBit(was, i % 8, j);
        }
      }
    }
    var r := octets[..];
    BitsFromOctets(r, bits);
    BitsInjective(r, Pack(bits));
  }

  lemma BitsFromOctets(r: seq<octet>, bits: seq<bool>)
    requires |bits| == 8 * |r|
    requires forall k, j: nat | 0 <= k < |r| && j < 8 :: BitAt(r[k], j) == bits[8 * k + j]
    ensures Bits(r) == bits
  {
    forall m | 0 <= m < |bits|
      ensures Bits(r)[m] == bits[m]
    {
      BitsAt(r, m);
    }
  }
}
