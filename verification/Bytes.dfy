/** Bytes as small integers, and little-endian words. */
module Bytes {

  type byte = x: int | 0 <= x < 256

  const TWO_32 := 0x1_0000_0000
  const TWO_64 := 0x1_0000_0000_0000_0000

  type u32 = x: int | 0 <= x < 0x1_0000_0000
  type u64 = x: int | 0 <= x < 0x1_0000_0000_0000_0000

  function Power256(k: nat): nat {
    if k == 0 then 1 else 256 * Power256(k - 1)
  }

  /** The k low bytes of n, lowest first. */
  function LittleEndian(n: nat, k: nat): (b: seq<byte>)
    ensures |b| == k
  {
    if k == 0 then [] else [n % 256] + LittleEndian(n / 256, k - 1)
  }

  function Word(b: seq<byte>): (n: nat)
    ensures n < Power256(|b|)
  {
    if b == [] then 0 else b[0] + 256 * Word(b[1..])
  }

  lemma {:induction false} WordRoundTrip(n: nat, k: nat)
    requires n < Power256(k)
    ensures Word(LittleEndian(n, k)) == n
  {
    if k == 0 {
    } else {
      WordRoundTrip(n / 256, k - 1);
      assert LittleEndian(n, k)[1..] == LittleEndian(n / 256, k - 1);
    }
  }

  lemma WordSizes()
    ensures Power256(4) == TWO_32
    ensures Power256(8) == TWO_64
  {
    assert Power256(2) == 0x1_0000;
    assert Power256(4) == 0x1_0000_0000;
    assert Power256(6) == 0x1_0000_0000_0000;
  }

  /** Four bytes count 1, 2^8, 2^16 and 2^24; the next four 2^32 times as much. */
  lemma WordCounts(b: seq<byte>)
    requires |b| == 4 || |b| == 8
    ensures |b| == 4 ==>
      Word(b) == b[0] as int + 0x100 * b[1] as int + 0x1_0000 * b[2] as int + 0x100_0000 * b[3] as int
    ensures |b| == 8 ==> Word(b) == Word(b[..4]) + 0x1_0000_0000 * Word(b[4..])
  {
    FourCount(b);
    if |b| == 8 {
      FourCount(b[..4]);
    }
  }

  lemma FourCount(b: seq<byte>)
    requires |b| >= 4
    ensures Word(b) == b[0] as int + 0x100 * b[1] as int + 0x1_0000 * b[2] as int + 0x100_0000 * b[3] as int
        + 0x1_0000_0000 * Word(b[4..])
  {
    assert b[1..][1..] == b[2..] && b[2..][1..] == b[3..] && b[3..][1..] == b[4..];
    assert Word(b[3..]) == b[3] as int + 256 * Word(b[4..]);
    assert Word(b[2..]) == b[2] as int + 256 * Word(b[3..]);
    assert Word(b[1..]) == b[1] as int + 256 * Word(b[2..]);
  }

  function Words(values: seq<u32>): (b: seq<byte>)
    ensures |b| == 4 * |values|
  {
    if values == [] then [] else LittleEndian(values[0], 4) + Words(values[1..])
  }

  function Reading(b: seq<byte>): (values: seq<u32>)
    requires |b| % 4 == 0
    ensures |values| == |b| / 4
  {
    if b == [] then [] else
    WordSizes();
    [Word(b[..4])] + Reading(b[4..])
  }

  lemma {:induction false} ReadingInverts(values: seq<u32>)
    ensures Reading(Words(values)) == values
  {
    if values == [] {
    } else {
      var b := Words(values);
      WordSizes();
      WordRoundTrip(values[0], 4);
      assert b[..4] == LittleEndian(values[0], 4);
      assert b[4..] == Words(values[1..]);
      ReadingInverts(values[1..]);
    }
  }
}
