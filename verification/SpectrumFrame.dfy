/** The binary frame of a spectrum (server/src/analysis/mod.rs:92-132) and the web
    client's decoder (web/src/analysis.ts:85-112). A float is the word of its bits. */
module SpectrumFrame {
  import opened Basics
  import opened Bytes

  type Row = seq<byte>

  /** DB_LO and DB_HI, -150.0 and 10.0 as single-precision words. */
  const DB_LO: u32 := 0xC316_0000
  const DB_HI: u32 := 0x4120_0000

  /** "LWF1" */
  const MAGIC: seq<byte> := [0x4C, 0x57, 0x46, 0x31]

  // ----- The frame -----

  datatype Frame = Frame(seqNo: u64, center: u64, span: u64, nBins: nat, dbLo: u32, dbHi: u32,
                         avg: seq<u32>, rows: seq<Row>)

  ghost predicate WellFormed(f: Frame) {
    |f.avg| == f.nBins
    && (forall k | 0 <= k < |f.rows| :: |f.rows[k]| == f.nBins)
    && |f.rows| < TWO_32
  }

  lemma {:induction false} WordsSnoc(values: seq<u32>, v: u32)
    ensures Words(values + [v]) == Words(values) + LittleEndian(v, 4)
  {
    if values == [] {
      assert values + [v] == [v];
      assert Words([v]) == LittleEndian(v, 4) + Words([]);
    } else {
      assert (values + [v])[1..] == values[1..] + [v];
      WordsSnoc(values[1..], v);
    }
  }

  function Header(f: Frame): (b: seq<byte>)
    ensures |b| == 44
  {
    MAGIC + LittleEndian(f.seqNo, 8) + LittleEndian(f.center, 8) + LittleEndian(f.span, 8)
    + LittleEndian(f.nBins, 4) + LittleEndian(f.dbLo, 4) + LittleEndian(f.dbHi, 4)
    + LittleEndian(|f.rows|, 4)
  }

  function FrameBytes(f: Frame): seq<byte> {
    Header(f) + Words(f.avg) + Flatten(f.rows)
  }

  method AppendWords(b: seq<byte>, values: seq<u32>) returns (r: seq<byte>)
    ensures r == b + Words(values)
  {
    r := b;
    for i := 0 to |values|
      invariant r == b + Words(values[..i])
    {
      WordsSnoc(values[..i], values[i]);
      assert values[..i + 1] == values[..i] + [values[i]];
      r := r + LittleEndian(values[i], 4);
    }
    assert values[..|values|] == values;
  }

  method AppendRows(b: seq<byte>, rows: seq<Row>) returns (r: seq<byte>)
    ensures r == b + Flatten(rows)
  {
    r := b;
    for i := 0 to |rows|
      invariant r == b + Flatten(rows[..i])
    {
      FlattenSnoc(rows[..i], rows[i]);
      assert rows[..i + 1] == rows[..i] + [rows[i]];
      r := r + rows[i];
    }
    assert rows[..|rows|] == rows;
  }

  // ----- The client's reading of a frame -----

  /** What decodeFrame does: return null, throw a RangeError, or return a frame. */
  datatype Outcome = Rejected | Thrown | Decoded(frame: Frame)

  function U32At(b: seq<byte>, o: nat): (n: u32)
    requires o + 4 <= |b|
  {
    WordSizes();
    Word(b[o..o + 4])
  }

  function U64At(b: seq<byte>, o: nat): (n: u64)
    requires o + 8 <= |b|
  {
    WordSizes();
    Word(b[o..o + 8])
  }

  /** The rows of n bytes that lie wholly in b from o on, at most count of them. */
  function RowsAt(b: seq<byte>, o: nat, n: nat, count: nat): seq<Row>
    decreases count
  {
    if count == 0 || o + n > |b| then [] else [b[o..o + n]] + RowsAt(b, o + n, n, count - 1)
  }

  function Decoding(b: seq<byte>): Outcome {
    if |b| < 38 || b[..4] != MAGIC then Rejected
    else if |b| < 44 then Thrown
    else
      var n := U32At(b, 28);
      var avgBytes := b[44..Min(44 + 4 * n, |b|)];
      if n > 0 && |avgBytes| % 4 != 0 then Thrown
      else Decoded(Frame(
        U64At(b, 4), U64At(b, 12), U64At(b, 20), n, U32At(b, 32), U32At(b, 36),
        if n == 0 then [] else Reading(avgBytes),
        if n == 0 then [] else RowsAt(b, 44 + 4 * n, n, U32At(b, 40))))
  }

  method ReadRows(b: seq<byte>, start: nat, n: nat, count: nat) returns (rows: seq<Row>)
    ensures rows == RowsAt(b, start, n, count)
  {
    var o: nat := start;
    rows := [];
    var i := 0;
    while i < count && o + n <= |b|
      invariant 0 <= i <= count
      decreases count - i
      invariant rows + RowsAt(b, o, n, count - i) == RowsAt(b, start, n, count)
    {
      rows := rows + [b[o..o + n]];
      o := o + n;
      i := i + 1;
    }
  }

  method DecodeFrame(b: seq<byte>) returns (r: Outcome)
    ensures r == Decoding(b)
  {
    hide RowsAt, Reading, U32At, U64At;
    if |b| < 38 || b[..4] != MAGIC {
      return Rejected;
    }
    if |b| < 44 {
      return Thrown; // a DataView getter runs past the end
    }
    var o: nat := 4;
    var seqNo := U64At(b, o);
    o := o + 8;
    var center := U64At(b, o);
    o := o + 8;
    var span := U64At(b, o);
    o := o + 8;
    var nBins: nat := U32At(b, o);
    o := o + 4;
    var dbLo := U32At(b, o);
    o := o + 4;
    var dbHi := U32At(b, o);
    o := o + 4;
    var nNew: nat := U32At(b, o);
    o := o + 4;
    if nBins == 0 {
      return Decoded(Frame(seqNo, center, span, nBins, dbLo, dbHi, [], []));
    }
    var avgBytes := b[o..Min(o + nBins * 4, |b|)];
    if |avgBytes| % 4 != 0 {
      return Thrown; // Float32Array of a ragged buffer
    }
    var avg := Reading(avgBytes);
    o := o + nBins * 4;
    var rows := ReadRows(b, o, nBins, nNew);
    r := Decoded(Frame(seqNo, center, span, nBins, dbLo, dbHi, avg, rows));
  }

  /** Every header field lies in its place. */
  lemma HeaderSlices(f: Frame, b: seq<byte>, tail: seq<byte>)
    requires b == Header(f) + tail
    ensures b[..4] == MAGIC
    ensures b[4..12] == LittleEndian(f.seqNo, 8)
    ensures b[12..20] == LittleEndian(f.center, 8)
    ensures b[20..28] == LittleEndian(f.span, 8)
    ensures b[28..32] == LittleEndian(f.nBins, 4)
    ensures b[32..36] == LittleEndian(f.dbLo, 4)
    ensures b[36..40] == LittleEndian(f.dbHi, 4)
    ensures b[40..44] == LittleEndian(|f.rows|, 4)
  {
    hide LittleEndian;
    var h1 := MAGIC + LittleEndian(f.seqNo, 8);
    var h2 := h1 + LittleEndian(f.center, 8);
    var h3 := h2 + LittleEndian(f.span, 8);
    var h4 := h3 + LittleEndian(f.nBins, 4);
    var h5 := h4 + LittleEndian(f.dbLo, 4);
    var h6 := h5 + LittleEndian(f.dbHi, 4);
    EndsWith(h6, LittleEndian(|f.rows|, 4), tail);
    EndsWith(h5, LittleEndian(f.dbHi, 4), b[40..]);
    EndsWith(h4, LittleEndian(f.dbLo, 4), b[36..]);
    EndsWith(h3, LittleEndian(f.nBins, 4), b[32..]);
    EndsWith(h2, LittleEndian(f.span, 8), b[28..]);
    EndsWith(h1, LittleEndian(f.center, 8), b[20..]);
    EndsWith(MAGIC, LittleEndian(f.seqNo, 8), b[12..]);
  }

  /** Where everything stands in a frame. */
  lemma FrameLayout(f: Frame)
    requires WellFormed(f) && f.nBins < TWO_32
    ensures var b := FrameBytes(f);
            && |b| == 44 + 4 * f.nBins + |f.rows| * f.nBins
            && b[..4] == [0x4C, 0x57, 0x46, 0x31]
            && Word(b[4..12]) == f.seqNo && Word(b[12..20]) == f.center && Word(b[20..28]) == f.span
            && Word(b[28..32]) == f.nBins && Word(b[32..36]) == f.dbLo && Word(b[36..40]) == f.dbHi
            && Word(b[40..44]) == |f.rows|
            && (forall i | 0 <= i < f.nBins :: Word(b[44 + 4 * i..][..4]) == f.avg[i])
            && b[44 + 4 * f.nBins..] == Flatten(f.rows)
  {
    hide Word, Header, LittleEndian, Words, Flatten, U32At, U64At;
    var b, tail := FrameBytes(f), Words(f.avg) + Flatten(f.rows);
    assert b == Header(f) + tail;
    FlattenLength(f.rows, f.nBins);
    HeaderWords(f, b, tail);
    forall i | 0 <= i < f.nBins
      ensures Word(b[44 + 4 * i..][..4]) == f.avg[i]
    {
      WordOf(f.avg, i);
      SliceBehind(Header(f), Words(f.avg), Flatten(f.rows), 4 * i);
    }
  }

  lemma SliceBehind(h: seq<byte>, w: seq<byte>, r: seq<byte>, k: nat)
    requires k + 4 <= |w|
    ensures (h + w + r)[|h| + k..][..4] == w[k..][..4]
  {}

  lemma HeaderWords(f: Frame, b: seq<byte>, tail: seq<byte>)
    requires b == Header(f) + tail && |f.rows| < TWO_32 && f.nBins < TWO_32
    ensures b[..4] == [0x4C, 0x57, 0x46, 0x31]
    ensures Word(b[4..12]) == f.seqNo && Word(b[12..20]) == f.center && Word(b[20..28]) == f.span
    ensures Word(b[28..32]) == f.nBins && Word(b[32..36]) == f.dbLo && Word(b[36..40]) == f.dbHi
    ensures Word(b[40..44]) == |f.rows|
  {
    HeaderFields(f, b, tail);
    hide Header, Word;
  }

  lemma {:induction false} WordOf(values: seq<u32>, i: nat)
    requires i < |values|
    ensures 4 * i + 4 <= |Words(values)| && Word(Words(values)[4 * i..][..4]) == values[i]
  {
    var first, rest := LittleEndian(values[0], 4), Words(values[1..]);
    if i == 0 {
      assert Words(values)[0..][..4] == first;
      WordSizes();
      WordRoundTrip(values[0], 4);
    } else {
      WordOf(values[1..], i - 1);
      assert (first + rest)[4 * i..] == rest[4 * (i - 1)..];
    }
  }

  /** What stands before a suffix, and what the suffix before that is. */
  lemma EndsWith(pre: seq<byte>, last: seq<byte>, tail: seq<byte>)
    ensures var b := pre + last + tail;
            b[|pre|..|pre| + |last|] == last && b == pre + b[|pre|..]
  {}


  lemma HeaderFields(f: Frame, b: seq<byte>, tail: seq<byte>)
    requires b == Header(f) + tail && |f.rows| < TWO_32
    ensures b[..4] == MAGIC
    ensures U64At(b, 4) == f.seqNo && U64At(b, 12) == f.center && U64At(b, 20) == f.span
    ensures U32At(b, 32) == f.dbLo && U32At(b, 36) == f.dbHi && U32At(b, 40) == |f.rows|
    ensures f.nBins < TWO_32 ==> U32At(b, 28) == f.nBins
  {
    HeaderSlices(f, b, tail);
    hide Header, LittleEndian, Word;
    WordSizes();
    WordRoundTrip(f.seqNo, 8);
    WordRoundTrip(f.center, 8);
    WordRoundTrip(f.span, 8);
    WordRoundTrip(f.dbLo, 4);
    WordRoundTrip(f.dbHi, 4);
    WordRoundTrip(|f.rows|, 4);
    if f.nBins < TWO_32 {
      WordRoundTrip(f.nBins, 4);
    }
  }

  lemma {:induction false} RowsBehind(pre: seq<byte>, tail: seq<byte>, o: nat, n: nat, count: nat)
    ensures RowsAt(pre + tail, |pre| + o, n, count) == RowsAt(tail, o, n, count)
    decreases count
  {
    if count == 0 || o + n > |tail| {
    } else {
      assert (pre + tail)[|pre| + o..|pre| + o + n] == tail[o..o + n];
      RowsBehind(pre, tail, o + n, n, count - 1);
    }
  }

  /** What the bytes behind a header are taken for. */
  function OfBody(f: Frame, tail: seq<byte>): Outcome {
    var avgBytes := tail[..Min(4 * f.nBins, |tail|)];
    if f.nBins == 0 then Decoded(f.(avg := [], rows := []))
    else if |avgBytes| % 4 != 0 then Thrown
    else Decoded(f.(avg := Reading(avgBytes), rows := RowsAt(tail, 4 * f.nBins, f.nBins, |f.rows|)))
  }

  lemma BodyDecodes(f: Frame, b: seq<byte>, tail: seq<byte>)
    requires b == Header(f) + tail && |f.rows| < TWO_32 && f.nBins < TWO_32
    ensures Decoding(b) == OfBody(f, tail)
  {
    HeaderFields(f, b, tail);
    RowsBehind(Header(f), tail, 4 * f.nBins, f.nBins, |f.rows|);
    assert b[44..Min(44 + 4 * f.nBins, |b|)] == tail[..Min(4 * f.nBins, |tail|)];
    hide Header, RowsAt, Reading, U32At, U64At;
  }

  /** decodeFrame inverts encode exactly when the bin count fits its 32-bit field
      (and a spectrum of no bins carries no rows). */
  lemma DecodeInvertsEncode(f: Frame)
    requires WellFormed(f)
    ensures (Decoding(FrameBytes(f)) == Decoded(f)) <==> (f.nBins < TWO_32 && (f.nBins == 0 ==> f.rows == []))
  {
    if f.nBins < TWO_32 {
      var b := FrameBytes(f);
      assert b[..|b|] == b;
      TruncatedReply(f, |b|);
      if f.nBins > 0 {
        FlattenLength(f.rows, f.nBins);
        FitAll(|f.rows|, f.nBins);
        assert f.rows[..|f.rows|] == f.rows;
      }
    }
  }

  lemma {:induction false} FlattenLength(rows: seq<Row>, n: nat)
    requires forall k | 0 <= k < |rows| :: |rows[k]| == n
    ensures |Flatten(rows)| == |rows| * n
  {
    if rows == [] {
    } else {
      FlattenLength(rows[1..], n);
    }
  }

  lemma {:induction false} FitAll(k: nat, n: nat)
    requires n > 0
    ensures Fit(k * n, n) == k
  {
    if k == 0 {
    } else {
      FitAll(k - 1, n);
      assert k * n == (k - 1) * n + n;
    }
  }

  lemma {:induction false} WordsPrefix(values: seq<u32>, k: nat)
    requires k <= |values|
    ensures Words(values)[..4 * k] == Words(values[..k])
  {
    if k == 0 {
    } else {
      WordsPrefix(values[1..], k - 1);
      var first, rest := LittleEndian(values[0], 4), Words(values[1..]);
      assert (first + rest)[..4 * k] == first + rest[..4 * (k - 1)];
      assert values[..k][1..] == values[1..][..k - 1];
    }
  }

  /** How many rows of n bytes fit in m bytes. */
  function Fit(m: nat, n: nat): (k: nat)
    requires n > 0
  {
    if m < n then 0 else 1 + Fit(m - n, n)
  }

  lemma {:induction false} WholeRows(pre: seq<byte>, rows: seq<Row>, n: nat, m: nat)
    requires n > 0 && m <= |Flatten(rows)| && forall k | 0 <= k < |rows| :: |rows[k]| == n
    ensures Fit(m, n) <= |rows|
    ensures RowsAt(pre + Flatten(rows)[..m], |pre|, n, |rows|) == rows[..Fit(m, n)]
    decreases |rows|
  {
    if rows == [] {
    } else if m < n {
    } else {
      var b := pre + Flatten(rows)[..m];
      var rest := Flatten(rows[1..]);
      assert Flatten(rows)[..m] == rows[0] + rest[..m - n];
      assert b[|pre|..|pre| + n] == rows[0];
      assert b == (pre + rows[0]) + rest[..m - n];
      WholeRows(pre + rows[0], rows[1..], n, m - n);
      assert rows[..Fit(m, n)] == [rows[0]] + rows[1..][..Fit(m - n, n)];
    }
  }

  /** What the client makes of a reply cut short: nothing under 38 bytes, an
      exception up to the 44 of the header, then an exception inside a word of the
      average, else the whole words or the whole rows that arrived. */
  function OfTruncated(f: Frame, len: nat): Outcome
    requires WellFormed(f)
  {
    if len < 38 then Rejected
    else if len < 44 then Thrown
    else if f.nBins == 0 then Decoded(f.(rows := []))
    else if len < 44 + 4 * f.nBins then
      if (len - 44) % 4 != 0 then Thrown else Decoded(f.(avg := f.avg[..(len - 44) / 4], rows := []))
    else
      var k := Fit(len - 44 - 4 * f.nBins, f.nBins);
      Decoded(f.(rows := if k <= |f.rows| then f.rows[..k] else f.rows))
  }

  lemma HeadKept(head: seq<byte>, whole: seq<byte>, cut: seq<byte>)
    requires head <= whole && cut <= whole && |head| <= |cut|
    ensures cut[..|head|] == head
  {}

  lemma TailCut(h: seq<byte>, w: seq<byte>, r: seq<byte>, len: nat)
    requires |h| <= len <= |h + w + r|
    ensures (h + w + r)[..len] == h + (w + r)[..len - |h|]
  {}

  /** Of a reply cut short the client keeps exactly that, and throws exactly there. */
  lemma TruncatedReply(f: Frame, len: nat)
    requires WellFormed(f) && f.nBins < TWO_32 && len <= |FrameBytes(f)|
    ensures Decoding(FrameBytes(f)[..len]) == OfTruncated(f, len)
    ensures Decoding(FrameBytes(f)[..len]) == Thrown
        <==> 38 <= len < 44 || (f.nBins > 0 && 44 <= len < 44 + 4 * f.nBins && (len - 44) % 4 != 0)
  {
    if len < 44 {
      ShortReply(f, len);
    } else {
      LongReply(f, len);
    }
  }

  lemma ShortReply(f: Frame, len: nat)
    requires len < 44
    ensures len <= |FrameBytes(f)|
    ensures Decoding(FrameBytes(f)[..len]) == if len < 38 then Rejected else Thrown
  {
    hide LittleEndian;
    if len >= 38 {
      HeadKept(MAGIC, FrameBytes(f), FrameBytes(f)[..len]);
    }
  }

  lemma LongReply(f: Frame, len: nat)
    requires WellFormed(f) && f.nBins < TWO_32 && 44 <= len <= |FrameBytes(f)|
    ensures Decoding(FrameBytes(f)[..len]) == OfTruncated(f, len)
  {
    hide Header, Words, Flatten, OfBody, Decoding, WellFormed, OfTruncated;
    var tail := (Words(f.avg) + Flatten(f.rows))[..len - 44];
    TailCut(Header(f), Words(f.avg), Flatten(f.rows), len);
    FewRows(f);
    BodyDecodes(f, FrameBytes(f)[..len], tail);
    BodyTruncated(f, tail);
  }

  lemma FewRows(f: Frame)
    requires WellFormed(f)
    ensures |f.rows| < TWO_32 && |f.avg| == f.nBins
  {}

  /** What is taken for the body when the bytes behind the header are cut. */
  lemma BodyTruncated(f: Frame, tail: seq<byte>)
    requires WellFormed(f) && |tail| <= 4 * |f.avg| + |Flatten(f.rows)|
    requires tail == (Words(f.avg) + Flatten(f.rows))[..|tail|]
    ensures OfBody(f, tail) == OfTruncated(f, 44 + |tail|)
  {
    hide Words, Flatten, OfBody, Fit;
    FewRows(f);
    if f.nBins == 0 {
      EmptyBody(f, tail);
    } else if |tail| < 4 * f.nBins {
      TruncatedAverage(f, tail);
    } else {
      TruncatedRows(f, tail);
    }
  }

  lemma EmptyBody(f: Frame, tail: seq<byte>)
    requires WellFormed(f) && f.nBins == 0
    ensures OfBody(f, tail) == Decoded(f.(rows := []))
  {}

  lemma TruncatedAverage(f: Frame, tail: seq<byte>)
    requires WellFormed(f) && |tail| < 4 * f.nBins
    requires tail == (Words(f.avg) + Flatten(f.rows))[..|tail|]
    ensures OfBody(f, tail)
        == if |tail| % 4 != 0 then Thrown else Decoded(f.(avg := f.avg[..|tail| / 4], rows := []))
  {
    hide Words, Reading, Flatten;
    assert tail == Words(f.avg)[..|tail|];
    assert tail[..|tail|] == tail;
    if |tail| % 4 == 0 {
      WordsPrefix(f.avg, |tail| / 4);
      ReadingInverts(f.avg[..|tail| / 4]);
    }
  }

  lemma SplitTail(a: seq<byte>, r: seq<byte>, tail: seq<byte>)
    requires |a| <= |tail| <= |a| + |r| && tail == (a + r)[..|tail|]
    ensures tail == a + r[..|tail| - |a|] && tail[..|a|] == a
  {}

  lemma TruncatedRows(f: Frame, tail: seq<byte>)
    requires WellFormed(f) && 0 < f.nBins && 4 * f.nBins <= |tail| <= 4 * f.nBins + |Flatten(f.rows)|
    requires tail == (Words(f.avg) + Flatten(f.rows))[..|tail|]
    ensures var k := Fit(|tail| - 4 * f.nBins, f.nBins);
            k <= |f.rows| && OfBody(f, tail) == Decoded(f.(rows := f.rows[..k]))
  {
    hide Words, Reading, Flatten, Fit, RowsAt;
    var a, m := Words(f.avg), |tail| - 4 * f.nBins;
    SplitTail(a, Flatten(f.rows), tail);
    ReadingInverts(f.avg);
    WholeRows(a, f.rows, f.nBins, m);
  }
}
