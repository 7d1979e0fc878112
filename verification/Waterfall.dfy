/** The analysis spectrum with its ring of rows (server/src/analysis/mod.rs:27-132).
    Levels are exact reals; a function gives their single-precision words. */
module Waterfall {
  import opened Basics
  import opened Bytes
  import opened SpectrumFrame

  const LOWEST := -150.0
  const HIGHEST := 10.0

  /** A level as a byte, over the fixed window. */
  function Quantise(db: real): byte {
    var t := (db - LOWEST) / (HIGHEST - LOWEST);
    ((if t < 0.0 then 0.0 else if t > 1.0 then 1.0 else t) * 255.0 + 0.5).Floor
  }

  /** A byte stands for a level on an even scale from -150 to 10 dB
      (web/src/analysis.ts:570): within half a step of the level, or of the end of the
      scale beyond which it lies. */
  lemma ShownWithinHalfStep(db: real)
    ensures var inside := if db < -150.0 then -150.0 else if db > 10.0 then 10.0 else db;
            var q := Quantise(db);
            -80.0 / 255.0 <= -150.0 + 160.0 * (q as real / 255.0) - inside <= 80.0 / 255.0
  {
    var inside := if db < LOWEST then LOWEST else if db > HIGHEST then HIGHEST else db;
    var t := (inside - LOWEST) / 160.0;
    assert Quantise(db) == (t * 255.0 + 0.5).Floor;
  }

  /** A spectrum as its owner sees it: every row pushed since the last reset. */
  datatype Server = Server(center: u64, span: u64, nBins: nat, avg: seq<real>, ring: nat, pushed: seq<Row>)

  function Fresh(center: u64, span: u64, nBins: nat, maxRows: nat): Server {
    Server(center, span, nBins, seq(nBins, _ => LOWEST), AtLeastOne(maxRows), [])
  }

  function Quantised(db: seq<real>): Row {
    seq<byte>(|db|, i requires 0 <= i < |db| => Quantise(db[i]))
  }

  function Folded(a: real, x: real, alpha: real): real {
    a * (1.0 - alpha) + x * alpha
  }

  function Averaged(avg: seq<real>, db: seq<real>, alpha: real): seq<real>
    requires |avg| == |db|
  {
    seq<real>(|db|, i requires 0 <= i < |db| => Folded(avg[i], db[i], alpha))
  }

  ghost predicate Consistent(s: Server) {
    |s.avg| == s.nBins && s.ring >= 1
    && forall k | 0 <= k < |s.pushed| :: |s.pushed[k]| == s.nBins
  }

  function AfterPush(s: Server, db: seq<real>, alpha: real): (r: Server)
    requires |s.avg| == s.nBins
    ensures |r.avg| == r.nBins == s.nBins
    ensures |s.pushed| <= |r.pushed| <= |s.pushed| + 1
  {
    if |db| != s.nBins then s else
    s.(avg := Averaged(s.avg, db, alpha), pushed := s.pushed + [Quantised(db)])
  }

  /** The first row a reader at `since` is sent of `made` rows: never one it has,
      never one that left the ring, never more than the cap. */
  function NewFrom(since: nat, made: nat, limit: nat): (first: nat)
    ensures first <= made
  {
    if since >= made then made
    else if made - since <= limit then since
    else made - limit
  }

  function Words32(levels: seq<real>, bits: real -> u32): (r: seq<u32>)
    ensures |r| == |levels|
  {
    seq<u32>(|levels|, i requires 0 <= i < |levels| => bits(levels[i]))
  }

  function FrameSince(s: Server, since: nat, cap: nat, bits: real -> u32): (f: Frame)
    requires |s.pushed| < TWO_64
  {
    Frame(|s.pushed|, s.center, s.span, s.nBins, DB_LO, DB_HI, Words32(s.avg, bits),
          s.pushed[NewFrom(since, |s.pushed|, Min(s.ring, cap))..])
  }

  /** A push moves every level of the average by alpha times its distance to the
      new one, so it stays between the two. */
  lemma AverageMoves(s: Server, db: seq<real>, alpha: real, i: nat)
    requires |s.avg| == s.nBins == |db| && i < |db|
    ensures var (before, after) := (s.avg[i], AfterPush(s, db, alpha).avg[i]);
            && after - before == alpha * (db[i] - before)
            && (0.0 <= alpha <= 1.0 && before <= db[i] ==> before <= after <= db[i])
            && (0.0 <= alpha <= 1.0 && before >= db[i] ==> before >= after >= db[i])
  {
    hide Quantise;
    Towards(s.avg[i], db[i], alpha);
  }

  lemma Towards(a: real, x: real, alpha: real)
    ensures Folded(a, x, alpha) - a == alpha * (x - a)
    ensures 0.0 <= alpha <= 1.0 && a <= x ==> a <= Folded(a, x, alpha) <= x
    ensures 0.0 <= alpha <= 1.0 && a >= x ==> a >= Folded(a, x, alpha) >= x
  {
    var d := x - a;
    assert Folded(a, x, alpha) - a == alpha * d;
    assert x - Folded(a, x, alpha) == d - alpha * d;
    Share(alpha, d);
  }

  lemma Share(alpha: real, d: real)
    ensures 0.0 <= alpha <= 1.0 && d >= 0.0 ==> 0.0 <= alpha * d <= d
    ensures 0.0 <= alpha <= 1.0 && d <= 0.0 ==> d <= alpha * d <= 0.0
  {
    assert d - alpha * d == (1.0 - alpha) * d;
  }

  /** The average, level by level. */
  method Average(avg: seq<real>, db: seq<real>, alpha: real) returns (r: seq<real>)
    requires |avg| == |db|
    ensures r == Averaged(avg, db, alpha)
  {
    hide Folded;
    r := avg;
    for i := 0 to |db|
      invariant |r| == |avg|
      invariant forall k | 0 <= k < i :: r[k] == Folded(avg[k], db[k], alpha)
      invariant forall k | i <= k < |avg| :: r[k] == avg[k]
    {
      r := r[i := Folded(r[i], db[i], alpha)];
    }
  }

  /** The last rows of a history, at most n of them. */
  function Ring(pushed: seq<Row>, n: nat): seq<Row> {
    pushed[|pushed| - Min(|pushed|, n)..]
  }

  lemma RingSlides(pushed: seq<Row>, n: nat, row: Row)
    requires n >= 1
    ensures var ring := Ring(pushed, n);
      Ring(pushed + [row], n) == (if |ring| == n then ring[1..] else ring) + [row]
  {}

  class Spectrum {
    const bits: real -> u32
    var center: u64
    var span: u64
    var nBins: nat
    var seqNo: nat
    var avgDb: seq<real>
    var rows: seq<Row>
    var maxRows: nat
    ghost var pushed: seq<Row>

    ghost function View(): Server
      reads this
    {
      Server(center, span, nBins, avgDb, maxRows, pushed)
    }

    /** The ring is the last min(seq, max_rows) rows since the reset. */
    ghost predicate Valid()
      reads this
    {
      Consistent(View())
      && seqNo == |pushed|
      && rows == Ring(pushed, maxRows)
    }

    constructor (bits: real -> u32, nBins: nat, maxRows: nat)
      ensures Valid() && View() == Fresh(0, 0, nBins, maxRows) && this.bits == bits
    {
      this.bits := bits;
      center := 0;
      span := 0;
      this.nBins := nBins;
      seqNo := 0;
      avgDb := seq(nBins, _ => LOWEST);
      rows := [];
      this.maxRows := AtLeastOne(maxRows);
      pushed := [];
    }

    method Reset(center: u64, span: u64, nBins: nat, maxRows: nat)
      modifies this
      ensures Valid() && View() == Fresh(center, span, nBins, maxRows)
      ensures this.center == center && this.span == span && this.nBins == nBins && seqNo == 0 && rows == []
      ensures this.maxRows == if maxRows == 0 then 1 else maxRows
      ensures |avgDb| == nBins && forall i | 0 <= i < nBins :: avgDb[i] == -150.0
    {
      this.center := center;
      this.span := span;
      this.nBins := nBins;
      seqNo := 0;
      avgDb := seq(nBins, _ => LOWEST);
      rows := [];
      this.maxRows := AtLeastOne(maxRows);
      pushed := [];
    }

    method SetCenter(center: u64)
      requires Valid()
      modifies `center
      ensures Valid() && View() == old(View()).(center := center)
    {
      this.center := center;
    }

    method Push(db: seq<real>, alpha: real)
      requires Valid()
      modifies `avgDb, `rows, `seqNo, `pushed
      ensures Valid() && View() == AfterPush(old(View()), db, alpha)
    {
      hide Averaged, Quantised;
      if |db| != nBins {
        return;
      }
      PushConsistent(View(), db, alpha);
      avgDb := Average(avgDb, db, alpha);
      var row := Quantised(db);
      RingSlides(pushed, maxRows, row);
      if |rows| == maxRows {
        rows := rows[1..];
      }
      rows := rows + [row];
      seqNo := seqNo + 1;
      pushed := pushed + [row];
    }

    /** Serialises the header, the average and the rows that are new to `since`. */
    method Encode(since: nat, cap: nat) returns (b: seq<byte>)
      requires Valid() && |pushed| < TWO_64
      ensures b == FrameBytes(FrameSince(View(), since, cap, bits))
    {
      var firstVisible := seqNo - |rows|;
      var start := if since >= firstVisible then since else firstVisible;
      var newCount := if seqNo >= start then seqNo - start else 0;
      if newCount > cap {
        newCount := cap;
      }
      var skip := |rows| - newCount;
      ghost var f := FrameSince(View(), since, cap, bits);
      assert rows[skip..] == f.rows;
      b := MAGIC;
      b := b + LittleEndian(seqNo, 8);
      b := b + LittleEndian(center, 8);
      b := b + LittleEndian(span, 8);
      b := b + LittleEndian(nBins, 4);
      b := b + LittleEndian(DB_LO, 4);
      b := b + LittleEndian(DB_HI, 4);
      b := b + LittleEndian(newCount, 4);
      assert b == Header(f);
      b := AppendWords(b, Words32(avgDb, bits));
      b := AppendRows(b, rows[skip..]);
    }
  }

  /** A push keeps a spectrum of whole rows. */
  lemma PushConsistent(s: Server, db: seq<real>, alpha: real)
    requires Consistent(s)
    ensures Consistent(AfterPush(s, db, alpha))
  {
    hide Averaged, Quantise;
    if |db| == s.nBins {
      assert |Averaged(s.avg, db, alpha)| == |db| by {
        AveragedLength(s.avg, db, alpha);
      }
    }
  }

  lemma AveragedLength(avg: seq<real>, db: seq<real>, alpha: real)
    requires |avg| == |db|
    ensures |Averaged(avg, db, alpha)| == |db|
  {}
}
