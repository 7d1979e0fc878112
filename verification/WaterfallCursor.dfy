/** The waterfall over the wire: one server, one polling client
    (web/src/analysis.ts:505-581), any interleaving of pushes, retunes,
    replies and lost replies between two resets. */
module WaterfallCursor {
  import opened Wrappers
  import opened Basics
  import opened Bytes
  import opened SpectrumFrame
  import opened Waterfall

  /** The row cap the client asks for, and the height of its canvas. */
  const POLL_CAP := 240
  const CANVAS_ROWS := 1024

  /** Whether two spans differ by more than one hertz. */
  type SpanTest = (u64, u64) -> bool

  // ----- The client -----

  /** The cursor sent with each poll, the geometry and average of the last frame, the
      rows on the canvas and every row ever drawn on it, oldest first. */
  datatype Client = Client(lastSeq: nat, nBins: nat, center: u64, span: u64, avg: seq<u32>, canvas: seq<Row>,
                           drawn: seq<Row>)

  /** A client that has just been opened. */
  const OPENED := Client(0, 0, 0, 0, [], [], [])

  function Newest(rows: seq<Row>, n: nat): seq<Row> {
    if |rows| <= n then rows else rows[|rows| - n..]
  }

  /** The rows of a frame scroll onto the canvas, which a new geometry clears first. */
  function Ingested(c: Client, b: seq<byte>, apart: SpanTest): Client {
    match Decoding(b)
    case Decoded(f) =>
      if f.nBins == 0 then c else
      var kept := if f.nBins != c.nBins || apart(f.span, c.span) then [] else c.canvas;
      var newest := Newest(f.rows, CANVAS_ROWS);
      Client(f.seqNo, f.nBins, f.center, f.span, f.avg, Newest(kept + newest, CANVAS_ROWS), c.drawn + newest)
    case _ => c
  }

  /** The last rows of a list, at most n of them. */
  predicate IsNewest(r: seq<Row>, rows: seq<Row>, n: nat) {
    |r| == (if |rows| <= n then |rows| else n) && r == rows[|rows| - |r|..]
  }

  /** A reply of a good frame: its fields are taken over and its newest 1024 rows drawn,
      below those on the canvas if the geometry is still the same. */
  lemma ReplyShown(c: Client, f: Frame, apart: SpanTest) returns (newest: seq<Row>)
    requires WellFormed(f) && 0 < f.nBins < TWO_32
    ensures IsNewest(newest, f.rows, 1024)
    ensures var r := Ingested(c, FrameBytes(f), apart);
            && r.lastSeq == f.seqNo && r.nBins == f.nBins && r.center == f.center && r.span == f.span && r.avg == f.avg
            && r.drawn == c.drawn + newest
            && IsNewest(r.canvas,
                 (if f.nBins != c.nBins || apart(f.span, c.span) then [] else c.canvas) + newest, 1024)
  {
    DecodeInvertsEncode(f);
    newest := Newest(f.rows, CANVAS_ROWS);
    hide Decoding, FrameBytes;
  }

  /** A reply too short for a header changes nothing. */
  lemma ShortReplyIgnored(c: Client, b: seq<byte>, apart: SpanTest)
    requires |b| < 44
    ensures Ingested(c, b, apart) == c
  {}

  class AnalysisView {
    const apart: SpanTest
    var lastSeq: nat
    var nBins: nat
    var center: u64
    var span: u64
    var avg: seq<u32>
    var canvas: seq<Row>
    ghost var drawn: seq<Row>

    ghost function View(): Client
      reads this
    {
      Client(lastSeq, nBins, center, span, avg, canvas, drawn)
    }

    constructor (apart: SpanTest)
      ensures View() == OPENED && this.apart == apart
    {
      this.apart := apart;
      lastSeq, nBins, center, span, avg, canvas, drawn := 0, 0, 0, 0, [], [], [];
    }

    /** Draws the rows of a reply and moves the cursor; a bad reply changes nothing. */
    method Ingest(b: seq<byte>)
      modifies this
      ensures View() == Ingested(old(View()), b, apart)
    {
      hide Decoding;
      var r := DecodeFrame(b);
      if !r.Decoded? || r.frame.nBins == 0 {
        return;
      }
      var f := r.frame;
      if f.nBins != nBins || apart(f.span, span) {
        nBins := f.nBins;
        canvas := [];
      }
      center := f.center;
      span := f.span;
      avg := f.avg;
      if f.seqNo < lastSeq {
        lastSeq := 0; // the pipeline restarted
      }
      var k := Min(|f.rows|, CANVAS_ROWS);
      var newest := f.rows[|f.rows| - k..];
      canvas := Newest(canvas + newest, CANVAS_ROWS);
      drawn := drawn + newest;
      lastSeq := f.seqNo;
      assert newest == Newest(f.rows, CANVAS_ROWS);
    }
  }

  // ----- Runs -----

  /** Serve answers the outstanding poll; its reply is later delivered or lost. */
  datatype Event = Push(db: seq<real>, alpha: real) | Retune(center: u64) | Serve | Deliver | Lose

  datatype System = System(server: Server, client: Client, reply: Option<seq<byte>>)

  /** What stays as it is between two resets: how floats are written and spans compared. */
  datatype Fixed = Fixed(bits: real -> u32, apart: SpanTest)

  function Step(s: System, e: Event, x: Fixed): (r: System)
    requires |s.server.avg| == s.server.nBins && |s.server.pushed| < TWO_64
    ensures |r.server.avg| == r.server.nBins && |r.server.pushed| <= |s.server.pushed| + 1
  {
    match e
    case Push(db, alpha) => s.(server := AfterPush(s.server, db, alpha))
    case Retune(center) => s.(server := s.server.(center := center))
    case Serve =>
      if s.reply.Some? then s else
      s.(reply := Some(FrameBytes(FrameSince(s.server, s.client.lastSeq, POLL_CAP, x.bits))))
    case Deliver =>
      if s.reply.None? then s else
      s.(client := Ingested(s.client, s.reply.value, x.apart), reply := None)
    case Lose => s.(reply := None)
  }

  /** A run of fewer than 2^64 events. */
  function Run(s: System, events: seq<Event>, x: Fixed): System
    requires |s.server.avg| == s.server.nBins && |s.server.pushed| + |events| < TWO_64
    decreases |events|
  {
    if events == [] then s else Run(Step(s, events[0], x), events[1..], x)
  }

  /** The objects themselves, driven by any events, run as the system does. */
  method Drive(spectrum: Spectrum, view: AnalysisView, events: seq<Event>) returns (reply: Option<seq<byte>>)
    requires spectrum.Valid() && |spectrum.pushed| + |events| < TWO_64
    modifies spectrum, view
    ensures spectrum.Valid()
    ensures System(spectrum.View(), view.View(), reply)
        == Run(System(old(spectrum.View()), old(view.View()), None), events, Fixed(spectrum.bits, view.apart))
  {
    hide AfterPush, FrameBytes, FrameSince, Ingested, Consistent;
    reply := None;
    ghost var x := Fixed(spectrum.bits, view.apart);
    ghost var start := System(spectrum.View(), view.View(), None);
    ConsistentLength(spectrum.View());
    assert events[0..] == events;
    for i := 0 to |events|
      invariant spectrum.Valid() && |spectrum.pushed| + |events| - i < TWO_64
      invariant |spectrum.avgDb| == spectrum.nBins
      invariant Run(System(spectrum.View(), view.View(), reply), events[i..], x) == Run(start, events, x)
    {
      ghost var before := System(spectrum.View(), view.View(), reply);
      assert events[i..][1..] == events[i + 1..];
      match events[i] {
        case Push(db, alpha) =>
          spectrum.Push(db, alpha);
        case Retune(center) =>
          spectrum.SetCenter(center);
        case Serve =>
          if reply == None {
            var b := spectrum.Encode(view.lastSeq, POLL_CAP);
            reply := Some(b);
          }
        case Deliver =>
          if reply.Some? {
            view.Ingest(reply.value);
            reply := None;
          }
        case Lose =>
          reply := None;
      }
      ConsistentLength(spectrum.View());
      assert System(spectrum.View(), view.View(), reply) == Step(before, events[i], x);
    }
  }

  lemma ConsistentLength(s: Server)
    requires Consistent(s)
    ensures |s.avg| == s.nBins
  {}

  /** One poll with nothing in between: the client shows the server's geometry, its
      average and its row counter, and the bytes carry the window -150 to 10 dB. */
  lemma PollShows(s: System, x: Fixed)
    requires Consistent(s.server) && 0 < s.server.nBins < TWO_32 && |s.server.pushed| < TWO_64 && s.reply == None
    ensures var served := Step(s, Serve, x);
            var c := Step(served, Deliver, x).client;
            && served.reply.Some? && |served.reply.value| >= 44
            && served.reply.value[32..40] == [0x00, 0x00, 0x16, 0xC3, 0x00, 0x00, 0x20, 0x41]
            && c.lastSeq == |s.server.pushed| && c.nBins == s.server.nBins
            && c.center == s.server.center && c.span == s.server.span
            && |c.avg| == s.server.nBins && forall i | 0 <= i < |c.avg| :: c.avg[i] == x.bits(s.server.avg[i])
  {
    hide FrameBytes, Ingested, Words32, NewFrom;
    var f := FrameSince(s.server, s.client.lastSeq, POLL_CAP, x.bits);
    Served(s.server, s.client.lastSeq, x.bits);
    WindowAt(f);
    var newest := ReplyShown(s.client, f, x.apart);
    WordsShown(s.server.avg, x.bits);
  }

  lemma WordsShown(levels: seq<real>, bits: real -> u32)
    ensures forall i | 0 <= i < |levels| :: Words32(levels, bits)[i] == bits(levels[i])
  {}

  lemma Served(s: Server, since: nat, bits: real -> u32)
    requires Consistent(s) && |s.pushed| < TWO_64
    ensures WellFormed(FrameSince(s, since, POLL_CAP, bits))
  {
    hide Words32;
    assert |FrameSince(s, since, POLL_CAP, bits).rows| <= POLL_CAP;
  }

  lemma WindowAt(f: Frame)
    requires f.dbLo == 0xC316_0000 && f.dbHi == 0x4120_0000
    ensures |FrameBytes(f)| >= 44
    ensures FrameBytes(f)[32..40] == [0x00, 0x00, 0x16, 0xC3, 0x00, 0x00, 0x20, 0x41]
  {
    hide Header, LittleEndian;
    var b := FrameBytes(f);
    assert b == Header(f) + (Words(f.avg) + Flatten(f.rows));
    HeaderSlices(f, b, Words(f.avg) + Flatten(f.rows));
    WindowBytes();
    assert b[32..40] == b[32..36] + b[36..40];
  }

  lemma WindowBytes()
    ensures LittleEndian(0xC316_0000, 4) == [0x00, 0x00, 0x16, 0xC3]
    ensures LittleEndian(0x4120_0000, 4) == [0x00, 0x00, 0x20, 0x41]
  {
    LastByte(0xC3);
    LastByte(0x41);
    NextByte(0xC316, 1);
    NextByte(0xC31600, 2);
    NextByte(0xC3160000, 3);
    NextByte(0x4120, 1);
    NextByte(0x412000, 2);
    NextByte(0x41200000, 3);
  }

  lemma LastByte(n: byte)
    ensures LittleEndian(n, 1) == [n]
  {}

  lemma NextByte(n: nat, k: nat)
    ensures LittleEndian(n, k + 1) == [n % 256] + LittleEndian(n / 256, k)
  {}

  // ----- What should have been drawn -----

  /** Rows made so far, the seq of every delivered reply, the seq of the reply in flight. */
  datatype Ledger = Ledger(made: nat, delivered: seq<nat>, inFlight: Option<nat>)

  function Tally(l: Ledger, e: Event, nBins: nat): Ledger {
    match e
    case Push(db, _) => if |db| == nBins then l.(made := l.made + 1) else l
    case Retune(_) => l
    case Serve => if l.inFlight.Some? then l else l.(inFlight := Some(l.made))
    case Deliver =>
      if l.inFlight.None? then l else l.(delivered := l.delivered + [l.inFlight.value], inFlight := None)
    case Lose => l.(inFlight := None)
  }

  function TallyAll(l: Ledger, events: seq<Event>, nBins: nat): Ledger
    decreases |events|
  {
    if events == [] then l else TallyAll(Tally(l, events[0], nBins), events[1..], nBins)
  }

  /** The cursor with which delivered reply k was asked for. */
  function Cursor(c0: nat, delivered: seq<nat>, k: nat): nat
    requires k <= |delivered|
  {
    if k == 0 then c0 else delivered[k - 1]
  }

  function Range(lo: nat, hi: nat): (r: seq<nat>)
    requires lo <= hi
    ensures |r| == hi - lo && forall k | 0 <= k < |r| :: r[k] == lo + k
  {
    seq(hi - lo, i requires 0 <= i < hi - lo => lo + i)
  }

  /** Indices of the rows that the first n delivered replies carried. */
  function Sent(c0: nat, delivered: seq<nat>, limit: nat, n: nat): seq<nat>
    requires n <= |delivered|
  {
    if n == 0 then [] else
    Sent(c0, delivered, limit, n - 1)
    + Range(NewFrom(Cursor(c0, delivered, n - 1), delivered[n - 1], limit), delivered[n - 1])
  }

  ghost predicate Nondecreasing(s: seq<nat>) {
    forall i, j | 0 <= i < j < |s| :: s[i] <= s[j]
  }

  ghost predicate Increasing(s: seq<nat>) {
    forall i, j | 0 <= i < j < |s| :: s[i] < s[j]
  }

  /** Reply k carries row i. */
  predicate Carries(c0: nat, delivered: seq<nat>, limit: nat, k: nat, i: nat)
    requires k < |delivered|
  {
    Cursor(c0, delivered, k) <= i < delivered[k] <= i + limit
  }

  lemma {:induction false} SentExactly(c0: nat, delivered: seq<nat>, limit: nat, n: nat, i: nat)
    requires n <= |delivered|
    ensures i in Sent(c0, delivered, limit, n) <==> exists k: nat | k < n :: Carries(c0, delivered, limit, k, i)
  {
    if n == 0 {
    } else {
      SentExactly(c0, delivered, limit, n - 1, i);
      var lo, hi := NewFrom(Cursor(c0, delivered, n - 1), delivered[n - 1], limit), delivered[n - 1];
      if lo <= i < hi {
        assert Range(lo, hi)[i - lo] == i;
        assert Carries(c0, delivered, limit, n - 1, i);
      }
    }
  }

  /** No row twice, none out of order. */
  lemma {:induction false} SentInOrder(c0: nat, delivered: seq<nat>, limit: nat, n: nat)
    requires n <= |delivered| && Nondecreasing(delivered)
    ensures Increasing(Sent(c0, delivered, limit, n))
    ensures forall a | 0 <= a < |Sent(c0, delivered, limit, n)| ::
              n > 0 && Sent(c0, delivered, limit, n)[a] < delivered[n - 1]
  {
    if n == 0 {
    } else {
      SentInOrder(c0, delivered, limit, n - 1);
      var before := Sent(c0, delivered, limit, n - 1);
      var at := delivered[n - 1];
      var more := Range(NewFrom(Cursor(c0, delivered, n - 1), at, limit), at);
      assert before != [] ==> delivered[n - 2] <= at;
      assert Increasing(before + more) && forall a | 0 <= a < |before + more| :: (before + more)[a] < at;
    }
  }

  /** No two delivered replies are further apart than the limit, and the first
      either finds a fresh cursor or no rows yet. */
  ghost predicate Gapless(c0: nat, delivered: seq<nat>, limit: nat, n: nat)
    requires n <= |delivered|
  {
    (c0 == 0 || n == 0 || delivered[0] == 0)
    && forall k: nat | k < n :: delivered[k] - Cursor(0, delivered, k) <= limit
  }

  /** The replies have carried every row up to the last, exactly when they are gapless. */
  lemma {:induction false} NothingLost(c0: nat, delivered: seq<nat>, limit: nat, n: nat)
    requires n <= |delivered| && Nondecreasing(delivered)
    ensures Sent(c0, delivered, limit, n) == Range(0, Cursor(0, delivered, n)) <==> Gapless(c0, delivered, limit, n)
  {
    if Gapless(c0, delivered, limit, n) {
      AllSent(c0, delivered, limit, n);
    } else if c0 > 0 && n > 0 && delivered[0] > 0 {
      SentExactly(c0, delivered, limit, n, 0);
      assert forall m: nat | 0 < m < n :: 0 < Cursor(c0, delivered, m);
      assert forall m: nat | m < n :: !Carries(c0, delivered, limit, m, 0);
      assert 0 < delivered[n - 1];
      assert Range(0, Cursor(0, delivered, n))[0] == 0;
    } else {
      var k: nat :| k < n && delivered[k] - Cursor(0, delivered, k) > limit;
      var i := Cursor(0, delivered, k);
      SentExactly(c0, delivered, limit, n, i);
      assert forall m: nat | m < k :: delivered[m] <= i;
      assert forall m: nat | k < m < n :: i < Cursor(c0, delivered, m);
      assert forall m: nat | m < n :: !Carries(c0, delivered, limit, m, i);
      assert delivered[k] <= Cursor(0, delivered, n);
      assert Range(0, Cursor(0, delivered, n))[i] == i;
    }
  }

  lemma RangeJoin(at: nat, to: nat)
    requires at <= to
    ensures Range(0, at) + Range(at, to) == Range(0, to)
  {}

  lemma GaplessEarlier(c0: nat, delivered: seq<nat>, limit: nat, n: nat)
    requires 0 < n <= |delivered| && Nondecreasing(delivered) && Gapless(c0, delivered, limit, n)
    ensures Gapless(c0, delivered, limit, n - 1)
    ensures Cursor(0, delivered, n - 1) <= delivered[n - 1]
    ensures NewFrom(Cursor(c0, delivered, n - 1), delivered[n - 1], limit) == Cursor(0, delivered, n - 1)
  {
    assert delivered[n - 1] - Cursor(0, delivered, n - 1) <= limit;
  }

  lemma {:induction false} AllSent(c0: nat, delivered: seq<nat>, limit: nat, n: nat)
    requires n <= |delivered| && Nondecreasing(delivered) && Gapless(c0, delivered, limit, n)
    ensures Sent(c0, delivered, limit, n) == Range(0, Cursor(0, delivered, n))
  {
    if n == 0 {
    } else {
      GaplessEarlier(c0, delivered, limit, n);
      AllSent(c0, delivered, limit, n - 1);
      hide Gapless, NewFrom, Nondecreasing, Range;
      RangeJoin(Cursor(0, delivered, n - 1), delivered[n - 1]);
    }
  }

  /** A client whose cursor survives a restart never draws the new run's rows
      below both that cursor and its first reply, although `lastSeq = 0`
      (web/src/analysis.ts:543-544) was to start it over. */
  lemma RestartSkips(c0: nat, delivered: seq<nat>, limit: nat, i: nat)
    requires delivered != [] && Nondecreasing(delivered)
    requires i < c0 && i < delivered[0]
    ensures i !in Sent(c0, delivered, limit, |delivered|)
  {
    SentExactly(c0, delivered, limit, |delivered|, i);
    forall k: nat | k < |delivered|
      ensures !Carries(c0, delivered, limit, k, i)
    {
      assert k > 0 ==> delivered[0] <= delivered[k - 1];
    }
  }

  // ----- The run -----

  function Picked(pushed: seq<Row>, indices: seq<nat>): seq<Row>
    requires forall k | 0 <= k < |indices| :: indices[k] < |pushed|
  {
    seq(|indices|, k requires 0 <= k < |indices| => pushed[indices[k]])
  }

  ghost predicate InStep(s: System, l: Ledger, c0: nat) {
    && Consistent(s.server) && 0 < s.server.nBins < TWO_32
    && l.made == |s.server.pushed|
    && Nondecreasing(l.delivered)
    && (forall k | 0 <= k < |l.delivered| :: l.delivered[k] <= l.made)
    && s.client.lastSeq == Cursor(c0, l.delivered, |l.delivered|)
    && s.reply.Some? == l.inFlight.Some?
    && (s.reply.Some? ==> ReplyOf(s, l.inFlight.value))
    && (l.inFlight.Some? && l.delivered != [] ==> l.delivered[|l.delivered| - 1] <= l.inFlight.value)
  }

  function Limit(s: Server): nat {
    Min(s.ring, POLL_CAP)
  }

  /** The reply in flight reads back as the rows new to the client at row `at`. */
  ghost predicate ReplyOf(s: System, at: nat)
    requires s.reply.Some?
  {
    && at <= |s.server.pushed|
    && var r := Decoding(s.reply.value);
    && r.Decoded? && r.frame.seqNo == at && r.frame.nBins == s.server.nBins && r.frame.span == s.server.span
    && r.frame.rows == s.server.pushed[NewFrom(s.client.lastSeq, at, Limit(s.server))..at]
  }

  ghost predicate DrawnAsSent(s: System, l: Ledger, c0: nat) {
    var sent := Sent(c0, l.delivered, Limit(s.server), |l.delivered|);
    (forall k | 0 <= k < |sent| :: sent[k] < |s.server.pushed|)
    && s.client.drawn == Picked(s.server.pushed, sent)
  }

  lemma ServeStays(s: System, l: Ledger, c0: nat, x: Fixed)
    requires InStep(s, l, c0) && s.reply.None? && |s.server.pushed| < TWO_64
    ensures InStep(Step(s, Serve, x), Tally(l, Serve, s.server.nBins), c0)
  {
    var f := FrameSince(s.server, s.client.lastSeq, POLL_CAP, x.bits);
    assert WellFormed(f) by {
      assert |f.rows| <= POLL_CAP;
    }
    DecodeInvertsEncode(f);
    assert f.rows == s.server.pushed[NewFrom(s.client.lastSeq, l.made, Limit(s.server))..l.made];
  }

  lemma {:induction false} SentSnoc(c0: nat, delivered: seq<nat>, d: nat, limit: nat, n: nat)
    requires n <= |delivered|
    ensures Sent(c0, delivered + [d], limit, n) == Sent(c0, delivered, limit, n)
  {
    if n == 0 {
    } else {
      SentSnoc(c0, delivered, d, limit, n - 1);
    }
  }

  lemma DeliverStays(s: System, l: Ledger, c0: nat, x: Fixed)
    requires InStep(s, l, c0) && s.reply.Some? && |s.server.pushed| < TWO_64
    ensures InStep(Step(s, Deliver, x), Tally(l, Deliver, s.server.nBins), c0)
  {}

  lemma DeliverAdds(s: System, l: Ledger, c0: nat, x: Fixed)
    requires InStep(s, l, c0) && s.reply.Some? && |s.server.pushed| < TWO_64
    ensures var at := l.inFlight.value;
            Step(s, Deliver, x).client.drawn
            == s.client.drawn + s.server.pushed[NewFrom(s.client.lastSeq, at, Limit(s.server))..at]
  {
    hide Decoding;
    var at := l.inFlight.value;
    assert |s.server.pushed[NewFrom(s.client.lastSeq, at, Limit(s.server))..at]| <= POLL_CAP;
  }

  lemma DeliverDraws(s: System, l: Ledger, c0: nat, x: Fixed)
    requires InStep(s, l, c0) && DrawnAsSent(s, l, c0) && s.reply.Some? && |s.server.pushed| < TWO_64
    ensures DrawnAsSent(Step(s, Deliver, x), Tally(l, Deliver, s.server.nBins), c0)
  {
    DeliverAdds(s, l, c0, x);
    hide Decoding, Ingested, Picked;
    var limit, at := Limit(s.server), l.inFlight.value;
    var first := NewFrom(s.client.lastSeq, at, limit);
    var sent := Sent(c0, l.delivered, limit, |l.delivered|);
    var d := l.delivered + [at];
    SentSnoc(c0, l.delivered, at, limit, |l.delivered|);
    assert Sent(c0, d, limit, |d|) == sent + Range(first, at);
    PickedRange(s.server.pushed, sent, first, at);
  }

  lemma PickedRange(pushed: seq<Row>, sent: seq<nat>, first: nat, at: nat)
    requires first <= at <= |pushed| && forall k | 0 <= k < |sent| :: sent[k] < |pushed|
    ensures Picked(pushed, sent + Range(first, at)) == Picked(pushed, sent) + pushed[first..at]
  {}

  lemma PushStays(s: System, l: Ledger, c0: nat, db: seq<real>, alpha: real, x: Fixed)
    requires InStep(s, l, c0) && DrawnAsSent(s, l, c0) && |s.server.pushed| < TWO_64
    ensures InStep(Step(s, Push(db, alpha), x), Tally(l, Push(db, alpha), s.server.nBins), c0)
    ensures DrawnAsSent(Step(s, Push(db, alpha), x), Tally(l, Push(db, alpha), s.server.nBins), c0)
  {
    var after := AfterPush(s.server, db, alpha);
    if s.reply.Some? {
      var at := l.inFlight.value;
      var first := NewFrom(s.client.lastSeq, at, Limit(s.server));
      assert after.pushed[first..at] == s.server.pushed[first..at];
    }
    var sent := Sent(c0, l.delivered, Limit(s.server), |l.delivered|);
    assert Picked(after.pushed, sent) == Picked(s.server.pushed, sent);
  }

  /** The canvas shows the newest rows drawn, and its geometry is the server's. */
  ghost predicate CanvasCurrent(s: System) {
    && s.client.canvas == Newest(s.client.drawn, CANVAS_ROWS)
    && (s.client.drawn != [] ==> s.client.nBins == s.server.nBins && s.client.span == s.server.span)
  }

  lemma NewestJoin(a: seq<Row>, b: seq<Row>, n: nat)
    ensures Newest(Newest(a, n) + b, n) == Newest(a + b, n)
  {}

  lemma CanvasStays(s: System, l: Ledger, c0: nat, x: Fixed)
    requires InStep(s, l, c0) && CanvasCurrent(s) && s.reply.Some? && |s.server.pushed| < TWO_64
    requires !x.apart(s.server.span, s.server.span)
    ensures CanvasCurrent(Step(s, Deliver, x))
  {
    hide Decoding;
    var f := Decoding(s.reply.value).frame;
    var newest := Newest(f.rows, CANVAS_ROWS);
    if s.client.drawn == [] {
      assert s.client.canvas == [];
      assert [] + newest == newest;
    } else {
      NewestJoin(s.client.drawn, newest, CANVAS_ROWS);
    }
  }

  lemma PushLeaves(s: Server, e: Event)
    requires Consistent(s)
    ensures e.Push? ==>
              var t := AfterPush(s, e.db, e.alpha);
              t.ring == s.ring && t.nBins == s.nBins && t.span == s.span
  {}

  lemma StepStays(s: System, l: Ledger, e: Event, x: Fixed, c0: nat)
    requires InStep(s, l, c0) && DrawnAsSent(s, l, c0) && |s.server.pushed| < TWO_64
    ensures InStep(Step(s, e, x), Tally(l, e, s.server.nBins), c0)
    ensures DrawnAsSent(Step(s, e, x), Tally(l, e, s.server.nBins), c0)
    ensures CanvasCurrent(s) && !x.apart(s.server.span, s.server.span) ==> CanvasCurrent(Step(s, e, x))
    ensures var t := Step(s, e, x).server;
            t.ring == s.server.ring && t.nBins == s.server.nBins && t.span == s.server.span
  {
    hide Ingested, FrameBytes, FrameSince, AfterPush, DrawnAsSent, InStep, CanvasCurrent;
    assert Consistent(s.server) && s.reply.Some? == l.inFlight.Some? by {
      Together(s, l, c0);
    }
    PushLeaves(s.server, e);
    match e {
      case Push(db, alpha) =>
        PushStays(s, l, c0, db, alpha, x);
        CanvasKeeps(s, Step(s, e, x));
      case Serve =>
        if s.reply.None? {
          ServeStays(s, l, c0, x);
          ServeDraws(s, l, c0, x);
          CanvasKeeps(s, Step(s, e, x));
        }
      case Deliver =>
        if s.reply.Some? {
          DeliverStays(s, l, c0, x);
          DeliverDraws(s, l, c0, x);
          if CanvasCurrent(s) && !x.apart(s.server.span, s.server.span) {
            CanvasStays(s, l, c0, x);
          }
        }
      case Retune(center) =>
        RetuneStays(s, l, c0, center, x);
        CanvasKeeps(s, Step(s, e, x));
      case Lose =>
        LoseStays(s, l, c0, x);
        CanvasKeeps(s, Step(s, e, x));
    }
  }

  lemma Together(s: System, l: Ledger, c0: nat)
    requires InStep(s, l, c0)
    ensures Consistent(s.server) && s.reply.Some? == l.inFlight.Some?
  {}

  lemma CanvasKeeps(s: System, t: System)
    requires t.client == s.client && t.server.nBins == s.server.nBins && t.server.span == s.server.span
    ensures CanvasCurrent(s) ==> CanvasCurrent(t)
  {}

  lemma ServeDraws(s: System, l: Ledger, c0: nat, x: Fixed)
    requires InStep(s, l, c0) && DrawnAsSent(s, l, c0) && |s.server.pushed| < TWO_64
    ensures DrawnAsSent(Step(s, Serve, x), Tally(l, Serve, s.server.nBins), c0)
  {
    hide FrameBytes, FrameSince;
  }

  lemma RetuneStays(s: System, l: Ledger, c0: nat, center: u64, x: Fixed)
    requires InStep(s, l, c0) && DrawnAsSent(s, l, c0) && |s.server.pushed| < TWO_64
    ensures InStep(Step(s, Retune(center), x), Tally(l, Retune(center), s.server.nBins), c0)
    ensures DrawnAsSent(Step(s, Retune(center), x), Tally(l, Retune(center), s.server.nBins), c0)
  {
    hide Decoding, NewFrom, Sent;
  }

  lemma LoseStays(s: System, l: Ledger, c0: nat, x: Fixed)
    requires InStep(s, l, c0) && DrawnAsSent(s, l, c0) && |s.server.pushed| < TWO_64
    ensures InStep(Step(s, Lose, x), Tally(l, Lose, s.server.nBins), c0)
    ensures DrawnAsSent(Step(s, Lose, x), Tally(l, Lose, s.server.nBins), c0)
  {
    hide Decoding, NewFrom, Sent;
  }

  lemma {:induction false} RunStays(s: System, l: Ledger, events: seq<Event>, x: Fixed, c0: nat)
    requires InStep(s, l, c0) && DrawnAsSent(s, l, c0) && |s.server.pushed| + |events| < TWO_64
    requires |s.server.avg| == s.server.nBins
    ensures var end := Run(s, events, x);
            var l' := TallyAll(l, events, s.server.nBins);
            && InStep(end, l', c0) && DrawnAsSent(end, l', c0) && end.server.ring == s.server.ring
            && (CanvasCurrent(s) && !x.apart(s.server.span, s.server.span) ==> CanvasCurrent(end))
    decreases |events|
  {
    hide InStep, DrawnAsSent, CanvasCurrent, Step, Tally;
    if events == [] {
    } else {
      StepStays(s, l, events[0], x, c0);
      RunStays(Step(s, events[0], x), Tally(l, events[0], s.server.nBins), events[1..], x, c0);
    }
  }

  /** A run begins just after a reset, with no reply in flight and nothing drawn of
      it yet; the client's cursor may be left over from an earlier run. */
  ghost predicate Begins(start: System, events: seq<Event>) {
    && Consistent(start.server) && 0 < start.server.nBins < TWO_32 && start.server.pushed == []
    && start.reply == None && start.client.drawn == [] && |events| < TWO_64
  }

  const NO_POLLS := Ledger(0, [], None)

  /** In every run from a reset: the rows drawn are, in order and without repeats,
      exactly those some delivered reply carried, that is, rows past the cursor and
      within the ring and the cap of that reply; and a canvas empty at the start
      shows the newest of them. */
  lemma DrawnExactly(start: System, events: seq<Event>, x: Fixed)
    requires Begins(start, events)
    ensures var c0 := start.client.lastSeq;
            var limit := Min(start.server.ring, 240);
            var end := Run(start, events, x);
            var l := TallyAll(NO_POLLS, events, start.server.nBins);
            var sent := Sent(c0, l.delivered, limit, |l.delivered|);
            && l.made == |end.server.pushed|
            && (forall k | 0 <= k < |sent| :: sent[k] < |end.server.pushed|)
            && end.client.drawn == Picked(end.server.pushed, sent)
            && Increasing(sent)
            && (forall i: nat ::
                  i in sent <==> exists k: nat | k < |l.delivered| :: Carries(c0, l.delivered, limit, k, i))
            && (start.client.canvas == [] && !x.apart(start.server.span, start.server.span) ==>
                  end.client.canvas == Newest(end.client.drawn, 1024))
  {
    var c0 := start.client.lastSeq;
    var limit := Min(start.server.ring, 240);
    var l := TallyAll(NO_POLLS, events, start.server.nBins);
    assert Picked(start.server.pushed, []) == [];
    RunStays(start, NO_POLLS, events, x, c0);
    hide Run, TallyAll;
    SentInOrder(c0, l.delivered, limit, |l.delivered|);
    forall i: nat
      ensures i in Sent(c0, l.delivered, limit, |l.delivered|)
              <==> exists k: nat | k < |l.delivered| :: Carries(c0, l.delivered, limit, k, i)
    {
      SentExactly(c0, l.delivered, limit, |l.delivered|, i);
    }
  }

  /** Whatever cursor the client brings, the rows it has drawn are all the rows up to
      its last reply, exactly when the delivered replies are gapless: none too far
      behind the one before, and the first one either asked for from zero or
      answered before there were rows. */
  lemma WholeRunDrawn(start: System, events: seq<Event>, x: Fixed)
    requires Begins(start, events)
    ensures var end := Run(start, events, x);
            var delivered := TallyAll(NO_POLLS, events, start.server.nBins).delivered;
            var upTo := Cursor(0, delivered, |delivered|);
            && upTo <= |end.server.pushed|
            && (end.client.drawn == end.server.pushed[..upTo]
                <==> Gapless(start.client.lastSeq, delivered, Min(start.server.ring, 240), |delivered|))
  {
    var c0 := start.client.lastSeq;
    var limit := Min(start.server.ring, 240);
    var end := Run(start, events, x);
    var l := TallyAll(NO_POLLS, events, start.server.nBins);
    var n := |l.delivered|;
    assert Picked(start.server.pushed, []) == [];
    RunStays(start, NO_POLLS, events, x, c0);
    DrawnExactly(start, events, x);
    hide Run, TallyAll, Gapless;
    SentInOrder(c0, l.delivered, limit, n);
    NothingLost(c0, l.delivered, limit, n);
    WholeRange(end.server.pushed, Sent(c0, l.delivered, limit, n), Cursor(0, l.delivered, n));
  }

  /** Rows picked in increasing order are a whole prefix exactly when the indices are. */
  lemma WholeRange(pushed: seq<Row>, sent: seq<nat>, upTo: nat)
    requires Increasing(sent) && upTo <= |pushed| && forall k | 0 <= k < |sent| :: sent[k] < upTo
    ensures Picked(pushed, sent) == pushed[..upTo] <==> sent == Range(0, upTo)
  {
    if Picked(pushed, sent) == pushed[..upTo] {
      FullOrder(sent, upTo);
      assert sent == Range(0, upTo);
    }
  }

  /** n increasing numbers below n are 0, 1, ..., n - 1. */
  lemma FullOrder(s: seq<nat>, n: nat)
    requires |s| == n
    requires Increasing(s)
    requires forall a | 0 <= a < n :: s[a] < n
    ensures forall a | 0 <= a < n :: s[a] == a
  {
    forall a | 0 <= a < n
      ensures s[a] == a
    {
      AtLeastIndex(s, a);
      AtMostIndex(s, n, a);
    }
  }

  lemma {:induction false} AtLeastIndex(s: seq<nat>, a: nat)
    requires a < |s| && Increasing(s)
    ensures s[a] >= a
  {
    if a == 0 {
    } else {
      AtLeastIndex(s, a - 1);
    }
  }

  lemma {:induction false} AtMostIndex(s: seq<nat>, n: nat, a: nat)
    requires a < |s| == n && Increasing(s)
    requires forall a | 0 <= a < n :: s[a] < n
    ensures s[a] <= a
    decreases n - a
  {
    if a + 1 < n {
      AtMostIndex(s, n, a + 1);
    }
  }
}
