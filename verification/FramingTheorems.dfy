/** What the frame parser promises over whole streams. */
module FramingTheorems {
  import opened Common
  import opened Framing

  // ---------------------------------------------------------------- chunking

  /** What `o` does followed by feeding `rest`. */
  function Then(limit: nat, o: Outcome, rest: seq<byte>): Outcome {
    match o
    case Raise(e) => Raise(e)
    case Continue(n, fs) => After(fs, Run(limit, n, rest))
  }

  /** Feeding a + b is feeding a, then b: same success, same error, concatenated output. */
  lemma {:induction false} FeedSplits(limit: nat, s: Snapshot, a: seq<byte>, b: seq<byte>)
    ensures Run(limit, s, a + b) == Then(limit, Run(limit, s, a), b)
    decreases |a|
  {
    if a == [] {
      assert a + b == b;
      if Run(limit, s, b).Continue? { assert [] + Run(limit, s, b).frames == Run(limit, s, b).frames; }
    } else {
      assert (a + b)[0] == a[0] && (a + b)[1..] == a[1..] + b;
      match Step(limit, s, a[0]) {
        case Raise(e) =>
        case Continue(n, fs) =>
          FeedSplits(limit, n, a[1..], b);
          match Run(limit, n, a[1..]) {
            case Raise(e) =>
            case Continue(m, gs) => AfterAfter(fs, gs, Run(limit, m, b));
          }
      }
    }
  }

  /** The cuts between chunks do not matter. */
  lemma {:induction false} ChunkingIsIrrelevant(limit: nat, s: Snapshot, chunks: seq<seq<byte>>)
    ensures RunChunks(limit, s, chunks) == Run(limit, s, Flatten(chunks))
    decreases |chunks|
  {
    if chunks != [] {
      FeedSplits(limit, s, chunks[0], Flatten(chunks[1..]));
      match Run(limit, s, chunks[0]) {
        case Raise(e) =>
        case Continue(n, fs) => ChunkingIsIrrelevant(limit, n, chunks[1..]);
      }
    }
  }

  lemma RunOne(limit: nat, s: Snapshot, v: byte)
    ensures Run(limit, s, [v]) == Step(limit, s, v)
  {
    assert [v][1..] == [];
    var o := Step(limit, s, v);
    if o.Continue? { assert o.frames + [] == o.frames; }
  }

  lemma RunTwo(limit: nat, s: Snapshot, u: byte, v: byte)
    ensures Run(limit, s, [u, v]) == Then(limit, Step(limit, s, u), [v])
  {
    assert [u, v][1..] == [v];
  }

  // ---------------------------------------------------------------- the language of the parser

  /** How an input goes on after its last whole frame. */
  datatype Tail =
    | Idle
    | LoneDle
    | Open(x: seq<byte>, dle: bool)
    | Broken(x: seq<byte>, bad: seq<byte>, after: seq<byte>, error: FrameError)

  function OpenBytes(x: seq<byte>, dle: bool): seq<byte> {
    if dle then Escape(x) + [DLE] else Escape(x)
  }

  function TailBytes(t: Tail): seq<byte> {
    match t
    case Idle => []
    case LoneDle => [DLE]
    case Open(x, dle) => [DLE, STX] + OpenBytes(x, dle)
    case Broken(x, bad, after, _) => [DLE, STX] + (Escape(x) + (bad + after))
  }

  predicate Offends(limit: nat, held: nat, bad: seq<byte>, e: FrameError) {
    || (e == MalformedFrame && |bad| == 2 && bad[0] == DLE && bad[1] != DLE && bad[1] != ETX)
    || (e == FrameTooLarge && held == limit && (bad == [DLE, DLE] || (|bad| == 1 && bad[0] != DLE)))
  }

  /** The buffered body x always fits.  An input is broken by a stray pair after a body DLE, or
      by one byte too many. */
  predicate TailFits(limit: nat, t: Tail) {
    match t
    case Idle => true
    case LoneDle => true
    case Open(x, _) => |x| <= limit
    case Broken(x, bad, _, e) => |x| <= limit && Offends(limit, |x|, bad, e)
  }

  function TailOutcome(t: Tail): Outcome {
    match t
    case Idle => Continue(FRESH, [])
    case LoneDle => Continue(Snapshot(WaitStx, []), [])
    case Open(x, dle) => Continue(Snapshot(if dle then AfterBodyDle else InBody, x), [])
    case Broken(_, _, _, e) => Raise(e)
  }

  ghost predicate Splits(limit: nat, s: seq<byte>, gaps: seq<seq<byte>>, frames: seq<seq<byte>>, tail: Tail) {
    && |gaps| == |frames| + 1 && Gaps(gaps) && WithinLimit(limit, frames) && TailFits(limit, tail)
    && s == Wire(gaps, frames) + TailBytes(tail)
  }

  // ---------------------------------------------------------------- encoding, then parsing

  lemma {:induction false} GapIsSkipped(limit: nat, g: seq<byte>)
    requires Gap(g)
    ensures Run(limit, FRESH, g) == Continue(FRESH, [])
    decreases |g|
  {
    if g != [] {
      if g[0] != DLE {
        GapIsSkipped(limit, g[1..]);
      } else {
        assert g[1..][1..] == g[2..] && g[1..][0] == g[1];
        GapIsSkipped(limit, g[2..]);
      }
    }
  }

  lemma {:induction false} DleFreeIsGap(g: seq<byte>)
    requires DLE !in g
    ensures Gap(g)
    decreases |g|
  {
    if g != [] { DleFreeIsGap(g[1..]); }
  }

  lemma EscapedByteIsCollected(limit: nat, acc: seq<byte>, v: byte)
    requires |acc| < limit
    ensures Run(limit, Snapshot(InBody, acc), Escaped(v)) == Continue(Snapshot(InBody, acc + [v]), [])
  {
    var s := Snapshot(InBody, acc);
    if v == DLE {
      RunTwo(limit, s, DLE, DLE);
      RunOne(limit, Snapshot(AfterBodyDle, acc), DLE);
    } else {
      RunOne(limit, s, v);
    }
  }

  /** An open body collects an escaped one, as long as it fits. */
  lemma {:induction false} EscapedIsCollected(limit: nat, acc: seq<byte>, x: seq<byte>)
    requires |acc| + |x| <= limit
    ensures Run(limit, Snapshot(InBody, acc), Escape(x)) == Continue(Snapshot(InBody, acc + x), [])
    decreases |x|
  {
    if x == [] {
      assert acc + x == acc;
    } else {
      assert Escape(x) == Escaped(x[0]) + Escape(x[1..]) && acc + [x[0]] + x[1..] == acc + x;
      hide Run, Escape, Escaped;
      EscapedByteIsCollected(limit, acc, x[0]);
      EscapedIsCollected(limit, acc + [x[0]], x[1..]);
      FeedSplits(limit, Snapshot(InBody, acc), Escaped(x[0]), Escape(x[1..]));
    }
  }

  lemma OpeningOpens(limit: nat, rest: seq<byte>)
    ensures Run(limit, FRESH, [DLE, STX] + rest) == Run(limit, Snapshot(InBody, []), rest)
  {
    RunTwo(limit, FRESH, DLE, STX);
    RunOne(limit, Snapshot(WaitStx, []), STX);
    FeedSplits(limit, FRESH, [DLE, STX], rest);
    var o := Run(limit, Snapshot(InBody, []), rest);
    if o.Continue? { assert [] + o.frames == o.frames; }
  }

  lemma EncodedIsEmitted(limit: nat, b: seq<byte>)
    requires |b| <= limit
    ensures Run(limit, FRESH, EncodeFrame(b)) == Continue(FRESH, [b])
  {
    EscapedIsCollected(limit, [], b);
    assert [] + b == b;
    RunTwo(limit, Snapshot(InBody, b), DLE, ETX);
    RunOne(limit, Snapshot(AfterBodyDle, b), ETX);
    FeedSplits(limit, Snapshot(InBody, []), Escape(b), [DLE, ETX]);
    OpeningOpens(limit, Escape(b) + [DLE, ETX]);
    assert EncodeFrame(b) == [DLE, STX] + (Escape(b) + [DLE, ETX]);
  }

  lemma {:induction false} WireIsParsed(limit: nat, gaps: seq<seq<byte>>, bodies: seq<seq<byte>>)
    requires |gaps| == |bodies| + 1 && Gaps(gaps) && WithinLimit(limit, bodies)
    ensures Run(limit, FRESH, Wire(gaps, bodies)) == Continue(FRESH, bodies)
    decreases |bodies|
  {
    GapIsSkipped(limit, gaps[0]);
    if bodies != [] {
      WireIsParsed(limit, gaps[1..], bodies[1..]);
      EncodedIsEmitted(limit, bodies[0]);
      FeedSplits(limit, FRESH, gaps[0], EncodeFrame(bodies[0]));
      FeedSplits(limit, FRESH, gaps[0] + EncodeFrame(bodies[0]), Wire(gaps[1..], bodies[1..]));
      assert [bodies[0]] + bodies[1..] == bodies;
    }
  }

  lemma BadBytesRaise(limit: nat, x: seq<byte>, bad: seq<byte>, e: FrameError)
    requires Offends(limit, |x|, bad, e)
    ensures Run(limit, Snapshot(InBody, x), bad) == Raise(e)
  {
    if |bad| == 1 {
      RunOne(limit, Snapshot(InBody, x), bad[0]);
      assert bad == [bad[0]];
    } else {
      RunTwo(limit, Snapshot(InBody, x), bad[0], bad[1]);
      RunOne(limit, Snapshot(AfterBodyDle, x), bad[1]);
      assert bad == [bad[0], bad[1]];
    }
  }

  lemma TailIsParsed(limit: nat, t: Tail)
    requires TailFits(limit, t)
    ensures Run(limit, FRESH, TailBytes(t)) == TailOutcome(t)
  {
    match t
    case Idle =>
    case LoneDle => RunOne(limit, FRESH, DLE);
    case Open(x, dle) =>
      OpeningOpens(limit, OpenBytes(x, dle));
      EscapedIsCollected(limit, [], x);
      assert [] + x == x;
      if dle {
        RunOne(limit, Snapshot(InBody, x), DLE);
        FeedSplits(limit, Snapshot(InBody, []), Escape(x), [DLE]);
      }
    case Broken(x, bad, after, e) =>
      OpeningOpens(limit, Escape(x) + (bad + after));
      EscapedIsCollected(limit, [], x);
      assert [] + x == x;
      BadBytesRaise(limit, x, bad, e);
      FeedSplits(limit, Snapshot(InBody, x), bad, after);
      FeedSplits(limit, Snapshot(InBody, []), Escape(x), bad + after);
  }

  // ---------------------------------------------------------------- parsing, then encoding

  datatype BodyEnd =
    | Closed(x: seq<byte>, rest: seq<byte>)
    | Unclosed(x: seq<byte>, dle: bool)
    | Offending(x: seq<byte>, bad: seq<byte>, after: seq<byte>, error: FrameError)

  predicate IsBodyEnd(limit: nat, held: nat, t: seq<byte>, end: BodyEnd) {
    && held + |end.x| <= limit
    && match end
       case Closed(x, rest) => t == Escape(x) + ([DLE, ETX] + rest)
       case Unclosed(x, dle) => t == OpenBytes(x, dle)
       case Offending(x, bad, after, e) =>
         t == Escape(x) + (bad + after) && Offends(limit, held + |x|, bad, e)
  }

  /** One more body byte in front. */
  function Longer(v: byte, end: BodyEnd): BodyEnd {
    match end
    case Closed(x, rest) => Closed([v] + x, rest)
    case Unclosed(x, dle) => Unclosed([v] + x, dle)
    case Offending(x, bad, after, e) => Offending([v] + x, bad, after, e)
  }

  lemma EscapeCons(v: byte, x: seq<byte>)
    ensures Escape([v] + x) == Escaped(v) + Escape(x)
  {
    assert ([v] + x)[1..] == x;
  }

  lemma LongerEnds(limit: nat, held: nat, v: byte, t: seq<byte>, end: BodyEnd)
    requires IsBodyEnd(limit, held + 1, t, end)
    ensures IsBodyEnd(limit, held, Escaped(v) + t, Longer(v, end))
  {
    EscapeCons(v, end.x);
  }

  /** Whatever an open body reads next, it closes, stays open, or breaks. */
  lemma {:induction false} ScanBody(limit: nat, held: nat, t: seq<byte>) returns (end: BodyEnd)
    requires held <= limit
    ensures IsBodyEnd(limit, held, t, end)
    decreases |t|
  {
    if t == [] {
      end := Unclosed([], false);
    } else if t == [DLE] {
      end := Unclosed([], true);
    } else if t[0] == DLE && t[1] == ETX {
      end := Closed([], t[2..]);
      assert t == [] + ([DLE, ETX] + t[2..]);
    } else {
      var width := if t[0] == DLE then 2 else 1;
      assert t == t[..width] + t[width..];
      if t[0] == DLE && t[1] != DLE {
        end := Offending([], t[..width], t[width..], MalformedFrame);
      } else if held == limit {
        end := Offending([], t[..width], t[width..], FrameTooLarge);
      } else {
        end := ScanBody(limit, held + 1, t[width..]);
        LongerEnds(limit, held, t[0], t[width..], end);
        assert t[..width] == Escaped(t[0]);
        end := Longer(t[0], end);
      }
    }
  }

  lemma TailOnly(limit: nat, tail: Tail)
    requires TailFits(limit, tail)
    ensures Splits(limit, TailBytes(tail), [[]], [], tail)
  {
    assert [] + TailBytes(tail) == TailBytes(tail);
  }

  /** Puts a skipped byte or pair in front of the first gap. */
  lemma Widen(skipped: seq<byte>, gaps: seq<seq<byte>>, bodies: seq<seq<byte>>) returns (wider: seq<seq<byte>>)
    requires |gaps| == |bodies| + 1 && Gaps(gaps)
    requires (|skipped| == 1 && skipped[0] != DLE) || (|skipped| == 2 && skipped[0] == DLE && skipped[1] != STX)
    ensures |wider| == |bodies| + 1 && Gaps(wider) && Wire(wider, bodies) == skipped + Wire(gaps, bodies)
  {
    hide EncodeFrame;
    var g := skipped + gaps[0];
    wider := [g] + gaps[1..];
    assert Gap(g) by { assert g[|skipped|..] == gaps[0]; }
    hide Gap;
    assert wider[1..] == gaps[1..];
    if bodies != [] {
      var e, w := EncodeFrame(bodies[0]), Wire(gaps[1..], bodies[1..]);
      assert Wire(wider, bodies) == g + e + w;
      assert skipped + (gaps[0] + e + w) == g + e + w;
    }
  }

  lemma SkippedInFront(limit: nat, skipped: seq<byte>, rest: seq<byte>,
                       gaps: seq<seq<byte>>, frames: seq<seq<byte>>, tail: Tail) returns (wider: seq<seq<byte>>)
    requires Splits(limit, rest, gaps, frames, tail)
    requires (|skipped| == 1 && skipped[0] != DLE) || (|skipped| == 2 && skipped[0] == DLE && skipped[1] != STX)
    ensures Splits(limit, skipped + rest, wider, frames, tail)
  {
    hide Wire, TailBytes, TailFits, Gap;
    wider := Widen(skipped, gaps, frames);
    var w, b := Wire(gaps, frames), TailBytes(tail);
    assert skipped + w + b == skipped + (w + b);
  }

  lemma WireCons(x: seq<byte>, gaps: seq<seq<byte>>, frames: seq<seq<byte>>)
    requires |gaps| == |frames| + 1
    ensures Wire([[]] + gaps, [x] + frames) == EncodeFrame(x) + Wire(gaps, frames)
  {
    assert ([[]] + gaps)[1..] == gaps && ([x] + frames)[1..] == frames;
    assert [] + EncodeFrame(x) == EncodeFrame(x);
  }

  lemma FrameInFront(limit: nat, x: seq<byte>, rest: seq<byte>,
                     gaps: seq<seq<byte>>, frames: seq<seq<byte>>, tail: Tail)
    requires Splits(limit, rest, gaps, frames, tail) && |x| <= limit
    ensures Splits(limit, EncodeFrame(x) + rest, [[]] + gaps, [x] + frames, tail)
  {
    hide Wire, EncodeFrame, TailBytes, TailFits;
    var gs: seq<seq<byte>>, fs := [[]] + gaps, [x] + frames;
    assert Gap([]);
    hide Gap;
    forall i | 0 <= i < |gs| ensures Gap(gs[i]) { if i > 0 { assert gs[i] == gaps[i - 1]; } }
    forall i | 0 <= i < |fs| ensures |fs[i]| <= limit { if i > 0 { assert fs[i] == frames[i - 1]; } }
    assert Wire(gs, fs) + TailBytes(tail) == EncodeFrame(x) + rest by {
      WireCons(x, gaps, frames);
      var e, w, b := EncodeFrame(x), Wire(gaps, frames), TailBytes(tail);
      assert e + w + b == e + (w + b);
    }
  }

  /** Every input splits into gaps, encoded frames and a tail. */
  lemma {:induction false} Decompose(limit: nat, s: seq<byte>)
    returns (gaps: seq<seq<byte>>, frames: seq<seq<byte>>, tail: Tail)
    ensures Splits(limit, s, gaps, frames, tail)
    decreases |s|
  {
    hide Splits, Escape, OpenBytes;
    if s == [] {
      gaps, frames, tail := [[]], [], Idle;
      TailOnly(limit, tail);
    } else if s == [DLE] {
      gaps, frames, tail := [[]], [], LoneDle;
      TailOnly(limit, tail);
    } else if s[0] == DLE && s[1] == STX {
      var end := ScanBody(limit, 0, s[2..]);
      assert s == [DLE, STX] + s[2..];
      if end.Closed? {
        gaps, frames, tail := Decompose(limit, end.rest);
        FrameInFront(limit, end.x, end.rest, gaps, frames, tail);
        assert s == EncodeFrame(end.x) + end.rest;
        gaps, frames := [[]] + gaps, [end.x] + frames;
      } else {
        tail := if end.Unclosed? then Open(end.x, end.dle) else Broken(end.x, end.bad, end.after, end.error);
        gaps, frames := [[]], [];
        TailOnly(limit, tail);
      }
    } else {
      var width := if s[0] == DLE then 2 else 1;
      gaps, frames, tail := Decompose(limit, s[width..]);
      gaps := SkippedInFront(limit, s[..width], s[width..], gaps, frames, tail);
      assert s == s[..width] + s[width..];
    }
  }

  // ---------------------------------------------------------------- main results

  lemma SplitIsParsed(limit: nat, s: seq<byte>, gaps: seq<seq<byte>>, frames: seq<seq<byte>>, tail: Tail)
    requires Splits(limit, s, gaps, frames, tail)
    ensures Run(limit, FRESH, s) == After(frames, TailOutcome(tail))
  {
    WireIsParsed(limit, gaps, frames);
    TailIsParsed(limit, tail);
    FeedSplits(limit, FRESH, Wire(gaps, frames), TailBytes(tail));
  }

  /** The exact language of the parser, for every outcome: a fresh parser ends in `o` if and
      only if the input is gaps, encodings of the emitted bodies, and a tail that ends in `o`. */
  lemma ParserLanguage(limit: nat, s: seq<byte>, o: Outcome)
    ensures Run(limit, FRESH, s) == o <==>
            exists gaps: seq<seq<byte>>, frames: seq<seq<byte>>, tail: Tail ::
              Splits(limit, s, gaps, frames, tail) && o == After(frames, TailOutcome(tail))
  {
    var gaps0, frames0, tail0 := Decompose(limit, s);
    SplitIsParsed(limit, s, gaps0, frames0, tail0);
    forall gaps, frames, tail | Splits(limit, s, gaps, frames, tail)
      ensures Run(limit, FRESH, s) == After(frames, TailOutcome(tail))
    {
      SplitIsParsed(limit, s, gaps, frames, tail);
    }
  }

  /** The round trip: any bodies within the limit, encoded with DLE-free noise around them and
      cut into chunks anywhere, come back exactly, and no partial frame remains. */
  lemma RoundTrip(limit: nat, noise: seq<seq<byte>>, bodies: seq<seq<byte>>, chunks: seq<seq<byte>>)
    requires |noise| == |bodies| + 1 && WithinLimit(limit, bodies)
    requires forall i :: 0 <= i < |noise| ==> DLE !in noise[i]
    requires Flatten(chunks) == Wire(noise, bodies)
    ensures RunChunks(limit, FRESH, chunks) == Continue(FRESH, bodies)
  {
    forall i | 0 <= i < |noise| ensures Gap(noise[i]) { DleFreeIsGap(noise[i]); }
    WireIsParsed(limit, noise, bodies);
    ChunkingIsIrrelevant(limit, FRESH, chunks);
  }

  /** Emitted bodies account for disjoint pieces of the input, in order, equal to their
      encodings; bodies and buffer stay within the limit. */
  lemma EmittedFramesAreInput(limit: nat, s: seq<byte>, next: Snapshot, frames: seq<seq<byte>>)
    requires Run(limit, FRESH, s) == Continue(next, frames)
    ensures exists gaps: seq<seq<byte>>, tail: Tail ::
              Splits(limit, s, gaps, frames, tail) && TailOutcome(tail) == Continue(next, [])
    ensures Reachable(limit, next) && WithinLimit(limit, frames)
  {
    var gaps, fs, tail := Decompose(limit, s);
    SplitIsParsed(limit, s, gaps, fs, tail);
    assert fs + [] == fs;
  }

  lemma {:induction false} EscapedRestIsGap(b: seq<byte>)
    ensures Gap(Escape(b) + [DLE, ETX])
    decreases |b|
  {
    var g := Escape(b) + [DLE, ETX];
    if b != [] {
      EscapedRestIsGap(b[1..]);
      assert g[if b[0] == DLE then 2 else 1..] == Escape(b[1..]) + [DLE, ETX];
    } else {
      assert g[2..] == [];
    }
  }

  /** A parser that waits for STX skips a frame. */
  lemma FrameIsSkipped(limit: nat, left: Snapshot, b: seq<byte>)
    requires left.state.WaitStx? && Reachable(limit, left)
    ensures Run(limit, left, EncodeFrame(b)) == Continue(FRESH, [])
  {
    var rest := [STX] + (Escape(b) + [DLE, ETX]);
    EscapedRestIsGap(b);
    assert rest[1..] == Escape(b) + [DLE, ETX];
    GapIsSkipped(limit, rest);
    RunOne(limit, left, DLE);
    FeedSplits(limit, left, [DLE], rest);
    assert EncodeFrame(b) == [DLE] + rest;
  }

  /** DLE-free is more than noise needs, but some condition is needed.  Noise that opens no
      frame leaves the parser waiting for DLE or for STX; the frame that follows is received if
      and only if it is the former, and in the latter case it is lost whole, whatever its body. */
  lemma FrameAfterNoise(limit: nat, noise: seq<byte>, left: Snapshot, b: seq<byte>)
    requires Run(limit, FRESH, noise) == Continue(left, []) && |b| <= limit
    requires left.state.WaitDle? || left.state.WaitStx?
    ensures Run(limit, FRESH, noise + EncodeFrame(b)) == Continue(FRESH, if left.state.WaitDle? then [b] else [])
  {
    EmittedFramesAreInput(limit, noise, left, []);
    FeedSplits(limit, FRESH, noise, EncodeFrame(b));
    hide Run, EncodeFrame;
    if left.state.WaitDle? {
      EncodedIsEmitted(limit, b);
    } else {
      FrameIsSkipped(limit, left, b);
    }
  }

  // ---------------------------------------------------------------- frames as bytes

  lemma {:induction false} EscapeConcat(a: seq<byte>, b: seq<byte>)
    ensures Escape(a + b) == Escape(a) + Escape(b)
    decreases |a|
  {
    if a == [] {
      assert a + b == b;
    } else {
      EscapeConcat(a[1..], b);
      assert (a + b)[1..] == a[1..] + b;
    }
  }

  lemma {:induction false} PlainIsKept(a: seq<byte>)
    requires 0x10 !in a
    ensures Escape(a) == a
    decreases |a|
  {
    if a != [] { PlainIsKept(a[1..]); }
  }

  lemma EscapeDoubles(plain: seq<byte>, rest: seq<byte>)
    requires 0x10 !in plain
    ensures Escape(plain + [0x10] + rest) == plain + [0x10, 0x10] + Escape(rest)
  {
    PlainIsKept(plain);
    assert Escape([0x10]) == [0x10, 0x10] + Escape([0x10][1..]) == [0x10, 0x10];
    hide Escape;
    EscapeConcat(plain + [0x10], rest);
    EscapeConcat(plain, [0x10]);
  }

  lemma Regrouped(a: seq<byte>, b: seq<byte>, c: seq<byte>, d: seq<byte>)
    ensures a + (b + c) + d == a + b + (c + d) && (a + c + d)[|a|..] == c + d
  {
  }

  /** A frame is 10 02, the body with every 10 sent twice, and 10 03. */
  lemma FrameBytes(plain: seq<byte>, rest: seq<byte>)
    requires 0x10 !in plain
    ensures EncodeFrame(plain) == [0x10, 0x02] + plain + [0x10, 0x03]
    ensures EncodeFrame(plain + [0x10] + rest) == [0x10, 0x02] + (plain + [0x10, 0x10]) + EncodeFrame(rest)[2..]
  {
    PlainIsKept(plain);
    EscapeDoubles(plain, rest);
    hide Escape;
    Regrouped([0x10, 0x02], plain + [0x10, 0x10], Escape(rest), [0x10, 0x03]);
  }

  lemma ByteTooMany(limit: nat, x: seq<byte>, v: byte, rest: seq<byte>)
    requires |x| == limit
    ensures Run(limit, Snapshot(InBody, x), Escaped(v) + rest) == Raise(FrameTooLarge)
  {
    BadBytesRaise(limit, x, Escaped(v), FrameTooLarge);
    hide Run;
    FeedSplits(limit, Snapshot(InBody, x), Escaped(v), rest);
  }

  lemma LongBodyRaises(limit: nat, b: seq<byte>)
    requires |b| > limit
    ensures Run(limit, Snapshot(InBody, []), Escape(b)) == Raise(FrameTooLarge)
  {
    var x, v, rest := b[..limit], b[limit], b[limit + 1..];
    assert [] + x == x && b == x + ([v] + rest);
    assert Escape([v] + rest) == Escaped(v) + Escape(rest) by { assert ([v] + rest)[1..] == rest; }
    hide Run, Escape, Escaped;
    EscapedIsCollected(limit, [], x);
    EscapeConcat(x, [v] + rest);
    ByteTooMany(limit, x, v, Escape(rest));
    FeedSplits(limit, Snapshot(InBody, []), Escape(x), Escaped(v) + Escape(rest));
  }

  lemma LongFrameRaises(limit: nat, b: seq<byte>)
    requires |b| > limit
    ensures Run(limit, FRESH, EncodeFrame(b)) == Raise(FrameTooLarge)
  {
    LongBodyRaises(limit, b);
    FeedSplits(limit, Snapshot(InBody, []), Escape(b), [DLE, ETX]);
    OpeningOpens(limit, Escape(b) + [DLE, ETX]);
    assert EncodeFrame(b) == [DLE, STX] + (Escape(b) + [DLE, ETX]);
  }

  /** A waiting parser receives a frame exactly if its body is within the limit, and raises
      otherwise; the application's limit is 1024 bytes. */
  lemma FrameOrTooLarge(limit: nat, b: seq<byte>)
    ensures Run(limit, FRESH, EncodeFrame(b)) ==
            if |b| <= limit then Continue(FRESH, [b]) else Raise(FrameTooLarge)
    ensures Run(APP_DECODED_BODY_LIMIT, FRESH, EncodeFrame(b)).Continue? <==> |b| <= 1024
  {
    if |b| <= limit { EncodedIsEmitted(limit, b); } else { LongFrameRaises(limit, b); }
    if |b| <= 1024 { EncodedIsEmitted(1024, b); } else { LongFrameRaises(1024, b); }
    hide Run, EncodeFrame;
  }

  // ---------------------------------------------------------------- one frame at a time

  /** Exactly one frame, with nothing but gaps around it. */
  ghost predicate IsOneFrame(limit: nat, frame: seq<byte>, body: seq<byte>) {
    && |body| <= limit
    && exists before: seq<byte>, after: seq<byte> ::
         Gap(before) && Gap(after) && frame == before + EncodeFrame(body) + after
  }

  lemma OneWire(before: seq<byte>, body: seq<byte>, after: seq<byte>)
    ensures Wire([before, after], [body]) == before + EncodeFrame(body) + after
  {
    assert [before, after][1..] == [after] && [body][1..] == [];
  }

  lemma OneFrameIff(limit: nat, frame: seq<byte>, body: seq<byte>)
    ensures IsOneFrame(limit, frame, body) <==> Run(limit, FRESH, frame) == Continue(FRESH, [body])
  {
    if IsOneFrame(limit, frame, body) {
      var before, after :| Gap(before) && Gap(after) && frame == before + EncodeFrame(body) + after;
      OneWire(before, body, after);
      WireIsParsed(limit, [before, after], [body]);
    }
    if Run(limit, FRESH, frame) == Continue(FRESH, [body]) {
      EmittedFramesAreInput(limit, frame, FRESH, [body]);
      var gaps, tail :| Splits(limit, frame, gaps, [body], tail) && TailOutcome(tail) == Continue(FRESH, []);
      assert tail.Idle? && gaps == [gaps[0], gaps[1]];
      OneWire(gaps[0], body, gaps[1]);
      assert Wire(gaps, [body]) + [] == frame;
      assert Gap(gaps[0]) && Gap(gaps[1]) && frame == gaps[0] + EncodeFrame(body) + gaps[1];
    }
  }

  /** decode_frame: succeeds with a body exactly when the input is its encoding with gaps around
      it, and with no other body. */
  method DecodeFrame(frame: seq<byte>, maxBodySize: int) returns (r: Result<seq<byte>, FrameError>)
    ensures maxBodySize <= 0 ==> r == Failure(ValueError)
    ensures maxBodySize > 0 ==> forall body :: r == Success(body) <==> IsOneFrame(maxBodySize, frame, body)
    ensures maxBodySize > 0 && r.Failure? ==>
              match Run(maxBodySize, FRESH, frame)
              case Raise(e) => r.error == e
              case Continue(n, frames) =>
                if n.state.WaitDle? then r.error == MalformedFrame && |frames| != 1 else r.error == IncompleteFrame
  {
    if maxBodySize <= 0 {
      return Failure(ValueError);
    }
    var parser := new StreamFrameParser(maxBodySize);
    forall body
      ensures IsOneFrame(maxBodySize, frame, body) <==> Run(maxBodySize, FRESH, frame) == Continue(FRESH, [body])
    {
      OneFrameIff(maxBodySize, frame, body);
    }
    hide IsOneFrame, Run, Gap, EncodeFrame;
    var frames :- parser.Feed(frame);
    if parser.HasPartialFrame() {
      return Failure(IncompleteFrame);
    }
    if |frames| != 1 {
      return Failure(MalformedFrame);
    }
    return Success(frames[0]);
  }
}
