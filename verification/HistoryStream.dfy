/** Recovering history from a chopped byte stream (run_history in tools/til90_cli.py). */
module HistoryStream {
  import opened Common
  import opened BitNumbers
  import opened Framing
  import opened FramingTheorems
  import opened Messages

  const END_OF_RECOVER_DATA := 0x0080

  datatype Record = Record(captureId: byte, outerBody: seq<byte>, innerBody: seq<byte>)

  datatype Limits = Limits(expectedNode: Option<nat>, maxRecords: nat, maxBytes: nat)

  /** What has been collected from the frames so far. */
  datatype Collected = Collected(records: seq<Record>, unexpected: seq<seq<byte>>)

  const NOTHING := Collected([], [])

  /** How a frame or a whole list of frames ends a recovery, or that it does not. */
  datatype Scanned =
    | Pending(so: Collected)
    | Ended(code: nat, final: Collected)
    | WrongNode(actual: nat)
    | TooManyRecords
    | Raised(error: FrameError)

  datatype HistoryResult =
    | Answered(code: nat, got: Collected, totalBytes: nat)
    | IdentityError(actual: nat)
    | RecordLimit
    | ByteLimit(totalBytes: nat)
    | Timeout(got: Collected)
    | Failed(error: FrameError)
  {
    /** status "ok" */
    predicate Ok() {
      Answered? && code == END_OF_RECOVER_DATA
    }
  }

  // ---------------------------------------------------------------- specification

  function ScanFrame(limits: Limits, so: Collected, body: seq<byte>): Scanned {
    match ParseHeader(body)
    case Failure(e) => Raised(e)
    case Success(header) =>
      if limits.expectedNode.Some? && header.nodeId != limits.expectedNode.value then WrongNode(header.nodeId)
      else if header.amType == 0x00 then
        match DecodeResponseCode(body)
        case Failure(e) => Raised(e)
        case Success(code) => Ended(code, so)
      else if header.amType != 0x01 then Pending(so.(unexpected := so.unexpected + [body]))
      else if |so.records| >= limits.maxRecords then TooManyRecords
      else
        match UnwrapRecoveredMessage(body)
        case Failure(e) => Raised(e)
        case Success((captureId, inner)) =>
          match ParseHeader(inner)
          case Failure(e) => Raised(e)
          case Success(_) => Pending(so.(records := so.records + [Record(captureId, body, inner)]))
  }

  function Scan(limits: Limits, so: Collected, frames: seq<seq<byte>>): Scanned
    decreases |frames|
  {
    if frames == [] then Pending(so)
    else
      var first := ScanFrame(limits, so, frames[0]);
      if first.Pending? then Scan(limits, first.so, frames[1..]) else first
  }

  /** The result of reading `chunks` until the deadline, from a parser, a byte count and what has
      been collected. */
  function History(limits: Limits, s: Snapshot, total: nat, so: Collected, chunks: seq<seq<byte>>): HistoryResult
    decreases |chunks|
  {
    if chunks == [] then Timeout(so)
    else if chunks[0] == [] then History(limits, s, total, so, chunks[1..])
    else if total + |chunks[0]| > limits.maxBytes then ByteLimit(total + |chunks[0]|)
    else
      match Run(APP_DECODED_BODY_LIMIT, s, chunks[0])
      case Raise(e) => Failed(e)
      case Continue(next, frames) =>
        match Scan(limits, so, frames)
        case Pending(more) => History(limits, next, total + |chunks[0]|, more, chunks[1..])
        case Ended(code, final) => Answered(code, final, total + |chunks[0]|)
        case WrongNode(actual) => IdentityError(actual)
        case TooManyRecords => RecordLimit
        case Raised(e) => Failed(e)
  }

  // ---------------------------------------------------------------- the loop

  /** The inner loop, over the frames of one read. */
  method ScanBodies(limits: Limits, records0: seq<Record>, unexpected0: seq<seq<byte>>, frames: seq<seq<byte>>)
    returns (records: seq<Record>, unexpected: seq<seq<byte>>, end: Scanned)
    ensures end == Scan(limits, Collected(records0, unexpected0), frames)
    ensures end.Pending? ==> end.so == Collected(records, unexpected)
  {
    records, unexpected := records0, unexpected0;
    for j := 0 to |frames|
      invariant Scan(limits, Collected(records0, unexpected0), frames)
                == Scan(limits, Collected(records, unexpected), frames[j..])
    {
      hide CheckedHeader;
      var body := frames[j];
      assert frames[j..][1..] == frames[j + 1..];
      var parsed := ParseHeader(body);
      if parsed.Failure? {
        return records, unexpected, Raised(parsed.error);
      }
      var header := parsed.value;
      hide ParseHeader;
      if limits.expectedNode.Some? && header.nodeId != limits.expectedNode.value {
        return records, unexpected, WrongNode(header.nodeId);
      }
      if header.amType == 0x00 {
        var code := DecodeResponseCode(body);
        if code.Failure? {
          return records, unexpected, Raised(code.error);
        }
        return records, unexpected, Ended(code.value, Collected(records, unexpected));
      }
      if header.amType != 0x01 {
        unexpected := unexpected + [body];
      } else {
        if |records| >= limits.maxRecords {
          return records, unexpected, TooManyRecords;
        }
        var unwrapped := UnwrapRecoveredMessage(body);
        if unwrapped.Failure? {
          return records, unexpected, Raised(unwrapped.error);
        }
        var (captureId, inner) := unwrapped.value;
        var innerHeader := ParseHeader(inner);
        if innerHeader.Failure? {
          return records, unexpected, Raised(innerHeader.error);
        }
        records := records + [Record(captureId, body, inner)];
      }
    }
    return records, unexpected, Pending(Collected(records, unexpected));
  }

  /** Consumes reads until a frame ends the recovery or the deadline passes. */
  method RunHistory(limits: Limits, chunks: seq<seq<byte>>) returns (r: HistoryResult)
    ensures r == History(limits, FRESH, 0, NOTHING, chunks)
  {
    var parser := new StreamFrameParser(APP_DECODED_BODY_LIMIT);
    var records: seq<Record> := [];
    var unexpected: seq<seq<byte>> := [];
    var totalRxBytes: nat := 0;
    var i := 0;
    while i < |chunks|
      invariant 0 <= i <= |chunks| && parser.Valid() && fresh(parser)
      invariant parser.maxBodySize == APP_DECODED_BODY_LIMIT
      invariant History(limits, FRESH, 0, NOTHING, chunks)
                == History(limits, parser.Snap(), totalRxBytes, Collected(records, unexpected), chunks[i..])
    {
      hide Run, ScanFrame;
      var chunk := chunks[i];
      assert chunks[i..][1..] == chunks[i + 1..];
      i := i + 1;
      if chunk != [] {
        totalRxBytes := totalRxBytes + |chunk|;
        if totalRxBytes > limits.maxBytes {
          return ByteLimit(totalRxBytes);
        }
        var fed := parser.Feed(chunk);
        if fed.Failure? {
          return Failed(fed.error);
        }
        var end;
        records, unexpected, end := ScanBodies(limits, records, unexpected, fed.value);
        match end {
          case Pending(_) =>
          case Ended(code, final) => return Answered(code, final, totalRxBytes);
          case WrongNode(actual) => return IdentityError(actual);
          case TooManyRecords => return RecordLimit;
          case Raised(e) => return Failed(e);
        }
      }
    }
    return Timeout(Collected(records, unexpected));
  }

  // ---------------------------------------------------------------- every end of a recovery

  lemma {:induction false} ScanSplits(limits: Limits, so: Collected, a: seq<seq<byte>>, b: seq<seq<byte>>)
    ensures Scan(limits, so, a + b)
            == match Scan(limits, so, a)
               case Pending(more) => Scan(limits, more, b)
               case other => other
    decreases |a|
  {
    hide ScanFrame;
    if a == [] {
      assert a + b == b;
    } else {
      assert (a + b)[1..] == a[1..] + b && (a + b)[0] == a[0];
      var first := ScanFrame(limits, so, a[0]);
      if first.Pending? { ScanSplits(limits, first.so, a[1..], b); }
    }
  }

  lemma {:induction false} FlattenAppend(chunks: seq<seq<byte>>, chunk: seq<byte>)
    ensures Flatten(chunks + [chunk]) == Flatten(chunks) + chunk
    decreases |chunks|
  {
    if chunks == [] {
      assert [chunk][1..] == [] && chunks + [chunk] == [chunk];
    } else {
      FlattenAppend(chunks[1..], chunk);
      assert (chunks + [chunk])[1..] == chunks[1..] + [chunk];
    }
  }

  lemma EmptyRun(limit: nat, s: Snapshot)
    ensures Run(limit, s, []) == Continue(s, [])
  {
  }

  /** What a result says of the first `k` reads: the bytes, their frames, and what these came to. */
  ghost predicate Stopped(limits: Limits, chunks: seq<seq<byte>>, k: nat, r: HistoryResult) {
    && k <= |chunks|
    && var bytes := Flatten(chunks[..k]);
       var ran := Run(APP_DECODED_BODY_LIMIT, FRESH, bytes);
       match r
       case Answered(code, got, total) =>
         ran.Continue? && Scan(limits, NOTHING, ran.frames) == Ended(code, got)
         && total == |bytes| <= limits.maxBytes
       case Timeout(got) => k == |chunks| && ran.Continue? && Scan(limits, NOTHING, ran.frames) == Pending(got)
       case ByteLimit(total) => total == |bytes| > limits.maxBytes
       case IdentityError(actual) => ran.Continue? && Scan(limits, NOTHING, ran.frames) == WrongNode(actual)
       case RecordLimit => ran.Continue? && Scan(limits, NOTHING, ran.frames) == TooManyRecords
       case Failed(e) => ran == Raise(e) || (ran.Continue? && Scan(limits, NOTHING, ran.frames) == Raised(e))
  }

  /** What is known before read `i`. */
  ghost predicate PendingAt(limits: Limits, chunks: seq<seq<byte>>, i: nat, s: Snapshot, frames: seq<seq<byte>>,
                            so: Collected, total: nat) {
    && i <= |chunks| && Run(APP_DECODED_BODY_LIMIT, FRESH, Flatten(chunks[..i])) == Continue(s, frames)
    && Scan(limits, NOTHING, frames) == Pending(so) && total == |Flatten(chunks[..i])|
  }

  lemma ReadOne(limits: Limits, chunks: seq<seq<byte>>, i: nat, s: Snapshot, frames: seq<seq<byte>>, so: Collected,
                total: nat)
    requires PendingAt(limits, chunks, i, s, frames, so, total) && i < |chunks|
    ensures var ran := Run(APP_DECODED_BODY_LIMIT, s, chunks[i]);
            && |Flatten(chunks[..i + 1])| == total + |chunks[i]|
            && (ran.Raise? ==> Run(APP_DECODED_BODY_LIMIT, FRESH, Flatten(chunks[..i + 1])) == ran)
            && (ran.Continue? ==>
                  && Run(APP_DECODED_BODY_LIMIT, FRESH, Flatten(chunks[..i + 1]))
                     == Continue(ran.next, frames + ran.frames)
                  && Scan(limits, NOTHING, frames + ran.frames) == Scan(limits, so, ran.frames))
            && (chunks[i] == [] ==> ran == Continue(s, []))
  {
    var chunk := chunks[i];
    assert chunks[..i + 1] == chunks[..i] + [chunk];
    FlattenAppend(chunks[..i], chunk);
    FeedSplits(APP_DECODED_BODY_LIMIT, FRESH, Flatten(chunks[..i]), chunk);
    EmptyRun(APP_DECODED_BODY_LIMIT, s);
    hide Run, ScanFrame, Flatten, Scan;
    var ran := Run(APP_DECODED_BODY_LIMIT, s, chunk);
    if ran.Continue? { ScanSplits(limits, NOTHING, frames, ran.frames); }
  }

  lemma LastRead(limits: Limits, chunks: seq<seq<byte>>, i: nat, s: Snapshot, frames: seq<seq<byte>>, so: Collected,
                 total: nat)
    requires PendingAt(limits, chunks, i, s, frames, so, total) && i < |chunks| && chunks[i] != []
    requires var ran := Run(APP_DECODED_BODY_LIMIT, s, chunks[i]);
             total + |chunks[i]| > limits.maxBytes || ran.Raise? || !Scan(limits, so, ran.frames).Pending?
    ensures Stopped(limits, chunks, i + 1, History(limits, s, total, so, chunks[i..]))
  {
    ReadOne(limits, chunks, i, s, frames, so, total);
    assert chunks[i..][0] == chunks[i];
    hide Run, ScanFrame, Flatten, Scan, PendingAt;
  }

  /** A read leads to the next one, or to the end. */
  lemma {:induction false} Stops(limits: Limits, chunks: seq<seq<byte>>, i: nat, s: Snapshot, frames: seq<seq<byte>>,
                                 so: Collected, total: nat) returns (k: nat)
    requires PendingAt(limits, chunks, i, s, frames, so, total)
    ensures Stopped(limits, chunks, k, History(limits, s, total, so, chunks[i..]))
    decreases |chunks| - i
  {
    hide Run, ScanFrame, Flatten, Scan;
    if i == |chunks| {
      k := i;
    } else {
      var chunk, ran := chunks[i], Run(APP_DECODED_BODY_LIMIT, s, chunks[i]);
      assert chunks[i..][1..] == chunks[i + 1..] && chunks[i..][0] == chunk;
      ReadOne(limits, chunks, i, s, frames, so, total);
      hide Stopped;
      if chunk == [] {
        assert frames + [] == frames;
        k := Stops(limits, chunks, i + 1, s, frames, so, total);
      } else if total + |chunk| > limits.maxBytes || ran.Raise? || !Scan(limits, so, ran.frames).Pending? {
        k := i + 1;
        LastRead(limits, chunks, i, s, frames, so, total);
      } else {
        var more := Scan(limits, so, ran.frames).so;
        k := Stops(limits, chunks, i + 1, ran.next, frames + ran.frames, more, total + |chunk|);
      }
    }
  }

  /** Every result, not only an answer, is that of some first reads taken together: what the frames in
      them come to, or the error that they raise, or that they are too long. */
  lemma EveryResultIsStream(limits: Limits, chunks: seq<seq<byte>>)
    ensures exists k: nat :: Stopped(limits, chunks, k, History(limits, FRESH, 0, NOTHING, chunks))
  {
    assert chunks[..0] == [] && chunks[0..] == chunks;
    var k := Stops(limits, chunks, 0, FRESH, [], NOTHING, 0);
  }

  // ---------------------------------------------------------------- what "ok" means

  predicate IsType(body: seq<byte>, amType: byte) {
    ParseHeader(body).Success? && ParseHeader(body).value.amType == amType
  }

  predicate FromNode(body: seq<byte>, node: Option<nat>) {
    ParseHeader(body).Success? && (node.Some? ==> ParseHeader(body).value.nodeId == node.value)
  }

  /** The frames of one type, in order. */
  function OfType(frames: seq<seq<byte>>, amType: byte): seq<seq<byte>> {
    if frames == [] then []
    else (if IsType(frames[0], amType) then [frames[0]] else []) + OfType(frames[1..], amType)
  }

  /** The frames that are neither responses nor recovered messages, in order. */
  function Others(frames: seq<seq<byte>>): seq<seq<byte>> {
    if frames == [] then []
    else (if IsType(frames[0], 0x00) || IsType(frames[0], 0x01) then [] else [frames[0]]) + Others(frames[1..])
  }

  /** One record for each wrapper frame, in order. */
  predicate Unwrapped(records: seq<Record>, wrappers: seq<seq<byte>>) {
    && |records| == |wrappers|
    && forall i :: 0 <= i < |records| ==>
         && records[i].outerBody == wrappers[i]
         && UnwrapRecoveredMessage(wrappers[i]) == Success((records[i].captureId, records[i].innerBody))
  }

  /** Frame `n` is the first response; it carries `code`; every frame up to it parses and comes
      from the expected node; what has been collected are the recovered messages before it and the
      frames of other types. */
  ghost predicate EndsAt(limits: Limits, frames: seq<seq<byte>>, n: nat, code: nat, got: Collected) {
    && n < |frames|
    && DecodeResponseCode(frames[n]) == Success(code)
    && (forall i :: 0 <= i < n ==> !IsType(frames[i], 0x00))
    && (forall i :: 0 <= i <= n ==> FromNode(frames[i], limits.expectedNode))
    && Unwrapped(got.records, OfType(frames[..n], 0x01)) && got.unexpected == Others(frames[..n])
    && |got.records| <= limits.maxRecords
  }

  lemma {:induction false} OfTypeAppend(frames: seq<seq<byte>>, body: seq<byte>, amType: byte)
    ensures OfType(frames + [body], amType)
            == OfType(frames, amType) + if IsType(body, amType) then [body] else []
    decreases |frames|
  {
    hide IsType;
    if frames == [] {
      assert [body][1..] == [] && frames + [body] == [body];
    } else {
      OfTypeAppend(frames[1..], body, amType);
      assert (frames + [body])[1..] == frames[1..] + [body];
    }
  }

  lemma {:induction false} OthersAppend(frames: seq<seq<byte>>, body: seq<byte>)
    ensures Others(frames + [body])
            == Others(frames) + if IsType(body, 0x00) || IsType(body, 0x01) then [] else [body]
    decreases |frames|
  {
    hide IsType;
    if frames == [] {
      assert [body][1..] == [] && frames + [body] == [body];
    } else {
      OthersAppend(frames[1..], body);
      assert (frames + [body])[1..] == frames[1..] + [body];
    }
  }

  /** The scan, from a point where `done` frames have been passed. */
  lemma {:induction false} ScanEnds(limits: Limits, so: Collected, done: seq<seq<byte>>, frames: seq<seq<byte>>)
    returns (n: nat)
    requires Scan(limits, so, frames).Ended?
    requires forall i :: 0 <= i < |done| ==> !IsType(done[i], 0x00) && FromNode(done[i], limits.expectedNode)
    requires Unwrapped(so.records, OfType(done, 0x01)) && so.unexpected == Others(done)
    requires |so.records| <= limits.maxRecords
    ensures EndsAt(limits, done + frames, n, Scan(limits, so, frames).code, Scan(limits, so, frames).final)
    decreases |frames|
  {
    var body := frames[0];
    var first := ScanFrame(limits, so, body);
    if first.Ended? {
      n := |done|;
      assert (done + frames)[..n] == done;
    } else {
      OfTypeAppend(done, body, 0x01);
      OthersAppend(done, body);
      var done' := done + [body];
      assert done' + frames[1..] == done + frames;
      hide UnwrapRecoveredMessage, ParseHeader;
      n := ScanEnds(limits, first.so, done', frames[1..]);
    }
  }

  /** The part of the reads a result has consumed, and the frames in it. */
  ghost predicate Consumed(limits: Limits, chunks: seq<seq<byte>>, r: HistoryResult, k: nat, next: Snapshot,
                           frames: seq<seq<byte>>)
  {
    && k <= |chunks| && r.Answered?
    && Run(APP_DECODED_BODY_LIMIT, FRESH, Flatten(chunks[..k])) == Continue(next, frames)
    && Scan(limits, NOTHING, frames) == Ended(r.code, r.got)
    && r.totalBytes == |Flatten(chunks[..k])| <= limits.maxBytes
  }

  lemma WholeAnswer(limits: Limits, chunks: seq<seq<byte>>) returns (k: nat, next: Snapshot, frames: seq<seq<byte>>)
    requires History(limits, FRESH, 0, NOTHING, chunks).Answered?
    ensures Consumed(limits, chunks, History(limits, FRESH, 0, NOTHING, chunks), k, next, frames)
  {
    assert chunks[..0] == [] && chunks[0..] == chunks;
    k := Stops(limits, chunks, 0, FRESH, [], NOTHING, 0);
    var ran := Run(APP_DECODED_BODY_LIMIT, FRESH, Flatten(chunks[..k]));
    next, frames := ran.next, ran.frames;
  }

  /** An answered recovery is exactly the decoded stream up to its first response: the response
      gives the code, every frame before it comes from the expected node, the records are the
      recovered messages in order and one for one, and both limits hold. */
  lemma AnswerIsStream(limits: Limits, chunks: seq<seq<byte>>)
    requires History(limits, FRESH, 0, NOTHING, chunks).Answered?
    ensures var r := History(limits, FRESH, 0, NOTHING, chunks);
            exists k: nat, next: Snapshot, frames: seq<seq<byte>>, n: nat ::
              Consumed(limits, chunks, r, k, next, frames) && EndsAt(limits, frames, n, r.code, r.got)
  {
    var k, next, frames := WholeAnswer(limits, chunks);
    var n := ScanEnds(limits, NOTHING, [], frames);
    assert [] + frames == frames;
  }

  lemma LongerScan(limits: Limits, a: seq<byte>, b: seq<byte>, s: Snapshot, fs: seq<seq<byte>>,
                   t: Snapshot, gs: seq<seq<byte>>)
    requires a <= b && Scan(limits, NOTHING, fs).Ended?
    requires Run(APP_DECODED_BODY_LIMIT, FRESH, a) == Continue(s, fs)
    requires Run(APP_DECODED_BODY_LIMIT, FRESH, b) == Continue(t, gs)
    ensures Scan(limits, NOTHING, gs) == Scan(limits, NOTHING, fs)
  {
    var rest := b[|a|..];
    assert b == a + rest;
    FeedSplits(APP_DECODED_BODY_LIMIT, FRESH, a, rest);
    hide Run, Scan;
    ScanSplits(limits, NOTHING, fs, Run(APP_DECODED_BODY_LIMIT, s, rest).frames);
  }

  lemma {:induction false} FlattenTake(chunks: seq<seq<byte>>, k: nat)
    requires k <= |chunks|
    ensures Flatten(chunks[..k]) <= Flatten(chunks)
    decreases k
  {
    if k > 0 {
      FlattenTake(chunks[1..], k - 1);
      assert chunks[..k][1..] == chunks[1..][..k - 1];
    }
  }

  /** How a stream is cut into reads has no bearing on an answer: two cuts of one stream, or of
      streams of which one is the start of the other, give the same code and the same records. */
  lemma CutsAgree(limits: Limits, chunks: seq<seq<byte>>, others: seq<seq<byte>>)
    requires Flatten(chunks) <= Flatten(others)
    requires History(limits, FRESH, 0, NOTHING, chunks).Answered?
    requires History(limits, FRESH, 0, NOTHING, others).Answered?
    ensures History(limits, FRESH, 0, NOTHING, chunks).code == History(limits, FRESH, 0, NOTHING, others).code
    ensures History(limits, FRESH, 0, NOTHING, chunks).got == History(limits, FRESH, 0, NOTHING, others).got
  {
    var k, next, frames := WholeAnswer(limits, chunks);
    var m, next', frames' := WholeAnswer(limits, others);
    var a, b := Flatten(chunks[..k]), Flatten(others[..m]);
    FlattenTake(chunks, k);
    FlattenTake(others, m);
    hide Run, Scan, History;
    if |a| <= |b| {
      assert a <= b;
      LongerScan(limits, a, b, next, frames, next', frames');
    } else {
      assert b <= a;
      LongerScan(limits, b, a, next', frames', next, frames);
    }
  }

  lemma {:induction false} OfTypeMember(frames: seq<seq<byte>>, amType: byte, i: nat) returns (j: nat)
    requires i < |OfType(frames, amType)|
    ensures j < |frames| && frames[j] == OfType(frames, amType)[i]
    decreases |frames|
  {
    hide IsType;
    var own := if IsType(frames[0], amType) then 1 else 0;
    if i < own {
      j := 0;
    } else {
      j := OfTypeMember(frames[1..], amType, i - own);
      j := j + 1;
    }
  }

  /** Every recovered message of an answer names the expected node itself, not only its wrapper. */
  lemma RecordsNameTheNode(limits: Limits, frames: seq<seq<byte>>, n: nat, code: nat, got: Collected)
    requires EndsAt(limits, frames, n, code, got)
    ensures forall i :: 0 <= i < |got.records| ==> FromNode(got.records[i].innerBody, limits.expectedNode)
  {
    var records := got.records;
    var wrappers := OfType(frames[..n], 0x01);
    forall i | 0 <= i < |records| ensures FromNode(records[i].innerBody, limits.expectedNode) {
      var j := OfTypeMember(frames[..n], 0x01, i);
      assert frames[..n][j] == frames[j];
      UnwrapUndoesWrap(wrappers[i], records[i].captureId, records[i].innerBody);
    }
  }

  // ---------------------------------------------------------------- frames as bytes

  lemma InnerParses(body: seq<byte>, inner: seq<byte>)
    requires ParseHeader(body).Success? && |inner| >= 6 && inner[..5] == body[..5]
    ensures ParseHeader(inner).Success?
  {
    assert inner[0] == inner[..5][0] == body[..5][0];
  }

  /** What a frame does to the scan, told by its header and its bytes: another node is an error; a
      response ends the recovery with its first two bytes as the code, high byte first; a recovered
      message gives its capture ID and, without it, the message behind the same header; any other
      frame is kept aside. */
  lemma FrameDecides(limits: Limits, so: Collected, h: Header, payload: seq<byte>)
    requires h.InRange() && h.version == 4
    ensures var body := HeaderBytes(h) + payload;
            ScanFrame(limits, so, body) ==
              if limits.expectedNode.Some? && limits.expectedNode.value != h.nodeId then WrongNode(h.nodeId)
              else if h.amType == 0x00 then
                if |payload| < 2 then Raised(IncompleteFrame)
                else Ended(payload[0] as int * 256 + payload[1] as int, so)
              else if h.amType != 0x01 then Pending(so.(unexpected := so.unexpected + [body]))
              else if |so.records| >= limits.maxRecords then TooManyRecords
              else if |payload| < 2 then Raised(IncompleteFrame)
              else
                var inner := HeaderBytes(h)[..5] + payload[1..];
                Pending(so.(records := so.records + [Record(payload[0], body, inner)]))
  {
    var body := HeaderBytes(h) + payload;
    HeaderRoundTrip(body, true, h);
    assert |HeaderBytes(h)| == 6 && HeaderBytes(h)[5] == h.amType;
    hide HeaderBytes;
    if |payload| >= 2 {
      assert body[6..8] == [payload[0], payload[1]];
      BigEndianOfTwo(payload[0], payload[1]);
      var inner := HeaderBytes(h)[..5] + payload[1..];
      assert body[..5] == HeaderBytes(h)[..5] && body[7..] == payload[1..];
      hide BigEndian;
      InnerParses(body, inner);
    }
    hide ParseHeader, BigEndian;
  }

  // ---------------------------------------------------------------- recovering a whole log

  /** A stream that parses and whose frames end the recovery is answered, however it is cut, as
      long as the byte limit covers it. */
  lemma {:induction false} ParsedStreamIsAnswered(limits: Limits, s: Snapshot, total: nat, so: Collected,
                                                  chunks: seq<seq<byte>>, t: Snapshot, frames: seq<seq<byte>>)
    requires Run(APP_DECODED_BODY_LIMIT, s, Flatten(chunks)) == Continue(t, frames)
    requires Scan(limits, so, frames).Ended? && total + |Flatten(chunks)| <= limits.maxBytes
    ensures var r := History(limits, s, total, so, chunks);
            r.Answered? && Scan(limits, so, frames) == Ended(r.code, r.got)
    decreases |chunks|
  {
    if chunks != [] {
      var chunk, rest := chunks[0], Flatten(chunks[1..]);
      FeedSplits(APP_DECODED_BODY_LIMIT, s, chunk, rest);
      if chunk == [] {
        assert [] + rest == rest;
        ParsedStreamIsAnswered(limits, s, total, so, chunks[1..], t, frames);
      } else {
        var first := Run(APP_DECODED_BODY_LIMIT, s, chunk);
        var second := Run(APP_DECODED_BODY_LIMIT, first.next, rest);
        ScanSplits(limits, so, first.frames, second.frames);
        hide Run, ScanFrame;
        var scanned := Scan(limits, so, first.frames);
        if scanned.Pending? {
          ParsedStreamIsAnswered(limits, first.next, total + |chunk|, scanned.so, chunks[1..], t, second.frames);
        }
      }
    }
  }

  /** A logged message the device can send: its header parses, names the node, and its wrapper
      fits a frame. */
  predicate Sendable(limits: Limits, inner: seq<byte>) {
    FromNode(inner, limits.expectedNode) && |inner| + 2 <= APP_DECODED_BODY_LIMIT
  }

  function Wrappers(captureId: byte, log: seq<seq<byte>>): seq<seq<byte>>
    requires forall i :: 0 <= i < |log| ==> |log[i]| >= HEADER_SIZE
  {
    seq(|log|, i requires 0 <= i < |log| => WrapRecoveredMessage(captureId, log[i]))
  }

  function RecordsOf(captureId: byte, log: seq<seq<byte>>): seq<Record>
    requires forall i :: 0 <= i < |log| ==> |log[i]| >= HEADER_SIZE
  {
    seq(|log|, i requires 0 <= i < |log| => Record(captureId, WrapRecoveredMessage(captureId, log[i]), log[i]))
  }

  lemma WrapperIsScanned(limits: Limits, so: Collected, captureId: byte, inner: seq<byte>)
    requires Sendable(limits, inner) && |inner| >= HEADER_SIZE && |so.records| < limits.maxRecords
    ensures var body := WrapRecoveredMessage(captureId, inner);
            ScanFrame(limits, so, body) == Pending(so.(records := so.records + [Record(captureId, body, inner)]))
  {
    UnwrapUndoesWrap(WrapRecoveredMessage(captureId, inner), captureId, inner);
    assert WrapRecoveredMessage(captureId, inner)[5] == 0x01;
    hide WrapRecoveredMessage;
  }

  lemma {:induction false} LogIsScanned(limits: Limits, so: Collected, captureId: byte, log: seq<seq<byte>>)
    requires forall i :: 0 <= i < |log| ==> Sendable(limits, log[i]) && |log[i]| >= HEADER_SIZE
    requires |so.records| + |log| <= limits.maxRecords
    ensures Scan(limits, so, Wrappers(captureId, log))
            == Pending(so.(records := so.records + RecordsOf(captureId, log)))
    decreases |log|
  {
    hide ScanFrame, WrapRecoveredMessage, Sendable;
    if log == [] {
      assert so.records + [] == so.records;
    } else {
      WrapperIsScanned(limits, so, captureId, log[0]);
      var body := WrapRecoveredMessage(captureId, log[0]);
      var next := so.(records := so.records + [Record(captureId, body, log[0])]);
      LogIsScanned(limits, next, captureId, log[1..]);
      assert Wrappers(captureId, log)[1..] == Wrappers(captureId, log[1..]);
      assert RecordsOf(captureId, log) == [Record(captureId, body, log[0])] + RecordsOf(captureId, log[1..]);
      assert so.records + RecordsOf(captureId, log) == next.records + RecordsOf(captureId, log[1..]);
    }
  }

  /** The end mark as bytes: version 4, the node in 20 bits, type 0x00, and the code 0x0080. */
  predicate IsEndMark(end: seq<byte>, node: Option<nat>) {
    && 8 <= |end| <= 1024 && end[0] / 16 == 4 && end[5] == 0x00 && end[6] == 0x00 && end[7] == 0x80
    && (node.Some? ==> node.value == end[0] as int % 16 * 65536 + end[2] as int * 256 + end[3] as int)
  }

  lemma EndIsScanned(limits: Limits, so: Collected, end: seq<byte>)
    requires IsEndMark(end, limits.expectedNode)
    ensures Scan(limits, so, [end]) == Ended(0x80, so) && FromNode(end, limits.expectedNode)
  {
    assert end[2..4] == [end[2], end[3]] && end[6..8] == [end[6], end[7]];
    BigEndianOfTwo(end[2], end[3]);
    BigEndianOfTwo(end[6], end[7]);
    hide BigEndian, UnwrapRecoveredMessage;
  }

  /** End to end: a device that wraps each logged message in a frame and then sends the end mark,
      with DLE-free noise anywhere between frames, is recovered exactly, whatever the cuts. */
  lemma DeviceLogIsRecovered(limits: Limits, captureId: byte, log: seq<seq<byte>>, end: seq<byte>,
                             noise: seq<seq<byte>>, chunks: seq<seq<byte>>)
    requires forall i :: 0 <= i < |log| ==> Sendable(limits, log[i]) && |log[i]| >= HEADER_SIZE
    requires IsEndMark(end, limits.expectedNode)
    requires |noise| == |log| + 2 && forall i :: 0 <= i < |noise| ==> DLE !in noise[i]
    requires Flatten(chunks) == Wire(noise, Wrappers(captureId, log) + [end])
    requires |log| <= limits.maxRecords && |Flatten(chunks)| <= limits.maxBytes
    ensures var r := History(limits, FRESH, 0, NOTHING, chunks);
            r.Ok() && r.code == 0x80 && r.got == Collected(RecordsOf(captureId, log), [])
  {
    var frames := Wrappers(captureId, log) + [end];
    LogIsScanned(limits, NOTHING, captureId, log);
    assert [] + RecordsOf(captureId, log) == RecordsOf(captureId, log);
    EndIsScanned(limits, NOTHING.(records := RecordsOf(captureId, log)), end);
    hide Scan, ScanFrame, Sendable, FromNode, DecodeResponseCode;
    ScanSplits(limits, NOTHING, Wrappers(captureId, log), [end]);
    RoundTrip(APP_DECODED_BODY_LIMIT, noise, frames, chunks);
    ChunkingIsIrrelevant(APP_DECODED_BODY_LIMIT, FRESH, chunks);
    ParsedStreamIsAnswered(limits, FRESH, 0, NOTHING, chunks, FRESH, frames);
  }
}
