/** Where the import's answers come from: a device that sends its logged messages over the framed
    link, and run_history at the other end (tools/device_service.py, tools/til90_cli.py). */
module HistoryDevice {
  import opened Common
  import opened Framing
  import opened FramingTheorems
  import opened Messages
  import Stream = HistoryStream
  import opened Store
  import opened HistoryImport

  /** A logged message and the time by which the device selects it. */
  datatype Logged = Logged(epoch: int, message: seq<byte>)

  /** What device_service.history allows for one chunk. */
  const MAX_BYTES := 2 * 1024 * 1024

  /** So long may a message be without the byte limit ever being reached before the record limit. */
  const SHORT := 520

  /** The log as the import sees it; `decode` is what the message decoders make of a message. */
  function Entries(log: seq<Logged>, decode: seq<byte> -> Record): seq<Entry> {
    if log == [] then [] else [Entry(log[0].epoch, decode(log[0].message))] + Entries(log[1..], decode)
  }

  /** The messages of an inclusive range. */
  function Selected(log: seq<Logged>, lo: int, hi: int): seq<seq<byte>> {
    if log == [] then []
    else (if lo <= log[0].epoch <= hi then [log[0].message] else []) + Selected(log[1..], lo, hi)
  }

  function DecodeAll(messages: seq<seq<byte>>, decode: seq<byte> -> Record): seq<Record> {
    seq(|messages|, i requires 0 <= i < |messages| => decode(messages[i]))
  }

  /** The records of a recovery, decoded. */
  function Recovered(records: seq<Stream.Record>, decode: seq<byte> -> Record): seq<Record> {
    seq(|records|, i requires 0 <= i < |records| => decode(records[i].innerBody))
  }

  lemma {:induction false} AnswerIsSelected(log: seq<Logged>, decode: seq<byte> -> Record, lo: int, hi: int)
    ensures Answer(Entries(log, decode), lo, hi) == DecodeAll(Selected(log, lo, hi), decode)
    decreases |log|
  {
    if log != [] {
      AnswerIsSelected(log[1..], decode, lo, hi);
      assert Entries(log, decode)[1..] == Entries(log[1..], decode);
      var rest := Selected(log[1..], lo, hi);
      assert DecodeAll([log[0].message] + rest, decode) == [decode(log[0].message)] + DecodeAll(rest, decode);
    }
  }

  // ---------------------------------------------------------------- the byte limit

  function NoGaps(n: nat): seq<seq<byte>> {
    seq(n, _ => [])
  }

  lemma {:induction false} EscapeLength(body: seq<byte>)
    ensures |Escape(body)| <= 2 * |body|
    decreases |body|
  {
    if body != [] { EscapeLength(body[1..]); }
  }

  lemma {:induction false} WireLength(bodies: seq<seq<byte>>, most: nat)
    requires forall i :: 0 <= i < |bodies| ==> |bodies[i]| <= most
    ensures |Wire(NoGaps(|bodies| + 1), bodies)| <= |bodies| * (2 * most + 4)
    decreases |bodies|
  {
    if bodies != [] {
      EscapeLength(bodies[0]);
      WireLength(bodies[1..], most);
      assert NoGaps(|bodies| + 1)[1..] == NoGaps(|bodies|);
      assert |bodies| * (2 * most + 4) == (|bodies| - 1) * (2 * most + 4) + 2 * most + 4;
    }
  }

  // ---------------------------------------------------------------- what a device sends

  /** Every message is one of the node's, and its wrapper fits a frame. */
  predicate AllSendable(messages: seq<seq<byte>>, node: nat) {
    forall i :: 0 <= i < |messages| ==>
      && Stream.FromNode(messages[i], Some(node))
      && 6 <= |messages[i]| <= 1022
  }

  predicate AllShort(messages: seq<seq<byte>>) {
    forall i :: 0 <= i < |messages| ==> |messages[i]| <= SHORT
  }

  /** The limits of one chunk. */
  function ChunkLimits(node: nat, maxRecords: nat): Stream.Limits {
    Stream.Limits(Some(node), maxRecords, MAX_BYTES)
  }

  /** The frames of an answer: every message in a wrapper, then the end mark. */
  function Frames(captureId: byte, messages: seq<seq<byte>>, end: seq<byte>): seq<seq<byte>>
    requires forall i :: 0 <= i < |messages| ==> |messages[i]| >= HEADER_SIZE
  {
    Stream.Wrappers(captureId, messages) + [end]
  }

  lemma FramesFit(node: nat, captureId: byte, messages: seq<seq<byte>>, end: seq<byte>)
    requires AllSendable(messages, node) && |end| <= APP_DECODED_BODY_LIMIT
    ensures WithinLimit(APP_DECODED_BODY_LIMIT, Frames(captureId, messages, end))
  {
    hide Stream.FromNode;
  }

  /** Up to 2000 short messages and a short end mark never reach the byte limit. */
  lemma ShortFits(captureId: byte, messages: seq<seq<byte>>, end: seq<byte>)
    requires forall i :: 0 <= i < |messages| ==> |messages[i]| >= HEADER_SIZE
    requires AllShort(messages) && |end| <= SHORT && |messages| <= 2000
    ensures |Wire(NoGaps(|messages| + 2), Frames(captureId, messages, end))| <= MAX_BYTES
  {
    var frames := Frames(captureId, messages, end);
    hide Wire;
    forall i | 0 <= i < |frames| ensures |frames[i]| <= SHORT + 2 {
    }
    WireLength(frames, SHORT + 2);
  }

  // ---------------------------------------------------------------- what becomes of it

  lemma OverLimit(limits: Stream.Limits, so: Stream.Collected, captureId: byte, inner: seq<byte>)
    requires Stream.Sendable(limits, inner) && |inner| >= HEADER_SIZE && |so.records| >= limits.maxRecords
    ensures Stream.ScanFrame(limits, so, WrapRecoveredMessage(captureId, inner)) == Stream.TooManyRecords
  {
    UnwrapUndoesWrap(WrapRecoveredMessage(captureId, inner), captureId, inner);
    assert WrapRecoveredMessage(captureId, inner)[5] == 0x01;
    hide WrapRecoveredMessage;
  }

  lemma TooManyIsScanned(limits: Stream.Limits, captureId: byte, messages: seq<seq<byte>>, end: seq<byte>)
    requires forall i :: 0 <= i < |messages| ==>
               Stream.Sendable(limits, messages[i]) && |messages[i]| >= HEADER_SIZE
    requires |messages| > limits.maxRecords
    ensures Stream.Scan(limits, Stream.NOTHING, Frames(captureId, messages, end)) == Stream.TooManyRecords
  {
    var n := limits.maxRecords;
    var fit, rest := messages[..n], messages[n..];
    Stream.LogIsScanned(limits, Stream.NOTHING, captureId, fit);
    var so := Stream.NOTHING.(records := Stream.NOTHING.records + Stream.RecordsOf(captureId, fit));
    var tail := Stream.Wrappers(captureId, rest) + [end];
    OverLimit(limits, so, captureId, messages[n]);
    hide Stream.ScanFrame, Stream.Sendable, WrapRecoveredMessage;
    assert Frames(captureId, messages, end) == Stream.Wrappers(captureId, fit) + tail;
    Stream.ScanSplits(limits, Stream.NOTHING, Stream.Wrappers(captureId, fit), tail);
    assert tail[0] == WrapRecoveredMessage(captureId, messages[n]);
  }

  /** A stream that parses and holds too many records is not answered, however it is cut. */
  lemma TooManyIsNoAnswer(limits: Stream.Limits, chunks: seq<seq<byte>>, next: Snapshot, frames: seq<seq<byte>>)
    requires Run(APP_DECODED_BODY_LIMIT, FRESH, Flatten(chunks)) == Continue(next, frames)
    requires Stream.Scan(limits, Stream.NOTHING, frames) == Stream.TooManyRecords
    ensures !Stream.History(limits, FRESH, 0, Stream.NOTHING, chunks).Answered?
  {
    hide Run, Stream.Scan, Stream.History;
    if Stream.History(limits, FRESH, 0, Stream.NOTHING, chunks).Answered? {
      var k, before, some := Stream.WholeAnswer(limits, chunks);
      Stream.FlattenTake(chunks, k);
      Stream.LongerScan(limits, Flatten(chunks[..k]), Flatten(chunks), before, some, next, frames);
      assert false;
    }
  }

  lemma RecoveredAll(captureId: byte, messages: seq<seq<byte>>, decode: seq<byte> -> Record)
    requires forall i :: 0 <= i < |messages| ==> |messages[i]| >= HEADER_SIZE
    ensures Recovered(Stream.RecordsOf(captureId, messages), decode) == DecodeAll(messages, decode)
  {
  }

  /** No input that holds all frames of a stream without gaps is shorter than it. */
  lemma {:induction false} GapsOnlyAdd(gaps: seq<seq<byte>>, bodies: seq<seq<byte>>)
    requires |gaps| == |bodies| + 1
    ensures |Wire(NoGaps(|bodies| + 1), bodies)| <= |Wire(gaps, bodies)|
    decreases |bodies|
  {
    if bodies != [] {
      GapsOnlyAdd(gaps[1..], bodies[1..]);
      assert NoGaps(|bodies| + 1)[1..] == NoGaps(|bodies|);
    }
  }

  /** The start of a stream without gaps that yields all its frames is the whole stream. */
  lemma AllFramesNeedAll(start: seq<byte>, next: Snapshot, frames: seq<seq<byte>>)
    requires Run(APP_DECODED_BODY_LIMIT, FRESH, start) == Continue(next, frames)
    ensures |start| >= |Wire(NoGaps(|frames| + 1), frames)|
  {
    EmittedFramesAreInput(APP_DECODED_BODY_LIMIT, start, next, frames);
    hide Run, Wire, Gap;
    var gaps: seq<seq<byte>>, tail: Tail :| Splits(APP_DECODED_BODY_LIMIT, start, gaps, frames, tail);
    GapsOnlyAdd(gaps, frames);
  }

  /** Without its end mark, an allowed log does not end a recovery. */
  lemma NoEndYet(limits: Stream.Limits, captureId: byte, messages: seq<seq<byte>>, end: seq<byte>,
                 some: seq<seq<byte>>)
    requires forall i :: 0 <= i < |messages| ==>
               Stream.Sendable(limits, messages[i]) && |messages[i]| >= HEADER_SIZE
    requires |messages| <= limits.maxRecords && some <= Frames(captureId, messages, end)
    requires Stream.Scan(limits, Stream.NOTHING, some).Ended?
    ensures some == Frames(captureId, messages, end)
  {
    var m := |some|;
    if m <= |messages| {
      hide Stream.Scan, Stream.Sendable, WrapRecoveredMessage;
      assert some == Stream.Wrappers(captureId, messages[..m]);
      Stream.LogIsScanned(limits, Stream.NOTHING, captureId, messages[..m]);
      assert false;
    }
  }

  /** A stream of more bytes than allowed is not answered, however it is cut: its end mark is the
      last of it. */
  lemma TooLongIsNoAnswer(limits: Stream.Limits, captureId: byte, messages: seq<seq<byte>>, end: seq<byte>,
                          chunks: seq<seq<byte>>)
    requires forall i :: 0 <= i < |messages| ==>
               Stream.Sendable(limits, messages[i]) && |messages[i]| >= HEADER_SIZE
    requires Flatten(chunks) == Wire(NoGaps(|messages| + 2), Frames(captureId, messages, end))
    requires |messages| <= limits.maxRecords && |Flatten(chunks)| > limits.maxBytes
    requires Run(APP_DECODED_BODY_LIMIT, FRESH, Flatten(chunks))
             == Continue(FRESH, Frames(captureId, messages, end))
    ensures !Stream.History(limits, FRESH, 0, Stream.NOTHING, chunks).Answered?
  {
    hide Run, Stream.Scan, Stream.History, Stream.Sendable, Wire, WrapRecoveredMessage;
    if Stream.History(limits, FRESH, 0, Stream.NOTHING, chunks).Answered? {
      var k, next, some := Stream.WholeAnswer(limits, chunks);
      Stream.FlattenTake(chunks, k);
      var start := Flatten(chunks[..k]);
      var rest := Flatten(chunks)[|start|..];
      assert Flatten(chunks) == start + rest;
      FeedSplits(APP_DECODED_BODY_LIMIT, FRESH, start, rest);
      NoEndYet(limits, captureId, messages, end, some);
      AllFramesNeedAll(start, next, some);
      assert false;
    }
  }

  /** What run_history makes of the stream a device sends for a range, however it is cut: an "ok"
      exactly when there are no more messages and no more bytes than allowed, and then the decoded
      records are the import's answer for the range. */
  lemma RecoveredIsAnswer(node: nat, captureId: byte, log: seq<Logged>, decode: seq<byte> -> Record,
                          lo: int, hi: int, maxRecords: nat, end: seq<byte>, chunks: seq<seq<byte>>)
    requires AllSendable(Selected(log, lo, hi), node) && Stream.IsEndMark(end, Some(node))
    requires var messages := Selected(log, lo, hi);
             Flatten(chunks) == Wire(NoGaps(|messages| + 2), Frames(captureId, messages, end))
    ensures var r := Stream.History(ChunkLimits(node, maxRecords), FRESH, 0, Stream.NOTHING, chunks);
            && (r.Ok() <==> |Answer(Entries(log, decode), lo, hi)| <= maxRecords && |Flatten(chunks)| <= 2097152)
            && (r.Ok() ==> Recovered(r.got.records, decode) == Answer(Entries(log, decode), lo, hi))
  {
    var messages, limits := Selected(log, lo, hi), ChunkLimits(node, maxRecords);
    AnswerIsSelected(log, decode, lo, hi);
    forall i | 0 <= i < |messages| ensures Stream.Sendable(limits, messages[i]) {
    }
    FramesFit(node, captureId, messages, end);
    hide Stream.FromNode, Stream.Sendable, Stream.History, Wire, Run, Frames;
    var frames := Frames(captureId, messages, end);
    RoundTrip(APP_DECODED_BODY_LIMIT, NoGaps(|messages| + 2), frames, chunks);
    ChunkingIsIrrelevant(APP_DECODED_BODY_LIMIT, FRESH, chunks);
    if |messages| > maxRecords {
      TooManyIsScanned(limits, captureId, messages, end);
      TooManyIsNoAnswer(limits, chunks, FRESH, frames);
    } else if |Flatten(chunks)| > MAX_BYTES {
      TooLongIsNoAnswer(limits, captureId, messages, end, chunks);
    } else {
      Stream.DeviceLogIsRecovered(limits, captureId, messages, end, NoGaps(|messages| + 2), chunks);
      RecoveredAll(captureId, messages, decode);
    }
  }

  /** run_history refuses ranges that are not ordered unsigned 32-bit numbers of at most 7 days. */
  predicate ValidRange(lo: int, hi: int) {
    0 <= lo <= hi <= 0xFFFFFFFF && hi - lo <= 7 * 24 * 3600
  }

  /** So the state machine asks the device nothing it would not answer: a chunk of a valid job that
      is not finished is answered in the state machine and is within the byte limit exactly when its
      range is valid and the device's stream for it is recovered, and with the same records.  The
      byte limit says nothing if all messages are short. */
  lemma AnswersAreRecoveries(node: nat, captureId: byte, log: seq<Logged>, decode: seq<byte> -> Record, job: Job,
                             end: seq<byte>, chunks: seq<seq<byte>>)
    requires ValidRequest(job.start, job.end, job.chunkSeconds, job.maxRecords) && job.cursor <= job.end
    requires AllSendable(Selected(log, job.cursor, ChunkEnd(job)), node) && Stream.IsEndMark(end, Some(node))
    requires var messages := Selected(log, job.cursor, ChunkEnd(job));
             Flatten(chunks) == Wire(NoGaps(|messages| + 2), Frames(captureId, messages, end))
    ensures var r := Stream.History(ChunkLimits(node, job.maxRecords), FRESH, 0, Stream.NOTHING, chunks);
            var messages := Selected(log, job.cursor, ChunkEnd(job));
            && (Answers(Entries(log, decode), job) && |Flatten(chunks)| <= MAX_BYTES <==>
                ValidRange(job.cursor, ChunkEnd(job)) && r.Ok())
            && (AllShort(messages) && |end| <= SHORT ==>
                  (Answers(Entries(log, decode), job) <==> ValidRange(job.cursor, ChunkEnd(job)) && r.Ok()))
            && (r.Ok() ==> Recovered(r.got.records, decode) == Answer(Entries(log, decode), job.cursor, ChunkEnd(job)))
  {
    var messages := Selected(log, job.cursor, ChunkEnd(job));
    AnswerIsSelected(log, decode, job.cursor, ChunkEnd(job));
    hide AllShort, Stream.IsEndMark, Frames, Wire, Selected, Entries, Answer, Stream.History, Recovered;
    RecoveredIsAnswer(node, captureId, log, decode, job.cursor, ChunkEnd(job), job.maxRecords, end, chunks);
    if AllShort(messages) && |end| <= SHORT && |messages| <= 2000 { ShortFits(captureId, messages, end); }
  }
}
