/** UART framing: DLE/STX ... DLE/ETX with every DLE of the body doubled
    (tools/packet_parser/frame.py). */
module Framing {
  import opened Common

  const DLE: byte := 0x10
  const STX: byte := 0x02
  const ETX: byte := 0x03
  const APP_DECODED_BODY_LIMIT := 1024

  datatype FrameError = IncompleteFrame | MalformedFrame | FrameTooLarge | ValueError

  datatype State = WaitDle | WaitStx | InBody | AfterBodyDle

  /** The two mutable fields of the parser, as a value. */
  datatype Snapshot = Snapshot(state: State, body: seq<byte>)

  const FRESH := Snapshot(WaitDle, [])

  /** What some input does to a parser: it moves on and emits bodies, or it raises. */
  datatype Outcome = Continue(next: Snapshot, frames: seq<seq<byte>>) | Raise(error: FrameError)

  // ---------------------------------------------------------------- specification

  function Append(limit: nat, s: Snapshot, value: byte): Outcome {
    if |s.body| >= limit then Raise(FrameTooLarge)
    else Continue(Snapshot(InBody, s.body + [value]), [])
  }

  function Step(limit: nat, s: Snapshot, value: byte): Outcome {
    match s.state
    case WaitDle =>
      Continue(if value == DLE then Snapshot(WaitStx, s.body) else s, [])
    case WaitStx =>
      Continue(if value == STX then Snapshot(InBody, []) else Snapshot(WaitDle, s.body), [])
    case InBody =>
      if value == DLE then Continue(Snapshot(AfterBodyDle, s.body), []) else Append(limit, s, value)
    case AfterBodyDle =>
      if value == DLE then Append(limit, s, DLE)
      else if value == ETX then Continue(FRESH, [s.body])
      else Raise(MalformedFrame)
  }

  /** `o`, with `earlier` emitted before its own bodies. */
  function After(earlier: seq<seq<byte>>, o: Outcome): Outcome {
    match o
    case Continue(n, fs) => Continue(n, earlier + fs)
    case Raise(e) => Raise(e)
  }

  function Run(limit: nat, s: Snapshot, data: seq<byte>): Outcome
    decreases |data|
  {
    if data == [] then Continue(s, [])
    else
      match Step(limit, s, data[0])
      case Raise(e) => Raise(e)
      case Continue(n, fs) => After(fs, Run(limit, n, data[1..]))
  }

  /** Feeding one chunk after another, stopping at the first error. */
  function RunChunks(limit: nat, s: Snapshot, chunks: seq<seq<byte>>): Outcome
    decreases |chunks|
  {
    if chunks == [] then Continue(s, [])
    else
      match Run(limit, s, chunks[0])
      case Raise(e) => Raise(e)
      case Continue(n, fs) => After(fs, RunChunks(limit, n, chunks[1..]))
  }

  function Flatten(chunks: seq<seq<byte>>): seq<byte> {
    if chunks == [] then [] else chunks[0] + Flatten(chunks[1..])
  }

  lemma AfterAfter(a: seq<seq<byte>>, b: seq<seq<byte>>, o: Outcome)
    ensures After(a, After(b, o)) == After(a + b, o)
    ensures After([], o) == o
  {
    if o.Continue? {
      assert a + (b + o.frames) == a + b + o.frames;
      assert [] + o.frames == o.frames;
    }
  }

  /** One step of a run over the rest of some data. */
  lemma RunFrom(limit: nat, frames: seq<seq<byte>>, s: Snapshot, data: seq<byte>, i: nat)
    requires i < |data|
    ensures After(frames, Run(limit, s, data[i..])) ==
            match Step(limit, s, data[i])
            case Raise(e) => Raise(e)
            case Continue(n, fs) =>
              After(if fs == [] then frames else frames + fs, Run(limit, n, data[i + 1..]))
  {
    assert data[i..][1..] == data[i + 1..];
    var step := Step(limit, s, data[i]);
    if step.Continue? {
      AfterAfter(frames, step.frames, Run(limit, step.next, data[i + 1..]));
      assert frames + [] == frames;
    }
  }

  // ---------------------------------------------------------------- the encoder

  function Escaped(value: byte): seq<byte> {
    if value == DLE then [DLE, DLE] else [value]
  }

  function Escape(body: seq<byte>): seq<byte> {
    if body == [] then [] else Escaped(body[0]) + Escape(body[1..])
  }

  function EncodeFrame(body: seq<byte>): seq<byte> {
    [DLE, STX] + Escape(body) + [DLE, ETX]
  }

  /** Bytes a waiting parser skips: no DLE is followed by STX, where a DLE pairs with
      whatever byte comes next.  Any DLE-free noise is a gap. */
  predicate Gap(g: seq<byte>) {
    g == [] ||
    (g[0] != DLE && Gap(g[1..])) ||
    (|g| >= 2 && g[0] == DLE && g[1] != STX && Gap(g[2..]))
  }

  predicate Gaps(gs: seq<seq<byte>>) {
    forall i :: 0 <= i < |gs| ==> Gap(gs[i])
  }

  predicate WithinLimit(limit: nat, bodies: seq<seq<byte>>) {
    forall i :: 0 <= i < |bodies| ==> |bodies[i]| <= limit
  }

  /** The wire image of `bodies`, each encoded, with `gaps` before, between and after. */
  function Wire(gaps: seq<seq<byte>>, bodies: seq<seq<byte>>): seq<byte>
    requires |gaps| == |bodies| + 1
  {
    if bodies == [] then gaps[0]
    else gaps[0] + EncodeFrame(bodies[0]) + Wire(gaps[1..], bodies[1..])
  }

  // ---------------------------------------------------------------- the parser object

  predicate Reachable(limit: nat, s: Snapshot) {
    |s.body| <= limit && (s.state.WaitDle? || s.state.WaitStx? ==> s.body == [])
  }

  class StreamFrameParser {
    const maxBodySize: nat
    var state: State
    var body: seq<byte>

    /** A waiting parser holds no body, and the buffer never passes the limit. */
    ghost predicate Valid()
      reads this
    {
      maxBodySize > 0 && Reachable(maxBodySize, Snap())
    }

    function Snap(): Snapshot
      reads this
    {
      Snapshot(state, body)
    }

    constructor (limit: nat)
      requires limit > 0
      ensures Valid() && maxBodySize == limit && Snap() == FRESH
    {
      maxBodySize := limit;
      state, body := WaitDle, [];
    }

    predicate HasPartialFrame()
      reads this
    {
      !state.WaitDle?
    }

    method Reset()
      modifies this
      ensures Snap() == FRESH
    {
      state, body := WaitDle, [];
    }

    method AppendByte(value: byte) returns (r: Result<(), FrameError>)
      modifies this
      ensures |old(body)| < maxBodySize ==>
                r == Success(()) && state == old(state) && body == old(body) + [value]
      ensures |old(body)| >= maxBodySize ==> r == Failure(FrameTooLarge) && Snap() == FRESH
    {
      if |body| >= maxBodySize {
        Reset();
        return Failure(FrameTooLarge);
      }
      body := body + [value];
      return Success(());
    }

    /** Consumes one chunk.  An error loses the frames of this call and leaves the parser
        as good as new. */
    method Feed(data: seq<byte>) returns (r: Result<seq<seq<byte>>, FrameError>)
      requires Valid()
      modifies this
      ensures Valid()
      ensures match Run(maxBodySize, old(Snap()), data)
              case Continue(n, fs) => r == Success(fs) && Snap() == n
              case Raise(e) => r == Failure(e) && Snap() == FRESH
    {
      var frames: seq<seq<byte>> := [];
      var i := 0;
      while i < |data|
        invariant 0 <= i <= |data|
        invariant Valid()
        invariant Run(maxBodySize, old(Snap()), data) == After(frames, Run(maxBodySize, Snap(), data[i..]))
      {
        var value := data[i];
        RunFrom(maxBodySize, frames, Snap(), data, i);
        hide Run, After;
        match state {
          case WaitDle =>
            if value == DLE {
              state := WaitStx;
            }
          case WaitStx =>
            if value == STX {
              body := [];
              state := InBody;
            } else {
              state := WaitDle;
            }
          case InBody =>
            if value == DLE {
              state := AfterBodyDle;
            } else {
              var _ :- AppendByte(value);
            }
          case AfterBodyDle =>
            if value == DLE {
              var _ :- AppendByte(DLE);
              state := InBody;
            } else if value == ETX {
              frames := frames + [body];
              body := [];
              state := WaitDle;
            } else {
              Reset();
              return Failure(MalformedFrame);
            }
        }
        i := i + 1;
      }
      assert data[i..] == [] && frames + [] == frames;
      return Success(frames);
    }
  }
}
