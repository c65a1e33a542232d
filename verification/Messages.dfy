/** The protocol-v2 header (tools/packet_parser/frame.py) and the wrapper of recovered messages
    (tools/packet_parser/messages.py). */
module Messages {
  import opened Common
  import opened BitNumbers
  import opened BitReader
  import opened Framing

  const HEADER_SIZE := 6
  const REQUIRED_VERSION := 4

  datatype Header = Header(
    version: nat, nodeIdHigh: nat, productCode: byte, nodeId: nat, sequenceNumber: byte, amType: byte)
  {
    /** The range of each field on the wire; the low node nibble is stored twice. */
    predicate InRange() {
      version < 16 && nodeId < 0x100000 && nodeIdHigh == nodeId / 0x10000
    }
  }

  function ParseHeader(body: seq<byte>, requireVersion: bool := true): Result<Header, FrameError> {
    if |body| < HEADER_SIZE then Failure(IncompleteFrame)
    else
      var version := body[0] / 16;
      if requireVersion && version != REQUIRED_VERSION then Failure(MalformedFrame)
      else
        var high := body[0] % 16;
        Success(Header(version, high, body[1], high * 0x10000 + BigEndian(body[2..4]), body[4], body[5]))
  }

  /** The six bytes a device sends for a header. */
  function HeaderBytes(h: Header): seq<byte>
    requires h.InRange()
  {
    [h.version * 16 + h.nodeId / 0x10000, h.productCode]
      + ToBytes(h.nodeId % 0x10000, 2) + [h.sequenceNumber, h.amType]
  }

  lemma BigEndianOfTwo(a: byte, b: byte)
    ensures BigEndian([a, b]) == 256 * a + b
  {
    assert [a, b][..1] == [a];
    assert BigEndian([a]) == a by { assert [a][..0] == []; }
  }

  lemma TwoBytesOf(v: nat)
    requires v < 0x10000
    ensures ToBytes(v, 2) == [v / 256, v % 256]
  {
    assert ToBytes(v / 256, 1) == [] + [v / 256 % 256];
  }

  lemma ParsedIsBytes(body: seq<byte>, requireVersion: bool, h: Header)
    requires ParseHeader(body, requireVersion) == Success(h)
    ensures |body| >= 6 && h.InRange() && HeaderBytes(h) == body[..6]
    ensures requireVersion ==> h.version == REQUIRED_VERSION
  {
    assert body[2..4] == [body[2], body[3]];
    BigEndianOfTwo(body[2], body[3]);
    TwoBytesOf(h.nodeId % 0x10000);
    hide BigEndian, ToBytes;
  }

  lemma BytesAreParsed(body: seq<byte>, requireVersion: bool, h: Header)
    requires h.InRange() && HeaderBytes(h) <= body && (requireVersion ==> h.version == REQUIRED_VERSION)
    ensures ParseHeader(body, requireVersion) == Success(h)
  {
    TwoBytesOf(h.nodeId % 0x10000);
    var bytes := HeaderBytes(h);
    assert |bytes| == 6 && forall i :: 0 <= i < 6 ==> body[i] == bytes[i];
    assert body[2..4] == [body[2], body[3]];
    BigEndianOfTwo(body[2], body[3]);
    hide BigEndian, ToBytes;
  }

  /** A body parses to `h` exactly when it starts with the bytes of `h`; the version is
      checked only on request. */
  lemma HeaderRoundTrip(body: seq<byte>, requireVersion: bool, h: Header)
    ensures ParseHeader(body, requireVersion) == Success(h) <==>
            h.InRange() && HeaderBytes(h) <= body && (requireVersion ==> h.version == REQUIRED_VERSION)
  {
    hide ParseHeader, HeaderBytes, Header.InRange;
    if ParseHeader(body, requireVersion) == Success(h) {
      ParsedIsBytes(body, requireVersion, h);
    } else if h.InRange() && HeaderBytes(h) <= body && (requireVersion ==> h.version == REQUIRED_VERSION) {
      BytesAreParsed(body, requireVersion, h);
    }
  }

  /** The fields of a header, byte by byte: the node has its four high bits in the first byte. */
  lemma HeaderInBytes(body: seq<byte>, requireVersion: bool, h: Header)
    ensures ParseHeader(body, requireVersion) == Success(h) <==>
            && |body| >= 6 && h.version == body[0] / 16 && h.nodeIdHigh == body[0] % 16 && h.productCode == body[1]
            && h.nodeId == body[0] as int % 16 * 65536 + body[2] as int * 256 + body[3] as int
            && h.sequenceNumber == body[4] && h.amType == body[5] && (requireVersion ==> h.version == 4)
  {
    if |body| >= 6 {
      assert body[2..4] == [body[2], body[3]];
      BigEndianOfTwo(body[2], body[3]);
    }
    hide BigEndian;
  }

  /** The header of a response body whose AM type is one of `allowed`. */
  function CheckedHeader(body: seq<byte>, allowed: set<byte>): Result<Header, FrameError> {
    var header :- ParseHeader(body);
    if header.amType !in allowed then Failure(MalformedFrame) else Success(header)
  }

  /** What follows the header. */
  function PayloadOf(body: seq<byte>): seq<byte> {
    if |body| < HEADER_SIZE then [] else body[HEADER_SIZE..]
  }

  method Payload(body: seq<byte>, allowed: set<byte>) returns (r: Result<(Header, Bits), FrameError>)
    ensures r.Success? <==> CheckedHeader(body, allowed).Success?
    ensures r.Failure? ==> r.error == CheckedHeader(body, allowed).error
    ensures r.Success? ==> r.value.0 == CheckedHeader(body, allowed).value
                           && r.value.1.Valid() && fresh(r.value.1) && r.value.1.data == PayloadOf(body)
                           && r.value.1.offset == 0 && r.value.1.Rest() == BitsOf(PayloadOf(body))
  {
    hide BitsOf;
    var header :- CheckedHeader(body, allowed);
    var bits := new Bits(PayloadOf(body));
    return Success((header, bits));
  }

  lemma SentHeader(h: Header, payload: seq<byte>, allowed: set<byte>)
    requires h.InRange() && h.version == REQUIRED_VERSION && h.amType in allowed
    ensures CheckedHeader(HeaderBytes(h) + payload, allowed) == Success(h)
    ensures PayloadOf(HeaderBytes(h) + payload) == payload
  {
    HeaderRoundTrip(HeaderBytes(h) + payload, true, h);
  }

  /** A recovered message: its capture ID and the message it wraps. */
  function UnwrapRecoveredMessage(body: seq<byte>): Result<(byte, seq<byte>), FrameError> {
    var header :- ParseHeader(body);
    if header.amType != 0x01 then Failure(MalformedFrame)
    else if |body| < 8 then Failure(IncompleteFrame)
    else Success((body[6], body[..5] + body[7..]))
  }

  /** What a device sends for a recovered message. */
  function WrapRecoveredMessage(captureId: byte, inner: seq<byte>): seq<byte>
    requires |inner| >= HEADER_SIZE
  {
    inner[..5] + [0x01, captureId] + inner[5..]
  }

  /** Unwrapping undoes wrapping and fails on everything else; the inner message keeps the
      sender, so its header always parses and names the same node. */
  lemma UnwrapUndoesWrap(body: seq<byte>, captureId: byte, inner: seq<byte>)
    ensures UnwrapRecoveredMessage(body) == Success((captureId, inner)) <==>
            ParseHeader(inner).Success? && body == WrapRecoveredMessage(captureId, inner)
    ensures UnwrapRecoveredMessage(body) == Success((captureId, inner)) ==>
            ParseHeader(inner).value.nodeId == ParseHeader(body).value.nodeId
  {
    if UnwrapRecoveredMessage(body) == Success((captureId, inner)) {
      assert inner[..5] == body[..5] && inner[5..] == body[7..];
      assert body == body[..5] + [0x01, captureId] + body[7..];
      assert inner[2..4] == body[2..4];
    }
    if |inner| >= HEADER_SIZE && body == WrapRecoveredMessage(captureId, inner) && ParseHeader(inner).Success? {
      assert body[..5] == inner[..5] && body[7..] == inner[5..] && body[5] == 0x01 && body[6] == captureId;
      assert inner == inner[..5] + inner[5..];
      assert inner[2..4] == body[2..4];
      assert body[0] == inner[0];
    }
  }

  /** decode_response_code: the first two payload bytes of an AM 0x00 response. */
  function DecodeResponseCode(body: seq<byte>): Result<nat, FrameError> {
    var header :- CheckedHeader(body, {0x00});
    if |body| < 8 then Failure(IncompleteFrame) else Success(BigEndian(body[6..8]))
  }
}
