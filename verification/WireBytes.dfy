/** Messages of the sensor, told byte by byte: what the bit tables, layouts and encoders of the other
    modules come to for the fields that fill whole bytes or parts of one. */
module WireBytes {
  import opened Common
  import opened BitNumbers
  import opened BitReader
  import opened Framing
  import opened Messages
  import opened ConfigMessages
  import opened WriteEncoders

  // ---------------------------------------------------------------- numbers in bytes

  function Be16(p: seq<byte>, j: nat): nat
    requires j + 2 <= |p|
  {
    p[j] as int * 256 + p[j + 1] as int
  }

  function Be24(p: seq<byte>, j: nat): nat
    requires j + 3 <= |p|
  {
    p[j] as int * 65536 + p[j + 1] as int * 256 + p[j + 2] as int
  }

  function Be32(p: seq<byte>, j: nat): nat
    requires j + 4 <= |p|
  {
    p[j] as int * 16777216 + p[j + 1] as int * 65536 + p[j + 2] as int * 256 + p[j + 3] as int
  }

  lemma BytesAt(p: seq<byte>, j: nat, n: nat)
    requires j + n <= |p|
    ensures Slice(p, 8 * j, 8 * n) == BigEndian(p[j..j + n])
  {
    hide BitsOf, BigEndian, FromBits;
    var a, m, r := p[..j], p[j..j + n], p[j + n..];
    assert p == a + m + r;
    BitsOfConcat(a + m, r);
    BitsOfConcat(a, m);
    BitsOfIsBigEndian(m);
    assert BitsOf(p)[8 * j..8 * j + 8 * n] == BitsOf(m);
  }

  lemma BigEndianOfThree(a: byte, b: byte, c: byte)
    ensures BigEndian([a, b, c]) == a as int * 65536 + b as int * 256 + c as int
  {
    assert [a, b, c][..2] == [a, b];
    BigEndianOfTwo(a, b);
  }

  lemma BigEndianOfFour(a: byte, b: byte, c: byte, d: byte)
    ensures BigEndian([a, b, c, d]) == a as int * 16777216 + b as int * 65536 + c as int * 256 + d as int
  {
    assert [a, b, c, d][..3] == [a, b, c];
    BigEndianOfThree(a, b, c);
  }

  lemma WordAt(p: seq<byte>, j: nat)
    ensures j + 2 <= |p| ==> Slice(p, 8 * j, 16) == Be16(p, j)
    ensures j + 3 <= |p| ==> Slice(p, 8 * j, 24) == Be24(p, j)
    ensures j + 4 <= |p| ==> Slice(p, 8 * j, 32) == Be32(p, j)
  {
    hide BigEndian, Slice;
    if j + 2 <= |p| {
      BytesAt(p, j, 2);
      assert p[j..j + 2] == [p[j], p[j + 1]];
      BigEndianOfTwo(p[j], p[j + 1]);
    }
    if j + 3 <= |p| {
      BytesAt(p, j, 3);
      assert p[j..j + 3] == [p[j], p[j + 1], p[j + 2]];
      BigEndianOfThree(p[j], p[j + 1], p[j + 2]);
    }
    if j + 4 <= |p| {
      BytesAt(p, j, 4);
      assert p[j..j + 4] == [p[j], p[j + 1], p[j + 2], p[j + 3]];
      BigEndianOfFour(p[j], p[j + 1], p[j + 2], p[j + 3]);
    }
  }

  lemma FlagInByte(p: seq<byte>, j: nat, a: nat)
    requires j < |p| && a < 8
    ensures Flag(p, 8 * j + a) == (p[j] / Pow2(7 - a) % 2 == 1)
  {
    hide Flag, Pow2;
    assert (8 * j + a) / 8 == j && (8 * j + a) % 8 == a;
    FlagOfByte(p, 8 * j + a);
  }

  // ---------------------------------------------------------------- configuration responses

  /** The body of a response of one of these types, of version 4, with so many bytes of payload. */
  predicate IsResponse(body: seq<byte>, types: set<byte>, payload: nat) {
    |body| >= 6 + payload && body[0] / 16 == 4 && body[5] in types
  }

  lemma ResponseChecked(body: seq<byte>, types: set<byte>, payload: nat)
    ensures Checked(body, types, 8 * payload).Success? <==> IsResponse(body, types, payload)
    ensures IsResponse(body, types, payload) ==> Checked(body, types, 8 * payload).value == body[6..]
  {
    hide BigEndian;
  }

  lemma SamplingBytes(body: seq<byte>, seconds: nat)
    ensures SamplingOf(body) == Success(seconds) <==> IsResponse(body, {0x82}, 3) && seconds == Be24(body, 6)
  {
    hide Checked, Slice;
    ResponseChecked(body, {0x82}, 3);
    if IsResponse(body, {0x82}, 3) { WordAt(body[6..], 0); }
  }

  lemma SlotTimeBytes(body: seq<byte>, seconds: nat)
    ensures SlotTimeOf(body) == Success(seconds) <==> IsResponse(body, {0x90}, 2) && seconds == Be16(body, 6)
  {
    hide Checked, Slice;
    ResponseChecked(body, {0x90}, 2);
    if IsResponse(body, {0x90}, 2) { WordAt(body[6..], 0); }
  }

  lemma NetworkIdBytes(body: seq<byte>, id: nat)
    ensures NumberOf(body, {0x8D}, 32) == Success(id) <==> IsResponse(body, {0x8D}, 4) && id == Be32(body, 6)
  {
    hide Checked, Slice;
    ResponseChecked(body, {0x8D}, 4);
    if IsResponse(body, {0x8D}, 4) { WordAt(body[6..], 0); }
  }

  lemma Inc360Bytes(body: seq<byte>)
    ensures Inc360Of(body).Success? <==> IsResponse(body, {0x9A}, 1)
    ensures IsResponse(body, {0x9A}, 1) ==>
              var b := body[6];
              Inc360Of(body).value
              == Inc360Channels(b / 64, b / 8 % 8, AxisSet(b % 2 == 1, b / 2 % 2 == 1, b / 4 % 2 == 1))
  {
    ResponseChecked(body, {0x9A}, 1);
    if IsResponse(body, {0x9A}, 1) {
      var p := body[6..];
      LowPowers();
      PartOfByte(p, 0, 0, 2);
      PartOfByte(p, 0, 2, 3);
      FlagInByte(p, 0, 5);
      FlagInByte(p, 0, 6);
      FlagInByte(p, 0, 7);
      hide Checked, Slice, Pow2, Flag;
    }
  }

  lemma TopFlags(p: seq<byte>, j: nat)
    requires j < |p|
    ensures Flag(p, 8 * j) == (p[j] / 128 % 2 == 1) && Flag(p, 8 * j + 1) == (p[j] / 64 % 2 == 1)
    ensures Flag(p, 8 * j + 2) == (p[j] / 32 % 2 == 1) && Flag(p, 8 * j + 3) == (p[j] / 16 % 2 == 1)
  {
    LowPowers();
    hide Pow2, Flag;
    FlagInByte(p, j, 0);
    FlagInByte(p, j, 1);
    FlagInByte(p, j, 2);
    FlagInByte(p, j, 3);
  }

  /** Both halves of a byte. */
  lemma Nibbles(p: seq<byte>, j: nat)
    requires j < |p|
    ensures Slice(p, 8 * j, 4) == p[j] / 16 && Slice(p, 8 * j + 4, 4) == p[j] % 16
  {
    LowPowers();
    hide Pow2, Slice;
    PartOfByte(p, j, 0, 4);
    PartOfByte(p, j, 4, 4);
  }

  lemma LoraRadioBytes(p: seq<byte>)
    requires |p| >= 3
    ensures LoraRadioAt(p, 0)
            == LoraRadio(p[0] / 16, p[0] % 16, p[1] / 128 % 2 == 1, p[1] / 64 % 2 == 1, p[1] / 32 % 2 == 1,
                         p[1] / 16 % 2 == 1, p[1] % 16, p[2])
  {
    hide Slice, Pow2, Flag;
    Nibbles(p, 0);
    TopFlags(p, 1);
    Nibbles(p, 1);
    WholeByte(p, 2);
  }

  lemma LoraRx2Bytes(p: seq<byte>)
    requires |p| >= 10
    ensures LoraRx2At(p, 24)
            == LoraRx2(p[3] / 32 % 2 == 1, p[3] / 16 % 2 == 1, p[3] % 16, Be32(p, 4), Be16(p, 8))
  {
    hide Slice, Pow2, Flag;
    TopFlags(p, 3);
    Nibbles(p, 3);
    WordAt(p, 4);
    WordAt(p, 8);
  }

  lemma LoraGeneralBytes(body: seq<byte>)
    ensures LoraGeneralOf(body).Success? <==> IsResponse(body, {0x84}, 10)
    ensures IsResponse(body, {0x84}, 10) ==>
              var a, b, c, d := body[6], body[7], body[8], body[9];
              LoraGeneralOf(body).value == LoraGeneral(
                LoraRadio(a / 16, a % 16, b / 128 % 2 == 1, b / 64 % 2 == 1, b / 32 % 2 == 1, b / 16 % 2 == 1,
                          b % 16, c),
                LoraRx2(d / 32 % 2 == 1, d / 16 % 2 == 1, d % 16, Be32(body, 10), Be16(body, 14)))
  {
    ResponseChecked(body, {0x84}, 10);
    if IsResponse(body, {0x84}, 10) {
      LoraRadioBytes(body[6..]);
      LoraRx2Bytes(body[6..]);
    }
    hide Checked, LoraRadioAt, LoraRx2At;
  }

  lemma ChannelBytes(p: seq<byte>, i: nat)
    requires i < 8 && |p| >= 34
    ensures var c := LoraChannelsAt(p, 0);
            && |c.enabled| == |c.frequencies| == 8 && (c.enabled[i] <==> p[1] / Pow2(7 - i) % 2 == 1)
            && c.frequencies[i] == if c.enabled[i] then Be32(p, 2 + 4 * i) else 0
  {
    hide Slice, Pow2, Flag;
    FlagInByte(p, 1, i);
    WordAt(p, 2 + 4 * i);
  }

  lemma LoraChannelsBytes(body: seq<byte>, i: nat)
    requires i < 8
    ensures LoraChannelsOf(body).Success? <==> IsResponse(body, {0x85, 0x8E}, 34)
    ensures IsResponse(body, {0x85, 0x8E}, 34) ==>
              var c := LoraChannelsOf(body).value;
              && c.version == body[6] / 16 && c.kind == body[6] % 16 && |c.enabled| == |c.frequencies| == 8
              && (c.enabled[i] <==> body[7] / Pow2(7 - i) % 2 == 1)
              && c.frequencies[i] == if c.enabled[i] then Be32(body, 8 + 4 * i) else 0
  {
    ResponseChecked(body, {0x85, 0x8E}, 34);
    hide Checked, Slice, Pow2, Flag;
    if IsResponse(body, {0x85, 0x8E}, 34) {
      Nibbles(body[6..], 0);
      ChannelBytes(body[6..], i);
    }
  }

  lemma UnevenParts(p: seq<byte>, j: nat)
    requires j < |p|
    ensures Slice(p, 8 * j, 6) == p[j] / 4 && Slice(p, 8 * j + 6, 2) == p[j] % 4
    ensures Slice(p, 8 * j, 1) == p[j] / 128 && Slice(p, 8 * j + 1, 1) == p[j] / 64 % 2
    ensures Slice(p, 8 * j + 2, 6) == p[j] % 64
  {
    LowPowers();
    hide Slice, Pow2;
    PartOfByte(p, j, 0, 6);
    PartOfByte(p, j, 6, 2);
    PartOfByte(p, j, 0, 1);
    PartOfByte(p, j, 1, 1);
    PartOfByte(p, j, 2, 6);
  }

  lemma JoinPolicyBytes(p: seq<byte>)
    requires |p| >= 23
    ensures JoinPolicyAt(p, 136)
            == JoinPolicy(Be16(p, 17), p[19], p[20] / 4, p[20] % 4, p[21], p[22] / 128, p[22] / 64 % 2, p[22] % 64)
  {
    hide Slice, Pow2;
    WordAt(p, 17);
    WholeByte(p, 19);
    UnevenParts(p, 20);
    WholeByte(p, 21);
    UnevenParts(p, 22);
  }

  lemma LoraJoinBytes(body: seq<byte>)
    ensures LoraJoinOf(body).Success? <==> IsResponse(body, {0x94}, 23)
    ensures IsResponse(body, {0x94}, 23) ==>
              LoraJoinOf(body).value == LoraJoin(
                body[6], body[7..15], body[15..23],
                JoinPolicy(Be16(body, 23), body[25], body[26] / 4, body[26] % 4, body[27], body[28] / 128,
                           body[28] / 64 % 2, body[28] % 64))
  {
    ResponseChecked(body, {0x94}, 23);
    if IsResponse(body, {0x94}, 23) {
      var p := body[6..];
      WholeByte(p, 0);
      EuiIsBytes(p, 1);
      EuiIsBytes(p, 9);
      assert p[1..9] == body[7..15] && p[9..17] == body[15..23];
      JoinPolicyBytes(p);
    }
    hide Checked, EuiAt, JoinPolicyAt, Slice;
  }

  // ---------------------------------------------------------------- configuration writes

  lemma ThreeBytesOf(v: nat)
    requires v < 0x1000000
    ensures ToBytes(v, 3) == [v / 65536, v / 256 % 256, v % 256]
  {
    TwoBytesOf(v / 256);
    assert ToBytes(v, 3) == ToBytes(v / 256, 2) + [v % 256];
  }

  lemma FourBytesOf(v: nat)
    requires v < 0x1_0000_0000
    ensures ToBytes(v, 4) == [v / 16777216, v / 65536 % 256, v / 256 % 256, v % 256]
  {
    ThreeBytesOf(v / 256);
    assert ToBytes(v, 4) == ToBytes(v / 256, 3) + [v % 256];
  }

  lemma Digits(a: byte, b: byte, c: byte)
    ensures var v := a as int * 65536 + b as int * 256 + c as int;
            v / 65536 == a && v / 256 % 256 == b && v % 256 == c && v < 0x1000000
  {
    DivMod(65536, a, b as int * 256 + c as int);
    DivMod(256, a as int * 256 + b as int, c);
    DivMod(256, a, b);
  }

  /** Three bytes are the big-endian form of exactly one number. */
  lemma ThreeBytesIff(v: nat, data: seq<byte>)
    requires |data| == 3
    ensures v < 0x1000000 && data == ToBytes(v, 3) <==> v == Be24(data, 0)
  {
    if v < 0x1000000 { ThreeBytesOf(v); }
    Digits(data[0], data[1], data[2]);
    assert data == [data[0], data[1], data[2]];
    hide ToBytes;
  }

  lemma FourBytesIff(v: nat, data: seq<byte>)
    requires |data| == 4
    ensures v < 0x1_0000_0000 && data == ToBytes(v, 4) <==> v == Be32(data, 0)
  {
    var high, last := data[..3], data[3];
    ThreeBytesIff(v / 256, high);
    assert ToBytes(v, 4) == ToBytes(v / 256, 3) + [v % 256];
    hide ToBytes;
    assert data == high + [last] && (ToBytes(v, 4))[..3] == ToBytes(v / 256, 3);
    assert Be32(data, 0) == Be24(high, 0) * 256 + last as int;
    assert v == v / 256 * 256 + v % 256;
  }

  lemma TwoBytesIff(v: nat, data: seq<byte>)
    requires |data| == 2
    ensures v < 0x10000 && data == ToBytes(v, 2) <==> v == Be16(data, 0)
  {
    if v < 0x10000 { TwoBytesOf(v); }
    assert data == [data[0], data[1]];
    hide ToBytes;
  }

  /** A sampling write is the type and a positive number in three bytes, high byte first. */
  lemma SamplingWriteBytes(seconds: int, body: seq<byte>)
    ensures EncodeSamplingWrite(seconds) == Success(body) <==>
            |body| == 4 && body[0] == 0x82 && seconds == Be24(body, 1) && seconds > 0
  {
    hide ToBytes;
    if |body| == 4 && seconds > 0 {
      ThreeBytesIff(seconds, body[1..]);
      assert body == [body[0]] + body[1..];
      if 1 <= seconds <= 0xFFFFFF { assert ([0x82] + ToBytes(seconds, 3))[1..] == ToBytes(seconds, 3); }
    }
  }

  lemma SlotTimeWriteBytes(seconds: int, body: seq<byte>)
    ensures EncodeSlotTimeWrite(seconds) == Success(body) <==>
            |body| == 3 && body[0] == 0x90 && seconds == Be16(body, 1) && seconds > 0
  {
    hide ToBytes;
    if |body| == 3 && seconds > 0 {
      TwoBytesIff(seconds, body[1..]);
      assert body == [body[0]] + body[1..];
      if 1 <= seconds <= 0xFFFF { assert ([0x90] + ToBytes(seconds, 2))[1..] == ToBytes(seconds, 2); }
    }
  }

  /** The axes from z to x are the low three bits, and one of them is set. */
  lemma ChannelsWriteBytes(enabled: AxisSet, body: seq<byte>)
    ensures EncodeChannelsWrite(enabled) == Success(body) <==>
            && |body| == 2 && body[0] == 0x9A && 0 < body[1] < 8
            && (enabled.z <==> body[1] / 4 % 2 == 1) && (enabled.y <==> body[1] / 2 % 2 == 1)
            && (enabled.x <==> body[1] % 2 == 1)
  {
    if |body| == 2 { assert body == [body[0], body[1]]; }
  }

  lemma WordOfWrite(body: seq<byte>, start: seq<byte>, before: seq<byte>, v: nat, after: seq<byte>)
    requires v < 0x1_0000_0000 && body == start + (before + ToBytes(v, 4) + after)
    ensures var j := |start| + |before|; body[j..j + 4] == ToBytes(v, 4) && Be32(body, j) == v
  {
    FourBytesOf(v);
    hide ToBytes;
    var j := |start| + |before|;
    assert body[j..j + 4] == ToBytes(v, 4);
    assert body[j] == ToBytes(v, 4)[0] && body[j + 1] == ToBytes(v, 4)[1];
    assert body[j + 2] == ToBytes(v, 4)[2] && body[j + 3] == ToBytes(v, 4)[3];
  }

  /** The mask has a bit for every frequency that is not zero, the first one on top, and all eight
      frequencies follow, high byte first. */
  lemma ChannelsOfWrite(amType: byte, frequencies: seq<int>, i: nat)
    requires i < 8
    ensures EncodeLoraChannels(amType, frequencies).Success? <==>
            (amType == 0x85 || amType == 0x8E) && |frequencies| == 8
            && forall k :: 0 <= k < 8 ==> 0 <= frequencies[k] < 0x1_0000_0000
    ensures EncodeLoraChannels(amType, frequencies).Success? ==>
              var body := EncodeLoraChannels(amType, frequencies).value;
              && |body| == 35 && body[0] == amType && body[1] == 0
              && (body[2] / Pow2(7 - i) % 2 == 1 <==> frequencies[i] != 0)
              && body[3 + 4 * i..7 + 4 * i] == ToBytes(frequencies[i], 4) && Be32(body, 3 + 4 * i) == frequencies[i]
  {
    if EncodeLoraChannels(amType, frequencies).Success? {
      var body, mask := EncodeLoraChannels(amType, frequencies).value, MaskSum(frequencies, 8);
      assert body == [amType, 0x00, mask] + Join4(frequencies) && frequencies[i] < 0x1_0000_0000;
      hide EncodeLoraChannels, MaskSum, Join4, Slice, Pow2, Flag, ToBytes;
      var p := body[1..];
      ChannelFlag(p, frequencies, i);
      FlagInByte(p, 1, i);
      Join4Splits(frequencies, i);
      FourBytesOf(frequencies[i]);
      WordOfWrite(body, [amType, 0x00, mask], Join4(frequencies[..i]), frequencies[i], Join4(frequencies[i + 1..]));
    }
  }

  lemma BigEndianOfToBytes(v: nat, n: nat)
    requires v < Pow2(8 * n)
    ensures BigEndian(ToBytes(v, n)) == v
  {
    BitsOfIsBigEndian(ToBytes(v, n));
    BitsOfToBytes(v, n);
    FromToBits(v, 8 * n);
  }

  /** A join write holds the node and the network, each added to one fixed identifier of 64 bits, and
      six fixed bytes of policy. */
  lemma JoinWriteBytes(nodeId: int, networkId: int)
    ensures EncodeEmbeddedJoin(nodeId, networkId).Success? <==> 0 <= nodeId < 0x100000 && 0 < networkId < 0x1_0000_0000
    ensures EncodeEmbeddedJoin(nodeId, networkId).Success? ==>
              var body := EncodeEmbeddedJoin(nodeId, networkId).value;
              && |body| == 24 && body[..2] == [0x94, 0x00] && body[18..] == [0x27, 0x60, 0x00, 0x01, 0x18, 0x00]
              && BigEndian(body[2..10]) == 0x70B3_D52C_7010_0000 + nodeId
              && BigEndian(body[10..18]) == 0x70B3_D52C_7010_0000 + networkId
  {
    if EncodeEmbeddedJoin(nodeId, networkId).Success? {
      var body := EncodeEmbeddedJoin(nodeId, networkId).value;
      assert body[2..10] == ToBytes(JOIN_BASE + nodeId, 8) && body[10..18] == ToBytes(JOIN_BASE + networkId, 8);
      assert body[18..] == JOIN_SUFFIX && body[..2] == [0x94, 0x00];
      hide EncodeEmbeddedJoin, ToBytes, BigEndian;
      Pow2Of64();
      hide Pow2;
      BigEndianOfToBytes(JOIN_BASE + nodeId, 8);
      BigEndianOfToBytes(JOIN_BASE + networkId, 8);
    }
  }
}
