/** Decoders of configuration responses (tools/packet_parser/messages.py).  Their layouts are
    fixed, so each is proved against a table of absolute bit positions. */
module ConfigMessages {
  import opened Common
  import opened BitNumbers
  import opened BitReader
  import opened Framing
  import opened Messages

  /** The payload of a response with at least `width` bits: errors of the header come first. */
  function Checked(body: seq<byte>, allowed: set<byte>, width: nat): (r: Result<seq<byte>, FrameError>)
    ensures r.Success? ==> 8 * |r.value| >= width
  {
    var header :- CheckedHeader(body, allowed);
    if 8 * |PayloadOf(body)| < width then Failure(IncompleteFrame) else Success(PayloadOf(body))
  }

  function Flag(p: seq<byte>, k: nat): bool
    requires k < 8 * |p|
  {
    Slice(p, k, 1) != 0
  }

  // ---------------------------------------------------------------- single numbers

  function NumberOf(body: seq<byte>, allowed: set<byte>, width: nat): Result<nat, FrameError> {
    var p :- Checked(body, allowed, width);
    Success(Slice(p, 0, width))
  }

  /** decode_sampling_rate, decode_lora_slot_time, decode_lora_network_id: one number. */
  method DecodeNumber(body: seq<byte>, allowed: set<byte>, width: nat) returns (r: Result<nat, FrameError>)
    requires width > 0
    ensures r == NumberOf(body, allowed, width)
  {
    hide CheckedHeader, PayloadOf, Slice, From;
    var payload :- Payload(body, allowed);
    var bits := payload.1;
    r := bits.Unsigned(width);
  }

  function SamplingOf(body: seq<byte>): Result<nat, FrameError> {
    NumberOf(body, {0x82}, 24)
  }

  function SlotTimeOf(body: seq<byte>): Result<nat, FrameError> {
    NumberOf(body, {0x90}, 16)
  }

  // ---------------------------------------------------------------- enabled axes, AM 0x9A

  datatype AxisSet = AxisSet(x: bool, y: bool, z: bool)

  datatype Inc360Channels = Inc360Channels(version: nat, reserved: nat, enabled: AxisSet)

  function Inc360At(p: seq<byte>, k: nat): Inc360Channels
    requires k + 8 <= 8 * |p|
  {
    Inc360Channels(Slice(p, k, 2), Slice(p, k + 2, 3), AxisSet(Flag(p, k + 7), Flag(p, k + 6), Flag(p, k + 5)))
  }

  function Inc360Of(body: seq<byte>): Result<Inc360Channels, FrameError> {
    var p :- Checked(body, {0x9A}, 8);
    Success(Inc360At(p, 0))
  }

  method ReadInc360(bits: Bits) returns (r: Result<Inc360Channels, FrameError>)
    requires bits.Valid()
    modifies bits
    ensures r.Success? <==> old(bits.offset) + 8 <= 8 * |bits.data|
    ensures r.Success? ==> r.value == Inc360At(bits.data, old(bits.offset))
    ensures r.Failure? ==> r.error == IncompleteFrame
  {
    hide Slice, From, BitsOf, ToBits;
    var version :- bits.Unsigned(2);
    var reserved :- bits.Unsigned(3);
    var z :- bits.Boolean();
    var y :- bits.Boolean();
    var x :- bits.Boolean();
    return Success(Inc360Channels(version, reserved, AxisSet(x, y, z)));
  }

  method DecodeInc360ChannelConfig(body: seq<byte>) returns (r: Result<Inc360Channels, FrameError>)
    ensures r == Inc360Of(body)
  {
    hide CheckedHeader, PayloadOf, Inc360At;
    var payload :- Payload(body, {0x9A});
    r := ReadInc360(payload.1);
  }

  // ---------------------------------------------------------------- LoRa channels, AM 0x85 and 0x8E

  datatype LoraChannels = LoraChannels(version: nat, kind: nat, enabled: seq<bool>, frequencies: seq<nat>)

  /** Channel `i` is enabled by bit `8 + i`; a disabled channel reports frequency 0. */
  function LoraChannelsAt(p: seq<byte>, k: nat): LoraChannels
    requires k + 272 <= 8 * |p|
  {
    LoraChannels(
      Slice(p, k, 4), Slice(p, k + 4, 4), seq(8, i requires 0 <= i < 8 => Flag(p, k + 8 + i)),
      seq(8, i requires 0 <= i < 8 => if Flag(p, k + 8 + i) then Slice(p, k + 16 + 32 * i, 32) else 0))
  }

  function LoraChannelsOf(body: seq<byte>): Result<LoraChannels, FrameError> {
    var p :- Checked(body, {0x85, 0x8E}, 272);
    Success(LoraChannelsAt(p, 0))
  }

  /** Bit `index` of an eight-bit mask, counted from the top. */
  function MaskBit(mask: nat, index: nat): bool
    requires index < 8
  {
    mask / Pow2(7 - index) % 2 == 1
  }

  lemma FlagIsBit(p: seq<byte>, k: nat)
    requires k < 8 * |p|
    ensures Flag(p, k) == BitsOf(p)[k]
  {
    hide BitsOf;
    var one := BitsOf(p)[k..k + 1];
    assert one == [BitsOf(p)[k]] && one[..0] == [];
    assert FromBits(one) == if one[0] then 1 else 0;
  }

  lemma MaskBitIsFlag(p: seq<byte>, k: nat, index: nat)
    requires index < 8 && k + 8 <= 8 * |p|
    ensures MaskBit(Slice(p, k, 8), index) == Flag(p, k + index)
  {
    var bits := BitsOf(p)[k..k + 8];
    ToFromBits(bits);
    ToBitsAt(FromBits(bits), 8, index);
    FlagIsBit(p, k + index);
  }

  method ReadLoraChannels(bits: Bits) returns (r: Result<LoraChannels, FrameError>)
    requires bits.Valid()
    modifies bits
    ensures r.Success? <==> old(bits.offset) + 272 <= 8 * |bits.data|
    ensures r.Success? ==> r.value == LoraChannelsAt(bits.data, old(bits.offset))
    ensures r.Failure? ==> r.error == IncompleteFrame
  {
    hide Slice, From, BitsOf, ToBits, Pow2, MaskBit, Flag;
    ghost var p, k := bits.data, bits.offset;
    var version :- bits.Unsigned(4);
    var kind :- bits.Unsigned(4);
    var mask :- bits.Unsigned(8);
    var enabled := seq(8, i requires 0 <= i < 8 => MaskBit(mask, i));
    assert forall i :: 0 <= i < 8 ==> enabled[i] == Flag(p, k + 8 + i) by {
      forall i | 0 <= i < 8 ensures enabled[i] == Flag(p, k + 8 + i) { MaskBitIsFlag(p, k + 8, i); }
    }
    var raw: seq<nat> := [];
    for index := 0 to 8
      invariant bits.Valid() && bits.offset == k + 16 + 32 * index <= 8 * |p| && |raw| == index
      invariant forall i :: 0 <= i < index ==> raw[i] == Slice(p, k + 16 + 32 * i, 32)
    {
      var frequency :- bits.Unsigned(32);
      raw := raw + [frequency];
    }
    var frequencies := seq(8, i requires 0 <= i < 8 => if enabled[i] then raw[i] else 0);
    r := Success(LoraChannels(version, kind, enabled, frequencies));
    assert enabled == LoraChannelsAt(p, k).enabled && frequencies == LoraChannelsAt(p, k).frequencies;
  }

  method DecodeLoraChannelsConfig(body: seq<byte>) returns (r: Result<LoraChannels, FrameError>)
    ensures r == LoraChannelsOf(body)
  {
    hide CheckedHeader, PayloadOf, LoraChannelsAt;
    var payload :- Payload(body, {0x85, 0x8E});
    r := ReadLoraChannels(payload.1);
  }

  // ---------------------------------------------------------------- LoRa general, AM 0x84

  datatype LoraRadio = LoraRadio(
    messageVersion: nat, macVersion: nat, channel500: bool, radio: bool, etsi: bool, adr: bool,
    spreadingFactor: nat, txPower: nat)

  datatype LoraRx2 = LoraRx2(
    dutyCycle: bool, customRx2: bool, spreadingFactor: nat, frequency: nat, sendSlotTime: nat)

  datatype LoraGeneral = LoraGeneral(radio: LoraRadio, rx2: LoraRx2)

  function LoraRadioAt(p: seq<byte>, k: nat): LoraRadio
    requires k + 24 <= 8 * |p|
  {
    LoraRadio(Slice(p, k, 4), Slice(p, k + 4, 4), Flag(p, k + 8), Flag(p, k + 9), Flag(p, k + 10), Flag(p, k + 11),
              Slice(p, k + 12, 4), Slice(p, k + 16, 8))
  }

  /** The first two bits are reserved. */
  function LoraRx2At(p: seq<byte>, k: nat): LoraRx2
    requires k + 56 <= 8 * |p|
  {
    LoraRx2(Flag(p, k + 2), Flag(p, k + 3), Slice(p, k + 4, 4), Slice(p, k + 8, 32), Slice(p, k + 40, 16))
  }

  function LoraGeneralOf(body: seq<byte>): Result<LoraGeneral, FrameError> {
    var p :- Checked(body, {0x84}, 80);
    Success(LoraGeneral(LoraRadioAt(p, 0), LoraRx2At(p, 24)))
  }

  method ReadLoraRadio(bits: Bits) returns (r: Result<LoraRadio, FrameError>)
    requires bits.Valid()
    modifies bits
    ensures bits.Valid()
    ensures r.Success? <==> old(bits.offset) + 24 <= 8 * |bits.data|
    ensures r.Success? ==> bits.offset == old(bits.offset) + 24
                           && r.value == LoraRadioAt(bits.data, old(bits.offset))
    ensures r.Failure? ==> r.error == IncompleteFrame
  {
    hide Slice, From, BitsOf, ToBits, Pow2;
    var messageVersion :- bits.Unsigned(4);
    var macVersion :- bits.Unsigned(4);
    var channel500 :- bits.Boolean();
    var radio :- bits.Boolean();
    var etsi :- bits.Boolean();
    var adr :- bits.Boolean();
    var spreadingFactor :- bits.Unsigned(4);
    var txPower :- bits.Unsigned(8);
    return Success(LoraRadio(messageVersion, macVersion, channel500, radio, etsi, adr, spreadingFactor, txPower));
  }

  method ReadLoraRx2(bits: Bits) returns (r: Result<LoraRx2, FrameError>)
    requires bits.Valid()
    modifies bits
    ensures bits.Valid()
    ensures r.Success? <==> old(bits.offset) + 56 <= 8 * |bits.data|
    ensures r.Success? ==> r.value == LoraRx2At(bits.data, old(bits.offset))
    ensures r.Failure? ==> r.error == IncompleteFrame
  {
    hide Slice, From, BitsOf, ToBits, Pow2;
    var _ :- bits.Unsigned(2);
    var dutyCycle :- bits.Boolean();
    var customRx2 :- bits.Boolean();
    var spreadingFactor :- bits.Unsigned(4);
    var frequency :- bits.Unsigned(32);
    var sendSlotTime :- bits.Unsigned(16);
    return Success(LoraRx2(dutyCycle, customRx2, spreadingFactor, frequency, sendSlotTime));
  }

  method DecodeLoraGeneralConfig(body: seq<byte>) returns (r: Result<LoraGeneral, FrameError>)
    ensures r == LoraGeneralOf(body)
  {
    hide CheckedHeader, PayloadOf, LoraRadioAt, LoraRx2At;
    var payload :- Payload(body, {0x84});
    var radio :- ReadLoraRadio(payload.1);
    var rx2 :- ReadLoraRx2(payload.1);
    return Success(LoraGeneral(radio, rx2));
  }

  // ---------------------------------------------------------------- LoRa join, AM 0x94

  datatype JoinPolicy = JoinPolicy(
    maxTimeWithoutDownlink: nat, retryDivisor: nat, retryMinMultiplier: nat, retryFailureMultiplier: nat,
    maxLinkChecks: nat, activationMode: nat, frameCounterMode: nat, reservedSuffix: nat)

  datatype LoraJoin = LoraJoin(reservedPrefix: nat, devEui: seq<nat>, appEui: seq<nat>, policy: JoinPolicy)

  /** Eight bytes of an identifier, from bit `k` on. */
  function EuiAt(p: seq<byte>, k: nat): seq<nat>
    requires k + 64 <= 8 * |p|
  {
    seq(8, i requires 0 <= i < 8 => Slice(p, k + 8 * i, 8))
  }

  function JoinPolicyAt(p: seq<byte>, k: nat): JoinPolicy
    requires k + 48 <= 8 * |p|
  {
    JoinPolicy(Slice(p, k, 16), Slice(p, k + 16, 8), Slice(p, k + 24, 6), Slice(p, k + 30, 2), Slice(p, k + 32, 8),
               Slice(p, k + 40, 1), Slice(p, k + 41, 1), Slice(p, k + 42, 6))
  }

  function LoraJoinOf(body: seq<byte>): Result<LoraJoin, FrameError> {
    var p :- Checked(body, {0x94}, 184);
    Success(LoraJoin(Slice(p, 0, 8), EuiAt(p, 8), EuiAt(p, 72), JoinPolicyAt(p, 136)))
  }

  method ReadEui(bits: Bits) returns (r: Result<seq<nat>, FrameError>)
    requires bits.Valid()
    modifies bits
    ensures bits.Valid()
    ensures r.Success? <==> old(bits.offset) + 64 <= 8 * |bits.data|
    ensures r.Failure? ==> r.error == IncompleteFrame
    ensures r.Success? ==> bits.offset == old(bits.offset) + 64 && r.value == EuiAt(bits.data, old(bits.offset))
  {
    hide Slice, From, BitsOf, ToBits, Pow2;
    var eui: seq<nat> := [];
    for index := 0 to 8
      invariant bits.Valid() && bits.offset == old(bits.offset) + 8 * index <= 8 * |bits.data| && |eui| == index
      invariant forall i :: 0 <= i < index ==> eui[i] == Slice(bits.data, old(bits.offset) + 8 * i, 8)
    {
      var value :- bits.Unsigned(8);
      eui := eui + [value];
    }
    return Success(eui);
  }

  method ReadJoinPolicy(bits: Bits) returns (r: Result<JoinPolicy, FrameError>)
    requires bits.Valid()
    modifies bits
    ensures bits.Valid()
    ensures r.Success? <==> old(bits.offset) + 48 <= 8 * |bits.data|
    ensures r.Failure? ==> r.error == IncompleteFrame
    ensures r.Success? ==> r.value == JoinPolicyAt(bits.data, old(bits.offset))
  {
    hide Slice, From, BitsOf, ToBits, Pow2;
    var maxTime :- bits.Unsigned(16);
    var divisor :- bits.Unsigned(8);
    var minMultiplier :- bits.Unsigned(6);
    var failureMultiplier :- bits.Unsigned(2);
    var maxLinkChecks :- bits.Unsigned(8);
    var activationMode :- bits.Unsigned(1);
    var frameCounterMode :- bits.Unsigned(1);
    var reservedSuffix :- bits.Unsigned(6);
    return Success(JoinPolicy(maxTime, divisor, minMultiplier, failureMultiplier, maxLinkChecks, activationMode,
                              frameCounterMode, reservedSuffix));
  }

  method DecodeLoraJoinConfig(body: seq<byte>) returns (r: Result<LoraJoin, FrameError>)
    ensures r == LoraJoinOf(body)
  {
    hide CheckedHeader, PayloadOf, Slice, From, BitsOf, ToBits, Pow2, EuiAt, JoinPolicyAt;
    var payload :- Payload(body, {0x94});
    var bits := payload.1;
    var reservedPrefix :- bits.Unsigned(8);
    var devEui :- ReadEui(bits);
    var appEui :- ReadEui(bits);
    var policy :- ReadJoinPolicy(bits);
    return Success(LoraJoin(reservedPrefix, devEui, appEui, policy));
  }
}
