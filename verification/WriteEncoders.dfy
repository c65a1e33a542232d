/** Encoders of configuration writes (tools/config_backup.py, tools/radio_configuration.py), and
    their agreement with the decoders of the matching responses. */
module WriteEncoders {
  import opened Common
  import opened BitNumbers
  import opened BitReader
  import opened Crc
  import opened Framing
  import opened Messages
  import opened ConfigMessages

  datatype EncodeError = OutOfRange | NoAxis | UnsupportedType | WrongCount | TooShort

  // ---------------------------------------------------------------- encoders

  function EncodeSamplingWrite(seconds: int): Result<seq<byte>, EncodeError> {
    if !(1 <= seconds <= 0xFFFFFF) then Failure(OutOfRange) else Success([0x82] + ToBytes(seconds, 3))
  }

  function EncodeChannelsWrite(enabled: AxisSet): Result<seq<byte>, EncodeError> {
    if !enabled.x && !enabled.y && !enabled.z then Failure(NoAxis)
    else
      var flags := (if enabled.z then 4 else 0) + (if enabled.y then 2 else 0) + (if enabled.x then 1 else 0);
      Success([0x9A, flags])
  }

  function EncodeSlotTimeWrite(seconds: int): Result<seq<byte>, EncodeError> {
    if !(1 <= seconds <= 0xFFFF) then Failure(OutOfRange) else Success([0x90] + ToBytes(seconds, 2))
  }

  /** The sum of the mask bits of the first `k` frequencies that are not zero. */
  function MaskSum(frequencies: seq<nat>, k: nat): nat
    requires k <= |frequencies| <= 8
  {
    if k == 0 then 0
    else MaskSum(frequencies, k - 1) + if frequencies[k - 1] != 0 then Pow2(8 - k) else 0
  }

  function Join4(frequencies: seq<nat>): (data: seq<byte>)
    ensures |data| == 4 * |frequencies|
  {
    if frequencies == [] then [] else ToBytes(frequencies[0], 4) + Join4(frequencies[1..])
  }

  predicate AllWords(frequencies: seq<int>) {
    forall i :: 0 <= i < |frequencies| ==> 0 <= frequencies[i] <= 0xFFFFFFFF
  }

  function NonZero(frequencies: seq<nat>): seq<bool> {
    seq(|frequencies|, i requires 0 <= i < |frequencies| => frequencies[i] != 0)
  }

  lemma MaskStep(x: nat, bit: nat, p: nat, m: nat)
    requires bit <= 1 && x < m && p >= 1
    ensures (2 * x + bit) * p == x * (2 * p) + (if bit == 1 then p else 0)
    ensures (2 * x + bit) * p < 2 * m * p
  {
    MulAtLeast(2 * m - (2 * x + bit), p);
    assert (2 * m - (2 * x + bit)) * p == 2 * m * p - (2 * x + bit) * p;
  }

  lemma OneBitMore(flags: seq<bool>, k: nat)
    requires 0 < k <= |flags| == 8
    ensures FromBits(flags[..k]) == 2 * FromBits(flags[..k - 1]) + if flags[k - 1] then 1 else 0
    ensures FromBits(flags[..k - 1]) < Pow2(k - 1)
    ensures Pow2(8 - (k - 1)) == 2 * Pow2(8 - k) && Pow2(k) == 2 * Pow2(k - 1)
  {
    assert flags[..k][..k - 1] == flags[..k - 1];
  }

  /** Summing shifted ones spells the flags as a binary number. */
  lemma {:induction false} MaskIsFlags(frequencies: seq<nat>, k: nat)
    requires k <= |frequencies| == 8
    ensures MaskSum(frequencies, k) == FromBits(NonZero(frequencies)[..k]) * Pow2(8 - k) < Pow2(8)
    decreases k
  {
    var flags := NonZero(frequencies);
    if k == 0 {
      assert Pow2(8) > 0;
    } else {
      MaskIsFlags(frequencies, k - 1);
      OneBitMore(flags, k);
      Pow2Sum(k, 8 - k);
      assert MaskSum(frequencies, k) == MaskSum(frequencies, k - 1) + if flags[k - 1] then Pow2(8 - k) else 0;
      hide *;
      MaskStep(FromBits(flags[..k - 1]), if flags[k - 1] then 1 else 0, Pow2(8 - k), Pow2(k - 1));
    }
  }

  function EncodeLoraChannels(amType: byte, frequencies: seq<int>): Result<seq<byte>, EncodeError> {
    if amType !in {0x85, 0x8E} then Failure(UnsupportedType)
    else if |frequencies| != 8 || !AllWords(frequencies) then Failure(WrongCount)
    else
      var mask := MaskSum(frequencies, 8);
      assert mask < 256 by { MaskIsFlags(frequencies, 8); Pow2Of8(); }
      Success([amType, 0x00, mask] + Join4(frequencies))
  }

  const JOIN_BASE := 0x70B3D52C70100000

  const JOIN_SUFFIX: seq<byte> := [0x27, 0x60, 0x00, 0x01, 0x18, 0x00]

  function EncodeEmbeddedJoin(nodeId: int, networkId: int): Result<seq<byte>, EncodeError> {
    if !(0 <= nodeId <= 0xFFFFF) || !(1 <= networkId <= 0xFFFFFFFF) then Failure(OutOfRange)
    else Success([0x94, 0x00] + ToBytes(JOIN_BASE + nodeId, 8) + ToBytes(JOIN_BASE + networkId, 8) + JOIN_SUFFIX)
  }

  /** The authentication write.  The digests are two SHA-1 digests of the network ID, the password
      and a fixed text. */
  function EncodeEmbeddedAuth(networkId: int, passwordBytes: nat, appDigest: seq<byte>, netDigest: seq<byte>)
    : Result<seq<byte>, EncodeError>
    requires |appDigest| == |netDigest| == 20
  {
    if !(1 <= networkId <= 0xFFFFFFFF) || !(1 <= passwordBytes <= 128) then Failure(OutOfRange)
    else
      var body := [0x8D] + appDigest[..16] + netDigest[..16] + ToBytes(networkId, 4);
      Success(body + ToBytes(Crc16(body[1..]), 2))
  }

  /** _backup_body: the write that repeats a response. */
  function BackupBody(raw: seq<byte>): Result<seq<byte>, EncodeError> {
    if |raw| < 7 then Failure(TooShort) else Success(raw[5..])
  }

  // ---------------------------------------------------------------- bytes and bits

  /** Five header bytes of protocol version 4; the sixth is the type a write body starts with. */
  predicate HeaderStart(h: seq<byte>) {
    |h| == 5 && h[0] / 16 == REQUIRED_VERSION
  }

  lemma ResponseOf(h: seq<byte>, body: seq<byte>, allowed: set<byte>, width: nat)
    requires HeaderStart(h) && body != []
    ensures PayloadOf(h + body) == body[1..]
    ensures Checked(h + body, allowed, width) ==
            if body[0] !in allowed then Failure(MalformedFrame)
            else if 8 * |body[1..]| < width then Failure(IncompleteFrame)
            else Success(body[1..])
  {
    var all := h + body;
    assert all[6..] == body[1..] && all[0] == h[0] && all[5] == body[0];
  }

  lemma {:induction false} Pow256(n: nat)
    ensures Pow2(8 * n) == if n == 0 then 1 else 256 * Pow2(8 * (n - 1))
  {
    if n > 0 {
      Pow2Sum(8, 8 * (n - 1));
      Pow2Of8();
    }
  }

  /** A number written big-endian anywhere in a payload is read back there. */
  lemma NumberAt(before: seq<byte>, v: nat, n: nat, after: seq<byte>)
    requires v < Pow2(8 * n)
    ensures Slice(before + ToBytes(v, n) + after, 8 * |before|, 8 * n) == v
  {
    hide BitsOf, ToBytes, ToBits, FromBits, Pow2;
    BitsOfConcat(before + ToBytes(v, n), after);
    BitsOfConcat(before, ToBytes(v, n));
    BitsOfToBytes(v, n);
    FromToBits(v, 8 * n);
    var all := BitsOf(before) + ToBits(v, 8 * n) + BitsOf(after);
    assert all[8 * |before|..8 * |before| + 8 * n] == ToBits(v, 8 * n);
  }

  lemma OneByte(v: byte)
    ensures ToBytes(v, 1) == [v] && v < Pow2(8)
  {
    Pow2Of8();
    assert ToBytes(0, 0) == [];
  }

  // ---------------------------------------------------------------- agreement: numbers and axes

  lemma SamplingAgrees(h: seq<byte>, seconds: int)
    requires HeaderStart(h) && EncodeSamplingWrite(seconds).Success?
    ensures SamplingOf(h + EncodeSamplingWrite(seconds).value) == Success(seconds)
  {
    var body := EncodeSamplingWrite(seconds).value;
    Pow256(3);
    Pow256(2);
    Pow256(1);
    NumberAt([], seconds, 3, []);
    assert [] + ToBytes(seconds, 3) + [] == ToBytes(seconds, 3) == body[1..];
    ResponseOf(h, body, {0x82}, 24);
  }

  lemma SlotTimeAgrees(h: seq<byte>, seconds: int)
    requires HeaderStart(h) && EncodeSlotTimeWrite(seconds).Success?
    ensures SlotTimeOf(h + EncodeSlotTimeWrite(seconds).value) == Success(seconds)
  {
    var body := EncodeSlotTimeWrite(seconds).value;
    Pow256(2);
    Pow256(1);
    NumberAt([], seconds, 2, []);
    assert [] + ToBytes(seconds, 2) + [] == ToBytes(seconds, 2) == body[1..];
    ResponseOf(h, body, {0x90}, 16);
  }

  lemma FlagOfByte(p: seq<byte>, k: nat)
    requires k < 8 * |p|
    ensures Flag(p, k) == (p[k / 8] / Pow2(7 - k % 8) % 2 == 1)
  {
    FlagIsBit(p, k);
    BitsOfAt(p, k);
  }

  lemma ZeroBits(p: seq<byte>, k: nat, w: nat)
    requires k + w <= 8 * |p| && forall j :: k <= j < k + w ==> !Flag(p, j)
    ensures Slice(p, k, w) == 0
  {
    forall j | k <= j < k + w ensures !BitsOf(p)[j] { FlagIsBit(p, j); }
    AllFalse(BitsOf(p)[k..k + w]);
  }

  lemma LowPowers()
    ensures Pow2(0) == 1 && Pow2(1) == 2 && Pow2(2) == 4 && Pow2(3) == 8 && Pow2(4) == 16 && Pow2(5) == 32
    ensures Pow2(6) == 64 && Pow2(7) == 128
  {
    assert Pow2(3) == 8;
  }

  /** The low three bits of a byte below 8. */
  lemma LowBits(p: seq<byte>, z: bool, y: bool, x: bool)
    requires p == [(if z then 4 else 0) + (if y then 2 else 0) + (if x then 1 else 0)]
    ensures Flag(p, 5) == z && Flag(p, 6) == y && Flag(p, 7) == x
    ensures forall j :: 0 <= j < 5 ==> !Flag(p, j)
  {
    LowPowers();
    hide Flag, Pow2;
    forall j | 0 <= j < 5 ensures !Flag(p, j) {
      FlagOfByte(p, j);
      assert j == 0 || j == 1 || j == 2 || j == 3 || j == 4;
    }
    FlagOfByte(p, 5);
    FlagOfByte(p, 6);
    FlagOfByte(p, 7);
  }

  /** Any non-empty axis set is written and read back as itself, with version and reserved 0. */
  lemma ChannelsAgree(h: seq<byte>, enabled: AxisSet)
    requires HeaderStart(h) && EncodeChannelsWrite(enabled).Success?
    ensures Inc360Of(h + EncodeChannelsWrite(enabled).value) == Success(Inc360Channels(0, 0, enabled))
  {
    var body := EncodeChannelsWrite(enabled).value;
    ResponseOf(h, body, {0x9A}, 8);
    hide Checked, Flag, Slice;
    LowBits(body[1..], enabled.z, enabled.y, enabled.x);
    ZeroBits(body[1..], 0, 2);
    ZeroBits(body[1..], 2, 3);
  }

  // ---------------------------------------------------------------- agreement: LoRa channels

  lemma {:induction false} Join4Splits(frequencies: seq<nat>, i: nat)
    requires i < |frequencies|
    ensures Join4(frequencies) == Join4(frequencies[..i]) + ToBytes(frequencies[i], 4) + Join4(frequencies[i + 1..])
    decreases i
  {
    hide ToBytes;
    if i > 0 {
      Join4Splits(frequencies[1..], i - 1);
      assert frequencies[1..][..i - 1] == frequencies[..i][1..];
      assert frequencies[1..][i..] == frequencies[i + 1..];
      var a, b, c := Join4(frequencies[..i][1..]), ToBytes(frequencies[i], 4), Join4(frequencies[i + 1..]);
      assert ToBytes(frequencies[0], 4) + (a + b + c) == ToBytes(frequencies[0], 4) + a + b + c;
    }
  }

  lemma SameChannels(p: seq<byte>, frequencies: seq<nat>)
    requires |frequencies| == 8 && 8 * |p| == 272 && Slice(p, 0, 4) == 0 && Slice(p, 4, 4) == 0
    requires forall i :: 0 <= i < 8 ==> Flag(p, 8 + i) == (frequencies[i] != 0)
    requires forall i :: 0 <= i < 8 ==> Slice(p, 16 + 32 * i, 32) == frequencies[i]
    ensures LoraChannelsAt(p, 0) == LoraChannels(0, 0, NonZero(frequencies), frequencies)
  {
    hide Slice, Flag;
    var got := LoraChannelsAt(p, 0);
    assert got.enabled == NonZero(frequencies);
    assert got.frequencies == frequencies;
  }

  lemma ZeroByteBits(p: seq<byte>)
    requires p != [] && p[0] == 0
    ensures Slice(p, 0, 4) == 0 && Slice(p, 4, 4) == 0
  {
    forall j | 0 <= j < 8 ensures !Flag(p, j) {
      FlagOfByte(p, j);
      assert p[j / 8] == 0;
    }
    hide Slice, Flag;
    ZeroBits(p, 0, 4);
    ZeroBits(p, 4, 4);
  }

  lemma ChannelFlag(p: seq<byte>, frequencies: seq<nat>, i: nat)
    requires i < 8 && |frequencies| == 8 && |p| >= 2 && p[1] == MaskSum(frequencies, 8)
    ensures Flag(p, 8 + i) == (frequencies[i] != 0)
  {
    var flags := NonZero(frequencies);
    MaskIsFlags(frequencies, 8);
    assert flags[..8] == flags && Pow2(0) == 1;
    FlagOfByte(p, 8 + i);
    assert (8 + i) / 8 == 1 && (8 + i) % 8 == i;
    ToFromBits(flags);
    ToBitsAt(FromBits(flags), 8, i);
  }

  lemma WordFits(v: nat)
    requires v <= 0xFFFFFFFF
    ensures v < Pow2(32)
  {
    Pow256(4);
    Pow256(3);
    Pow256(2);
    Pow256(1);
  }

  lemma ChannelFrequency(p: seq<byte>, mask: byte, frequencies: seq<nat>, i: nat)
    requires i < 8 && |frequencies| == 8 && AllWords(frequencies) && p == [0x00, mask] + Join4(frequencies)
    ensures Slice(p, 16 + 32 * i, 32) == frequencies[i]
  {
    hide Join4, ToBytes, Slice, Pow2;
    var before, after := [0x00, mask] + Join4(frequencies[..i]), Join4(frequencies[i + 1..]);
    assert |before| == 2 + 4 * i;
    Join4Splits(frequencies, i);
    assert p == before + ToBytes(frequencies[i], 4) + after by {
      var a, b, c := Join4(frequencies[..i]), ToBytes(frequencies[i], 4), after;
      assert [0x00, mask] + (a + b + c) == [0x00, mask] + a + b + c;
    }
    WordFits(frequencies[i]);
    NumberAt(before, frequencies[i], 4, after);
  }

  lemma ChannelsWritten(p: seq<byte>, mask: byte, frequencies: seq<nat>)
    requires |frequencies| == 8 && AllWords(frequencies) && mask == MaskSum(frequencies, 8)
    requires p == [0x00, mask] + Join4(frequencies)
    ensures 8 * |p| == 272 && LoraChannelsAt(p, 0) == LoraChannels(0, 0, NonZero(frequencies), frequencies)
  {
    assert p[0] == 0 && p[1] == mask;
    hide Slice, Flag, MaskSum, Join4, AllWords;
    ZeroByteBits(p);
    forall i | 0 <= i < 8
      ensures Flag(p, 8 + i) == (frequencies[i] != 0) && Slice(p, 16 + 32 * i, 32) == frequencies[i]
    {
      ChannelFlag(p, frequencies, i);
      ChannelFrequency(p, mask, frequencies, i);
    }
    SameChannels(p, frequencies);
  }

  /** Any eight 32-bit frequencies are written and read back; a channel is disabled exactly when
      its frequency is zero. */
  lemma LoraChannelsAgree(h: seq<byte>, amType: byte, frequencies: seq<nat>)
    requires HeaderStart(h) && EncodeLoraChannels(amType, frequencies).Success?
    ensures LoraChannelsOf(h + EncodeLoraChannels(amType, frequencies).value)
            == Success(LoraChannels(0, 0, NonZero(frequencies), frequencies))
  {
    var body := EncodeLoraChannels(amType, frequencies).value;
    var mask := MaskSum(frequencies, 8);
    MaskIsFlags(frequencies, 8);
    Pow2Of8();
    assert body == [amType, 0x00, mask] + Join4(frequencies);
    hide EncodeLoraChannels, MaskSum, Join4;
    ResponseOf(h, body, {0x85, 0x8E}, 272);
    assert body[1..] == [0x00, mask] + Join4(frequencies);
    hide Checked;
    ChannelsWritten(body[1..], mask, frequencies);
  }

  // ---------------------------------------------------------------- agreement: join identifiers

  lemma WholeByte(p: seq<byte>, j: nat)
    requires j < |p|
    ensures Slice(p, 8 * j, 8) == p[j]
  {
    OneByte(p[j]);
    assert p == p[..j] + [p[j]] + p[j + 1..];
    NumberAt(p[..j], p[j], 1, p[j + 1..]);
  }

  lemma MiddlePart(high: nat, mid: nat, low: nat, w: nat, c: nat)
    requires mid < w && low < c
    ensures ((high * w + mid) * c + low) / c % w == mid
  {
    DivMod(c, high * w + mid, low);
    DivMod(w, high, mid);
  }

  /** `w` bits of a byte, `a` from its top. */
  lemma PartOfByte(p: seq<byte>, j: nat, a: nat, w: nat)
    requires j < |p| && a + w <= 8
    ensures Slice(p, 8 * j + a, w) == p[j] / Pow2(8 - a - w) % Pow2(w)
  {
    hide *;
    WholeByte(p, j);
    var k, c := 8 * j, 8 - a - w;
    ReadsCombine(p, k, a + w, c);
    ReadsCombine(p, k, a, w);
    var high, mid, low := Slice(p, k, a), Slice(p, k + a, w), Slice(p, k + a + w, c);
    ReadBits(p, k + a, w);
    ReadBits(p, k + a + w, c);
    MiddlePart(high, mid, low, Pow2(w), Pow2(c));
  }

  /** An identifier is read back byte by byte. */
  lemma EuiIsBytes(p: seq<byte>, j: nat)
    requires j + 8 <= |p|
    ensures EuiAt(p, 8 * j) == p[j..j + 8]
  {
    forall i | 0 <= i < 8 ensures EuiAt(p, 8 * j)[i] == p[j + i] { WholeByte(p, j + i); }
  }

  lemma PolicyOfSuffix(p: seq<byte>)
    requires |p| == 23 && p[17..] == JOIN_SUFFIX
    ensures JoinPolicyAt(p, 136) == JoinPolicy(10080, 0, 0, 1, 24, 0, 0, 0)
  {
    LowPowers();
    hide Slice, Pow2;
    assert p[17] == JOIN_SUFFIX[0] && p[18] == JOIN_SUFFIX[1] && p[19] == JOIN_SUFFIX[2];
    assert p[20] == JOIN_SUFFIX[3] && p[21] == JOIN_SUFFIX[4] && p[22] == JOIN_SUFFIX[5];
    Pow2Of8();
    ReadsCombine(p, 136, 8, 8);
    WholeByte(p, 17);
    WholeByte(p, 18);
    WholeByte(p, 19);
    PartOfByte(p, 20, 0, 6);
    PartOfByte(p, 20, 6, 2);
    WholeByte(p, 21);
    PartOfByte(p, 22, 0, 1);
    PartOfByte(p, 22, 1, 1);
    PartOfByte(p, 22, 2, 6);
  }

  /** The join write carries both identifiers and the fixed policy. */
  lemma JoinAgrees(h: seq<byte>, nodeId: nat, networkId: nat)
    requires HeaderStart(h) && EncodeEmbeddedJoin(nodeId, networkId).Success?
    ensures LoraJoinOf(h + EncodeEmbeddedJoin(nodeId, networkId).value)
            == Success(LoraJoin(0, ToBytes(JOIN_BASE + nodeId, 8), ToBytes(JOIN_BASE + networkId, 8),
                                JoinPolicy(10080, 0, 0, 1, 24, 0, 0, 0)))
  {
    var body := EncodeEmbeddedJoin(nodeId, networkId).value;
    var dev, app := ToBytes(JOIN_BASE + nodeId, 8), ToBytes(JOIN_BASE + networkId, 8);
    hide EncodeEmbeddedJoin, ToBytes;
    var p := body[1..];
    assert p == [0x00] + dev + app + JOIN_SUFFIX;
    ResponseOf(h, body, {0x94}, 184);
    hide Checked, Slice, EuiAt, JoinPolicyAt;
    WholeByte(p, 0);
    EuiIsBytes(p, 1);
    assert p[1..9] == dev;
    EuiIsBytes(p, 9);
    assert p[9..17] == app;
    assert p[17..] == JOIN_SUFFIX;
    PolicyOfSuffix(p);
  }

  lemma ToBytesInjective(v: nat, w: nat, n: nat)
    requires v < Pow2(8 * n) && w < Pow2(8 * n) && ToBytes(v, n) == ToBytes(w, n)
    ensures v == w
  {
    BitsOfToBytes(v, n);
    BitsOfToBytes(w, n);
    FromToBits(v, 8 * n);
    FromToBits(w, 8 * n);
  }

  lemma Pow2Of64()
    ensures Pow2(64) == 0x1_0000_0000_0000_0000
  {
    hide Pow2;
    Pow256(0);
    Pow256(8);
    Pow256(7);
    Pow256(6);
    Pow256(5);
    Pow256(4);
    Pow256(3);
    Pow256(2);
    Pow256(1);
  }

  /** Different nodes and different networks never share a join write. */
  lemma JoinInjective(n1: nat, w1: nat, n2: nat, w2: nat)
    requires EncodeEmbeddedJoin(n1, w1).Success? && EncodeEmbeddedJoin(n2, w2).Success?
    ensures EncodeEmbeddedJoin(n1, w1) == EncodeEmbeddedJoin(n2, w2) <==> n1 == n2 && w1 == w2
  {
    var b1, b2 := EncodeEmbeddedJoin(n1, w1).value, EncodeEmbeddedJoin(n2, w2).value;
    assert n1 < 0x100000 && n2 < 0x100000 && w1 <= 0xFFFFFFFF && w2 <= 0xFFFFFFFF;
    if b1 == b2 {
      assert b1[2..10] == ToBytes(JOIN_BASE + n1, 8) && b2[2..10] == ToBytes(JOIN_BASE + n2, 8);
      assert b1[10..18] == ToBytes(JOIN_BASE + w1, 8) && b2[10..18] == ToBytes(JOIN_BASE + w2, 8);
      hide EncodeEmbeddedJoin, ToBytes;
      Pow2Of64();
      hide Pow2;
      ToBytesInjective(JOIN_BASE + n1, JOIN_BASE + n2, 8);
      ToBytesInjective(JOIN_BASE + w1, JOIN_BASE + w2, 8);
    }
  }

  // ---------------------------------------------------------------- authentication

  lemma AuthParts(a: seq<byte>, n: seq<byte>, w: seq<byte>, crc: seq<byte>)
    requires |a| == |n| == 16 && |w| == 4 && |crc| == 2
    ensures var body := [0x8D] + a + n + w + crc;
            && |body| == 39 && body[0] == 0x8D && body[1..17] == a && body[17..33] == n
            && body[1..] == a + n + w + crc && body[1..37] == a + n + w && body[37..] == crc
  {
  }

  /** Behind its type byte an authentication write carries both keys and the network ID and
      verifies; with any other two bytes at its end it would not. */
  lemma AuthVerifies(networkId: int, passwordBytes: nat, appDigest: seq<byte>, netDigest: seq<byte>, tail: seq<byte>)
    requires |appDigest| == |netDigest| == 20 && |tail| == 2
    ensures EncodeEmbeddedAuth(networkId, passwordBytes, appDigest, netDigest).Success? <==>
            0 < networkId < 0x1_0000_0000 && 1 <= passwordBytes <= 128
    ensures EncodeEmbeddedAuth(networkId, passwordBytes, appDigest, netDigest).Success? ==>
            var body := EncodeEmbeddedAuth(networkId, passwordBytes, appDigest, netDigest).value;
            && |body| == 39 && body[0] == 0x8D && body[1..17] == appDigest[..16] && body[17..33] == netDigest[..16]
            && Slice(body, 264, 32) == networkId && Crc16(body[1..]) == 0
            && (Crc16(body[1..37] + tail) == 0 <==> tail == body[37..])
  {
    if EncodeEmbeddedAuth(networkId, passwordBytes, appDigest, netDigest).Success? {
      var body := EncodeEmbeddedAuth(networkId, passwordBytes, appDigest, netDigest).value;
      var a, n, w := appDigest[..16], netDigest[..16], ToBytes(networkId, 4);
      assert ([0x8D] + a + n + w)[1..] == a + n + w;
      var crc := ToBytes(Crc16(a + n + w), 2);
      assert body == [0x8D] + a + n + w + crc;
      WordFits(networkId);
      NumberAt([0x8D] + a + n, networkId, 4, crc);
      hide *;
      AuthParts(a, n, w, crc);
      ResidueIffCrc(a + n + w, crc);
      ResidueIffCrc(a + n + w, tail);
    }
  }

  // ---------------------------------------------------------------- repeating a response

  /** What is repeated is the response from its type on, which must come with some payload. */
  lemma BackupBodyIs(raw: seq<byte>, body: seq<byte>)
    ensures BackupBody(raw) == Success(body) <==> |body| >= 2 && exists h: seq<byte> :: |h| == 5 && raw == h + body
  {
    if |raw| >= 7 { assert raw == raw[..5] + raw[5..]; }
    forall h: seq<byte> | |h| == 5 && raw == h + body ensures raw[5..] == body {
    }
  }

  lemma RawAgrees(h: seq<byte>, raw: seq<byte>, allowed: set<byte>, width: nat)
    requires HeaderStart(h) && BackupBody(raw).Success? && ParseHeader(raw).Success?
    ensures Checked(h + BackupBody(raw).value, allowed, width) == Checked(raw, allowed, width)
  {
    ResponseOf(h, raw[5..], allowed, width);
    ResponseOf(raw[..5], raw[5..], allowed, width);
    assert raw == raw[..5] + raw[5..];
  }

  /** A write that repeats a response stands for the same payload as the response, behind any
      other header of version 4; so every decoder gives the value of the response. */
  lemma BackupBodyAgrees(h: seq<byte>, raw: seq<byte>, allowed: set<byte>, width: nat)
    requires HeaderStart(h) && BackupBody(raw).Success? && ParseHeader(raw).Success?
    ensures Checked(h + BackupBody(raw).value, allowed, width) == Checked(raw, allowed, width)
    ensures LoraGeneralOf(h + BackupBody(raw).value) == LoraGeneralOf(raw)
    ensures LoraChannelsOf(h + BackupBody(raw).value) == LoraChannelsOf(raw)
  {
    RawAgrees(h, raw, allowed, width);
    RawAgrees(h, raw, {0x84}, 80);
    RawAgrees(h, raw, {0x85, 0x8E}, 272);
    hide Checked, LoraRadioAt, LoraRx2At, LoraChannelsAt, BackupBody;
  }
}
