/** The node health decoder, all three layouts (tools/packet_parser/messages.py). */
module Health {
  import opened Common
  import opened BitNumbers
  import opened BitReader
  import opened Framing
  import opened Messages

  const HEALTH_TYPES: set<byte> := {0x40, 0x46, 0x4F}

  /** AM 0x40, and AM 0x46 with a time delta. */
  datatype PlainHealth = PlainHealth(
    uptime: nat, battery: nat, temperature: int, serial: nat, major: nat, minor: nat)
  {
    predicate InRange() {
      && uptime < Pow2(32) && battery < Pow2(16) && InSignedRange(temperature, 8) && serial < Pow2(16)
      && major < Pow2(8) && minor < Pow2(8)
    }

    function Pack(rest: seq<bool>): seq<bool>
      requires InRange()
    {
      ToBits(uptime, 32) + (ToBits(battery, 16) + (SignedBits(temperature, 8) + (ToBits(serial, 16)
      + (ToBits(major, 8) + (ToBits(minor, 8) + rest)))))
    }
  }

  datatype Humidity = Humidity(percent: nat, std: nat, delta: nat, reserved: nat) {
    predicate InRange() {
      percent < Pow2(10) && std < Pow2(9) && delta < Pow2(10) && reserved < Pow2(3)
    }

    function Pack(rest: seq<bool>): seq<bool>
      requires InRange()
    {
      ToBits(percent, 10) + (ToBits(std, 9) + (ToBits(delta, 10) + (ToBits(reserved, 3) + rest)))
    }
  }

  datatype CompactStart = CompactStart(version: nat, uptime: nat, battery: nat, temperature: int) {
    predicate InRange() {
      version < Pow2(2) && uptime < Pow2(30) && battery < Pow2(12) && InSignedRange(temperature, 8)
    }

    function Pack(rest: seq<bool>): seq<bool>
      requires InRange()
    {
      ToBits(version, 2) + (ToBits(uptime, 30) + (ToBits(battery, 12) + (SignedBits(temperature, 8) + rest)))
    }
  }

  datatype CompactEnd = CompactEnd(serial: nat, major: nat, minor: nat, delta: nat) {
    predicate InRange() {
      serial < Pow2(20) && major < Pow2(8) && minor < Pow2(8) && delta < Pow2(16)
    }

    function Pack(rest: seq<bool>): seq<bool>
      requires InRange()
    {
      ToBits(serial, 20) + (ToBits(major, 8) + (ToBits(minor, 8) + (ToBits(delta, 16) + rest)))
    }
  }

  /** AM 0x4F: message version 1 carries humidity. */
  datatype CompactHealth = CompactHealth(start: CompactStart, humidity: Option<Humidity>, end: CompactEnd) {
    predicate InRange() {
      && start.InRange() && end.InRange()
      && (humidity.Some? <==> start.version == 1) && (humidity.Some? ==> humidity.value.InRange())
    }

    function Width(): nat {
      if humidity.Some? then 136 else 104
    }

    function Pack(rest: seq<bool>): seq<bool>
      requires InRange()
    {
      var tail := end.Pack(rest);
      start.Pack(if humidity.Some? then humidity.value.Pack(tail) else tail)
    }
  }

  datatype Report = Plain(plain: PlainHealth, timeDelta: Option<nat>) | Compact(compact: CompactHealth) {
    /** The message type chooses the layout. */
    predicate InRange(amType: byte) {
      match this
      case Plain(p, d) =>
        amType != 0x4F && p.InRange() && (d.Some? <==> amType == 0x46) && (d.Some? ==> d.value < Pow2(16))
      case Compact(c) => amType == 0x4F && c.InRange()
    }

    function Width(): nat {
      match this
      case Plain(_, d) => if d.Some? then 104 else 88
      case Compact(c) => c.Width()
    }

    function Pack(amType: byte, rest: seq<bool>): seq<bool>
      requires InRange(amType)
    {
      match this
      case Plain(p, d) => p.Pack(if d.Some? then ToBits(d.value, 16) + rest else rest)
      case Compact(c) => c.Pack(rest)
    }
  }

  datatype NodeHealth = NodeHealth(header: Header, timestamp: nat, report: Report) {
    predicate InRange() {
      timestamp < Pow2(32) && report.InRange(header.amType)
    }

    function Width(): nat {
      32 + report.Width()
    }

    function Pack(rest: seq<bool>): seq<bool>
      requires InRange()
    {
      ToBits(timestamp, 32) + report.Pack(header.amType, rest)
    }
  }

  ghost predicate IsHealth(body: seq<byte>, v: NodeHealth) {
    && CheckedHeader(body, HEALTH_TYPES) == Success(v.header) && v.InRange()
    && v.Width() <= 8 * |PayloadOf(body)| && BitsOf(PayloadOf(body)) == v.Pack(From(PayloadOf(body), v.Width()))
  }

  function ReportBits(amType: byte, bits: seq<bool>): nat {
    if amType == 0x40 then 88
    else if amType == 0x46 then 104
    else if |bits| < 2 || bits[0] || !bits[1] then 104
    else 136
  }

  /** Bits of a health message: the timestamp, then by the type, and for AM 0x4F by the version
      in the next two bits. */
  function HealthBits(amType: byte, bits: seq<bool>): nat {
    32 + if |bits| < 32 then 0 else ReportBits(amType, bits[32..])
  }

  // ---------------------------------------------------------------- reading

  method ReadPlain(bits: Bits) returns (r: Result<PlainHealth, FrameError>)
    requires bits.Valid()
    modifies bits
    ensures bits.Valid()
    ensures r.Success? <==> old(bits.offset) + 88 <= 8 * |bits.data|
    ensures r.Failure? ==> r.error == IncompleteFrame
    ensures r.Success? ==> bits.offset == old(bits.offset) + 88 && r.value.InRange()
                           && old(bits.Rest()) == r.value.Pack(bits.Rest())
  {
    hide Pow2, ToBits, SignedBits, InSignedRange, From;
    var uptime :- bits.Unsigned(32);
    var battery :- bits.Unsigned(16);
    var temperature :- bits.Signed(8);
    var serial :- bits.Unsigned(16);
    var major :- bits.Unsigned(8);
    var minor :- bits.Unsigned(8);
    return Success(PlainHealth(uptime, battery, temperature, serial, major, minor));
  }

  method ReadHumidity(bits: Bits) returns (r: Result<Humidity, FrameError>)
    requires bits.Valid()
    modifies bits
    ensures bits.Valid()
    ensures r.Success? <==> old(bits.offset) + 32 <= 8 * |bits.data|
    ensures r.Failure? ==> r.error == IncompleteFrame
    ensures r.Success? ==> bits.offset == old(bits.offset) + 32 && r.value.InRange()
                           && old(bits.Rest()) == r.value.Pack(bits.Rest())
  {
    hide Pow2, ToBits, From;
    var percent :- bits.Unsigned(10);
    var std :- bits.Unsigned(9);
    var delta :- bits.Unsigned(10);
    var reserved :- bits.Unsigned(3);
    return Success(Humidity(percent, std, delta, reserved));
  }

  method ReadCompactStart(bits: Bits) returns (r: Result<CompactStart, FrameError>)
    requires bits.Valid()
    modifies bits
    ensures bits.Valid()
    ensures r.Success? <==> old(bits.offset) + 52 <= 8 * |bits.data|
    ensures r.Failure? ==> r.error == IncompleteFrame
    ensures r.Success? ==> bits.offset == old(bits.offset) + 52 && r.value.InRange()
                           && old(bits.Rest()) == r.value.Pack(bits.Rest())
  {
    hide Pow2, ToBits, SignedBits, InSignedRange, From;
    var version :- bits.Unsigned(2);
    var uptime :- bits.Unsigned(30);
    var battery :- bits.Unsigned(12);
    var temperature :- bits.Signed(8);
    return Success(CompactStart(version, uptime, battery, temperature));
  }

  method ReadCompactEnd(bits: Bits) returns (r: Result<CompactEnd, FrameError>)
    requires bits.Valid()
    modifies bits
    ensures bits.Valid()
    ensures r.Success? <==> old(bits.offset) + 52 <= 8 * |bits.data|
    ensures r.Failure? ==> r.error == IncompleteFrame
    ensures r.Success? ==> bits.offset == old(bits.offset) + 52 && r.value.InRange()
                           && old(bits.Rest()) == r.value.Pack(bits.Rest())
  {
    hide Pow2, ToBits, From;
    var serial :- bits.Unsigned(20);
    var major :- bits.Unsigned(8);
    var minor :- bits.Unsigned(8);
    var delta :- bits.Unsigned(16);
    return Success(CompactEnd(serial, major, minor, delta));
  }

  lemma VersionFlags(s: CompactStart, rest: seq<bool>)
    requires s.InRange()
    ensures |s.Pack(rest)| == 52 + |rest|
    ensures s.version == 1 <==> !s.Pack(rest)[0] && s.Pack(rest)[1]
  {
    assert Pow2(2) == 4;
    assert ToBits(s.version / 2, 1) == [] + [s.version / 2 % 2 == 1];
    hide InSignedRange, SignedBits;
    assert ToBits(s.version, 2) == [s.version >= 2, s.version % 2 == 1];
  }

  method ReadCompact(bits: Bits) returns (r: Result<CompactHealth, FrameError>)
    requires bits.Valid()
    modifies bits
    ensures bits.Valid()
    ensures r.Success? <==> old(bits.offset) + ReportBits(0x4F, old(bits.Rest())) <= 8 * |bits.data|
    ensures r.Failure? ==> r.error == IncompleteFrame
    ensures r.Success? ==> bits.offset == old(bits.offset) + r.value.Width()
                           && r.value.InRange() && old(bits.Rest()) == r.value.Pack(bits.Rest())
  {
    assert |bits.Rest()| == 8 * |bits.data| - bits.offset;
    hide From, Humidity.InRange, Humidity.Pack, CompactStart.InRange, CompactStart.Pack, CompactEnd.InRange,
         CompactEnd.Pack;
    var start :- ReadCompactStart(bits);
    VersionFlags(start, bits.Rest());
    var humidity := None;
    if start.version == 1 {
      var h :- ReadHumidity(bits);
      humidity := Some(h);
    }
    var end :- ReadCompactEnd(bits);
    return Success(CompactHealth(start, humidity, end));
  }

  // ---------------------------------------------------------------- uniqueness

  lemma PlainUnique(v: PlainHealth, w: PlainHealth, p: seq<bool>, q: seq<bool>)
    requires v.InRange() && w.InRange() && v.Pack(p) == w.Pack(q)
    ensures v == w && p == q
  {
    hide Pow2, ToBits, SignedBits, InSignedRange;
    var v5, w5 := ToBits(v.minor, 8) + p, ToBits(w.minor, 8) + q;
    var v4, w4 := ToBits(v.major, 8) + v5, ToBits(w.major, 8) + w5;
    var v3, w3 := ToBits(v.serial, 16) + v4, ToBits(w.serial, 16) + w4;
    var v2, w2 := SignedBits(v.temperature, 8) + v3, SignedBits(w.temperature, 8) + w3;
    Peel(v.uptime, w.uptime, 32, ToBits(v.battery, 16) + v2, ToBits(w.battery, 16) + w2);
    Peel(v.battery, w.battery, 16, v2, w2);
    PeelSigned(v.temperature, w.temperature, 8, v3, w3);
    Peel(v.serial, w.serial, 16, v4, w4);
    Peel(v.major, w.major, 8, v5, w5);
    Peel(v.minor, w.minor, 8, p, q);
  }

  lemma HumidityUnique(v: Humidity, w: Humidity, p: seq<bool>, q: seq<bool>)
    requires v.InRange() && w.InRange() && v.Pack(p) == w.Pack(q)
    ensures v == w && p == q
  {
    hide Pow2, ToBits;
    var v3, w3 := ToBits(v.reserved, 3) + p, ToBits(w.reserved, 3) + q;
    var v2, w2 := ToBits(v.delta, 10) + v3, ToBits(w.delta, 10) + w3;
    Peel(v.percent, w.percent, 10, ToBits(v.std, 9) + v2, ToBits(w.std, 9) + w2);
    Peel(v.std, w.std, 9, v2, w2);
    Peel(v.delta, w.delta, 10, v3, w3);
    Peel(v.reserved, w.reserved, 3, p, q);
  }

  lemma StartUnique(v: CompactStart, w: CompactStart, p: seq<bool>, q: seq<bool>)
    requires v.InRange() && w.InRange() && v.Pack(p) == w.Pack(q)
    ensures v == w && p == q
  {
    hide Pow2, ToBits, SignedBits, InSignedRange;
    var v3, w3 := SignedBits(v.temperature, 8) + p, SignedBits(w.temperature, 8) + q;
    var v2, w2 := ToBits(v.battery, 12) + v3, ToBits(w.battery, 12) + w3;
    Peel(v.version, w.version, 2, ToBits(v.uptime, 30) + v2, ToBits(w.uptime, 30) + w2);
    Peel(v.uptime, w.uptime, 30, v2, w2);
    Peel(v.battery, w.battery, 12, v3, w3);
    PeelSigned(v.temperature, w.temperature, 8, p, q);
  }

  lemma EndUnique(v: CompactEnd, w: CompactEnd, p: seq<bool>, q: seq<bool>)
    requires v.InRange() && w.InRange() && v.Pack(p) == w.Pack(q)
    ensures v == w && p == q
  {
    hide Pow2, ToBits;
    var v3, w3 := ToBits(v.delta, 16) + p, ToBits(w.delta, 16) + q;
    var v2, w2 := ToBits(v.minor, 8) + v3, ToBits(w.minor, 8) + w3;
    Peel(v.serial, w.serial, 20, ToBits(v.major, 8) + v2, ToBits(w.major, 8) + w2);
    Peel(v.major, w.major, 8, v2, w2);
    Peel(v.minor, w.minor, 8, v3, w3);
    Peel(v.delta, w.delta, 16, p, q);
  }

  lemma CompactUnique(v: CompactHealth, w: CompactHealth, p: seq<bool>, q: seq<bool>)
    requires v.InRange() && w.InRange() && v.Pack(p) == w.Pack(q)
    ensures v == w && p == q && ReportBits(0x4F, v.Pack(p)) == v.Width()
  {
    hide Humidity.InRange, Humidity.Pack, CompactStart.InRange, CompactStart.Pack, CompactEnd.InRange,
         CompactEnd.Pack;
    var v2, w2 := v.end.Pack(p), w.end.Pack(q);
    var v1, w1 := if v.humidity.Some? then v.humidity.value.Pack(v2) else v2,
                  if w.humidity.Some? then w.humidity.value.Pack(w2) else w2;
    StartUnique(v.start, w.start, v1, w1);
    VersionFlags(v.start, v1);
    if v.humidity.Some? { HumidityUnique(v.humidity.value, w.humidity.value, v2, w2); }
    EndUnique(v.end, w.end, p, q);
  }

  lemma ReportUnique(amType: byte, v: Report, w: Report, p: seq<bool>, q: seq<bool>)
    requires amType in HEALTH_TYPES && v.InRange(amType) && w.InRange(amType) && v.Pack(amType, p) == w.Pack(amType, q)
    ensures v == w && p == q && ReportBits(amType, v.Pack(amType, p)) == v.Width()
  {
    hide Pow2, ToBits, PlainHealth.InRange, PlainHealth.Pack, CompactHealth.InRange, CompactHealth.Pack,
         CompactHealth.Width;
    match v {
      case Plain(x, d) =>
        var y, e := w.plain, w.timeDelta;
        var p', q' := if d.Some? then ToBits(d.value, 16) + p else p, if e.Some? then ToBits(e.value, 16) + q else q;
        PlainUnique(x, y, p', q');
        if d.Some? { Peel(d.value, e.value, 16, p, q); }
      case Compact(x) => CompactUnique(x, w.compact, p, q);
    }
  }

  lemma TypeAllowed(body: seq<byte>)
    requires CheckedHeader(body, HEALTH_TYPES).Success?
    ensures CheckedHeader(body, HEALTH_TYPES).value.amType in HEALTH_TYPES
  {
  }

  lemma HealthUnique(body: seq<byte>, v: NodeHealth, w: NodeHealth)
    requires IsHealth(body, v) && IsHealth(body, w)
    ensures v == w && HealthBits(v.header.amType, BitsOf(PayloadOf(body))) == v.Width()
  {
    TypeAllowed(body);
    hide BitsOf, From, Pow2, ToBits, Report.InRange, Report.Pack, Report.Width, ReportBits, CheckedHeader, PayloadOf;
    var p, q := From(PayloadOf(body), v.Width()), From(PayloadOf(body), w.Width());
    var v1, w1 := v.report.Pack(v.header.amType, p), w.report.Pack(w.header.amType, q);
    Peel(v.timestamp, w.timestamp, 32, v1, w1);
    Behind(ToBits(v.timestamp, 32), v1);
    ReportUnique(v.header.amType, v.report, w.report, p, q);
  }

  // ---------------------------------------------------------------- the decoder

  method ReadReport(bits: Bits, amType: byte) returns (r: Result<Report, FrameError>)
    requires bits.Valid() && amType in HEALTH_TYPES
    modifies bits
    ensures bits.Valid()
    ensures r.Success? <==> old(bits.offset) + ReportBits(amType, old(bits.Rest())) <= 8 * |bits.data|
    ensures r.Failure? ==> r.error == IncompleteFrame
    ensures r.Success? ==> r.value.InRange(amType) && bits.offset == old(bits.offset) + r.value.Width()
                           && old(bits.Rest()) == r.value.Pack(amType, bits.Rest())
  {
    hide Pow2, ToBits, From, PlainHealth.InRange, PlainHealth.Pack, CompactHealth.InRange, CompactHealth.Pack,
         CompactHealth.Width;
    if amType == 0x4F {
      var c :- ReadCompact(bits);
      return Success(Compact(c));
    }
    var p :- ReadPlain(bits);
    var delta := None;
    if amType == 0x46 {
      var d :- bits.Unsigned(16);
      delta := Some(d);
    }
    return Success(Plain(p, delta));
  }

  /** A body decodes to `v` if and only if it is a health message of value `v`; it decodes if and
      only if header and type are right and the payload has the bits of its layout. */
  method DecodeNodeHealth(body: seq<byte>) returns (r: Result<NodeHealth, FrameError>)
    ensures forall v :: r == Success(v) <==> IsHealth(body, v)
    ensures r.Success? <==>
            CheckedHeader(body, HEALTH_TYPES).Success? &&
            HealthBits(CheckedHeader(body, HEALTH_TYPES).value.amType, BitsOf(PayloadOf(body))) <= 8 * |PayloadOf(body)|
    ensures r.Failure? ==>
              var header := CheckedHeader(body, HEALTH_TYPES);
              r.error == if header.Failure? then header.error else IncompleteFrame
  {
    hide CheckedHeader, BitsOf, PayloadOf, Pow2, ToBits, Report.InRange, Report.Pack, Report.Width, ReportBits;
    forall v, w | IsHealth(body, v) && IsHealth(body, w)
      ensures v == w && HealthBits(v.header.amType, BitsOf(PayloadOf(body))) == v.Width() <= 8 * |PayloadOf(body)|
    {
      HealthUnique(body, v, w);
    }
    var payload :- Payload(body, HEALTH_TYPES);
    var header, bits := payload.0, payload.1;
    TypeAllowed(body);
    var timestamp :- bits.Unsigned(32);
    Behind(ToBits(timestamp, 32), bits.Rest());
    var report :- ReadReport(bits, header.amType);
    var v := NodeHealth(header, timestamp, report);
    assert v.Width() == bits.offset && IsHealth(body, v);
    return Success(v);
  }

  // ---------------------------------------------------------------- where the fields lie

  predicate PlainAt(p: seq<byte>, v: PlainHealth) {
    && 8 * |p| >= 120
    && v.uptime == Slice(p, 32, 32) && v.battery == Slice(p, 64, 16) && v.temperature == SignedAt(p, 80, 8)
    && v.serial == Slice(p, 88, 16) && v.major == Slice(p, 104, 8) && v.minor == Slice(p, 112, 8)
  }

  lemma PlainPositions(p: seq<byte>, v: PlainHealth, rest: seq<bool>)
    requires v.InRange() && 32 <= 8 * |p| && From(p, 32) == v.Pack(rest)
    ensures 120 <= 8 * |p| && PlainAt(p, v) && From(p, 120) == rest
  {
    hide Slice, From, ToBits, SignedBits, Pow2, InSignedRange, SignedAt;
    var b5 := ToBits(v.minor, 8) + rest;
    var b4 := ToBits(v.major, 8) + b5;
    var b3 := ToBits(v.serial, 16) + b4;
    var b2 := SignedBits(v.temperature, 8) + b3;
    TakeField(p, 32, v.uptime, 32, ToBits(v.battery, 16) + b2);
    TakeField(p, 64, v.battery, 16, b2);
    TakeSigned(p, 80, v.temperature, 8, b3);
    TakeField(p, 88, v.serial, 16, b4);
    TakeField(p, 104, v.major, 8, b5);
    TakeField(p, 112, v.minor, 8, rest);
  }

  predicate StartAt(p: seq<byte>, v: CompactStart) {
    && 8 * |p| >= 84
    && v.version == Slice(p, 32, 2) && v.uptime == Slice(p, 34, 30) && v.battery == Slice(p, 64, 12)
    && v.temperature == SignedAt(p, 76, 8)
  }

  lemma StartPositions(p: seq<byte>, v: CompactStart, rest: seq<bool>)
    requires v.InRange() && 32 <= 8 * |p| && From(p, 32) == v.Pack(rest)
    ensures 84 <= 8 * |p| && StartAt(p, v) && From(p, 84) == rest
  {
    hide Slice, From, ToBits, SignedBits, Pow2, InSignedRange, SignedAt;
    var b3 := SignedBits(v.temperature, 8) + rest;
    var b2 := ToBits(v.battery, 12) + b3;
    TakeField(p, 32, v.version, 2, ToBits(v.uptime, 30) + b2);
    TakeField(p, 34, v.uptime, 30, b2);
    TakeField(p, 64, v.battery, 12, b3);
    TakeSigned(p, 76, v.temperature, 8, rest);
  }

  predicate HumidityAt(p: seq<byte>, v: Humidity) {
    && 8 * |p| >= 116
    && v.percent == Slice(p, 84, 10) && v.std == Slice(p, 94, 9) && v.delta == Slice(p, 103, 10)
    && v.reserved == Slice(p, 113, 3)
  }

  lemma HumidityPositions(p: seq<byte>, v: Humidity, rest: seq<bool>)
    requires v.InRange() && 84 <= 8 * |p| && From(p, 84) == v.Pack(rest)
    ensures 116 <= 8 * |p| && HumidityAt(p, v) && From(p, 116) == rest
  {
    hide Slice, From, ToBits, Pow2;
    var b3 := ToBits(v.reserved, 3) + rest;
    var b2 := ToBits(v.delta, 10) + b3;
    TakeField(p, 84, v.percent, 10, ToBits(v.std, 9) + b2);
    TakeField(p, 94, v.std, 9, b2);
    TakeField(p, 103, v.delta, 10, b3);
    TakeField(p, 113, v.reserved, 3, rest);
  }

  predicate EndAt(p: seq<byte>, k: nat, v: CompactEnd) {
    && k + 52 <= 8 * |p|
    && v.serial == Slice(p, k, 20) && v.major == Slice(p, k + 20, 8) && v.minor == Slice(p, k + 28, 8)
    && v.delta == Slice(p, k + 36, 16)
  }

  lemma EndPositions(p: seq<byte>, k: nat, v: CompactEnd, rest: seq<bool>)
    requires v.InRange() && k <= 8 * |p| && From(p, k) == v.Pack(rest)
    ensures EndAt(p, k, v)
  {
    hide Slice, From, ToBits, Pow2;
    var b3 := ToBits(v.delta, 16) + rest;
    var b2 := ToBits(v.minor, 8) + b3;
    TakeField(p, k, v.serial, 20, ToBits(v.major, 8) + b2);
    TakeField(p, k + 20, v.major, 8, b2);
    TakeField(p, k + 28, v.minor, 8, b3);
    TakeField(p, k + 36, v.delta, 16, rest);
  }

  /** The compact layout, with the humidity in between exactly in message version 1. */
  predicate CompactAt(p: seq<byte>, v: CompactHealth) {
    && StartAt(p, v.start) && (v.humidity.Some? <==> v.start.version == 1)
    && (v.humidity.Some? ==> HumidityAt(p, v.humidity.value))
    && EndAt(p, if v.humidity.Some? then 116 else 84, v.end)
  }

  lemma CompactPositions(p: seq<byte>, v: CompactHealth, rest: seq<bool>)
    requires v.InRange() && 32 <= 8 * |p| && From(p, 32) == v.Pack(rest)
    ensures CompactAt(p, v)
  {
    hide From, Humidity.InRange, Humidity.Pack, CompactStart.InRange, CompactStart.Pack, CompactEnd.InRange,
         CompactEnd.Pack, StartAt, HumidityAt, EndAt;
    var tail := v.end.Pack(rest);
    StartPositions(p, v.start, if v.humidity.Some? then v.humidity.value.Pack(tail) else tail);
    if v.humidity.Some? { HumidityPositions(p, v.humidity.value, tail); }
    EndPositions(p, if v.humidity.Some? then 116 else 84, v.end, rest);
  }

  /** Every field of a health message, by its absolute position in the payload. */
  lemma HealthPositions(body: seq<byte>, v: NodeHealth)
    requires IsHealth(body, v)
    ensures var p, t := body[6..], body[5];
            && t == v.header.amType && 8 * |p| >= 32 && v.timestamp == Slice(p, 0, 32)
            && match v.report
               case Plain(plain, delta) =>
                 && (t == 0x40 || t == 0x46) && PlainAt(p, plain) && (delta.Some? <==> t == 0x46)
                 && (delta.Some? ==> 8 * |p| >= 136 && delta.value == Slice(p, 120, 16))
               case Compact(c) => t == 0x4F && CompactAt(p, c)
  {
    TypeAllowed(body);
    var p, t := PayloadOf(body), v.header.amType;
    var rest := From(p, v.Width());
    assert p == body[6..] && t == body[5] && From(p, 0) == BitsOf(p);
    hide Slice, From, BitsOf, ToBits, Pow2, PlainHealth.InRange, PlainHealth.Pack, CompactHealth.InRange,
         CompactHealth.Pack, CompactHealth.Width, PlainAt, CompactAt;
    TakeField(p, 0, v.timestamp, 32, v.report.Pack(t, rest));
    match v.report {
      case Plain(plain, delta) =>
        PlainPositions(p, plain, if delta.Some? then ToBits(delta.value, 16) + rest else rest);
        if delta.Some? { TakeField(p, 120, delta.value, 16, rest); }
      case Compact(c) => CompactPositions(p, c, rest);
    }
  }
}
