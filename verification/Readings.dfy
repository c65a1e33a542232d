/** Decoders of measurements (tools/packet_parser/messages.py).  Each is proved against the wire
    layout of its message: a body decodes to a value exactly when the payload starts with the
    packed fields of that value.  Scaled numbers stay raw. */
module Readings {
  import opened Common
  import opened BitNumbers
  import opened BitReader
  import opened Framing
  import opened Messages

  // ---------------------------------------------------------------- values and their layouts

  /** The fixed-width start of both reading messages. */
  datatype Head = Head(
    timestamp: nat, version: nat, zOn: bool, yOn: bool, xOn: bool,
    error: nat, highPrecision: bool, temperature: int)
  {
    predicate InRange() {
      timestamp < Pow2(32) && version < Pow2(2) && error < Pow2(4) && InSignedRange(temperature, 12)
    }

    /** The packed fields, followed by `rest`. */
    function Pack(rest: seq<bool>): seq<bool>
      requires InRange()
    {
      ToBits(timestamp, 32) + (ToBits(version, 2) + ([zOn] + ([yOn] + ([xOn]
      + (ToBits(error, 4) + ([highPrecision] + (SignedBits(temperature, 12) + rest)))))))
    }
  }

  datatype AxisReading = AxisReading(angle: int, stddev: nat)

  predicate AxisInRange(a: Option<AxisReading>) {
    a.Some? ==> InSignedRange(a.value.angle, 21) && a.value.stddev < Pow2(20)
  }

  function PackAxis(a: Option<AxisReading>, rest: seq<bool>): seq<bool>
    requires AxisInRange(a)
  {
    if a.None? then rest else SignedBits(a.value.angle, 21) + (ToBits(a.value.stddev, 20) + rest)
  }

  function Count3(x: bool, y: bool, z: bool): nat {
    (if x then 1 else 0) + (if y then 1 else 0) + (if z then 1 else 0)
  }

  /** The part both reading messages share: one entry for every enabled axis. */
  datatype Measurement = Measurement(
    head: Head, x: Option<AxisReading>, y: Option<AxisReading>, z: Option<AxisReading>)
  {
    predicate InRange() {
      && head.InRange()
      && (x.Some? <==> head.xOn) && (y.Some? <==> head.yOn) && (z.Some? <==> head.zOn)
      && AxisInRange(x) && AxisInRange(y) && AxisInRange(z)
    }

    function Width(): nat {
      54 + 41 * Count3(x.Some?, y.Some?, z.Some?)
    }

    function Pack(rest: seq<bool>): seq<bool>
      requires InRange()
    {
      head.Pack(PackAxis(x, PackAxis(y, PackAxis(z, rest))))
    }
  }

  /** AM 0x4C. */
  datatype Til90Reading = Til90Reading(header: Header, m: Measurement, azimuth: Option<nat>) {
    predicate InRange() {
      && m.InRange()
      && (azimuth.Some? <==> m.head.version == 1)
      && (azimuth.Some? ==> azimuth.value < Pow2(9))
    }

    function Width(): nat {
      m.Width() + if azimuth.Some? then 9 else 0
    }

    function Pack(rest: seq<bool>): seq<bool>
      requires InRange()
    {
      m.Pack(if azimuth.Some? then ToBits(azimuth.value, 9) + rest else rest)
    }
  }

  datatype AlarmEvent = AlarmEvent(upperThreshold: bool, threshold: int)

  predicate AlarmInRange(a: Option<AlarmEvent>) {
    a.Some? ==> InSignedRange(a.value.threshold, 15)
  }

  function PackAlarm(a: Option<AlarmEvent>, rest: seq<bool>): seq<bool>
    requires AlarmInRange(a)
  {
    if a.None? then rest else [a.value.upperThreshold] + (SignedBits(a.value.threshold, 15) + rest)
  }

  /** The fields that follow an active alarm flag. */
  datatype Alarms = Alarms(
    reserved: nat, x: Option<AlarmEvent>, y: Option<AlarmEvent>, z: Option<AlarmEvent>)
  {
    predicate InRange() {
      reserved < Pow2(3) && AlarmInRange(x) && AlarmInRange(y) && AlarmInRange(z)
    }

    function Width(): nat {
      6 + 16 * Count3(x.Some?, y.Some?, z.Some?)
    }

    function Pack(rest: seq<bool>): seq<bool>
      requires InRange()
    {
      [z.Some?] + ([y.Some?] + ([x.Some?] + (ToBits(reserved, 3)
      + PackAlarm(x, PackAlarm(y, PackAlarm(z, rest))))))
    }
  }

  /** Two flags and an active flag; the alarm fields are there exactly when it is set. */
  datatype AlarmStatus = AlarmStatus(configured: bool, triggered: bool, alarms: Option<Alarms>) {
    predicate InRange() {
      alarms.Some? ==> alarms.value.InRange()
    }

    function Width(): nat {
      3 + if alarms.Some? then alarms.value.Width() else 0
    }

    function Pack(rest: seq<bool>): seq<bool>
      requires InRange()
    {
      [configured] + ([triggered] + ([alarms.Some?]
      + if alarms.Some? then alarms.value.Pack(rest) else rest))
    }
  }

  /** AM 0x50. */
  datatype Til90AlarmReading = Til90AlarmReading(header: Header, m: Measurement, status: AlarmStatus) {
    predicate InRange() {
      m.InRange() && status.InRange()
    }

    function Width(): nat {
      m.Width() + status.Width()
    }

    function Pack(rest: seq<bool>): seq<bool>
      requires InRange()
    {
      m.Pack(status.Pack(rest))
    }
  }

  /** The body is a reading of value `v`: header, type, and a payload that starts with its fields. */
  ghost predicate IsReading(body: seq<byte>, v: Til90Reading) {
    && CheckedHeader(body, {0x4C}) == Success(v.header) && v.InRange()
    && v.Width() <= 8 * |PayloadOf(body)| && BitsOf(PayloadOf(body)) == v.Pack(From(PayloadOf(body), v.Width()))
  }

  ghost predicate IsAlarmReading(body: seq<byte>, v: Til90AlarmReading) {
    && CheckedHeader(body, {0x50}) == Success(v.header) && v.InRange()
    && v.Width() <= 8 * |PayloadOf(body)| && BitsOf(PayloadOf(body)) == v.Pack(From(PayloadOf(body), v.Width()))
  }

  // ---------------------------------------------------------------- computed lengths

  /** Bits of the shared part, by the axis flags at bits 34 to 36. */
  function MeasurementBits(bits: seq<bool>): nat {
    if |bits| < 54 then 54 else 54 + 41 * Count3(bits[36], bits[35], bits[34])
  }

  /** Bits of a reading: version 1, told by bits 32 and 33, adds an azimuth. */
  function ReadingBits(bits: seq<bool>): nat {
    MeasurementBits(bits) + if |bits| >= 54 && !bits[32] && bits[33] then 9 else 0
  }

  /** Bits of the alarm part, by its first three flags. */
  function AlarmBits(bits: seq<bool>): nat {
    if |bits| < 6 then 6 else 6 + 16 * Count3(bits[2], bits[1], bits[0])
  }

  /** Bits of the alarm status: three flags, and if the last is set, the alarm part. */
  function StatusBits(bits: seq<bool>): nat {
    if |bits| < 3 || !bits[2] then 3 else 3 + AlarmBits(bits[3..])
  }

  /** Bits of an alarm reading. */
  function AlarmReadingBits(bits: seq<bool>): nat {
    var m := MeasurementBits(bits);
    m + if |bits| < m then 3 else StatusBits(bits[m..])
  }

  // ---------------------------------------------------------------- decoders

  method ReadHead(bits: Bits) returns (r: Result<Head, FrameError>)
    requires bits.Valid()
    modifies bits
    ensures bits.Valid()
    ensures r.Success? <==> old(bits.offset) + 54 <= 8 * |bits.data|
    ensures r.Failure? ==> r.error == IncompleteFrame
    ensures r.Success? ==> bits.offset == old(bits.offset) + 54 && r.value.InRange()
                           && old(bits.Rest()) == r.value.Pack(bits.Rest())
  {
    hide Pow2, ToBits, SignedBits, InSignedRange, From;
    var timestamp :- bits.Unsigned(32);
    var version :- bits.Unsigned(2);
    var zOn :- bits.Boolean();
    var yOn :- bits.Boolean();
    var xOn :- bits.Boolean();
    var error :- bits.Unsigned(4);
    var highPrecision :- bits.Boolean();
    var temperature :- bits.Signed(12);
    r := Success(Head(timestamp, version, zOn, yOn, xOn, error, highPrecision, temperature));
  }

  method ReadAxis(bits: Bits, enabled: bool) returns (r: Result<Option<AxisReading>, FrameError>)
    requires bits.Valid()
    modifies bits
    ensures bits.Valid()
    ensures r.Success? <==> !enabled || old(bits.offset) + 41 <= 8 * |bits.data|
    ensures r.Failure? ==> r.error == IncompleteFrame
    ensures r.Success? ==> (r.value.Some? <==> enabled) && AxisInRange(r.value)
                           && bits.offset == old(bits.offset) + (if enabled then 41 else 0)
                           && old(bits.Rest()) == PackAxis(r.value, bits.Rest())
  {
    hide Pow2, ToBits, SignedBits, InSignedRange, From;
    if !enabled {
      return Success(None);
    }
    var angle :- bits.Signed(21);
    var stddev :- bits.Unsigned(20);
    return Success(Some(AxisReading(angle, stddev)));
  }

  lemma BitsOfTwo(v: nat)
    requires v < Pow2(2)
    ensures ToBits(v, 2) == [v >= 2, v % 2 == 1]
  {
    assert Pow2(2) == 4;
    assert ToBits(v / 2, 1) == [] + [v / 2 % 2 == 1];
  }

  /** Where the version and the axis flags lie. */
  lemma HeadBits(h: Head, rest: seq<bool>)
    requires h.InRange()
    ensures var bits := h.Pack(rest);
            && |bits| == 54 + |rest| && (h.version == 1 <==> !bits[32] && bits[33])
            && h.zOn == bits[34] && h.yOn == bits[35] && h.xOn == bits[36]
  {
    BitsOfTwo(h.version);
    hide ToBits, SignedBits, Pow2;
    var flags := [h.zOn] + ([h.yOn] + ([h.xOn]
                 + (ToBits(h.error, 4) + ([h.highPrecision] + (SignedBits(h.temperature, 12) + rest)))));
    var bits := h.Pack(rest);
    Behind(ToBits(h.timestamp, 32), ToBits(h.version, 2) + flags);
    Behind(ToBits(h.version, 2), flags);
    DropDrop(bits, 32, 2);
    assert bits[32] == bits[32..][0] && bits[33] == bits[32..][1];
    assert bits[34] == flags[0] && bits[35] == flags[1] && bits[36] == flags[2];
  }

  method ReadMeasurement(bits: Bits) returns (r: Result<Measurement, FrameError>)
    requires bits.Valid() && bits.offset == 0
    modifies bits
    ensures bits.Valid()
    ensures r.Success? <==> MeasurementBits(BitsOf(bits.data)) <= 8 * |bits.data|
    ensures r.Failure? ==> r.error == IncompleteFrame
    ensures r.Success? ==> r.value.InRange() && bits.offset == r.value.Width()
                           && BitsOf(bits.data) == r.value.Pack(bits.Rest())
  {
    hide BitsOf, AxisInRange, PackAxis, Head.Pack, Head.InRange;
    assert bits.Rest() == BitsOf(bits.data);
    hide From;
    var head :- ReadHead(bits);
    HeadBits(head, bits.Rest());
    var x :- ReadAxis(bits, head.xOn);
    var y :- ReadAxis(bits, head.yOn);
    var z :- ReadAxis(bits, head.zOn);
    r := Success(Measurement(head, x, y, z));
  }

  // ---------------------------------------------------------------- uniqueness and length

  lemma HeadUnique(h: Head, g: Head, p: seq<bool>, q: seq<bool>)
    requires h.InRange() && g.InRange() && h.Pack(p) == g.Pack(q)
    ensures h == g && p == q
  {
    hide Pow2, ToBits, SignedBits, InSignedRange;
    var h8, g8 := SignedBits(h.temperature, 12) + p, SignedBits(g.temperature, 12) + q;
    var h7, g7 := [h.highPrecision] + h8, [g.highPrecision] + g8;
    var h6, g6 := ToBits(h.error, 4) + h7, ToBits(g.error, 4) + g7;
    var h5, g5 := [h.xOn] + h6, [g.xOn] + g6;
    var h4, g4 := [h.yOn] + h5, [g.yOn] + g5;
    var h3, g3 := [h.zOn] + h4, [g.zOn] + g4;
    var h2, g2 := ToBits(h.version, 2) + h3, ToBits(g.version, 2) + g3;
    Peel(h.timestamp, g.timestamp, 32, h2, g2);
    Peel(h.version, g.version, 2, h3, g3);
    PeelBit(h.zOn, g.zOn, h4, g4);
    PeelBit(h.yOn, g.yOn, h5, g5);
    PeelBit(h.xOn, g.xOn, h6, g6);
    Peel(h.error, g.error, 4, h7, g7);
    PeelBit(h.highPrecision, g.highPrecision, h8, g8);
    PeelSigned(h.temperature, g.temperature, 12, p, q);
  }

  lemma AxisUnique(a: Option<AxisReading>, b: Option<AxisReading>, p: seq<bool>, q: seq<bool>)
    requires AxisInRange(a) && AxisInRange(b) && (a.Some? <==> b.Some?) && PackAxis(a, p) == PackAxis(b, q)
    ensures a == b && p == q
  {
    if a.Some? {
      hide Pow2, ToBits, SignedBits, InSignedRange;
      var a1, b1 := ToBits(a.value.stddev, 20) + p, ToBits(b.value.stddev, 20) + q;
      PeelSigned(a.value.angle, b.value.angle, 21, a1, b1);
      Peel(a.value.stddev, b.value.stddev, 20, p, q);
    }
  }

  lemma MeasurementUnique(m: Measurement, n: Measurement, p: seq<bool>, q: seq<bool>)
    requires m.InRange() && n.InRange() && m.Pack(p) == n.Pack(q)
    ensures m == n && p == q
  {
    hide AxisInRange, PackAxis, Head.Pack, Head.InRange;
    HeadUnique(m.head, n.head, PackAxis(m.x, PackAxis(m.y, PackAxis(m.z, p))),
               PackAxis(n.x, PackAxis(n.y, PackAxis(n.z, q))));
    AxisUnique(m.x, n.x, PackAxis(m.y, PackAxis(m.z, p)), PackAxis(n.y, PackAxis(n.z, q)));
    AxisUnique(m.y, n.y, PackAxis(m.z, p), PackAxis(n.z, q));
    AxisUnique(m.z, n.z, p, q);
  }

  lemma HeadLength(h: Head, rest: seq<bool>)
    requires h.InRange()
    ensures |h.Pack(rest)| == 54 + |rest| && h.Pack(rest)[54..] == rest
  {
    hide Pow2, ToBits, SignedBits, InSignedRange;
    var tail := [h.zOn] + ([h.yOn] + ([h.xOn]
                + (ToBits(h.error, 4) + ([h.highPrecision] + (SignedBits(h.temperature, 12) + rest)))));
    assert h.Pack(rest)[34..] == tail;
    DropDrop(h.Pack(rest), 34, 20);
    assert tail[20..] == rest;
  }

  lemma AxisLength(a: Option<AxisReading>, rest: seq<bool>)
    requires AxisInRange(a)
    ensures |PackAxis(a, rest)| == (if a.Some? then 41 else 0) + |rest|
    ensures PackAxis(a, rest)[if a.Some? then 41 else 0..] == rest
  {
    hide Pow2, ToBits, SignedBits, InSignedRange;
  }

  lemma MeasurementLength(m: Measurement, rest: seq<bool>)
    requires m.InRange()
    ensures |m.Pack(rest)| == m.Width() + |rest| && MeasurementBits(m.Pack(rest)) == m.Width()
    ensures m.Pack(rest)[m.Width()..] == rest
    ensures m.head.version == 1 <==> !m.Pack(rest)[32] && m.Pack(rest)[33]
  {
    var z := PackAxis(m.z, rest);
    var y := PackAxis(m.y, z);
    var x := PackAxis(m.x, y);
    var all := m.Pack(rest);
    var wx, wy := if m.x.Some? then 41 else 0, if m.y.Some? then 41 else 0;
    var wz := if m.z.Some? then 41 else 0;
    hide Head.Pack, Head.InRange, PackAxis, AxisInRange;
    HeadBits(m.head, x);
    HeadLength(m.head, x);
    AxisLength(m.x, y);
    AxisLength(m.y, z);
    AxisLength(m.z, rest);
    DropDrop(all, 54, wx);
    DropDrop(all, 54 + wx, wy);
    DropDrop(all, 54 + wx + wy, wz);
  }

  // ---------------------------------------------------------------- the reading decoder

  /** Only one value matches a body, and then the payload has the bits its flags ask for. */
  lemma ReadingUnique(body: seq<byte>, v: Til90Reading, w: Til90Reading)
    requires IsReading(body, v) && IsReading(body, w)
    ensures v == w && ReadingBits(BitsOf(PayloadOf(body))) == v.Width()
  {
    hide CheckedHeader, BitsOf, Measurement.Pack, Measurement.InRange, Measurement.Width, From, ToBits, Pow2;
    var p, q := From(PayloadOf(body), v.Width()), From(PayloadOf(body), w.Width());
    var p', q' := if v.azimuth.Some? then ToBits(v.azimuth.value, 9) + p else p,
                  if w.azimuth.Some? then ToBits(w.azimuth.value, 9) + q else q;
    MeasurementUnique(v.m, w.m, p', q');
    MeasurementLength(v.m, p');
    if v.azimuth.Some? { Peel(v.azimuth.value, w.azimuth.value, 9, p, q); }
  }

  /** A body decodes to `v` if and only if it is a reading of value `v`; it decodes if and only if
      header and type are right and the payload has at least the bits its flags ask for. */
  method DecodeTil90Reading(body: seq<byte>) returns (r: Result<Til90Reading, FrameError>)
    ensures forall v :: r == Success(v) <==> IsReading(body, v)
    ensures r.Success? <==> CheckedHeader(body, {0x4C}).Success?
                            && ReadingBits(BitsOf(PayloadOf(body))) <= 8 * |PayloadOf(body)|
    ensures r.Failure? ==> r.error == (if CheckedHeader(body, {0x4C}).Failure? then CheckedHeader(body, {0x4C}).error
                                       else IncompleteFrame)
  {
    hide CheckedHeader, BitsOf, From, ToBits, Pow2, Measurement.Pack, Measurement.InRange, MeasurementBits,
         PayloadOf;
    forall v, w | IsReading(body, v) && IsReading(body, w)
      ensures v == w && ReadingBits(BitsOf(PayloadOf(body))) == v.Width() <= 8 * |PayloadOf(body)|
    {
      ReadingUnique(body, v, w);
    }
    var payload :- Payload(body, {0x4C});
    var header, bits := payload.0, payload.1;
    var m :- ReadMeasurement(bits);
    MeasurementLength(m, bits.Rest());
    var azimuth := None;
    if m.head.version == 1 {
      var a :- bits.Unsigned(9);
      azimuth := Some(a);
    }
    var v := Til90Reading(header, m, azimuth);
    assert ReadingBits(BitsOf(PayloadOf(body))) == v.Width() == bits.offset;
    assert IsReading(body, v);
    return Success(v);
  }

  // ---------------------------------------------------------------- the alarm reading decoder

  method ReadAlarm(bits: Bits, enabled: bool) returns (r: Result<Option<AlarmEvent>, FrameError>)
    requires bits.Valid()
    modifies bits
    ensures bits.Valid()
    ensures r.Success? <==> !enabled || old(bits.offset) + 16 <= 8 * |bits.data|
    ensures r.Failure? ==> r.error == IncompleteFrame
    ensures r.Success? ==> (r.value.Some? <==> enabled) && AlarmInRange(r.value)
                           && bits.offset == old(bits.offset) + (if enabled then 16 else 0)
                           && old(bits.Rest()) == PackAlarm(r.value, bits.Rest())
  {
    hide Pow2, ToBits, SignedBits, InSignedRange, From;
    if !enabled {
      return Success(None);
    }
    var upper :- bits.Boolean();
    var threshold :- bits.Signed(15);
    return Success(Some(AlarmEvent(upper, threshold)));
  }

  method ReadAlarms(bits: Bits) returns (r: Result<Alarms, FrameError>)
    requires bits.Valid()
    modifies bits
    ensures bits.Valid()
    ensures r.Success? <==> old(bits.offset) + AlarmBits(old(bits.Rest())) <= 8 * |bits.data|
    ensures r.Failure? ==> r.error == IncompleteFrame
    ensures r.Success? ==> r.value.InRange() && bits.offset == old(bits.offset) + r.value.Width()
                           && old(bits.Rest()) == r.value.Pack(bits.Rest())
  {
    hide Pow2, ToBits, InSignedRange, AlarmInRange, PackAlarm;
    ghost var rest := bits.Rest();
    assert |rest| == 8 * |bits.data| - bits.offset;
    hide From;
    var zOn :- bits.Boolean();
    var yOn :- bits.Boolean();
    var xOn :- bits.Boolean();
    var reserved :- bits.Unsigned(3);
    assert rest[0] == zOn && rest[1] == yOn && rest[2] == xOn;
    var x :- ReadAlarm(bits, xOn);
    var y :- ReadAlarm(bits, yOn);
    var z :- ReadAlarm(bits, zOn);
    return Success(Alarms(reserved, x, y, z));
  }

  lemma AlarmUnique(a: Option<AlarmEvent>, b: Option<AlarmEvent>, p: seq<bool>, q: seq<bool>)
    requires AlarmInRange(a) && AlarmInRange(b) && (a.Some? <==> b.Some?) && PackAlarm(a, p) == PackAlarm(b, q)
    ensures a == b && p == q
  {
    if a.Some? {
      hide SignedBits, InSignedRange;
      var a1, b1 := SignedBits(a.value.threshold, 15) + p, SignedBits(b.value.threshold, 15) + q;
      PeelBit(a.value.upperThreshold, b.value.upperThreshold, a1, b1);
      PeelSigned(a.value.threshold, b.value.threshold, 15, p, q);
    }
  }

  lemma AlarmsUnique(a: Alarms, b: Alarms, p: seq<bool>, q: seq<bool>)
    requires a.InRange() && b.InRange() && a.Pack(p) == b.Pack(q)
    ensures a == b && p == q && AlarmBits(a.Pack(p)) == a.Width()
  {
    hide AlarmInRange, PackAlarm, ToBits, Pow2;
    var az, bz := PackAlarm(a.z, p), PackAlarm(b.z, q);
    var ay, by' := PackAlarm(a.y, az), PackAlarm(b.y, bz);
    var ax, bx := PackAlarm(a.x, ay), PackAlarm(b.x, by');
    var a3, b3 := ToBits(a.reserved, 3) + ax, ToBits(b.reserved, 3) + bx;
    var a2, b2 := [a.x.Some?] + a3, [b.x.Some?] + b3;
    PeelBit(a.z.Some?, b.z.Some?, [a.y.Some?] + a2, [b.y.Some?] + b2);
    PeelBit(a.y.Some?, b.y.Some?, a2, b2);
    PeelBit(a.x.Some?, b.x.Some?, a3, b3);
    Peel(a.reserved, b.reserved, 3, ax, bx);
    AlarmUnique(a.x, b.x, ay, by');
    AlarmUnique(a.y, b.y, az, bz);
    AlarmUnique(a.z, b.z, p, q);
  }

  method ReadStatus(bits: Bits) returns (r: Result<AlarmStatus, FrameError>)
    requires bits.Valid()
    modifies bits
    ensures bits.Valid()
    ensures r.Success? <==> old(bits.offset) + StatusBits(old(bits.Rest())) <= 8 * |bits.data|
    ensures r.Failure? ==> r.error == IncompleteFrame
    ensures r.Success? ==> r.value.InRange() && bits.offset == old(bits.offset) + r.value.Width()
                           && old(bits.Rest()) == r.value.Pack(bits.Rest())
  {
    hide AlarmBits, Alarms.Pack, Alarms.InRange, Alarms.Width;
    ghost var rest := bits.Rest();
    assert |rest| == 8 * |bits.data| - bits.offset;
    hide From;
    var configured :- bits.Boolean();
    var triggered :- bits.Boolean();
    var active :- bits.Boolean();
    assert rest[2] == active && rest[3..] == bits.Rest();
    if !active {
      return Success(AlarmStatus(configured, triggered, None));
    }
    var alarms :- ReadAlarms(bits);
    return Success(AlarmStatus(configured, triggered, Some(alarms)));
  }

  lemma StatusUnique(a: AlarmStatus, b: AlarmStatus, p: seq<bool>, q: seq<bool>)
    requires a.InRange() && b.InRange() && a.Pack(p) == b.Pack(q)
    ensures a == b && p == q && StatusBits(a.Pack(p)) == a.Width()
  {
    hide Alarms.Pack, Alarms.InRange, Alarms.Width, AlarmBits;
    var p3, q3 := if a.alarms.Some? then a.alarms.value.Pack(p) else p,
                  if b.alarms.Some? then b.alarms.value.Pack(q) else q;
    var p2, q2 := [a.alarms.Some?] + p3, [b.alarms.Some?] + q3;
    PeelBit(a.configured, b.configured, [a.triggered] + p2, [b.triggered] + q2);
    PeelBit(a.triggered, b.triggered, p2, q2);
    PeelBit(a.alarms.Some?, b.alarms.Some?, p3, q3);
    assert a.Pack(p)[3..] == p3;
    if a.alarms.Some? { AlarmsUnique(a.alarms.value, b.alarms.value, p, q); }
  }

  lemma AlarmReadingUnique(body: seq<byte>, v: Til90AlarmReading, w: Til90AlarmReading)
    requires IsAlarmReading(body, v) && IsAlarmReading(body, w)
    ensures v == w && AlarmReadingBits(BitsOf(PayloadOf(body))) == v.Width()
  {
    hide CheckedHeader, BitsOf, Measurement.Pack, Measurement.InRange, From, AlarmStatus.Pack, AlarmStatus.InRange,
         PayloadOf, MeasurementBits, AlarmStatus.Width;
    var p, q := From(PayloadOf(body), v.Width()), From(PayloadOf(body), w.Width());
    MeasurementUnique(v.m, w.m, v.status.Pack(p), w.status.Pack(q));
    StatusUnique(v.status, w.status, p, q);
    MeasurementLength(v.m, v.status.Pack(p));
  }

  /** A body decodes to `v` if and only if it is an alarm reading of value `v`; it decodes if and
      only if header and type are right and the payload has the bits its flags ask for. */
  method DecodeTil90AlarmReading(body: seq<byte>) returns (r: Result<Til90AlarmReading, FrameError>)
    ensures forall v :: r == Success(v) <==> IsAlarmReading(body, v)
    ensures r.Success? <==> CheckedHeader(body, {0x50}).Success?
                            && AlarmReadingBits(BitsOf(PayloadOf(body))) <= 8 * |PayloadOf(body)|
    ensures r.Failure? ==> r.error == (if CheckedHeader(body, {0x50}).Failure? then CheckedHeader(body, {0x50}).error
                                       else IncompleteFrame)
  {
    hide CheckedHeader, BitsOf, Measurement.Pack, Measurement.InRange, MeasurementBits, PayloadOf,
         AlarmStatus.Pack, AlarmStatus.InRange, StatusBits, AlarmStatus.Width;
    forall v, w | IsAlarmReading(body, v) && IsAlarmReading(body, w)
      ensures v == w && AlarmReadingBits(BitsOf(PayloadOf(body))) == v.Width() <= 8 * |PayloadOf(body)|
    {
      AlarmReadingUnique(body, v, w);
    }
    var payload :- Payload(body, {0x50});
    var header, bits := payload.0, payload.1;
    var m :- ReadMeasurement(bits);
    MeasurementLength(m, bits.Rest());
    var status :- ReadStatus(bits);
    var v := Til90AlarmReading(header, m, status);
    assert v.Width() == bits.offset && IsAlarmReading(body, v);
    return Success(v);
  }

  // ---------------------------------------------------------------- round trips

  lemma ReadingLength(v: Til90Reading, rest: seq<bool>)
    requires v.InRange()
    ensures |v.Pack(rest)| == v.Width() + |rest| && v.Pack(rest)[v.Width()..] == rest
  {
    hide Measurement.Pack, Measurement.InRange, Measurement.Width, ToBits, Pow2;
    var tail := if v.azimuth.Some? then ToBits(v.azimuth.value, 9) + rest else rest;
    MeasurementLength(v.m, tail);
    if v.azimuth.Some? {
      Behind(ToBits(v.azimuth.value, 9), rest);
      DropDrop(v.Pack(rest), v.m.Width(), 9);
    }
  }

  /** Any reading in range, packed behind its header with any padding to whole bytes, is a
      reading of exactly that value. */
  lemma ReadingRoundTrip(v: Til90Reading, pad: seq<bool>)
    requires v.header.InRange() && v.header.version == REQUIRED_VERSION && v.header.amType == 0x4C
    requires v.InRange() && |v.Pack(pad)| % 8 == 0
    ensures IsReading(HeaderBytes(v.header) + BytesOf(v.Pack(pad)), v)
  {
    SentHeader(v.header, BytesOf(v.Pack(pad)), {0x4C});
    BitsOfBytesOf(v.Pack(pad));
    hide CheckedHeader, HeaderBytes, BitsOf, BytesOf, PayloadOf, Til90Reading.Pack, Til90Reading.Width,
         Til90Reading.InRange;
    ReadingLength(v, pad);
  }

  lemma AlarmLength(a: Option<AlarmEvent>, rest: seq<bool>)
    requires AlarmInRange(a)
    ensures |PackAlarm(a, rest)| == (if a.Some? then 16 else 0) + |rest|
    ensures PackAlarm(a, rest)[if a.Some? then 16 else 0..] == rest
  {
    hide InSignedRange, SignedBits;
    if a.Some? {
      Behind(SignedBits(a.value.threshold, 15), rest);
      DropDrop(PackAlarm(a, rest), 1, 15);
    }
  }

  lemma AlarmsLength(a: Alarms, rest: seq<bool>)
    requires a.InRange()
    ensures |a.Pack(rest)| == a.Width() + |rest| && a.Pack(rest)[a.Width()..] == rest
  {
    hide AlarmInRange, PackAlarm, ToBits, Pow2;
    var z := PackAlarm(a.z, rest);
    var y := PackAlarm(a.y, z);
    var x := PackAlarm(a.x, y);
    var all := a.Pack(rest);
    var wx, wy := if a.x.Some? then 16 else 0, if a.y.Some? then 16 else 0;
    var wz := if a.z.Some? then 16 else 0;
    Behind(ToBits(a.reserved, 3), x);
    assert all[6..] == x;
    AlarmLength(a.x, y);
    AlarmLength(a.y, z);
    AlarmLength(a.z, rest);
    DropDrop(all, 6, wx);
    DropDrop(all, 6 + wx, wy);
    DropDrop(all, 6 + wx + wy, wz);
  }

  lemma StatusLength(a: AlarmStatus, rest: seq<bool>)
    requires a.InRange()
    ensures |a.Pack(rest)| == a.Width() + |rest| && a.Pack(rest)[a.Width()..] == rest
  {
    hide Alarms.Pack, Alarms.Width, Alarms.InRange;
    var tail := if a.alarms.Some? then a.alarms.value.Pack(rest) else rest;
    assert a.Pack(rest)[3..] == tail;
    if a.alarms.Some? {
      AlarmsLength(a.alarms.value, rest);
      DropDrop(a.Pack(rest), 3, a.alarms.value.Width());
    }
  }

  lemma AlarmReadingLength(v: Til90AlarmReading, rest: seq<bool>)
    requires v.InRange()
    ensures |v.Pack(rest)| == v.Width() + |rest| && v.Pack(rest)[v.Width()..] == rest
  {
    hide Measurement.Pack, Measurement.Width, AlarmStatus.Pack, AlarmStatus.Width, Measurement.InRange,
         AlarmStatus.InRange;
    MeasurementLength(v.m, v.status.Pack(rest));
    StatusLength(v.status, rest);
    DropDrop(v.Pack(rest), v.m.Width(), v.status.Width());
  }

  lemma AlarmReadingRoundTrip(v: Til90AlarmReading, pad: seq<bool>)
    requires v.header.InRange() && v.header.version == REQUIRED_VERSION && v.header.amType == 0x50
    requires v.InRange() && |v.Pack(pad)| % 8 == 0
    ensures IsAlarmReading(HeaderBytes(v.header) + BytesOf(v.Pack(pad)), v)
  {
    SentHeader(v.header, BytesOf(v.Pack(pad)), {0x50});
    BitsOfBytesOf(v.Pack(pad));
    hide CheckedHeader, HeaderBytes, BitsOf, BytesOf, PayloadOf, Til90AlarmReading.Pack, Til90AlarmReading.Width,
         Til90AlarmReading.InRange;
    AlarmReadingLength(v, pad);
  }

  // ---------------------------------------------------------------- where the fields lie

  predicate HeadAt(p: seq<byte>, h: Head) {
    && 8 * |p| >= 54
    && h.timestamp == Slice(p, 0, 32) && h.version == Slice(p, 32, 2)
    && (h.zOn <==> Slice(p, 34, 1) == 1) && (h.yOn <==> Slice(p, 35, 1) == 1) && (h.xOn <==> Slice(p, 36, 1) == 1)
    && h.error == Slice(p, 37, 4) && (h.highPrecision <==> Slice(p, 41, 1) == 1)
    && h.temperature == SignedAt(p, 42, 12)
  }

  lemma HeadPositions(p: seq<byte>, h: Head, rest: seq<bool>)
    requires h.InRange() && From(p, 0) == h.Pack(rest)
    ensures 54 <= 8 * |p| && HeadAt(p, h) && From(p, 54) == rest
  {
    hide Slice, From, ToBits, SignedBits, Pow2, InSignedRange, SignedAt;
    var b8 := SignedBits(h.temperature, 12) + rest;
    var b7 := [h.highPrecision] + b8;
    var b6 := ToBits(h.error, 4) + b7;
    var b5 := [h.xOn] + b6;
    var b4 := [h.yOn] + b5;
    var b3 := [h.zOn] + b4;
    TakeField(p, 0, h.timestamp, 32, ToBits(h.version, 2) + b3);
    TakeField(p, 32, h.version, 2, b3);
    TakeBit(p, 34, h.zOn, b4);
    TakeBit(p, 35, h.yOn, b5);
    TakeBit(p, 36, h.xOn, b6);
    TakeField(p, 37, h.error, 4, b7);
    TakeBit(p, 41, h.highPrecision, b8);
    TakeSigned(p, 42, h.temperature, 12, rest);
  }

  /** An axis that is on takes 21 bits of angle and 20 of deviation. */
  predicate AxisAt(p: seq<byte>, k: nat, a: Option<AxisReading>) {
    a.Some? ==> k + 41 <= 8 * |p| && a.value.angle == SignedAt(p, k, 21) && a.value.stddev == Slice(p, k + 21, 20)
  }

  lemma AxisPosition(p: seq<byte>, k: nat, a: Option<AxisReading>, rest: seq<bool>)
    requires AxisInRange(a) && k <= 8 * |p| && From(p, k) == PackAxis(a, rest)
    ensures var next := k + if a.Some? then 41 else 0;
            AxisAt(p, k, a) && next <= 8 * |p| && From(p, next) == rest
  {
    hide Slice, From, ToBits, SignedBits, Pow2, InSignedRange, SignedAt;
    if a.Some? {
      TakeSigned(p, k, a.value.angle, 21, ToBits(a.value.stddev, 20) + rest);
      TakeField(p, k + 21, a.value.stddev, 20, rest);
    }
  }

  /** The axes that are on follow each other from bit 54 on, from x to z. */
  predicate MeasurementAt(p: seq<byte>, m: Measurement) {
    && HeadAt(p, m.head)
    && (m.x.Some? <==> m.head.xOn) && (m.y.Some? <==> m.head.yOn) && (m.z.Some? <==> m.head.zOn)
    && AxisAt(p, 54, m.x) && AxisAt(p, if m.head.xOn then 95 else 54, m.y)
    && AxisAt(p, 54 + 41 * Count3(m.head.xOn, m.head.yOn, false), m.z)
  }

  lemma MeasurementPositions(p: seq<byte>, m: Measurement, rest: seq<bool>)
    requires m.InRange() && From(p, 0) == m.Pack(rest)
    ensures MeasurementAt(p, m) && m.Width() <= 8 * |p| && From(p, m.Width()) == rest
  {
    hide Slice, From, PackAxis, AxisInRange, Head.Pack, Head.InRange, HeadAt, AxisAt;
    var z := PackAxis(m.z, rest);
    var y := PackAxis(m.y, z);
    HeadPositions(p, m.head, PackAxis(m.x, y));
    AxisPosition(p, 54, m.x, y);
    AxisPosition(p, if m.head.xOn then 95 else 54, m.y, z);
    AxisPosition(p, 54 + 41 * Count3(m.head.xOn, m.head.yOn, false), m.z, rest);
  }

  /** Every field of a reading, by its absolute position in the payload. */
  lemma ReadingPositions(body: seq<byte>, v: Til90Reading)
    requires IsReading(body, v)
    ensures var p := body[6..]; var end := 54 + 41 * Count3(v.m.head.xOn, v.m.head.yOn, v.m.head.zOn);
            && body[5] == 0x4C && MeasurementAt(p, v.m)
            && (v.azimuth.Some? <==> Slice(p, 32, 2) == 1)
            && (v.azimuth.Some? ==> end + 9 <= 8 * |p| && v.azimuth.value == Slice(p, end, 9))
  {
    var p, w := PayloadOf(body), v.m.Width();
    var rest := From(p, v.Width());
    assert p == body[6..] && From(p, 0) == BitsOf(p);
    hide Slice, From, BitsOf, ToBits, Pow2, Measurement.Pack, Measurement.InRange, AxisAt, SignedAt;
    var tail := if v.azimuth.Some? then ToBits(v.azimuth.value, 9) + rest else rest;
    MeasurementPositions(p, v.m, tail);
    if v.azimuth.Some? { TakeField(p, w, v.azimuth.value, 9, rest); }
  }

  /** An alarm that is set takes a flag and 15 bits of threshold. */
  predicate AlarmAt(p: seq<byte>, k: nat, a: Option<AlarmEvent>) {
    a.Some? ==> && k + 16 <= 8 * |p| && (a.value.upperThreshold <==> Slice(p, k, 1) == 1)
                && a.value.threshold == SignedAt(p, k + 1, 15)
  }

  lemma AlarmPosition(p: seq<byte>, k: nat, a: Option<AlarmEvent>, rest: seq<bool>)
    requires AlarmInRange(a) && k <= 8 * |p| && From(p, k) == PackAlarm(a, rest)
    ensures var next := k + if a.Some? then 16 else 0;
            AlarmAt(p, k, a) && next <= 8 * |p| && From(p, next) == rest
  {
    hide Slice, From, ToBits, SignedBits, Pow2, InSignedRange, SignedAt;
    if a.Some? {
      TakeBit(p, k, a.value.upperThreshold, SignedBits(a.value.threshold, 15) + rest);
      TakeSigned(p, k + 1, a.value.threshold, 15, rest);
    }
  }

  /** Three flags from z to x, three reserved bits, and the alarms that are set, from x to z. */
  predicate AlarmsAt(p: seq<byte>, k: nat, a: Alarms) {
    && k + 6 <= 8 * |p|
    && (a.z.Some? <==> Slice(p, k, 1) == 1) && (a.y.Some? <==> Slice(p, k + 1, 1) == 1)
    && (a.x.Some? <==> Slice(p, k + 2, 1) == 1) && a.reserved == Slice(p, k + 3, 3)
    && AlarmAt(p, k + 6, a.x) && AlarmAt(p, k + if a.x.Some? then 22 else 6, a.y)
    && AlarmAt(p, k + 6 + 16 * Count3(a.x.Some?, a.y.Some?, false), a.z)
  }

  lemma AlarmPositions(p: seq<byte>, k: nat, a: Alarms, rest: seq<bool>)
    requires a.InRange() && k <= 8 * |p| && From(p, k) == a.Pack(rest)
    ensures AlarmsAt(p, k, a)
  {
    hide Slice, From, ToBits, Pow2, PackAlarm, AlarmInRange, AlarmAt;
    var z := PackAlarm(a.z, rest);
    var y := PackAlarm(a.y, z);
    var x := PackAlarm(a.x, y);
    var b1 := ToBits(a.reserved, 3) + x;
    var b2 := [a.x.Some?] + b1;
    TakeBit(p, k, a.z.Some?, [a.y.Some?] + b2);
    TakeBit(p, k + 1, a.y.Some?, b2);
    TakeBit(p, k + 2, a.x.Some?, b1);
    TakeField(p, k + 3, a.reserved, 3, x);
    AlarmPosition(p, k + 6, a.x, y);
    AlarmPosition(p, k + if a.x.Some? then 22 else 6, a.y, z);
    AlarmPosition(p, k + 6 + 16 * Count3(a.x.Some?, a.y.Some?, false), a.z, rest);
  }

  /** Three flags, and the alarm fields if the third is set. */
  predicate StatusAt(p: seq<byte>, k: nat, s: AlarmStatus) {
    && k + 3 <= 8 * |p|
    && (s.configured <==> Slice(p, k, 1) == 1) && (s.triggered <==> Slice(p, k + 1, 1) == 1)
    && (s.alarms.Some? <==> Slice(p, k + 2, 1) == 1)
    && (s.alarms.Some? ==> AlarmsAt(p, k + 3, s.alarms.value))
  }

  lemma StatusPositions(p: seq<byte>, k: nat, s: AlarmStatus, rest: seq<bool>)
    requires s.InRange() && k <= 8 * |p| && From(p, k) == s.Pack(rest)
    ensures StatusAt(p, k, s)
  {
    hide Slice, From, Alarms.Pack, Alarms.InRange, AlarmsAt;
    var tail := if s.alarms.Some? then s.alarms.value.Pack(rest) else rest;
    TakeBit(p, k, s.configured, [s.triggered] + ([s.alarms.Some?] + tail));
    TakeBit(p, k + 1, s.triggered, [s.alarms.Some?] + tail);
    TakeBit(p, k + 2, s.alarms.Some?, tail);
    if s.alarms.Some? { AlarmPositions(p, k + 3, s.alarms.value, rest); }
  }

  /** Every field of an alarm reading, by its absolute position in the payload. */
  lemma AlarmReadingPositions(body: seq<byte>, v: Til90AlarmReading)
    requires IsAlarmReading(body, v)
    ensures body[5] == 0x50 && MeasurementAt(body[6..], v.m)
    ensures StatusAt(body[6..], 54 + 41 * Count3(v.m.head.xOn, v.m.head.yOn, v.m.head.zOn), v.status)
  {
    var p := PayloadOf(body);
    var rest := From(p, v.Width());
    assert p == body[6..] && From(p, 0) == BitsOf(p);
    hide Slice, From, BitsOf, Measurement.Pack, AlarmStatus.Pack, AlarmStatus.InRange, AlarmStatus.Width, AxisAt,
         HeadAt, StatusAt, AxisInRange, Head.InRange;
    MeasurementPositions(p, v.m, v.status.Pack(rest));
    StatusPositions(p, v.m.Width(), v.status, rest);
  }
}
