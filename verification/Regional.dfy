/** Applying the regional radio profile to a device, and undoing it
    (tools/radio_configuration.py). */
module Regional {
  import opened Common
  import opened BitNumbers
  import opened BitReader
  import opened Messages
  import opened ConfigMessages
  import opened WriteEncoders
  import opened WireBytes
  import opened ConfigDiff

  // ---------------------------------------------------------------- the profile

  datatype Profile = Profile(
    use500: bool, etsi: bool, adr: bool, spreadingFactor: nat, txPower: nat, uplink: seq<nat>)

  const EUROPE := Profile(
    false, true, true, 11, 14, [868100000, 868300000, 868500000, 868850000, 869050000, 869525000, 0, 0])

  const EUROPE_GENERAL_BODY: seq<byte> := [0x84, 0x10, 0x7b, 0x0e, 0x0c, 0x3c, 0xcb, 0xf7, 0x00, 0x00, 0x00]

  datatype Radio = Radio(general: LoraGeneral, channels: LoraChannels)

  /** _profile_mismatches finds nothing. */
  predicate Matches(r: Radio, p: Profile) {
    var g := r.general.radio;
    && g.macVersion == 0 && g.channel500 == p.use500 && g.radio && g.etsi == p.etsi && g.adr == p.adr
    && g.spreadingFactor == p.spreadingFactor && g.txPower == p.txPower
    && r.channels.frequencies == p.uplink && r.channels.enabled == NonZero(p.uplink)
  }

  /** What a device is asked to become by a write whose body follows this header. */
  function Obeyed(r: Radio, response: seq<byte>): Radio {
    var g, c := LoraGeneralOf(response), LoraChannelsOf(response);
    if g.Success? then r.(general := g.value)
    else if c.Success? && response[5] == 0x85 then r.(channels := c.value)
    else r
  }

  lemma EuropeRadio(p: seq<byte>)
    requires |p| == 10 && p[0] == 0x10 && p[1] == 0x7b && p[2] == 0x0e
    ensures LoraRadioAt(p, 0) == LoraRadio(1, 0, false, true, true, true, 11, 14)
  {
    hide LoraRadioAt;
    LoraRadioBytes(p);
  }

  lemma EuropeRx2(p: seq<byte>)
    requires |p| == 10 && p[3] == 0x0c && p[4] == 0x3c && p[5] == 0xcb && p[6] == 0xf7 && p[7] == p[8] == p[9] == 0
    ensures LoraRx2At(p, 24) == LoraRx2(false, false, 12, 1020000000, 0)
  {
    hide LoraRx2At;
    LoraRx2Bytes(p);
  }

  lemma EuropeGeneral(p: seq<byte>)
    requires p == EUROPE_GENERAL_BODY[1..]
    ensures LoraRadioAt(p, 0) == LoraRadio(1, 0, false, true, true, true, 11, 14)
    ensures LoraRx2At(p, 24) == LoraRx2(false, false, 12, 1020000000, 0)
  {
    hide LoraRadioAt, LoraRx2At;
    var b := EUROPE_GENERAL_BODY;
    assert |p| == 10 && p[0] == b[1] && p[1] == b[2] && p[2] == b[3] && p[3] == b[4];
    assert p[4] == b[5] && p[5] == b[6] && p[6] == b[7] && p[7] == b[8] && p[8] == b[9] && p[9] == b[10];
    EuropeRadio(p);
    EuropeRx2(p);
  }

  function UplinkBody(): (body: seq<byte>)
    ensures EncodeLoraChannels(0x85, EUROPE.uplink) == Success(body) && body[0] == 0x85
  {
    assert AllWords(EUROPE.uplink);
    EncodeLoraChannels(0x85, EUROPE.uplink).value
  }

  lemma GeneralTakesEurope(h: seq<byte>)
    requires HeaderStart(h)
    ensures LoraGeneralOf(h + EUROPE_GENERAL_BODY).Success?
    ensures LoraGeneralOf(h + EUROPE_GENERAL_BODY).value
            == LoraGeneral(LoraRadio(1, 0, false, true, true, true, 11, 14), LoraRx2(false, false, 12, 1020000000, 0))
  {
    ResponseOf(h, EUROPE_GENERAL_BODY, {0x84}, 80);
    EuropeGeneral(EUROPE_GENERAL_BODY[1..]);
    hide LoraRadioAt, LoraRx2At, Checked;
  }

  /** A body of another type is no general configuration. */
  lemma ChannelsNotGeneral(h: seq<byte>, body: seq<byte>)
    requires HeaderStart(h) && body != [] && body[0] == 0x85
    ensures LoraGeneralOf(h + body).Failure? && (h + body)[5] == 0x85
  {
    ResponseOf(h, body, {0x84}, 80);
  }

  lemma GeneralIsTaken(h: seq<byte>, r: Radio)
    requires HeaderStart(h)
    ensures var r' := Obeyed(r, h + EUROPE_GENERAL_BODY);
            r'.general.radio == LoraRadio(1, 0, false, true, true, true, 11, 14) && r'.channels == r.channels
  {
    GeneralTakesEurope(h);
    hide LoraGeneralOf, LoraChannelsOf;
  }

  lemma UplinkIsTaken(h: seq<byte>, r: Radio)
    requires HeaderStart(h)
    ensures Obeyed(r, h + UplinkBody()) == r.(channels := LoraChannels(0, 0, NonZero(EUROPE.uplink), EUROPE.uplink))
  {
    LoraChannelsAgree(h, 0x85, EUROPE.uplink);
    ChannelsNotGeneral(h, UplinkBody());
    hide LoraGeneralOf, LoraChannelsOf, EncodeLoraChannels, NonZero;
  }

  /** The two writes of the profile, obeyed, give the profile. */
  lemma ProfileIsWritten(h: seq<byte>, r: Radio)
    requires HeaderStart(h)
    ensures Matches(Obeyed(Obeyed(r, h + EUROPE_GENERAL_BODY), h + UplinkBody()), EUROPE)
  {
    GeneralIsTaken(h, r);
    UplinkIsTaken(h, Obeyed(r, h + EUROPE_GENERAL_BODY));
    hide Obeyed, NonZero, UplinkBody;
  }

  /** What the profile asks of a radio, field by field. */
  predicate OnEurope(r: Radio) {
    var g := r.general.radio;
    && g.macVersion == 0 && !g.channel500 && g.radio && g.etsi && g.adr && g.spreadingFactor == 11 && g.txPower == 14
    && r.channels.frequencies == [868100000, 868300000, 868500000, 868850000, 869050000, 869525000, 0, 0]
    && r.channels.enabled == [true, true, true, true, true, true, false, false]
  }

  lemma MatchesIff(r: Radio)
    ensures Matches(r, EUROPE) <==> OnEurope(r)
  {
    var flags := NonZero(EUROPE.uplink);
    assert flags == [true, true, true, true, true, true, false, false];
  }

  /** A match is a fixed point of the profile: a radio matches exactly if obeying both writes would
      change none of the nine fields. */
  lemma MatchIsFixedPoint(h: seq<byte>, r: Radio)
    requires HeaderStart(h)
    ensures var r' := Obeyed(Obeyed(r, h + EUROPE_GENERAL_BODY), h + UplinkBody());
            var g, g' := r.general.radio, r'.general.radio;
            Matches(r, EUROPE) <==>
              && g.macVersion == g'.macVersion && g.channel500 == g'.channel500 && g.radio == g'.radio
              && g.etsi == g'.etsi && g.adr == g'.adr && g.spreadingFactor == g'.spreadingFactor
              && g.txPower == g'.txPower && r.channels.frequencies == r'.channels.frequencies
              && r.channels.enabled == r'.channels.enabled
  {
    GeneralIsTaken(h, r);
    UplinkIsTaken(h, Obeyed(r, h + EUROPE_GENERAL_BODY));
    hide Obeyed, NonZero, UplinkBody;
  }

  /** Repeating the general response, obeyed, gives its value back. */
  lemma GeneralIsRepeated(h: seq<byte>, r: Radio, raw: seq<byte>)
    requires HeaderStart(h) && LoraGeneralOf(raw).Success?
    ensures BackupBody(raw).Success? && BackupBody(raw).value[0] == 0x84
    ensures Obeyed(r, h + BackupBody(raw).value) == r.(general := LoraGeneralOf(raw).value)
  {
    BackupBodyAgrees(h, raw, {0x84}, 80);
    hide LoraGeneralOf, LoraChannelsOf;
  }

  lemma ChannelsAreRepeated(h: seq<byte>, r: Radio, raw: seq<byte>)
    requires HeaderStart(h) && LoraChannelsOf(raw).Success? && raw[5] == 0x85
    ensures BackupBody(raw).Success? && BackupBody(raw).value[0] == 0x85
    ensures Obeyed(r, h + BackupBody(raw).value) == r.(channels := LoraChannelsOf(raw).value)
  {
    BackupBodyAgrees(h, raw, {0x85, 0x8E}, 272);
    ChannelsNotGeneral(h, BackupBody(raw).value);
    hide LoraGeneralOf, LoraChannelsOf;
  }

  // ---------------------------------------------------------------- the device

  predicate IsGeneral(response: seq<byte>) {
    LoraGeneralOf(response).Success?
  }

  predicate IsUplink(response: seq<byte>) {
    LoraChannelsOf(response).Success? && response[5] == 0x85
  }

  function RadioOf(general: seq<byte>, channels: seq<byte>): Radio
    requires IsGeneral(general) && IsUplink(channels)
  {
    Radio(LoraGeneralOf(general).value, LoraChannelsOf(channels).value)
  }

  /** The fields a profile must leave alone. */
  datatype Gateway = Gateway(address: Json, networkId: Json, join: Json, slotTime: Json)

  datatype RadioBackup = RadioBackup(
    nodeId: int, productCode: byte, generalBody: seq<byte>, channelsBody: seq<byte>, gateway: Gateway)

  /** What a device answers to the two radio queries, its gateway fields, and how many steps it has
      taken. */
  datatype DeviceState = DeviceState(general: seq<byte>, channels: seq<byte>, gateway: Gateway, step: nat) {
    predicate Valid() {
      IsGeneral(general) && IsUplink(channels)
    }

    function Radio(): Radio
      requires Valid()
    {
      RadioOf(general, channels)
    }

    function Next(): DeviceState {
      this.(step := step + 1)
    }
  }

  /** What happens in one step: whether it succeeds, and for a write what the device answers
      afterwards and what becomes of its gateway fields. */
  datatype Fate = Fate(ok: bool, answer: seq<byte>, gateway: Gateway)

  type Schedule = nat -> Fate

  /** A write of type 0x84 or 0x85 leaves the other part of the radio alone.  Whether it is obeyed,
      and whether the gateway fields survive it, is open, also when it is not acknowledged. */
  function Written(d: DeviceState, body: seq<byte>, fate: Fate): (after: DeviceState)
    requires d.Valid() && body != []
    ensures after.Valid()
    ensures body[0] == 0x84 ==> after.Radio().channels == d.Radio().channels
    ensures body[0] == 0x85 ==> after.Radio().general == d.Radio().general
  {
    hide IsGeneral, IsUplink;
    d.Next().(general := if body[0] != 0x85 && IsGeneral(fate.answer) then fate.answer else d.general,
              channels := if body[0] != 0x84 && IsUplink(fate.answer) then fate.answer else d.channels,
              gateway := fate.gateway)
  }

  function BackupOf(d: DeviceState, nodeId: int, productCode: byte): RadioBackup {
    RadioBackup(nodeId, productCode, d.general, d.channels, d.gateway)
  }

  /** A device that may fail at any step.  Reads and backups fail or tell the truth. */
  class RadioDevice {
    const nodeId: int
    const productCode: byte
    const header: seq<byte>
    /** What happens in every step, in order. */
    const schedule: Schedule
    var state: DeviceState
    ghost var sent: seq<seq<byte>>
    /** Acknowledged writes that were not obeyed. */
    ghost var lies: nat
    /** Steps in which anything went wrong. */
    ghost var faults: nat

    constructor (nodeId: int, productCode: byte, header: seq<byte>, schedule: Schedule, state: DeviceState)
      requires HeaderStart(header) && state.Valid()
      ensures Valid() && this.nodeId == nodeId && this.productCode == productCode && this.header == header
      ensures this.schedule == schedule && this.state == state && sent == [] && lies == 0 && faults == 0
    {
      this.nodeId, this.productCode, this.header := nodeId, productCode, header;
      this.schedule, this.state := schedule, state;
      sent, lies, faults := [], 0, 0;
    }

    ghost predicate Valid()
      reads `state
    {
      HeaderStart(header) && state.Valid()
    }

    /** Opening the port, or a readback of which only the status is looked at. */
    method Open() returns (ok: bool)
      modifies `state, `faults
      ensures ok == schedule(old(state.step)).ok && state == old(state).Next()
      ensures faults == old(faults) + if ok then 0 else 1
    {
      ok := schedule(state.step).ok;
      state := state.Next();
      faults := faults + if ok then 0 else 1;
    }

    method Write(body: seq<byte>) returns (acked: bool)
      requires Valid() && body != []
      modifies this
      ensures Valid() && sent == old(sent) + [body]
      ensures acked == schedule(old(state.step)).ok && state == Written(old(state), body, schedule(old(state.step)))
      ensures lies == old(lies) + if acked && state.Radio() != Obeyed(old(state.Radio()), header + body) then 1 else 0
      ensures faults >= old(faults)
      ensures faults == old(faults) <==>
              acked && state.Radio() == Obeyed(old(state.Radio()), header + body) && state.gateway == old(state.gateway)
    {
      hide IsGeneral, IsUplink, Obeyed, HeaderStart;
      var fate := schedule(state.step);
      ghost var before := state;
      acked := fate.ok;
      state := Written(state, body, fate);
      sent := sent + [body];
      ghost var obeyed := state.Radio() == Obeyed(before.Radio(), header + body);
      lies := lies + if acked && !obeyed then 1 else 0;
      faults := faults + if acked && obeyed && state.gateway == before.gateway then 0 else 1;
    }

    method Backup() returns (r: Option<RadioBackup>)
      requires Valid()
      modifies `state, `faults
      ensures r == (if schedule(old(state.step)).ok then Some(BackupOf(old(state), nodeId, productCode)) else None)
      ensures state == old(state).Next() && faults == old(faults) + if r.Some? then 0 else 1
    {
      r := if schedule(state.step).ok then Some(BackupOf(state, nodeId, productCode)) else None;
      faults := faults + if r.Some? then 0 else 1;
      state := state.Next();
    }
  }

  // ---------------------------------------------------------------- the transaction

  datatype Outcome = Refused | AlreadyConfigured | Applied(after: RadioBackup) | Failed(rollbackError: bool)

  datatype Confirmation = Confirmation(nodeId: int, profile: string)

  /** The radio after all bodies have been obeyed in order. */
  function AllObeyed(r: Radio, header: seq<byte>, bodies: seq<seq<byte>>): Radio
    decreases |bodies|
  {
    if bodies == [] then r else Obeyed(AllObeyed(r, header, bodies[..|bodies| - 1]), header + bodies[|bodies| - 1])
  }

  /** The radio after `bodies` have been obeyed, last one first. */
  function AllUndone(r: Radio, header: seq<byte>, bodies: seq<seq<byte>>): Radio
    decreases |bodies|
  {
    if bodies == [] then r else AllUndone(Obeyed(r, header + bodies[|bodies| - 1]), header, bodies[..|bodies| - 1])
  }

  function First(bodies: seq<seq<byte>>, n: nat): seq<seq<byte>>
    requires n <= |bodies|
  {
    bodies[..n]
  }

  /** `more` has been sent after `before`. */
  predicate Sent(now: seq<seq<byte>>, before: seq<seq<byte>>, more: seq<seq<byte>>) {
    now == before + more
  }

  /** One body for the general part and one for the channels. */
  predicate Pair(bodies: seq<seq<byte>>) {
    |bodies| == 2 && bodies[0] != [] && bodies[1] != [] && bodies[0][0] == 0x84 && bodies[1][0] == 0x85
  }

  // ---------------------------------------------------------------- runs under a schedule

  function Verified(schedule: Schedule, d: DeviceState, body: seq<byte>): (r: (bool, DeviceState))
    requires d.Valid() && body != []
    ensures r.1.Valid()
  {
    hide IsGeneral, IsUplink;
    var d1 := Written(d, body, schedule(d.step));
    if !schedule(d.step).ok then (false, d1) else (schedule(d1.step).ok, d1.Next())
  }

  function WrittenFrom(schedule: Schedule, d: DeviceState, operations: seq<seq<byte>>, i: nat)
    : (r: (bool, nat, DeviceState))
    requires d.Valid() && Pair(operations) && i <= 2
    ensures r.2.Valid() && r.1 <= 2
    decreases 2 - i
  {
    hide IsGeneral, IsUplink;
    if i == 2 then (true, 2, d)
    else
      var (ok, d1) := Verified(schedule, d, operations[i]);
      if !ok then (false, i + 1, d1) else WrittenFrom(schedule, d1, operations, i + 1)
  }

  function AllWritten(schedule: Schedule, d: DeviceState, operations: seq<seq<byte>>): (r: (bool, nat, DeviceState))
    requires d.Valid() && Pair(operations)
    ensures r.2.Valid() && r.1 <= 2
  {
    if !schedule(d.step).ok then (false, 0, d.Next()) else WrittenFrom(schedule, d.Next(), operations, 0)
  }

  /** The undo of operation `i`. */
  function Undone(schedule: Schedule, d: DeviceState, undo: seq<seq<byte>>, i: nat): (r: (bool, DeviceState))
    requires d.Valid() && Pair(undo) && i < 2
    ensures r.1.Valid()
  {
    hide IsGeneral, IsUplink;
    Verified(schedule, d, undo[i])
  }

  function UndoneFrom(schedule: Schedule, d: DeviceState, undo: seq<seq<byte>>, i: nat): (r: (bool, DeviceState))
    requires d.Valid() && Pair(undo) && i <= 2
    ensures r.1.Valid()
    decreases i
  {
    hide IsGeneral, IsUplink;
    if i == 0 then (true, d)
    else
      var (ok, d1) := Undone(schedule, d, undo, i - 1);
      if !ok then (false, d1) else UndoneFrom(schedule, d1, undo, i - 1)
  }

  function RolledBack(schedule: Schedule, d: DeviceState, undo: seq<seq<byte>>, applied: nat)
    : (r: (bool, DeviceState))
    requires d.Valid() && Pair(undo) && applied <= 2
    ensures r.1.Valid()
  {
    if applied == 0 then (true, d)
    else if !schedule(d.step).ok then (false, d.Next())
    else UndoneFrom(schedule, d.Next(), undo, applied)
  }

  /** _write_verified */
  method WriteVerified(device: RadioDevice, body: seq<byte>) returns (ok: bool)
    requires device.Valid() && body != []
    modifies device
    ensures device.Valid() && device.sent == old(device.sent) + [body]
    ensures body[0] == 0x84 ==> device.state.Radio().channels == old(device.state.Radio()).channels
    ensures body[0] == 0x85 ==> device.state.Radio().general == old(device.state.Radio()).general
    ensures ok ==> (device.lies == old(device.lies) <==>
                    device.state.Radio() == Obeyed(old(device.state.Radio()), device.header + body))
    ensures (ok, device.state) == Verified(device.schedule, old(device.state), body)
    ensures device.lies >= old(device.lies) && device.faults >= old(device.faults)
    ensures device.faults == old(device.faults) ==>
              ok && device.state.gateway == old(device.state.gateway) && device.lies == old(device.lies)
  {
    hide IsGeneral, IsUplink, Obeyed, HeaderStart, RadioOf, Written;
    var acked := device.Write(body);
    if !acked {
      return false;
    }
    ok := device.Open();
  }

  lemma AllSent(now: seq<seq<byte>>, before: seq<seq<byte>>, bodies: seq<seq<byte>>)
    requires Pair(bodies) && Sent(now, before, First(bodies, 2))
    ensures Sent(now, before, bodies)
  {
  }

  lemma SentTwice(now: seq<seq<byte>>, between: seq<seq<byte>>, before: seq<seq<byte>>,
                  a: seq<seq<byte>>, b: seq<seq<byte>>)
    requires Sent(between, before, a) && Sent(now, between, b)
    ensures Sent(now, before, a + b)
  {
  }

  lemma NothingObeyed(h: seq<byte>, r: Radio, sent: seq<seq<byte>>, operations: seq<seq<byte>>)
    requires Pair(operations)
    ensures AllObeyed(r, h, First(operations, 0)) == r && Sent(sent, sent, First(operations, 0))
    ensures First(operations, 2) == operations
  {
    assert sent + [] == sent;
  }

  lemma OneMoreObeyed(h: seq<byte>, r: Radio, operations: seq<seq<byte>>, i: nat)
    requires Pair(operations) && i < 2
    ensures AllObeyed(r, h, First(operations, i + 1))
            == Obeyed(AllObeyed(r, h, First(operations, i)), h + operations[i])
  {
    assert operations[..i + 1][..i] == operations[..i];
    hide Obeyed;
  }

  lemma OneMoreOperation(now: seq<seq<byte>>, before: seq<seq<byte>>, operations: seq<seq<byte>>, i: nat)
    requires Pair(operations) && i < 2 && Sent(now, before, First(operations, i))
    ensures Sent(now + [operations[i]], before, First(operations, i + 1))
  {
    assert operations[..i + 1] == operations[..i] + [operations[i]];
  }

  /** Where the writes from `d0` stand: `d`, after the first `i` operations. */
  ghost predicate WriteStands(schedule: Schedule, d0: DeviceState, d: DeviceState, h: seq<byte>,
                              operations: seq<seq<byte>>, i: nat, faultless: bool)
    requires d0.Valid() && d.Valid() && Pair(operations) && i <= 2
  {
    && WrittenFrom(schedule, d0, operations, 0) == WrittenFrom(schedule, d, operations, i)
    && (i == 0 ==> d.Radio() == d0.Radio() && d.gateway == d0.gateway)
    && (i == 1 ==> d.Radio().channels == d0.Radio().channels)
    && (faultless ==> d.gateway == d0.gateway && d.Radio() == AllObeyed(d0.Radio(), h, First(operations, i)))
  }

  lemma WriteStarts(schedule: Schedule, d: DeviceState, h: seq<byte>, operations: seq<seq<byte>>)
    requires d.Valid() && Pair(operations)
    ensures WriteStands(schedule, d, d, h, operations, 0, true)
  {
    NothingObeyed(h, d.Radio(), [], operations);
    hide WrittenFrom, AllObeyed, First;
  }

  lemma WriteOnce(schedule: Schedule, d: DeviceState, operations: seq<seq<byte>>, i: nat)
    requires d.Valid() && Pair(operations) && i < 2
    ensures var (ok, d1) := Verified(schedule, d, operations[i]);
            WrittenFrom(schedule, d, operations, i)
            == if !ok then (false, i + 1, d1) else WrittenFrom(schedule, d1, operations, i + 1)
  {
    hide Verified, IsGeneral, IsUplink;
  }

  lemma WriteStep(schedule: Schedule, d0: DeviceState, d: DeviceState, d1: DeviceState, ok: bool, h: seq<byte>,
                  operations: seq<seq<byte>>, i: nat, faultless: bool, obeyed: bool)
    requires d0.Valid() && d.Valid() && d1.Valid() && Pair(operations) && i < 2
    requires WriteStands(schedule, d0, d, h, operations, i, faultless)
    requires (ok, d1) == Verified(schedule, d, operations[i])
    requires i == 0 ==> d1.Radio().channels == d.Radio().channels
    requires obeyed ==> ok && d1.gateway == d.gateway && d1.Radio() == Obeyed(d.Radio(), h + operations[i])
    ensures if ok then WriteStands(schedule, d0, d1, h, operations, i + 1, faultless && obeyed)
            else WrittenFrom(schedule, d0, operations, 0) == (false, i + 1, d1)
                 && (i == 0 ==> d1.Radio().channels == d0.Radio().channels)
  {
    WriteOnce(schedule, d, operations, i);
    OneMoreObeyed(h, d0.Radio(), operations, i);
    hide WrittenFrom, Verified, Obeyed, AllObeyed, First, Pair, IsGeneral, IsUplink, RadioOf;
  }

  lemma WriteEnds(schedule: Schedule, d0: DeviceState, d: DeviceState, h: seq<byte>, operations: seq<seq<byte>>,
                  faultless: bool)
    requires d0.Valid() && d.Valid() && Pair(operations) && WriteStands(schedule, d0, d, h, operations, 2, faultless)
    ensures WrittenFrom(schedule, d0, operations, 0) == (true, 2, d)
    ensures faultless ==> d.gateway == d0.gateway && d.Radio() == AllObeyed(d0.Radio(), h, operations)
  {
    assert First(operations, 2) == operations;
    hide IsGeneral, IsUplink, RadioOf, AllObeyed;
  }

  /** Writes operation `i`. */
  method WriteOne(device: RadioDevice, operations: seq<seq<byte>>, i: nat, ghost d0: DeviceState, ghost faultless: bool)
    returns (ok: bool)
    requires device.Valid() && Pair(operations) && i < 2 && d0.Valid()
    requires WriteStands(device.schedule, d0, device.state, device.header, operations, i, faultless)
    modifies device
    ensures device.Valid() && device.sent == old(device.sent) + [operations[i]]
    ensures device.lies >= old(device.lies) && device.faults >= old(device.faults)
    ensures ok ==> WriteStands(device.schedule, d0, device.state, device.header, operations, i + 1,
                               faultless && device.faults == old(device.faults))
    ensures !ok ==> WrittenFrom(device.schedule, d0, operations, 0) == (false, i + 1, device.state)
                    && (i == 0 ==> device.state.Radio().channels == d0.Radio().channels)
                    && device.faults > old(device.faults)
  {
    ghost var d, faults, lies := device.state, device.faults, device.lies;
    hide Obeyed, IsGeneral, IsUplink, HeaderStart, Verified, RadioOf, WrittenFrom, WriteStands;
    ok := WriteVerified(device, operations[i]);
    WriteStep(device.schedule, d0, d, device.state, ok, device.header, operations, i, faultless,
              device.faults == faults);
  }

  /** Writes one operation after another; each is recorded before it is sent. */
  method WriteEach(device: RadioDevice, operations: seq<seq<byte>>) returns (ok: bool, applied: nat)
    requires device.Valid() && Pair(operations)
    modifies device
    ensures device.Valid() && 1 <= applied <= 2 && Sent(device.sent, old(device.sent), First(operations, applied))
    ensures ok ==> applied == 2 && WriteStands(device.schedule, old(device.state), device.state, device.header,
                                               operations, 2, device.faults == old(device.faults))
    ensures !ok ==> WrittenFrom(device.schedule, old(device.state), operations, 0) == (false, applied, device.state)
                    && device.faults > old(device.faults)
    ensures device.lies >= old(device.lies) && device.faults >= old(device.faults)
  {
    assert HeaderStart(device.header) && |operations| == 2;
    applied := 0;
    ghost var d0 := device.state;
    hide *;
    NothingObeyed(device.header, d0.Radio(), device.sent, operations);
    WriteStarts(device.schedule, d0, device.header, operations);
    while applied < |operations|
      invariant device.Valid() && applied <= |operations|
      invariant WriteStands(device.schedule, d0, device.state, device.header, operations, applied,
                            device.faults == old(device.faults))
      invariant Sent(device.sent, old(device.sent), First(operations, applied))
      invariant device.lies >= old(device.lies) && device.faults >= old(device.faults)
    {
      ghost var faultless, sent := device.faults == old(device.faults), device.sent;
      applied := applied + 1;
      ok := WriteOne(device, operations, applied - 1, d0, faultless);
      OneMoreOperation(sent, old(device.sent), operations, applied - 1);
      if !ok {
        return false, applied;
      }
    }
    return true, applied;
  }

  lemma VerifiedKeepsOther(schedule: Schedule, d: DeviceState, body: seq<byte>)
    requires d.Valid() && body != []
    ensures var d1 := Verified(schedule, d, body).1;
            && (body[0] == 0x84 ==> d1.Radio().channels == d.Radio().channels)
            && (body[0] == 0x85 ==> d1.Radio().general == d.Radio().general)
  {
    hide IsGeneral, IsUplink, RadioOf, Written;
  }

  /** The part of the radio that no recorded operation writes is the old one. */
  ghost predicate KeptSoFar(before: Radio, now: Radio, applied: nat) {
    (applied == 0 ==> now == before) && (applied <= 1 ==> now.channels == before.channels)
  }

  lemma WrittenAtLeast(schedule: Schedule, d: DeviceState, operations: seq<seq<byte>>, i: nat)
    requires d.Valid() && Pair(operations) && i < 2
    ensures WrittenFrom(schedule, d, operations, i).1 > i
  {
    hide IsGeneral, IsUplink, Verified;
  }

  lemma FirstWritten(schedule: Schedule, d: DeviceState, operations: seq<seq<byte>>)
    requires d.Valid() && Pair(operations)
    ensures var (ok, applied, d1) := WrittenFrom(schedule, d, operations, 0);
            applied >= 1 && KeptSoFar(d.Radio(), d1.Radio(), applied)
  {
    VerifiedKeepsOther(schedule, d, operations[0]);
    var (ok, d1) := Verified(schedule, d, operations[0]);
    WrittenAtLeast(schedule, d1, operations, 1);
    assert WrittenFrom(schedule, d, operations, 0)
           == if !ok then (false, 1, d1) else WrittenFrom(schedule, d1, operations, 1);
    hide IsGeneral, IsUplink, RadioOf, Verified, WrittenFrom;
  }

  /** Opens the port and writes. */
  method WriteAll(device: RadioDevice, operations: seq<seq<byte>>) returns (ok: bool, applied: nat)
    requires device.Valid() && Pair(operations)
    modifies device
    ensures device.Valid() && applied <= 2 && Sent(device.sent, old(device.sent), First(operations, applied))
    ensures applied == 0 ==>
              device.state.Radio() == old(device.state.Radio()) && device.state.gateway == old(device.state.gateway)
    ensures applied == 1 ==> device.state.Radio().channels == old(device.state.Radio()).channels
    ensures ok ==> applied == 2
    ensures (ok, applied, device.state) == AllWritten(device.schedule, old(device.state), operations)
    ensures device.lies >= old(device.lies) && device.faults >= old(device.faults)
    ensures device.faults == old(device.faults) ==>
              ok && device.state.gateway == old(device.state.gateway)
              && device.state.Radio() == AllObeyed(old(device.state.Radio()), device.header, operations)
  {
    NothingObeyed(device.header, device.state.Radio(), device.sent, operations);
    hide Obeyed, IsGeneral, IsUplink, HeaderStart, AllObeyed, Sent, First, RadioOf, WrittenFrom, Pair, WriteStands;
    var open := device.Open();
    if !open {
      return false, 0;
    }
    ghost var d0, faults := device.state, device.faults;
    FirstWritten(device.schedule, d0, operations);
    ok, applied := WriteEach(device, operations);
    if ok {
      WriteEnds(device.schedule, d0, device.state, device.header, operations, device.faults == faults);
    }
  }

  function Reversed(bodies: seq<seq<byte>>): seq<seq<byte>>
    decreases |bodies|
  {
    if bodies == [] then [] else [bodies[|bodies| - 1]] + Reversed(bodies[..|bodies| - 1])
  }

  /** An obeyed write of one type leaves the other part of the radio alone. */
  lemma ObeyedKeepsOther(h: seq<byte>, r: Radio, body: seq<byte>)
    requires HeaderStart(h) && body != []
    ensures body[0] == 0x84 ==> Obeyed(r, h + body).channels == r.channels
    ensures body[0] == 0x85 ==> Obeyed(r, h + body).general == r.general
  {
    ResponseOf(h, body, {0x84}, 80);
    ResponseOf(h, body, {0x85, 0x8E}, 272);
    hide LoraRadioAt, LoraRx2At, LoraChannelsAt;
  }

  /** The channels are those the last undo body leaves: the general body does not touch them. */
  lemma UndoneChannels(h: seq<byte>, r: Radio, undo: seq<seq<byte>>)
    requires HeaderStart(h) && Pair(undo)
    ensures AllUndone(r, h, undo[..2]).channels == Obeyed(r, h + undo[1]).channels
    ensures AllUndone(r, h, undo[..1]) == Obeyed(r, h + undo[0])
  {
    var r1 := Obeyed(r, h + undo[1]);
    ObeyedKeepsOther(h, r1, undo[0]);
    hide Obeyed;
    assert undo[..2] == undo && undo[..2][..1] == undo[..1] == [undo[0]] && undo[..1][..0] == [];
    assert AllUndone(r, h, undo) == AllUndone(r1, h, undo[..1]);
  }

  /** Where a rollback that started from `r0` stands, with the first `i` bodies still to be sent:
      without a lie it is on its way to the result; after one it has missed it for good. */
  ghost predicate Tracks(h: seq<byte>, r0: Radio, r: Radio, undo: seq<seq<byte>>, applied: nat, i: nat, lied: bool)
    requires Pair(undo) && i <= applied <= 2
  {
    var done := AllUndone(r0, h, undo[..applied]);
    if !lied then AllUndone(r, h, undo[..i]) == done
    else i < applied && (i == 1 ==> r.channels != done.channels) && (i == 0 ==> r != done)
  }

  lemma StartTracks(h: seq<byte>, r0: Radio, undo: seq<seq<byte>>, applied: nat)
    requires Pair(undo) && applied <= 2
    ensures Tracks(h, r0, r0, undo, applied, applied, false)
  {
  }

  lemma TracksStep(h: seq<byte>, r0: Radio, r: Radio, r': Radio, undo: seq<seq<byte>>, applied: nat, i: nat,
                   lied: bool, lies: bool)
    requires HeaderStart(h) && Pair(undo) && i < applied <= 2 && Tracks(h, r0, r, undo, applied, i + 1, lied)
    requires undo[i][0] == 0x84 ==> r'.channels == r.channels
    requires undo[i][0] == 0x85 ==> r'.general == r.general
    requires lies <==> r' != Obeyed(r, h + undo[i])
    ensures Tracks(h, r0, r', undo, applied, i, lied || lies)
  {
    ObeyedKeepsOther(h, r, undo[i]);
    UndoneChannels(h, r, undo);
    hide Obeyed;
    assert undo[..i + 1][..i] == undo[..i] && undo[..i + 1][i] == undo[i];
  }

  lemma UndoOnce(schedule: Schedule, d: DeviceState, undo: seq<seq<byte>>, i: nat)
    requires d.Valid() && Pair(undo) && 0 < i <= 2
    ensures var (ok, d1) := Undone(schedule, d, undo, i - 1);
            UndoneFrom(schedule, d, undo, i) == if !ok then (false, d1) else UndoneFrom(schedule, d1, undo, i - 1)
  {
    hide Undone, IsGeneral, IsUplink;
  }

  /** The undo of operation `i` was obeyed. */
  ghost predicate Follows(d: DeviceState, d1: DeviceState, h: seq<byte>, undo: seq<seq<byte>>, i: nat)
    requires d.Valid() && d1.Valid() && i < |undo|
  {
    d1.Radio() == Obeyed(d.Radio(), h + undo[i])
  }

  /** Every one of the first `i` undo bodies, sent last one first, is obeyed. */
  ghost predicate UndoObeyed(schedule: Schedule, d: DeviceState, h: seq<byte>, undo: seq<seq<byte>>, i: nat)
    requires d.Valid() && Pair(undo) && i <= 2
    decreases i
  {
    i == 0 ||
    var d1 := Undone(schedule, d, undo, i - 1).1;
    Follows(d, d1, h, undo, i - 1) && UndoObeyed(schedule, d1, h, undo, i - 1)
  }

  lemma ObeyedOnce(schedule: Schedule, d: DeviceState, h: seq<byte>, undo: seq<seq<byte>>, i: nat)
    requires d.Valid() && Pair(undo) && 0 < i <= 2
    ensures var d1 := Undone(schedule, d, undo, i - 1).1;
            UndoObeyed(schedule, d, h, undo, i)
            <==> Follows(d, d1, h, undo, i - 1) && UndoObeyed(schedule, d1, h, undo, i - 1)
  {
    hide Undone, IsGeneral, IsUplink, Follows;
  }

  lemma NothingLeft(schedule: Schedule, d: DeviceState, h: seq<byte>, undo: seq<seq<byte>>)
    requires d.Valid() && Pair(undo)
    ensures UndoneFrom(schedule, d, undo, 0) == (true, d) && UndoObeyed(schedule, d, h, undo, 0)
  {
  }

  lemma UndoneIs(schedule: Schedule, d: DeviceState, d1: DeviceState, ok: bool, h: seq<byte>,
                 undo: seq<seq<byte>>, i: nat, honest: bool)
    requires d.Valid() && d1.Valid() && Pair(undo) && i < 2 && (ok, d1) == Verified(schedule, d, undo[i])
    requires ok ==> (honest <==> d1.Radio() == Obeyed(d.Radio(), h + undo[i]))
    ensures (ok, d1) == Undone(schedule, d, undo, i)
    ensures ok ==> (honest <==> Follows(d, d1, h, undo, i))
  {
    hide Verified, Obeyed, IsGeneral, IsUplink, RadioOf;
  }

  /** Where a rollback from `d0` stands: `d`, with the first `i` bodies still to be sent. */
  ghost predicate UndoStands(schedule: Schedule, d0: DeviceState, d: DeviceState, h: seq<byte>,
                             undo: seq<seq<byte>>, applied: nat, i: nat, honest: bool)
    requires d0.Valid() && d.Valid() && Pair(undo) && i <= applied <= 2
  {
    && UndoneFrom(schedule, d0, undo, applied) == UndoneFrom(schedule, d, undo, i)
    && (UndoObeyed(schedule, d0, h, undo, applied) <==> honest && UndoObeyed(schedule, d, h, undo, i))
  }

  lemma UndoStarts(schedule: Schedule, d: DeviceState, h: seq<byte>, undo: seq<seq<byte>>, applied: nat)
    requires d.Valid() && Pair(undo) && applied <= 2
    ensures UndoStands(schedule, d, d, h, undo, applied, applied, true)
  {
  }

  lemma UndoStep(schedule: Schedule, d0: DeviceState, d: DeviceState, d1: DeviceState, ok: bool, h: seq<byte>,
                 undo: seq<seq<byte>>, applied: nat, i: nat, honest: bool, obeyed: bool)
    requires d0.Valid() && d.Valid() && d1.Valid() && Pair(undo) && i < applied <= 2
    requires UndoStands(schedule, d0, d, h, undo, applied, i + 1, honest)
    requires (ok, d1) == Undone(schedule, d, undo, i) && (ok ==> (obeyed <==> Follows(d, d1, h, undo, i)))
    ensures if ok then UndoStands(schedule, d0, d1, h, undo, applied, i, honest && obeyed)
            else UndoneFrom(schedule, d0, undo, applied) == (false, d1)
  {
    UndoOnce(schedule, d, undo, i + 1);
    ObeyedOnce(schedule, d, h, undo, i + 1);
    hide UndoneFrom, UndoObeyed, Undone, Verified, Follows, Obeyed, IsGeneral, IsUplink, RadioOf;
  }

  lemma UndoEnds(schedule: Schedule, d0: DeviceState, d: DeviceState, h: seq<byte>, undo: seq<seq<byte>>,
                 applied: nat, honest: bool)
    requires d0.Valid() && d.Valid() && Pair(undo) && applied <= 2
    requires UndoStands(schedule, d0, d, h, undo, applied, 0, honest)
    ensures UndoneFrom(schedule, d0, undo, applied) == (true, d)
    ensures UndoObeyed(schedule, d0, h, undo, applied) <==> honest
  {
    NothingLeft(schedule, d, h, undo);
    hide UndoneFrom, UndoObeyed;
  }

  lemma NothingUndone(r: Radio, h: seq<byte>, sent: seq<seq<byte>>, undo: seq<seq<byte>>)
    ensures AllUndone(r, h, First(undo, 0)) == r && Sent(sent, sent, Reversed(First(undo, 0)))
  {
    assert sent + [] == sent;
  }

  /** A rollback that reports no error has missed its result as soon as one write was not obeyed. */
  lemma {:induction false} UndoTracks(schedule: Schedule, h: seq<byte>, r0: Radio, d: DeviceState,
                                      undo: seq<seq<byte>>, applied: nat, i: nat, lied: bool)
    requires HeaderStart(h) && d.Valid() && Pair(undo) && i <= applied <= 2
    requires UndoneFrom(schedule, d, undo, i).0 && Tracks(h, r0, d.Radio(), undo, applied, i, lied)
    ensures Tracks(h, r0, UndoneFrom(schedule, d, undo, i).1.Radio(), undo, applied, 0,
                   lied || !UndoObeyed(schedule, d, h, undo, i))
    decreases i
  {
    hide IsGeneral, IsUplink, RadioOf, HeaderStart, Obeyed, Tracks, UndoneFrom, UndoObeyed, Verified;
    NothingLeft(schedule, d, h, undo);
    if i > 0 {
      var d1 := Undone(schedule, d, undo, i - 1).1;
      var lies := !Follows(d, d1, h, undo, i - 1);
      UndoOnce(schedule, d, undo, i);
      ObeyedOnce(schedule, d, h, undo, i);
      VerifiedKeepsOther(schedule, d, undo[i - 1]);
      TracksStep(h, r0, d.Radio(), d1.Radio(), undo, applied, i - 1, lied, lies);
      UndoTracks(schedule, h, r0, d1, undo, applied, i - 1, lied || lies);
    }
  }

  /** Where a rollback without an error ends. */
  lemma UndoneIff(schedule: Schedule, h: seq<byte>, d: DeviceState, undo: seq<seq<byte>>, applied: nat)
    requires HeaderStart(h) && d.Valid() && Pair(undo) && applied <= 2
    ensures var (ok, d1) := UndoneFrom(schedule, d, undo, applied);
            ok ==> (d1.Radio() == AllUndone(d.Radio(), h, First(undo, applied))
                    <==> UndoObeyed(schedule, d, h, undo, applied))
  {
    StartTracks(h, d.Radio(), undo, applied);
    hide UndoneFrom, UndoObeyed, IsGeneral, IsUplink, RadioOf, HeaderStart, Obeyed;
    if UndoneFrom(schedule, d, undo, applied).0 {
      UndoTracks(schedule, h, d.Radio(), d, undo, applied, applied, false);
      assert undo[..0] == [];
    }
  }

  lemma RolledBackIff(schedule: Schedule, h: seq<byte>, d: DeviceState, undo: seq<seq<byte>>, applied: nat)
    requires HeaderStart(h) && d.Valid() && Pair(undo) && applied <= 2
    ensures var (ok, d1) := RolledBack(schedule, d, undo, applied);
            && (applied == 0 ==> ok && d1 == d)
            && (ok ==> (d1.Radio() == AllUndone(d.Radio(), h, First(undo, applied))
                        <==> applied == 0 || UndoObeyed(schedule, d.Next(), h, undo, applied)))
  {
    hide UndoneFrom, UndoObeyed, AllUndone, First, IsGeneral, IsUplink, HeaderStart, RadioOf, Pair;
    NothingUndone(d.Radio(), h, [], undo);
    UndoneIff(schedule, h, d.Next(), undo, applied);
  }

  /** The first `i` undo bodies are still to be sent, the others have been. */
  ghost predicate SentSoFar(now: seq<seq<byte>>, before: seq<seq<byte>>, undo: seq<seq<byte>>, applied: nat, i: nat)
    requires i <= applied <= |undo|
  {
    now + Reversed(First(undo, i)) == before + Reversed(First(undo, applied))
  }

  lemma NothingSent(before: seq<seq<byte>>, undo: seq<seq<byte>>, applied: nat)
    requires applied <= |undo|
    ensures SentSoFar(before, before, undo, applied, applied)
  {
  }

  lemma OneMoreSent(now: seq<seq<byte>>, before: seq<seq<byte>>, undo: seq<seq<byte>>, applied: nat, i: nat)
    requires i < applied <= |undo| && SentSoFar(now, before, undo, applied, i + 1)
    ensures SentSoFar(now + [undo[i]], before, undo, applied, i)
  {
    assert undo[..i + 1][..i] == undo[..i];
    var rest := Reversed(First(undo, i));
    assert now + ([undo[i]] + rest) == now + [undo[i]] + rest;
  }

  lemma AllUndoneSent(now: seq<seq<byte>>, before: seq<seq<byte>>, undo: seq<seq<byte>>, applied: nat)
    requires applied <= |undo| && SentSoFar(now, before, undo, applied, 0)
    ensures Sent(now, before, Reversed(First(undo, applied)))
  {
    assert now + [] == now;
  }

  method UndoOne(device: RadioDevice, undo: seq<seq<byte>>, i: nat) returns (ok: bool)
    requires device.Valid() && Pair(undo) && i < 2
    modifies device
    ensures device.Valid() && device.sent == old(device.sent) + [undo[i]]
    ensures device.lies >= old(device.lies) && device.faults >= old(device.faults)
    ensures (ok, device.state) == Undone(device.schedule, old(device.state), undo, i)
    ensures ok ==> (device.lies == old(device.lies)
                    <==> Follows(old(device.state), device.state, device.header, undo, i))
    ensures device.faults == old(device.faults) ==> ok && device.lies == old(device.lies)
  {
    ghost var d, lies := device.state, device.lies;
    hide Verified, Undone, Follows, Obeyed, IsGeneral, IsUplink, RadioOf, HeaderStart;
    ok := WriteVerified(device, undo[i]);
    UndoneIs(device.schedule, d, device.state, ok, device.header, undo, i, device.lies == lies);
  }

  /** Writes the undo bodies of the recorded operations, last one first, and stops at the first
      failure. */
  method UndoAll(device: RadioDevice, undo: seq<seq<byte>>, applied: nat) returns (ok: bool)
    requires device.Valid() && Pair(undo) && applied <= 2
    modifies device
    ensures device.Valid()
    ensures device.lies >= old(device.lies) && device.faults >= old(device.faults)
    ensures (ok, device.state) == UndoneFrom(device.schedule, old(device.state), undo, applied)
    ensures ok ==> (device.lies == old(device.lies)
                    <==> UndoObeyed(device.schedule, old(device.state), device.header, undo, applied))
    ensures ok ==> Sent(device.sent, old(device.sent), Reversed(First(undo, applied)))
    ensures device.faults == old(device.faults) ==> ok && device.lies == old(device.lies)
  {
    var i := applied;
    assert |undo| == 2 && HeaderStart(device.header);
    hide *;
    NothingSent(device.sent, undo, applied);
    UndoStarts(device.schedule, device.state, device.header, undo, applied);
    while i > 0
      invariant 0 <= i <= applied && device.Valid()
      invariant UndoStands(device.schedule, old(device.state), device.state, device.header, undo, applied, i,
                           device.lies == old(device.lies))
      invariant device.lies >= old(device.lies) && device.faults >= old(device.faults)
      invariant SentSoFar(device.sent, old(device.sent), undo, applied, i)
      invariant device.faults == old(device.faults) ==> device.lies == old(device.lies)
    {
      ghost var d, lies, sent := device.state, device.lies, device.sent;
      i := i - 1;
      ok := UndoOne(device, undo, i);
      UndoStep(device.schedule, old(device.state), d, device.state, ok, device.header, undo, applied, i,
               lies == old(device.lies), device.lies == lies);
      if !ok {
        return false;
      }
      OneMoreSent(sent, old(device.sent), undo, applied, i);
    }
    AllUndoneSent(device.sent, old(device.sent), undo, applied);
    UndoEnds(device.schedule, old(device.state), device.state, device.header, undo, applied,
             device.lies == old(device.lies));
    return true;
  }

  /** The rollback: nothing to do if nothing was recorded. */
  method Rollback(device: RadioDevice, undo: seq<seq<byte>>, applied: nat) returns (ok: bool)
    requires device.Valid() && Pair(undo) && applied <= 2
    modifies device
    ensures device.Valid()
    ensures device.lies >= old(device.lies) && device.faults >= old(device.faults)
    ensures applied == 0 ==> ok
    ensures ok ==> (device.lies == old(device.lies) <==>
                    device.state.Radio() == AllUndone(old(device.state.Radio()), device.header, First(undo, applied)))
    ensures (ok, device.state) == RolledBack(device.schedule, old(device.state), undo, applied)
    ensures ok ==> (device.lies == old(device.lies) <==>
                    applied == 0 || UndoObeyed(device.schedule, old(device.state).Next(), device.header, undo, applied))
    ensures ok ==> Sent(device.sent, old(device.sent), Reversed(First(undo, applied)))
    ensures device.faults == old(device.faults) ==> ok && device.lies == old(device.lies)
  {
    hide IsGeneral, IsUplink, HeaderStart, Obeyed, UndoneFrom, UndoObeyed, AllUndone, First, Reversed, Sent, RadioOf,
         Pair;
    NothingUndone(device.state.Radio(), device.header, device.sent, undo);
    if applied == 0 {
      return true;
    }
    var open := device.Open();
    if !open {
      return false;
    }
    ghost var d := device.state;
    ok := UndoAll(device, undo, applied);
    if ok {
      UndoneIff(device.schedule, device.header, d, undo, applied);
    }
  }

  /** The two writes of the profile. */
  function Operations(): (operations: seq<seq<byte>>)
    ensures |operations| == 2 && Pair(operations)
  {
    [EUROPE_GENERAL_BODY, UplinkBody()]
  }

  lemma FourBytesAre(v: nat, a: byte, b: byte, c: byte, d: byte)
    requires v == a as int * 16777216 + b as int * 65536 + c as int * 256 + d as int
    ensures ToBytes(v, 4) == [a, b, c, d]
  {
    FourBytesIff(v, [a, b, c, d]);
    hide ToBytes;
  }

  lemma EuropeMask(f: seq<nat>)
    requires |f| == 8 && f[6] == f[7] == 0 && forall i :: 0 <= i < 6 ==> f[i] != 0
    ensures MaskSum(f, 8) == 0xFC
  {
    LowPowers();
    assert MaskSum(f, 1) == 128 && MaskSum(f, 2) == 192 && MaskSum(f, 3) == 224 && MaskSum(f, 4) == 240;
    assert MaskSum(f, 5) == 248 && MaskSum(f, 6) == 252 && MaskSum(f, 7) == 252;
  }

  lemma WordIs(body: seq<byte>, f: seq<nat>, i: nat, a: byte, b: byte, c: byte, d: byte)
    requires i < 8 && EncodeLoraChannels(0x85, f) == Success(body)
    requires f[i] == a as int * 16777216 + b as int * 65536 + c as int * 256 + d as int
    ensures |body| == 35 && body[3 + 4 * i..7 + 4 * i] == [a, b, c, d]
  {
    ChannelsOfWrite(0x85, f, i);
    hide EncodeLoraChannels;
    FourBytesAre(f[i], a, b, c, d);
  }

  lemma NinePieces(body: seq<byte>)
    requires |body| == 35
    ensures body == body[..3] + body[3..7] + body[7..11] + body[11..15] + body[15..19] + body[19..23] + body[23..27]
                    + body[27..31] + body[31..35]
  {
    assert body == body[..19] + body[19..];
    assert body[..19] == body[..3] + body[3..7] + body[7..11] + body[11..15] + body[15..19];
    assert body[19..] == body[19..23] + body[23..27] + body[27..31] + body[31..35];
  }

  lemma UplinkStart(f: seq<nat>, body: seq<byte>)
    requires |f| == 8 && f[6] == f[7] == 0 && forall i :: 0 <= i < 6 ==> f[i] != 0
    requires EncodeLoraChannels(0x85, f) == Success(body)
    ensures |body| == 35 && body[..3] == [0x85, 0x00, 0xfc]
  {
    EuropeMask(f);
    assert body == [0x85, 0x00, 0xfc] + Join4(f);
  }

  lemma UplinkWords(f: seq<nat>, body: seq<byte>)
    requires f == [868100000, 868300000, 868500000, 868850000, 869050000, 869525000, 0, 0]
    requires EncodeLoraChannels(0x85, f) == Success(body)
    ensures |body| == 35 && body[3..7] == [0x33, 0xbe, 0x27, 0xa0] && body[7..11] == [0x33, 0xc1, 0x34, 0xe0]
    ensures body[11..15] == [0x33, 0xc4, 0x42, 0x20] && body[15..19] == [0x33, 0xc9, 0x99, 0x50]
    ensures body[19..23] == [0x33, 0xcc, 0xa6, 0x90] && body[23..27] == [0x33, 0xd3, 0xe6, 0x08]
    ensures body[27..31] == [0, 0, 0, 0] && body[31..35] == [0, 0, 0, 0]
  {
    hide EncodeLoraChannels;
    WordIs(body, f, 0, 0x33, 0xbe, 0x27, 0xa0);
    WordIs(body, f, 1, 0x33, 0xc1, 0x34, 0xe0);
    WordIs(body, f, 2, 0x33, 0xc4, 0x42, 0x20);
    WordIs(body, f, 3, 0x33, 0xc9, 0x99, 0x50);
    WordIs(body, f, 4, 0x33, 0xcc, 0xa6, 0x90);
    WordIs(body, f, 5, 0x33, 0xd3, 0xe6, 0x08);
    WordIs(body, f, 6, 0, 0, 0, 0);
    WordIs(body, f, 7, 0, 0, 0, 0);
  }

  lemma UplinkBytes(f: seq<nat>, body: seq<byte>)
    requires f == [868100000, 868300000, 868500000, 868850000, 869050000, 869525000, 0, 0]
    requires EncodeLoraChannels(0x85, f) == Success(body)
    ensures body == [0x85, 0x00, 0xfc] + [0x33, 0xbe, 0x27, 0xa0] + [0x33, 0xc1, 0x34, 0xe0] + [0x33, 0xc4, 0x42, 0x20]
                    + [0x33, 0xc9, 0x99, 0x50] + [0x33, 0xcc, 0xa6, 0x90] + [0x33, 0xd3, 0xe6, 0x08]
                    + [0, 0, 0, 0] + [0, 0, 0, 0]
  {
    hide *;
    UplinkStart(f, body);
    UplinkWords(f, body);
    NinePieces(body);
  }

  /** The two writes of the profile, byte by byte. */
  lemma OperationsAre()
    ensures Operations() == [
              [0x84, 0x10, 0x7b, 0x0e, 0x0c, 0x3c, 0xcb, 0xf7, 0x00, 0x00, 0x00],
              [0x85, 0x00, 0xfc] + [0x33, 0xbe, 0x27, 0xa0] + [0x33, 0xc1, 0x34, 0xe0] + [0x33, 0xc4, 0x42, 0x20]
              + [0x33, 0xc9, 0x99, 0x50] + [0x33, 0xcc, 0xa6, 0x90] + [0x33, 0xd3, 0xe6, 0x08]
              + [0, 0, 0, 0] + [0, 0, 0, 0]]
  {
    UplinkBytes(EUROPE.uplink, UplinkBody());
    hide UplinkBody;
  }

  const ANY_HEADER: seq<byte> := [0x40, 0, 0, 0, 0]

  /** The two writes that repeat what a backup read. */
  function Undo(general: seq<byte>, channels: seq<byte>): (undo: seq<seq<byte>>)
    requires IsGeneral(general) && IsUplink(channels)
    ensures |undo| == 2 && Pair(undo)
  {
    hide LoraGeneralOf, LoraChannelsOf;
    GeneralIsRepeated(ANY_HEADER, RadioOf(general, channels), general);
    ChannelsAreRepeated(ANY_HEADER, RadioOf(general, channels), channels);
    [BackupBody(general).value, BackupBody(channels).value]
  }

  lemma UndoneIsOld(h: seq<byte>, r: Radio, general: seq<byte>, channels: seq<byte>, applied: nat)
    requires HeaderStart(h) && IsGeneral(general) && IsUplink(channels) && applied <= 2
    requires applied <= 1 ==> r.channels == RadioOf(general, channels).channels
    requires applied == 0 ==> r == RadioOf(general, channels)
    ensures AllUndone(r, h, First(Undo(general, channels), applied)) == RadioOf(general, channels)
  {
    var undo := Undo(general, channels);
    var r1 := Obeyed(r, h + undo[1]);
    ChannelsAreRepeated(h, r, channels);
    GeneralIsRepeated(h, r, general);
    GeneralIsRepeated(h, r1, general);
    hide Obeyed, LoraGeneralOf, LoraChannelsOf, BackupBody, HeaderStart, IsGeneral, IsUplink;
    assert undo[..1] == [undo[0]] && undo[..1][..0] == undo[..0] == [];
    if applied == 2 {
      assert undo[..2] == undo && undo[..2][..1] == undo[..1];
      hide Undo;
      assert AllUndone(r, h, undo) == AllUndone(r1, h, undo[..1]);
      assert AllUndone(r1, h, undo[..1]) == Obeyed(r1, h + undo[0]);
    }
  }

  lemma AllObeyedIsProfile(h: seq<byte>, r: Radio)
    requires HeaderStart(h)
    ensures Matches(AllObeyed(r, h, Operations()), EUROPE)
  {
    ProfileIsWritten(h, r);
    var operations := Operations();
    assert operations[..1] == [operations[0]] && operations[..1][..0] == operations[..0] == [];
    hide Obeyed, Matches, UplinkBody;
  }

  /** The writes, the second backup and the comparison. */
  function TriedRun(schedule: Schedule, d: DeviceState): (r: (bool, nat, DeviceState))
    requires d.Valid()
    ensures r.2.Valid() && r.1 <= 2
  {
    hide IsGeneral, IsUplink;
    var (ok, applied, d1) := AllWritten(schedule, d, Operations());
    if !ok then (false, applied, d1)
    else (schedule(d1.step).ok && Matches(d1.Radio(), EUROPE) && d1.gateway == d.gateway, applied, d1.Next())
  }

  /** The same, and the rollback if it comes to that. */
  function TransactionRun(schedule: Schedule, d: DeviceState, nodeId: int, productCode: byte)
    : (r: (Outcome, DeviceState))
    requires d.Valid()
    ensures r.1.Valid()
  {
    hide IsGeneral, IsUplink;
    var (ok, applied, d1) := TriedRun(schedule, d);
    if ok then (Applied(BackupOf(d1, nodeId, productCode)), d1)
    else
      var (undone, d2) := RolledBack(schedule, d1, Undo(d.general, d.channels), applied);
      (Failed(!undone), d2)
  }

  function ProfileRun(schedule: Schedule, d: DeviceState, nodeId: int, productCode: byte,
                      profileName: string, confirmation: Confirmation, writesEnabled: bool): (Outcome, DeviceState)
    requires d.Valid()
  {
    if profileName != "EUROPE" || !writesEnabled then (Refused, d)
    else if !schedule(d.step).ok || confirmation != Confirmation(nodeId, profileName) || productCode != 0x4E then
      (Refused, d.Next())
    else if Matches(d.Radio(), EUROPE) then (AlreadyConfigured, d.Next())
    else TransactionRun(schedule, d.Next(), nodeId, productCode)
  }

  /** Only the recorded operations can have touched the radio. */
  lemma UnrecordedIsOld(schedule: Schedule, d: DeviceState, operations: seq<seq<byte>>)
    requires d.Valid() && Pair(operations)
    ensures var (ok, applied, d1) := AllWritten(schedule, d, operations); KeptSoFar(d.Radio(), d1.Radio(), applied)
  {
    var d0 := d.Next();
    assert d0.Radio() == d.Radio();
    FirstWritten(schedule, d0, operations);
    hide IsGeneral, IsUplink, RadioOf, WrittenFrom;
  }

  lemma TriedKeepsUnrecorded(schedule: Schedule, d: DeviceState)
    requires d.Valid()
    ensures var (ok, applied, d1) := TriedRun(schedule, d); KeptSoFar(d.Radio(), d1.Radio(), applied)
  {
    UnrecordedIsOld(schedule, d, Operations());
    hide AllWritten, Operations, IsGeneral, IsUplink, RadioOf, Matches, KeptSoFar;
  }

  /** What the rollback of a run sends, the device obeys. */
  ghost predicate RollbackObeyed(schedule: Schedule, d: DeviceState, h: seq<byte>)
    requires d.Valid()
  {
    var (_, applied, d1) := TriedRun(schedule, d);
    applied == 0 || UndoObeyed(schedule, d1.Next(), h, Undo(d.general, d.channels), applied)
  }

  /** A failed transaction that reports no rollback error leaves the old radio if and only if every
      write of its rollback was obeyed, whatever became of the writes before. */
  lemma FailedIsOldIff(schedule: Schedule, d: DeviceState, nodeId: int, productCode: byte, h: seq<byte>)
    requires d.Valid() && HeaderStart(h)
    ensures var (r, d2) := TransactionRun(schedule, d, nodeId, productCode);
            r == Failed(false) ==> (d2.Radio() == d.Radio() <==> RollbackObeyed(schedule, d, h))
  {
    var (ok, applied, d1) := TriedRun(schedule, d);
    var undo := Undo(d.general, d.channels);
    TriedKeepsUnrecorded(schedule, d);
    UndoneIsOld(h, d1.Radio(), d.general, d.channels, applied);
    RolledBackIff(schedule, h, d1, undo, applied);
    hide TriedRun, RolledBack, UndoObeyed, AllUndone, Undo, Pair, First, IsGeneral, IsUplink, HeaderStart, RadioOf;
  }

  /** The same for the whole operation, whose first step is the backup. */
  lemma FailedProfileIsOldIff(schedule: Schedule, d: DeviceState, nodeId: int, productCode: byte, h: seq<byte>,
                              profileName: string, confirmation: Confirmation, writesEnabled: bool)
    requires d.Valid() && HeaderStart(h)
    ensures var (r, d2) := ProfileRun(schedule, d, nodeId, productCode, profileName, confirmation, writesEnabled);
            r == Failed(false) ==> (d2.Radio() == d.Radio() <==> RollbackObeyed(schedule, d.Next(), h))
  {
    FailedIsOldIff(schedule, d.Next(), nodeId, productCode, h);
    hide TransactionRun, RollbackObeyed, IsGeneral, IsUplink, HeaderStart, RadioOf, Matches;
  }

  ghost predicate Permitted(device: RadioDevice, profileName: string, confirmation: Confirmation, writesEnabled: bool) {
    && profileName == "EUROPE" && writesEnabled
    && confirmation == Confirmation(device.nodeId, profileName) && device.productCode == 0x4E
  }

  /** The body of the try block. */
  method TryProfile(device: RadioDevice, before: RadioBackup) returns (after: Option<RadioBackup>, applied: nat)
    requires device.Valid() && before.gateway == device.state.gateway
    modifies device
    ensures device.Valid() && applied <= 2
    ensures (after.Some?, applied, device.state) == TriedRun(device.schedule, old(device.state))
    ensures after.Some? ==> after.value == BackupOf(device.state, device.nodeId, device.productCode) && applied == 2
    ensures after.Some? ==> OnEurope(device.state.Radio()) && device.state.gateway == old(device.state.gateway)
    ensures Sent(device.sent, old(device.sent), First(Operations(), applied))
    ensures applied == 0 ==> device.state.Radio() == old(device.state.Radio())
    ensures applied == 1 ==> device.state.Radio().channels == old(device.state.Radio()).channels
    ensures device.faults >= old(device.faults) && (device.faults == old(device.faults) ==> after.Some?)
  {
    hide IsGeneral, IsUplink, HeaderStart, Matches, AllWritten, Operations, AllObeyed, Pair, First, Sent, Obeyed,
         EUROPE, RadioOf, OnEurope;
    AllObeyedIsProfile(device.header, device.state.Radio());
    var ok, n := WriteAll(device, Operations());
    if !ok {
      return None, n;
    }
    after := device.Backup();
    if after.Some? && Matches(RadioOf(after.value.generalBody, after.value.channelsBody), EUROPE)
       && after.value.gateway == before.gateway {
      MatchesIff(device.state.Radio());
      return after, n;
    }
    return None, n;
  }

  /** What a failed run without a rollback error has sent: the recorded operations, and the undo
      body of each of them, last one first. */
  ghost predicate SentAndUndone(now: seq<seq<byte>>, before: seq<seq<byte>>, schedule: Schedule, d: DeviceState)
    requires d.Valid()
  {
    var applied := TriedRun(schedule, d).1;
    Sent(now, before, First(Operations(), applied) + Reversed(First(Undo(d.general, d.channels), applied)))
  }

  /** The part of the profile change that writes: the profile, or both radio parts put back. */
  method Transact(device: RadioDevice, before: RadioBackup) returns (r: Outcome)
    requires device.Valid() && before == BackupOf(device.state, device.nodeId, device.productCode)
    modifies device
    ensures device.Valid() && (r.Applied? || r.Failed?)
    ensures (r, device.state) == TransactionRun(device.schedule, old(device.state), device.nodeId, device.productCode)
    ensures r.Applied? ==> OnEurope(device.state.Radio()) && device.state.gateway == old(device.state.gateway)
                           && Sent(device.sent, old(device.sent), Operations())
    ensures r == Failed(false) ==>
              SentAndUndone(device.sent, old(device.sent), device.schedule, old(device.state))
    ensures device.faults >= old(device.faults) && (device.faults == old(device.faults) ==> !r.Failed?)
  {
    ghost var sent0 := device.sent;
    hide IsGeneral, IsUplink, HeaderStart, Matches, TriedRun, RolledBack, Operations, Undo, AllUndone, Reversed, Pair,
         OnEurope, First, Sent, EUROPE;
    var undo := Undo(before.generalBody, before.channelsBody);
    var after, applied := TryProfile(device, before);
    ghost var sent1 := device.sent;
    if after.Some? {
      AllSent(sent1, sent0, Operations());
      return Applied(after.value);
    }
    var undone := Rollback(device, undo, applied);
    if undone {
      SentTwice(device.sent, sent1, sent0, First(Operations(), applied), Reversed(First(undo, applied)));
    }
    return Failed(!undone);
  }

  /** Applies the profile, or puts both radio parts back. */
  method ApplyRegionalProfile(device: RadioDevice, profileName: string, confirmation: Confirmation, writesEnabled: bool)
    returns (r: Outcome)
    requires device.Valid()
    modifies device
    ensures device.Valid()
    // the outcome and the device are those of the run under its schedule
    ensures (r, device.state) == ProfileRun(device.schedule, old(device.state), device.nodeId, device.productCode,
                                            profileName, confirmation, writesEnabled)
    // nothing is written unless it is permitted and needed
    ensures r.Refused? || r.AlreadyConfigured? ==>
              device.state.Radio() == old(device.state.Radio()) && device.state.gateway == old(device.state.gateway)
              && device.sent == old(device.sent)
    ensures r.Refused? ==>
              !Permitted(device, profileName, confirmation, writesEnabled) || device.faults > old(device.faults)
    ensures !r.Refused? ==> Permitted(device, profileName, confirmation, writesEnabled)
                            && (r.AlreadyConfigured? <==> OnEurope(old(device.state.Radio())))
    // applied: the radio has the profile and the gateway fields are the old ones
    ensures r.Applied? ==> OnEurope(device.state.Radio()) && device.state.gateway == old(device.state.gateway)
                           && Sent(device.sent, old(device.sent), Operations())
    // failed and rolled back: the radio is the old one, whatever became of the writes, if and only
    // if the device obeyed every write of the rollback
    ensures r == Failed(false) ==>
              (device.state.Radio() == old(device.state.Radio())
               <==> RollbackObeyed(device.schedule, old(device.state).Next(), device.header))
    ensures r == Failed(false) ==>
              SentAndUndone(device.sent, old(device.sent), device.schedule, old(device.state).Next())
    // a device that makes no mistake ends up with the profile
    ensures device.faults == old(device.faults) ==> !r.Failed?
  {
    hide IsGeneral, IsUplink, HeaderStart, Matches, TransactionRun, RollbackObeyed, SentAndUndone, RadioOf, Sent,
         EUROPE, Operations, OnEurope, AllObeyed, First, Reversed, Undo, TriedRun;
    MatchesIff(device.state.Radio());
    FailedProfileIsOldIff(device.schedule, device.state, device.nodeId, device.productCode, device.header,
                          profileName, confirmation, writesEnabled);
    if profileName != "EUROPE" || !writesEnabled {
      return Refused;
    }
    var before := device.Backup();
    if before.None? || confirmation != Confirmation(before.value.nodeId, profileName)
       || before.value.productCode != 0x4E {
      return Refused;
    }
    if Matches(RadioOf(before.value.generalBody, before.value.channelsBody), EUROPE) {
      return AlreadyConfigured;
    }
    hide *;
    r := Transact(device, before.value);
  }

  // ---------------------------------------------------------------- a rollback that is not obeyed

  const NO_GATEWAY := Gateway(Null, Null, Null, Null)

  const OLD_GENERAL_BODY: seq<byte> := [0x84, 0, 0, 0, 0, 0, 0, 0, 0, 0, 0]

  /** The first write is obeyed but cannot be read back; the write that should undo it is
      acknowledged and ignored. */
  function Ignoring(i: nat): Fate {
    Fate(i != 3, if i == 2 then ANY_HEADER + EUROPE_GENERAL_BODY else [], NO_GATEWAY)
  }

  lemma OldRadioIsOff(p: seq<byte>)
    requires p == OLD_GENERAL_BODY[1..]
    ensures |p| == 10 && !LoraRadioAt(p, 0).radio
  {
    assert |p| == 10 && p[1] == 0;
    LowPowers();
    hide Slice, Pow2;
    PartOfByte(p, 1, 1, 1);
  }

  lemma OldGeneral()
    ensures IsGeneral(ANY_HEADER + OLD_GENERAL_BODY)
    ensures !LoraGeneralOf(ANY_HEADER + OLD_GENERAL_BODY).value.radio.radio
  {
    OldRadioIsOff(OLD_GENERAL_BODY[1..]);
    ResponseOf(ANY_HEADER, OLD_GENERAL_BODY, {0x84}, 80);
    hide Checked, LoraRadioAt, LoraRx2At;
  }

  lemma Uplink()
    ensures IsUplink(ANY_HEADER + UplinkBody())
  {
    LoraChannelsAgree(ANY_HEADER, 0x85, EUROPE.uplink);
    hide EncodeLoraChannels, LoraChannelsOf;
  }

  /** What the transaction makes of a device that ignores the undo. */
  lemma IgnoredUndo(d: DeviceState)
    requires d.Valid() && d.step == 1 && d.gateway == NO_GATEWAY && IsGeneral(ANY_HEADER + EUROPE_GENERAL_BODY)
    ensures TransactionRun(Ignoring, d, 1, 0x4E)
            == (Failed(false), d.(general := ANY_HEADER + EUROPE_GENERAL_BODY, step := 7))
  {
    assert !IsGeneral([]) && !IsUplink([]);
    var operations, undo := Operations(), Undo(d.general, d.channels);
    var answer := ANY_HEADER + EUROPE_GENERAL_BODY;
    hide IsGeneral, IsUplink, Operations, Undo, EUROPE_GENERAL_BODY, ANY_HEADER;
    var d1 := d.(general := answer, step := 4);
    var written := Verified(Ignoring, d.Next(), operations[0]);
    assert written == (false, d1);
    assert AllWritten(Ignoring, d, operations) == (false, 1, d1);
    var undone := Verified(Ignoring, d1.Next(), undo[0]);
    assert undone == (true, d1.(step := 7));
    UndoOnce(Ignoring, d1.Next(), undo, 1);
    assert RolledBack(Ignoring, d1, undo, 1) == (true, d1.(step := 7));
    hide AllWritten, RolledBack, Verified;
  }

  const OLD_STATE := DeviceState(ANY_HEADER + OLD_GENERAL_BODY, ANY_HEADER + UplinkBody(), NO_GATEWAY, 0)

  const LEFT_STATE := DeviceState(ANY_HEADER + EUROPE_GENERAL_BODY, ANY_HEADER + UplinkBody(), NO_GATEWAY, 7)

  lemma OldState()
    ensures OLD_STATE.Valid() && OLD_STATE.step == 0
    ensures OLD_STATE.Next().Valid() && OLD_STATE.Next().step == 1 && OLD_STATE.Next().gateway == NO_GATEWAY
    ensures !OLD_STATE.Radio().general.radio.radio && !Matches(OLD_STATE.Radio(), EUROPE)
  {
    OldGeneral();
    Uplink();
    hide IsUplink, UplinkBody, OLD_GENERAL_BODY, ANY_HEADER, LoraGeneralOf, LoraChannelsOf;
  }

  lemma LeftState()
    ensures LEFT_STATE.Valid() && LEFT_STATE.Radio().general.radio.radio
    ensures LEFT_STATE == OLD_STATE.Next().(general := ANY_HEADER + EUROPE_GENERAL_BODY, step := 7)
    ensures IsGeneral(ANY_HEADER + EUROPE_GENERAL_BODY)
  {
    GeneralTakesEurope(ANY_HEADER);
    Uplink();
    hide IsUplink, UplinkBody, EUROPE_GENERAL_BODY, OLD_GENERAL_BODY, ANY_HEADER, LoraGeneralOf, LoraChannelsOf;
  }

  ghost predicate RollbackIgnored(schedule: Schedule, d: DeviceState) {
    && d.Valid()
    && var (r, d') := ProfileRun(schedule, d, 1, 0x4E, "EUROPE", Confirmation(1, "EUROPE"), true);
       r == Failed(false) && d'.Valid() && d'.Radio() != d.Radio()
  }

  lemma IgnoredRun(d: DeviceState, d': DeviceState)
    requires d.Valid() && d'.Valid() && d.step == 0 && d.Next().Valid() && !Matches(d.Radio(), EUROPE)
    requires TransactionRun(Ignoring, d.Next(), 1, 0x4E) == (Failed(false), d')
    requires !d.Radio().general.radio.radio && d'.Radio().general.radio.radio
    ensures RollbackIgnored(Ignoring, d)
  {
    hide Matches, TransactionRun, IsGeneral, IsUplink, RadioOf;
  }

  /** So the condition can fail: the profile change fails, its rollback reports no error, and the
      radio is not the old one. */
  lemma RollbackCanBeIgnored()
    ensures exists schedule: Schedule, d: DeviceState :: RollbackIgnored(schedule, d)
  {
    hide *;
    OldState();
    LeftState();
    IgnoredUndo(OLD_STATE.Next());
    IgnoredRun(OLD_STATE, LEFT_STATE);
  }
}
