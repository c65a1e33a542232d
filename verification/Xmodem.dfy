/** The XMODEM/CRC sender (tools/firmware_service.py) against a standard receiver: Forsberg's
    XMODEM/YMODEM Protocol Reference, chapters 7 and 8. */
module Xmodem {
  import opened Common
  import opened BitNumbers
  import opened Crc
  import opened Messages

  const SOH: byte := 0x01
  const EOT: byte := 0x04
  const ACK: byte := 0x06
  const NAK: byte := 0x15
  const CAN: byte := 0x18
  const PAD: byte := 0xFF

  // ---------------------------------------------------------------- packets and blocks

  function Packet(number: byte, data: seq<byte>, crc: nat): (packet: seq<byte>)
    ensures |packet| == |data| + 5
  {
    [SOH, number, 0xFF - number] + data + ToBytes(crc, 2)
  }

  function Padding(n: nat): seq<byte> {
    seq(n, _ => PAD)
  }

  /** The first 128 bytes, filled up with 0xFF. */
  function FirstBlock(payload: seq<byte>): (block: seq<byte>)
    ensures |block| == 128
  {
    var n := Min(128, |payload|);
    payload[..n] + Padding(128 - n)
  }

  function Blocks(payload: seq<byte>): seq<seq<byte>>
    decreases |payload|
  {
    if payload == [] then [] else [FirstBlock(payload)] + Blocks(payload[Min(128, |payload|)..])
  }

  function Concat(blocks: seq<seq<byte>>): seq<byte> {
    if blocks == [] then [] else blocks[0] + Concat(blocks[1..])
  }

  /** Bytes missing from the last block. */
  function Missing(payload: seq<byte>): nat {
    (128 - |payload| % 128) % 128
  }

  lemma OneBlockLess(n: nat)
    requires n >= 128
    ensures (n + 127) / 128 == 1 + (n - 128 + 127) / 128
    ensures (128 - n % 128) % 128 == (128 - (n - 128) % 128) % 128
  {
  }

  /** The blocks are the payload and fewer than 128 bytes of 0xFF. */
  lemma {:induction false} BlocksArePaddedPayload(payload: seq<byte>)
    ensures |Blocks(payload)| == (|payload| + 127) / 128 && Missing(payload) < 128
    ensures Concat(Blocks(payload)) == payload + seq(Missing(payload), _ => 0xFF)
    decreases |payload|
  {
    if payload == [] {
      assert [] + Padding(0) == [];
    } else if |payload| < 128 {
      assert payload[Min(128, |payload|)..] == [];
      assert Blocks(payload) == [FirstBlock(payload)];
      assert FirstBlock(payload) + [] == payload + Padding(128 - |payload|);
    } else {
      var rest := payload[128..];
      BlocksArePaddedPayload(rest);
      OneBlockLess(|payload|);
      assert FirstBlock(payload) == payload[..128];
      hide FirstBlock, Missing;
      assert Blocks(payload)[1..] == Blocks(rest);
      hide Blocks;
      assert payload[..128] + (rest + Padding(Missing(rest))) == payload + Padding(Missing(payload));
    }
  }

  // ---------------------------------------------------------------- the receiver

  datatype Receiver = Receiver(expected: byte, stored: seq<seq<byte>>, finished: bool, cancelled: bool)

  const NEW_RECEIVER := Receiver(1, [], false, false)

  predicate WellFormed(packet: seq<byte>) {
    |packet| == 133 && packet[0] == SOH && packet[1] as int + packet[2] as int == 0xFF && Crc16(packet[3..]) == 0
  }

  /** What the receiver becomes and answers. */
  function Receive(r: Receiver, packet: seq<byte>): (Receiver, byte) {
    if r.cancelled then (r, CAN)
    else if packet == [EOT] then (r.(finished := true), ACK)
    else if !WellFormed(packet) then (r, NAK)
    else if packet[1] == r.expected then
      (r.(expected := (r.expected + 1) % 256, stored := r.stored + [packet[3..131]]), ACK)
    else if r.stored != [] && (packet[1] as int + 1) % 256 == r.expected then (r, ACK)
    else (r.(cancelled := true), CAN)
  }

  // ---------------------------------------------------------------- the link

  datatype ReplyFate = Arrives | Vanishes | Garbled(value: byte)

  /** What happens to one write: the packet may be cut short, lost, or damaged into bytes the
      receiver refuses; the reply may be lost or garbled into anything but an ACK. */
  datatype Fate = CutShort | Lost | Damaged(seen: seq<byte>, reply: ReplyFate) | Delivered(reply: ReplyFate)

  function ReplyOf(answer: byte, fate: ReplyFate): seq<byte> {
    match fate
    case Arrives => [answer]
    case Vanishes => []
    case Garbled(b) => if b == ACK then [] else [b]
  }

  /** The receiver after a write, and the bytes on their way back. */
  function Transmit(r: Receiver, packet: seq<byte>, fate: Fate): (Receiver, seq<byte>) {
    match fate
    case CutShort => (r, [])
    case Lost => (r, [])
    case Damaged(seen, reply) =>
      if WellFormed(seen) || seen == [EOT] || r.cancelled then (r, []) else (r, ReplyOf(NAK, reply))
    case Delivered(reply) => var (r', answer) := Receive(r, packet); (r', ReplyOf(answer, reply))
  }

  class Link {
    /** The fate of every write, in order. */
    const schedule: nat -> Fate
    var writes: nat
    var receiver: Receiver
    var incoming: seq<byte>
    /** All that has been written. */
    ghost var wire: seq<seq<byte>>

    constructor (schedule: nat -> Fate)
      ensures this.schedule == schedule && writes == 0 && receiver == NEW_RECEIVER && incoming == [] && wire == []
    {
      this.schedule := schedule;
      writes, receiver, incoming, wire := 0, NEW_RECEIVER, [], [];
    }

    method Write(packet: seq<byte>) returns (written: nat)
      modifies this
      ensures writes == old(writes) + 1 && wire == old(wire) + [packet]
      ensures written == if schedule(old(writes)).CutShort? then 0 else |packet|
      ensures receiver == Transmit(old(receiver), packet, schedule(old(writes))).0
      ensures incoming == old(incoming) + Transmit(old(receiver), packet, schedule(old(writes))).1
    {
      var fate := schedule(writes);
      var (r, reply) := Transmit(receiver, packet, fate);
      receiver, incoming := r, incoming + reply;
      writes, wire := writes + 1, wire + [packet];
      written := if fate.CutShort? then 0 else |packet|;
    }

    method Read() returns (chunk: seq<byte>)
      modifies `incoming
      ensures chunk == old(incoming) && incoming == []
    {
      chunk := incoming;
      incoming := [];
    }
  }

  /** The buffering reader.  A deadline is a number of polls. */
  class RawReader {
    const connection: Link
    var buffer: seq<byte>
    var transcript: seq<byte>

    constructor (connection: Link)
      ensures this.connection == connection && buffer == [] && transcript == []
    {
      this.connection := connection;
      buffer, transcript := [], [];
    }

    /** Takes the oldest byte that has arrived, if there is time: one poll for a byte of the buffer,
        another one to fill it.  Bytes are delivered once and in order, also to later calls, and the
        transcript keeps all of them. */
    method NextByte(polls: nat) returns (value: Option<byte>)
      modifies this, connection`incoming
      ensures var all := old(buffer) + old(connection.incoming);
              if all != [] && (polls >= 2 || (polls == 1 && old(buffer) != [])) then
                value == Some(all[0]) && buffer + connection.incoming == all[1..]
              else value == None && buffer + connection.incoming == all
      ensures transcript + connection.incoming == old(transcript) + old(connection.incoming)
    {
      var left := polls;
      while left > 0
        invariant left == polls || (buffer != [] && connection.incoming == [])
                  || (buffer == [] && connection.incoming == [] && old(buffer) == [] && old(connection.incoming) == [])
        invariant buffer + connection.incoming == old(buffer) + old(connection.incoming)
        invariant if left == polls then buffer == old(buffer) else old(buffer) == []
        invariant transcript + connection.incoming == old(transcript) + old(connection.incoming)
        invariant left < polls - 1 ==> buffer == [] && old(buffer) == [] && old(connection.incoming) == []
        decreases left
      {
        left := left - 1;
        if buffer != [] {
          value := Some(buffer[0]);
          buffer := buffer[1..];
          return;
        }
        var chunk := connection.Read();
        if chunk != [] {
          buffer := buffer + chunk;
          transcript := transcript + chunk;
        }
      }
      return None;
    }
  }

  // ---------------------------------------------------------------- the sender

  datatype FirmwareError = ShortWrite | Cancelled | BlockNotAcknowledged | EotNotAcknowledged

  datatype Report = Report(blocks: nat, bytes: nat, retries: nat, eotAttempts: nat)

  /** The receiver waits for block `number`, holding `stored`. */
  predicate Waiting(r: Receiver, number: byte, stored: seq<seq<byte>>) {
    r == Receiver(number, stored, false, false)
  }

  lemma GoodPacket(number: byte, data: seq<byte>)
    requires |data| == 128
    ensures var p := Packet(number, data, Crc16(data));
            WellFormed(p) && p[1] == number && p[3..131] == data
  {
    ResidueIffCrc(data, ToBytes(Crc16(data), 2));
    hide Crc16, ToBytes;
    assert Packet(number, data, Crc16(data))[3..] == data + ToBytes(Crc16(data), 2);
  }

  lemma ProbePacket(number: byte, data: seq<byte>)
    requires |data| == 128
    ensures !WellFormed(Packet(number, data, (Crc16(data) + 1) % 0x10000))
  {
    OffByOneNeverVerifies(data);
    hide Crc16, ToBytes;
    var crc := (Crc16(data) + 1) % 0x10000;
    assert Packet(number, data, crc)[3..] == data + ToBytes(crc, 2);
  }

  /** A cancel reaches the sender: line noise in place of a reply. */
  predicate CancelSeen(fate: Fate) {
    || fate == Delivered(Garbled(0x18))
    || (fate.Damaged? && fate.reply == Garbled(0x18) && !WellFormed(fate.seen) && fate.seen != [0x04])
  }

  /** One write of block `number`, as a probe or not: the receiver either still waits for it or
      has it, once; and only a receiver that has it lets an ACK through. */
  lemma OneAttempt(r: Receiver, number: byte, data: seq<byte>, before: seq<seq<byte>>, probe: bool, fate: Fate)
    requires |data| == 128
    requires Waiting(r, number, before) || Waiting(r, (number + 1) % 256, before + [data])
    ensures var crc := if probe then (Crc16(data) + 1) % 0x10000 else Crc16(data);
            var (r', reply) := Transmit(r, Packet(number, data, crc), fate);
            && |reply| <= 1
            && (Waiting(r', number, before) || Waiting(r', (number + 1) % 256, before + [data]))
            && (reply == [0x06] ==> Waiting(r', (number + 1) % 256, before + [data]))
            && (reply == [0x06] <==> !probe && fate == Delivered(Arrives))
            && (reply == [0x18] <==> CancelSeen(fate))
            && (probe && fate == Delivered(Arrives) ==> reply == [0x15])
  {
    GoodPacket(number, data);
    ProbePacket(number, data);
    hide WellFormed, Packet, Crc16;
  }

  /** A packet that is not the last of its block. */
  predicate Passed(fate: Fate, probe: bool) {
    !fate.CutShort? && !CancelSeen(fate) && (probe || fate != Delivered(Arrives))
  }

  /** The packets of a block that starts with write `w`, of which the first `probes` are probes, or
      all if `probes` is negative: packet `a` is the first one that is no probe and is delivered
      and acknowledged, and no packet before it is cut short or answered by a cancel. */
  ghost predicate Accepted(schedule: nat -> Fate, w: nat, probes: int, a: nat) {
    && 0 <= probes <= a <= 10 && schedule(w + a) == Delivered(Arrives)
    && forall i: nat :: w <= i < w + a ==> Passed(schedule(i), i - w < probes)
  }

  /** The end mark is acknowledged at its `n`th write, and none before it is cut short. */
  ghost predicate EndSeen(schedule: nat -> Fate, w: nat, n: nat) {
    && 1 <= n <= 10 && schedule(w + n - 1) == Delivered(Arrives)
    && forall i: nat :: w <= i < w + n - 1 ==> !schedule(i).CutShort? && schedule(i) != Delivered(Arrives)
  }

  /** Every block is accepted within its eleven writes, one after the other, and then the end mark
      within its ten. */
  ghost predicate Delivers(schedule: nat -> Fate, w: nat, blocks: nat, probes: int)
    decreases blocks
  {
    if blocks == 0 then exists n: nat :: EndSeen(schedule, w, n)
    else exists a: nat :: Accepted(schedule, w, probes, a) && Delivers(schedule, w + a + 1, blocks - 1, 0)
  }

  /** Attempt `i` at a block, as bytes: start mark, number, its complement, 128 bytes of data, and the
      CRC, high byte first; a probe has a CRC that is off by one. */
  function OnWire(number: byte, data: seq<byte>, probes: int, i: nat): seq<byte> {
    var crc := if probes < 0 || i < probes then (Crc16(data) + 1) % 0x10000 else Crc16(data);
    [0x01, number, 255 - number] + data + [crc / 256, crc % 256]
  }

  lemma PacketIsOnWire(number: byte, data: seq<byte>, probes: int, i: nat)
    ensures var crc := if probes < 0 || i < probes then (Crc16(data) + 1) % 0x10000 else Crc16(data);
            Packet(number, data, crc) == OnWire(number, data, probes, i)
  {
    TwoBytesOf(if probes < 0 || i < probes then (Crc16(data) + 1) % 0x10000 else Crc16(data));
    hide Crc16, ToBytes;
  }

  /** From position `from` on, `wire` holds the attempts at a block. */
  ghost predicate Attempts(wire: seq<seq<byte>>, from: nat, number: byte, data: seq<byte>, probes: int) {
    && from <= |wire|
    && forall i: nat :: i < |wire| - from ==> wire[from + i] == OnWire(number, data, probes, i)
  }

  /** A whole transfer, as it goes over the wire: the attempts at every block, up to the first one that
      is accepted, then the end marks, up to the first one that is acknowledged.  `retries` counts
      the attempts that were not accepted. */
  ghost predicate Transfer(schedule: nat -> Fate, w: nat, wire: seq<seq<byte>>, blocks: seq<seq<byte>>, number: byte,
                           probes: int, retries: nat, eotAttempts: nat)
    decreases |blocks|
  {
    if blocks == [] then
      retries == 0 && EndSeen(schedule, w, eotAttempts) && wire == seq(eotAttempts, _ => [0x04])
    else
      exists a: nat ::
        && Accepted(schedule, w, probes, a) && a <= retries && a < |wire|
        && Attempts(wire[..a + 1], 0, number, blocks[0], probes)
        && Transfer(schedule, w + a + 1, wire[a + 1..], blocks[1..], (number + 1) % 256, 0, retries - a, eotAttempts)
  }

  /** Whatever completes the transfer of `left` from here completes that of `blocks` from the start. */
  ghost predicate Leads(schedule: nat -> Fate, w0: nat, done: seq<seq<byte>>, blocks: seq<seq<byte>>, probes0: int,
                        w: nat, left: seq<seq<byte>>, number: byte, probes: int, retries: nat) {
    forall wire: seq<seq<byte>>, more: nat, eot: nat ::
      Transfer(schedule, w, wire, left, number, probes, more, eot) ==>
        Transfer(schedule, w0, done + wire, blocks, 1, probes0, retries + more, eot)
  }

  lemma LeadsStart(schedule: nat -> Fate, w: nat, blocks: seq<seq<byte>>, probes: int)
    ensures Leads(schedule, w, [], blocks, probes, w, blocks, 1, probes, 0)
  {
    hide Transfer;
    forall wire: seq<seq<byte>>, more: nat, eot: nat | Transfer(schedule, w, wire, blocks, 1, probes, more, eot)
      ensures Transfer(schedule, w, [] + wire, blocks, 1, probes, 0 + more, eot)
    {
      assert [] + wire == wire;
    }
  }

  lemma TransferStep(schedule: nat -> Fate, w: nat, sent: seq<seq<byte>>, wire: seq<seq<byte>>, blocks: seq<seq<byte>>,
                     number: byte, probes: int, a: nat, more: nat, eot: nat)
    requires blocks != [] && Accepted(schedule, w, probes, a) && |sent| == a + 1
    requires Attempts(sent, 0, number, blocks[0], probes)
    requires Transfer(schedule, w + a + 1, wire, blocks[1..], (number + 1) % 256, 0, more, eot)
    ensures Transfer(schedule, w, sent + wire, blocks, number, probes, a + more, eot)
  {
    hide Accepted, Attempts;
    assert (sent + wire)[..a + 1] == sent && (sent + wire)[a + 1..] == wire;
  }

  lemma LeadsStep(schedule: nat -> Fate, w0: nat, done: seq<seq<byte>>, blocks: seq<seq<byte>>, probes0: int, w: nat,
                  left: seq<seq<byte>>, number: byte, probes: int, retries: nat, sent: seq<seq<byte>>, a: nat)
    requires Leads(schedule, w0, done, blocks, probes0, w, left, number, probes, retries) && left != []
    requires Accepted(schedule, w, probes, a) && |sent| == a + 1 && Attempts(sent, 0, number, left[0], probes)
    ensures Leads(schedule, w0, done + sent, blocks, probes0, w + a + 1, left[1..], (number + 1) % 256, 0, retries + a)
  {
    hide Transfer, Accepted, Attempts;
    var w1, next: byte, rest := w + a + 1, (number + 1) % 256, left[1..];
    forall wire: seq<seq<byte>>, more: nat, eot: nat | Transfer(schedule, w1, wire, rest, next, 0, more, eot)
      ensures Transfer(schedule, w0, done + sent + wire, blocks, 1, probes0, retries + a + more, eot)
    {
      TransferStep(schedule, w, sent, wire, left, number, probes, a, more, eot);
      assert done + sent + wire == done + (sent + wire);
    }
  }

  lemma LeadsEnd(schedule: nat -> Fate, w0: nat, done: seq<seq<byte>>, blocks: seq<seq<byte>>, probes0: int, w: nat,
                 number: byte, probes: int, retries: nat, eot: nat)
    requires Leads(schedule, w0, done, blocks, probes0, w, [], number, probes, retries) && EndSeen(schedule, w, eot)
    ensures Transfer(schedule, w0, done + seq(eot, _ => [0x04]), blocks, 1, probes0, retries, eot)
  {
    assert Transfer(schedule, w, seq(eot, _ => [0x04]), [], number, probes, 0, eot);
    hide Transfer;
  }

  lemma DeliversStep(schedule: nat -> Fate, w: nat, blocks: nat, probes: int, a: nat)
    requires blocks > 0 && forall b: nat :: Accepted(schedule, w, probes, b) <==> b == a
    ensures Delivers(schedule, w, blocks, probes) <==> Delivers(schedule, w + a + 1, blocks - 1, 0)
  {
    hide Accepted;
    assert Accepted(schedule, w, probes, a);
  }

  lemma NeverDelivers(schedule: nat -> Fate, w: nat, blocks: nat, probes: int)
    requires blocks > 0 && forall b: nat :: !Accepted(schedule, w, probes, b)
    ensures !Delivers(schedule, w, blocks, probes)
  {
    hide Accepted;
  }

  lemma EndDelivers(schedule: nat -> Fate, w: nat, probes: int)
    ensures Delivers(schedule, w, 0, probes) <==> exists n: nat :: EndSeen(schedule, w, n)
  {
  }

  /** Both at once: what is left can be delivered exactly if the whole can, and completes it. */
  ghost predicate OnTheWay(schedule: nat -> Fate, w0: nat, done: seq<seq<byte>>, blocks: seq<seq<byte>>, probes0: int,
                           w: nat, left: seq<seq<byte>>, number: byte, probes: int, retries: nat) {
    && Leads(schedule, w0, done, blocks, probes0, w, left, number, probes, retries)
    && (Delivers(schedule, w0, |blocks|, probes0) <==> Delivers(schedule, w, |left|, probes))
  }

  lemma OnTheWayStart(schedule: nat -> Fate, w: nat, blocks: seq<seq<byte>>, probes: int)
    ensures OnTheWay(schedule, w, [], blocks, probes, w, blocks, 1, probes, 0)
  {
    LeadsStart(schedule, w, blocks, probes);
    hide Leads, Delivers;
  }

  lemma OneBlockOn(schedule: nat -> Fate, w0: nat, done: seq<seq<byte>>, blocks: seq<seq<byte>>, probes0: int, w: nat,
                   left: seq<seq<byte>>, number: byte, probes: int, retries: nat, sent: seq<seq<byte>>, a: nat)
    requires OnTheWay(schedule, w0, done, blocks, probes0, w, left, number, probes, retries) && left != []
    requires forall b: nat :: Accepted(schedule, w, probes, b) <==> b == a
    requires |sent| == a + 1 && Attempts(sent, 0, number, left[0], probes)
    ensures OnTheWay(schedule, w0, done + sent, blocks, probes0, w + a + 1, left[1..], (number + 1) % 256, 0,
                     retries + a)
  {
    hide Leads, Delivers, Accepted, Attempts;
    assert Accepted(schedule, w, probes, a);
    LeadsStep(schedule, w0, done, blocks, probes0, w, left, number, probes, retries, sent, a);
    DeliversStep(schedule, w, |left|, probes, a);
  }

  lemma NeverOnTheWay(schedule: nat -> Fate, w0: nat, done: seq<seq<byte>>, blocks: seq<seq<byte>>, probes0: int,
                      w: nat, left: seq<seq<byte>>, number: byte, probes: int, retries: nat)
    requires OnTheWay(schedule, w0, done, blocks, probes0, w, left, number, probes, retries) && left != []
    requires forall b: nat :: !Accepted(schedule, w, probes, b)
    ensures !Delivers(schedule, w0, |blocks|, probes0)
  {
    hide Leads, Delivers, Accepted;
    NeverDelivers(schedule, w, |left|, probes);
  }

  lemma OnTheWayEnd(schedule: nat -> Fate, w0: nat, done: seq<seq<byte>>, blocks: seq<seq<byte>>, probes0: int, w: nat,
                    number: byte, probes: int, retries: nat)
    requires OnTheWay(schedule, w0, done, blocks, probes0, w, [], number, probes, retries)
    ensures Leads(schedule, w0, done, blocks, probes0, w, [], number, probes, retries)
    ensures Delivers(schedule, w0, |blocks|, probes0) <==> exists n: nat :: EndSeen(schedule, w, n)
  {
    hide Leads, EndSeen;
    EndDelivers(schedule, w, probes);
  }

  predicate Lossless(schedule: nat -> Fate, from: nat, to: nat) {
    forall i :: from <= i < to ==> schedule(i) == Delivered(Arrives)
  }

  /** The most writes a transfer can take. */
  function WriteLimit(payload: seq<byte>): nat {
    11 * |Blocks(payload)| + 10
  }

  lemma NextBlock(payload: seq<byte>, offset: nat, before: seq<seq<byte>>)
    requires offset < |payload| && Blocks(payload) == before + Blocks(payload[offset..])
    ensures Blocks(payload) == before + [FirstBlock(payload[offset..])]
                               + Blocks(payload[Min(offset + 128, |payload|)..])
    ensures |before| < |Blocks(payload)|
    ensures before <= Blocks(payload) && before + [FirstBlock(payload[offset..])] <= Blocks(payload)
  {
    var rest := payload[offset..];
    assert rest[Min(128, |rest|)..] == payload[Min(offset + 128, |payload|)..];
    hide FirstBlock;
    assert before + ([FirstBlock(rest)] + Blocks(rest[Min(128, |rest|)..]))
           == before + [FirstBlock(rest)] + Blocks(rest[Min(128, |rest|)..]);
  }

  lemma LastBlock(payload: seq<byte>, offset: nat, before: seq<seq<byte>>)
    requires offset == |payload| && Blocks(payload) == before + Blocks(payload[offset..])
    ensures Blocks(payload) == before
  {
    assert payload[offset..] == [] && before + [] == before;
  }

  lemma LosslessAccepted(schedule: nat -> Fate, w: nat, probes: int, a: nat)
    requires Lossless(schedule, w, w + 11)
    ensures Accepted(schedule, w, probes, a) <==> 0 <= probes <= 10 && a == probes
  {
    assert 0 <= probes <= 10 ==> schedule(w + probes) == Delivered(Arrives) && !Passed(schedule(w + probes), false);
  }

  lemma LosslessEnd(schedule: nat -> Fate, w: nat, n: nat)
    requires Lossless(schedule, w, w + 10)
    ensures EndSeen(schedule, w, n) <==> n == 1
  {
    assert schedule(w) == Delivered(Arrives);
  }

  /** On a perfect link everything is accepted as soon as it is no probe. */
  lemma {:induction false} LosslessDelivers(schedule: nat -> Fate, w: nat, blocks: nat, probes: int)
    ensures Lossless(schedule, w, w + 11 * blocks + 10) ==>
              (Delivers(schedule, w, blocks, probes) <==> blocks == 0 || 0 <= probes <= 10)
    decreases blocks
  {
    if Lossless(schedule, w, w + 11 * blocks + 10) {
      if blocks == 0 {
        LosslessEnd(schedule, w, 1);
      } else {
        forall a: nat ensures Accepted(schedule, w, probes, a) <==> 0 <= probes <= 10 && a == probes {
          LosslessAccepted(schedule, w, probes, a);
        }
        hide Accepted, EndSeen;
        if 0 <= probes <= 10 {
          DeliversStep(schedule, w, blocks, probes, probes);
          LosslessDelivers(schedule, w + probes + 1, blocks - 1, 0);
        } else {
          NeverDelivers(schedule, w, blocks, probes);
        }
      }
    }
  }

  lemma FirstAccepted(schedule: nat -> Fate, w: nat, wire: seq<seq<byte>>, blocks: seq<seq<byte>>, number: byte,
                      probes: int, retries: nat, eot: nat) returns (a: nat)
    requires Transfer(schedule, w, wire, blocks, number, probes, retries, eot) && blocks != []
    ensures Accepted(schedule, w, probes, a) && a <= retries && a < |wire|
    ensures Transfer(schedule, w + a + 1, wire[a + 1..], blocks[1..], (number + 1) % 256, 0, retries - a, eot)
  {
    hide Accepted, Attempts;
    a :| && Accepted(schedule, w, probes, a) && a <= retries && a < |wire|
         && Attempts(wire[..a + 1], 0, number, blocks[0], probes)
         && Transfer(schedule, w + a + 1, wire[a + 1..], blocks[1..], (number + 1) % 256, 0, retries - a, eot);
  }

  lemma {:induction false} LosslessTransfer(schedule: nat -> Fate, w: nat, wire: seq<seq<byte>>, blocks: seq<seq<byte>>,
                                            number: byte, probes: int, retries: nat, eot: nat)
    requires Transfer(schedule, w, wire, blocks, number, probes, retries, eot)
    ensures Lossless(schedule, w, w + 11 * |blocks| + 10) ==> eot == 1 && retries == if blocks == [] then 0 else probes
    decreases |blocks|
  {
    if Lossless(schedule, w, w + 11 * |blocks| + 10) {
      if blocks == [] {
        LosslessEnd(schedule, w, eot);
      } else {
        var a := FirstAccepted(schedule, w, wire, blocks, number, probes, retries, eot);
        hide Transfer, Accepted;
        LosslessAccepted(schedule, w, probes, a);
        LosslessTransfer(schedule, w + a + 1, wire[a + 1..], blocks[1..], (number + 1) % 256, 0, retries - a, eot);
      }
    }
  }

  /** No byte is on its way or waiting to be taken. */
  ghost predicate Quiet(link: Link, reader: RawReader)
    reads link, reader
  {
    reader.connection == link && link.incoming == [] && reader.buffer == []
  }

  lemma NoAttempts(wire: seq<seq<byte>>, number: byte, data: seq<byte>, probes: int)
    ensures Attempts(wire, |wire|, number, data, probes)
  {
  }

  lemma OneMoreAttempt(wire: seq<seq<byte>>, from: nat, number: byte, data: seq<byte>, probes: int, packet: seq<byte>)
    requires Attempts(wire, from, number, data, probes) && packet == OnWire(number, data, probes, |wire| - from)
    ensures Attempts(wire + [packet], from, number, data, probes)
  {
    hide OnWire;
  }

  /** Sends one block up to eleven times.  The first packets are probes, as long as `probes` is
      not zero; each probe costs a retry. */
  method SendBlock(link: Link, reader: RawReader, number: byte, data: seq<byte>, probes: int, polls: nat)
    returns (r: Result<nat, FirmwareError>, probesLeft: int)
    requires Quiet(link, reader) && polls >= 2 && |data| == 128
    requires Waiting(link.receiver, number, link.receiver.stored)
    modifies link, reader
    ensures r.Success? ==> Quiet(link, reader)
                           && Waiting(link.receiver, (number + 1) % 256, old(link.receiver.stored) + [data])
                           && link.writes == old(link.writes) + 1 + r.value
                           && probesLeft == 0 && 0 <= probes <= r.value <= 10
    ensures forall a: nat :: r == Success(a) <==> Accepted(link.schedule, old(link.writes), probes, a)
    ensures r.Failure? ==> link.writes <= old(link.writes) + 11
    // an error tells what became of the last packet
    ensures r.Failure? ==> link.writes > old(link.writes) && !r.error.EotNotAcknowledged?
    ensures r.Failure? ==> (r.error.ShortWrite? <==> link.schedule(link.writes - 1).CutShort?)
                           && (r.error.Cancelled? <==> CancelSeen(link.schedule(link.writes - 1)))
                           && (r.error.BlockNotAcknowledged? ==> link.writes == old(link.writes) + 11)
    ensures old(link.wire) <= link.wire
    ensures |link.wire| - |old(link.wire)| == link.writes - old(link.writes)
    ensures Attempts(link.wire, |old(link.wire)|, number, data, probes)
    ensures link.receiver.stored == old(link.receiver.stored)
            || link.receiver.stored == old(link.receiver.stored) + [data]
    ensures Lossless(link.schedule, old(link.writes), old(link.writes) + 11) ==>
              (r.Success? <==> 0 <= probes <= 10) && (r.Success? ==> r.value == probes)
  {
    hide Transmit, Crc16, Packet, OnWire, Attempts;
    ghost var before, w0 := link.receiver.stored, link.writes;
    NoAttempts(link.wire, number, data, probes);
    probesLeft := probes;
    for attempt := 0 to 11
      invariant Quiet(link, reader) && link.writes == w0 + attempt
      invariant old(link.wire) <= link.wire && |link.wire| == |old(link.wire)| + attempt
      invariant Attempts(link.wire, |old(link.wire)|, number, data, probes)
      invariant Waiting(link.receiver, number, before) || Waiting(link.receiver, (number + 1) % 256, before + [data])
      invariant forall i: nat :: w0 <= i < w0 + attempt ==>
                  Passed(link.schedule(i), probes < 0 || i - w0 < probes)
      invariant probesLeft == if 0 <= probes <= attempt then 0 else probes - attempt
      invariant Lossless(link.schedule, w0, w0 + 11) ==> probes < 0 || attempt <= probes
    {
      var crc := Crc16(data);
      if probesLeft != 0 {
        crc := (crc + 1) % 0x10000;
        probesLeft := probesLeft - 1;
      }
      OneAttempt(link.receiver, number, data, before, probes < 0 || attempt < probes, link.schedule(link.writes));
      var packet := Packet(number, data, crc);
      PacketIsOnWire(number, data, probes, attempt);
      OneMoreAttempt(link.wire, |old(link.wire)|, number, data, probes, packet);
      var written := link.Write(packet);
      if written != |packet| {
        return Failure(ShortWrite), probesLeft;
      }
      var response := reader.NextByte(polls);
      if response == Some(ACK) {
        return Success(attempt), probesLeft;
      }
      if response == Some(CAN) {
        return Failure(Cancelled), probesLeft;
      }
    }
    return Failure(BlockNotAcknowledged), probesLeft;
  }

  /** Sends the end mark up to ten times. */
  method SendEnd(link: Link, reader: RawReader, polls: nat) returns (r: Result<nat, FirmwareError>)
    requires Quiet(link, reader) && polls >= 2 && !link.receiver.cancelled
    modifies link, reader
    ensures link.receiver.stored == old(link.receiver.stored)
    ensures r.Success? ==> link.receiver.finished && 1 <= r.value <= 10 && link.writes == old(link.writes) + r.value
    ensures forall n: nat :: r == Success(n) <==> EndSeen(link.schedule, old(link.writes), n)
    ensures link.writes >= old(link.writes)
    ensures link.wire == old(link.wire) + seq(link.writes - old(link.writes), _ => [0x04])
    ensures r.Failure? ==> link.writes <= old(link.writes) + 10
    ensures r.Failure? ==> r.error.ShortWrite? || r.error.EotNotAcknowledged?
    ensures r.Failure? ==> link.writes > old(link.writes)
                           && (r.error.ShortWrite? <==> link.schedule(link.writes - 1).CutShort?)
                           && (r.error.EotNotAcknowledged? ==> link.writes == old(link.writes) + 10)
    ensures Lossless(link.schedule, old(link.writes), old(link.writes) + 10) ==> r == Success(1)
  {
    hide WellFormed;
    for attempt := 0 to 10
      invariant Quiet(link, reader) && !link.receiver.cancelled && link.writes == old(link.writes) + attempt
      invariant link.wire == old(link.wire) + seq(attempt, _ => [0x04])
      invariant link.receiver.stored == old(link.receiver.stored)
      invariant forall i: nat :: old(link.writes) <= i < link.writes ==>
                  !link.schedule(i).CutShort? && link.schedule(i) != Delivered(Arrives)
      invariant Lossless(link.schedule, old(link.writes), old(link.writes) + 10) ==> attempt == 0
    {
      var written := link.Write([EOT]);
      if written != 1 {
        return Failure(ShortWrite);
      }
      var response := reader.NextByte(polls);
      if response == Some(ACK) {
        return Success(attempt + 1);
      }
    }
    return Failure(EotNotAcknowledged);
  }

  lemma AttemptsFrom(wire: seq<seq<byte>>, before: seq<seq<byte>>, packets: seq<seq<byte>>, number: byte,
                     data: seq<byte>, probes: int)
    requires before <= wire && packets == wire[|before|..] && Attempts(wire, |before|, number, data, probes)
    ensures Attempts(packets, 0, number, data, probes) && wire == before + packets
  {
    hide OnWire;
  }

  lemma FirstOfBlocks(payload: seq<byte>, offset: nat)
    requires offset < |payload|
    ensures var left := Blocks(payload[offset..]);
            left != [] && left[0] == FirstBlock(payload[offset..])
            && left[1..] == Blocks(payload[Min(offset + 128, |payload|)..])
  {
    var rest := payload[offset..];
    assert rest[Min(128, |rest|)..] == payload[Min(offset + 128, |payload|)..];
    hide FirstBlock;
  }

  lemma NoBlocks(payload: seq<byte>, offset: nat)
    requires offset == |payload|
    ensures Blocks(payload[offset..]) == []
  {
  }

  /** Sends the payload in blocks, each up to eleven times, then the end mark, up to ten times.
      The first `probeRetries` packets carry a wrong CRC; probing ends at zero, so a negative
      number never ends it. */
  method SendXmodem(link: Link, reader: RawReader, payload: seq<byte>, probeRetries: int, polls: nat)
    returns (r: Result<Report, FirmwareError>)
    requires Quiet(link, reader) && link.receiver == NEW_RECEIVER && polls >= 2
    modifies link, reader
    // delivery: exactly the blocks of the payload, each once and in order
    ensures r.Success? ==> link.receiver.stored == Blocks(payload) && link.receiver.finished
    ensures r.Failure? ==> link.receiver.stored <= Blocks(payload)
    // the report adds up
    ensures r.Success? ==> r.value.blocks == |Blocks(payload)| && r.value.bytes == |payload|
                           && link.writes - old(link.writes) == r.value.blocks + r.value.retries + r.value.eotAttempts
    ensures link.writes - old(link.writes) <= WriteLimit(payload)
    // no probe is accepted, so a block survives at most ten
    ensures r.Success? && payload != [] ==> 0 <= probeRetries <= 10 && r.value.retries >= probeRetries
    // retries and end marks are exactly those of the schedule, and what went over the wire is the
    // transfer it makes them
    ensures r.Success? ==> old(link.wire) <= link.wire
                           && Transfer(link.schedule, old(link.writes), link.wire[|old(link.wire)|..], Blocks(payload),
                                       1, probeRetries, r.value.retries, r.value.eotAttempts)
    // it succeeds exactly when the link lets every block and the end mark through in time
    ensures r.Success? <==> Delivers(link.schedule, old(link.writes), |Blocks(payload)|, probeRetries)
    // an error tells what became of the last write, and a missing acknowledgement at the end leaves
    // the whole payload with the receiver
    ensures r.Failure? ==> link.writes > old(link.writes)
                           && (r.error.ShortWrite? <==> link.schedule(link.writes - 1).CutShort?)
                           && (r.error.Cancelled? ==> CancelSeen(link.schedule(link.writes - 1)))
                           && (r.error.EotNotAcknowledged? ==> link.receiver.stored == Blocks(payload))
    // and a perfect link needs nothing else
    ensures Lossless(link.schedule, old(link.writes), old(link.writes) + WriteLimit(payload)) ==>
              && (r.Success? <==> payload == [] || 0 <= probeRetries <= 10)
              && (r.Success? ==> r.value.eotAttempts == 1
                                 && r.value.retries == if payload == [] then 0 else probeRetries)
  {
    hide Crc16, Packet, FirstBlock, Receive, Blocks, Lossless, Concat, Accepted, Delivers, Transfer, Leads, Attempts,
         EndSeen, OnTheWay, CancelSeen;
    var blockNumber: byte := 1;
    var retries: nat, bytesSent, probes := 0, 0, probeRetries;
    var totalBlocks := (|payload| + 127) / 128;
    BlocksArePaddedPayload(payload);
    var offset := 0;
    assert payload[0..] == payload && [] + Blocks(payload) == Blocks(payload);
    ghost var k, w0, sofar := 0, link.writes, [];
    LosslessDelivers(link.schedule, w0, |Blocks(payload)|, probeRetries);
    OnTheWayStart(link.schedule, w0, Blocks(payload), probeRetries);
    while offset < |payload|
      invariant offset == Min(128 * k, |payload|) && bytesSent == offset && k <= |Blocks(payload)|
      invariant Quiet(link, reader) && link.wire == old(link.wire) + sofar
      invariant OnTheWay(link.schedule, w0, sofar, Blocks(payload), probeRetries, link.writes,
                         Blocks(payload[offset..]), blockNumber, probes, retries)
      invariant Waiting(link.receiver, blockNumber, link.receiver.stored) && |link.receiver.stored| == k
      invariant Blocks(payload) == link.receiver.stored + Blocks(payload[offset..])
      invariant link.writes == w0 + k + retries && retries <= 10 * k
      invariant k == 0 ==> probes == probeRetries && retries == 0
      invariant k > 0 ==> probes == 0 && 0 <= probeRetries <= 10 && retries >= probeRetries
      decreases |payload| - offset
    {
      NextBlock(payload, offset, link.receiver.stored);
      ghost var w1, wire1, left1 := link.writes, link.wire, Blocks(payload[offset..]);
      var sent, left := SendBlock(link, reader, blockNumber, FirstBlock(payload[offset..]), probes, polls);
      if sent.Failure? {
        NeverOnTheWay(link.schedule, w0, sofar, Blocks(payload), probeRetries, w1, left1, blockNumber, probes, retries);
        return Failure(sent.error);
      }
      ghost var packets := link.wire[|wire1|..];
      FirstOfBlocks(payload, offset);
      AttemptsFrom(link.wire, wire1, packets, blockNumber, FirstBlock(payload[offset..]), probes);
      OneBlockOn(link.schedule, w0, sofar, Blocks(payload), probeRetries, w1, left1, blockNumber, probes, retries,
                 packets, sent.value);
      sofar := sofar + packets;
      retries, probes := retries + sent.value, left;
      bytesSent := bytesSent + Min(128, |payload| - offset);
      blockNumber := (blockNumber + 1) % 256;
      offset := Min(offset + 128, |payload|);
      k := k + 1;
    }
    LastBlock(payload, offset, link.receiver.stored);
    ghost var w2 := link.writes;
    NoBlocks(payload, offset);
    OnTheWayEnd(link.schedule, w0, sofar, Blocks(payload), probeRetries, w2, blockNumber, probes, retries);
    var attempts :- SendEnd(link, reader, polls);
    LeadsEnd(link.schedule, w0, sofar, Blocks(payload), probeRetries, w2, blockNumber, probes, retries, attempts);
    assert link.wire[|old(link.wire)|..] == sofar + seq(attempts, _ => [0x04]);
    LosslessTransfer(link.schedule, w0, sofar + seq(attempts, _ => [0x04]), Blocks(payload), 1, probeRetries, retries,
                     attempts);
    return Success(Report(totalBlocks, bytesSent, retries, attempts));
  }
}
