/** The host side of the DFU and recovery protocols: framed control and bulk transfers under deadlines. */
module RecoveryTransport {
  import opened Bytes
  import opened Crc32
  import Descriptors
  import opened DfuSchedule
  import opened UsbBridge

  const MAX_FRAME: nat := MAX_RECOVERY + 6
  const MAX_DFU: nat := 64 * 1024 * 1024
  const BLOCK: nat := 2048

  /** What an exception says about the transfer: the guest's answer was complete but refused, or it was cut short. */
  datatype Kind = Timeout | Value | Protocol | Stall

  datatype Answer<+T> = Done(value: T) | Failed(kind: Kind, error: string)

  /** How long the host waits before it asks again. */
  function PollDelay(poll: nat): nat { Min(if poll < 1 then 1 else poll, 250) }

  /** A wait that ended well: no error anywhere, waiting states on the way, the target at the end. */
  predicate Settled(records: seq<Status>, target: nat, waiting: set<nat>) {
    && records != []
    && (forall i | 0 <= i < |records| :: records[i].status == 0)
    && (forall i | 0 <= i < |records| - 1 :: records[i].state in waiting)
    && records[|records| - 1].state == target
  }

  /** The records are the answers the device gave to polls since then; one more may not have been seen. */
  predicate Recorded(before: seq<Status>, records: seq<Status>, after: seq<Status>) {
    before + records <= after && |after| <= |before| + |records| + 1
  }

  /** One acknowledged block and the polls that followed it. */
  datatype BlockReport = BlockReport(number: nat, size: nat, statuses: seq<Status>)

  datatype DfuReport = DfuReport(
    bytesSent: nat, imageBytesSent: nat, blocks: seq<BlockReport>, manifest: seq<Status>,
    initial: Option<nat>, final: Option<nat>,
    complete: bool, resetAcknowledged: bool, intact: bool)

  const EMPTY_REPORT := DfuReport(0, 0, [], [], None, None, false, false, false)

  /** A command text iBoot is sent: one to 255 printable ASCII characters. */
  predicate Printable(text: string) {
    0 < |text| < 256 && forall i | 0 <= i < |text| :: 32 as char <= text[i] <= 126 as char
  }

  /** The same, by the codes of the characters. */
  lemma PrintableMeans(text: string)
    ensures Printable(text) <==> 1 <= |text| <= 255 && forall c | c in text :: 0x20 <= c as int <= 0x7E
  {
    assert forall i | 0 <= i < |text| :: text[i] in text;
  }

  /** The bytes of a command, ended by a zero byte. */
  function Encoded(text: string): Buffer {
    if Printable(text) then seq(|text|, i requires 0 <= i < |text| => text[i] as int) + [0] else []
  }

  const DEVICE_DESCRIPTOR := Request(0x80, 6, 0x100, 0, 18)

  function ConfigurationDescriptor(length: nat): Request { Request(0x80, 6, 0x200, 0, length) }

  /** The vendor is Apple and the product one of the recovery devices. */
  predicate RecoveryDevice(descriptor: Buffer) {
    && |descriptor| == 18 && descriptor[..2] == [0x12, 1] && descriptor[8..10] == [0xAC, 5]
    && 0x1280 <= FromLE(descriptor[10..12]) <= 0x1283
  }

  /**
   * A device descriptor by its fields (section 9.6.1 of the USB 2.0 specification): what stands before
   * the identity of the vendor, that and the product's, and the rest. The wanted vendor is 0x05AC, the
   * wanted products are the four from 0x1280 on.
   */
  lemma RecoveryDeviceMeans(front: Buffer, vendor: nat, product: nat, rest: Buffer)
    requires |front| == 6 && vendor < 0x1_0000 && product < 0x1_0000 && |rest| == 6
    ensures RecoveryDevice([18, 1] + front + ToLE(vendor, 2) + ToLE(product, 2) + rest)
            <==> vendor == 0x05AC && product in {0x1280, 0x1281, 0x1282, 0x1283}
  {
    hide ToLE, FromLE, Pow256;
    var d := [18, 1] + front + ToLE(vendor, 2) + ToLE(product, 2) + rest;
    Pow256Values();
    FromLEToLE(vendor, 2);
    FromLEToLE(product, 2);
    TwoBytes(vendor);
    assert d[..2] == [0x12, 1] && d[8..10] == ToLE(vendor, 2) && d[10..12] == ToLE(product, 2);
  }

  lemma TwoBytes(n: nat)
    requires n < 0x1_0000
    ensures ToLE(n, 2) == [n % 256, n / 256]
  {
    assert ToLE(n / 256, 1) == [n / 256] + ToLE(0, 0);
  }

  /** The device has described itself as a recovery device with this configuration. */
  ghost predicate Introduces(before: seq<Described>, after: seq<Described>, configuration: Buffer) {
    && |configuration| >= 9
    && exists device | RecoveryDevice(device) ::
         after == before + [Described(DEVICE_DESCRIPTOR, device),
                            Described(ConfigurationDescriptor(9), configuration[..9]),
                            Described(ConfigurationDescriptor(|configuration|), configuration)]
  }

  function Wire(image: Buffer): Buffer { image + DfuSuffix(image) }

  /** The polls of all blocks, in order. */
  function Polled(blocks: seq<BlockReport>): seq<Status> {
    if blocks == [] then [] else Polled(blocks[..|blocks| - 1]) + blocks[|blocks| - 1].statuses
  }

  /** Every block is reported under its number with its size, and was polled until the device was idle again. */
  predicate Reported(blocks: seq<BlockReport>, taken: seq<Block>) {
    && |blocks| == |taken|
    && forall i | 0 <= i < |blocks| ::
         && blocks[i].number == taken[i].number && blocks[i].size == |taken[i].data|
         && Settled(blocks[i].statuses, DNLOAD_IDLE, {DNLOAD_SYNC, DNLOAD_BUSY})
  }

  /** What a report of completion says about the upload of this wire image. */
  predicate Completed(report: DfuReport, image: Buffer, wire: Buffer) {
    var plan := Downloads(wire, BLOCK);
    && report.bytesSent == |wire| && report.imageBytesSent == |image|
    && report.initial == Some(DFU_IDLE) && report.final == Some(WAIT_RESET)
    && |report.blocks| + 1 == |plan| && Reported(report.blocks, plan[..|report.blocks|])
    && Settled(report.manifest, WAIT_RESET, {MANIFEST_SYNC, MANIFEST})
  }

  /** After `log`, the rest of the file with this block number comes to the whole. */
  predicate Ahead(log: seq<Block>, rest: Buffer, number: nat, size: nat, whole: seq<Block>)
    requires size > 0
  {
    log + Schedule(rest, number, size) == whole
  }

  lemma AheadOnce(log: seq<Block>, rest: Buffer, number: nat, size: nat, whole: seq<Block>)
    requires size > 0 && Ahead(log, rest, number, size, whole)
    ensures log <= whole
    ensures rest == [] ==> whole == log + [Block(number, [])]
    ensures rest != [] ==>
              var cut := Min(size, |rest|);
              var next := log + [Block(number, rest[..cut])];
              next <= whole && Ahead(next, rest[cut..], number + 1, size, whole)
  {
    if rest != [] {
      var cut := Min(size, |rest|);
      var block, tail := [Block(number, rest[..cut])], Schedule(rest[cut..], number + 1, size);
      assert log + (block + tail) == (log + block) + tail;
    }
  }

  class Host {
    const bridge: Bridge
    /** Both in milliseconds. */
    const timeout: int
    var deadline: int

    constructor (bridge: Bridge, timeout: int)
      ensures this.bridge == bridge && this.timeout == timeout
    {
      this.bridge, this.timeout, this.deadline := bridge, timeout, 0;
    }

    /** No byte of an earlier answer is left to be read. */
    predicate Ready()
      reads this, bridge
    {
      bridge.closed || bridge.incoming == []
    }

    /** However the bytes are cut up on the way, exactly the next `count` of them are taken. */
    method ReadExact(count: nat) returns (r: Answer<Buffer>)
      modifies bridge`incoming, bridge`clock, bridge`closed
      ensures old(bridge.clock) <= bridge.clock && (old(bridge.closed) ==> bridge.closed)
      ensures r.Done? ==> |r.value| == count && r.value + bridge.incoming == old(bridge.incoming)
      ensures r.Failed? ==> r.kind == Timeout || (r.kind == Protocol && bridge.closed)
    {
      var data: Buffer := [];
      while |data| < count
        invariant |data| <= count && data + bridge.incoming == old(bridge.incoming)
        invariant old(bridge.clock) <= bridge.clock && (old(bridge.closed) ==> bridge.closed)
        decreases count - |data|
      {
        var now := bridge.Now();
        if deadline - now <= 0 {
          return Failed(Timeout, "Recovery socket deadline exceeded");
        }
        label before:
        var chunk := bridge.Recv(count - |data|);
        if chunk.None? {
          return Failed(Timeout, "timed out");
        }
        if chunk.value == [] {
          return Failed(Protocol, "Recovery socket closed mid-frame");
        }
        assert data + old@before(bridge.incoming) == (data + chunk.value) + bridge.incoming;
        data := data + chunk.value;
      }
      r := Done(data);
    }

    /** The next frame, and no byte more. */
    method ReceiveFrame() returns (r: Answer<Packet>)
      modifies bridge`incoming, bridge`clock, bridge`closed
      ensures old(bridge.clock) <= bridge.clock && (old(bridge.closed) ==> bridge.closed)
      ensures r.Done? ==>
                |r.value.data| + 2 <= MAX_FRAME && GuestFrame(r.value) + bridge.incoming == old(bridge.incoming)
      ensures r.Failed? && r.kind != Timeout ==>
                && r.kind == Protocol
                && (bridge.closed || |old(bridge.incoming)| < 4
                    || !(2 <= FromLE(old(bridge.incoming)[..4]) <= MAX_FRAME))
    {
      hide FromLE, ToLE;
      var head := ReadExact(4);
      if head.Failed? {
        return Failed(head.kind, head.error);
      }
      assert old(bridge.incoming)[..4] == head.value;
      var size := FromLE(head.value);
      if size < 2 || size > MAX_FRAME {
        return Failed(Protocol, "Invalid recovery frame length");
      }
      var frame := ReadExact(size);
      if frame.Failed? {
        return Failed(frame.kind, frame.error);
      }
      r := Done(Packet(frame.value[0], frame.value[1], frame.value[2..]));
      ToLEFromLE(head.value);
      assert frame.value == [r.value.kind, r.value.endpoint] + r.value.data;
      assert GuestFrame(r.value) == head.value + frame.value;
    }

    /** The guest's frame, if it is of the expected kind and endpoint. */
    method Receive(kind: Byte, endpoint: Byte, ghost reply: Packet) returns (r: Answer<Buffer>)
      requires bridge.incoming == GuestFrame(reply) && |reply.data| <= 0xFFFF
      modifies bridge`incoming, bridge`clock, bridge`closed
      ensures old(bridge.clock) <= bridge.clock
      ensures r.Done? ==> Ready() && reply == Packet(kind, endpoint, r.value)
      ensures r.Failed? && r.kind != Timeout ==> Ready()
      ensures r.Failed? ==> r.kind in {Timeout, Protocol, Stall}
      ensures r.Failed? && r.kind == Stall ==> reply == Packet(2, endpoint, [])
      ensures r.Failed? && r.kind == Protocol && !bridge.closed ==>
                reply != Packet(2, endpoint, []) && (reply.kind != kind || reply.endpoint != endpoint)
    {
      hide GuestFrame, FromLE;
      GuestFrameLength(reply);
      var frame := ReceiveFrame();
      if frame.Failed? {
        return Failed(frame.kind, frame.error);
      }
      GuestFrameUnique(frame.value, reply, bridge.incoming);
      if frame.value == Packet(2, endpoint, []) {
        return Failed(Stall, "Guest USB endpoint stalled");
      }
      if frame.value.kind != kind || frame.value.endpoint != endpoint {
        return Failed(Protocol, "Guest reported an unexpected transfer type or endpoint");
      }
      r := Done(frame.value.data);
    }

    /** One packet reaches the guest, whole and as it was meant, or none does. */
    method Send(kind: Byte, data: Buffer, endpoint: Byte) returns (r: Answer<()>, ghost reply: Packet)
      modifies bridge
      ensures old(bridge.clock) <= bridge.clock
      ensures r.Failed? ==>
                && bridge.device == old(bridge.device) && bridge.incoming == old(bridge.incoming)
                && r.kind in {Timeout, Value} && (r.kind == Value <==> |data| + 6 > MAX_FRAME)
      ensures bridge.closed == old(bridge.closed) && (r.Done? ==> !bridge.closed)
      ensures r.Done? ==>
                && GuestStep(old(bridge.device), Packet(kind, endpoint, data), bridge.device, reply)
                && bridge.incoming == old(bridge.incoming) + GuestFrame(reply)
    {
      hide GuestStep;
      reply := Packet(2, 0, []);
      if |data| + 6 > MAX_FRAME {
        return Failed(Value, "ValueError: Recovery packet exceeds the transport bound"), reply;
      }
      var now := bridge.Now();
      if deadline - now <= 0 {
        return Failed(Timeout, "TimeoutError: Recovery socket deadline exceeded"), reply;
      }
      HostFrameReadsBack(Packet(kind, endpoint, data));
      var sent;
      sent, reply := bridge.SendAll(HostFrame(Packet(kind, endpoint, data)));
      if !sent {
        return Failed(Timeout, "TimeoutError: timed out"), reply;
      }
      r := Done(());
    }

    method StartTimer(limit: Option<int>)
      modifies this`deadline, bridge`clock
      ensures old(bridge.clock) <= bridge.clock
      ensures deadline == if limit.Some? then Min(limit.value, bridge.clock + timeout) else bridge.clock + timeout
    {
      var now := bridge.Now();
      deadline := now + timeout;
      if limit.Some? && limit.value < deadline {
        deadline := limit.value;
      }
    }

    /** Sends one packet and takes the guest's answer to that packet, if it has the expected form. */
    method Exchange(kind: Byte, data: Buffer, endpoint: Byte, expected: Byte, limit: Option<int>)
      returns (r: Answer<Buffer>)
      requires Ready()
      modifies this`deadline, bridge
      ensures old(bridge.clock) <= bridge.clock
      ensures bridge.device == old(bridge.device)
              || exists reply :: GuestStep(old(bridge.device), Packet(kind, endpoint, data), bridge.device, reply)
      ensures r.Failed? && r.kind in {Protocol, Stall} ==>
                && Ready()
                && exists reply :: GuestStep(old(bridge.device), Packet(kind, endpoint, data), bridge.device, reply)
      ensures r.Failed? && r.kind == Value ==> |data| + 6 > MAX_FRAME
      ensures r.Failed? && r.kind == Stall ==>
                GuestStep(old(bridge.device), Packet(kind, endpoint, data), bridge.device, Packet(2, endpoint, []))
      ensures r.Failed? && r.kind == Protocol && !bridge.closed ==>
                exists reply |
                  reply != Packet(2, endpoint, []) && (reply.kind != expected || reply.endpoint != endpoint) ::
                  GuestStep(old(bridge.device), Packet(kind, endpoint, data), bridge.device, reply)
      ensures r.Done? ==>
                && Ready()
                && GuestStep(old(bridge.device), Packet(kind, endpoint, data), bridge.device,
                             Packet(expected, endpoint, r.value))
    {
      hide GuestFrame, GuestStep;
      StartTimer(limit);
      var sent, reply := Send(kind, data, endpoint);
      if sent.Failed? {
        return Failed(sent.kind, sent.error);
      }
      AnswerIsShort(old(bridge.device), Packet(kind, endpoint, data), bridge.device, reply);
      assert bridge.incoming == GuestFrame(reply);
      r := Receive(expected, endpoint, reply);
    }

    /**
     * A control transfer. A request whose fields or data stage do not fit is refused before
     * anything is sent; an accepted answer is the device's answer to exactly this request.
     */
    method Control(request: Request, data: Buffer, limit: Option<int>) returns (r: Answer<Buffer>)
      requires Ready()
      modifies this`deadline, bridge
      ensures old(bridge.clock) <= bridge.clock
      ensures !request.Fits() ==> r.Failed? && bridge.device == old(bridge.device)
      ensures r.Failed? && r.kind == Value && 14 + |data| <= MAX_FRAME ==>
                !request.Fits() || (if request.Incoming() then data != [] else request.length != |data|)
      ensures r.Failed? && r.kind in {Protocol, Stall} ==>
                && Ready()
                && (Stalls(old(bridge.device), request, data, bridge.device)
                    || exists answer :: Completes(old(bridge.device), request, data, bridge.device, answer))
      ensures r.Done? ==>
                && Ready()
                && (if request.Incoming() then data == [] && |r.value| <= request.length
                    else request.length == |data| && r.value == [])
                && Completes(old(bridge.device), request, data, bridge.device, r.value)
      ensures Affects(old(bridge.device), request, data, bridge.device)
    {
      hide Completes, Stalls, ReadSetup, Request.Setup;
      if !request.Fits() {
        return Failed(Value, "ValueError: USB setup field out of range");
      }
      if (request.Incoming() && data != []) || (!request.Incoming() && request.length != |data|) {
        return Failed(Value, "ValueError: USB direction and data phase disagree");
      }
      SetupReadsBack(request, data);
      r := Exchange(1, request.Setup() + data, 0, 1, limit);
      if r.Done? {
        if request.Incoming() && |r.value| > request.length {
          return Failed(Protocol, "Guest returned more USB data than requested");
        }
        if !request.Incoming() && r.value != [] {
          return Failed(Protocol, "Unexpected payload on USB OUT completion");
        }
      }
    }

    method DfuState() returns (r: Answer<nat>)
      requires Ready()
      modifies this`deadline, bridge
      ensures old(bridge.clock) <= bridge.clock
      ensures bridge.device.Keeps(old(bridge.device))
      ensures r.Done? ==> Ready() && bridge.device == old(bridge.device)
                          && r.value == bridge.device.state <= 10
    {
      var data := Control(GET_STATE, [], None);
      if data.Failed? {
        return Failed(data.kind, data.error);
      }
      if |data.value| != 1 || data.value[0] > 10 {
        return Failed(Protocol, "DFU GETSTATE did not return one valid byte");
      }
      r := Done(data.value[0]);
    }

    method DfuStatus() returns (r: Answer<Status>)
      requires Ready()
      modifies this`deadline, bridge
      ensures old(bridge.clock) <= bridge.clock
      ensures bridge.device.OnlyPolled(old(bridge.device)) && |bridge.device.polls| <= |old(bridge.device).polls| + 1
      ensures r.Done? ==>
                && Ready()
                && bridge.device.polls == old(bridge.device).polls + [r.value]
                && Polls(old(bridge.device.state), bridge.device.state)
                && r.value.status == bridge.device.status <= 15 && r.value.state == bridge.device.state <= 10
    {
      hide Polls;
      var data := Control(GET_STATUS, [], None);
      if data.Failed? {
        return Failed(data.kind, data.error);
      }
      StatusReadsBack(bridge.device.polls[|old(bridge.device).polls|]);
      if |data.value| != 6 || data.value[0] > 15 || data.value[4] > 10 {
        return Failed(Protocol, "DFU GETSTATUS did not return six valid bytes");
      }
      r := Done(Status(data.value[0], FromLE(data.value[1..4]), data.value[4], data.value[5]));
    }

    /**
     * Polls until the device is in the target state. What is recorded is what the device answered,
     * at most one more answer having gone unseen when the wait fails. Every wait ends: the clock
     * reaches the deadline.
     */
    method WaitState(target: nat, waiting: set<nat>, limit: int) returns (r: Answer<()>, records: seq<Status>)
      requires Ready()
      modifies this`deadline, bridge
      ensures old(bridge.clock) <= bridge.clock
      ensures bridge.device.OnlyPolled(old(bridge.device))
      ensures Recorded(old(bridge.device).polls, records, bridge.device.polls)
      ensures r.Done? ==>
                && Ready()
                && bridge.device.polls == old(bridge.device).polls + records
                && Settled(records, target, waiting)
                && bridge.device.state == target && bridge.device.status == 0
    {
      hide Polls;
      records := [];
      while true
        invariant Ready() && bridge.device.OnlyPolled(old(bridge.device))
        invariant old(bridge.clock) <= bridge.clock
        invariant bridge.device.polls == old(bridge.device).polls + records
        invariant forall i | 0 <= i < |records| :: records[i].status == 0 && records[i].state in waiting
        decreases limit - bridge.clock
      {
        var now := bridge.Now();
        if now >= limit {
          return Failed(Timeout, "TimeoutError: DFU state deadline exceeded"), records;
        }
        var status := DfuStatus();
        if status.Failed? {
          return Failed(status.kind, status.error), records;
        }
        records := records + [status.value];
        if status.value.status != 0 {
          return Failed(Protocol, "Guest DFU error"), records;
        }
        if status.value.state == target {
          return Done(()), records;
        }
        if status.value.state !in waiting {
          return Failed(Protocol, "Unexpected DFU state"), records;
        }
        bridge.Sleep(PollDelay(status.value.poll));
      }
    }

    /** One USB reset: an acknowledged one has taken place. */
    method UsbReset() returns (r: Answer<()>)
      requires Ready()
      modifies this`deadline, bridge
      ensures var before := old(bridge.device);
              || bridge.device.Keeps(before)
              || bridge.device.Keeps(before.(resets := before.resets + [|before.log|]))
      ensures var before := old(bridge.device);
              r.Done? ==> bridge.device.Keeps(before.(resets := before.resets + [|before.log|]))
    {
      var data := Exchange(2, [], 0, 4, None);
      if data.Failed? {
        return Failed(data.kind, data.error);
      }
      if data.value != [] {
        return Failed(Protocol, "USB reset acknowledgement contained a payload");
      }
      r := Done(());
    }

    /**
     * Uploads one image. On every run, failed ones included, the device has taken a first part of
     * the planned downloads and nothing else. A report of completion means it took all of them,
     * stalled none, reported no error on the way and was waiting for the reset at the end. A reset
     * takes place only behind all of them and when it is asked for; an acknowledged one did, once.
     */
    method SendDfuFile(image: Buffer, expected: string, sha: Buffer -> string, reread: Buffer, total: int, reset: bool)
      returns (report: DfuReport, raised: Option<string>)
      requires Ready()
      modifies this`deadline, bridge
      ensures bridge.device.OnlyTransfers(old(bridge.device))
      ensures var before := old(bridge.device);
              || bridge.device.resets == before.resets
              || (reset && report.complete && bridge.device.resets == before.resets + [|bridge.device.log|])
      ensures report.resetAcknowledged ==>
                reset && bridge.device.resets == old(bridge.device).resets + [|bridge.device.log|]
      ensures old(bridge.device.log) <= bridge.device.log <= old(bridge.device.log) + Downloads(Wire(image), BLOCK)
      ensures !(0 < |image| <= MAX_DFU) || (expected != "" && sha(image) != expected) ==>
                raised.Some? && report == EMPTY_REPORT && bridge.device == old(bridge.device)
      ensures raised.None? ==> report.complete && report.resetAcknowledged == reset
      ensures report.complete ==>
                && 0 < |image| <= MAX_DFU
                && bridge.device.log == old(bridge.device.log) + Downloads(Wire(image), BLOCK)
                && Completed(report, image, Wire(image))
                && bridge.device.polls == old(bridge.device).polls + Polled(report.blocks) + report.manifest
                && bridge.device.stalled == old(bridge.device).stalled
                && (!reset ==> bridge.device.state == WAIT_RESET)
                && (report.intact <==> sha(reread) == sha(image))
    {
      hide Downloads, Reported, Settled, DfuSuffix;
      report, raised := EMPTY_REPORT, None;
      if !(0 < |image| <= MAX_DFU) {
        return report, Some("ValueError: iBSS input must be between 1 byte and 64 MiB");
      }
      if expected != "" && sha(image) != expected {
        return report, Some("ValueError: iBSS SHA-256 does not match the requested artifact");
      }
      var wire := Wire(image);
      var start := bridge.Now();
      raised, report := Transfer(image, wire, start + total, reset);
      report := report.(intact := sha(reread) == sha(image));
    }

    /** All downloads but the closing one. */
    method SendBlocks(image: Buffer, wire: Buffer, limit: int, begun: DfuReport)
      returns (raised: Option<string>, report: DfuReport)
      requires Ready() && image <= wire && begun == EMPTY_REPORT.(initial := Some(DFU_IDLE))
      modifies this`deadline, bridge
      ensures bridge.device.OnlyDownloads(old(bridge.device))
      ensures old(bridge.device.log) <= bridge.device.log <= old(bridge.device.log) + Downloads(wire, BLOCK)
      ensures !report.complete && !report.resetAcknowledged
      ensures raised.None? ==>
                && Ready()
                && report == begun.(bytesSent := |wire|, imageBytesSent := |image|, blocks := report.blocks)
                && bridge.device.polls == old(bridge.device).polls + Polled(report.blocks)
                && bridge.device.stalled == old(bridge.device).stalled
                && |Downloads(wire, BLOCK)| == |report.blocks| + 1
                && Reported(report.blocks, Downloads(wire, BLOCK)[..|report.blocks|])
                && bridge.device.log + [Block(|report.blocks|, [])]
                   == old(bridge.device.log) + Downloads(wire, BLOCK)
    {
      hide Schedule, Settled, Ahead, DfuSuffix, Polls, Reported, Polled, Recorded;
      raised, report := None, begun;
      ghost var before := bridge.device.log;
      ghost var whole := before + Downloads(wire, BLOCK);
      var number, offset := 0, 0;
      StartsAhead(before, wire, BLOCK, whole);
      PolledOnceMore(bridge.device.polls, [], BlockReport(0, 0, []));
      while offset < |wire|
        invariant offset <= |wire| && number == |report.blocks|
        invariant Ready() && bridge.device.OnlyDownloads(old(bridge.device))
        invariant bridge.device.polls == old(bridge.device).polls + Polled(report.blocks)
        invariant bridge.device.stalled == old(bridge.device).stalled
        invariant before <= bridge.device.log && Ahead(bridge.device.log, wire[offset..], number, BLOCK, whole)
        invariant Reported(report.blocks, bridge.device.log[|before|..])
        invariant report == begun.(bytesSent := offset, imageBytesSent := Min(offset, |image|), blocks := report.blocks)
      {
        var cut := Min(BLOCK, |wire| - offset);
        var block := wire[offset..offset + cut];
        assert wire[offset..][..cut] == block && wire[offset..][cut..] == wire[offset + cut..];
        ghost var log := bridge.device.log;
        AheadOnce(log, wire[offset..], number, BLOCK, whole);
        ghost var blocks := report.blocks;
        var taken, settled, statuses :=
          SendBlock(number, block, DNLOAD_IDLE, {DNLOAD_SYNC, DNLOAD_BUSY}, limit);
        if taken {
          report := report.(bytesSent := report.bytesSent + cut,
                            imageBytesSent := Min(report.bytesSent + cut, |image|),
                            blocks := report.blocks + [BlockReport(number, cut, statuses)]);
        }
        if settled.Failed? {
          return Some(settled.error), report;
        }
        PolledOnceMore(old(bridge.device).polls, blocks, BlockReport(number, cut, statuses));
        ReportedOnceMore(report.blocks, log[|before|..], Block(number, block));
        assert bridge.device.log[|before|..] == log[|before|..] + [Block(number, block)];
        number, offset := number + 1, offset + cut;
      }
      AheadOnce(bridge.device.log, wire[offset..], number, BLOCK, whole);
      PlanDone(before, bridge.device.log, report.blocks, wire, BLOCK);
    }

    /** The body of the upload's try block. */
    method Transfer(image: Buffer, wire: Buffer, limit: int, reset: bool)
      returns (raised: Option<string>, report: DfuReport)
      requires Ready() && image <= wire
      modifies this`deadline, bridge
      ensures bridge.device.OnlyTransfers(old(bridge.device))
      ensures var before := old(bridge.device);
              || bridge.device.resets == before.resets
              || (reset && report.complete && bridge.device.resets == before.resets + [|bridge.device.log|])
      ensures report.resetAcknowledged ==>
                reset && bridge.device.resets == old(bridge.device).resets + [|bridge.device.log|]
      ensures old(bridge.device.log) <= bridge.device.log <= old(bridge.device.log) + Downloads(wire, BLOCK)
      ensures raised.None? ==> report.complete && report.resetAcknowledged == reset
      ensures report.complete ==>
                && bridge.device.log == old(bridge.device.log) + Downloads(wire, BLOCK)
                && Completed(report, image, wire)
                && bridge.device.polls == old(bridge.device).polls + Polled(report.blocks) + report.manifest
                && bridge.device.stalled == old(bridge.device).stalled
                && (!reset ==> bridge.device.state == WAIT_RESET)
    {
      hide Downloads, Settled, DfuSuffix, Polls, Reported, Polled, Recorded;
      raised, report := None, EMPTY_REPORT;
      NothingPlanned(bridge.device.log, Downloads(wire, BLOCK));
      var initial := DfuState();
      if initial.Failed? {
        return Some(initial.error), report;
      }
      report := report.(initial := Some(initial.value));
      if initial.value != DFU_IDLE {
        return Some("DFU upload requires IDLE state 2"), report;
      }
      raised, report := SendBlocks(image, wire, limit, report);
      if raised.Some? {
        return;
      }
      var number := |report.blocks|;
      var taken, settled, statuses := SendBlock(number, [], WAIT_RESET, {MANIFEST_SYNC, MANIFEST}, limit);
      report := report.(manifest := statuses);
      if settled.Failed? {
        return Some(settled.error), report;
      }
      var final := DfuState();
      if final.Failed? {
        return Some(final.error), report;
      }
      report := report.(final := Some(final.value));
      if final.value != WAIT_RESET {
        return Some("DFU state changed before USB reset"), report;
      }
      report := report.(complete := true);
      if reset {
        var done := UsbReset();
        if done.Failed? {
          return Some(done.error), report;
        }
        report := report.(resetAcknowledged := true);
      }
    }

    /** One download and the polls that follow it: the device takes it once or not at all. */
    method SendBlock(number: nat, data: Buffer, target: nat, waiting: set<nat>, limit: int)
      returns (taken: bool, r: Answer<()>, statuses: seq<Status>)
      requires Ready()
      modifies this`deadline, bridge
      ensures bridge.device.OnlyDownloads(old(bridge.device))
      ensures bridge.device.log == old(bridge.device.log)
              || bridge.device.log == old(bridge.device.log) + [Block(number, data)]
      ensures taken ==> bridge.device.log == old(bridge.device.log) + [Block(number, data)]
      ensures Recorded(old(bridge.device).polls, statuses, bridge.device.polls)
      ensures r.Done? ==>
                && taken && Ready()
                && bridge.device.polls == old(bridge.device).polls + statuses && Settled(statuses, target, waiting)
                && bridge.device.stalled == old(bridge.device).stalled
                && bridge.device.state == target && bridge.device.status == 0
    {
      hide Settled, Polls;
      taken, statuses := false, [];
      var answer := Control(Download(number, data), data, None);
      if answer.Failed? {
        return false, Failed(answer.kind, answer.error), statuses;
      }
      taken := true;
      r, statuses := WaitState(target, waiting, limit);
    }

    /**
     * A command is taken once, or refused by iBoot, or does not reach it; text that is not printable
     * is not sent. When the host can go on after a failure it was taken or refused.
     */
    method SendCommand(text: string, request: int) returns (r: Answer<Buffer>)
      requires Ready()
      modifies this`deadline, bridge
      ensures var before, command := old(bridge.device), Command(request, Encoded(text));
              || bridge.device.Keeps(before)
              || bridge.device.Keeps(before.(restore := before.restore + [command]))
              || bridge.device.Keeps(before.(refused := before.refused + [command]))
      ensures !Printable(text) ==> r.Failed? && r.kind == Value && bridge.device == old(bridge.device)
      ensures var before, command := old(bridge.device), Command(request, Encoded(text));
              r.Failed? && r.kind in {Protocol, Stall} ==>
                && Ready()
                && (bridge.device.Keeps(before.(restore := before.restore + [command]))
                    || bridge.device.Keeps(before.(refused := before.refused + [command])))
      ensures var before, command := old(bridge.device), Command(request, Encoded(text));
              r.Done? ==> Ready() && bridge.device.Keeps(before.(restore := before.restore + [command]))
    {
      if !Printable(text) {
        return Failed(Value, "iBoot command must be printable ASCII");
      }
      r := Control(Request(0x40, request, 0, 0, |text| + 1), Encoded(text), None);
    }

    /** One write to the bulk OUT endpoint: the device takes it once or not at all. */
    method BulkOut(data: Buffer) returns (r: Answer<()>)
      requires Ready()
      modifies this`deadline, bridge
      ensures bridge.device.OnlyRestores(old(bridge.device)) && bridge.device.begun == old(bridge.device).begun
      ensures bridge.device.restore == old(bridge.device.restore)
              || bridge.device.restore == old(bridge.device.restore) + [Write(data)]
      ensures r.Done? ==> Ready() && bridge.device.restore == old(bridge.device.restore) + [Write(data)]
    {
      var answer := Exchange(1, data, 4, 1, None);
      if answer.Failed? {
        return Failed(answer.kind, answer.error);
      }
      if answer.value != [] {
        return Failed(Protocol, "Bulk OUT acknowledgement contained a payload");
      }
      r := Done(());
    }

    /**
     * Sends a recovery image over the bulk endpoint. On every run the device has taken a first part
     * of the planned writes; a run that ends well has handed it all of them, behind one request to
     * begin an upload.
     */
    method SendRecoveryFile(image: Buffer, expected: Option<string>, sha: Buffer -> string, total: int)
      returns (complete: bool, bytesSent: nat, raised: Option<string>)
      requires Ready()
      modifies this`deadline, bridge
      ensures bridge.device.OnlyRestores(old(bridge.device))
      ensures old(bridge.device.restore) <= bridge.device.restore <= old(bridge.device.restore) + BulkWrites(image)
      ensures !(0 < |image| <= MAX_RECOVERY) || (expected.Some? && sha(image) != expected.value) ==>
                raised.Some? && bridge.device == old(bridge.device)
      ensures complete <==> raised.None?
      ensures complete ==> Ready()
      ensures complete ==>
                && bridge.device.restore == old(bridge.device.restore) + BulkWrites(image) && bytesSent == |image|
                && bridge.device.begun == old(bridge.device).begun + [|old(bridge.device).restore|]
    {
      hide BulkWrites, Device.Keeps, Device.OnlyRestores;
      KeptThenRestored(bridge.device, bridge.device, bridge.device);
      NothingTaken(bridge.device.restore, BulkWrites(image));
      if !(0 < |image| <= MAX_RECOVERY) {
        return false, 0, Some("ValueError: iBEC input must be between 1 byte and 512 MiB");
      }
      if expected.Some? && sha(image) != expected.value {
        return false, 0, Some("ValueError: Recovery image SHA-256 does not match");
      }
      raised, bytesSent := SendSelected(image, total);
      complete := raised.None?;
    }

    method SendSelected(image: Buffer, total: int) returns (raised: Option<string>, bytesSent: nat)
      requires Ready()
      modifies this`deadline, bridge
      ensures bridge.device.OnlyRestores(old(bridge.device))
      ensures old(bridge.device.restore) <= bridge.device.restore <= old(bridge.device.restore) + BulkWrites(image)
      ensures raised.None? ==>
                && Ready() && bytesSent == |image|
                && bridge.device.restore == old(bridge.device.restore) + BulkWrites(image)
                && bridge.device.begun == old(bridge.device).begun + [|old(bridge.device).restore|]
    {
      hide BulkWrites, Device.Keeps, Device.OnlyRestores;
      NothingTaken(bridge.device.restore, BulkWrites(image));
      var start := bridge.Now();
      var selected := SelectUpload();
      ghost var ready := bridge.device;
      KeptThenRestored(old(bridge.device), ready, ready);
      if selected.Failed? {
        return Some(selected.error), 0;
      }
      raised, bytesSent := WritePieces(image, start + total);
      KeptThenRestored(old(bridge.device), ready, bridge.device);
    }

    method SelectUpload() returns (r: Answer<Buffer>)
      requires Ready()
      modifies this`deadline, bridge
      ensures bridge.device.OnlyRestores(old(bridge.device)) && bridge.device.restore == old(bridge.device).restore
      ensures r.Done? ==>
                Ready() && bridge.device.begun == old(bridge.device).begun + [|old(bridge.device).restore|]
    {
      hide Takes;
      r := Control(Request(0x41, 0, 0, 0, 0), [], None);
    }

    method WritePieces(image: Buffer, limit: int) returns (raised: Option<string>, bytesSent: nat)
      requires Ready()
      modifies this`deadline, bridge
      ensures bridge.device.OnlyRestores(old(bridge.device)) && bridge.device.begun == old(bridge.device).begun
      ensures old(bridge.device.restore) <= bridge.device.restore <= old(bridge.device.restore) + BulkWrites(image)
      ensures raised.None? ==>
                && Ready() && bytesSent == |image|
                && bridge.device.restore == old(bridge.device.restore) + BulkWrites(image)
    {
      hide BulkPlan;
      bytesSent := 0;
      ghost var closed := |image| % PACKET == 0;
      ghost var before, whole := bridge.device.restore, bridge.device.restore + BulkWrites(image);
      var offset := 0;
      assert image[offset..] == image;
      while offset < |image|
        invariant offset <= |image| && bytesSent == offset
        invariant Ready() && bridge.device.OnlyRestores(old(bridge.device))
        invariant bridge.device.begun == old(bridge.device).begun
        invariant before <= bridge.device.restore
        invariant bridge.device.restore + BulkPlan(image[offset..], closed) == whole
      {
        var now := bridge.Now();
        var cut := Min(PIECE, |image| - offset);
        var piece := image[offset..offset + cut];
        assert image[offset..][..cut] == piece && image[offset..][cut..] == image[offset + cut..];
        WriteOnce(bridge.device.restore, image[offset..], closed, whole);
        if now >= limit {
          return Some("TimeoutError: iBEC upload deadline exceeded"), bytesSent;
        }
        var written := BulkOut(piece);
        if written.Failed? {
          return Some(written.error), bytesSent;
        }
        offset, bytesSent := offset + cut, bytesSent + cut;
      }
      WriteOnce(bridge.device.restore, image[offset..], closed, whole);
      if |image| % PACKET == 0 {
        var written := BulkOut([]);
        if written.Failed? {
          return Some(written.error), bytesSent;
        }
      }
      raised := None;
    }

    /**
     * Selects the recovery configuration. The device said that it is a recovery device, announced its
     * configuration in a header and sent it: byte for byte a chain of descriptors of the announced
     * total length with a bulk OUT endpoint 4 in it. It is the configuration that gets selected.
     */
    method ConfigureRecovery() returns (r: Answer<Buffer>)
      requires Ready()
      modifies this`deadline, bridge
      ensures bridge.device.Enumerated(old(bridge.device))
      ensures r.Done? ==>
                && Ready()
                && 9 <= |r.value| <= 4096 && r.value[..2] == [9, 2] && |r.value| == FromLE(r.value[2..4])
                && Descriptors.Advertises(r.value)
                && Introduces(old(bridge.device).described, bridge.device.described, r.value)
                && bridge.device.configuration == r.value[5]
    {
      hide Descriptors.Advertises, Introduces, FromLE;
      r := ReadConfiguration();
      if r.Failed? {
        return;
      }
      var bytes := r.value;
      var found := Descriptors.FindBulkOut(bytes);
      if found.None? {
        return Failed(Protocol, "Invalid recovery USB descriptor structure");
      }
      if !found.value {
        return Failed(Protocol, "Recovery bulk OUT endpoint 4 was not advertised");
      }
      var selected := Control(Request(0x00, 9, bytes[5], 0, 0), [], None);
      if selected.Failed? {
        return selected;
      }
    }

    /** The three descriptors of a recovery device, the last one as long as its header says. */
    method ReadConfiguration() returns (r: Answer<Buffer>)
      requires Ready()
      modifies this`deadline, bridge
      ensures bridge.device.Enumerated(old(bridge.device))
      ensures r.Done? ==>
                && Ready()
                && 9 <= |r.value| <= 4096 && r.value[..2] == [9, 2] && |r.value| == FromLE(r.value[2..4])
                && Introduces(old(bridge.device).described, bridge.device.described, r.value)
    {
      hide FromLE;
      var device := Describe(DEVICE_DESCRIPTOR);
      if device.Failed? {
        return device;
      }
      if !RecoveryDevice(device.value) {
        return Failed(Protocol, "Expected an actual Apple iBEC recovery device");
      }
      var header := Describe(ConfigurationDescriptor(9));
      if header.Failed? {
        return header;
      }
      if |header.value| != 9 || header.value[..2] != [9, 2] {
        return Failed(Protocol, "Missing recovery configuration header");
      }
      var length := FromLE(header.value[2..4]);
      if !(9 <= length <= 4096) {
        return Failed(Protocol, "Recovery configuration length is out of bounds");
      }
      var configuration := Describe(ConfigurationDescriptor(length));
      if configuration.Failed? {
        return configuration;
      }
      var bytes := configuration.value;
      if |bytes| != length || bytes[..9] != header.value {
        return Failed(Protocol, "Recovery configuration descriptor is inconsistent");
      }
      assert bytes[..2] == header.value[..2] && bytes[2..4] == header.value[2..4];
      r := Done(bytes);
    }

    /** What is returned is what the device sent. */
    method Describe(request: Request) returns (r: Answer<Buffer>)
      requires Ready() && request.kind == 0x80 && request.code == 6
      modifies this`deadline, bridge
      ensures bridge.device.Enumerated(old(bridge.device))
      ensures r.Done? ==>
                Ready() && bridge.device.described == old(bridge.device).described + [Described(request, r.value)]
    {
      r := Control(request, [], None);
    }
  }

  lemma NothingTaken(taken: seq<Taken>, planned: seq<Taken>)
    ensures taken <= taken <= taken + planned
  {
  }

  lemma WriteOnce(taken: seq<Taken>, rest: Buffer, closed: bool, whole: seq<Taken>)
    requires taken + BulkPlan(rest, closed) == whole
    ensures taken <= whole
    ensures rest == [] ==> whole == taken + (if closed then [Write([])] else [])
    ensures rest != [] ==>
              var cut := Min(PIECE, |rest|);
              var next := taken + [Write(rest[..cut])];
              next <= whole && next + BulkPlan(rest[cut..], closed) == whole
  {
    if rest != [] {
      var cut := Min(PIECE, |rest|);
      var piece, tail := [Write(rest[..cut])], BulkPlan(rest[cut..], closed);
      assert taken + (piece + tail) == (taken + piece) + tail;
    }
  }

  lemma StartsAhead(log: seq<Block>, wire: Buffer, size: nat, whole: seq<Block>)
    requires size > 0 && whole == log + Downloads(wire, size)
    ensures Ahead(log, wire[0..], 0, size, whole)
    ensures Reported([], log[|log|..]) && Packs(log[|log|..])
  {
    assert wire[0..] == wire;
  }

  lemma ReportedOnceMore(blocks: seq<BlockReport>, taken: seq<Block>, block: Block)
    requires blocks != [] && Reported(blocks[..|blocks| - 1], taken)
    requires var last := blocks[|blocks| - 1];
             last.number == block.number && last.size == |block.data|
             && Settled(last.statuses, DNLOAD_IDLE, {DNLOAD_SYNC, DNLOAD_BUSY})
    ensures Reported(blocks, taken + [block])
  {
    hide Settled;
    assert forall i | 0 <= i < |blocks| - 1 :: blocks[i] == blocks[..|blocks| - 1][i];
  }

  lemma NothingPlanned(log: seq<Block>, planned: seq<Block>)
    ensures log <= log <= log + planned
  {
  }

  lemma PolledOnceMore(before: seq<Status>, blocks: seq<BlockReport>, more: BlockReport)
    ensures before + Polled([]) == before
    ensures (before + Polled(blocks)) + more.statuses == before + Polled(blocks + [more])
  {
    assert (blocks + [more])[..|blocks|] == blocks;
  }

  lemma PlanDone(before: seq<Block>, log: seq<Block>, blocks: seq<BlockReport>, wire: Buffer, size: nat)
    requires size > 0 && before <= log && Reported(blocks, log[|before|..])
    requires before + Downloads(wire, size) == log + [Block(|blocks|, [])]
    ensures var plan := Downloads(wire, size);
            |plan| == |blocks| + 1 && Reported(blocks, plan[..|blocks|])
            && plan == log[|before|..] + [Block(|blocks|, [])]
  {
    hide Settled, Schedule;
    var plan, done := Downloads(wire, size), log[|before|..];
    assert plan == (before + plan)[|before|..] == done + [Block(|blocks|, [])];
    assert plan[..|blocks|] == done;
  }

  /**
   * What the device holds after a completed upload: the image and its suffix in blocks numbered
   * from zero in sixteen bits, closed by the only empty block, with a CRC register that ends at zero.
   */
  lemma UploadedFile(image: Buffer)
    requires |image| <= MAX_DFU
    ensures var plan := Downloads(Wire(image), BLOCK);
            && Carries(plan, Wire(image), 0, BLOCK) && Packs(plan)
            && Joined(plan) == image + DfuSuffix(image)
            && Register(ALL_ONES, Joined(plan)) == 0
  {
    hide Schedule, Register, DfuSuffix, Joined;
    SuffixClosesRegister(image, [0, 0, 0, 0]);
    ScheduleCarries(Wire(image), 0, BLOCK);
    LimitPacks(Wire(image));
  }

  /** A recovery image reaches the device as one bulk transfer of exactly its bytes. */
  lemma RecoveredImage(image: Buffer)
    ensures OneTransfer(BulkWrites(image), image)
  {
    BulkPlanIsOneTransfer(image, |image| % PACKET == 0);
  }
}
