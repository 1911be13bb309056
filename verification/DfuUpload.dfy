/** The stand-alone uploader: the same protocol with a block size of the caller's and a bounded number of polls. */
module DfuUpload {
  import opened Bytes
  import opened Crc32
  import opened DfuSchedule
  import opened UsbBridge
  import opened RecoveryTransport

  const MAX_IMAGE: nat := 64 * 1024 * 1024
  const POLL_LIMIT: nat := 64

  /** What the uploader records; `complete` is its transport_complete. */
  datatype UploadReport = UploadReport(blocks: seq<BlockReport>, manifest: seq<Status>, complete: bool, reset: bool)

  /** The device has sent its device descriptor, a header, and the configuration the header announces. */
  ghost predicate Introduced(before: seq<Described>, after: seq<Described>) {
    exists device: Buffer, header: Buffer, configuration: Buffer | |header| == 9 ::
      after == before + [Described(DEVICE_DESCRIPTOR, device), Described(ConfigurationDescriptor(9), header),
                         Described(ConfigurationDescriptor(FromLE(header[2..4])), configuration)]
  }

  class DfuSocket {
    const bridge: Bridge

    constructor (bridge: Bridge)
      ensures this.bridge == bridge
    {
      this.bridge := bridge;
    }

    method ReadExact(size: nat) returns (r: Result<Buffer>)
      modifies bridge`incoming, bridge`clock, bridge`closed
      ensures r.Ok? ==> |r.value| == size && r.value + bridge.incoming == old(bridge.incoming)
    {
      var data: Buffer := [];
      while |data| < size
        invariant |data| <= size && data + bridge.incoming == old(bridge.incoming)
        decreases size - |data|
      {
        label before:
        var chunk := bridge.Recv(size - |data|);
        if chunk.None? {
          return Err("TimeoutError: timed out");
        }
        if chunk.value == [] {
          return Err("VMApple DFU socket closed mid-frame");
        }
        assert data + old@before(bridge.incoming) == (data + chunk.value) + bridge.incoming;
        data := data + chunk.value;
      }
      r := Ok(data);
    }

    /** The next frame of the guest, whatever it is. */
    method Receive() returns (r: Result<Packet>)
      modifies bridge`incoming, bridge`clock, bridge`closed
      ensures r.Ok? ==>
                |r.value.data| + 2 <= MAX_IMAGE + 64 && GuestFrame(r.value) + bridge.incoming == old(bridge.incoming)
    {
      hide FromLE, ToLE;
      var head := ReadExact(4);
      if head.Err? {
        return Err(head.error);
      }
      var size := FromLE(head.value);
      if size < 2 || size > MAX_IMAGE + 64 {
        return Err("invalid VMApple frame size");
      }
      var frame := ReadExact(size);
      if frame.Err? {
        return Err(frame.error);
      }
      r := Ok(Packet(frame.value[0], frame.value[1], frame.value[2..]));
      ToLEFromLE(head.value);
      assert frame.value == [r.value.kind, r.value.endpoint] + r.value.data;
      assert GuestFrame(r.value) == head.value + frame.value;
    }

    /** Sends one packet on endpoint 0 and takes the guest's answer to that packet. */
    method Exchange(kind: Byte, data: Buffer) returns (r: Result<Packet>)
      requires bridge.incoming == [] && |data| <= 0x1_0000 + 8
      modifies bridge
      ensures bridge.device == old(bridge.device)
              || exists reply :: GuestStep(old(bridge.device), Packet(kind, 0, data), bridge.device, reply)
      ensures r.Ok? ==>
                && bridge.incoming == []
                && GuestStep(old(bridge.device), Packet(kind, 0, data), bridge.device, r.value)
    {
      hide GuestStep, GuestFrame, HostFrame, ReadHostFrame;
      HostFrameReadsBack(Packet(kind, 0, data));
      var sent, reply := bridge.SendAll(HostFrame(Packet(kind, 0, data)));
      if !sent {
        return Err("TimeoutError: timed out");
      }
      r := Receive();
      if r.Ok? {
        ReplyBound(reply, kind, data, old(bridge.device), bridge.device);
        GuestFrameUnique(r.value, reply, bridge.incoming);
      }
    }

    /** Fields that do not fit make struct.pack raise before anything is sent. */
    method Control(request: Request, data: Buffer) returns (r: Result<Buffer>)
      requires bridge.incoming == []
      modifies bridge
      ensures !request.Fits() ==> r.Err? && bridge.device == old(bridge.device)
      ensures r.Ok? ==>
                && bridge.incoming == []
                && (if request.Incoming() then data == [] && |r.value| <= request.length
                    else request.length == |data| && r.value == [])
                && Completes(old(bridge.device), request, data, bridge.device, r.value)
      ensures Affects(old(bridge.device), request, data, bridge.device)
    {
      hide Completes, Stalls, ReadSetup, Request.Setup;
      if (request.Incoming() && data != []) || (!request.Incoming() && |data| != request.length) {
        return Err("ValueError: USB control direction and data disagree");
      }
      if !request.Fits() {
        return Err("struct.error");
      }
      SetupReadsBack(request, data);
      var answer := Exchange(1, request.Setup() + data);
      if answer.Err? {
        return Err(answer.error);
      }
      if answer.value.kind != 1 || answer.value.endpoint != 0 {
        return Err("unexpected or stalled control response");
      }
      if request.Incoming() && |answer.value.data| > request.length {
        return Err("VMApple DFU control response exceeds requested length");
      }
      if !request.Incoming() && answer.value.data != [] {
        return Err("VMApple DFU OUT completion carried unexpected data");
      }
      r := Ok(answer.value.data);
    }

    method DfuState() returns (r: Result<nat>)
      requires bridge.incoming == []
      modifies bridge
      ensures bridge.device.Keeps(old(bridge.device))
      ensures r.Ok? ==> bridge.incoming == [] && bridge.device == old(bridge.device)
                        && r.value == bridge.device.state <= 10
    {
      var data := Control(GET_STATE, []);
      if data.Err? {
        return Err(data.error);
      }
      if |data.value| != 1 || data.value[0] > 10 {
        return Err("DFU GETSTATE did not return a valid one-byte state");
      }
      r := Ok(data.value[0]);
    }

    /** At most 64 polls. What is recorded is what the device answered. */
    method WaitDfuState(target: nat, waiting: set<nat>) returns (r: Result<()>, replies: seq<Status>)
      requires bridge.incoming == []
      modifies bridge
      ensures bridge.device.OnlyPolled(old(bridge.device))
      ensures |bridge.device.polls| <= |old(bridge.device).polls| + POLL_LIMIT
      ensures Recorded(old(bridge.device).polls, replies, bridge.device.polls)
      ensures r.Ok? ==>
                && bridge.incoming == []
                && bridge.device.polls == old(bridge.device).polls + replies && Settled(replies, target, waiting)
                && bridge.device.state == target && bridge.device.status == 0
    {
      hide Polls;
      replies := [];
      for poll := 0 to POLL_LIMIT
        invariant |replies| == poll
        invariant bridge.incoming == [] && bridge.device.OnlyPolled(old(bridge.device))
        invariant bridge.device.polls == old(bridge.device).polls + replies
        invariant forall i | 0 <= i < |replies| :: replies[i].status == 0 && replies[i].state in waiting
      {
        ghost var before := bridge.device;
        var data := Control(GET_STATUS, []);
        if data.Err? {
          return Err(data.error), replies;
        }
        StatusReadsBack(bridge.device.polls[|before.polls|]);
        if |data.value| != 6 || data.value[0] > 15 || data.value[4] > 10 {
          return Err("DFU GETSTATUS did not return six valid bytes"), replies;
        }
        var status := Status(data.value[0], FromLE(data.value[1..4]), data.value[4], data.value[5]);
        replies := replies + [status];
        if status.status != 0 {
          return Err("DFU error"), replies;
        }
        if status.state == target {
          return Ok(()), replies;
        }
        if status.state !in waiting {
          return Err("unexpected DFU state"), replies;
        }
        bridge.Sleep(PollDelay(status.poll));
      }
      r := Err("DFU state did not reach the target");
    }

    /** One download and the polls that follow it; one whose fields do not pack is never sent. */
    method SendBlock(number: nat, data: Buffer, target: nat, waiting: set<nat>)
      returns (taken: bool, r: Result<()>, statuses: seq<Status>)
      requires bridge.incoming == []
      modifies bridge
      ensures bridge.device.OnlyDownloads(old(bridge.device))
      ensures bridge.device.log == old(bridge.device.log)
              || bridge.device.log == old(bridge.device.log) + [Block(number, data)]
      ensures taken ==> bridge.device.log == old(bridge.device.log) + [Block(number, data)]
                        && Download(number, data).Fits()
      ensures Recorded(old(bridge.device).polls, statuses, bridge.device.polls)
      ensures r.Ok? ==>
                && taken && bridge.incoming == []
                && bridge.device.polls == old(bridge.device).polls + statuses && Settled(statuses, target, waiting)
                && bridge.device.stalled == old(bridge.device).stalled
                && bridge.device.state == target && bridge.device.status == 0
    {
      hide Settled, Polls;
      taken, statuses := false, [];
      var answer := Control(Download(number, data), data);
      if answer.Err? {
        return false, Err(answer.error), statuses;
      }
      taken := true;
      r, statuses := WaitDfuState(target, waiting);
    }

    /** Descriptors, address and configuration, and the state the upload needs. */
    method Enumerate() returns (r: Result<nat>)
      requires bridge.incoming == []
      modifies bridge
      ensures bridge.device.Enumerated(old(bridge.device))
      ensures r.Ok? ==>
                && bridge.incoming == [] && r.value == bridge.device.state
                && bridge.device.address == 1 && bridge.device.configuration == 1
                && Introduced(old(bridge.device).described, bridge.device.described)
    {
      hide FromLE;
      var device := Control(DEVICE_DESCRIPTOR, []);
      if device.Err? {
        return Err(device.error);
      }
      var header := Control(ConfigurationDescriptor(9), []);
      if header.Err? {
        return Err(header.error);
      }
      if |header.value| != 9 {
        return Err("USB configuration header is incomplete");
      }
      var configuration := Control(ConfigurationDescriptor(FromLE(header.value[2..4])), []);
      if configuration.Err? {
        return Err(configuration.error);
      }
      var address := Control(Request(0x00, 5, 1, 0, 0), []);
      if address.Err? {
        return Err(address.error);
      }
      var selected := Control(Request(0x00, 9, 1, 0, 0), []);
      if selected.Err? {
        return Err(selected.error);
      }
      r := DfuState();
    }

    /**
     * Uploads in blocks of the caller's size. The device never takes anything but a first part of
     * the planned downloads. Completion means it took all of them, and it is out of reach for a
     * block size whose downloads do not all pack into sixteen bits.
     */
    method Upload(image: Buffer, size: nat) returns (report: UploadReport, raised: Option<string>)
      requires bridge.incoming == []
      modifies bridge
      ensures bridge.device.OnlyUploads(old(bridge.device))
      ensures var before := old(bridge.device);
              || bridge.device.resets == before.resets
              || (report.complete && bridge.device.resets == before.resets + [|bridge.device.log|])
      ensures report.reset ==> bridge.device.resets == old(bridge.device).resets + [|bridge.device.log|]
      ensures !(0 < |image| <= MAX_IMAGE - 16) || !(1 <= size <= 64 * 1024) ==>
                raised.Some? && !report.complete && bridge.device == old(bridge.device)
      ensures size > 0 ==>
                old(bridge.device.log) <= bridge.device.log <= old(bridge.device.log) + Downloads(Wire(image), size)
      ensures raised.None? ==> report.complete && report.reset
      ensures report.complete ==>
                && 0 < size && Packs(Downloads(Wire(image), size))
                && bridge.device.log == old(bridge.device.log) + Downloads(Wire(image), size)
                && |report.blocks| + 1 == |Downloads(Wire(image), size)|
                && Reported(report.blocks, Downloads(Wire(image), size)[..|report.blocks|])
                && Settled(report.manifest, WAIT_RESET, {MANIFEST_SYNC, MANIFEST})
                && bridge.device.polls == old(bridge.device).polls + Polled(report.blocks) + report.manifest
                && bridge.device.stalled == old(bridge.device).stalled
                && bridge.device.address == 1 && bridge.device.configuration == 1
                && Introduced(old(bridge.device).described, bridge.device.described)
    {
      hide Downloads, Packs, Reported, Settled, DfuSuffix;
      report, raised := UploadReport([], [], false, false), None;
      if !(0 < |image| <= MAX_IMAGE - 16) {
        return report, Some("ValueError: DFU image must be between 1 byte and 64 MiB");
      }
      if !(1 <= size <= 64 * 1024) {
        return report, Some("ValueError: DFU block size must be between 1 and 65536 bytes");
      }
      raised, report := Transfer(Wire(image), size);
    }

    /** All downloads but the closing one. */
    method SendBlocks(wire: Buffer, size: nat) returns (raised: Option<string>, blocks: seq<BlockReport>)
      requires bridge.incoming == [] && size > 0
      modifies bridge
      ensures bridge.device.OnlyDownloads(old(bridge.device))
      ensures old(bridge.device.log) <= bridge.device.log <= old(bridge.device.log) + Downloads(wire, size)
      ensures raised.None? ==>
                && bridge.incoming == []
                && bridge.device.polls == old(bridge.device).polls + Polled(blocks)
                && bridge.device.stalled == old(bridge.device).stalled
                && |Downloads(wire, size)| == |blocks| + 1
                && Reported(blocks, Downloads(wire, size)[..|blocks|])
                && var taken := bridge.device.log[|old(bridge.device.log)|..];
                && Packs(taken) && Downloads(wire, size) == taken + [Block(|blocks|, [])]
                && bridge.device.log + [Block(|blocks|, [])] == old(bridge.device.log) + Downloads(wire, size)
    {
      hide Schedule, Settled, Reported, Polls, Packs, Ahead, BlockCount, Polled, Recorded;
      raised, blocks := None, [];
      ghost var before := bridge.device.log;
      ghost var whole := before + Downloads(wire, size);
      var number, offset := 0, 0;
      StartsAhead(before, wire, size, whole);
      PolledOnceMore(bridge.device.polls, [], BlockReport(0, 0, []));
      while offset < |wire|
        invariant offset <= |wire| && number == |blocks|
        invariant bridge.incoming == [] && bridge.device.OnlyDownloads(old(bridge.device))
        invariant bridge.device.polls == old(bridge.device).polls + Polled(blocks)
        invariant bridge.device.stalled == old(bridge.device).stalled
        invariant before <= bridge.device.log && Ahead(bridge.device.log, wire[offset..], number, size, whole)
        invariant Reported(blocks, bridge.device.log[|before|..]) && Packs(bridge.device.log[|before|..])
      {
        var cut := Min(size, |wire| - offset);
        var block := wire[offset..offset + cut];
        assert wire[offset..][..cut] == block && wire[offset..][cut..] == wire[offset + cut..];
        ghost var log := bridge.device.log;
        AheadOnce(log, wire[offset..], number, size, whole);
        var taken, settled, statuses := SendBlock(number, block, DNLOAD_IDLE, {DNLOAD_SYNC, DNLOAD_BUSY});
        if settled.Err? {
          return Some(settled.error), blocks;
        }
        PolledOnceMore(old(bridge.device).polls, blocks, BlockReport(number, cut, statuses));
        blocks := blocks + [BlockReport(number, cut, statuses)];
        ReportedOnceMore(blocks, log[|before|..], Block(number, block));
        PacksOnceMore(log[|before|..], Block(number, block));
        assert bridge.device.log[|before|..] == log[|before|..] + [Block(number, block)];
        number, offset := number + 1, offset + cut;
      }
      AheadOnce(bridge.device.log, wire[offset..], number, size, whole);
      PlanDone(before, bridge.device.log, blocks, wire, size);
    }

    method Transfer(wire: Buffer, size: nat) returns (raised: Option<string>, report: UploadReport)
      requires bridge.incoming == [] && size > 0
      modifies bridge
      ensures bridge.device.OnlyUploads(old(bridge.device))
      ensures var before := old(bridge.device);
              || bridge.device.resets == before.resets
              || (report.complete && bridge.device.resets == before.resets + [|bridge.device.log|])
      ensures report.reset ==> bridge.device.resets == old(bridge.device).resets + [|bridge.device.log|]
      ensures old(bridge.device.log) <= bridge.device.log <= old(bridge.device.log) + Downloads(wire, size)
      ensures raised.None? ==> report.complete && report.reset
      ensures report.complete ==>
                && bridge.device.log == old(bridge.device.log) + Downloads(wire, size)
                && Packs(Downloads(wire, size))
                && |report.blocks| + 1 == |Downloads(wire, size)|
                && Reported(report.blocks, Downloads(wire, size)[..|report.blocks|])
                && Settled(report.manifest, WAIT_RESET, {MANIFEST_SYNC, MANIFEST})
                && bridge.device.polls == old(bridge.device).polls + Polled(report.blocks) + report.manifest
                && bridge.device.stalled == old(bridge.device).stalled
                && bridge.device.address == 1 && bridge.device.configuration == 1
                && Introduced(old(bridge.device).described, bridge.device.described)
    {
      hide Downloads, Settled, Reported, Polls, Packs, BlockCount, Polled, Recorded;
      raised, report := None, UploadReport([], [], false, false);
      ghost var before := bridge.device.log;
      NothingPlanned(before, Downloads(wire, size));
      var initial := Enumerate();
      if initial.Err? {
        return Some(initial.error), report;
      }
      if initial.value != DFU_IDLE {
        return Some("DFU upload requires idle state 2"), report;
      }
      var blocks;
      raised, blocks := SendBlocks(wire, size);
      report := report.(blocks := blocks);
      if raised.Some? {
        return;
      }
      ghost var log := bridge.device.log;
      ClosingNumber(wire, size, |blocks|);
      var taken, settled, statuses :=
        SendBlock(BlockCount(|wire|, size), [], WAIT_RESET, {MANIFEST_SYNC, MANIFEST});
      if settled.Err? {
        return Some(settled.error), report;
      }
      PacksOnceMore(log[|before|..], Block(|blocks|, []));
      report := report.(manifest := statuses);
      var final := DfuState();
      if final.Err? {
        return Some(final.error), report;
      }
      report := report.(complete := final.value == WAIT_RESET);
      if !report.complete {
        return Some("DFU manifestation did not reach state 8"), report;
      }
      var answer := Exchange(2, []);
      if answer.Err? {
        return Some(answer.error), report;
      }
      if answer.value.kind != 4 || answer.value.endpoint != 0 || answer.value.data != [] {
        return Some("unexpected USB reset response"), report;
      }
      report := report.(reset := true);
    }
  }

  lemma ReplyBound(reply: Packet, kind: Byte, data: Buffer, before: Device, after: Device)
    requires GuestStep(before, Packet(kind, 0, data), after, reply)
    ensures |reply.data| + 2 < 0x1_0000_0000
  {
  }

  lemma PacksOnceMore(blocks: seq<Block>, block: Block)
    requires Packs(blocks) && Download(block.number, block.data).Fits()
    ensures Packs(blocks + [block])
  {
    var more := blocks + [block];
    assert forall i | 0 <= i < |blocks| :: more[i] == blocks[i];
  }

  /** The number the uploader computes for the closing block is the number of blocks it has sent. */
  lemma ClosingNumber(wire: Buffer, size: nat, number: nat)
    requires size > 0 && |Downloads(wire, size)| == number + 1
    ensures BlockCount(|wire|, size) == number
  {
    ScheduleCarries(wire, 0, size);
  }

  /**
   * Both ends of the accepted range of block sizes are of no use for a large image: single bytes run
   * out of block numbers, and a block of 65536 bytes has a length that does not pack.
   */
  lemma RangeEndsNeverComplete(image: Buffer)
    requires |image| >= 0x1_0000
    ensures !Packs(Downloads(Wire(image), 1)) && !Packs(Downloads(Wire(image), 64 * 1024))
  {
    hide Packs, Downloads, DfuSuffix;
    SuffixClosesRegister(image, [0, 0, 0, 0]);
    DownloadsPack(Wire(image), 1);
    DownloadsPack(Wire(image), 64 * 1024);
  }
}
