/**
 * The framed byte stream between host and guest, and the guest behind it: a DFU device after
 * section 6.1 and appendix A of the USB DFU 1.1 specification, which is free to stall, to answer
 * other requests with anything and to take its time.
 */
module UsbBridge {
  import opened Bytes

  /** One transfer. Host packets carry a six-byte header, guest packets a two-byte one. */
  datatype Packet = Packet(kind: Byte, endpoint: Byte, data: Buffer)

  function HostFrame(p: Packet): Buffer {
    ToLE(6 + |p.data|, 4) + (ToLE(|p.data|, 4) + [p.endpoint, p.kind]) + p.data
  }

  function GuestFrame(p: Packet): Buffer {
    ToLE(2 + |p.data|, 4) + [p.kind, p.endpoint] + p.data
  }

  /** What the bridge makes of the bytes of one host write. */
  function ReadHostFrame(s: Buffer): Option<Packet> {
    if |s| < 10 || FromLE(s[..4]) != |s| - 4 || FromLE(s[4..8]) != |s| - 10 then None
    else Some(Packet(s[9], s[8], s[10..]))
  }

  lemma HostFrameReadsBack(p: Packet)
    requires |p.data| + 6 < 0x1_0000_0000
    ensures ReadHostFrame(HostFrame(p)) == Some(p)
  {
    hide ToLE, FromLE, Pow256;
    var s := HostFrame(p);
    var size, count := ToLE(6 + |p.data|, 4), ToLE(|p.data|, 4);
    Pow256Values();
    FromLEToLE(6 + |p.data|, 4);
    FromLEToLE(|p.data|, 4);
    assert s[..4] == size && s[4..8] == count && s[8] == p.endpoint && s[9] == p.kind && s[10..] == p.data;
  }

  /** A frame ends where its length says: the bytes after it cannot be mistaken for part of it. */
  lemma GuestFrameUnique(p: Packet, q: Packet, rest: Buffer)
    requires |p.data| + 2 < 0x1_0000_0000 && |q.data| + 2 < 0x1_0000_0000
    requires GuestFrame(p) + rest == GuestFrame(q)
    ensures p == q && rest == []
  {
    hide ToLE, FromLE, Pow256;
    var s := GuestFrame(q);
    var a, b := ToLE(2 + |p.data|, 4), ToLE(2 + |q.data|, 4);
    assert s[..4] == a && s[..4] == b;
    Pow256Values();
    FromLEToLE(2 + |p.data|, 4);
    FromLEToLE(2 + |q.data|, 4);
    assert s[4] == p.kind && s[4] == q.kind && s[5] == p.endpoint && s[5] == q.endpoint;
    assert s[6..] == p.data + rest && s[6..] == q.data;
  }

  lemma GuestFrameLength(p: Packet)
    requires |p.data| + 2 < 0x1_0000_0000
    ensures |GuestFrame(p)| >= 4 && FromLE(GuestFrame(p)[..4]) == |p.data| + 2
  {
    hide ToLE, FromLE, Pow256;
    Pow256Values();
    FromLEToLE(2 + |p.data|, 4);
    assert GuestFrame(p)[..4] == ToLE(2 + |p.data|, 4);
  }

  /** The setup stage of a control transfer: section 9.3 of the USB 2.0 specification. */
  datatype Request = Request(kind: int, code: int, value: int, index: int, length: int) {
    /** The fields fit the eight bytes of a setup packet. */
    predicate Fits() {
      && 0 <= kind < 256 && 0 <= code < 256
      && 0 <= value <= 0xFFFF && 0 <= index <= 0xFFFF && 0 <= length <= 0xFFFF
    }

    /** Bit 7 of bmRequestType, for a request that fits. */
    predicate Incoming() { kind >= 0x80 }

    function Setup(): Buffer
      requires Fits()
    {
      [kind, code] + ToLE(value, 2) + ToLE(index, 2) + ToLE(length, 2)
    }
  }

  function ReadSetup(s: Buffer): Request
    requires |s| == 8
  {
    Request(s[0], s[1], FromLE(s[2..4]), FromLE(s[4..6]), FromLE(s[6..8]))
  }

  lemma SetupReadsBack(r: Request, data: Buffer)
    requires r.Fits()
    ensures var s := r.Setup() + data;
            |s| == 8 + |data| && ReadSetup(s[..8]) == r && s[8..] == data
  {
    hide ToLE, FromLE, Pow256;
    var s := r.Setup();
    Pow256Values();
    FromLEToLE(r.value, 2);
    FromLEToLE(r.index, 2);
    FromLEToLE(r.length, 2);
    assert s[2..4] == ToLE(r.value, 2) && s[4..6] == ToLE(r.index, 2) && s[6..8] == ToLE(r.length, 2);
    assert (s + data)[..8] == s && (s + data)[8..] == data;
  }

  /** The requests that fit are those some eight bytes stand for. */
  lemma FitsExactly(r: Request)
    ensures r.Fits() <==> exists s: Buffer | |s| == 8 :: ReadSetup(s) == r
  {
    hide ToLE, FromLE;
    if r.Fits() {
      SetupReadsBack(r, []);
      assert r.Setup() + [] == r.Setup() == r.Setup()[..8];
      assert ReadSetup(r.Setup()) == r;
    }
    if s: Buffer :| |s| == 8 && ReadSetup(s) == r {
      Pow256Values();
      FromLEBound(s[2..4]);
      FromLEBound(s[4..6]);
      FromLEBound(s[6..8]);
    }
  }

  // Requests of the protocol.

  function Download(number: int, data: Buffer): Request { Request(0x21, 1, number, 0, |data|) }

  const GET_STATUS := Request(0xA1, 3, 0, 0, 6)
  const GET_STATE := Request(0xA1, 5, 0, 0, 1)

  /** One DFU_DNLOAD the device took: wBlockNum and the data stage. */
  datatype Block = Block(number: int, data: Buffer)

  /** One thing the recovery mode took: a write to its bulk endpoint, or a command. */
  datatype Taken = Write(data: Buffer) | Command(request: int, text: Buffer)

  /** One DFU_GETSTATUS: section 6.1.2 of the USB DFU 1.1 specification. */
  datatype Status = Status(status: nat, poll: nat, state: nat, index: nat) {
    predicate Fits() { status < 256 && poll < 0x100_0000 && state < 256 && index < 256 }

    function Bytes(): Buffer
      requires Fits()
    {
      [status] + ToLE(poll, 3) + [state, index]
    }
  }

  lemma StatusReadsBack(s: Status)
    requires s.Fits()
    ensures var b := s.Bytes();
            |b| == 6 && s == Status(b[0], FromLE(b[1..4]), b[4], b[5])
  {
    hide ToLE, FromLE;
    Pow256Values();
    FromLEToLE(s.poll, 3);
    assert s.Bytes()[1..4] == ToLE(s.poll, 3);
  }

  /** One GET_DESCRIPTOR the device answered. */
  datatype Described = Described(request: Request, data: Buffer)

  /**
   * The device: its DFU state and status, and everything that has happened to it, in order. It keeps
   * every block it took and every one it stalled, what its recovery mode took and which commands it
   * refused, the status it answered to each poll, the descriptors it sent, its address and the
   * configuration that was selected. Each USB reset is kept as the number of blocks it had taken by
   * then, and each request to begin an upload as the number of things its recovery mode had taken.
   */
  datatype Device = Device(
    state: nat, status: nat, log: seq<Block>, stalled: seq<Block>, restore: seq<Taken>, refused: seq<Taken>,
    polls: seq<Status>, described: seq<Described>, address: int, configuration: int, resets: seq<nat>, begun: seq<nat>)
  {
    /** But for its state nothing about it differs from d. */
    predicate Keeps(d: Device) { this == d.(state := state, status := status) }

    /** Nothing has happened to it since d but polls. */
    predicate OnlyPolled(d: Device) { d.polls <= polls && Keeps(d.(polls := polls)) }

    /** Nothing has happened to it since d but that its recovery mode began uploads and took something. */
    predicate OnlyRestores(d: Device) {
      d.restore <= restore && d.begun <= begun && Keeps(d.(restore := restore, begun := begun))
    }

    /** No download has reached it since d. */
    predicate DownloadsKept(d: Device) { log == d.log && stalled == d.stalled }

    /** Nothing has happened to it since d but that it sent descriptors and was addressed and configured. */
    predicate Enumerated(d: Device) {
      && d.described <= described
      && Keeps(d.(described := described, address := address, configuration := configuration))
    }

    /** Nothing has happened to it since d but polls and downloads. */
    predicate OnlyDownloads(d: Device) {
      d.polls <= polls && d.log <= log && d.stalled <= stalled
      && Keeps(d.(polls := polls, log := log, stalled := stalled))
    }

    /** Nothing has happened to it since d but polls, downloads and resets. */
    predicate OnlyTransfers(d: Device) {
      && d.polls <= polls && d.log <= log && d.stalled <= stalled && d.resets <= resets
      && Keeps(d.(polls := polls, log := log, stalled := stalled, resets := resets))
    }

    /** Nothing has happened to it since d but enumeration, polls, downloads and resets. */
    predicate OnlyUploads(d: Device) {
      && d.described <= described
      && OnlyTransfers(d.(described := described, address := address, configuration := configuration))
    }
  }

  lemma KeptThenRestored(d: Device, e: Device, f: Device)
    ensures d.Keeps(d) && d.OnlyRestores(d)
    ensures e.OnlyRestores(d) && f.OnlyRestores(e) ==> f.OnlyRestores(d)
  {
  }

  const DFU_IDLE: nat := 2
  const DNLOAD_SYNC: nat := 3
  const DNLOAD_BUSY: nat := 4
  const DNLOAD_IDLE: nat := 5
  const MANIFEST_SYNC: nat := 6
  const MANIFEST: nat := 7
  const WAIT_RESET: nat := 8
  const DFU_ERROR: nat := 10

  /** The states a DFU_GETSTATUS may report next, timeouts between two polls included. */
  predicate Polls(before: nat, after: nat) {
    || after == DFU_ERROR
    || (before in {DNLOAD_SYNC, DNLOAD_BUSY} && after in {DNLOAD_SYNC, DNLOAD_BUSY, DNLOAD_IDLE})
    || (before in {MANIFEST_SYNC, MANIFEST} && after in {DFU_IDLE, MANIFEST_SYNC, MANIFEST, WAIT_RESET})
    || before == after
  }

  /** A download is taken in dfuIDLE (never empty) and dfuDNLOAD-IDLE; an empty one starts manifestation. */
  predicate Takes(before: Device, number: int, data: Buffer, after: Device) {
    && (before.state == DNLOAD_IDLE || (before.state == DFU_IDLE && data != []))
    && after == before.(state := if data == [] then MANIFEST_SYNC else DNLOAD_SYNC,
                        log := before.log + [Block(number, data)])
  }

  /** A completed control transfer on endpoint 0, answering with the data stage `answer`. */
  predicate Completes(before: Device, r: Request, data: Buffer, after: Device, answer: Buffer) {
    if r.kind == 0xA1 && r.code == 5 then
      after == before && |answer| == 1 && answer[0] == before.state
    else if r.kind == 0xA1 && r.code == 3 then
      && |after.polls| == |before.polls| + 1
      && var s := after.polls[|before.polls|];
      && s.Fits() && answer == s.Bytes() && s.status == after.status && s.state == after.state
      && Polls(before.state, after.state) && after.Keeps(before.(polls := before.polls + [s]))
    else if r.kind == 0x21 && r.code == 1 then
      answer == [] && Takes(before, r.value, data, after)
    else if r.kind == 0x40 then
      after.Keeps(before.(restore := before.restore + [Command(r.code, data)]))
    else if r.kind == 0x41 && r.code == 0 then
      after.Keeps(before.(begun := before.begun + [|before.restore|]))
    else if r.kind == 0x80 && r.code == 6 then
      after.Keeps(before.(described := before.described + [Described(r, answer)]))
    else if r.kind == 0x00 && r.code == 5 then
      after.Keeps(before.(address := r.value))
    else if r.kind == 0x00 && r.code == 9 then
      after.Keeps(before.(configuration := r.value))
    else
      after.Keeps(before)
  }

  /** A control transfer the device stalled. */
  predicate Stalls(before: Device, r: Request, data: Buffer, after: Device) {
    if r.kind == 0x40 then after.Keeps(before.(refused := before.refused + [Command(r.code, data)]))
    else if r.kind == 0x21 && r.code == 1 then
      after.Keeps(before.(stalled := before.stalled + [Block(r.value, data)]))
    else after.Keeps(before)
  }

  /** Every answer the guest may give to one packet of the host. None is longer than a data stage. */
  predicate GuestStep(before: Device, p: Packet, after: Device, reply: Packet) {
    && |reply.data| <= 0xFFFF
    && if p.kind == 1 && p.endpoint == 0 && |p.data| >= 8 then
         var r, data := ReadSetup(p.data[..8]), p.data[8..];
         if reply.kind == 2 then Stalls(before, r, data, after)
         else reply.kind == 1 && reply.endpoint == 0 && Completes(before, r, data, after, reply.data)
       else if reply.kind == 2 then
         after.Keeps(before)
       else if p.kind == 2 && p.endpoint == 0 && reply.kind == 4 then
         after.Keeps(before.(resets := before.resets + [|before.log|]))
       else if p.kind == 1 && p.endpoint == 4 then
         && reply.kind == 1 && reply.endpoint == 4
         && after.Keeps(before.(restore := before.restore + [Write(p.data)]))
       else
         after.Keeps(before)
  }

  /** What one control transfer may do to the device, however it ends for the host. */
  ghost predicate Affects(before: Device, r: Request, data: Buffer, after: Device) {
    || Stalls(before, r, data, after)
    || after.Keeps(before)
    || exists answer :: Completes(before, r, data, after, answer)
  }

  lemma SomeAnswer(before: Device, p: Packet)
    ensures exists after, reply :: GuestStep(before, p, after, reply)
  {
    if p.kind == 1 && p.endpoint == 0 && |p.data| >= 8 {
      var r, data := ReadSetup(p.data[..8]), p.data[8..];
      var after := if r.kind == 0x40 then before.(refused := before.refused + [Command(r.code, data)])
                   else if r.kind == 0x21 && r.code == 1 then
                     before.(stalled := before.stalled + [Block(r.value, data)])
                   else before;
      assert GuestStep(before, p, after, Packet(2, 0, []));
    } else {
      assert GuestStep(before, p, before, Packet(2, 0, []));
    }
  }

  lemma AnswerIsShort(before: Device, p: Packet, after: Device, reply: Packet)
    requires GuestStep(before, p, after, reply)
    ensures |reply.data| <= 0xFFFF
  {
  }

  /**
   * The socket and the guest at its other end. How many bytes one read returns, when a call times
   * out, how far the clock moves and which of its answers the guest gives are all left open.
   */
  class Bridge {
    var device: Device
    var incoming: Buffer
    var clock: int
    /** Once the connection is closed it stays so. */
    var closed: bool

    /** time.monotonic(), in milliseconds */
    method Now() returns (now: int)
      modifies `clock
      ensures old(clock) <= clock == now
    {
      var passed: nat :| true;
      clock := clock + passed;
      now := clock;
    }

    method Sleep(milliseconds: nat)
      modifies `clock
      ensures old(clock) + milliseconds <= clock
    {
      var passed: nat :| passed >= milliseconds;
      clock := clock + passed;
    }

    /** recv(limit): None is a timeout, no bytes at all an orderly close. */
    method Recv(limit: nat) returns (chunk: Option<Buffer>)
      modifies `incoming, `clock, `closed
      ensures old(clock) <= clock && (old(closed) ==> closed)
      ensures chunk.None? ==> incoming == old(incoming)
      ensures chunk.Some? ==> |chunk.value| <= limit && chunk.value + incoming == old(incoming)
      ensures chunk == Some([]) ==> closed
    {
      var passed: nat :| true;
      clock := clock + passed;
      var dropped := *;
      closed := closed || dropped;
      if * {
        chunk := None;
      } else if closed || incoming == [] || limit == 0 {
        closed := true;
        chunk := Some([]);
      } else {
        var k: nat :| 0 < k && k <= limit && k <= |incoming|;
        chunk := Some(incoming[..k]);
        incoming := incoming[k..];
      }
    }

    /** sendall(frame) of one whole frame, and what the guest does with it. */
    method SendAll(frame: Buffer) returns (sent: bool, ghost reply: Packet)
      modifies this
      ensures old(clock) <= clock
      ensures !sent ==> device == old(device) && incoming == old(incoming)
      ensures closed == old(closed) && (sent ==> !closed)
      ensures sent && ReadHostFrame(frame).Some? ==>
                && GuestStep(old(device), ReadHostFrame(frame).value, device, reply)
                && incoming == old(incoming) + GuestFrame(reply)
    {
      var passed: nat :| true;
      clock := clock + passed;
      sent := *;
      sent := sent && !closed;
      reply := Packet(2, 0, []);
      if sent {
        match ReadHostFrame(frame)
        case None =>
        case Some(p) =>
          SomeAnswer(device, p);
          var after, answer :| GuestStep(device, p, after, answer);
          device, incoming, reply := after, incoming + GuestFrame(answer), answer;
      }
    }
  }
}
