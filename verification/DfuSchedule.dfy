/** The downloads that carry one DFU file: its blocks in order, then one empty block. */
module DfuSchedule {
  import opened Bytes
  import opened UsbBridge

  /** What is still to be sent when `rest` is left of the file and the next block gets `number`. */
  function Schedule(rest: Buffer, number: nat, size: nat): seq<Block>
    requires size > 0
    decreases |rest|
  {
    if rest == [] then
      [Block(number, [])]
    else
      var cut := Min(size, |rest|);
      [Block(number, rest[..cut])] + Schedule(rest[cut..], number + 1, size)
  }

  /** The downloads of a whole file. */
  function Downloads(wire: Buffer, size: nat): seq<Block>
    requires size > 0
  {
    Schedule(wire, 0, size)
  }

  function Joined(blocks: seq<Block>): Buffer {
    if blocks == [] then [] else blocks[0].data + Joined(blocks[1..])
  }

  /** How many blocks of `size` bytes the file takes, the last one possibly shorter. */
  function BlockCount(length: nat, size: nat): nat
    requires size > 0
  {
    (length + size - 1) / size
  }

  lemma OneBlockLess(length: nat, size: nat)
    requires size > 0 && length > 0
    ensures BlockCount(length, size) == 1 + BlockCount(length - Min(size, length), size)
  {
    if size <= length {
      var n := length - 1;
      assert (n + size) / size == n / size + 1 by {
        DivisionStep(n, size);
      }
    } else {
      DivisionStep(length - 1, size);
      SmallDivision(length - 1, size);
      SmallDivision(size - 1, size);
    }
  }

  lemma DivisionStep(n: nat, d: nat)
    requires d > 0
    ensures (n + d) / d == n / d + 1
  {
    var p, q := (n + d) / d, n / d;
    assert n == q * d + n % d && n + d == p * d + (n + d) % d;
    ProductOrder(p, q, d);
  }

  lemma ProductOrder(p: nat, q: nat, d: nat)
    ensures p <= q ==> p * d <= q * d
    ensures p >= q + 2 ==> p * d >= q * d + d + d
  {
    if p >= q + 2 {
      assert p * d == q * d + d + d + (p - q - 2) * d;
    }
  }

  lemma SmallDivision(n: nat, d: nat)
    requires n < d
    ensures n / d == 0
  {
  }

  /**
   * The blocks carry exactly the file, are numbered without a gap and close with the only empty
   * one. The first block is the longest.
   */
  predicate Carries(blocks: seq<Block>, rest: Buffer, number: nat, size: nat)
    requires size > 0
  {
    var count := BlockCount(|rest|, size);
    && |blocks| == count + 1 && Joined(blocks) == rest
    && (forall i | 0 <= i <= count :: blocks[i].number == number + i)
    && (forall i | 0 <= i <= count :: blocks[i].data == [] <==> i == count)
    && |blocks[0].data| == Min(size, |rest|)
    && (forall i | 0 <= i <= count :: |blocks[i].data| <= |blocks[0].data|)
  }

  lemma {:induction false} ScheduleCarries(rest: Buffer, number: nat, size: nat)
    requires size > 0
    ensures Carries(Schedule(rest, number, size), rest, number, size)
    decreases |rest|
  {
    hide Carries;
    if rest == [] {
      JustTheEmptyBlock(number, size);
    } else {
      var cut := Min(size, |rest|);
      ScheduleCarries(rest[cut..], number + 1, size);
      Prepend(Schedule(rest[cut..], number + 1, size), rest, number, size);
    }
  }

  lemma Prepend(tail: seq<Block>, rest: Buffer, number: nat, size: nat)
    requires size > 0 && rest != []
    requires Carries(tail, rest[Min(size, |rest|)..], number + 1, size)
    ensures Carries([Block(number, rest[..Min(size, |rest|)])] + tail, rest, number, size)
  {
    hide BlockCount;
    var cut := Min(size, |rest|);
    var blocks := [Block(number, rest[..cut])] + tail;
    OneBlockLess(|rest|, size);
    assert blocks[1..] == tail;
    assert rest[..cut] + rest[cut..] == rest;
    assert forall i | 1 <= i < |blocks| :: blocks[i] == tail[i - 1];
  }

  lemma JustTheEmptyBlock(number: nat, size: nat)
    requires size > 0
    ensures Carries([Block(number, [])], [], number, size)
  {
    SmallDivision(size - 1, size);
    assert Joined([Block(number, [])][1..]) == [];
  }

  /** The request of every download packs into a setup packet. */
  predicate Packs(blocks: seq<Block>) {
    forall i | 0 <= i < |blocks| :: Download(blocks[i].number, blocks[i].data).Fits()
  }

  /**
   * Exactly when a block size can be used for a file: neither the number of the closing block nor
   * the length of the first one may exceed sixteen bits.
   */
  lemma DownloadsPack(wire: Buffer, size: nat)
    requires size > 0
    ensures Packs(Downloads(wire, size)) <==> BlockCount(|wire|, size) <= 0xFFFF && Min(size, |wire|) <= 0xFFFF
  {
    hide BlockCount, Schedule, Joined;
    var blocks := Downloads(wire, size);
    ScheduleCarries(wire, 0, size);
    var count := BlockCount(|wire|, size);
    if Packs(blocks) {
      assert Download(blocks[count].number, blocks[count].data).Fits();
      assert Download(blocks[0].number, blocks[0].data).Fits();
    }
  }

  /** In blocks of 2048 bytes every file of the size limit fits, with numbers up to 32769. */
  lemma LimitPacks(wire: Buffer)
    requires |wire| <= 64 * 1024 * 1024 + 16
    ensures Packs(Downloads(wire, 2048))
    ensures 0 < |Downloads(wire, 2048)| <= 32770
    ensures |wire| == 64 * 1024 * 1024 + 16 ==>
              |Downloads(wire, 2048)| == 32770 && Downloads(wire, 2048)[32769] == Block(32769, [])
  {
    hide Schedule, Joined;
    DownloadsPack(wire, 2048);
    ScheduleCarries(wire, 0, 2048);
  }

  // The bulk transfer of a recovery image.

  const PIECE: nat := 0x8000
  const PACKET: nat := 512

  /** What is still to be sent; a transfer of full packets only is closed by an empty one. */
  function BulkPlan(rest: Buffer, closed: bool): seq<Taken>
    decreases |rest|
  {
    if rest == [] then
      if closed then [Write([])] else []
    else
      var cut := Min(PIECE, |rest|);
      [Write(rest[..cut])] + BulkPlan(rest[cut..], closed)
  }

  /** The writes of a whole image. */
  function BulkWrites(image: Buffer): seq<Taken> { BulkPlan(image, |image| % PACKET == 0) }

  function Written(pieces: seq<Taken>): Buffer {
    if pieces == [] then []
    else (if pieces[0].Write? then pieces[0].data else []) + Written(pieces[1..])
  }

  /** A write that ends in a packet that is not full, which ends a bulk transfer (section 5.8.3 of USB 2.0). */
  predicate EndsTransfer(piece: Buffer) { |piece| % PACKET != 0 || piece == [] }

  /** The writes hand over exactly these bytes as one transfer: the last write ends it and no other does. */
  predicate OneTransfer(pieces: seq<Taken>, rest: Buffer) {
    && pieces != [] && Written(pieces) == rest
    && forall i | 0 <= i < |pieces| ::
         && pieces[i].Write? && |pieces[i].data| <= PIECE
         && (EndsTransfer(pieces[i].data) <==> i == |pieces| - 1)
  }

  lemma {:induction false} BulkPlanIsOneTransfer(rest: Buffer, closed: bool)
    requires closed <==> |rest| % PACKET == 0
    ensures OneTransfer(BulkPlan(rest, closed), rest)
    decreases |rest|
  {
    hide OneTransfer;
    if |rest| < PIECE {
      LastPieces(rest, closed);
    } else {
      BulkPlanIsOneTransfer(rest[PIECE..], closed);
      PieceBefore(rest[..PIECE], BulkPlan(rest[PIECE..], closed), rest[PIECE..]);
      assert rest[..PIECE] + rest[PIECE..] == rest;
    }
  }

  lemma LastPieces(rest: Buffer, closed: bool)
    requires |rest| < PIECE && (closed <==> |rest| % PACKET == 0)
    ensures OneTransfer(BulkPlan(rest, closed), rest)
  {
    var closing := BulkPlan([], closed);
    assert Written(closing) == [] by {
      if closed {
        assert Written(closing[1..]) == [];
      }
    }
    if rest != [] {
      assert rest[..|rest|] == rest && rest[|rest|..] == [];
      assert BulkPlan(rest, closed) == [Write(rest)] + closing;
      assert BulkPlan(rest, closed)[1..] == closing;
    }
  }

  lemma PieceBefore(piece: Buffer, pieces: seq<Taken>, rest: Buffer)
    requires |piece| == PIECE && OneTransfer(pieces, rest)
    ensures OneTransfer([Write(piece)] + pieces, piece + rest)
  {
    var all := [Write(piece)] + pieces;
    assert all[1..] == pieces;
    assert forall i | 1 <= i < |all| :: all[i] == pieces[i - 1];
  }
}
