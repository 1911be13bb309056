/**
 * The CRC-32 of section 8 of RFC 1952 and the DFU file suffix of appendix B of the USB DFU 1.1
 * specification, as the three upload paths build it.
 */
module Crc32 {
  import opened Bytes

  const POLYNOMIAL: nat := 0xEDB88320
  const ALL_ONES: nat := 0xFFFF_FFFF
  const WORD: nat := 0x1_0000_0000

  /** bcdDevice, idProduct, idVendor, bcdDFU, "UFD" and bLength, in file order. */
  const SUFFIX: Buffer := [0xFF, 0xFF, 0xFF, 0xFF, 0xAC, 0x05, 0x00, 0x01, 0x55, 0x46, 0x44, 0x10]

  function Xor(a: nat, b: nat): nat {
    if a == 0 && b == 0 then 0 else (a % 2 + b % 2) % 2 + 2 * Xor(a / 2, b / 2)
  }

  /** One bit of the register. */
  function Shift(r: nat): nat {
    if r % 2 == 1 then Xor(r / 2, POLYNOMIAL) else r / 2
  }

  function Shifts(r: nat, k: nat): nat
    decreases k
  {
    if k == 0 then r else Shifts(Shift(r), k - 1)
  }

  /** One byte of the register. */
  function Step(r: nat, b: Byte): nat { Shifts(Xor(r, b), 8) }

  function Register(r: nat, s: Buffer): nat
    decreases |s|
  {
    if s == [] then r else Register(Step(r, s[0]), s[1..])
  }

  /** zlib.crc32(s): the register starts at all ones and is inverted at the end. */
  function Crc(s: Buffer): nat { Xor(Register(ALL_ONES, s), ALL_ONES) }

  /** The sixteen bytes appended to a DFU image. */
  function DfuSuffix(image: Buffer): Buffer {
    SUFFIX + ToLE(Xor(Crc(image + SUFFIX), ALL_ONES), 4)
  }

  // Exclusive or is an abelian group in which every element is its own inverse.

  lemma {:induction false} XorSelf(a: nat)
    ensures Xor(a, a) == 0
  {
    if a > 0 {
      XorSelf(a / 2);
    }
  }

  lemma {:induction false} XorZero(a: nat)
    ensures Xor(a, 0) == a && Xor(0, a) == a
  {
    if a > 0 {
      XorZero(a / 2);
    }
  }

  lemma {:induction false} XorCommutes(a: nat, b: nat)
    ensures Xor(a, b) == Xor(b, a)
  {
    if a > 0 || b > 0 {
      XorCommutes(a / 2, b / 2);
    }
  }

  lemma XorBits(a: nat, b: nat)
    ensures Xor(a, b) % 2 == (a % 2 + b % 2) % 2
    ensures Xor(a, b) / 2 == Xor(a / 2, b / 2)
  {
  }

  lemma {:induction false} XorAssociates(a: nat, b: nat, c: nat)
    ensures Xor(Xor(a, b), c) == Xor(a, Xor(b, c))
  {
    hide Xor;
    if a == 0 && b == 0 && c == 0 {
      XorZero(0);
    } else {
      XorAssociates(a / 2, b / 2, c / 2);
      XorBits(a, b);
      XorBits(b, c);
      XorBits(Xor(a, b), c);
      XorBits(a, Xor(b, c));
    }
  }

  lemma {:induction false} XorBound(a: nat, b: nat, k: nat)
    requires a < Pow2(k) && b < Pow2(k)
    ensures Xor(a, b) < Pow2(k)
    decreases k
  {
    if k > 0 {
      XorBound(a / 2, b / 2, k - 1);
      XorBits(a, b);
    }
  }

  /** The top bit of the result is set when exactly one argument has it. */
  lemma {:induction false} XorTopBit(a: nat, b: nat, k: nat)
    requires a < Pow2(k) <= b < 2 * Pow2(k)
    ensures Pow2(k) <= Xor(a, b) < 2 * Pow2(k)
    decreases k
  {
    XorBits(a, b);
    if k > 0 {
      XorTopBit(a / 2, b / 2, k - 1);
    } else {
      XorZero(b / 2);
    }
  }

  lemma XorCancels(a: nat, b: nat)
    ensures Xor(Xor(a, b), b) == a
  {
    XorAssociates(a, b, b);
    XorSelf(b);
    XorZero(a);
  }

  lemma DoublePower(n: nat, k: nat)
    requires k > 0
    ensures n * Pow2(k) == 2 * (n * Pow2(k - 1))
  {
  }

  /** Low bits and high bits that do not overlap add. */
  lemma {:induction false} XorDisjoint(high: nat, low: nat, k: nat)
    requires low < Pow2(k)
    ensures Xor(high * Pow2(k), low) == high * Pow2(k) + low
    decreases k
  {
    hide Xor;
    if k == 0 {
      XorZero(high);
    } else {
      var h := high * Pow2(k - 1);
      DoublePower(high, k);
      XorDisjoint(high, low / 2, k - 1);
      XorBits(2 * h, low);
    }
  }

  lemma Pow2Values()
    ensures Pow2(8) == 256 && Pow2(31) == 0x8000_0000 && Pow2(32) == WORD
  {
    assert Pow2(8) == 256;
    assert Pow2(16) == 256 * Pow2(8);
    assert Pow2(24) == 256 * Pow2(16);
    assert Pow2(31) == 128 * Pow2(24);
  }

  // The register over the four bytes of its own value.

  lemma ShiftBound(r: nat)
    requires r < WORD
    ensures Shift(r) < WORD
    ensures Shift(r) < WORD / 2 <==> r % 2 == 0
  {
    Pow2Values();
    if r % 2 == 1 {
      XorTopBit(r / 2, POLYNOMIAL, 31);
    }
  }

  lemma {:induction false} ShiftsBound(r: nat, k: nat)
    requires r < WORD
    ensures Shifts(r, k) < WORD
    decreases k
  {
    if k > 0 {
      ShiftBound(r);
      ShiftsBound(Shift(r), k - 1);
    }
  }

  lemma StepBound(r: nat, b: Byte)
    requires r < WORD
    ensures Xor(r, b) < WORD && Step(r, b) < WORD
  {
    Pow2Values();
    XorBound(r, b, 32);
    ShiftsBound(Xor(r, b), 8);
  }

  lemma {:induction false} RegisterBound(r: nat, s: Buffer)
    requires r < WORD
    ensures Register(r, s) < WORD
    decreases |s|
  {
    if s != [] {
      StepBound(r, s[0]);
      RegisterBound(Step(r, s[0]), s[1..]);
    }
  }

  lemma {:induction false} RegisterAppend(r: nat, s: Buffer, t: Buffer)
    ensures Register(r, s + t) == Register(Register(r, s), t)
    decreases |s|
  {
    if s == [] {
      assert s + t == t;
    } else {
      RegisterAppend(Step(r, s[0]), s[1..], t);
      assert (s + t)[1..] == s[1..] + t;
    }
  }

  /** Shifting out k zero bits divides by 2^k. */
  lemma {:induction false} ShiftOutZeros(r: nat, k: nat)
    ensures Shifts(r * Pow2(k), k) == r
    decreases k
  {
    if k > 0 {
      DoublePower(r, k);
      ShiftOutZeros(r, k - 1);
    }
  }

  /** A small result means that only zero bits were shifted out. */
  lemma {:induction false} OnlyZerosShiftedOut(r: nat, k: nat)
    requires r < WORD && Shifts(r, k) * Pow2(k) < WORD
    ensures r == Shifts(r, k) * Pow2(k)
    decreases k
  {
    if k > 0 {
      var next, out := Shift(r), Shifts(r, k);
      DoublePower(out, k);
      ShiftBound(r);
      OnlyZerosShiftedOut(next, k - 1);
    }
  }

  /** For a result below 2^24, the byte is the low byte of the register and the rest moved down. */
  lemma StepToSmall(r: nat, b: Byte, next: nat)
    requires r < WORD && next < WORD / 256
    ensures Step(r, b) == next <==> r == 256 * next + b
  {
    Pow2Values();
    XorDisjoint(next, b, 8);
    if r == 256 * next + b {
      XorCancels(next * 256, b);
      ShiftOutZeros(next, 8);
    }
    if Step(r, b) == next {
      StepBound(r, b);
      OnlyZerosShiftedOut(Xor(r, b), 8);
      XorCancels(r, b);
    }
  }

  /** Exactly one tail drives the register to zero: the register's own value, low byte first. */
  lemma {:induction false} RegisterZero(r: nat, tail: Buffer)
    requires r < WORD && |tail| <= 4
    ensures Register(r, tail) == 0 <==> r == FromLE(tail)
    decreases |tail|
  {
    if tail != [] {
      var rest := tail[1..];
      StepBound(r, tail[0]);
      RegisterZero(Step(r, tail[0]), rest);
      FromLEBound(rest);
      Pow256Monotone(|rest|, 3);
      Pow256Values();
      assert Pow256(4) == 256 * Pow256(3);
      StepToSmall(r, tail[0], FromLE(rest));
    }
  }

  /**
   * The register over the whole uploaded file ends at zero, and no other four closing bytes
   * would bring it there.
   */
  lemma SuffixClosesRegister(image: Buffer, tail: Buffer)
    requires |tail| == 4
    ensures |DfuSuffix(image)| == 16
    ensures Register(ALL_ONES, image + DfuSuffix(image)) == 0
    ensures Register(ALL_ONES, image + SUFFIX + tail) == 0 <==> SUFFIX + tail == DfuSuffix(image)
  {
    hide Xor, Register, Step, Shifts, ToLE, FromLE;
    var covered := image + SUFFIX;
    var r := Register(ALL_ONES, covered);
    RegisterBound(ALL_ONES, covered);
    XorCancels(r, ALL_ONES);
    var own := ToLE(r, 4);
    assert DfuSuffix(image) == SUFFIX + own;
    assert image + DfuSuffix(image) == covered + own;
    Pow256Values();
    FromLEToLE(r, 4);
    RegisterAppend(ALL_ONES, covered, own);
    RegisterZero(r, own);
    RegisterAppend(ALL_ONES, covered, tail);
    RegisterZero(r, tail);
    ToLEFromLE(tail);
    assert (SUFFIX + tail)[12..] == tail && (SUFFIX + own)[12..] == own;
  }

  // What the check detects.

  lemma ShiftInjective(a: nat, b: nat)
    requires a < WORD && b < WORD && Shift(a) == Shift(b)
    ensures a == b
  {
    ShiftBound(a);
    ShiftBound(b);
    XorCancels(a / 2, POLYNOMIAL);
    XorCancels(b / 2, POLYNOMIAL);
  }

  lemma {:induction false} ShiftsInjective(a: nat, b: nat, k: nat)
    requires a < WORD && b < WORD && Shifts(a, k) == Shifts(b, k)
    ensures a == b
    decreases k
  {
    if k > 0 {
      ShiftBound(a);
      ShiftBound(b);
      ShiftsInjective(Shift(a), Shift(b), k - 1);
      ShiftInjective(a, b);
    }
  }

  /** Different bytes, or different registers, stay different. */
  lemma StepInjective(q: nat, r: nat, a: Byte, b: Byte)
    requires q < WORD && r < WORD && Step(q, a) == Step(r, b)
    ensures q == r <==> a == b
  {
    StepBound(q, a);
    StepBound(r, b);
    ShiftsInjective(Xor(q, a), Xor(r, b), 8);
    XorCancels(q, a);
    XorCancels(r, b);
    XorCommutes(q, a);
    XorCommutes(r, b);
    XorCancels(a, q);
    XorCancels(b, r);
  }

  lemma {:induction false} RegisterInjective(q: nat, r: nat, s: Buffer)
    requires q < WORD && r < WORD && Register(q, s) == Register(r, s)
    ensures q == r
    decreases |s|
  {
    if s != [] {
      StepBound(q, s[0]);
      StepBound(r, s[0]);
      RegisterInjective(Step(q, s[0]), Step(r, s[0]), s[1..]);
      StepInjective(q, r, s[0], s[0]);
    }
  }

  /** Any one byte of the uploaded file that is changed leaves a register other than zero. */
  lemma ChangedByteDetected(image: Buffer, at: nat, b: Byte)
    requires at < |image| + 16
    ensures var wire := image + DfuSuffix(image);
            |wire| == |image| + 16
            && (wire[at] != b ==> Register(ALL_ONES, wire[at := b]) != 0)
  {
    SuffixClosesRegister(image, [0, 0, 0, 0]);
    var wire := image + DfuSuffix(image);
    var r := Register(ALL_ONES, wire[..at]);
    RegisterBound(ALL_ONES, wire[..at]);
    RegisterFrom(wire, at);
    RegisterFrom(wire[at := b], at);
    assert wire[at := b][..at] == wire[..at] && wire[at := b][at + 1..] == wire[at + 1..];
    StepBound(r, wire[at]);
    StepBound(r, b);
    if Register(ALL_ONES, wire[at := b]) == 0 {
      RegisterInjective(Step(r, wire[at]), Step(r, b), wire[at + 1..]);
      StepInjective(r, r, wire[at], b);
    }
  }

  lemma RegisterFrom(s: Buffer, at: nat)
    requires at < |s|
    ensures Register(ALL_ONES, s) == Register(Step(Register(ALL_ONES, s[..at]), s[at]), s[at + 1..])
  {
    assert s == s[..at] + s[at..];
    assert s[at..][1..] == s[at + 1..];
    RegisterAppend(ALL_ONES, s[..at], s[at..]);
  }

  // The table-driven form of the RFC's sample code steps a whole byte at a time.

  /** The register of the table-driven form: the entry of one byte, and the rest moved down. */
  function TableStep(r: nat, b: Byte): nat {
    Xor(Shifts(Xor(r, b) % 256, 8), Xor(r, b) / 256)
  }

  lemma ShiftLinear(a: nat, b: nat)
    ensures Shift(Xor(a, b)) == Xor(Shift(a), Shift(b))
  {
    hide Xor;
    var x, y, p := a / 2, b / 2, POLYNOMIAL;
    XorBits(a, b);
    XorAssociates(x, y, p);
    XorAssociates(x, p, y);
    XorCommutes(y, p);
    if a % 2 == 1 && b % 2 == 1 {
      XorAssociates(Xor(x, p), y, p);
      XorAssociates(x, p, Xor(y, p));
      XorCommutes(p, Xor(y, p));
      XorCancels(y, p);
    }
  }

  lemma {:induction false} ShiftsLinear(a: nat, b: nat, k: nat)
    ensures Shifts(Xor(a, b), k) == Xor(Shifts(a, k), Shifts(b, k))
    decreases k
  {
    if k > 0 {
      ShiftLinear(a, b);
      ShiftsLinear(Shift(a), Shift(b), k - 1);
    }
  }

  lemma TableFormRefines(r: nat, b: Byte)
    ensures TableStep(r, b) == Step(r, b)
  {
    hide Xor, Shifts;
    var x := Xor(r, b);
    Pow2Values();
    XorDisjoint(x / 256, x % 256, 8);
    XorCommutes(x / 256 * 256, x % 256);
    ShiftsLinear(x % 256, x / 256 * 256, 8);
    ShiftOutZeros(x / 256, 8);
  }

  /** Entries of the familiar CRC-32 table; they fix the polynomial and the order of its bits. */
  lemma PublishedEntries()
    ensures Shifts(128, 8) == 0xEDB88320 && Shifts(64, 8) == 0x76DC4190 && Shifts(32, 8) == 0x3B6E20C8
    ensures Shifts(16, 8) == 0x1DB71064 && Shifts(8, 8) == 0x0EDB8832 && Shifts(4, 8) == 0x076DC419
  {
    hide Xor;
    XorZero(POLYNOMIAL);
    assert Shift(1) == POLYNOMIAL;
    var one := POLYNOMIAL;
    assert Shifts(128, 8) == Shifts(16, 5) == Shifts(2, 2) == Shifts(1, 1) == Shifts(one, 0);
    assert Shifts(64, 8) == Shifts(8, 5) == Shifts(1, 2) == Shifts(one, 1);
    assert Shifts(32, 8) == Shifts(4, 5) == Shifts(1, 3) == Shifts(one, 2);
    assert Shifts(16, 8) == Shifts(2, 5) == Shifts(1, 4) == Shifts(one, 3);
    assert Shifts(8, 8) == Shifts(1, 5) == Shifts(one, 4) == Shifts(one / 4, 2);
    assert Shifts(4, 8) == Shifts(1, 6) == Shifts(one, 5) == Shifts(one / 8, 2);
  }
}
