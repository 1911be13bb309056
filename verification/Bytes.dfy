/** Byte strings, the fixed-width integer fields the codecs are built from, and the limits they share. */
module Bytes {
  type Byte = x: int | 0 <= x < 256
  type Buffer = seq<Byte>

  datatype Option<+T> = None | Some(value: T)

  /** A value, or the message of the exception that ended the call. */
  datatype Result<+T> = Ok(value: T) | Err(error: string)

  const MAX_U64: nat := 0xFFFF_FFFF_FFFF_FFFF
  const MAX_ELF: nat := 64 * 1024 * 1024
  const MAX_RECOVERY: nat := 512 * 1024 * 1024

  function Min(a: int, b: int): int { if a <= b then a else b }

  function Pow2(k: nat): (p: nat)
    ensures p > 0
  {
    if k == 0 then 1 else 2 * Pow2(k - 1)
  }

  function Pow256(k: nat): (p: nat)
    ensures p > 0
  {
    if k == 0 then 1 else 256 * Pow256(k - 1)
  }

  /** int.from_bytes(s, "little") */
  function FromLE(s: Buffer): nat {
    if s == [] then 0 else s[0] + 256 * FromLE(s[1..])
  }

  /** A little-endian field of k bytes; the precondition is the bound every header read meets. */
  function Field(raw: Buffer, offset: nat, k: nat): nat
    requires offset + k <= |raw|
  {
    FromLE(raw[offset..offset + k])
  }

  /** n.to_bytes(k, "little"), keeping the low k bytes. */
  function ToLE(n: nat, k: nat): (s: Buffer)
    ensures |s| == k
  {
    if k == 0 then [] else [n % 256] + ToLE(n / 256, k - 1)
  }

  /** int.from_bytes(s, "big") */
  function FromBE(s: Buffer): nat {
    if s == [] then 0 else 256 * FromBE(s[..|s| - 1]) + s[|s| - 1]
  }

  /** n.to_bytes(k, "big"), keeping the low k bytes. */
  function ToBE(n: nat, k: nat): (s: Buffer)
    ensures |s| == k
  {
    if k == 0 then [] else ToBE(n / 256, k - 1) + [n % 256]
  }

  lemma {:induction false} FromLEBound(s: Buffer)
    ensures FromLE(s) < Pow256(|s|)
  {
    if s != [] {
      FromLEBound(s[1..]);
    }
  }

  lemma {:induction false} FromLEToLE(n: nat, k: nat)
    requires n < Pow256(k)
    ensures FromLE(ToLE(n, k)) == n
  {
    if k > 0 {
      FromLEToLE(n / 256, k - 1);
      assert ToLE(n, k)[1..] == ToLE(n / 256, k - 1);
    }
  }

  lemma {:induction false} ToLEFromLE(s: Buffer)
    ensures ToLE(FromLE(s), |s|) == s
  {
    if s != [] {
      ToLEFromLE(s[1..]);
      assert FromLE(s) % 256 == s[0] && FromLE(s) / 256 == FromLE(s[1..]);
    }
  }

  lemma {:induction false} FromBEBound(s: Buffer)
    ensures FromBE(s) < Pow256(|s|)
  {
    if s != [] {
      FromBEBound(s[..|s| - 1]);
    }
  }

  lemma {:induction false} FromBEToBE(n: nat, k: nat)
    requires n < Pow256(k)
    ensures FromBE(ToBE(n, k)) == n
  {
    if k > 0 {
      FromBEToBE(n / 256, k - 1);
      assert ToBE(n, k)[..k - 1] == ToBE(n / 256, k - 1);
    }
  }

  lemma {:induction false} ToBEFromBE(s: Buffer)
    ensures ToBE(FromBE(s), |s|) == s
  {
    if s != [] {
      hide FromBE, ToBE;
      var front := s[..|s| - 1];
      ToBEFromBE(front);
      LastDigit(s);
      assert s == front + [s[|s| - 1]];
    }
  }

  lemma LastDigit(s: Buffer)
    requires s != []
    ensures ToBE(FromBE(s), |s|) == ToBE(FromBE(s[..|s| - 1]), |s| - 1) + [s[|s| - 1]]
  {
    var n, front := FromBE(s), FromBE(s[..|s| - 1]);
    assert n == 256 * front + s[|s| - 1];
    assert n / 256 == front && n % 256 == s[|s| - 1];
  }

  /** The first byte decides whether a big-endian number needs all its bytes. */
  lemma {:induction false} FromBELeading(s: Buffer)
    requires |s| > 0
    ensures var first: int := s[0];
            first * Pow256(|s| - 1) <= FromBE(s) < (first + 1) * Pow256(|s| - 1)
  {
    hide FromBE, Pow256;
    var n := |s| - 1;
    OneMoreByte(s);
    if n > 0 {
      FromBELeading(s[..n]);
      TimesByte(s[0], FromBE(s[..n]), s[n], Pow256(n - 1));
    } else {
      NoBytes();
    }
  }

  lemma NoBytes()
    ensures FromBE([]) == 0 && Pow256(0) == 1
  {
  }

  lemma OneMoreByte(s: Buffer)
    requires |s| > 0
    ensures FromBE(s) == 256 * FromBE(s[..|s| - 1]) + s[|s| - 1]
    ensures |s| > 1 ==> Pow256(|s| - 1) == 256 * Pow256(|s| - 2)
  {
  }

  lemma TimesByte(first: int, front: nat, last: Byte, p: nat)
    requires first * p <= front < (first + 1) * p
    ensures first * (256 * p) <= 256 * front + last < (first + 1) * (256 * p)
  {
    assert first * (256 * p) == 256 * (first * p);
    assert (first + 1) * (256 * p) == 256 * ((first + 1) * p);
  }

  lemma {:induction false} Pow256Monotone(j: nat, k: nat)
    requires j <= k
    ensures Pow256(j) <= Pow256(k)
  {
    if j < k {
      Pow256Monotone(j, k - 1);
    }
  }

  lemma Pow256Values()
    ensures Pow256(1) == 0x100 && Pow256(2) == 0x1_0000 && Pow256(4) == 0x1_0000_0000
    ensures Pow256(8) == 0x1_0000_0000_0000_0000
  {
    assert Pow256(2) == 256 * Pow256(1);
    assert Pow256(3) == 256 * Pow256(2);
    assert Pow256(4) == 256 * Pow256(3);
    assert Pow256(5) == 256 * Pow256(4);
    assert Pow256(6) == 256 * Pow256(5);
    assert Pow256(7) == 256 * Pow256(6);
    assert Pow256(8) == 256 * Pow256(7);
  }

  /** int.bit_length() */
  function BitLength(n: nat): nat {
    if n == 0 then 0 else 1 + BitLength(n / 2)
  }

  lemma BitLengthOfHigherBytes(n: nat)
    requires n >= 256
    ensures BitLength(n) == 8 + BitLength(n / 256)
  {
    var n4 := n / 16;
    assert BitLength(n) == 4 + BitLength(n4) by {
      assert n / 2 / 2 == n / 4 && n / 4 / 2 == n / 8 && n / 8 / 2 == n4;
      assert BitLength(n / 2) == 1 + BitLength(n / 4);
      assert BitLength(n / 4) == 1 + BitLength(n / 8);
      assert BitLength(n / 8) == 1 + BitLength(n4);
    }
    assert BitLength(n4) == 4 + BitLength(n / 256) by {
      assert n4 / 2 / 2 == n4 / 4 && n4 / 4 / 2 == n4 / 8 && n4 / 8 / 2 == n / 256;
      assert BitLength(n4 / 2) == 1 + BitLength(n4 / 4);
      assert BitLength(n4 / 4) == 1 + BitLength(n4 / 8);
      assert BitLength(n4 / 8) == 1 + BitLength(n / 256);
    }
  }

  /** (n.bit_length() + 7) // 8 is the smallest number of bytes that holds n. */
  lemma {:induction false} ByteLength(n: nat)
    requires n > 0
    ensures var k := (BitLength(n) + 7) / 8;
            k > 0 && Pow256(k - 1) <= n < Pow256(k)
  {
    if n < 256 {
      assert 1 <= BitLength(n) <= 8 by {
        SmallBitLength(n, 8, 256);
      }
      assert Pow256(1) == 256 * Pow256(0);
    } else {
      BitLengthOfHigherBytes(n);
      ByteLength(n / 256);
      var k := (BitLength(n / 256) + 7) / 8;
      assert (BitLength(n) + 7) / 8 == k + 1;
      assert Pow256(k) == 256 * Pow256(k - 1) && Pow256(k + 1) == 256 * Pow256(k);
    }
  }

  lemma {:induction false} SmallBitLength(n: nat, bits: nat, p: nat)
    requires bits <= 8 && p == [1, 2, 4, 8, 16, 32, 64, 128, 256][bits]
    requires n < p
    ensures BitLength(n) <= bits
    decreases bits
  {
    if bits > 0 && n > 0 {
      SmallBitLength(n / 2, bits - 1, p / 2);
    }
  }

  lemma {:induction false} ByteLengthUnique(n: nat, k: nat)
    requires n > 0 && k > 0 && Pow256(k - 1) <= n < Pow256(k)
    ensures (BitLength(n) + 7) / 8 == k
  {
    ByteLength(n);
    var m := (BitLength(n) + 7) / 8;
    if m < k {
      Pow256Monotone(m, k - 1);
    } else if k < m {
      Pow256Monotone(k, m - 1);
    }
  }

  lemma SliceOfSlice<T>(s: seq<T>, low: nat, high: nat, from: nat, to: nat)
    requires low <= high <= |s| && from <= to <= high - low
    ensures s[low..high][from..to] == s[low + from..low + to]
  {
    var part := s[low..high];
    forall i | 0 <= i < to - from ensures part[from..to][i] == s[low + from..low + to][i] {
      assert part[from..to][i] == part[from + i] == s[low + (from + i)];
    }
  }

  /** Three parts laid one after another can be cut out again. */
  lemma SplitThree<T>(a: seq<T>, b: seq<T>, c: seq<T>)
    ensures var s := a + b + c;
            s[..|a|] == a && s[|a|..|a| + |b|] == b && s[|a| + |b|..] == c
  {
  }
}
