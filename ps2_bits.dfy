/** Bit sequences sent least significant bit first, as both directions of the PS/2 link carry them. */
module Ps2Bits {
  import opened Common

  /** The number a sequence of bits stands for when its first bit is the least significant. */
  function FromBits(bs: seq<bool>): (v: nat)
    ensures v < Pow2(|bs|)
    decreases |bs|
  {
    if bs == [] then 0 else (if bs[0] then 1 else 0) + 2 * FromBits(bs[1..])
  }

  /** The `n` low bits of `v`, least significant first. */
  function ToBits(v: nat, n: nat): (bs: seq<bool>)
    ensures |bs| == n
    decreases n
  {
    if n == 0 then [] else [v % 2 == 1] + ToBits(v / 2, n - 1)
  }

  /** The eight data bits of a byte in the order the link carries them. */
  function DataBits(d: Byte): (bs: seq<bool>)
    ensures |bs| == 8
  {
    ToBits(d, 8)
  }

  /** `n` zero bits. */
  function Zeros(n: nat): (bs: seq<bool>)
    ensures |bs| == n
  {
    if n == 0 then [] else [false] + Zeros(n - 1)
  }

  /** Whether a sequence holds an odd number of ones. */
  function OddOnes(bs: seq<bool>): bool
    decreases |bs|
  {
    if bs == [] then false else OddOnes(bs[..|bs| - 1]) != bs[|bs| - 1]
  }

  /** A bit appended after `a` is worth 2^|a|. */
  lemma {:induction false} FromBitsSnoc(a: seq<bool>, b: bool)
    ensures FromBits(a + [b]) == FromBits(a) + (if b then Pow2(|a|) else 0)
    decreases |a|
  {
    if a == [] {
      assert [b][1..] == [];
    } else {
      assert (a + [b])[1..] == a[1..] + [b];
      FromBitsSnoc(a[1..], b);
    }
  }

  /** Reading back the low `n` bits of a number below 2^n gives the number. */
  lemma {:induction false} FromToBits(v: nat, n: nat)
    requires v < Pow2(n)
    ensures FromBits(ToBits(v, n)) == v
    decreases n
  {
    if n > 0 {
      FromToBits(v / 2, n - 1);
      assert ToBits(v, n)[1..] == ToBits(v / 2, n - 1);
    }
  }

  lemma Pow2Byte()
    ensures Pow2(7) == 0x80 && Pow2(8) == 0x100
  {
  }

  /** Round trip: a byte sent as its eight data bits is the byte the receiver assembles. */
  lemma DataBitsRoundTrip(d: Byte)
    ensures FromBits(DataBits(d)) == d
  {
    Pow2Byte();
    FromToBits(d, 8);
  }

  /** A zero bit in front doubles the value. */
  lemma FromBitsLeadingZero(rest: seq<bool>)
    ensures FromBits([false] + rest) == 2 * FromBits(rest)
  {
    assert ([false] + rest)[1..] == rest;
  }

  /** The low bit and the rest: `v & 1` and `v >> 1` of the number a bit sequence stands for. */
  lemma FromBitsCons(b: bool, rest: seq<bool>)
    ensures FromBits([b] + rest) % 2 == (if b then 1 else 0)
    ensures FromBits([b] + rest) / 2 == FromBits(rest)
  {
    assert ([b] + rest)[0] == b && ([b] + rest)[1..] == rest;
  }

  /** Sending bit `j` of `w` from a shift register holding the bits from `j` on: the register's
      low bit is `w[j]`, shifting right leaves the bits after it, and the parity of the bits
      sent so far takes `w[j]` in. */
  lemma ShiftOut(w: seq<bool>, j: nat)
    requires j < |w|
    ensures FromBits(w[j..]) % 2 == (if w[j] then 1 else 0)
    ensures FromBits(w[j..]) / 2 == FromBits(w[j + 1..])
    ensures OddOnes(w[..j + 1]) == (OddOnes(w[..j]) != w[j])
  {
    assert w[j..] == [w[j]] + w[j + 1..];
    FromBitsCons(w[j], w[j + 1..]);
    assert w[..j + 1] == w[..j] + [w[j]];
    OddOnesSnoc(w[..j], w[j]);
  }

  lemma ZerosCons(n: nat)
    requires n > 0
    ensures Zeros(n) == [false] + Zeros(n - 1)
  {
  }

  /** Shifting a bit in at the top of an eight-bit register (`r >>= 1; if (b) r |= 0x80;`).
      After `|prev|` bits have come in this way, the register holds them least significant
      first above `8 - |prev|` zero bits; one more shift keeps that so. */
  lemma ShiftInTop(prev: seq<bool>, b: bool)
    requires |prev| < 8
    ensures FromBits(Zeros(8 - |prev|) + prev) / 2 + (if b then 0x80 else 0)
            == FromBits(Zeros(8 - |prev| - 1) + (prev + [b]))
  {
    var z := Zeros(8 - |prev| - 1);
    var rest := z + prev;
    ZerosCons(8 - |prev|);
    ConcatAssoc([false], z, prev);
    FromBitsLeadingZero(rest);
    FromBitsSnoc(rest, b);
    Pow2Byte();
    ConcatAssoc(z, prev, [b]);
  }

  /** Appending one bit flips the odd-ones flag exactly when the bit is one. */
  lemma OddOnesSnoc(bs: seq<bool>, b: bool)
    ensures OddOnes(bs + [b]) == (OddOnes(bs) != b)
  {
    assert (bs + [b])[..|bs|] == bs;
  }

  /** A leading zero does not change the parity of a sequence. */
  lemma {:induction false} OddOnesLeadingZero(bs: seq<bool>)
    ensures OddOnes([false] + bs) == OddOnes(bs)
    decreases |bs|
  {
    if bs != [] {
      var init := bs[..|bs| - 1];
      assert ([false] + bs)[..|bs|] == [false] + init;
      OddOnesLeadingZero(init);
    }
  }
}
