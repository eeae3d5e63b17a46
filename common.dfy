/** Values shared by the firmware modules: optional results and C's 8-bit integer conversions. */
module Common {

  datatype Option<+T> = None | Some(value: T)

  /** An unsigned byte (`uint8_t`). */
  type Byte = x: int | 0 <= x < 256

  /** Two to the power `n`. */
  function Pow2(n: nat): (p: nat)
    ensures p >= 1
  {
    if n == 0 then 1 else 2 * Pow2(n - 1)
  }

  /** The byte C stores when an `int`/`int16_t` is converted to `uint8_t`: the low eight bits
      of its two's-complement form. */
  function LowByte(v: int): (b: Byte)
    ensures (v - b) % 256 == 0
  {
    v % 256
  }

  /** The value a receiver reads when it takes a byte as a signed `int8_t`. */
  function AsSigned8(b: Byte): (v: int)
    ensures -128 <= v < 128
    ensures (v - b) % 256 == 0
  {
    if b < 128 then b else b - 256
  }

  /** Truncating a value that fits in `int8_t` to a byte loses nothing: the receiver gets it back. */
  lemma SignedByteRoundTrip(v: int)
    requires -128 <= v < 128
    ensures AsSigned8(LowByte(v)) == v
  {
  }

  /** Bitwise or of two non-negative integers, bit by bit from the least significant. */
  function BitOr(a: nat, b: nat): nat
    decreases a + b
  {
    if a == 0 && b == 0 then 0
    else 2 * BitOr(a / 2, b / 2) + (if a % 2 == 1 || b % 2 == 1 then 1 else 0)
  }

  lemma {:induction false} BitOrZero(b: nat)
    ensures BitOr(0, b) == b
    decreases b
  {
    if b != 0 {
      BitOrZero(b / 2);
    }
  }

  lemma {:induction false} BitOrCommutes(a: nat, b: nat)
    ensures BitOr(a, b) == BitOr(b, a)
    decreases a + b
  {
    if a != 0 || b != 0 {
      BitOrCommutes(a / 2, b / 2);
    }
  }

  /** Or-ing a value below `2^k` into a value whose low `k` bits are clear is addition: the
      bit fields do not overlap. */
  lemma {:induction false} BitOrDisjoint(a: nat, b: nat, k: nat)
    requires a < Pow2(k)
    ensures BitOr(a, b * Pow2(k)) == a + b * Pow2(k)
    decreases k
  {
    if k == 0 {
      BitOrZero(b);
    } else {
      var m := b * Pow2(k - 1);
      assert b * Pow2(k) == 2 * m;
      BitOrDisjoint(a / 2, b, k - 1);
      if a != 0 || m != 0 {
        assert (2 * m) / 2 == m && (2 * m) % 2 == 0;
      }
    }
  }

  /** `BitOrDisjoint` with the power of two written out. */
  lemma BitOrBelow(a: nat, b: nat, m: nat, k: nat)
    requires m == Pow2(k) && a < m
    ensures BitOr(a, b * m) == a + b * m
  {
    BitOrDisjoint(a, b, k);
  }

  /** Restricts `v` to the closed interval [lo, hi], as the firmware's `if (v < lo) ... else if (v > hi)` chains do. */
  function Clamp(v: int, lo: int, hi: int): (r: int)
    requires lo <= hi
    ensures lo <= r <= hi
    ensures lo <= v <= hi ==> r == v
    ensures v < lo ==> r == lo
    ensures v > hi ==> r == hi
  {
    if v < lo then lo else if v > hi then hi else v
  }

  /** Bitwise and of two non-negative integers, bit by bit from the least significant. */
  function BitAnd(a: nat, b: nat): nat
    decreases a + b
  {
    if a == 0 || b == 0 then 0
    else 2 * BitAnd(a / 2, b / 2) + (if a % 2 == 1 && b % 2 == 1 then 1 else 0)
  }

  /** Masking with `k` one bits keeps the remainder modulo two to the `k`. */
  lemma {:induction false} BitAndLowBits(a: nat, k: nat)
    ensures BitAnd(a, Pow2(k) - 1) == a % Pow2(k)
    decreases k
  {
    if k == 0 {
      assert Pow2(k) - 1 == 0 && BitAnd(a, 0) == 0;
    } else if a == 0 {
      assert BitAnd(0, Pow2(k) - 1) == 0;
    } else {
      var h := Pow2(k - 1) - 1;
      BitAndLowBits(a / 2, k - 1);
      MaskStep(a, h);
      assert Pow2(k) - 1 == 2 * h + 1 && Pow2(k) == 2 * h + 2;
    }
  }

  /** One more one bit in the mask keeps one more bit of the remainder. */
  lemma MaskStep(a: nat, h: nat)
    requires BitAnd(a / 2, h) == a / 2 % (h + 1)
    ensures BitAnd(a, 2 * h + 1) == a % (2 * h + 2)
  {
    BitAndOddMask(a, h);
    HalveMod(a, h + 1);
  }

  /** Masking with an odd mask keeps the lowest bit and masks the rest with the mask halved. */
  lemma BitAndOddMask(a: nat, h: nat)
    ensures BitAnd(a, 2 * h + 1) == 2 * BitAnd(a / 2, h) + a % 2
  {
    assert (2 * h + 1) / 2 == h && (2 * h + 1) % 2 == 1;
    if a == 0 {
      assert BitAnd(0, h) == 0;
    }
  }

  /** The remainder modulo `2 * p` is built from the remainder of the halved value and the
      bit shifted out. */
  lemma HalveMod(a: nat, p: nat)
    requires p > 0
    ensures a % (2 * p) == 2 * (a / 2 % p) + a % 2
  {
    var q, r := a / 2 / p, a / 2 % p;
    assert a / 2 == q * p + r;
    assert a == 2 * (a / 2) + a % 2;
    assert a == q * (2 * p) + (2 * r + a % 2);
    DivModUnique(a, 2 * p, q, 2 * r + a % 2);
  }

  /** A quotient and remainder that recompose `n` are the quotient and the remainder. */
  lemma DivModUnique(n: nat, w: nat, q: nat, r: nat)
    requires 0 < w && r < w && n == q * w + r
    ensures n / w == q && n % w == r
  {
    var q0, r0 := n / w, n % w;
    assert (q - q0) * w == r0 - r;
    SmallMultiple(q - q0, w);
  }

  lemma SmallMultiple(d: int, w: int)
    requires w > 0 && -w < d * w < w
    ensures d == 0
  {
  }

  /** Regrouping a concatenation, for proofs that build a sequence piece by piece. */
  lemma ConcatAssoc<T>(a: seq<T>, b: seq<T>, c: seq<T>)
    ensures (a + b) + c == a + (b + c)
  {
  }

  /** A prefix one element longer is the prefix with that element appended. */
  lemma PrefixSnoc<T>(s: seq<T>, k: nat)
    requires k < |s|
    ensures s[..k] + [s[k]] == s[..k + 1]
  {
  }

  lemma ConcatAssoc3<T>(a: seq<T>, b: seq<T>, c: seq<T>, d: seq<T>)
    ensures (a + b) + c + d == a + (b + c + d)
  {
  }
}
