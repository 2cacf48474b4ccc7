/** Bit and byte reversal helpers of crcmanip/utils.py, on 32-bit words.

    Python integers are unbounded; every width in the model is at most 32
    bits, so the values involved fit a `bv32`. Shifts by a variable amount
    are written as repeated shifts by one bit (`Shr`) or one byte
    (`ShrBytes`), the way the loops of utils.py perform them.

    The lemmas below are kept small on purpose: each one either unfolds a
    definition once or states a fact about plain 32-bit words, and the
    inductive proofs only chain them. */
module Bits {
  import opened Errors

  /** The low `n` bits set: the value of Python's `(1 << n) - 1`. */
  function Mask(n: nat): bv32
  {
    if n == 0 then 0 else (Mask(n - 1) << 1) | 1
  }

  /** Bit `n - 1` alone: the value of Python's `1 << (n - 1)` for `n >= 1`. */
  function Top(n: nat): bv32
  {
    if n <= 1 then 1 else Top(n - 1) << 1
  }

  /** `x` has no bit set at or above position `n`, that is `x < 2^n`. */
  predicate Fits(x: bv32, n: nat)
  {
    x & Mask(n) == x
  }

  /** `x >> i`, one bit at a time. */
  function Shr(x: bv32, i: nat): bv32
  {
    if i == 0 then x else Shr(x, i - 1) >> 1
  }

  /** `x >> (8 * i)`, one byte at a time. */
  function ShrBytes(x: bv32, i: nat): bv32
  {
    if i == 0 then x else ShrBytes(x, i - 1) >> 8
  }

  /** `x << (8 * i)`, one byte at a time. */
  function ShlBytes(x: bv32, i: nat): bv32
  {
    if i == 0 then x else ShlBytes(x, i - 1) << 8
  }

  /** Bit `i` of `x`, as 0 or 1. */
  function Bit(x: bv32, i: nat): bv32
  {
    Shr(x, i) & 1
  }

  /** Byte `i` of `x`; byte 0 is the least significant. */
  function ByteAt(x: bv32, i: nat): bv32
  {
    ShrBytes(x, i) & 0xFF
  }

  // ---------------------------------------------------------------------------
  // One step of each definition

  lemma MaskDown(n: nat)
    requires n >= 1
    ensures Mask(n) == (Mask(n - 1) << 1) | 1
  {
  }

  lemma TopDown(n: nat)
    requires n >= 2
    ensures Top(n) == Top(n - 1) << 1
  {
  }

  lemma ShrDown(x: bv32, i: nat)
    requires i >= 1
    ensures Shr(x, i) == Shr(x, i - 1) >> 1
  {
  }

  lemma ShrBytesDown(x: bv32, i: nat)
    requires i >= 1
    ensures ShrBytes(x, i) == ShrBytes(x, i - 1) >> 8
  {
  }

  lemma BitDef(x: bv32, i: nat)
    ensures Bit(x, i) == Shr(x, i) & 1
    ensures Bit(x, i) <= 1
  {
  }

  lemma BitZero(x: bv32)
    ensures Bit(x, 0) == x & 1
  {
  }

  lemma ByteDef(x: bv32, i: nat)
    ensures ByteAt(x, i) == ShrBytes(x, i) & 0xFF
    ensures ByteAt(x, i) <= 0xFF
  {
  }

  // ---------------------------------------------------------------------------
  // Word identities, stated on plain values

  lemma PushBitShift(m: bv32, b: bv32)
    requires m & 0x8000_0000 == 0 && b <= 1
    ensures ((m << 1) | b) >> 1 == m
    ensures ((m << 1) | b) & 1 == b
  {
  }

  lemma PushBitFits(m: bv32, b: bv32, k: bv32)
    requires m & k == m && b <= 1
    ensures ((m << 1) | b) & ((k << 1) | 1) == (m << 1) | b
  {
  }

  lemma PushBitTop(m: bv32, b: bv32, t: bv32)
    requires b <= 1
    ensures ((m << 1) | b) & (t << 1) == (m & t) << 1
  {
  }

  lemma PopBitFits(x: bv32, k: bv32)
    requires x & ((k << 1) | 1) == x
    ensures (x >> 1) & k == x >> 1
  {
  }

  lemma MaskSelf(a: bv32, c: bv32)
    requires a & c == a
    ensures ((a << 1) | 1) & ((c << 1) | 1) == (a << 1) | 1
  {
  }

  lemma AndAbsorb(x: bv32, a: bv32, c: bv32)
    requires x & a == x && a & c == a
    ensures x & c == x
  {
  }

  lemma AndZero(x: bv32)
    requires x & 0 == x
    ensures x == 0
  {
  }

  lemma JoinBit(x: bv32, y: bv32)
    requires x >> 1 == y >> 1 && x & 1 == y & 1
    ensures x == y
  {
  }

  // ---------------------------------------------------------------------------
  // Masks

  /** A number below 256 survives the trip through a byte. */
  lemma ByteRoundTrip(r: nat)
    requires r < 256
    ensures (r as bv8) as nat == r
  {
    // Sixteen ranges of sixteen values each keep the conversion cheap.
    if r < 16 {
    } else if r < 32 {
    } else if r < 48 {
    } else if r < 64 {
    } else if r < 80 {
    } else if r < 96 {
    } else if r < 112 {
    } else if r < 128 {
    } else if r < 144 {
    } else if r < 160 {
    } else if r < 176 {
    } else if r < 192 {
    } else if r < 208 {
    } else if r < 224 {
    } else if r < 240 {
    } else {
    }
  }


  lemma MaskConstants()
    ensures Mask(0) == 0 && Mask(8) == 0xFF && Mask(16) == 0xFFFF && Mask(24) == 0xFF_FFFF
    ensures Mask(31) == 0x7FFF_FFFF && Mask(32) == 0xFFFF_FFFF
    ensures Top(1) == 1 && Top(8) == 0x80 && Top(16) == 0x8000 && Top(24) == 0x80_0000
    ensures Top(32) == 0x8000_0000
  {
  }

  lemma ShiftDouble(n: nat, b: bv32)
    requires 1 <= n <= 32 && b == 1 << (n - 1)
    ensures b << 1 == 1 << n
  {
  }

  lemma PredDouble(b: bv32)
    ensures ((b - 1) << 1) | 1 == (b << 1) - 1
  {
  }

  lemma MaskShiftStep(n: nat, a: bv32)
    requires 1 <= n <= 32 && a == (1 << (n - 1)) - 1
    ensures (a << 1) | 1 == (1 << n) - 1
  {
    var b: bv32 := 1 << (n - 1);
    ShiftDouble(n, b);
    PredDouble(b);
  }

  /** `Mask(n)` is Python's `(1 << n) - 1`, which a `bv32` computes exactly
      up to 32 bits (at 32 the shift leaves 0 and the subtraction wraps). */
  lemma {:induction false} MaskShift(n: nat)
    requires n <= 32
    ensures Mask(n) == (1 << n) - 1
  {
    if n > 0 {
      MaskShift(n - 1);
      MaskDown(n);
      var a := Mask(n - 1);
      MaskShiftStep(n, a);
    }
  }

  /** Python's `(1 << n) - 1`, computed in 32 bits. */
  method LowBits(n: nat) returns (m: bv32)
    requires n <= 32
    ensures m == Mask(n)
  {
    m := (1 << n) - 1;
    MaskShift(n);
  }

  /** `Top(n)` is Python's `1 << (n - 1)`. */
  lemma {:induction false} TopShift(n: nat)
    requires 1 <= n <= 32
    ensures Top(n) == 1 << (n - 1)
  {
    if n > 1 {
      TopShift(n - 1);
      TopDown(n);
      var a := Top(n - 1);
      ShiftDouble(n - 1, a);
    }
  }

  lemma {:induction false} MaskGrows(n: nat)
    requires n >= 1
    ensures Mask(n - 1) & Mask(n) == Mask(n - 1)
  {
    if n == 1 {
      MaskConstants();
    } else {
      MaskGrows(n - 1);
      MaskDown(n - 1);
      MaskDown(n);
      MaskSelf(Mask(n - 1 - 1), Mask(n - 1));
    }
  }

  lemma MaskUp(n: nat)
    ensures Mask(n + 1) == (Mask(n) << 1) | 1
  {
  }

  lemma {:induction false} MaskGrowsUp(n: nat)
    ensures Mask(n) & Mask(n + 1) == Mask(n)
  {
    if n > 0 {
      MaskGrowsUp(n - 1);
      MaskUp(n - 1);
      MaskUp(n);
      MaskSelf(Mask(n - 1), Mask(n));
    }
  }

  lemma FitsStep(x: bv32, m: nat)
    requires Fits(x, m)
    ensures Fits(x, m + 1)
  {
    MaskGrowsUp(m);
    AndAbsorb(x, Mask(m), Mask(m + 1));
  }

  lemma {:induction false} FitsWider(x: bv32, m: nat, n: nat)
    requires m <= n && Fits(x, m)
    ensures Fits(x, n)
    decreases n - m
  {
    if m < n {
      FitsStep(x, m);
      FitsWider(x, m + 1, n);
    }
  }

  /** A value of at most 31 bits has its top bit clear. */
  lemma TopBitClear(x: bv32, n: nat)
    requires n <= 31 && Fits(x, n)
    ensures x & 0x8000_0000 == 0
  {
    FitsWider(x, n, 31);
    MaskConstants();
  }

  lemma FitsPushBit(x: bv32, b: bv32, m: nat)
    requires Fits(x, m) && b <= 1
    ensures Fits((x << 1) | b, m + 1)
  {
    MaskUp(m);
    PushBitFits(x, b, Mask(m));
  }

  lemma FitsShiftRight(x: bv32, m: nat)
    requires Fits(x, m + 1)
    ensures Fits(x >> 1, m)
  {
    MaskUp(m);
    PopBitFits(x, Mask(m));
  }

  // ---------------------------------------------------------------------------
  // Single bits

  lemma {:induction false} ShrUnfold(x: bv32, i: nat)
    requires i >= 1
    ensures Shr(x, i) == Shr(x >> 1, i - 1)
  {
    ShrDown(x, i);
    if i > 1 {
      ShrUnfold(x, i - 1);
      ShrDown(x >> 1, i - 1);
    }
  }

  lemma BitUnfold(x: bv32, y: bv32, i: nat)
    requires y == x >> 1 && i >= 1
    ensures Bit(x, i) == Bit(y, i - 1)
  {
    ShrUnfold(x, i);
    BitDef(x, i);
    BitDef(y, i - 1);
  }

  lemma BitUp(x: bv32, y: bv32, i: nat)
    requires y == x >> 1
    ensures Bit(x, i + 1) == Bit(y, i)
  {
    BitUnfold(x, y, i + 1);
  }

  lemma {:induction false} BitOfZero(i: nat)
    ensures Shr(0, i) == 0 && Bit(0, i) == 0
  {
    BitDef(0, i);
    if i > 0 {
      BitOfZero(i - 1);
      ShrDown(0, i);
    }
  }

  /** The bits of an `n`-bit value at or above `n` are clear. */
  lemma {:induction false} BitOfFits(x: bv32, n: nat, i: nat)
    requires n <= i && Fits(x, n)
    ensures Bit(x, i) == 0
  {
    if n == 0 {
      MaskConstants();
      AndZero(x);
      BitOfZero(i);
    } else {
      FitsShiftRight(x, n - 1);
      BitUnfold(x, x >> 1, i);
      BitOfFits(x >> 1, n - 1, i - 1);
    }
  }

  /** Shifting a bit in at the bottom moves every other bit up by one. */
  lemma BitAfterPush(m: bv32, b: bv32, n: nat, i: nat)
    requires n <= 31 && Fits(m, n) && b <= 1 && 1 <= i
    ensures Bit((m << 1) | b, i) == Bit(m, i - 1)
  {
    TopBitClear(m, n);
    PushBitShift(m, b);
    BitUnfold((m << 1) | b, m, i);
  }

  lemma FitsZero(x: bv32)
    requires Fits(x, 0)
    ensures x == 0
  {
    MaskConstants();
    AndZero(x);
  }

  /** Two words agree when their low bits agree and so do the words shifted
      right by one. */
  lemma JoinLowBit(x: bv32, y: bv32, x1: bv32, y1: bv32)
    requires x1 == x >> 1 && y1 == y >> 1 && x1 == y1 && Bit(x, 0) == Bit(y, 0)
    ensures x == y
  {
    BitZero(x);
    BitZero(y);
    JoinBit(x, y);
  }

  lemma ShiftedBitsAgree(x: bv32, y: bv32, x1: bv32, y1: bv32, n: nat)
    requires x1 == x >> 1 && y1 == y >> 1
    requires forall i: nat | i < n + 1 :: Bit(x, i) == Bit(y, i)
    ensures forall i: nat | i < n :: Bit(x1, i) == Bit(y1, i)
  {
    forall i: nat | i < n
      ensures Bit(x1, i) == Bit(y1, i)
    {
      BitUp(x, x1, i);
      BitUp(y, y1, i);
    }
  }

  /** Two values of `n` bits are equal when their bits below `n` are. */
  lemma {:induction false} BitwiseEqual(x: bv32, y: bv32, n: nat)
    requires Fits(x, n) && Fits(y, n)
    requires forall i: nat | i < n :: Bit(x, i) == Bit(y, i)
    ensures x == y
  {
    if n == 0 {
      FitsZero(x);
      FitsZero(y);
    } else {
      var x1, y1 := x >> 1, y >> 1;
      FitsShiftRight(x, n - 1);
      FitsShiftRight(y, n - 1);
      ShiftedBitsAgree(x, y, x1, y1, n - 1);
      BitwiseEqual(x1, y1, n - 1);
      JoinLowBit(x, y, x1, y1);
    }
  }

  // ---------------------------------------------------------------------------
  // get_polynomial_reverse

  /** The low `k` bits of `p` in mirrored order, built the way the loop of
      `get_polynomial_reverse` builds them: shift left, bring in the next bit. */
  function Mirror(p: bv32, k: nat): bv32
  {
    if k == 0 then 0 else (Mirror(p, k - 1) << 1) | Bit(p, k - 1)
  }

  lemma MirrorDown(p: bv32, k: nat)
    requires k >= 1
    ensures Mirror(p, k) == (Mirror(p, k - 1) << 1) | Bit(p, k - 1)
  {
  }

  /** The mirror image of `k` bits has `k` bits. */
  lemma {:induction false} MirrorFits(p: bv32, k: nat)
    ensures Fits(Mirror(p, k), k)
  {
    if k == 0 {
      MaskConstants();
    } else {
      MirrorFits(p, k - 1);
      MirrorDown(p, k);
      BitDef(p, k - 1);
      FitsPushBit(Mirror(p, k - 1), Bit(p, k - 1), k - 1);
    }
  }

  /** Bit `i` of the mirror image is bit `j = k - 1 - i` of the input. */
  lemma {:induction false} MirrorBitIn(p: bv32, k: nat, i: nat, j: nat)
    requires k <= 32 && i + j + 1 == k
    ensures Bit(Mirror(p, k), i) == Bit(p, j)
  {
    MirrorDown(p, k);
    MirrorFits(p, k - 1);
    BitDef(p, k - 1);
    if i == 0 {
      TopBitClear(Mirror(p, k - 1), k - 1);
      PushBitShift(Mirror(p, k - 1), Bit(p, k - 1));
      BitZero(Mirror(p, k));
    } else {
      BitAfterPush(Mirror(p, k - 1), Bit(p, k - 1), k - 1, i);
      MirrorBitIn(p, k - 1, i - 1, j);
    }
  }

  /** The bits of the mirror image at or above `k` are clear. */
  lemma MirrorBitOut(p: bv32, k: nat, i: nat)
    requires k <= i
    ensures Bit(Mirror(p, k), i) == 0
  {
    MirrorFits(p, k);
    BitOfFits(Mirror(p, k), k, i);
  }

  lemma TopUp(m: nat)
    requires m >= 1
    ensures Top(m + 1) == Top(m) << 1
  {
  }

  lemma KeepTop(a: bv32, b: bv32, t: bv32)
    requires b <= 1 && a & t == t
    ensures ((a << 1) | b) & (t << 1) == t << 1
  {
  }

  lemma MirrorTopBase(p: bv32)
    requires p & 1 == 1
    ensures Mirror(p, 1) & Top(1) == Top(1)
  {
    MirrorUp(p, 0);
    BitZero(p);
  }

  lemma MirrorTopStep(p: bv32, m: nat, r: bv32, t: bv32)
    requires m >= 1 && r == Mirror(p, m) && t == Top(m) && r & t == t
    ensures Mirror(p, m + 1) & Top(m + 1) == Top(m + 1)
  {
    MirrorUp(p, m);
    BitDef(p, m);
    TopUp(m);
    KeepTop(r, Bit(p, m), t);
  }

  /** The top bit of the mirror image, bit `m`, is the lowest bit of the
      input: an odd polynomial reverses to one with its top bit set. */
  lemma {:induction false} MirrorTop(p: bv32, m: nat)
    requires p & 1 == 1
    ensures Mirror(p, m + 1) & Top(m + 1) == Top(m + 1)
  {
    if m == 0 {
      MirrorTopBase(p);
    } else {
      MirrorTop(p, m - 1);
      MirrorTopStep(p, m, Mirror(p, m), Top(m));
    }
  }

  /** Only the bits of `p` below `k` matter: bits at or above `k` are never
      shifted in. */
  lemma {:induction false} MirrorLowBitsOnly(p: bv32, q: bv32, k: nat)
    requires forall j: nat | j < k :: Bit(p, j) == Bit(q, j)
    ensures Mirror(p, k) == Mirror(q, k)
  {
    if k > 0 {
      MirrorLowBitsOnly(p, q, k - 1);
    }
  }

  /** Mirroring twice gives back any value of `k` bits. */
  lemma MirrorInvolution(p: bv32, k: nat)
    requires k <= 32 && Fits(p, k)
    ensures Mirror(Mirror(p, k), k) == p
  {
    var m := Mirror(p, k);
    forall i: nat | i < k
      ensures Bit(Mirror(m, k), i) == Bit(p, i)
    {
      MirrorBitIn(m, k, i, k - 1 - i);
      MirrorBitIn(p, k, k - 1 - i, i);
    }
    MirrorFits(m, k);
    BitwiseEqual(Mirror(m, k), p, k);
  }

  lemma MirrorUp(p: bv32, k: nat)
    ensures Mirror(p, k + 1) == (Mirror(p, k) << 1) | Bit(p, k)
  {
  }

  lemma ShrUp(x: bv32, i: nat)
    ensures Shr(x, i + 1) == Shr(x, i) >> 1
  {
  }

  lemma MirrorStep(p: bv32, i: nat, r: bv32, q: bv32)
    requires r == Mirror(p, i) && q == Shr(p, i)
    ensures (r << 1) | (q & 1) == Mirror(p, i + 1)
    ensures q >> 1 == Shr(p, i + 1)
  {
    MirrorUp(p, i);
    ShrUp(p, i);
    BitDef(p, i);
  }

  /** crcmanip/utils.py `get_polynomial_reverse`: `numBits` rounds of
      shifting the result left and moving the low bit of the input in. The
      result is a 32-bit word, so widths above 32 bits are outside the
      model. */
  method GetPolynomialReverse(polynomial: bv32, numBits: nat) returns (result: bv32)
    requires numBits <= 32
    ensures result == Mirror(polynomial, numBits)
  {
    result := 0;
    var p := polynomial;
    for i := 0 to numBits
      invariant result == Mirror(polynomial, i)
      invariant p == Shr(polynomial, i)
    {
      MirrorStep(polynomial, i, result, p);
      result := (result << 1) | (p & 1);
      p := p >> 1;
    }
  }

  // ---------------------------------------------------------------------------
  // swap_endian

  /** The low `k` bytes of `x` in reversed order, built the way the loop of
      `swap_endian` builds them. */
  function ByteSwap(x: bv32, k: nat): bv32
  {
    if k == 0 then 0 else (ByteSwap(x, k - 1) << 8) | ByteAt(x, k - 1)
  }

  lemma ByteSwapDown(x: bv32, k: nat)
    requires k >= 1
    ensures ByteSwap(x, k) == (ByteSwap(x, k - 1) << 8) | ByteAt(x, k - 1)
  {
  }

  lemma ByteConstants(x: bv32)
    ensures ByteAt(x, 0) == x & 0xFF
    ensures ByteAt(x, 1) == (x >> 8) & 0xFF
    ensures ByteAt(x, 2) == (x >> 16) & 0xFF
    ensures ByteAt(x, 3) == (x >> 24) & 0xFF
  {
    ShrBytesDown(x, 1);
    ShrBytesDown(x, 2);
    ShrBytesDown(x, 3);
    ByteDef(x, 0);
    ByteDef(x, 1);
    ByteDef(x, 2);
    ByteDef(x, 3);
    ShiftBytes(x);
  }

  lemma ShiftBytes(x: bv32)
    ensures (x >> 8) >> 8 == x >> 16
    ensures ((x >> 8) >> 8) >> 8 == x >> 24
  {
  }

  lemma ShlBytesUp(x: bv32, i: nat)
    ensures ShlBytes(x, i + 1) == ShlBytes(x, i) << 8
  {
  }

  lemma ByteSwapOne(x: bv32)
    ensures ByteSwap(x, 1) == x & 0xFF
  {
    ByteSwapUp(x, 0);
    ByteDef(x, 0);
  }

  lemma ByteSwapTwo(x: bv32)
    ensures ByteSwap(x, 2) == ((x & 0xFF) << 8) | ((x >> 8) & 0xFF)
  {
    ByteSwapOne(x);
    ByteSwapUp(x, 1);
    ByteConstants(x);
  }

  lemma ByteSwapThree(x: bv32)
    ensures ByteSwap(x, 3) == ((x & 0xFF) << 16) | (((x >> 8) & 0xFF) << 8) | ((x >> 16) & 0xFF)
  {
    ByteSwapTwo(x);
    ByteSwapUp(x, 2);
    ByteConstants(x);
  }

  lemma ByteSwapFour(x: bv32)
    ensures ByteSwap(x, 4) ==
      ((x & 0xFF) << 24) | (((x >> 8) & 0xFF) << 16) | (((x >> 16) & 0xFF) << 8) | ((x >> 24) & 0xFF)
  {
    ByteSwapThree(x);
    ByteSwapUp(x, 3);
    ByteConstants(x);
  }

  lemma SwapTwiceOne(x: bv32, s: bv32, t: bv32)
    requires x & 0xFF == x && s == x & 0xFF && t == s & 0xFF
    ensures t == x
  {
  }

  lemma SwapTwiceTwo(x: bv32, s: bv32, t: bv32)
    requires x & 0xFFFF == x
    requires s == ((x & 0xFF) << 8) | ((x >> 8) & 0xFF)
    requires t == ((s & 0xFF) << 8) | ((s >> 8) & 0xFF)
    ensures t == x
  {
  }

  lemma SwapTwiceThree(x: bv32, s: bv32, t: bv32)
    requires x & 0xFF_FFFF == x
    requires s == ((x & 0xFF) << 16) | (((x >> 8) & 0xFF) << 8) | ((x >> 16) & 0xFF)
    requires t == ((s & 0xFF) << 16) | (((s >> 8) & 0xFF) << 8) | ((s >> 16) & 0xFF)
    ensures t == x
  {
  }

  lemma SwapTwiceFour(x: bv32, s: bv32, t: bv32)
    requires s == ((x & 0xFF) << 24) | (((x >> 8) & 0xFF) << 16) | (((x >> 16) & 0xFF) << 8) | ((x >> 24) & 0xFF)
    requires t == ((s & 0xFF) << 24) | (((s >> 8) & 0xFF) << 16) | (((s >> 16) & 0xFF) << 8) | ((s >> 24) & 0xFF)
    ensures t == x
  {
  }

  /** The swap of `k` bytes has `k` bytes. */
  lemma ByteSwapFits(x: bv32, k: nat)
    requires k <= 4
    ensures Fits(ByteSwap(x, k), 8 * k)
  {
    MaskConstants();
    if k == 1 {
      ByteSwapOne(x);
    } else if k == 2 {
      ByteSwapTwo(x);
    } else if k == 3 {
      ByteSwapThree(x);
    } else if k == 4 {
      ByteSwapFour(x);
    }
  }

  /** Byte `i` of the swap is byte `k - 1 - i` of the input. */
  lemma ByteSwapReverses(x: bv32, k: nat, i: nat)
    requires i < k <= 4
    ensures ByteAt(ByteSwap(x, k), i) == ByteAt(x, k - 1 - i)
  {
    if k == 1 {
      SwapBytesOne(x);
    } else if k == 2 {
      SwapBytesTwo(x);
    } else if k == 3 {
      SwapBytesThree(x);
    } else {
      SwapBytesFour(x);
    }
  }

  lemma SwapBytesOne(x: bv32)
    ensures ByteAt(ByteSwap(x, 1), 0) == ByteAt(x, 0)
  {
    var s := ByteSwap(x, 1);
    ByteSwapOne(x);
    ByteConstants(s);
    ByteConstants(x);
  }

  lemma SwapBytesTwo(x: bv32)
    ensures ByteAt(ByteSwap(x, 2), 0) == ByteAt(x, 1)
    ensures ByteAt(ByteSwap(x, 2), 1) == ByteAt(x, 0)
  {
    var s := ByteSwap(x, 2);
    ByteSwapTwo(x);
    ByteConstants(s);
    ByteConstants(x);
  }

  lemma SwapBytesThree(x: bv32)
    ensures ByteAt(ByteSwap(x, 3), 0) == ByteAt(x, 2)
    ensures ByteAt(ByteSwap(x, 3), 1) == ByteAt(x, 1)
    ensures ByteAt(ByteSwap(x, 3), 2) == ByteAt(x, 0)
  {
    var s := ByteSwap(x, 3);
    ByteSwapThree(x);
    ByteConstants(s);
    ByteConstants(x);
  }

  lemma SwapBytesFour(x: bv32)
    ensures ByteAt(ByteSwap(x, 4), 0) == ByteAt(x, 3)
    ensures ByteAt(ByteSwap(x, 4), 1) == ByteAt(x, 2)
    ensures ByteAt(ByteSwap(x, 4), 2) == ByteAt(x, 1)
    ensures ByteAt(ByteSwap(x, 4), 3) == ByteAt(x, 0)
  {
    var s := ByteSwap(x, 4);
    ByteSwapFour(x);
    ByteConstants(s);
    ByteConstants(x);
  }

  /** Swapping twice gives back any value of `k` bytes. */
  lemma ByteSwapInvolution(x: bv32, k: nat)
    requires 1 <= k <= 4 && Fits(x, 8 * k)
    ensures ByteSwap(ByteSwap(x, k), k) == x
  {
    MaskConstants();
    if k == 1 {
      SwapInvolutionOne(x);
    } else if k == 2 {
      SwapInvolutionTwo(x);
    } else if k == 3 {
      SwapInvolutionThree(x);
    } else {
      SwapInvolutionFour(x);
    }
  }

  lemma SwapInvolutionOne(x: bv32)
    requires x & 0xFF == x
    ensures ByteSwap(ByteSwap(x, 1), 1) == x
  {
    var s := ByteSwap(x, 1);
    ByteSwapOne(x);
    ByteSwapOne(s);
    SwapTwiceOne(x, s, ByteSwap(s, 1));
  }

  lemma SwapInvolutionTwo(x: bv32)
    requires x & 0xFFFF == x
    ensures ByteSwap(ByteSwap(x, 2), 2) == x
  {
    var s := ByteSwap(x, 2);
    ByteSwapTwo(x);
    ByteSwapTwo(s);
    SwapTwiceTwo(x, s, ByteSwap(s, 2));
  }

  lemma SwapInvolutionThree(x: bv32)
    requires x & 0xFF_FFFF == x
    ensures ByteSwap(ByteSwap(x, 3), 3) == x
  {
    var s := ByteSwap(x, 3);
    ByteSwapThree(x);
    ByteSwapThree(s);
    SwapTwiceThree(x, s, ByteSwap(s, 3));
  }

  lemma SwapInvolutionFour(x: bv32)
    ensures ByteSwap(ByteSwap(x, 4), 4) == x
  {
    var s := ByteSwap(x, 4);
    ByteSwapFour(x);
    ByteSwapFour(s);
    SwapTwiceFour(x, s, ByteSwap(s, 4));
  }

  lemma ByteSwapUp(x: bv32, k: nat)
    ensures ByteSwap(x, k + 1) == (ByteSwap(x, k) << 8) | ByteAt(x, k)
  {
  }

  lemma ShrBytesUp(x: bv32, i: nat)
    ensures ShrBytes(x, i + 1) == ShrBytes(x, i) >> 8
  {
  }

  lemma ByteSwapStep(x: bv32, i: nat, r: bv32, q: bv32)
    requires r == ByteSwap(x, i) && q == ShrBytes(x, i)
    ensures (r << 8) | (q & 0xFF) == ByteSwap(x, i + 1)
    ensures q >> 8 == ShrBytes(x, i + 1)
  {
    ByteSwapUp(x, i);
    ShrBytesUp(x, i);
    ByteDef(x, i);
  }

  lemma ShiftOutByte(v: bv32)
    requires v <= 0xFF
    ensures v >> 8 == 0
  {
  }

  /** A single byte has no bytes above byte 0. */
  lemma {:induction false} HighBytesZero(v: bv32, m: nat)
    requires v <= 0xFF && 1 <= m
    ensures ShrBytes(v, m) == 0
  {
    if m == 1 {
      ShrBytesUp(v, 0);
      ShiftOutByte(v);
    } else {
      HighBytesZero(v, m - 1);
      ShrBytesUp(v, m - 1);
    }
  }

  lemma SwapByteBase(v: bv32)
    requires v <= 0xFF
    ensures ByteSwap(v, 1) == ShlBytes(v, 0)
  {
    ByteSwapOne(v);
  }

  lemma SwapByteStep(v: bv32, m: nat)
    requires v <= 0xFF && 1 <= m && ByteSwap(v, m) == ShlBytes(v, m - 1)
    ensures ByteSwap(v, m + 1) == ShlBytes(v, m)
  {
    ByteSwapUp(v, m);
    HighBytesZero(v, m);
    ByteDef(v, m);
    ShlBytesUp(v, m - 1);
  }

  /** Swapping a single byte into a register of `m + 1` bytes moves it to the
      top byte: `swap_endian(v, n) == v << (n - 8)` for `v < 256`. */
  lemma {:induction false} SwapByte(v: bv32, m: nat)
    requires v <= 0xFF
    ensures ByteSwap(v, m + 1) == ShlBytes(v, m)
  {
    if m == 0 {
      SwapByteBase(v);
    } else {
      SwapByte(v, m - 1);
      SwapByteStep(v, m);
    }
  }

  /** crcmanip/utils.py `swap_endian`: the assertion on the width, then the
      loop over `numBits / 8` bytes. The result is a 32-bit word, so widths
      above 32 bits are outside the model. */
  method SwapEndian(crc: bv32, numBits: nat) returns (r: Result<bv32>)
    requires numBits <= 32
    ensures r.Err? <==> numBits % 8 != 0
    ensures r.Err? ==> r.error == AssertionError
    ensures r.Ok? ==> r.value == ByteSwap(crc, numBits / 8)
  {
    if numBits % 8 != 0 {
      return Err(AssertionError);
    }
    var result: bv32 := 0;
    var x := crc;
    for i := 0 to numBits / 8
      invariant result == ByteSwap(crc, i)
      invariant x == ShrBytes(crc, i)
    {
      ByteSwapStep(crc, i, result, x);
      result := (result << 8) | (x & 0xFF);
      x := x >> 8;
    }
    r := Ok(result);
  }
}
