/** The bit-at-a-time steps that `compute_lookup_table` and
    `compute_reverse_lookup_table` (crcmanip/crc.py:7-62) run eight times per
    table entry, and what eight of them do.

    Each step is one conditional expression of crc.py. `top` is the
    `mask = 1 << (num_bits - 1)` of the builders and `m` the word mask
    `(1 << num_bits) - 1`; the lemmas ask for the pair through `TopOf`, which
    holds for every width from 1 to 32 bits.

    The reverse steps undo the forward steps one bit at a time, and they are
    linear over exclusive or. Statements about whole rounds use `Xor` rather
    than `^`, so that the solver can match terms instead of reasoning about
    every bit of them. */
module Rounds {

  /** Exclusive or, as a function. */
  function Xor(a: bv32, b: bv32): bv32
  {
    a ^ b
  }

  /** The bits of `v` inside the register mask `m`, as a function. */
  function Within(m: bv32, v: bv32): bv32
  {
    v & m
  }

  /** `top` is a single bit and `m` is every bit up to and including it. */
  predicate TopOf(top: bv32, m: bv32)
  {
    top != 0 && top & (top - 1) == 0 && m == top | (top - 1)
  }

  // ---------------------------------------------------------------------
  // Little-endian steps
  // ---------------------------------------------------------------------

  /** One round of the little-endian forward table (crcmanip/crc.py:24-28):
      shift right, folding in the reversed polynomial `q` when the low bit
      was set. */
  function LittleForward(q: bv32, v: bv32): bv32
  {
    if v & 1 != 0 then (v >> 1) ^ q else v >> 1
  }

  /** One round of the little-endian reverse table (crcmanip/crc.py:53-57). */
  function LittleReverse(q: bv32, top: bv32, v: bv32): bv32
  {
    if v & top != 0 then ((v ^ q) << 1) | 1 else v << 1
  }

  /** `k` forward rounds, the last one outermost. */
  function LittleForwardRounds(q: bv32, k: nat, v: bv32): bv32
  {
    if k == 0 then v else LittleForward(q, LittleForwardRounds(q, k - 1, v))
  }

  /** `k` reverse rounds, the last one outermost. */
  function LittleReverseRounds(q: bv32, top: bv32, k: nat, v: bv32): bv32
  {
    if k == 0 then v else LittleReverse(q, top, LittleReverseRounds(q, top, k - 1, v))
  }

  lemma ForwardOdd(q: bv32, v: bv32)
    requires v & 1 != 0
    ensures LittleForward(q, v) == (v >> 1) ^ q
  {
  }

  lemma ForwardEven(q: bv32, v: bv32)
    requires v & 1 == 0
    ensures LittleForward(q, v) == v >> 1
  {
  }

  lemma ReverseTop(q: bv32, top: bv32, v: bv32)
    requires v & top != 0
    ensures LittleReverse(q, top, v) == ((v ^ q) << 1) | 1
  {
  }

  lemma ReverseLow(q: bv32, top: bv32, v: bv32)
    requires v & top == 0
    ensures LittleReverse(q, top, v) == v << 1
  {
  }

  lemma LittleOddUndo(q: bv32, top: bv32, m: bv32, v: bv32, f: bv32)
    requires TopOf(top, m)
    requires v & m == v && q & top == top && v & 1 != 0 && f == (v >> 1) ^ q
    ensures f & top != 0 && ((f ^ q) << 1) | 1 == v
  {
  }

  lemma LittleEvenUndo(top: bv32, m: bv32, v: bv32, f: bv32)
    requires TopOf(top, m)
    requires v & m == v && v & 1 == 0 && f == v >> 1
    ensures f & top == 0 && f << 1 == v
  {
  }

  /** A reverse round undoes a forward round on a register value, when the
      reversed polynomial has its top bit set (the polynomial is odd). */
  lemma LittleUndo(q: bv32, top: bv32, m: bv32, v: bv32)
    requires TopOf(top, m)
    requires v & m == v && q & top == top
    ensures LittleReverse(q, top, LittleForward(q, v)) == v
  {
    var f := LittleForward(q, v);
    if v & 1 != 0 {
      ForwardOdd(q, v);
      LittleOddUndo(q, top, m, v, f);
      ReverseTop(q, top, f);
    } else {
      ForwardEven(q, v);
      LittleEvenUndo(top, m, v, f);
      ReverseLow(q, top, f);
    }
  }

  lemma FitsOdd(q: bv32, top: bv32, m: bv32, v: bv32, f: bv32)
    requires TopOf(top, m)
    requires v & m == v && q & m == q && f == (v >> 1) ^ q
    ensures f & m == f
  {
  }

  lemma FitsEven(top: bv32, m: bv32, v: bv32, f: bv32)
    requires TopOf(top, m)
    requires v & m == v && f == v >> 1
    ensures f & m == f
  {
  }

  /** A forward round keeps a register value inside the register. */
  lemma LittleForwardFits(q: bv32, top: bv32, m: bv32, v: bv32)
    requires TopOf(top, m)
    requires v & m == v && q & m == q
    ensures LittleForward(q, v) & m == LittleForward(q, v)
  {
    var f := LittleForward(q, v);
    if v & 1 != 0 {
      ForwardOdd(q, v);
      FitsOdd(q, top, m, v, f);
    } else {
      ForwardEven(q, v);
      FitsEven(top, m, v, f);
    }
  }

  lemma LinearBoth(q: bv32, a: bv32, b: bv32)
    ensures (a ^ b) << 1 == (((a ^ q) << 1) | 1) ^ (((b ^ q) << 1) | 1)
  {
  }

  lemma LinearNone(a: bv32, b: bv32)
    ensures (a ^ b) << 1 == (a << 1) ^ (b << 1)
  {
  }

  lemma TopXor(top: bv32, a: bv32, b: bv32)
    requires top != 0 && top & (top - 1) == 0
    ensures ((a ^ b) & top != 0) == ((a & top != 0) != (b & top != 0))
  {
  }

  lemma LinearTopTop(q: bv32, top: bv32, a: bv32, b: bv32)
    requires a & top != 0 && b & top != 0 && (a ^ b) & top == 0
    ensures LittleReverse(q, top, a ^ b) == LittleReverse(q, top, a) ^ LittleReverse(q, top, b)
  {
    ReverseTop(q, top, a);
    ReverseTop(q, top, b);
    ReverseLow(q, top, a ^ b);
    LinearBoth(q, a, b);
  }

  lemma LinearOneV(q: bv32, a: bv32, b: bv32, ab: bv32, ra: bv32, rb: bv32, rab: bv32)
    requires ab == a ^ b && ra == ((a ^ q) << 1) | 1 && rb == b << 1 && rab == ((ab ^ q) << 1) | 1
    ensures rab == ra ^ rb
  {
  }

  lemma LinearTopLow(q: bv32, top: bv32, a: bv32, b: bv32)
    requires a & top != 0 && b & top == 0 && (a ^ b) & top != 0
    ensures LittleReverse(q, top, a ^ b) == LittleReverse(q, top, a) ^ LittleReverse(q, top, b)
  {
    var ab := a ^ b;
    var ra, rb, rab := LittleReverse(q, top, a), LittleReverse(q, top, b), LittleReverse(q, top, ab);
    ReverseTop(q, top, a);
    ReverseLow(q, top, b);
    ReverseTop(q, top, ab);
    LinearOneV(q, a, b, ab, ra, rb, rab);
  }

  lemma LinearLowLow(q: bv32, top: bv32, a: bv32, b: bv32)
    requires a & top == 0 && b & top == 0 && (a ^ b) & top == 0
    ensures LittleReverse(q, top, a ^ b) == LittleReverse(q, top, a) ^ LittleReverse(q, top, b)
  {
    ReverseLow(q, top, a);
    ReverseLow(q, top, b);
    ReverseLow(q, top, a ^ b);
    LinearNone(a, b);
  }

  lemma XorComm(a: bv32, b: bv32)
    ensures a ^ b == b ^ a
  {
  }

  /** A reverse round is linear over exclusive or. */
  lemma LittleReverseLinear(q: bv32, top: bv32, a: bv32, b: bv32)
    requires top != 0 && top & (top - 1) == 0
    ensures LittleReverse(q, top, Xor(a, b)) == Xor(LittleReverse(q, top, a), LittleReverse(q, top, b))
  {
    TopXor(top, a, b);
    if a & top != 0 && b & top != 0 {
      LinearTopTop(q, top, a, b);
    } else if a & top != 0 {
      LinearTopLow(q, top, a, b);
    } else if b & top != 0 {
      LinearTopLow(q, top, b, a);
      XorComm(a, b);
      XorComm(LittleReverse(q, top, a), LittleReverse(q, top, b));
    } else {
      LinearLowLow(q, top, a, b);
    }
  }

  lemma ForwardRoundsLast(q: bv32, k: nat, v: bv32)
    requires k >= 1
    ensures LittleForwardRounds(q, k, v) == LittleForward(q, LittleForwardRounds(q, k - 1, v))
  {
  }

  lemma ReverseRoundsLast(q: bv32, top: bv32, k: nat, v: bv32)
    requires k >= 1
    ensures LittleReverseRounds(q, top, k, v) == LittleReverse(q, top, LittleReverseRounds(q, top, k - 1, v))
  {
  }

  /** The reverse rounds can be counted from the first one as well. */
  lemma {:induction false} ReverseRoundsFirst(q: bv32, top: bv32, k: nat, v: bv32)
    requires k >= 1
    ensures LittleReverseRounds(q, top, k, v) == LittleReverseRounds(q, top, k - 1, LittleReverse(q, top, v))
  {
    if k > 1 {
      ReverseRoundsFirst(q, top, k - 1, v);
      ReverseRoundsLast(q, top, k, v);
      ReverseRoundsLast(q, top, k - 1, LittleReverse(q, top, v));
    }
  }

  /** Forward rounds keep a register value inside the register. */
  lemma {:induction false} ForwardRoundsFit(q: bv32, top: bv32, m: bv32, k: nat, v: bv32)
    requires TopOf(top, m) && v & m == v && q & m == q
    ensures LittleForwardRounds(q, k, v) & m == LittleForwardRounds(q, k, v)
  {
    if k > 0 {
      ForwardRoundsFit(q, top, m, k - 1, v);
      ForwardRoundsLast(q, k, v);
      LittleForwardFits(q, top, m, LittleForwardRounds(q, k - 1, v));
    }
  }

  /** `k` reverse rounds undo `k` forward rounds. */
  lemma {:induction false} LittleRoundsUndo(q: bv32, top: bv32, m: bv32, k: nat, v: bv32)
    requires TopOf(top, m) && v & m == v && q & m == q && q & top == top
    ensures LittleReverseRounds(q, top, k, LittleForwardRounds(q, k, v)) == v
  {
    if k > 0 {
      var u := LittleForwardRounds(q, k - 1, v);
      ForwardRoundsFit(q, top, m, k - 1, v);
      ForwardRoundsLast(q, k, v);
      var f := LittleForward(q, u);
      ReverseRoundsFirst(q, top, k, f);
      LittleUndo(q, top, m, u);
      LittleRoundsUndo(q, top, m, k - 1, v);
    }
  }

  /** Reverse rounds are linear over exclusive or. */
  lemma {:induction false} LittleRoundsLinear(q: bv32, top: bv32, k: nat, a: bv32, b: bv32)
    requires top != 0 && top & (top - 1) == 0
    ensures LittleReverseRounds(q, top, k, Xor(a, b))
         == Xor(LittleReverseRounds(q, top, k, a), LittleReverseRounds(q, top, k, b))
  {
    if k > 0 {
      LittleRoundsLinear(q, top, k - 1, a, b);
      LittleReverseLinear(q, top, LittleReverseRounds(q, top, k - 1, a), LittleReverseRounds(q, top, k - 1, b));
    }
  }

  /** A right shift by one bit, as a function. */
  function Half(v: bv32): bv32
  {
    v >> 1
  }

  lemma ForwardEvenRound(q: bv32, i: nat, k: nat, w: bv32, u: bv32)
    requires k == i + 1 && u == LittleForwardRounds(q, i, w) && u & 1 == 0
    ensures LittleForwardRounds(q, k, w) == Half(u)
  {
    ForwardRoundsLast(q, k, w);
    ForwardEven(q, u);
  }

  lemma ForwardPairOut(q: bv32, i: nat, j: nat, k: nat, w: bv32, u: bv32)
    requires j == i + 1 && k == j + 1 && u == LittleForwardRounds(q, i, w) && u & 3 == 0
    ensures LittleForwardRounds(q, k, w) == Half(Half(u))
  {
    var u1 := Half(u);
    ForwardEvenRound(q, i, j, w, u);
    ForwardEvenRound(q, j, k, w, u1);
  }

  /** A value whose low byte is clear leaves eight forward rounds shifted
      down by one byte: no round meets a set low bit. */
  lemma ForwardByteOut(q: bv32, w: bv32)
    requires w & 0xFF == 0
    ensures LittleForwardRounds(q, 8, w) == w >> 8
  {
    var u2 := Half(Half(w));
    var u4 := Half(Half(u2));
    var u6 := Half(Half(u4));
    ForwardPairOut(q, 0, 1, 2, w, w);
    ForwardPairOut(q, 2, 3, 4, w, u2);
    ForwardPairOut(q, 4, 5, 6, w, u4);
    ForwardPairOut(q, 6, 7, 8, w, u6);
  }

  lemma LowShift(m: bv32, lo: bv32, w: bv32)
    requires lo & (m >> 8) == lo && w == lo << 8
    ensures w & 0xFF == 0 && w >> 8 == lo
  {
  }

  lemma LowShiftFits(m: bv32, lo: bv32, w: bv32)
    requires lo & (m >> 8) == lo && w == lo << 8
    ensures w & m == w
  {
  }

  /** A value below the top byte of the register leaves eight reverse
      rounds shifted up by one byte. */
  lemma LittleLowRounds(q: bv32, top: bv32, m: bv32, lo: bv32, w: bv32)
    requires TopOf(top, m) && q & m == q && q & top == top && lo & (m >> 8) == lo && w == lo << 8
    ensures LittleReverseRounds(q, top, 8, lo) == w
  {
    LowShift(m, lo, w);
    LowShiftFits(m, lo, w);
    ForwardByteOut(q, w);
    LittleRoundsUndo(q, top, m, 8, w);
  }

  // ---------------------------------------------------------------------
  // Big-endian steps
  // ---------------------------------------------------------------------

  /** One round of the big-endian forward table (crcmanip/crc.py:19-22):
      shift left, folding in the polynomial when the top bit was set. Bits
      pushed out above the register stay until the entry is masked. */
  function BigForward(p: bv32, top: bv32, v: bv32): bv32
  {
    if v & top != 0 then (v << 1) ^ p else v << 1
  }

  /** One round of the big-endian reverse table (crcmanip/crc.py:46-51). */
  function BigReverse(p: bv32, top: bv32, v: bv32): bv32
  {
    if v & 1 != 0 then ((v ^ p) >> 1) | top else v >> 1
  }

  function BigForwardRounds(p: bv32, top: bv32, k: nat, v: bv32): bv32
  {
    if k == 0 then v else BigForward(p, top, BigForwardRounds(p, top, k - 1, v))
  }

  function BigReverseRounds(p: bv32, top: bv32, k: nat, v: bv32): bv32
  {
    if k == 0 then v else BigReverse(p, top, BigReverseRounds(p, top, k - 1, v))
  }

  lemma BigForwardTop(p: bv32, top: bv32, v: bv32)
    requires v & top != 0
    ensures BigForward(p, top, v) == (v << 1) ^ p
  {
  }

  lemma BigForwardLow(p: bv32, top: bv32, v: bv32)
    requires v & top == 0
    ensures BigForward(p, top, v) == v << 1
  {
  }

  lemma BigReverseOdd(p: bv32, top: bv32, v: bv32)
    requires v & 1 != 0
    ensures BigReverse(p, top, v) == ((v ^ p) >> 1) | top
  {
  }

  lemma BigReverseEven(p: bv32, top: bv32, v: bv32)
    requires v & 1 == 0
    ensures BigReverse(p, top, v) == v >> 1
  {
  }

  lemma KeepTopBit(top: bv32, m: bv32, v: bv32, u: bv32)
    requires TopOf(top, m) && u == v & m
    ensures (u & top != 0) == (v & top != 0)
  {
  }

  /** Shifting left never moves a bit from above the register into it. */
  lemma OutsideStaysOut(top: bv32, m: bv32)
    requires TopOf(top, m)
    ensures (!m << 1) & m == 0
  {
  }

  lemma JunkTop(p: bv32, m: bv32, v: bv32, u: bv32, g: bv32, h: bv32)
    requires (!m << 1) & m == 0 && u == v & m && g == (v << 1) ^ p && h == (u << 1) ^ p
    ensures g & m == h & m
  {
  }

  lemma JunkLow(m: bv32, v: bv32, u: bv32, g: bv32, h: bv32)
    requires (!m << 1) & m == 0 && u == v & m && g == v << 1 && h == u << 1
    ensures g & m == h & m
  {
  }

  lemma WithinEq(m: bv32, g: bv32, h: bv32)
    requires g & m == h & m
    ensures Within(m, g) == Within(m, h)
  {
  }

  /** Bits above the register never reach it again in a forward round. */
  lemma BigForwardJunk(p: bv32, top: bv32, m: bv32, v: bv32)
    requires TopOf(top, m)
    ensures Within(m, BigForward(p, top, v)) == Within(m, BigForward(p, top, Within(m, v)))
  {
    var u := Within(m, v);
    var g, h := BigForward(p, top, v), BigForward(p, top, u);
    KeepTopBit(top, m, v, u);
    OutsideStaysOut(top, m);
    if v & top != 0 {
      BigForwardTop(p, top, v);
      BigForwardTop(p, top, u);
      JunkTop(p, m, v, u, g, h);
      WithinEq(m, g, h);
    } else {
      BigForwardLow(p, top, v);
      BigForwardLow(p, top, u);
      JunkLow(m, v, u, g, h);
      WithinEq(m, g, h);
    }
  }

  lemma BigTopUndo(p: bv32, top: bv32, m: bv32, u: bv32, g: bv32, f: bv32)
    requires TopOf(top, m) && p & m == p && p & 1 == 1
    requires u & m == u && u & top != 0 && g == (u << 1) ^ p && f == g & m
    ensures f & 1 != 0 && ((f ^ p) >> 1) | top == u
  {
  }

  lemma BigLowUndo(top: bv32, m: bv32, u: bv32, g: bv32, f: bv32)
    requires TopOf(top, m) && u & m == u && u & top == 0 && g == u << 1 && f == g & m
    ensures f & 1 == 0 && f >> 1 == u
  {
  }

  /** A reverse round undoes a masked forward round, when the polynomial is
      odd and fits the register. */
  lemma BigUndo(p: bv32, top: bv32, m: bv32, u: bv32)
    requires TopOf(top, m) && p & m == p && p & 1 == 1 && u & m == u
    ensures BigReverse(p, top, Within(m, BigForward(p, top, u))) == u
  {
    var g := BigForward(p, top, u);
    var f := Within(m, g);
    if u & top != 0 {
      BigForwardTop(p, top, u);
      BigTopUndo(p, top, m, u, g, f);
      BigReverseOdd(p, top, f);
    } else {
      BigForwardLow(p, top, u);
      BigLowUndo(top, m, u, g, f);
      BigReverseEven(p, top, f);
    }
  }

  lemma BigOddFits(p: bv32, top: bv32, m: bv32, v: bv32, r: bv32)
    requires TopOf(top, m) && p & m == p && v & m == v && r == ((v ^ p) >> 1) | top
    ensures r & m == r
  {
  }

  lemma BigEvenFits(top: bv32, m: bv32, v: bv32, r: bv32)
    requires TopOf(top, m) && v & m == v && r == v >> 1
    ensures r & m == r
  {
  }

  /** A reverse round keeps a register value inside the register. */
  lemma BigReverseFits(p: bv32, top: bv32, m: bv32, v: bv32)
    requires TopOf(top, m) && p & m == p && v & m == v
    ensures BigReverse(p, top, v) & m == BigReverse(p, top, v)
  {
    var r := BigReverse(p, top, v);
    if v & 1 != 0 {
      BigReverseOdd(p, top, v);
      BigOddFits(p, top, m, v, r);
    } else {
      BigReverseEven(p, top, v);
      BigEvenFits(top, m, v, r);
    }
  }

  lemma BigLinearOddOdd(p: bv32, top: bv32, m: bv32, a: bv32, b: bv32, ab: bv32, ra: bv32, rb: bv32, rab: bv32)
    requires TopOf(top, m) && p & m == p && a & m == a && b & m == b && ab == a ^ b
    requires ra == ((a ^ p) >> 1) | top && rb == ((b ^ p) >> 1) | top && rab == ab >> 1
    ensures rab == ra ^ rb
  {
  }

  lemma BigLinearOddEven(p: bv32, top: bv32, m: bv32, a: bv32, b: bv32, ab: bv32, ra: bv32, rb: bv32, rab: bv32)
    requires TopOf(top, m) && p & m == p && a & m == a && b & m == b && ab == a ^ b
    requires ra == ((a ^ p) >> 1) | top && rb == b >> 1 && rab == ((ab ^ p) >> 1) | top
    ensures rab == ra ^ rb
  {
  }

  lemma BigLinearEvenEven(a: bv32, b: bv32, ab: bv32, ra: bv32, rb: bv32, rab: bv32)
    requires ab == a ^ b && ra == a >> 1 && rb == b >> 1 && rab == ab >> 1
    ensures rab == ra ^ rb
  {
  }

  lemma OddXor(a: bv32, b: bv32)
    ensures ((a ^ b) & 1 != 0) == ((a & 1 != 0) != (b & 1 != 0))
  {
  }

  lemma BigOddOdd(p: bv32, top: bv32, m: bv32, a: bv32, b: bv32)
    requires TopOf(top, m) && p & m == p && a & m == a && b & m == b
    requires a & 1 != 0 && b & 1 != 0 && (a ^ b) & 1 == 0
    ensures BigReverse(p, top, a ^ b) == BigReverse(p, top, a) ^ BigReverse(p, top, b)
  {
    var ab := a ^ b;
    var ra, rb, rab := BigReverse(p, top, a), BigReverse(p, top, b), BigReverse(p, top, ab);
    BigReverseOdd(p, top, a);
    BigReverseOdd(p, top, b);
    BigReverseEven(p, top, ab);
    BigLinearOddOdd(p, top, m, a, b, ab, ra, rb, rab);
  }

  lemma BigOddEven(p: bv32, top: bv32, m: bv32, a: bv32, b: bv32)
    requires TopOf(top, m) && p & m == p && a & m == a && b & m == b
    requires a & 1 != 0 && b & 1 == 0 && (a ^ b) & 1 != 0
    ensures BigReverse(p, top, a ^ b) == BigReverse(p, top, a) ^ BigReverse(p, top, b)
  {
    var ab := a ^ b;
    var ra, rb, rab := BigReverse(p, top, a), BigReverse(p, top, b), BigReverse(p, top, ab);
    BigReverseOdd(p, top, a);
    BigReverseEven(p, top, b);
    BigReverseOdd(p, top, ab);
    BigLinearOddEven(p, top, m, a, b, ab, ra, rb, rab);
  }

  lemma BigEvenEven(p: bv32, top: bv32, a: bv32, b: bv32)
    requires a & 1 == 0 && b & 1 == 0 && (a ^ b) & 1 == 0
    ensures BigReverse(p, top, a ^ b) == BigReverse(p, top, a) ^ BigReverse(p, top, b)
  {
    var ab := a ^ b;
    var ra, rb, rab := BigReverse(p, top, a), BigReverse(p, top, b), BigReverse(p, top, ab);
    BigReverseEven(p, top, a);
    BigReverseEven(p, top, b);
    BigReverseEven(p, top, ab);
    BigLinearEvenEven(a, b, ab, ra, rb, rab);
  }

  /** A reverse round is linear over exclusive or on register values. */
  lemma BigReverseLinear(p: bv32, top: bv32, m: bv32, a: bv32, b: bv32)
    requires TopOf(top, m) && p & m == p && a & m == a && b & m == b
    ensures BigReverse(p, top, Xor(a, b)) == Xor(BigReverse(p, top, a), BigReverse(p, top, b))
  {
    OddXor(a, b);
    if a & 1 != 0 && b & 1 != 0 {
      BigOddOdd(p, top, m, a, b);
    } else if a & 1 != 0 {
      BigOddEven(p, top, m, a, b);
    } else if b & 1 != 0 {
      BigOddEven(p, top, m, b, a);
      XorComm(a, b);
      XorComm(BigReverse(p, top, a), BigReverse(p, top, b));
    } else {
      BigEvenEven(p, top, a, b);
    }
  }

  lemma BigForwardRoundsLast(p: bv32, top: bv32, k: nat, v: bv32)
    requires k >= 1
    ensures BigForwardRounds(p, top, k, v) == BigForward(p, top, BigForwardRounds(p, top, k - 1, v))
  {
  }

  lemma BigReverseRoundsLast(p: bv32, top: bv32, k: nat, v: bv32)
    requires k >= 1
    ensures BigReverseRounds(p, top, k, v) == BigReverse(p, top, BigReverseRounds(p, top, k - 1, v))
  {
  }

  lemma {:induction false} BigReverseRoundsFirst(p: bv32, top: bv32, k: nat, v: bv32)
    requires k >= 1
    ensures BigReverseRounds(p, top, k, v) == BigReverseRounds(p, top, k - 1, BigReverse(p, top, v))
  {
    if k > 1 {
      BigReverseRoundsFirst(p, top, k - 1, v);
      BigReverseRoundsLast(p, top, k, v);
      BigReverseRoundsLast(p, top, k - 1, BigReverse(p, top, v));
    }
  }

  /** Reverse rounds keep a register value inside the register. */
  lemma {:induction false} BigReverseRoundsFit(p: bv32, top: bv32, m: bv32, k: nat, v: bv32)
    requires TopOf(top, m) && p & m == p && v & m == v
    ensures BigReverseRounds(p, top, k, v) & m == BigReverseRounds(p, top, k, v)
  {
    if k > 0 {
      BigReverseRoundsFit(p, top, m, k - 1, v);
      BigReverseRoundsLast(p, top, k, v);
      BigReverseFits(p, top, m, BigReverseRounds(p, top, k - 1, v));
    }
  }

  /** The masked forward rounds only see the register: the bits the left
      shifts push out never come back. */
  lemma {:induction false} BigForwardRoundsJunk(p: bv32, top: bv32, m: bv32, k: nat, v: bv32)
    requires TopOf(top, m) && k >= 1
    ensures Within(m, BigForwardRounds(p, top, k, v))
         == Within(m, BigForward(p, top, Within(m, BigForwardRounds(p, top, k - 1, v))))
  {
    BigForwardRoundsLast(p, top, k, v);
    BigForwardJunk(p, top, m, BigForwardRounds(p, top, k - 1, v));
  }

  /** `k` reverse rounds undo `k` forward rounds, once the forward result is
      masked to the register. */
  lemma {:induction false} BigRoundsUndo(p: bv32, top: bv32, m: bv32, k: nat, v: bv32)
    requires TopOf(top, m) && p & m == p && p & 1 == 1 && v & m == v
    ensures BigReverseRounds(p, top, k, Within(m, BigForwardRounds(p, top, k, v))) == v
  {
    if k == 0 {
    } else {
      var u := Within(m, BigForwardRounds(p, top, k - 1, v));
      BigForwardRoundsJunk(p, top, m, k, v);
      var f := Within(m, BigForward(p, top, u));
      BigReverseRoundsFirst(p, top, k, f);
      BigUndo(p, top, m, u);
      BigRoundsUndo(p, top, m, k - 1, v);
    }
  }

  /** Reverse rounds are linear over exclusive or on register values. */
  lemma {:induction false} BigRoundsLinear(p: bv32, top: bv32, m: bv32, k: nat, a: bv32, b: bv32)
    requires TopOf(top, m) && p & m == p && a & m == a && b & m == b
    ensures BigReverseRounds(p, top, k, Xor(a, b))
         == Xor(BigReverseRounds(p, top, k, a), BigReverseRounds(p, top, k, b))
  {
    if k > 0 {
      BigRoundsLinear(p, top, m, k - 1, a, b);
      BigReverseRoundsFit(p, top, m, k - 1, a);
      BigReverseRoundsFit(p, top, m, k - 1, b);
      BigReverseLinear(p, top, m, BigReverseRounds(p, top, k - 1, a), BigReverseRounds(p, top, k - 1, b));
    }
  }

  lemma BigEvenRound(p: bv32, top: bv32, i: nat, k: nat, w: bv32, u: bv32)
    requires k == i + 1 && u == BigReverseRounds(p, top, i, w) && u & 1 == 0
    ensures BigReverseRounds(p, top, k, w) == Half(u)
  {
    BigReverseRoundsLast(p, top, k, w);
    BigReverseEven(p, top, u);
  }

  lemma BigPairOut(p: bv32, top: bv32, i: nat, j: nat, k: nat, w: bv32, u: bv32)
    requires j == i + 1 && k == j + 1 && u == BigReverseRounds(p, top, i, w) && u & 3 == 0
    ensures BigReverseRounds(p, top, k, w) == Half(Half(u))
  {
    var u1 := Half(u);
    BigEvenRound(p, top, i, j, w, u);
    BigEvenRound(p, top, j, k, w, u1);
  }

  /** A value whose low byte is clear leaves eight reverse rounds shifted
      down by one byte. */
  lemma BigByteOut(p: bv32, top: bv32, w: bv32)
    requires w & 0xFF == 0
    ensures BigReverseRounds(p, top, 8, w) == w >> 8
  {
    var u2 := Half(Half(w));
    var u4 := Half(Half(u2));
    var u6 := Half(Half(u4));
    BigPairOut(p, top, 0, 1, 2, w, w);
    BigPairOut(p, top, 2, 3, 4, w, u2);
    BigPairOut(p, top, 4, 5, 6, w, u4);
    BigPairOut(p, top, 6, 7, 8, w, u6);
  }
}
