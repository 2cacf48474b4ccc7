/** Why the tables built by crcmanip/crc.py:7-62 let `CrcPrev` undo
    `CrcNext`: for every odd polynomial and every register of one to four
    bytes, the lookup table and the reverse lookup table stand in the
    relation `FastCrc.Consistent` asks for, so `FastCrc.RoundTrip` applies to
    them.

    Little-endian: entry `x` of the lookup table is eight forward rounds of
    `x`. Its top byte selects the reverse entry built from that byte alone;
    the reverse rounds are linear, so that entry plus the reverse rounds of
    the rest of the entry give back `x`, and the rest, being below the top
    byte, comes out of the reverse rounds shifted up one byte.

    Big-endian: the same argument with the roles of the two ends of the
    register exchanged, on `x` moved to the top byte. */
module Consistency {
  import opened Bits
  import opened Rounds
  import opened FastCrc
  import opened Tables

  // ---------------------------------------------------------------------------
  // Reading the tables

  lemma LowIndex(x: bv32)
    requires x <= 0xFF
    ensures Index(x) == x as nat
  {
  }

  lemma NatRoundTrip(x: bv32)
    ensures (x as nat) as bv32 == x
  {
  }

  lemma IndexBack(x: bv32)
    requires x <= 0xFF
    ensures Index(x) < 256 && Index(x) as bv32 == x
  {
    LowIndex(x);
    NatRoundTrip(x);
  }

  /** The entry a byte `x` selects in the lookup table. */
  lemma LookupAt(polynomial: bv32, numBits: nat, bigEndian: bool, x: bv32)
    requires x <= 0xFF
    ensures LookupTable(polynomial, numBits, bigEndian)[Index(x)] == LookupEntry(polynomial, numBits, bigEndian, x)
  {
    IndexBack(x);
  }

  /** The entry a byte `x` selects in the reverse lookup table. */
  lemma ReverseAt(polynomial: bv32, numBits: nat, bigEndian: bool, x: bv32)
    requires x <= 0xFF
    ensures ReverseTable(polynomial, numBits, bigEndian)[Index(x)] == ReverseEntry(polynomial, numBits, bigEndian, x)
  {
    IndexBack(x);
  }

  // ---------------------------------------------------------------------------
  // The shape of a register of whole bytes

  lemma ConfigShape(cfg: Config)
    requires ValidConfig(cfg)
    ensures TopOf(Top(cfg.numBits), WordMask(cfg))
    ensures cfg.numBits / 8 == cfg.numBytes
  {
    MaskConstants();
  }

  /** The reversed polynomial fits the register and, for an odd polynomial,
      has the top bit of the register set. */
  lemma ReversedPolynomial(polynomial: bv32, numBits: nat)
    requires 1 <= numBits && polynomial & 1 == 1
    ensures Mirror(polynomial, numBits) & Mask(numBits) == Mirror(polynomial, numBits)
    ensures Mirror(polynomial, numBits) & Top(numBits) == Top(numBits)
  {
    MirrorFits(polynomial, numBits);
    MirrorTopAt(polynomial, numBits - 1, numBits);
  }

  lemma MirrorTopAt(polynomial: bv32, k: nat, numBits: nat)
    requires polynomial & 1 == 1 && numBits == k + 1
    ensures Mirror(polynomial, numBits) & Top(numBits) == Top(numBits)
  {
    MirrorTop(polynomial, k);
  }

  lemma ShlStep(v: bv32, i: nat, a: bv32)
    requires a == ShlBytes(v, i)
    ensures ShlBytes(v, i + 1) == a << 8
  {
    ShlBytesUp(v, i);
  }

  lemma ShiftLeftTwice(v: bv32, a: bv32, b: bv32)
    requires a == v << 8 && b == a << 8
    ensures b == v << 16
  {
  }

  lemma ShiftLeftThrice(v: bv32, b: bv32, c: bv32)
    requires b == v << 16 && c == b << 8
    ensures c == v << 24
  {
  }

  lemma ShlBytesOne(v: bv32)
    ensures ShlBytes(v, 1) == v << 8
  {
    ShlStep(v, 0, v);
  }

  lemma ShlBytesTwo(v: bv32)
    ensures ShlBytes(v, 2) == v << 16
  {
    var a := v << 8;
    var b := a << 8;
    ShlBytesOne(v);
    ShlStep(v, 1, a);
    ShiftLeftTwice(v, a, b);
  }

  lemma ShlBytesThree(v: bv32)
    ensures ShlBytes(v, 3) == v << 24
  {
    var b := v << 16;
    var c := b << 8;
    ShlBytesTwo(v);
    ShlStep(v, 2, b);
    ShiftLeftThrice(v, b, c);
  }

  /** `swap_endian` of a single byte is that byte moved to the top byte,
      which is `ShiftUp`. */
  lemma SwapIsShiftUp(cfg: Config, v: bv32)
    requires ValidConfig(cfg) && v <= 0xFF
    ensures ByteSwap(v, cfg.numBytes) == ShiftUp(cfg, v)
  {
    SwapByte(v, cfg.numBytes - 1);
    if cfg.numBytes == 2 {
      ShlBytesOne(v);
    } else if cfg.numBytes == 3 {
      ShlBytesTwo(v);
    } else if cfg.numBytes == 4 {
      ShlBytesThree(v);
    }
  }

  /** A byte fits every register of whole bytes. */
  lemma ByteFits(m: bv32, x: bv32)
    requires m & 0xFF == 0xFF && x <= 0xFF
    ensures x & m == x
  {
  }

  lemma XorDef(a: bv32, b: bv32)
    ensures Xor(a, b) == a ^ b
  {
  }

  // ---------------------------------------------------------------------------
  // Little-endian

  /** The top byte `hi` of a register value `t`, moved back into place as
      `high`, and the bytes below it, `low`, make up `t`. */
  lemma PartsOne(cfg: Config, m: bv32, t: bv32, hi: bv32, high: bv32, low: bv32)
    requires cfg.numBytes == 1 && m == 0xFF && t & m == t
    requires hi == ShiftDown(cfg, t) && high == ShiftUp(cfg, hi) && low == t & (m >> 8)
    ensures hi <= 0xFF && t == high ^ low
  {
  }

  lemma PartsTwo(cfg: Config, m: bv32, t: bv32, hi: bv32, high: bv32, low: bv32)
    requires cfg.numBytes == 2 && m == 0xFFFF && t & m == t
    requires hi == ShiftDown(cfg, t) && high == ShiftUp(cfg, hi) && low == t & (m >> 8)
    ensures hi <= 0xFF && t == high ^ low
  {
  }

  lemma PartsThree(cfg: Config, m: bv32, t: bv32, hi: bv32, high: bv32, low: bv32)
    requires cfg.numBytes == 3 && m == 0xFF_FFFF && t & m == t
    requires hi == ShiftDown(cfg, t) && high == ShiftUp(cfg, hi) && low == t & (m >> 8)
    ensures hi <= 0xFF && t == high ^ low
  {
  }

  lemma PartsFour(cfg: Config, m: bv32, t: bv32, hi: bv32, high: bv32, low: bv32)
    requires cfg.numBytes == 4 && m == 0xFFFF_FFFF
    requires hi == ShiftDown(cfg, t) && high == ShiftUp(cfg, hi) && low == t & (m >> 8)
    ensures hi <= 0xFF && t == high ^ low
  {
  }

  lemma LittleParts(cfg: Config, m: bv32, t: bv32, hi: bv32, high: bv32, low: bv32)
    requires ValidConfig(cfg) && m == WordMask(cfg) && t & m == t
    requires hi == ShiftDown(cfg, t) && high == ShiftUp(cfg, hi) && low == t & (m >> 8)
    ensures hi <= 0xFF && t == high ^ low
  {
    WordMaskValue(cfg);
    if cfg.numBytes == 1 {
      PartsOne(cfg, m, t, hi, high, low);
    } else if cfg.numBytes == 2 {
      PartsTwo(cfg, m, t, hi, high, low);
    } else if cfg.numBytes == 3 {
      PartsThree(cfg, m, t, hi, high, low);
    } else {
      PartsFour(cfg, m, t, hi, high, low);
    }
  }

  /** The top byte moves out of the register when shifted up one byte. */
  lemma OutOne(hi: bv32, high: bv32)
    requires hi <= 0xFF && high == hi
    ensures (high << 8) & 0xFF == 0
  {
  }

  lemma OutTwo(hi: bv32, high: bv32)
    requires hi <= 0xFF && high == hi << 8
    ensures (high << 8) & 0xFFFF == 0
  {
  }

  lemma OutThree(hi: bv32, high: bv32)
    requires hi <= 0xFF && high == hi << 16
    ensures (high << 8) & 0xFF_FFFF == 0
  {
  }

  lemma OutFour(hi: bv32, high: bv32)
    requires high == hi << 24
    ensures (high << 8) & 0xFFFF_FFFF == 0
  {
  }

  lemma TopByteOut(cfg: Config, m: bv32, hi: bv32, high: bv32)
    requires ValidConfig(cfg) && m == WordMask(cfg) && hi <= 0xFF && high == ShiftUp(cfg, hi)
    ensures (high << 8) & m == 0
  {
    WordMaskValue(cfg);
    if cfg.numBytes == 1 {
      OutOne(hi, high);
    } else if cfg.numBytes == 2 {
      OutTwo(hi, high);
    } else if cfg.numBytes == 3 {
      OutThree(hi, high);
    } else {
      OutFour(hi, high);
    }
  }

  lemma LowFits(m: bv32, t: bv32, low: bv32)
    requires low == t & (m >> 8)
    ensures low & (m >> 8) == low
  {
  }

  /** A forward entry fits the register, so the final mask of crc.py:29
      keeps it whole. */
  lemma LittleForwardEntry(q: bv32, top: bv32, m: bv32, n: nat, x: bv32, r: bv32, t: bv32)
    requires TopOf(top, m) && q & m == q && x & m == x
    requires r == LittleForwardRounds(q, n, x) && t == Within(m, r)
    ensures t == r && t & m == t
  {
    ForwardRoundsFit(q, top, m, n, x);
    WithinFits(m, r, t);
  }

  lemma WithinFits(m: bv32, r: bv32, t: bv32)
    requires r & m == r && t == Within(m, r)
    ensures t == r && t & m == t
  {
  }

  /** The reverse rounds of the two parts of a forward entry: together they
      give back the byte the entry was built from. */
  lemma LittleBackRounds(q: bv32, top: bv32, m: bv32, x: bv32, t: bv32, high: bv32, low: bv32, w: bv32, rh: bv32)
    requires TopOf(top, m) && q & m == q && q & top == top && x & m == x
    requires t == LittleForwardRounds(q, 8, x) && t == Xor(high, low) && low & (m >> 8) == low && w == low << 8
    requires rh == LittleReverseRounds(q, top, 8, high)
    ensures x == Xor(rh, w)
  {
    LittleRoundsUndo(q, top, m, 8, x);
    LittleRoundsLinear(q, top, 8, high, low);
    LittleLowRounds(q, top, m, low, w);
  }

  lemma LittleFinal(m: bv32, t: bv32, high: bv32, low: bv32, w: bv32, rh: bv32, x: bv32)
    requires t == high ^ low && (high << 8) & m == 0 && w == low << 8 && x == rh ^ w && x & m == x
    ensures (rh & m) ^ ((t << 8) & m) == x
  {
  }

  /** The lookup entry of byte `x` and the reverse entry its top byte picks. */
  lemma LittleEntries(cfg: Config, polynomial: bv32, m: bv32, top: bv32, q: bv32, x: bv32)
    returns (t: bv32, hi: bv32, high: bv32, low: bv32, rj: bv32)
    requires ValidConfig(cfg) && polynomial & 1 == 1 && x <= 0xFF
    requires m == WordMask(cfg) && top == Top(cfg.numBits) && q == Mirror(polynomial, cfg.numBits)
    requires TopOf(top, m) && q & m == q && x & m == x && cfg.numBits / 8 == cfg.numBytes
    ensures t == LookupTable(polynomial, cfg.numBits, false)[Index(x)]
    ensures hi == ShiftDown(cfg, t) && rj == ReverseTable(polynomial, cfg.numBits, false)[Index(hi)]
    ensures t == LittleForwardRounds(q, 8, x) && t & m == t
    ensures high == ShiftUp(cfg, hi) && low == t & (m >> 8) && rj == Within(m, LittleReverseRounds(q, top, 8, high))
  {
    t := LookupTable(polynomial, cfg.numBits, false)[Index(x)];
    LookupAt(polynomial, cfg.numBits, false, x);
    LittleForwardEntry(q, top, m, 8, x, LittleForwardRounds(q, 8, x), t);
    hi := ShiftDown(cfg, t);
    high := ShiftUp(cfg, hi);
    low := t & (m >> 8);
    LittleParts(cfg, m, t, hi, high, low);
    rj := ReverseTable(polynomial, cfg.numBits, false)[Index(hi)];
    ReverseAt(polynomial, cfg.numBits, false, hi);
    SwapIsShiftUp(cfg, hi);
  }

  /** `FastCrc.LittleConsistent` at one byte `x`. */
  lemma LittleConsistentByte(cfg: Config, polynomial: bv32, x: bv32)
    returns (t: bv32, rj: bv32)
    requires ValidConfig(cfg) && polynomial & 1 == 1 && x <= 0xFF
    ensures t == LookupTable(polynomial, cfg.numBits, false)[Index(x)]
    ensures rj == ReverseTable(polynomial, cfg.numBits, false)[Index(ShiftDown(cfg, t))]
    ensures rj ^ ((t << 8) & WordMask(cfg)) == x
  {
    var m := WordMask(cfg);
    var top := Top(cfg.numBits);
    var q := Mirror(polynomial, cfg.numBits);
    ConfigShape(cfg);
    ReversedPolynomial(polynomial, cfg.numBits);
    WordMaskLow(cfg);
    ByteFits(m, x);
    var hi, high, low;
    t, hi, high, low, rj := LittleEntries(cfg, polynomial, m, top, q, x);
    LittleParts(cfg, m, t, hi, high, low);
    TopByteOut(cfg, m, hi, high);
    LowFits(m, t, low);
    XorDef(high, low);
    var w := low << 8;
    var rh := LittleReverseRounds(q, top, 8, high);
    LittleBackRounds(q, top, m, x, t, high, low, w, rh);
    XorDef(rh, w);
    LittleFinal(m, t, high, low, w, rh, x);
  }

  /** `FastCrc.LittleConsistent` for the tables crc.py builds. */
  lemma LittleTablesConsistent(cfg: Config, polynomial: bv32)
    requires ValidConfig(cfg) && polynomial & 1 == 1
    ensures LittleConsistent(cfg, LookupTable(polynomial, cfg.numBits, false), ReverseTable(polynomial, cfg.numBits, false))
  {
    var table := LookupTable(polynomial, cfg.numBits, false);
    var rtable := ReverseTable(polynomial, cfg.numBits, false);
    forall x: bv32 | x <= 0xFF
      ensures LittleInverts(cfg, table, rtable, x)
    {
      var t, rj := LittleConsistentByte(cfg, polynomial, x);
    }
  }

  // ---------------------------------------------------------------------------
  // Big-endian

  lemma WithinFitsItself(m: bv32, r: bv32, t: bv32)
    requires t == Within(m, r)
    ensures t & m == t
  {
  }

  /** A byte moved up to the top byte of the register stays inside it. */
  lemma UpFitsOne(cfg: Config, m: bv32, x: bv32, v: bv32)
    requires cfg.numBytes == 1 && m == 0xFF && x <= 0xFF && v == ShiftUp(cfg, x)
    ensures v & m == v
  {
  }

  lemma UpFitsTwo(cfg: Config, m: bv32, x: bv32, v: bv32)
    requires cfg.numBytes == 2 && m == 0xFFFF && x <= 0xFF && v == ShiftUp(cfg, x)
    ensures v & m == v
  {
  }

  lemma UpFitsThree(cfg: Config, m: bv32, x: bv32, v: bv32)
    requires cfg.numBytes == 3 && m == 0xFF_FFFF && x <= 0xFF && v == ShiftUp(cfg, x)
    ensures v & m == v
  {
  }

  lemma UpFitsFour(cfg: Config, m: bv32, x: bv32, v: bv32)
    requires cfg.numBytes == 4 && m == 0xFFFF_FFFF && x <= 0xFF && v == ShiftUp(cfg, x)
    ensures v & m == v
  {
  }

  lemma UpFits(cfg: Config, m: bv32, x: bv32, v: bv32)
    requires ValidConfig(cfg) && m == WordMask(cfg) && x <= 0xFF && v == ShiftUp(cfg, x)
    ensures v & m == v
  {
    WordMaskValue(cfg);
    if cfg.numBytes == 1 {
      UpFitsOne(cfg, m, x, v);
    } else if cfg.numBytes == 2 {
      UpFitsTwo(cfg, m, x, v);
    } else if cfg.numBytes == 3 {
      UpFitsThree(cfg, m, x, v);
    } else {
      UpFitsFour(cfg, m, x, v);
    }
  }

  /** Moved up by `shift`, a register value and its low byte agree inside
      the register: everything above the low byte leaves it. */
  lemma UpLowOne(cfg: Config, m: bv32, t: bv32, low: bv32, ut: bv32, ul: bv32)
    requires cfg.numBytes == 1 && m == 0xFF && t & m == t && low == t & 0xFF
    requires ut == ShiftUp(cfg, t) && ul == ShiftUp(cfg, low)
    ensures ut & m == ul & m
  {
  }

  lemma UpLowTwo(cfg: Config, m: bv32, t: bv32, low: bv32, ut: bv32, ul: bv32)
    requires cfg.numBytes == 2 && m == 0xFFFF && low == t & 0xFF
    requires ut == ShiftUp(cfg, t) && ul == ShiftUp(cfg, low)
    ensures ut & m == ul & m
  {
  }

  lemma UpLowThree(cfg: Config, m: bv32, t: bv32, low: bv32, ut: bv32, ul: bv32)
    requires cfg.numBytes == 3 && m == 0xFF_FFFF && low == t & 0xFF
    requires ut == ShiftUp(cfg, t) && ul == ShiftUp(cfg, low)
    ensures ut & m == ul & m
  {
  }

  lemma UpLowFour(cfg: Config, m: bv32, t: bv32, low: bv32, ut: bv32, ul: bv32)
    requires cfg.numBytes == 4 && m == 0xFFFF_FFFF && low == t & 0xFF
    requires ut == ShiftUp(cfg, t) && ul == ShiftUp(cfg, low)
    ensures ut & m == ul & m
  {
  }

  lemma UpLow(cfg: Config, m: bv32, t: bv32, low: bv32, ut: bv32, ul: bv32)
    requires ValidConfig(cfg) && m == WordMask(cfg) && t & m == t && low == t & 0xFF
    requires ut == ShiftUp(cfg, t) && ul == ShiftUp(cfg, low)
    ensures ut & m == ul & m
  {
    WordMaskValue(cfg);
    if cfg.numBytes == 1 {
      UpLowOne(cfg, m, t, low, ut, ul);
    } else if cfg.numBytes == 2 {
      UpLowTwo(cfg, m, t, low, ut, ul);
    } else if cfg.numBytes == 3 {
      UpLowThree(cfg, m, t, low, ut, ul);
    } else {
      UpLowFour(cfg, m, t, low, ut, ul);
    }
  }

  /** The bytes of a register value above its low byte. */
  function Above(t: bv32): bv32
  {
    t & !0xFF
  }

  /** A register value is its bytes above the low byte plus its low byte. */
  lemma HighLow(m: bv32, t: bv32, high: bv32, low: bv32)
    requires m & 0xFF == 0xFF && t & m == t && low == t & 0xFF && high == Above(t)
    ensures t == high ^ low && high & 0xFF == 0
  {
  }

  lemma LowFitsRegister(m: bv32, t: bv32, low: bv32)
    requires m & 0xFF == 0xFF && low == t & 0xFF
    ensures low & m == low
  {
  }

  lemma HighLowFits(m: bv32, t: bv32, high: bv32, low: bv32)
    requires m & 0xFF == 0xFF && t & m == t && low == t & 0xFF && high == Above(t)
    ensures high & m == high && low & m == low && high >> 8 == t >> 8
  {
  }

  /** The reverse rounds of the two parts of a big-endian forward entry:
      together they give back the register value the entry was built from. */
  lemma BigBackRounds(p: bv32, top: bv32, m: bv32, v: bv32, t: bv32, high: bv32, low: bv32, h8: bv32, rl: bv32)
    requires TopOf(top, m) && p & m == p && p & 1 == 1 && v & m == v
    requires t == Within(m, BigForwardRounds(p, top, 8, v)) && t == Xor(high, low)
    requires high & 0xFF == 0 && high & m == high && low & m == low && h8 == high >> 8
    requires rl == BigReverseRounds(p, top, 8, low)
    ensures v == Xor(h8, rl)
  {
    BigRoundsUndo(p, top, m, 8, v);
    BigRoundsLinear(p, top, m, 8, high, low);
    BigByteOut(p, top, high);
  }

  lemma BigFinal(m: bv32, t: bv32, h8: bv32, rl: bv32, ut: bv32, ul: bv32, v: bv32, rj: bv32)
    requires ut & m == ul & m && rl & m == rl && h8 == t >> 8 && v == h8 ^ rl
    requires rj == Within(m, Xor(rl, ul))
    ensures rj ^ (ut & m) ^ (t >> 8) == v
  {
    XorDef(rl, ul);
    BigFinalBits(m, t, h8, rl, ut, ul, v);
  }

  lemma BigFinalBits(m: bv32, t: bv32, h8: bv32, rl: bv32, ut: bv32, ul: bv32, v: bv32)
    requires ut & m == ul & m && rl & m == rl && h8 == t >> 8 && v == h8 ^ rl
    ensures ((rl ^ ul) & m) ^ (ut & m) ^ (t >> 8) == v
  {
  }

  /** The lookup entry of byte `x`. */
  lemma BigForwardPart(cfg: Config, polynomial: bv32, m: bv32, top: bv32, x: bv32) returns (v: bv32, t: bv32)
    requires ValidConfig(cfg) && x <= 0xFF && m == WordMask(cfg) && top == Top(cfg.numBits)
    requires cfg.numBits / 8 == cfg.numBytes
    ensures v == ShiftUp(cfg, x) && v & m == v
    ensures t == LookupTable(polynomial, cfg.numBits, true)[Index(x)]
    ensures t == Within(m, BigForwardRounds(polynomial, top, 8, v)) && t & m == t
  {
    t := LookupTable(polynomial, cfg.numBits, true)[Index(x)];
    LookupAt(polynomial, cfg.numBits, true, x);
    SwapIsShiftUp(cfg, x);
    v := ShiftUp(cfg, x);
    UpFits(cfg, m, x, v);
    WithinFitsItself(m, BigForwardRounds(polynomial, top, 8, v), t);
  }

  /** The reverse entry the low byte of `t` picks. */
  lemma BigReversePart(cfg: Config, polynomial: bv32, m: bv32, top: bv32, t: bv32) returns (low: bv32, rj: bv32)
    requires ValidConfig(cfg) && m == WordMask(cfg) && top == Top(cfg.numBits)
    requires cfg.numBits / 8 == cfg.numBytes
    ensures low == t & 0xFF
    ensures rj == ReverseTable(polynomial, cfg.numBits, true)[Index(t)]
    ensures rj == Within(m, Xor(BigReverseRounds(polynomial, top, 8, low), ShiftUp(cfg, low)))
  {
    low := t & 0xFF;
    LowByte(t);
    IndexEq(t, low);
    rj := ReverseTable(polynomial, cfg.numBits, true)[Index(t)];
    ReverseAt(polynomial, cfg.numBits, true, low);
    SwapIsShiftUp(cfg, low);
  }

  /** Entry `t` split into its low byte and the bytes above it. */
  lemma BigSplit(m: bv32, t: bv32, low: bv32) returns (high: bv32, h8: bv32)
    requires m & 0xFF == 0xFF && t & m == t && low == t & 0xFF
    ensures t == Xor(high, low) && high & 0xFF == 0 && high & m == high && low & m == low
    ensures h8 == high >> 8 && h8 == t >> 8
  {
    high := Above(t);
    HighLow(m, t, high, low);
    HighLowFits(m, t, high, low);
    XorDef(high, low);
    h8 := high >> 8;
  }

  /** Undoing the rounds of entry `t`: the register value `v` it came from
      is the reverse rounds of its low byte plus its bytes above, moved down. */
  lemma BigRoundsBack(m: bv32, p: bv32, top: bv32, v: bv32, t: bv32, low: bv32) returns (h8: bv32, rl: bv32)
    requires TopOf(top, m) && p & m == p && p & 1 == 1 && v & m == v && m & 0xFF == 0xFF
    requires t == Within(m, BigForwardRounds(p, top, 8, v)) && t & m == t && low == t & 0xFF
    ensures h8 == t >> 8 && rl == BigReverseRounds(p, top, 8, low) && v == h8 ^ rl
  {
    var high;
    high, h8 := BigSplit(m, t, low);
    rl := BigReverseRounds(p, top, 8, low);
    BigBackRounds(p, top, m, v, t, high, low, h8, rl);
    XorDef(h8, rl);
  }

  lemma BigLowFits(p: bv32, top: bv32, m: bv32, low: bv32, rl: bv32)
    requires TopOf(top, m) && p & m == p && low & m == low && rl == BigReverseRounds(p, top, 8, low)
    ensures rl & m == rl
  {
    BigReverseRoundsFit(p, top, m, 8, low);
  }

  /** Reverse entry `rj` of forward entry `t` undoes one big-endian step
      that ended in register value `u`. */
  ghost predicate Undoes(cfg: Config, t: bv32, rj: bv32, u: bv32)
  {
    rj ^ (ShiftUp(cfg, t) & WordMask(cfg)) ^ (t >> 8) == u
  }

  /** `FastCrc.BigConsistent` at one byte `x`. */
  lemma BigConsistentByte(cfg: Config, polynomial: bv32, x: bv32)
    returns (t: bv32, rj: bv32)
    requires ValidConfig(cfg) && polynomial & 1 == 1 && polynomial & WordMask(cfg) == polynomial && x <= 0xFF
    ensures t == LookupTable(polynomial, cfg.numBits, true)[Index(x)]
    ensures rj == ReverseTable(polynomial, cfg.numBits, true)[Index(t)]
    ensures Undoes(cfg, t, rj, ShiftUp(cfg, x))
  {
    var m := WordMask(cfg);
    var top := Top(cfg.numBits);
    ConfigShape(cfg);
    WordMaskLow(cfg);
    var v, low;
    v, t := BigForwardPart(cfg, polynomial, m, top, x);
    low, rj := BigReversePart(cfg, polynomial, m, top, t);
    BigBack(cfg, polynomial, m, top, v, t, low, rj);
  }

  /** The reverse entry of the low byte of entry `t`, together with the
      bytes of `t` above it, gives back the register value `v`. */
  lemma BigBack(cfg: Config, polynomial: bv32, m: bv32, top: bv32, v: bv32, t: bv32, low: bv32, rj: bv32)
    requires ValidConfig(cfg) && m == WordMask(cfg) && top == Top(cfg.numBits) && m & 0xFF == 0xFF
    requires TopOf(top, m) && polynomial & m == polynomial && polynomial & 1 == 1 && v & m == v
    requires t == Within(m, BigForwardRounds(polynomial, top, 8, v)) && t & m == t && low == t & 0xFF
    requires rj == Within(m, Xor(BigReverseRounds(polynomial, top, 8, low), ShiftUp(cfg, low)))
    ensures Undoes(cfg, t, rj, v)
  {
    var h8, rl := BigRoundsBack(m, polynomial, top, v, t, low);
    LowFitsRegister(m, t, low);
    BigLowFits(polynomial, top, m, low, rl);
    var ut := ShiftUp(cfg, t);
    var ul := ShiftUp(cfg, low);
    UpLow(cfg, m, t, low, ut, ul);
    BigFinal(m, t, h8, rl, ut, ul, v, rj);
    UndoesIs(cfg, t, rj, v, ut, m);
  }

  lemma UndoesIs(cfg: Config, t: bv32, rj: bv32, u: bv32, ut: bv32, m: bv32)
    requires ut == ShiftUp(cfg, t) && m == WordMask(cfg) && rj ^ (ut & m) ^ (t >> 8) == u
    ensures Undoes(cfg, t, rj, u)
  {
  }

  /** `FastCrc.BigConsistent` for the tables crc.py builds. */
  lemma BigTablesConsistent(cfg: Config, polynomial: bv32)
    requires ValidConfig(cfg) && polynomial & 1 == 1 && polynomial & WordMask(cfg) == polynomial
    ensures BigConsistent(cfg, LookupTable(polynomial, cfg.numBits, true), ReverseTable(polynomial, cfg.numBits, true))
  {
    var table := LookupTable(polynomial, cfg.numBits, true);
    var rtable := ReverseTable(polynomial, cfg.numBits, true);
    forall x: bv32 | x <= 0xFF
      ensures BigInverts(cfg, table, rtable, x)
    {
      BigConsistentIn(cfg, polynomial, table, rtable, x);
    }
  }

  lemma BigConsistentIn(cfg: Config, polynomial: bv32, table: seq<bv32>, rtable: seq<bv32>, x: bv32)
    requires ValidConfig(cfg) && polynomial & 1 == 1 && polynomial & WordMask(cfg) == polynomial && x <= 0xFF
    requires table == LookupTable(polynomial, cfg.numBits, true) && rtable == ReverseTable(polynomial, cfg.numBits, true)
    ensures BigInverts(cfg, table, rtable, x)
  {
    var t, rj := BigConsistentByte(cfg, polynomial, x);
  }

  // ---------------------------------------------------------------------------
  // Both byte orders

  /** Every lookup entry fits the register: crc.py:29 masks it. */
  lemma LookupTableFits(cfg: Config, polynomial: bv32)
    ensures TableFits(cfg, LookupTable(polynomial, cfg.numBits, cfg.bigEndian))
  {
    var table := LookupTable(polynomial, cfg.numBits, cfg.bigEndian);
    forall i | 0 <= i < 256
      ensures InRegister(cfg, table[i])
    {
      AndMaskFits(table[i], WordMask(cfg));
    }
  }

  /** Every reverse entry fits the register: crc.py:60 masks it. */
  lemma ReverseTableFits(cfg: Config, polynomial: bv32)
    ensures TableFits(cfg, ReverseTable(polynomial, cfg.numBits, cfg.bigEndian))
  {
    var rtable := ReverseTable(polynomial, cfg.numBits, cfg.bigEndian);
    forall i | 0 <= i < 256
      ensures InRegister(cfg, rtable[i])
    {
      AndMaskFits(rtable[i], WordMask(cfg));
    }
  }

  /** The tables crc.py builds for an odd polynomial stand in the relation
      `CrcPrev` needs; a big-endian polynomial must also fit the register,
      since its bits are XORed in unreflected. */
  lemma TablesConsistent(cfg: Config, polynomial: bv32)
    requires ValidConfig(cfg) && polynomial & 1 == 1
    requires cfg.bigEndian ==> polynomial & WordMask(cfg) == polynomial
    ensures Consistent(cfg, LookupTable(polynomial, cfg.numBits, cfg.bigEndian),
                       ReverseTable(polynomial, cfg.numBits, cfg.bigEndian))
  {
    LookupTableFits(cfg, polynomial);
    if cfg.bigEndian {
      BigTablesConsistent(cfg, polynomial);
    } else {
      LittleTablesConsistent(cfg, polynomial);
    }
  }

  /** `crc_prev` with the reverse table undoes `crc_next` with the lookup
      table, for the tables crc.py builds and any masked register value. */
  lemma BuiltRoundTrip(cfg: Config, polynomial: bv32, data: seq<bv8>, seed: bv32)
    requires ValidConfig(cfg) && polynomial & 1 == 1
    requires cfg.bigEndian ==> polynomial & WordMask(cfg) == polynomial
    requires InRegister(cfg, seed)
    ensures Prev(cfg, ReverseTable(polynomial, cfg.numBits, cfg.bigEndian), data,
                 Next(cfg, LookupTable(polynomial, cfg.numBits, cfg.bigEndian), data, seed)) == seed
  {
    TablesConsistent(cfg, polynomial);
    RoundTrip(cfg, LookupTable(polynomial, cfg.numBits, cfg.bigEndian),
              ReverseTable(polynomial, cfg.numBits, cfg.bigEndian), data, seed);
  }
}
