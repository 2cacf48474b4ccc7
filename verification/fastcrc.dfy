/** The byte steppers of crcmanip/fastcrc.c: `CrcNext` folds a buffer into a
    CRC register with the lookup table, `CrcPrev` walks the buffer backwards
    with the reverse lookup table and undoes every byte.

    The register is the C `uint32_t`, so it is a `bv32` here and every
    shift and mask of the C code is written on it. The attributes that the C
    functions read from the Python object (`num_bytes`, `num_bits`,
    `big_endian` and the 256-entry tables) are parameters. */
module FastCrc {
  import opened Bits

  /** The attributes of the CRC object that `CrcNext` and `CrcPrev` read. */
  datatype Config = Config(numBytes: nat, numBits: nat, bigEndian: bool)

  /** A register of one to four whole bytes: the widths a `uint32_t` holds. */
  predicate ValidConfig(cfg: Config)
  {
    1 <= cfg.numBytes <= 4 && cfg.numBits == 8 * cfg.numBytes
  }

  /** `(1ull << num_bits) - 1` narrowed to `uint32_t`. */
  function WordMask(cfg: Config): bv32
  {
    Mask(cfg.numBits)
  }

  /** `value` already has every bit above `num_bits` clear: the state the
      register is in once `value &= mask` has run. */
  predicate InRegister(cfg: Config, value: bv32)
  {
    value & WordMask(cfg) == value
  }

  /** `value >> shift` with `shift = (num_bytes << 3) - 8`. For zero or
      more than four bytes the C shift count is negative or at least 32,
      which C leaves undefined; those widths are outside the model, and the
      value given here for them is never used by `CrcNext` or `CrcPrev`. */
  function ShiftDown(cfg: Config, value: bv32): bv32
  {
    if cfg.numBytes <= 1 then value
    else if cfg.numBytes == 2 then value >> 8
    else if cfg.numBytes == 3 then value >> 16
    else value >> 24
  }

  /** `value << shift` with `shift = (num_bytes << 3) - 8`, for one to four
      bytes as `ShiftDown`. */
  function ShiftUp(cfg: Config, value: bv32): bv32
  {
    if cfg.numBytes <= 1 then value
    else if cfg.numBytes == 2 then value << 8
    else if cfg.numBytes == 3 then value << 16
    else value << 24
  }

  /** The `uint8_t index` of the C code: the low byte of `x`, so that every
      lookup stays inside the 256 entries of a table. */
  function Index(x: bv32): (r: nat)
    ensures r < 256
  {
    (x & 0xFF) as nat
  }

  /** The update both loops of `CrcNext` share: the entry selected by `c`
      combined with `top`, folded into the rest of the register, masked. */
  function Feed(cfg: Config, table: seq<bv32>, top: bv32, rest: bv32, c: bv8): bv32
    requires |table| == 256
  {
    (table[Index((c as bv32) ^ top)] ^ rest) & WordMask(cfg)
  }

  /** One byte through the big-endian loop of `CrcNext`
      (crcmanip/fastcrc.c:36-39): the index takes the top byte of the
      register, which then moves up by one byte. */
  function NextByteBig(cfg: Config, table: seq<bv32>, value: bv32, c: bv8): bv32
    requires |table| == 256
  {
    Feed(cfg, table, ShiftDown(cfg, value), value << 8, c)
  }

  /** One byte through the little-endian loop of `CrcNext`
      (crcmanip/fastcrc.c:43-46): the index takes the low byte of the
      register, which then moves down by one byte. */
  function NextByteLittle(cfg: Config, table: seq<bv32>, value: bv32, c: bv8): bv32
    requires |table| == 256
  {
    Feed(cfg, table, value, value >> 8, c)
  }

  function NextByte(cfg: Config, table: seq<bv32>, value: bv32, c: bv8): bv32
    requires |table| == 256
  {
    if cfg.bigEndian then NextByteBig(cfg, table, value, c)
    else NextByteLittle(cfg, table, value, c)
  }

  /** One byte through the big-endian loop of `CrcPrev`
      (crcmanip/fastcrc.c:90-98). */
  function PrevByteBig(cfg: Config, rtable: seq<bv32>, value: bv32, c: bv8): bv32
    requires |rtable| == 256
  {
    (ShiftUp(cfg, c as bv32) ^ rtable[Index(value)] ^ ShiftUp(cfg, value) ^ (value >> 8))
      & WordMask(cfg)
  }

  /** One byte through the little-endian loop of `CrcPrev`
      (crcmanip/fastcrc.c:102-105). */
  function PrevByteLittle(cfg: Config, rtable: seq<bv32>, value: bv32, c: bv8): bv32
    requires |rtable| == 256
  {
    ((c as bv32) ^ rtable[Index(ShiftDown(cfg, value))] ^ (value << 8)) & WordMask(cfg)
  }

  function PrevByte(cfg: Config, rtable: seq<bv32>, value: bv32, c: bv8): bv32
    requires |rtable| == 256
  {
    if cfg.bigEndian then PrevByteBig(cfg, rtable, value, c)
    else PrevByteLittle(cfg, rtable, value, c)
  }

  /** The register after `CrcNext` has consumed `data` from the left. */
  function Next(cfg: Config, table: seq<bv32>, data: seq<bv8>, value: bv32): bv32
    requires |table| == 256
    decreases |data|
  {
    if |data| == 0 then value
    else NextByte(cfg, table, Next(cfg, table, data[..|data| - 1], value), data[|data| - 1])
  }

  /** The register after `CrcPrev` has consumed `data` from the right: the
      last byte is undone first, the first byte last. */
  function Prev(cfg: Config, rtable: seq<bv32>, data: seq<bv8>, value: bv32): bv32
    requires |rtable| == 256
    decreases |data|
  {
    if |data| == 0 then value
    else PrevByte(cfg, rtable, Prev(cfg, rtable, data[1..], value), data[0])
  }

  lemma NextLast(cfg: Config, table: seq<bv32>, data: seq<bv8>, i: nat, seed: bv32)
    requires |table| == 256 && i < |data|
    ensures Next(cfg, table, data[..i + 1], seed) == NextByte(cfg, table, Next(cfg, table, data[..i], seed), data[i])
  {
    assert data[..i + 1][..i] == data[..i];
  }

  lemma PrevFirst(cfg: Config, rtable: seq<bv32>, data: seq<bv8>, p: nat, seed: bv32)
    requires |rtable| == 256 && p < |data|
    ensures Prev(cfg, rtable, data[p..], seed) == PrevByte(cfg, rtable, Prev(cfg, rtable, data[p + 1..], seed), data[p])
  {
    assert data[p..][1..] == data[p + 1..];
  }

  /** crcmanip/fastcrc.c `CrcNext`, lines 32-50: one loop per byte order,
      each walking the buffer forwards. */
  method CrcNext(cfg: Config, table: seq<bv32>, data: seq<bv8>, seed: bv32) returns (value: bv32)
    requires ValidConfig(cfg) && |table| == 256
    ensures value == Next(cfg, table, data, seed)
  {
    value := seed;
    if cfg.bigEndian {
      for i := 0 to |data|
        invariant value == Next(cfg, table, data[..i], seed)
      {
        NextLast(cfg, table, data, i, seed);
        value := NextByteBig(cfg, table, value, data[i]);
      }
    } else {
      for i := 0 to |data|
        invariant value == Next(cfg, table, data[..i], seed)
      {
        NextLast(cfg, table, data, i, seed);
        value := NextByteLittle(cfg, table, value, data[i]);
      }
    }
    assert data[..|data|] == data;
  }

  /** crcmanip/fastcrc.c `CrcPrev`, lines 85-108: the pointer starts at the
      last byte and moves backwards. */
  method CrcPrev(cfg: Config, rtable: seq<bv32>, data: seq<bv8>, seed: bv32) returns (value: bv32)
    requires ValidConfig(cfg) && |rtable| == 256
    ensures value == Prev(cfg, rtable, data, seed)
  {
    value := seed;
    var p := |data| - 1;
    if cfg.bigEndian {
      for i := 0 to |data|
        invariant p == |data| - 1 - i
        invariant value == Prev(cfg, rtable, data[p + 1..], seed)
      {
        PrevFirst(cfg, rtable, data, p, seed);
        value := PrevByteBig(cfg, rtable, value, data[p]);
        p := p - 1;
      }
    } else {
      for i := 0 to |data|
        invariant p == |data| - 1 - i
        invariant value == Prev(cfg, rtable, data[p + 1..], seed)
      {
        PrevFirst(cfg, rtable, data, p, seed);
        value := PrevByteLittle(cfg, rtable, value, data[p]);
        p := p - 1;
      }
    }
  }

  // ---------------------------------------------------------------------------
  // Bounds

  lemma AndMaskFits(x: bv32, m: bv32)
    ensures (x & m) & m == x & m
  {
  }

  /** Every byte stepped leaves a register of `numBits` bits. */
  lemma NextByteFits(cfg: Config, table: seq<bv32>, value: bv32, c: bv8)
    requires |table| == 256
    ensures InRegister(cfg, NextByte(cfg, table, value, c))
  {
    if cfg.bigEndian {
      var e := table[Index((c as bv32) ^ ShiftDown(cfg, value))] ^ (value << 8);
      AndMaskFits(e, WordMask(cfg));
    } else {
      var e := table[Index((c as bv32) ^ value)] ^ (value >> 8);
      AndMaskFits(e, WordMask(cfg));
    }
  }

  lemma PrevByteFits(cfg: Config, rtable: seq<bv32>, value: bv32, c: bv8)
    requires |rtable| == 256
    ensures InRegister(cfg, PrevByte(cfg, rtable, value, c))
  {
    if cfg.bigEndian {
      var e := ShiftUp(cfg, c as bv32) ^ rtable[Index(value)] ^ ShiftUp(cfg, value) ^ (value >> 8);
      AndMaskFits(e, WordMask(cfg));
    } else {
      var e := (c as bv32) ^ rtable[Index(ShiftDown(cfg, value))] ^ (value << 8);
      AndMaskFits(e, WordMask(cfg));
    }
  }

  /** Once a byte has been consumed the register holds at most `numBits`
      bits; with no byte the seed comes back unchanged, even unmasked. */
  lemma NextFits(cfg: Config, table: seq<bv32>, data: seq<bv8>, value: bv32)
    requires |table| == 256
    ensures |data| == 0 ==> Next(cfg, table, data, value) == value
    ensures |data| > 0 ==> InRegister(cfg, Next(cfg, table, data, value))
  {
    if |data| > 0 {
      NextByteFits(cfg, table, Next(cfg, table, data[..|data| - 1], value), data[|data| - 1]);
    }
  }

  lemma PrevFits(cfg: Config, rtable: seq<bv32>, data: seq<bv8>, value: bv32)
    requires |rtable| == 256
    ensures |data| == 0 ==> Prev(cfg, rtable, data, value) == value
    ensures |data| > 0 ==> InRegister(cfg, Prev(cfg, rtable, data, value))
  {
    if |data| > 0 {
      PrevByteFits(cfg, rtable, Prev(cfg, rtable, data[1..], value), data[0]);
    }
  }

  // ---------------------------------------------------------------------------
  // Composition

  /** `CrcNext` consumes left to right: feeding `a` then `b` is feeding
      `a + b`. */
  lemma {:induction false} NextAppend(cfg: Config, table: seq<bv32>, a: seq<bv8>, b: seq<bv8>, value: bv32)
    requires |table| == 256
    ensures Next(cfg, table, a + b, value) == Next(cfg, table, b, Next(cfg, table, a, value))
    decreases |b|
  {
    if |b| == 0 {
      assert a + b == a;
    } else {
      var b' := b[..|b| - 1];
      assert (a + b)[..|a + b| - 1] == a + b';
      assert (a + b)[|a + b| - 1] == b[|b| - 1];
      NextAppend(cfg, table, a, b', value);
    }
  }

  /** `CrcPrev` consumes right to left: undoing `a + b` undoes `b` first. */
  lemma {:induction false} PrevAppend(cfg: Config, rtable: seq<bv32>, a: seq<bv8>, b: seq<bv8>, value: bv32)
    requires |rtable| == 256
    ensures Prev(cfg, rtable, a + b, value) == Prev(cfg, rtable, a, Prev(cfg, rtable, b, value))
    decreases |a|
  {
    if |a| == 0 {
      assert a + b == b;
    } else {
      assert (a + b)[1..] == a[1..] + b;
      assert (a + b)[0] == a[0];
      PrevAppend(cfg, rtable, a[1..], b, value);
    }
  }

  // ---------------------------------------------------------------------------
  // Undoing a byte

  /** Every entry of a table fits the register. */
  predicate TableFits(cfg: Config, table: seq<bv32>)
    requires |table| == 256
  {
    forall i | 0 <= i < 256 :: InRegister(cfg, table[i])
  }

  /** The little-endian relation between the two tables at byte `x`: the
      reverse entry picked by the top byte of `table[x]`, combined with the
      rest of `table[x]` moved up one byte, gives back `x`. */
  ghost predicate LittleInverts(cfg: Config, table: seq<bv32>, rtable: seq<bv32>, x: bv32)
    requires |table| == 256 && |rtable| == 256
  {
    rtable[Index(ShiftDown(cfg, table[Index(x)]))] ^ ((table[Index(x)] << 8) & WordMask(cfg)) == x
  }

  ghost predicate LittleConsistent(cfg: Config, table: seq<bv32>, rtable: seq<bv32>)
    requires |table| == 256 && |rtable| == 256
  {
    forall x: bv32 | x <= 0xFF :: LittleInverts(cfg, table, rtable, x)
  }

  /** The big-endian relation between the two tables at byte `x`: the
      reverse entry picked by the low byte of `table[x]`, combined with
      `table[x]` moved up by `shift` and down by one byte, gives back
      `x << shift`. */
  ghost predicate BigInverts(cfg: Config, table: seq<bv32>, rtable: seq<bv32>, x: bv32)
    requires |table| == 256 && |rtable| == 256
  {
    rtable[Index(table[Index(x)])] ^ (ShiftUp(cfg, table[Index(x)]) & WordMask(cfg))
      ^ (table[Index(x)] >> 8) == ShiftUp(cfg, x)
  }

  ghost predicate BigConsistent(cfg: Config, table: seq<bv32>, rtable: seq<bv32>)
    requires |table| == 256 && |rtable| == 256
  {
    forall x: bv32 | x <= 0xFF :: BigInverts(cfg, table, rtable, x)
  }

  /** What `CrcPrev` needs of the two tables to undo `CrcNext`. */
  ghost predicate Consistent(cfg: Config, table: seq<bv32>, rtable: seq<bv32>)
    requires |table| == 256 && |rtable| == 256
  {
    TableFits(cfg, table)
    && (if cfg.bigEndian then BigConsistent(cfg, table, rtable)
        else LittleConsistent(cfg, table, rtable))
  }

  /** The register masks of the four widths. */
  lemma WordMaskValue(cfg: Config)
    requires ValidConfig(cfg)
    ensures WordMask(cfg) == if cfg.numBytes == 1 then 0xFF
                             else if cfg.numBytes == 2 then 0xFFFF
                             else if cfg.numBytes == 3 then 0xFF_FFFF
                             else 0xFFFF_FFFF
  {
    MaskConstants();
  }

  lemma IndexEq(a: bv32, b: bv32)
    requires a & 0xFF == b & 0xFF
    ensures Index(a) == Index(b)
  {
  }

  lemma LowByte(y: bv32)
    ensures (y & 0xFF) & 0xFF == y & 0xFF && y & 0xFF <= 0xFF
  {
  }

  lemma LittleBack(m: bv32, u: bv32, c: bv8, t: bv32, rj: bv32, w: bv32)
    requires m == 0xFF || m == 0xFFFF || m == 0xFF_FFFF || m == 0xFFFF_FFFF
    requires u & m == u
    requires rj ^ ((t << 8) & m) == ((c as bv32) ^ u) & 0xFF
    requires w == (t ^ (u >> 8)) & m
    ensures ((c as bv32) ^ rj ^ (w << 8)) & m == u
  {
  }

  lemma LittleBackAt(cfg: Config, m: bv32, u: bv32, c: bv8, t: bv32, rj: bv32, w: bv32)
    requires ValidConfig(cfg) && m == WordMask(cfg) && u & m == u
    requires rj ^ ((t << 8) & m) == ((c as bv32) ^ u) & 0xFF
    requires w == (t ^ (u >> 8)) & m
    ensures ((c as bv32) ^ rj ^ (w << 8)) & m == u
  {
    WordMaskValue(cfg);
    LittleBack(m, u, c, t, rj, w);
  }

  lemma LittleTopByte(cfg: Config, m: bv32, u: bv32, t: bv32, w: bv32)
    requires ValidConfig(cfg) && m == WordMask(cfg) && u & m == u && w == (t ^ (u >> 8)) & m
    ensures ShiftDown(cfg, w) & 0xFF == ShiftDown(cfg, t) & 0xFF
  {
    WordMaskValue(cfg);
  }

  /** `Feed` in terms of the entry it selects. */
  lemma FeedForm(cfg: Config, table: seq<bv32>, m: bv32, top: bv32, rest: bv32, c: bv8, x: bv32, t: bv32)
    requires |table| == 256 && m == WordMask(cfg)
    requires x == ((c as bv32) ^ top) & 0xFF && t == table[Index(x)]
    ensures Feed(cfg, table, top, rest, c) == (t ^ rest) & m
  {
    IndexEq(x, (c as bv32) ^ top);
  }

  lemma LittleNextForm(cfg: Config, table: seq<bv32>, m: bv32, u: bv32, c: bv8, x: bv32, t: bv32)
      returns (w: bv32)
    requires |table| == 256 && m == WordMask(cfg)
    requires x == ((c as bv32) ^ u) & 0xFF && t == table[Index(x)]
    ensures w == NextByteLittle(cfg, table, u, c) && w == (t ^ (u >> 8)) & m
  {
    FeedForm(cfg, table, m, u, u >> 8, c, x, t);
    w := NextByteLittle(cfg, table, u, c);
  }

  lemma LittlePrevForm(cfg: Config, rtable: seq<bv32>, m: bv32, w: bv32, c: bv8, t: bv32, rj: bv32)
    requires |rtable| == 256 && m == WordMask(cfg)
    requires ShiftDown(cfg, w) & 0xFF == ShiftDown(cfg, t) & 0xFF
    requires rj == rtable[Index(ShiftDown(cfg, t))]
    ensures PrevByteLittle(cfg, rtable, w, c) == ((c as bv32) ^ rj ^ (w << 8)) & m
  {
    IndexEq(ShiftDown(cfg, w), ShiftDown(cfg, t));
  }

  lemma LittleConsistentAt(cfg: Config, table: seq<bv32>, rtable: seq<bv32>, x: bv32)
      returns (t: bv32, rj: bv32)
    requires |table| == 256 && |rtable| == 256
    requires LittleConsistent(cfg, table, rtable) && x <= 0xFF
    ensures t == table[Index(x)] && rj == rtable[Index(ShiftDown(cfg, t))]
    ensures rj ^ ((t << 8) & WordMask(cfg)) == x
  {
    t := table[Index(x)];
    rj := rtable[Index(ShiftDown(cfg, t))];
    assert LittleInverts(cfg, table, rtable, x);
  }

  lemma LittleUndo(cfg: Config, rtable: seq<bv32>, m: bv32, u: bv32, c: bv8, t: bv32, w: bv32, rj: bv32)
    requires ValidConfig(cfg) && |rtable| == 256
    requires m == WordMask(cfg) && u & m == u
    requires w == (t ^ (u >> 8)) & m
    requires rj == rtable[Index(ShiftDown(cfg, t))]
    requires rj ^ ((t << 8) & m) == ((c as bv32) ^ u) & 0xFF
    ensures PrevByteLittle(cfg, rtable, w, c) == u
  {
    LittleTopByte(cfg, m, u, t, w);
    LittlePrevForm(cfg, rtable, m, w, c, t, rj);
    LittleBackAt(cfg, m, u, c, t, rj, w);
  }

  lemma LittleStepWith(cfg: Config, table: seq<bv32>, rtable: seq<bv32>, m: bv32, u: bv32, c: bv8,
                       x: bv32, t: bv32, rj: bv32)
    requires ValidConfig(cfg) && |table| == 256 && |rtable| == 256
    requires m == WordMask(cfg) && u & m == u
    requires x == ((c as bv32) ^ u) & 0xFF && t == table[Index(x)]
    requires rj == rtable[Index(ShiftDown(cfg, t))] && rj ^ ((t << 8) & m) == x
    ensures PrevByteLittle(cfg, rtable, NextByteLittle(cfg, table, u, c), c) == u
  {
    var w := LittleNextForm(cfg, table, m, u, c, x, t);
    LittleUndo(cfg, rtable, m, u, c, t, w, rj);
  }

  /** One little-endian byte: `CrcPrev` undoes `CrcNext` on a masked register. */
  lemma LittleStepBack(cfg: Config, table: seq<bv32>, rtable: seq<bv32>, u: bv32, c: bv8)
    requires ValidConfig(cfg) && |table| == 256 && |rtable| == 256
    requires LittleConsistent(cfg, table, rtable) && InRegister(cfg, u)
    ensures PrevByteLittle(cfg, rtable, NextByteLittle(cfg, table, u, c), c) == u
  {
    var x := ((c as bv32) ^ u) & 0xFF;
    LowByte((c as bv32) ^ u);
    var t, rj := LittleConsistentAt(cfg, table, rtable, x);
    LittleStepWith(cfg, table, rtable, WordMask(cfg), u, c, x, t, rj);
  }

  lemma WordMaskLow(cfg: Config)
    requires ValidConfig(cfg)
    ensures WordMask(cfg) & 0xFF == 0xFF
  {
    WordMaskValue(cfg);
  }

  lemma BigLowByte(m: bv32, t: bv32, u: bv32, w: bv32)
    requires m & 0xFF == 0xFF && w == (t ^ (u << 8)) & m
    ensures w & 0xFF == t & 0xFF
  {
  }

  lemma BigNextForm(cfg: Config, table: seq<bv32>, m: bv32, u: bv32, c: bv8, d: bv32, x: bv32, t: bv32)
      returns (w: bv32)
    requires |table| == 256 && m == WordMask(cfg) && d == ShiftDown(cfg, u)
    requires x == ((c as bv32) ^ d) & 0xFF && t == table[Index(x)]
    ensures w == NextByteBig(cfg, table, u, c) && w == (t ^ (u << 8)) & m
  {
    FeedForm(cfg, table, m, d, u << 8, c, x, t);
    w := NextByteBig(cfg, table, u, c);
  }

  lemma BigPrevForm(cfg: Config, rtable: seq<bv32>, m: bv32, w: bv32, c: bv8, t: bv32, rj: bv32)
    requires |rtable| == 256 && m == WordMask(cfg)
    requires w & 0xFF == t & 0xFF && rj == rtable[Index(t)]
    ensures PrevByteBig(cfg, rtable, w, c)
            == (ShiftUp(cfg, c as bv32) ^ rj ^ ShiftUp(cfg, w) ^ (w >> 8)) & m
  {
    IndexEq(w, t);
  }

  lemma TableFitsAt(cfg: Config, table: seq<bv32>, i: nat)
    requires |table| == 256 && TableFits(cfg, table) && i < 256
    ensures table[i] & WordMask(cfg) == table[i]
  {
  }

  lemma BigConsistentAt(cfg: Config, table: seq<bv32>, rtable: seq<bv32>, x: bv32)
      returns (t: bv32, rj: bv32)
    requires |table| == 256 && |rtable| == 256
    requires BigConsistent(cfg, table, rtable) && x <= 0xFF
    ensures t == table[Index(x)] && rj == rtable[Index(t)]
    ensures rj ^ (ShiftUp(cfg, t) & WordMask(cfg)) ^ (t >> 8) == ShiftUp(cfg, x)
  {
    t := table[Index(x)];
    rj := rtable[Index(t)];
    assert BigInverts(cfg, table, rtable, x);
  }

  lemma BigShape1(cfg: Config, c: bv32, u: bv32, w: bv32, t: bv32, x: bv32)
    requires ValidConfig(cfg) && cfg.numBytes == 1
    ensures WordMask(cfg) == 0xFF && ShiftDown(cfg, u) == u
    ensures ShiftUp(cfg, c) == c && ShiftUp(cfg, w) == w
    ensures ShiftUp(cfg, t) == t && ShiftUp(cfg, x) == x
  {
    WordMaskValue(cfg);
  }

  lemma BigBackAt1(cfg: Config, m: bv32, c: bv8, u: bv32, w: bv32, t: bv32, d: bv32, x: bv32, rj: bv32)
    requires ValidConfig(cfg) && cfg.numBytes == 1 && m == WordMask(cfg)
    requires u & m == u && t & m == t
    requires d == ShiftDown(cfg, u) && x == ((c as bv32) ^ d) & 0xFF
    requires w == (t ^ (u << 8)) & m
    requires rj ^ (ShiftUp(cfg, t) & m) ^ (t >> 8) == ShiftUp(cfg, x)
    ensures (ShiftUp(cfg, c as bv32) ^ rj ^ ShiftUp(cfg, w) ^ (w >> 8)) & m == u
  {
    BigShape1(cfg, c as bv32, u, w, t, x);
  }

  lemma BigShape2(cfg: Config, c: bv32, u: bv32, w: bv32, t: bv32, x: bv32)
    requires ValidConfig(cfg) && cfg.numBytes == 2
    ensures WordMask(cfg) == 0xFFFF && ShiftDown(cfg, u) == u >> 8
    ensures ShiftUp(cfg, c) == c << 8 && ShiftUp(cfg, w) == w << 8
    ensures ShiftUp(cfg, t) == t << 8 && ShiftUp(cfg, x) == x << 8
  {
    WordMaskValue(cfg);
  }

  lemma BigBackAt2(cfg: Config, m: bv32, c: bv8, u: bv32, w: bv32, t: bv32, d: bv32, x: bv32, rj: bv32)
    requires ValidConfig(cfg) && cfg.numBytes == 2 && m == WordMask(cfg)
    requires u & m == u && t & m == t
    requires d == ShiftDown(cfg, u) && x == ((c as bv32) ^ d) & 0xFF
    requires w == (t ^ (u << 8)) & m
    requires rj ^ (ShiftUp(cfg, t) & m) ^ (t >> 8) == ShiftUp(cfg, x)
    ensures (ShiftUp(cfg, c as bv32) ^ rj ^ ShiftUp(cfg, w) ^ (w >> 8)) & m == u
  {
    BigShape2(cfg, c as bv32, u, w, t, x);
  }

  lemma BigShape3(cfg: Config, c: bv32, u: bv32, w: bv32, t: bv32, x: bv32)
    requires ValidConfig(cfg) && cfg.numBytes == 3
    ensures WordMask(cfg) == 0xFF_FFFF && ShiftDown(cfg, u) == u >> 16
    ensures ShiftUp(cfg, c) == c << 16 && ShiftUp(cfg, w) == w << 16
    ensures ShiftUp(cfg, t) == t << 16 && ShiftUp(cfg, x) == x << 16
  {
    WordMaskValue(cfg);
  }

  lemma BigBackAt3(cfg: Config, m: bv32, c: bv8, u: bv32, w: bv32, t: bv32, d: bv32, x: bv32, rj: bv32)
    requires ValidConfig(cfg) && cfg.numBytes == 3 && m == WordMask(cfg)
    requires u & m == u && t & m == t
    requires d == ShiftDown(cfg, u) && x == ((c as bv32) ^ d) & 0xFF
    requires w == (t ^ (u << 8)) & m
    requires rj ^ (ShiftUp(cfg, t) & m) ^ (t >> 8) == ShiftUp(cfg, x)
    ensures (ShiftUp(cfg, c as bv32) ^ rj ^ ShiftUp(cfg, w) ^ (w >> 8)) & m == u
  {
    BigShape3(cfg, c as bv32, u, w, t, x);
  }

  lemma BigShape4(cfg: Config, c: bv32, u: bv32, w: bv32, t: bv32, x: bv32)
    requires ValidConfig(cfg) && cfg.numBytes == 4
    ensures WordMask(cfg) == 0xFFFF_FFFF && ShiftDown(cfg, u) == u >> 24
    ensures ShiftUp(cfg, c) == c << 24 && ShiftUp(cfg, w) == w << 24
    ensures ShiftUp(cfg, t) == t << 24 && ShiftUp(cfg, x) == x << 24
  {
    WordMaskValue(cfg);
  }

  lemma BigBackAt4(cfg: Config, m: bv32, c: bv8, u: bv32, w: bv32, t: bv32, d: bv32, x: bv32, rj: bv32)
    requires ValidConfig(cfg) && cfg.numBytes == 4 && m == WordMask(cfg)
    requires u & m == u && t & m == t
    requires d == ShiftDown(cfg, u) && x == ((c as bv32) ^ d) & 0xFF
    requires w == (t ^ (u << 8)) & m
    requires rj ^ (ShiftUp(cfg, t) & m) ^ (t >> 8) == ShiftUp(cfg, x)
    ensures (ShiftUp(cfg, c as bv32) ^ rj ^ ShiftUp(cfg, w) ^ (w >> 8)) & m == u
  {
    BigShape4(cfg, c as bv32, u, w, t, x);
  }

  lemma BigBackAt(cfg: Config, m: bv32, c: bv8, u: bv32, w: bv32, t: bv32, d: bv32, x: bv32, rj: bv32)
    requires ValidConfig(cfg) && m == WordMask(cfg)
    requires u & m == u && t & m == t
    requires d == ShiftDown(cfg, u) && x == ((c as bv32) ^ d) & 0xFF
    requires w == (t ^ (u << 8)) & m
    requires rj ^ (ShiftUp(cfg, t) & m) ^ (t >> 8) == ShiftUp(cfg, x)
    ensures (ShiftUp(cfg, c as bv32) ^ rj ^ ShiftUp(cfg, w) ^ (w >> 8)) & m == u
  {
    if cfg.numBytes == 1 {
      BigBackAt1(cfg, m, c, u, w, t, d, x, rj);
    } else if cfg.numBytes == 2 {
      BigBackAt2(cfg, m, c, u, w, t, d, x, rj);
    } else if cfg.numBytes == 3 {
      BigBackAt3(cfg, m, c, u, w, t, d, x, rj);
    } else {
      BigBackAt4(cfg, m, c, u, w, t, d, x, rj);
    }
  }

  lemma BigUndo(cfg: Config, rtable: seq<bv32>, m: bv32, u: bv32, c: bv8, d: bv32, x: bv32, t: bv32, w: bv32, rj: bv32)
    requires ValidConfig(cfg) && |rtable| == 256 && m == WordMask(cfg)
    requires u & m == u && t & m == t
    requires d == ShiftDown(cfg, u) && x == ((c as bv32) ^ d) & 0xFF
    requires w == (t ^ (u << 8)) & m
    requires rj == rtable[Index(t)]
    requires rj ^ (ShiftUp(cfg, t) & m) ^ (t >> 8) == ShiftUp(cfg, x)
    ensures PrevByteBig(cfg, rtable, w, c) == u
  {
    WordMaskLow(cfg);
    BigLowByte(m, t, u, w);
    BigPrevForm(cfg, rtable, m, w, c, t, rj);
    BigBackAt(cfg, m, c, u, w, t, d, x, rj);
  }

  /** The entries `CrcNext` and `CrcPrev` select when register `u` meets
      byte `c`, and what consistency says about them. */
  ghost predicate BigPicked(cfg: Config, table: seq<bv32>, rtable: seq<bv32>, u: bv32, c: bv8,
                            d: bv32, x: bv32, t: bv32, rj: bv32)
  {
    |table| == 256 && |rtable| == 256
    && d == ShiftDown(cfg, u) && x == ((c as bv32) ^ d) & 0xFF
    && t == table[Index(x)] && rj == rtable[Index(t)] && t & WordMask(cfg) == t
    && rj ^ (ShiftUp(cfg, t) & WordMask(cfg)) ^ (t >> 8) == ShiftUp(cfg, x)
  }

  lemma BigPick(cfg: Config, table: seq<bv32>, rtable: seq<bv32>, u: bv32, c: bv8)
      returns (d: bv32, x: bv32, t: bv32, rj: bv32)
    requires |table| == 256 && |rtable| == 256
    requires BigConsistent(cfg, table, rtable) && TableFits(cfg, table)
    ensures BigPicked(cfg, table, rtable, u, c, d, x, t, rj)
  {
    d := ShiftDown(cfg, u);
    x := ((c as bv32) ^ d) & 0xFF;
    LowByte((c as bv32) ^ d);
    t, rj := BigConsistentAt(cfg, table, rtable, x);
    TableFitsAt(cfg, table, Index(x));
  }

  lemma BigStepWith(cfg: Config, table: seq<bv32>, rtable: seq<bv32>, m: bv32, u: bv32, c: bv8,
                    d: bv32, x: bv32, t: bv32, rj: bv32)
    requires ValidConfig(cfg) && |table| == 256 && |rtable| == 256
    requires m == WordMask(cfg) && u & m == u && t & m == t
    requires d == ShiftDown(cfg, u) && x == ((c as bv32) ^ d) & 0xFF && t == table[Index(x)]
    requires rj == rtable[Index(t)]
    requires rj ^ (ShiftUp(cfg, t) & m) ^ (t >> 8) == ShiftUp(cfg, x)
    ensures PrevByteBig(cfg, rtable, NextByteBig(cfg, table, u, c), c) == u
  {
    var w := BigNextForm(cfg, table, m, u, c, d, x, t);
    BigUndo(cfg, rtable, m, u, c, d, x, t, w, rj);
  }

  lemma BigStepPicked(cfg: Config, table: seq<bv32>, rtable: seq<bv32>, u: bv32, c: bv8,
                      d: bv32, x: bv32, t: bv32, rj: bv32)
    requires ValidConfig(cfg) && |table| == 256 && |rtable| == 256 && InRegister(cfg, u)
    requires BigPicked(cfg, table, rtable, u, c, d, x, t, rj)
    ensures PrevByteBig(cfg, rtable, NextByteBig(cfg, table, u, c), c) == u
  {
    BigStepWith(cfg, table, rtable, WordMask(cfg), u, c, d, x, t, rj);
  }

  /** One big-endian byte: `CrcPrev` undoes `CrcNext` on a masked register. */
  lemma BigStepBack(cfg: Config, table: seq<bv32>, rtable: seq<bv32>, u: bv32, c: bv8)
    requires ValidConfig(cfg) && |table| == 256 && |rtable| == 256
    requires BigConsistent(cfg, table, rtable) && TableFits(cfg, table) && InRegister(cfg, u)
    ensures PrevByteBig(cfg, rtable, NextByteBig(cfg, table, u, c), c) == u
  {
    var d, x, t, rj := BigPick(cfg, table, rtable, u, c);
    BigStepPicked(cfg, table, rtable, u, c, d, x, t, rj);
  }

  // ---------------------------------------------------------------------------
  // Undoing a buffer

  /** One byte: on a register that already fits, `CrcPrev` undoes `CrcNext`. */
  lemma StepBack(cfg: Config, table: seq<bv32>, rtable: seq<bv32>, u: bv32, c: bv8)
    requires ValidConfig(cfg) && |table| == 256 && |rtable| == 256
    requires Consistent(cfg, table, rtable) && InRegister(cfg, u)
    ensures PrevByte(cfg, rtable, NextByte(cfg, table, u, c), c) == u
  {
    if cfg.bigEndian {
      BigStepBack(cfg, table, rtable, u, c);
    } else {
      LittleStepBack(cfg, table, rtable, u, c);
    }
  }

  /** `crc_prev(data, crc_next(data, seed)) == seed` for every buffer and every
      seed that fits the register, given consistent tables. */
  lemma {:induction false} RoundTrip(cfg: Config, table: seq<bv32>, rtable: seq<bv32>, data: seq<bv8>, seed: bv32)
    requires ValidConfig(cfg) && |table| == 256 && |rtable| == 256
    requires Consistent(cfg, table, rtable) && InRegister(cfg, seed)
    ensures Prev(cfg, rtable, data, Next(cfg, table, data, seed)) == seed
    decreases |data|
  {
    if |data| > 0 {
      var a, c := data[..|data| - 1], data[|data| - 1];
      var u := Next(cfg, table, a, seed);
      assert data == a + [c];
      PrevAppend(cfg, rtable, a, [c], NextByte(cfg, table, u, c));
      NextFits(cfg, table, a, seed);
      StepBack(cfg, table, rtable, u, c);
      RoundTrip(cfg, table, rtable, a, seed);
    }
  }

  /** The byte order changes the result: with the same table, the same seed
      and the same single byte, the big-endian and the little-endian loops
      of `CrcNext` end in different registers. */
  lemma EndiannessMatters(table: seq<bv32>)
    requires |table| == 256
    ensures Next(Config(4, 32, false), table, [0], 0xFFFF_FFFF) != Next(Config(4, 32, true), table, [0], 0xFFFF_FFFF)
  {
    LittleZero(table);
    BigZero(table);
    XorApart(table[255]);
  }

  /** Byte 0 through the little-endian loop from an all-ones register. */
  lemma LittleZero(table: seq<bv32>)
    requires |table| == 256
    ensures Next(Config(4, 32, false), table, [0], 0xFFFF_FFFF) == (table[255] ^ 0x00FF_FFFF) & 0xFFFF_FFFF
  {
    var cfg := Config(4, 32, false);
    assert [0 as bv8][..0] == [];
    assert Next(cfg, table, [0], 0xFFFF_FFFF) == NextByte(cfg, table, 0xFFFF_FFFF, 0);
    WordMaskValue(cfg);
    assert Index(0xFFFF_FFFF) == 255;
  }

  /** Byte 0 through the big-endian loop from an all-ones register. */
  lemma BigZero(table: seq<bv32>)
    requires |table| == 256
    ensures Next(Config(4, 32, true), table, [0], 0xFFFF_FFFF) == (table[255] ^ 0xFFFF_FF00) & 0xFFFF_FFFF
  {
    var cfg := Config(4, 32, true);
    assert [0 as bv8][..0] == [];
    assert Next(cfg, table, [0], 0xFFFF_FFFF) == NextByte(cfg, table, 0xFFFF_FFFF, 0);
    WordMaskValue(cfg);
    assert ShiftDown(cfg, 0xFFFF_FFFF) == 0xFF;
    assert Index(0xFF) == 255;
  }

  /** Two masks that differ give two different registers. */
  lemma XorApart(e: bv32)
    ensures (e ^ 0x00FF_FFFF) & 0xFFFF_FFFF != (e ^ 0xFFFF_FF00) & 0xFFFF_FFFF
  {
  }
}
