/** The CRC object of crcmanip/crc.py:65-158.

    `BaseCrc` keeps the settings and the two tables it builds at
    construction as constants, and the running register `value` and the
    byte count `consumed` as the fields `update` changes. The register
    value and the two XOR constants are 32-bit words: `crc_next` receives
    the register through the `I` conversion of `PyArg_ParseTuple`, which
    keeps the low 32 bits, and every result is masked to `num_bits <= 32`
    bits, so the bits above 32 of a Python integer never reach a digest. */
module Crc {
  import opened Errors
  import opened Bits
  import opened Rounds
  import opened FastCrc
  import opened Tables
  import opened Consistency

  // ---------------------------------------------------------------------------
  // The file-size patch of `digest`

  /** The bytes `digest` appends when `use_file_size` is set: `n` in
      little-endian order, as few bytes as it takes, none for zero. */
  function SizeBytes(n: nat): seq<bv8>
    decreases n
  {
    if n == 0 then [] else [(n % 256) as bv8] + SizeBytes(n / 256)
  }

  /** The number a little-endian byte string stands for. */
  function LittleEndianValue(bytes: seq<bv8>): nat
    decreases |bytes|
  {
    if |bytes| == 0 then 0 else bytes[0] as nat + 256 * LittleEndianValue(bytes[1..])
  }

  /** The patch stands for the byte count it was made from. */
  lemma {:induction false} SizeBytesValue(n: nat)
    ensures LittleEndianValue(SizeBytes(n)) == n
    decreases n
  {
    if n > 0 {
      var rest := SizeBytes(n / 256);
      SizeBytesValue(n / 256);
      ByteRoundTrip(n % 256);
      assert SizeBytes(n) == [(n % 256) as bv8] + rest;
      assert (SizeBytes(n))[1..] == rest;
    }
  }

  /** The patch has no trailing zero byte: it is as short as it can be. */
  lemma {:induction false} SizeBytesMinimal(n: nat)
    ensures n == 0 <==> |SizeBytes(n)| == 0
    ensures n > 0 ==> SizeBytes(n)[|SizeBytes(n)| - 1] != 0
    decreases n
  {
    if n > 0 {
      SizeBytesMinimal(n / 256);
      if n / 256 == 0 {
        ByteRoundTrip(n % 256);
      }
    }
  }

  // ---------------------------------------------------------------------------
  // `digest` and `hex_digest` as functions of the object's state

  /** What `digest` returns for a register `value` after `consumed` bytes. */
  function DigestOf(cfg: Config, table: seq<bv32>, value: bv32, consumed: nat, useFileSize: bool, finalXor: bv32): bv32
    requires |table| == 256
  {
    var folded := if useFileSize then Next(cfg, table, SizeBytes(consumed), value) else value;
    Within(WordMask(cfg), Xor(folded, finalXor))
  }

  lemma XorMask(a: bv32, f: bv32, m: bv32)
    ensures Within(m, Xor(Within(m, a), f)) == Within(m, Xor(a, f))
  {
  }

  /** With `use_file_size`, the digest is the plain digest of the object
      that had the size bytes fed through `update` as well. */
  lemma DigestFoldsSize(cfg: Config, table: seq<bv32>, value: bv32, consumed: nat, finalXor: bv32, updated: bv32)
    requires |table| == 256 && updated == Within(WordMask(cfg), Next(cfg, table, SizeBytes(consumed), value))
    ensures DigestOf(cfg, table, value, consumed, true, finalXor) == DigestOf(cfg, table, updated, consumed, false, finalXor)
  {
    var next := Next(cfg, table, SizeBytes(consumed), value);
    var m := WordMask(cfg);
    XorMask(next, finalXor, m);
  }

  /** Before any byte is consumed the size patch is empty, so
      `use_file_size` changes nothing. */
  lemma DigestNothingConsumed(cfg: Config, table: seq<bv32>, value: bv32, finalXor: bv32)
    requires |table| == 256
    ensures DigestOf(cfg, table, value, 0, true, finalXor) == DigestOf(cfg, table, value, 0, false, finalXor)
  {
    assert SizeBytes(0) == [];
  }

  lemma DigestIs(cfg: Config, table: seq<bv32>, value: bv32, consumed: nat, useFileSize: bool, finalXor: bv32,
                 folded: bv32, d: bv32)
    requires |table| == 256
    requires folded == Xor(if useFileSize then Next(cfg, table, SizeBytes(consumed), value) else value, finalXor)
    requires d == Within(Mask(cfg.numBits), folded)
    ensures d == DigestOf(cfg, table, value, consumed, useFileSize, finalXor)
  {
  }

  /** The loop of `digest` that lists the bytes of `_consumed`
      (crcmanip/crc.py:106-111). */
  method SizePatch(consumed: nat) returns (patch: seq<bv8>)
    ensures patch == SizeBytes(consumed)
  {
    patch := [];
    var tmp := consumed;
    while tmp != 0
      invariant patch + SizeBytes(tmp) == SizeBytes(consumed)
      decreases tmp
    {
      assert SizeBytes(tmp) == [(tmp % 256) as bv8] + SizeBytes(tmp / 256);
      patch := patch + [(tmp % 256) as bv8];
      tmp := tmp / 256;
    }
  }

  /** A digest fits the register. */
  lemma DigestFits(cfg: Config, table: seq<bv32>, value: bv32, consumed: nat, useFileSize: bool, finalXor: bv32)
    requires |table| == 256
    ensures InRegister(cfg, DigestOf(cfg, table, value, consumed, useFileSize, finalXor))
  {
    var folded := if useFileSize then Next(cfg, table, SizeBytes(consumed), value) else value;
    AndMaskFits(Xor(folded, finalXor), WordMask(cfg));
  }

  // ---------------------------------------------------------------------------
  // Laws of `update`

  /** The value `update` leaves for a register `value` and a source. */
  function Updated(cfg: Config, table: seq<bv32>, source: seq<bv8>, value: bv32): (r: bv32)
    requires |table| == 256
    ensures InRegister(cfg, r)
  {
    AndMaskFits(Next(cfg, table, source, value), WordMask(cfg));
    Within(WordMask(cfg), Next(cfg, table, source, value))
  }

  /** Updating with `a` and then with `b` leaves the register that updating
      with `a + b` leaves, provided the register already fits the width or
      `a` is not empty. */
  lemma UpdateChunks(cfg: Config, table: seq<bv32>, a: seq<bv8>, b: seq<bv8>, value: bv32)
    requires |table| == 256
    requires |a| > 0 || InRegister(cfg, value)
    ensures Updated(cfg, table, b, Updated(cfg, table, a, value)) == Updated(cfg, table, a + b, value)
  {
    NextAppend(cfg, table, a, b, value);
    NextFits(cfg, table, a, value);
  }

  /** An empty update only masks the register: it changes a register that
      does not fit the width, such as an `initial_xor` wider than `num_bits`. */
  lemma EmptyUpdate(cfg: Config, table: seq<bv32>, value: bv32)
    requires |table| == 256
    ensures Updated(cfg, table, [], value) == Within(WordMask(cfg), value)
    ensures Updated(cfg, table, [], value) == value <==> InRegister(cfg, value)
  {
    NextFits(cfg, table, [], value);
  }

  /** `crc_prev` over the same bytes takes the register `update` leaves back
      to the register before it, for tables built from an odd polynomial
      (and, big-endian, one that fits the width) and a register that fits. */
  lemma UpdateUndone(cfg: Config, polynomial: bv32, data: seq<bv8>, seed: bv32)
    requires ValidConfig(cfg) && polynomial & 1 == 1
    requires cfg.bigEndian ==> polynomial & WordMask(cfg) == polynomial
    requires InRegister(cfg, seed)
    ensures Prev(cfg, ReverseTable(polynomial, cfg.numBits, cfg.bigEndian), data,
                 Updated(cfg, LookupTable(polynomial, cfg.numBits, cfg.bigEndian), data, seed)) == seed
  {
    UpdatedFits(cfg, LookupTable(polynomial, cfg.numBits, cfg.bigEndian), data, seed);
    BuiltRoundTrip(cfg, polynomial, data, seed);
  }

  /** From a register that fits, `update` needs no masking. */
  lemma UpdatedFits(cfg: Config, table: seq<bv32>, data: seq<bv8>, seed: bv32)
    requires |table| == 256 && InRegister(cfg, seed)
    ensures Updated(cfg, table, data, seed) == Next(cfg, table, data, seed)
  {
    var next := Next(cfg, table, data, seed);
    NextFits(cfg, table, data, seed);
    WithinKeeps(WordMask(cfg), next);
  }

  lemma WithinKeeps(m: bv32, x: bv32)
    requires x & m == x
    ensures Within(m, x) == x
  {
  }

  /** The digit `%X` writes for `d`. */
  function HexChar(d: nat): char
    requires d < 16
  {
    "0123456789ABCDEF"[d]
  }

  /** The value of a hexadecimal digit; anything else counts as zero. */
  function DigitValue(c: char): nat
  {
    if '0' <= c <= '9' then (c - '0') as nat
    else if 'A' <= c <= 'F' then (c - 'A') as nat + 10
    else 0
  }

  /** `%X`: the hexadecimal digits of `v` without leading zeros, "0" for 0. */
  function HexDigits(v: nat): string
    decreases v
  {
    if v < 16 then [HexChar(v)] else HexDigits(v / 16) + [HexChar(v % 16)]
  }

  /** `%0*X` with field width `width`: the digits of `v`, padded on the
      left with zeros to at least `width` characters. */
  function HexFormat(v: nat, width: nat): string
  {
    var digits := HexDigits(v);
    if |digits| < width then seq(width - |digits|, _ => '0') + digits else digits
  }

  /** Reading a string of hexadecimal digits, most significant first. */
  function ParseHex(s: string): nat
    decreases |s|
  {
    if |s| == 0 then 0 else 16 * ParseHex(s[..|s| - 1]) + DigitValue(s[|s| - 1])
  }

  function Pow16(k: nat): nat
  {
    if k == 0 then 1 else 16 * Pow16(k - 1)
  }

  predicate IsHexDigit(c: char)
  {
    '0' <= c <= '9' || 'A' <= c <= 'F'
  }

  lemma DigitRoundTrip(d: nat)
    requires d < 16
    ensures DigitValue(HexChar(d)) == d && IsHexDigit(HexChar(d))
  {
  }

  /** `%X` writes upper-case digits that read back as `v`, and at most `k`
      of them when `v < 16^k`. */
  lemma {:induction false} HexDigitsProps(v: nat, k: nat)
    requires 1 <= k && v < Pow16(k)
    ensures ParseHex(HexDigits(v)) == v
    ensures 1 <= |HexDigits(v)| <= k
    ensures forall i | 0 <= i < |HexDigits(v)| :: IsHexDigit(HexDigits(v)[i])
    decreases v
  {
    assert Pow16(k) == 16 * Pow16(k - 1);
    if v < 16 {
      DigitRoundTrip(v);
    } else {
      HexDigitsProps(v / 16, k - 1);
      DigitRoundTrip(v % 16);
      var s := HexDigits(v);
      assert s[..|s| - 1] == HexDigits(v / 16);
    }
  }

  /** Leading zeros do not change the number a digit string reads as. */
  lemma {:induction false} ParseZeros(z: nat, s: string)
    ensures ParseHex(seq(z, _ => '0') + s) == ParseHex(s) + ParseHex(seq(z, _ => '0')) * Pow16(|s|)
    ensures ParseHex(seq(z, _ => '0')) == 0
    decreases |s|, z
  {
    var zeros := seq(z, _ => '0');
    if |s| == 0 {
      assert zeros + s == zeros;
      if z > 0 {
        ParseZeros(z - 1, s);
        assert zeros[..z - 1] == seq(z - 1, _ => '0');
      }
    } else {
      var t := s[..|s| - 1];
      ParseZeros(z, t);
      assert (zeros + s)[..|zeros + s| - 1] == zeros + t;
    }
  }

  /** `%0*X` with width `w` of a value below `16^w`: exactly `w` upper-case
      digits, which read back as the value. */
  lemma HexFormatProps(v: nat, w: nat)
    requires 1 <= w && v < Pow16(w)
    ensures |HexFormat(v, w)| == w
    ensures ParseHex(HexFormat(v, w)) == v
    ensures forall i | 0 <= i < w :: IsHexDigit(HexFormat(v, w)[i])
  {
    var digits := HexDigits(v);
    HexDigitsProps(v, w);
    if |digits| < w {
      var zeros := seq(w - |digits|, _ => '0');
      ParseZeros(w - |digits|, digits);
      assert HexFormat(v, w) == zeros + digits;
      forall i | 0 <= i < w
        ensures IsHexDigit(HexFormat(v, w)[i])
      {
        if i >= |zeros| {
          assert HexFormat(v, w)[i] == digits[i - |zeros|];
        }
      }
    }
  }

  lemma Pow16Values()
    ensures Pow16(2) == 0x100 && Pow16(4) == 0x1_0000 && Pow16(6) == 0x100_0000 && Pow16(8) == 0x1_0000_0000
  {
    assert Pow16(1) == 16;
    assert Pow16(2) == 0x100;
    assert Pow16(3) == 0x1000;
    assert Pow16(4) == 0x1_0000;
    assert Pow16(5) == 0x10_0000;
    assert Pow16(6) == 0x100_0000;
    assert Pow16(7) == 0x1000_0000;
  }

  lemma MaskedBelowOne(d: bv32)
    requires d & 0xFF == d
    ensures d <= 0xFF
  {
  }

  lemma NarrowOne(d: bv32)
    requires d <= 0xFF
    ensures (d as bv8) as nat == d as nat
  {
  }

  lemma NarrowRangeOne(e: bv8)
    ensures e as nat < 0x100
  {
  }

  lemma BelowOne(d: bv32)
    requires d & 0xFF == d
    ensures d as nat < 0x100
  {
    MaskedBelowOne(d);
    NarrowOne(d);
    NarrowRangeOne(d as bv8);
  }

  lemma MaskedBelowTwo(d: bv32)
    requires d & 0xFFFF == d
    ensures d <= 0xFFFF
  {
  }

  lemma NarrowTwo(d: bv32)
    requires d <= 0xFFFF
    ensures (d as bv16) as nat == d as nat
  {
  }

  lemma NarrowRangeTwo(e: bv16)
    ensures e as nat < 0x1_0000
  {
  }

  lemma BelowTwo(d: bv32)
    requires d & 0xFFFF == d
    ensures d as nat < 0x1_0000
  {
    MaskedBelowTwo(d);
    NarrowTwo(d);
    NarrowRangeTwo(d as bv16);
  }

  lemma MaskedBelowThree(d: bv32)
    requires d & 0xFF_FFFF == d
    ensures d <= 0xFF_FFFF
  {
  }

  lemma NarrowThree(d: bv32)
    requires d <= 0xFF_FFFF
    ensures (d as bv24) as nat == d as nat
  {
  }

  lemma NarrowRangeThree(e: bv24)
    ensures e as nat < 0x100_0000
  {
  }

  lemma BelowThree(d: bv32)
    requires d & 0xFF_FFFF == d
    ensures d as nat < 0x100_0000
  {
    MaskedBelowThree(d);
    NarrowThree(d);
    NarrowRangeThree(d as bv24);
  }

  /** A register value of `num_bytes` bytes has at most `2 * num_bytes`
      hexadecimal digits. */
  lemma RegisterBelow(cfg: Config, d: bv32)
    requires ValidConfig(cfg) && InRegister(cfg, d)
    ensures d as nat < Pow16(2 * cfg.numBytes)
  {
    WordMaskValue(cfg);
    Pow16Values();
    if cfg.numBytes == 1 {
      BelowOne(d);
    } else if cfg.numBytes == 2 {
      BelowTwo(d);
    } else if cfg.numBytes == 3 {
      BelowThree(d);
    }
  }

  // ---------------------------------------------------------------------------
  // The object

  /** `BaseCRC` (crcmanip/crc.py:65-122). */
  class BaseCrc {
    const numBits: nat
    const numBytes: nat
    const polynomial: bv32
    const polynomialReverse: bv32
    const initialXor: bv32
    const finalXor: bv32
    const bigEndian: bool
    const useFileSize: bool
    const lookupTable: seq<bv32>
    const lookupTableReverse: seq<bv32>

    /** `_value`: the register. */
    var value: bv32
    /** `_consumed`: the number of bytes fed through `update`. */
    var consumed: nat

    /** The attributes `crc_next` and `crc_prev` read from the object. */
    function Cfg(): Config
    {
      Config(numBytes, numBits, bigEndian)
    }

    /** What construction establishes and nothing changes afterwards: a
        width of whole bytes and the two tables of crc.py built for it. */
    ghost predicate Valid()
    {
      8 <= numBits <= 32 && numBits % 8 == 0 && numBytes == numBits / 8
      && polynomialReverse == Mirror(polynomial, numBits)
      && lookupTable == LookupTable(polynomial, numBits, bigEndian)
      && lookupTableReverse == ReverseTable(polynomial, numBits, bigEndian)
    }

    /** The assignments of `__init__` once every check has passed. */
    constructor Init(numBits: nat, numBytes: nat, polynomial: bv32, polynomialReverse: bv32,
                     initialXor: bv32, finalXor: bv32, bigEndian: bool, useFileSize: bool,
                     lookupTable: seq<bv32>, lookupTableReverse: seq<bv32>)
      ensures this.numBits == numBits && this.numBytes == numBytes
      ensures this.polynomial == polynomial && this.polynomialReverse == polynomialReverse
      ensures this.initialXor == initialXor && this.finalXor == finalXor
      ensures this.bigEndian == bigEndian && this.useFileSize == useFileSize
      ensures this.lookupTable == lookupTable && this.lookupTableReverse == lookupTableReverse
      ensures value == initialXor && consumed == 0
    {
      this.numBits := numBits;
      this.numBytes := numBytes;
      this.polynomial := polynomial;
      this.polynomialReverse := polynomialReverse;
      this.initialXor := initialXor;
      this.finalXor := finalXor;
      this.bigEndian := bigEndian;
      this.useFileSize := useFileSize;
      this.lookupTable := lookupTable;
      this.lookupTableReverse := lookupTableReverse;
      value := initialXor;
      consumed := 0;
    }

    /** `BaseCRC.__init__` (crcmanip/crc.py:66-94): a width that is not
        whole bytes fails the assertion; a width of zero or less then fails
        in `compute_lookup_table`. */
    static method Create(numBits: int, polynomial: bv32, initialXor: bv32, finalXor: bv32,
                         bigEndian: bool, useFileSize: bool) returns (r: Result<BaseCrc>)
      requires numBits <= 32
      ensures numBits % 8 != 0 ==> r == Err(AssertionError)
      ensures numBits % 8 == 0 && numBits <= 0 ==> r == Err(ValueError)
      ensures numBits % 8 == 0 && 0 < numBits ==> r.Ok?
      ensures r.Ok? ==> fresh(r.value) && r.value.Valid()
      ensures r.Ok? ==> r.value.numBits == numBits && r.value.numBytes == numBits / 8
      ensures r.Ok? ==> r.value.polynomial == polynomial && r.value.bigEndian == bigEndian
      ensures r.Ok? ==> r.value.initialXor == initialXor && r.value.finalXor == finalXor
      ensures r.Ok? ==> r.value.useFileSize == useFileSize
      ensures r.Ok? ==> r.value.value == initialXor && r.value.consumed == 0
    {
      var polynomialReverse := GetPolynomialReverse(polynomial, if numBits < 0 then 0 else numBits);
      if numBits % 8 != 0 {
        return Err(AssertionError);
      }
      var numBytes := numBits / 8;
      var lookupTable := ComputeLookupTable(polynomial, numBits, bigEndian);
      if lookupTable.Err? {
        return Err(lookupTable.error);
      }
      var lookupTableReverse := ComputeReverseLookupTable(polynomial, numBits, bigEndian);
      var crc := new BaseCrc.Init(numBits, numBytes, polynomial, polynomialReverse, initialXor, finalXor,
                                  bigEndian, useFileSize, lookupTable.value, lookupTableReverse.value);
      return Ok(crc);
    }

    /** `update` (crcmanip/crc.py:96-101): the source goes through
        `crc_next`, the result is masked, the count grows by its length, and
        the object itself is returned. */
    method Update(source: seq<bv8>) returns (self: BaseCrc)
      requires Valid()
      modifies this
      ensures self == this
      ensures value == Updated(Cfg(), lookupTable, source, old(value))
      ensures consumed == old(consumed) + |source|
    {
      var next := CrcNext(Cfg(), lookupTable, source, value);
      var mask := LowBits(numBits);
      value := Within(mask, next);
      consumed := consumed + |source|;
      self := this;
    }

    /** `digest` (crcmanip/crc.py:103-116). It changes nothing: the method
        has no `modifies` clause. */
    method Digest() returns (d: bv32)
      requires Valid()
      ensures d == DigestOf(Cfg(), lookupTable, value, consumed, useFileSize, finalXor)
      ensures InRegister(Cfg(), d)
    {
      var v := value;
      if useFileSize {
        var patch := SizePatch(consumed);
        v := CrcNext(Cfg(), lookupTable, patch, v);
      }
      v := Xor(v, finalXor);
      var mask := LowBits(numBits);
      d := Within(mask, v);
      DigestIs(Cfg(), lookupTable, value, consumed, useFileSize, finalXor, v, d);
      DigestFits(Cfg(), lookupTable, value, consumed, useFileSize, finalXor);
    }

    /** `hex_digest` (crcmanip/crc.py:118-119): `"%0*X"` with width
        `2 * num_bytes`, which is exactly that many upper-case digits. */
    method HexDigest() returns (s: string)
      requires Valid()
      ensures s == HexFormat(DigestOf(Cfg(), lookupTable, value, consumed, useFileSize, finalXor) as nat, 2 * numBytes)
      ensures |s| == 2 * numBytes
      ensures ParseHex(s) == DigestOf(Cfg(), lookupTable, value, consumed, useFileSize, finalXor) as nat
      ensures forall i | 0 <= i < |s| :: IsHexDigit(s[i])
    {
      var d := Digest();
      s := HexFormat(d as nat, numBytes * 2);
      RegisterBelow(Cfg(), d);
      HexFormatProps(d as nat, 2 * numBytes);
    }
  }
}
