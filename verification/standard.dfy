/** The five concrete CRCs of crcmanip/crc.py:125-158 and the check values
    their tests expect.

    Each subclass of `BaseCRC` only fixes the arguments of `__init__`. The
    check values follow from the model by evaluation: one lemma per byte
    looks up the table entry the byte selects (computed from its eight
    rounds) and takes one step of `Next`. */
module Standard {
  import opened Errors
  import opened Bits
  import opened Rounds
  import opened FastCrc
  import opened Tables
  import opened Consistency
  import opened Crc
  import Algorithm

  /** `CRC32.__init__` (crcmanip/crc.py:125-132). */
  method NewCrc32() returns (crc: BaseCrc)
    ensures fresh(crc) && crc.Valid()
    ensures crc.numBits == 32 && crc.polynomial == 0x04C11DB7 && crc.bigEndian == false
    ensures crc.initialXor == 0xFFFF_FFFF && crc.finalXor == 0xFFFF_FFFF && crc.useFileSize == false
    ensures crc.value == 0xFFFF_FFFF && crc.consumed == 0
  {
    var r := BaseCrc.Create(32, 0x04C11DB7, 0xFFFF_FFFF, 0xFFFF_FFFF, false, false);
    crc := r.value;
  }

  /** `CRC32POSIX.__init__` (crcmanip/crc.py:135-143). */
  method NewCrc32Posix() returns (crc: BaseCrc)
    ensures fresh(crc) && crc.Valid()
    ensures crc.numBits == 32 && crc.polynomial == 0x04C11DB7 && crc.bigEndian == true
    ensures crc.initialXor == 0x0 && crc.finalXor == 0xFFFF_FFFF && crc.useFileSize == true
    ensures crc.value == 0x0 && crc.consumed == 0
  {
    var r := BaseCrc.Create(32, 0x04C11DB7, 0x0, 0xFFFF_FFFF, true, true);
    crc := r.value;
  }

  /** `CRC16CCITT.__init__` (crcmanip/crc.py:146-148). */
  method NewCrc16Ccitt() returns (crc: BaseCrc)
    ensures fresh(crc) && crc.Valid()
    ensures crc.numBits == 16 && crc.polynomial == 0x1021 && crc.bigEndian == false
    ensures crc.initialXor == 0x0 && crc.finalXor == 0x0 && crc.useFileSize == false
    ensures crc.value == 0x0 && crc.consumed == 0
  {
    var r := BaseCrc.Create(16, 0x1021, 0x0, 0x0, false, false);
    crc := r.value;
  }

  /** `CRC16XMODEM.__init__` (crcmanip/crc.py:151-153). */
  method NewCrc16Xmodem() returns (crc: BaseCrc)
    ensures fresh(crc) && crc.Valid()
    ensures crc.numBits == 16 && crc.polynomial == 0x1021 && crc.bigEndian == true
    ensures crc.initialXor == 0x0 && crc.finalXor == 0x0 && crc.useFileSize == false
    ensures crc.value == 0x0 && crc.consumed == 0
  {
    var r := BaseCrc.Create(16, 0x1021, 0x0, 0x0, true, false);
    crc := r.value;
  }

  /** `CRC16IBM.__init__` (crcmanip/crc.py:156-158). */
  method NewCrc16Ibm() returns (crc: BaseCrc)
    ensures fresh(crc) && crc.Valid()
    ensures crc.numBits == 16 && crc.polynomial == 0x8005 && crc.bigEndian == false
    ensures crc.initialXor == 0x0 && crc.finalXor == 0x0 && crc.useFileSize == false
    ensures crc.value == 0x0 && crc.consumed == 0
  {
    var r := BaseCrc.Create(16, 0x8005, 0x0, 0x0, false, false);
    crc := r.value;
  }

  /** The parameters of the five subclasses. */
  predicate StandardParameters(numBits: nat, polynomial: bv32, bigEndian: bool)
  {
    (numBits == 32 && polynomial == 0x04C11DB7)
    || (numBits == 16 && polynomial == 0x1021)
    || (numBits == 16 && polynomial == 0x8005 && !bigEndian)
  }

  /** For every subclass, `crc_prev` with the reverse table takes the
      register `update` leaves back to the register before it. */
  lemma StandardUndo(numBits: nat, polynomial: bv32, bigEndian: bool, data: seq<bv8>, seed: bv32)
    requires StandardParameters(numBits, polynomial, bigEndian)
    requires InRegister(Config(numBits / 8, numBits, bigEndian), seed)
    ensures Prev(Config(numBits / 8, numBits, bigEndian), ReverseTable(polynomial, numBits, bigEndian), data,
                 Updated(Config(numBits / 8, numBits, bigEndian), LookupTable(polynomial, numBits, bigEndian), data, seed))
            == seed
  {
    var cfg := Config(numBits / 8, numBits, bigEndian);
    MaskConstants();
    assert WordMask(cfg) == if numBits == 32 then 0xFFFF_FFFF else 0xFFFF;
    UpdateUndone(cfg, polynomial, data, seed);
  }

  // ---------------------------------------------------------------------------
  // Check values

  /** `b"123456789"`, the input of the check values (crcmanip/tests/test_crc.py:13-26). */
  const CHECK: seq<bv8> := [0x31, 0x32, 0x33, 0x34, 0x35, 0x36, 0x37, 0x38, 0x39]

  /** `"hello"`, the input of crcmanip/tests/test_cli.py:10-27. */
  const HELLO: seq<bv8> := [0x68, 0x65, 0x6C, 0x6C, 0x6F]

  /** `digest` appends the single byte 9 after nine bytes. */
  lemma SizeOfNine()
    ensures SizeBytes(9) == [9]
  {
    assert SizeBytes(0) == [];
  }

  /** `%X` appends the last digit to the digits of the value divided by 16. */
  lemma HexDigitsSnoc(v: nat, s: string, c: char)
    requires 16 <= v && HexDigits(v / 16) == s && c == HexChar(v % 16)
    ensures HexDigits(v) == s + [c]
  {
  }

  /** One more byte through `Next`. */
  lemma NextSnoc(cfg: Config, t: seq<bv32>, data: seq<bv8>, k: nat, c: bv8, seed: bv32, v: bv32, w: bv32)
    requires |t| == 256 && k < |data| && data[k] == c
    requires Next(cfg, t, data[..k], seed) == v && NextByte(cfg, t, v, c) == w
    ensures Next(cfg, t, data[..k + 1], seed) == w
  {
    assert data[..k + 1][..k] == data[..k];
  }

  lemma Mirror04C11DB7()
    ensures Mirror(0x04C11DB7, 32) == 0xEDB8_8320
  {
    assert Mirror(0x04C11DB7, 1) == 0x1;
    assert Mirror(0x04C11DB7, 2) == 0x3;
    assert Mirror(0x04C11DB7, 3) == 0x7;
    assert Mirror(0x04C11DB7, 4) == 0xE;
    assert Mirror(0x04C11DB7, 5) == 0x1D;
    assert Mirror(0x04C11DB7, 6) == 0x3B;
    assert Mirror(0x04C11DB7, 7) == 0x76;
    assert Mirror(0x04C11DB7, 8) == 0xED;
    assert Mirror(0x04C11DB7, 9) == 0x1DB;
    assert Mirror(0x04C11DB7, 10) == 0x3B6;
    assert Mirror(0x04C11DB7, 11) == 0x76D;
    assert Mirror(0x04C11DB7, 12) == 0xEDB;
    assert Mirror(0x04C11DB7, 13) == 0x1DB7;
    assert Mirror(0x04C11DB7, 14) == 0x3B6E;
    assert Mirror(0x04C11DB7, 15) == 0x76DC;
    assert Mirror(0x04C11DB7, 16) == 0xEDB8;
    assert Mirror(0x04C11DB7, 17) == 0x1_DB71;
    assert Mirror(0x04C11DB7, 18) == 0x3_B6E2;
    assert Mirror(0x04C11DB7, 19) == 0x7_6DC4;
    assert Mirror(0x04C11DB7, 20) == 0xE_DB88;
    assert Mirror(0x04C11DB7, 21) == 0x1D_B710;
    assert Mirror(0x04C11DB7, 22) == 0x3B_6E20;
    assert Mirror(0x04C11DB7, 23) == 0x76_DC41;
    assert Mirror(0x04C11DB7, 24) == 0xED_B883;
    assert Mirror(0x04C11DB7, 25) == 0x1DB_7106;
    assert Mirror(0x04C11DB7, 26) == 0x3B6_E20C;
    assert Mirror(0x04C11DB7, 27) == 0x76D_C419;
    assert Mirror(0x04C11DB7, 28) == 0xEDB_8832;
    assert Mirror(0x04C11DB7, 29) == 0x1DB7_1064;
    assert Mirror(0x04C11DB7, 30) == 0x3B6E_20C8;
    assert Mirror(0x04C11DB7, 31) == 0x76DC_4190;
    assert Mirror(0x04C11DB7, 32) == 0xEDB8_8320;
  }

  lemma Mirror1021()
    ensures Mirror(0x1021, 16) == 0x8408
  {
    assert Mirror(0x1021, 1) == 0x1;
    assert Mirror(0x1021, 2) == 0x2;
    assert Mirror(0x1021, 3) == 0x4;
    assert Mirror(0x1021, 4) == 0x8;
    assert Mirror(0x1021, 5) == 0x10;
    assert Mirror(0x1021, 6) == 0x21;
    assert Mirror(0x1021, 7) == 0x42;
    assert Mirror(0x1021, 8) == 0x84;
    assert Mirror(0x1021, 9) == 0x108;
    assert Mirror(0x1021, 10) == 0x210;
    assert Mirror(0x1021, 11) == 0x420;
    assert Mirror(0x1021, 12) == 0x840;
    assert Mirror(0x1021, 13) == 0x1081;
    assert Mirror(0x1021, 14) == 0x2102;
    assert Mirror(0x1021, 15) == 0x4204;
    assert Mirror(0x1021, 16) == 0x8408;
  }

  lemma Mirror8005()
    ensures Mirror(0x8005, 16) == 0xA001
  {
    assert Mirror(0x8005, 1) == 0x1;
    assert Mirror(0x8005, 2) == 0x2;
    assert Mirror(0x8005, 3) == 0x5;
    assert Mirror(0x8005, 4) == 0xA;
    assert Mirror(0x8005, 5) == 0x14;
    assert Mirror(0x8005, 6) == 0x28;
    assert Mirror(0x8005, 7) == 0x50;
    assert Mirror(0x8005, 8) == 0xA0;
    assert Mirror(0x8005, 9) == 0x140;
    assert Mirror(0x8005, 10) == 0x280;
    assert Mirror(0x8005, 11) == 0x500;
    assert Mirror(0x8005, 12) == 0xA00;
    assert Mirror(0x8005, 13) == 0x1400;
    assert Mirror(0x8005, 14) == 0x2800;
    assert Mirror(0x8005, 15) == 0x5000;
    assert Mirror(0x8005, 16) == 0xA001;
  }

  /** One little-endian step of `crc_next` at 32 bits. */
  lemma Little32Step(t: seq<bv32>, v: bv32, c: bv8, e: bv32, w: bv32)
    requires |t| == 256 && t[Index(c as bv32 ^ v)] == e && w == (e ^ (v >> 8)) & 0xFFFF_FFFF
    ensures NextByte(Config(4, 32, false), t, v, c) == w
  {
    MaskConstants();
  }

  lemma Big32Feed(t: seq<bv32>, v: bv32, c: bv8, e: bv32, w: bv32)
    requires |t| == 256 && t[Index(c as bv32 ^ (v >> 24))] == e && w == (e ^ (v << 8)) & 0xFFFF_FFFF
    ensures Feed(Config(4, 32, true), t, v >> 24, v << 8, c) == w
  {
    MaskConstants();
  }

  /** One big-endian step of `crc_next` at 32 bits. */
  lemma Big32Step(t: seq<bv32>, v: bv32, c: bv8, e: bv32, w: bv32)
    requires |t| == 256 && t[Index(c as bv32 ^ (v >> 24))] == e && w == (e ^ (v << 8)) & 0xFFFF_FFFF
    ensures NextByte(Config(4, 32, true), t, v, c) == w
  {
    assert ShiftDown(Config(4, 32, true), v) == v >> 24;
    Big32Feed(t, v, c, e, w);
  }

  /** One little-endian step of `crc_next` at 16 bits. */
  lemma Little16Step(t: seq<bv32>, v: bv32, c: bv8, e: bv32, w: bv32)
    requires |t| == 256 && t[Index(c as bv32 ^ v)] == e && w == (e ^ (v >> 8)) & 0xFFFF
    ensures NextByte(Config(2, 16, false), t, v, c) == w
  {
    MaskConstants();
  }

  lemma Big16Feed(t: seq<bv32>, v: bv32, c: bv8, e: bv32, w: bv32)
    requires |t| == 256 && t[Index(c as bv32 ^ (v >> 8))] == e && w == (e ^ (v << 8)) & 0xFFFF
    ensures Feed(Config(2, 16, true), t, v >> 8, v << 8, c) == w
  {
    MaskConstants();
  }

  /** One big-endian step of `crc_next` at 16 bits. */
  lemma Big16Step(t: seq<bv32>, v: bv32, c: bv8, e: bv32, w: bv32)
    requires |t| == 256 && t[Index(c as bv32 ^ (v >> 8))] == e && w == (e ^ (v << 8)) & 0xFFFF
    ensures NextByte(Config(2, 16, true), t, v, c) == w
  {
    assert ShiftDown(Config(2, 16, true), v) == v >> 8;
    Big16Feed(t, v, c, e, w);
  }

  // CRC32

  /** The entry of the CRC32 lookup table that byte `x` selects. */
  lemma Crc32Entry(x: bv32, e: bv32)
    requires x <= 0xFF && LittleForwardRounds(0xEDB8_8320, 8, x) == e && e & 0xFFFF_FFFF == e
    ensures LookupTable(0x04C11DB7, 32, false)[Index(x)] == e
  {
    LookupAt(0x04C11DB7, 32, false, x);
    MaskConstants();
    Mirror04C11DB7();
  }

  lemma Crc32CheckPrefix1()
    ensures Next(Config(4, 32, false), LookupTable(0x04C11DB7, 32, false), CHECK[..1], 0xFFFF_FFFF) == 0x7C23_1048
  {
    Crc32Entry(0xCE, 0x7CDC_EFB7);
    var t := LookupTable(0x04C11DB7, 32, false);
    assert CHECK[..0] == [];
    Little32Step(t, 0xFFFF_FFFF, 0x31, 0x7CDC_EFB7, 0x7C23_1048);
    NextSnoc(Config(4, 32, false), t, CHECK, 0, 0x31, 0xFFFF_FFFF, 0xFFFF_FFFF, 0x7C23_1048);
  }

  lemma Crc32CheckPrefix2()
    ensures Next(Config(4, 32, false), LookupTable(0x04C11DB7, 32, false), CHECK[..2], 0xFFFF_FFFF) == 0xB0AC_BB32
  {
    Crc32Entry(0x7A, 0xB0D0_9822);
    var t := LookupTable(0x04C11DB7, 32, false);
    Crc32CheckPrefix1();
    Little32Step(t, 0x7C23_1048, 0x32, 0xB0D0_9822, 0xB0AC_BB32);
    NextSnoc(Config(4, 32, false), t, CHECK, 1, 0x32, 0xFFFF_FFFF, 0x7C23_1048, 0xB0AC_BB32);
  }

  lemma Crc32CheckPrefix3()
    ensures Next(Config(4, 32, false), LookupTable(0x04C11DB7, 32, false), CHECK[..3], 0xFFFF_FFFF) == 0x77B7_9C2D
  {
    Crc32Entry(0x1, 0x7707_3096);
    var t := LookupTable(0x04C11DB7, 32, false);
    Crc32CheckPrefix2();
    Little32Step(t, 0xB0AC_BB32, 0x33, 0x7707_3096, 0x77B7_9C2D);
    NextSnoc(Config(4, 32, false), t, CHECK, 2, 0x33, 0xFFFF_FFFF, 0xB0AC_BB32, 0x77B7_9C2D);
  }

  lemma Crc32CheckPrefix4()
    ensures Next(Config(4, 32, false), LookupTable(0x04C11DB7, 32, false), CHECK[..4], 0xFFFF_FFFF) == 0x641C_1F5C
  {
    Crc32Entry(0x19, 0x646B_A8C0);
    var t := LookupTable(0x04C11DB7, 32, false);
    Crc32CheckPrefix3();
    Little32Step(t, 0x77B7_9C2D, 0x34, 0x646B_A8C0, 0x641C_1F5C);
    NextSnoc(Config(4, 32, false), t, CHECK, 3, 0x34, 0xFFFF_FFFF, 0x77B7_9C2D, 0x641C_1F5C);
  }

  lemma Crc32CheckPrefix5()
    ensures Next(Config(4, 32, false), LookupTable(0x04C11DB7, 32, false), CHECK[..5], 0xFFFF_FFFF) == 0x340A_C5E3
  {
    Crc32Entry(0x69, 0x346E_D9FC);
    var t := LookupTable(0x04C11DB7, 32, false);
    Crc32CheckPrefix4();
    Little32Step(t, 0x641C_1F5C, 0x35, 0x346E_D9FC, 0x340A_C5E3);
    NextSnoc(Config(4, 32, false), t, CHECK, 4, 0x35, 0xFFFF_FFFF, 0x641C_1F5C, 0x340A_C5E3);
  }

  lemma Crc32CheckPrefix6()
    ensures Next(Config(4, 32, false), LookupTable(0x04C11DB7, 32, false), CHECK[..6], 0xFFFF_FFFF) == 0xF68D_2C9E
  {
    Crc32Entry(0xD5, 0xF6B9_265B);
    var t := LookupTable(0x04C11DB7, 32, false);
    Crc32CheckPrefix5();
    Little32Step(t, 0x340A_C5E3, 0x36, 0xF6B9_265B, 0xF68D_2C9E);
    NextSnoc(Config(4, 32, false), t, CHECK, 5, 0x36, 0xFFFF_FFFF, 0x340A_C5E3, 0xF68D_2C9E);
  }

  lemma Crc32CheckPrefix7()
    ensures Next(Config(4, 32, false), LookupTable(0x04C11DB7, 32, false), CHECK[..7], 0xFFFF_FFFF) == 0xAFFC_9660
  {
    Crc32Entry(0xA9, 0xAF0A_1B4C);
    var t := LookupTable(0x04C11DB7, 32, false);
    Crc32CheckPrefix6();
    Little32Step(t, 0xF68D_2C9E, 0x37, 0xAF0A_1B4C, 0xAFFC_9660);
    NextSnoc(Config(4, 32, false), t, CHECK, 6, 0x37, 0xFFFF_FFFF, 0xF68D_2C9E, 0xAFFC_9660);
  }

  lemma Crc32CheckPrefix8()
    ensures Next(Config(4, 32, false), LookupTable(0x04C11DB7, 32, false), CHECK[..8], 0xFFFF_FFFF) == 0x651F_2550
  {
    Crc32Entry(0x58, 0x65B0_D9C6);
    var t := LookupTable(0x04C11DB7, 32, false);
    Crc32CheckPrefix7();
    Little32Step(t, 0xAFFC_9660, 0x38, 0x65B0_D9C6, 0x651F_2550);
    NextSnoc(Config(4, 32, false), t, CHECK, 7, 0x38, 0xFFFF_FFFF, 0xAFFC_9660, 0x651F_2550);
  }

  lemma Crc32CheckPrefix9()
    ensures Next(Config(4, 32, false), LookupTable(0x04C11DB7, 32, false), CHECK[..9], 0xFFFF_FFFF) == 0x340B_C6D9
  {
    Crc32Entry(0x69, 0x346E_D9FC);
    var t := LookupTable(0x04C11DB7, 32, false);
    Crc32CheckPrefix8();
    Little32Step(t, 0x651F_2550, 0x39, 0x346E_D9FC, 0x340B_C6D9);
    NextSnoc(Config(4, 32, false), t, CHECK, 8, 0x39, 0xFFFF_FFFF, 0x651F_2550, 0x340B_C6D9);
  }

  /** The digest of CRC32 after `update(b"123456789")`. */
  lemma Crc32CheckDigest(cfg: Config, t: seq<bv32>, value: bv32, consumed: nat)
    requires cfg == Config(4, 32, false) && t == LookupTable(0x04C11DB7, 32, false)
    requires value == Updated(cfg, t, CHECK, 0xFFFF_FFFF) && consumed == |CHECK|
    ensures DigestOf(cfg, t, value, consumed, false, 0xFFFF_FFFF) == 0xCBF4_3926
  {
    Crc32CheckPrefix9();
    assert CHECK[..9] == CHECK;
    MaskConstants();
  }

  /** `CRC32().update(b"123456789").digest()` (crcmanip/tests/test_crc.py:13-26). */
  method Crc32Check() returns (d: bv32)
    ensures d == 0xCBF4_3926
  {
    var crc := NewCrc32();
    var same := crc.Update(CHECK);
    d := same.Digest();
    Crc32CheckDigest(same.Cfg(), same.lookupTable, same.value, same.consumed);
  }

  lemma Crc32HelloPrefix1()
    ensures Next(Config(4, 32, false), LookupTable(0x04C11DB7, 32, false), HELLO[..1], 0xFFFF_FFFF) == 0x6E94_F918
  {
    Crc32Entry(0x97, 0x6E6B_06E7);
    var t := LookupTable(0x04C11DB7, 32, false);
    assert HELLO[..0] == [];
    Little32Step(t, 0xFFFF_FFFF, 0x68, 0x6E6B_06E7, 0x6E94_F918);
    NextSnoc(Config(4, 32, false), t, HELLO, 0, 0x68, 0xFFFF_FFFF, 0xFFFF_FFFF, 0x6E94_F918);
  }

  lemma Crc32HelloPrefix2()
    ensures Next(Config(4, 32, false), LookupTable(0x04C11DB7, 32, false), HELLO[..2], 0xFFFF_FFFF) == 0x2EDA_9978
  {
    Crc32Entry(0x7D, 0x2EB4_0D81);
    var t := LookupTable(0x04C11DB7, 32, false);
    Crc32HelloPrefix1();
    Little32Step(t, 0x6E94_F918, 0x65, 0x2EB4_0D81, 0x2EDA_9978);
    NextSnoc(Config(4, 32, false), t, HELLO, 1, 0x65, 0xFFFF_FFFF, 0x6E94_F918, 0x2EDA_9978);
  }

  lemma Crc32HelloPrefix3()
    ensures Next(Config(4, 32, false), LookupTable(0x04C11DB7, 32, false), HELLO[..3], 0xFFFF_FFFF) == 0x1AF4_0EE4
  {
    Crc32Entry(0x14, 0x1ADA_D47D);
    var t := LookupTable(0x04C11DB7, 32, false);
    Crc32HelloPrefix2();
    Little32Step(t, 0x2EDA_9978, 0x6C, 0x1ADA_D47D, 0x1AF4_0EE4);
    NextSnoc(Config(4, 32, false), t, HELLO, 2, 0x6C, 0xFFFF_FFFF, 0x2EDA_9978, 0x1AF4_0EE4);
  }

  lemma Crc32HelloPrefix4()
    ensures Next(Config(4, 32, false), LookupTable(0x04C11DB7, 32, false), HELLO[..4], 0xFFFF_FFFF) == 0xE379_FF1C
  {
    Crc32Entry(0x88, 0xE363_0B12);
    var t := LookupTable(0x04C11DB7, 32, false);
    Crc32HelloPrefix3();
    Little32Step(t, 0x1AF4_0EE4, 0x6C, 0xE363_0B12, 0xE379_FF1C);
    NextSnoc(Config(4, 32, false), t, HELLO, 3, 0x6C, 0xFFFF_FFFF, 0x1AF4_0EE4, 0xE379_FF1C);
  }

  lemma Crc32HelloPrefix5()
    ensures Next(Config(4, 32, false), LookupTable(0x04C11DB7, 32, false), HELLO[..5], 0xFFFF_FFFF) == 0xC9EF_5979
  {
    Crc32Entry(0x73, 0xC90C_2086);
    var t := LookupTable(0x04C11DB7, 32, false);
    Crc32HelloPrefix4();
    Little32Step(t, 0xE379_FF1C, 0x6F, 0xC90C_2086, 0xC9EF_5979);
    NextSnoc(Config(4, 32, false), t, HELLO, 4, 0x6F, 0xFFFF_FFFF, 0xE379_FF1C, 0xC9EF_5979);
  }

  lemma Crc32HelloDigest(cfg: Config, t: seq<bv32>, value: bv32, consumed: nat)
    requires cfg == Config(4, 32, false) && t == LookupTable(0x04C11DB7, 32, false)
    requires value == Updated(cfg, t, HELLO, 0xFFFF_FFFF) && consumed == |HELLO|
    ensures DigestOf(cfg, t, value, consumed, false, 0xFFFF_FFFF) == 0x3610_A686
  {
    Crc32HelloPrefix5();
    assert HELLO[..5] == HELLO;
    MaskConstants();
  }

  lemma Crc32HelloHex()
    ensures HexFormat(0x3610_A686, 8) == "3610A686"
  {
    assert HexDigits(0x3) == "3";
    HexDigitsSnoc(0x36, "3", '6');
    HexDigitsSnoc(0x361, "36", '1');
    HexDigitsSnoc(0x3610, "361", '0');
    HexDigitsSnoc(0x3_610A, "3610", 'A');
    HexDigitsSnoc(0x36_10A6, "3610A", '6');
    HexDigitsSnoc(0x361_0A68, "3610A6", '8');
    HexDigitsSnoc(0x3610_A686, "3610A68", '6');
  }

  /** The line the `calc` command prints for a file holding `hello`
      (crcmanip/tests/test_cli.py:10-17): `consume` over the whole file with
      the default chunk size, then `hex_digest` (crcmanip/cli.py:45-49). */
  method Crc32Hello() returns (s: string)
    ensures s == "3610A686"
  {
    var crc := NewCrc32();
    var handle := new Algorithm.Handle(HELLO);
    var _ := Algorithm.Consume(crc, handle, None, None, Algorithm.DEFAULT_CHUNK_SIZE);
    Algorithm.ConsumeWholeFile(crc.Cfg(), crc.lookupTable, HELLO, Algorithm.DEFAULT_CHUNK_SIZE, 0xFFFF_FFFF);
    s := crc.HexDigest();
    Crc32HelloDigest(crc.Cfg(), crc.lookupTable, crc.value, crc.consumed);
    Crc32HelloHex();
  }

  /** CRC32 over `01 02` from an all-ones register. */
  lemma Crc32OneTwo()
    ensures Next(Config(4, 32, false), LookupTable(0x04C11DB7, 32, false), [0x01, 0x02], 0xFFFF_FFFF) == 0x4933_BD6D
  {
    var cfg, t := Config(4, 32, false), LookupTable(0x04C11DB7, 32, false);
    var ab: seq<bv8> := [0x01, 0x02];
    Crc32Entry(0xFE, 0x5A05_DF1B);
    Crc32Entry(0xE6, 0x4969_474D);
    assert ab[..0] == [];
    Little32Step(t, 0xFFFF_FFFF, 0x01, 0x5A05_DF1B, 0x5AFA_20E4);
    NextSnoc(cfg, t, ab, 0, 0x01, 0xFFFF_FFFF, 0xFFFF_FFFF, 0x5AFA_20E4);
    Little32Step(t, 0x5AFA_20E4, 0x02, 0x4969_474D, 0x4933_BD6D);
    NextSnoc(cfg, t, ab, 1, 0x02, 0xFFFF_FFFF, 0x5AFA_20E4, 0x4933_BD6D);
    assert ab[..2] == ab;
  }

  /** CRC32 over `02 01` from an all-ones register. */
  lemma Crc32TwoOne()
    ensures Next(Config(4, 32, false), LookupTable(0x04C11DB7, 32, false), [0x02, 0x01], 0xFFFF_FFFF) == 0xFB17_BF14
  {
    var cfg, t := Config(4, 32, false), LookupTable(0x04C11DB7, 32, false);
    var ba: seq<bv8> := [0x02, 0x01];
    Crc32Entry(0xFD, 0xC30C_8EA1);
    Crc32Entry(0x5F, 0xFBD4_4C65);
    assert ba[..0] == [];
    Little32Step(t, 0xFFFF_FFFF, 0x02, 0xC30C_8EA1, 0xC3F3_715E);
    NextSnoc(cfg, t, ba, 0, 0x02, 0xFFFF_FFFF, 0xFFFF_FFFF, 0xC3F3_715E);
    Little32Step(t, 0xC3F3_715E, 0x01, 0xFBD4_4C65, 0xFB17_BF14);
    NextSnoc(cfg, t, ba, 1, 0x01, 0xFFFF_FFFF, 0xC3F3_715E, 0xFB17_BF14);
    assert ba[..2] == ba;
  }

  /** The order of the bytes matters: CRC32 over `01 02` and over `02 01`
      from the same register ends in different registers. */
  lemma Crc32OrderMatters()
    ensures Next(Config(4, 32, false), LookupTable(0x04C11DB7, 32, false), [0x01, 0x02], 0xFFFF_FFFF)
            != Next(Config(4, 32, false), LookupTable(0x04C11DB7, 32, false), [0x02, 0x01], 0xFFFF_FFFF)
  {
    Crc32OneTwo();
    Crc32TwoOne();
  }

  // CRC32POSIX

  /** The entry of the CRC32POSIX lookup table that byte `x` selects. */
  lemma Crc32PosixEntry(x: bv32, s: bv32, r: bv32, e: bv32)
    requires x <= 0xFF && s == x << 24 && BigForwardRounds(0x04C11DB7, 0x8000_0000, 8, s) == r && e == r & 0xFFFF_FFFF
    ensures LookupTable(0x04C11DB7, 32, true)[Index(x)] == e
  {
    LookupAt(0x04C11DB7, 32, true, x);
    MaskConstants();
    SwapIsShiftUp(Config(4, 32, true), x);
  }

  lemma Crc32PosixCheckPrefix1()
    ensures Next(Config(4, 32, true), LookupTable(0x04C11DB7, 32, true), CHECK[..1], 0x0) == 0xD0F3_7027
  {
    Crc32PosixEntry(0x31, 0x3100_0000, 0xD0F3_7027, 0xD0F3_7027);
    var t := LookupTable(0x04C11DB7, 32, true);
    assert CHECK[..0] == [];
    Big32Step(t, 0x0, 0x31, 0xD0F3_7027, 0xD0F3_7027);
    NextSnoc(Config(4, 32, true), t, CHECK, 0, 0x31, 0x0, 0x0, 0xD0F3_7027);
  }

  lemma Crc32PosixCheckPrefix2()
    ensures Next(Config(4, 32, true), LookupTable(0x04C11DB7, 32, true), CHECK[..2], 0x0) == 0x3F5B_3A17
  {
    Crc32PosixEntry(0xE2, 0xE200_0000, 0xCC2B_1D17, 0xCC2B_1D17);
    var t := LookupTable(0x04C11DB7, 32, true);
    Crc32PosixCheckPrefix1();
    Big32Step(t, 0xD0F3_7027, 0x32, 0xCC2B_1D17, 0x3F5B_3A17);
    NextSnoc(Config(4, 32, true), t, CHECK, 1, 0x32, 0x0, 0xD0F3_7027, 0x3F5B_3A17);
  }

  lemma Crc32PosixCheckPrefix3()
    ensures Next(Config(4, 32, true), LookupTable(0x04C11DB7, 32, true), CHECK[..3], 0x0) == 0x6E36_8C64
  {
    Crc32PosixEntry(0xC, 0xC00_0000, 0x350C_9B64, 0x350C_9B64);
    var t := LookupTable(0x04C11DB7, 32, true);
    Crc32PosixCheckPrefix2();
    Big32Step(t, 0x3F5B_3A17, 0x33, 0x350C_9B64, 0x6E36_8C64);
    NextSnoc(Config(4, 32, true), t, CHECK, 2, 0x33, 0x0, 0x3F5B_3A17, 0x6E36_8C64);
  }

  lemma Crc32PosixCheckPrefix4()
    ensures Next(Config(4, 32, true), LookupTable(0x04C11DB7, 32, true), CHECK[..4], 0x0) == 0x6191_19D1
  {
    Crc32PosixEntry(0x5A, 0x5A00_0000, 0x571D_7DD1, 0x571D_7DD1);
    var t := LookupTable(0x04C11DB7, 32, true);
    Crc32PosixCheckPrefix3();
    Big32Step(t, 0x6E36_8C64, 0x34, 0x571D_7DD1, 0x6191_19D1);
    NextSnoc(Config(4, 32, true), t, CHECK, 3, 0x34, 0x0, 0x6E36_8C64, 0x6191_19D1);
  }

  lemma Crc32PosixCheckPrefix5()
    ensures Next(Config(4, 32, true), LookupTable(0x04C11DB7, 32, true), CHECK[..5], 0x0) == 0xFA8A_0CDB
  {
    Crc32PosixEntry(0x54, 0x5400_0000, 0x6B93_DDDB, 0x6B93_DDDB);
    var t := LookupTable(0x04C11DB7, 32, true);
    Crc32PosixCheckPrefix4();
    Big32Step(t, 0x6191_19D1, 0x35, 0x6B93_DDDB, 0xFA8A_0CDB);
    NextSnoc(Config(4, 32, true), t, CHECK, 4, 0x35, 0x0, 0x6191_19D1, 0xFA8A_0CDB);
  }

  lemma Crc32PosixCheckPrefix6()
    ensures Next(Config(4, 32, true), LookupTable(0x04C11DB7, 32, true), CHECK[..6], 0x0) == 0xE28A_D0FD
  {
    Crc32PosixEntry(0xCC, 0xCC00_0000, 0x6886_0BFD, 0x6886_0BFD);
    var t := LookupTable(0x04C11DB7, 32, true);
    Crc32PosixCheckPrefix5();
    Big32Step(t, 0xFA8A_0CDB, 0x36, 0x6886_0BFD, 0xE28A_D0FD);
    NextSnoc(Config(4, 32, true), t, CHECK, 5, 0x36, 0x0, 0xFA8A_0CDB, 0xE28A_D0FD);
  }

  lemma Crc32PosixCheckPrefix7()
    ensures Next(Config(4, 32, true), LookupTable(0x04C11DB7, 32, true), CHECK[..7], 0x0) == 0x8C8E_DD82
  {
    Crc32PosixEntry(0xD5, 0xD500_0000, 0x65E_2082, 0x65E_2082);
    var t := LookupTable(0x04C11DB7, 32, true);
    Crc32PosixCheckPrefix6();
    Big32Step(t, 0xE28A_D0FD, 0x37, 0x65E_2082, 0x8C8E_DD82);
    NextSnoc(Config(4, 32, true), t, CHECK, 6, 0x37, 0x0, 0xE28A_D0FD, 0x8C8E_DD82);
  }

  lemma Crc32PosixCheckPrefix8()
    ensures Next(Config(4, 32, true), LookupTable(0x04C11DB7, 32, true), CHECK[..8], 0x0) == 0x20E7_79A2
  {
    Crc32PosixEntry(0xB4, 0xB400_0000, 0xAE3A_FBA2, 0xAE3A_FBA2);
    var t := LookupTable(0x04C11DB7, 32, true);
    Crc32PosixCheckPrefix7();
    Big32Step(t, 0x8C8E_DD82, 0x38, 0xAE3A_FBA2, 0x20E7_79A2);
    NextSnoc(Config(4, 32, true), t, CHECK, 7, 0x38, 0x0, 0x8C8E_DD82, 0x20E7_79A2);
  }

  lemma Crc32PosixCheckPrefix9()
    ensures Next(Config(4, 32, true), LookupTable(0x04C11DB7, 32, true), CHECK[..9], 0x0) == 0x89A1_897F
  {
    Crc32PosixEntry(0x19, 0x1900_0000, 0x6ED8_2B7F, 0x6ED8_2B7F);
    var t := LookupTable(0x04C11DB7, 32, true);
    Crc32PosixCheckPrefix8();
    Big32Step(t, 0x20E7_79A2, 0x39, 0x6ED8_2B7F, 0x89A1_897F);
    NextSnoc(Config(4, 32, true), t, CHECK, 8, 0x39, 0x0, 0x20E7_79A2, 0x89A1_897F);
  }

  lemma Crc32PosixPatchStep()
    ensures Next(Config(4, 32, true), LookupTable(0x04C11DB7, 32, true), [9], 0x89A1_897F) == 0xC885_9FEE
  {
    Crc32PosixEntry(0x80, 0x8000_0000, 0x690C_E0EE, 0x690C_E0EE);
    var t := LookupTable(0x04C11DB7, 32, true);
    var patch: seq<bv8> := [9];
    assert patch[..0] == [];
    Big32Step(t, 0x89A1_897F, 9, 0x690C_E0EE, 0xC885_9FEE);
    NextSnoc(Config(4, 32, true), t, patch, 0, 9, 0x89A1_897F, 0x89A1_897F, 0xC885_9FEE);
    assert patch[..1] == patch;
  }

  /** The size patch `digest` appends after nine bytes. */
  lemma Crc32PosixSizePatch()
    ensures Next(Config(4, 32, true), LookupTable(0x04C11DB7, 32, true), SizeBytes(9), 0x89A1_897F) == 0xC885_9FEE
  {
    SizeOfNine();
    Crc32PosixPatchStep();
  }

  /** The digest of CRC32POSIX after `update(b"123456789")`. */
  lemma Crc32PosixCheckDigest(cfg: Config, t: seq<bv32>, value: bv32, consumed: nat)
    requires cfg == Config(4, 32, true) && t == LookupTable(0x04C11DB7, 32, true)
    requires value == Updated(cfg, t, CHECK, 0x0) && consumed == |CHECK|
    ensures DigestOf(cfg, t, value, consumed, true, 0xFFFF_FFFF) == 0x377A_6011
  {
    Crc32PosixCheckPrefix9();
    assert CHECK[..9] == CHECK;
    MaskConstants();
    Crc32PosixSizePatch();
  }

  /** `CRC32POSIX().update(b"123456789").digest()` (crcmanip/tests/test_crc.py:13-26). */
  method Crc32PosixCheck() returns (d: bv32)
    ensures d == 0x377A_6011
  {
    var crc := NewCrc32Posix();
    var same := crc.Update(CHECK);
    d := same.Digest();
    Crc32PosixCheckDigest(same.Cfg(), same.lookupTable, same.value, same.consumed);
  }

  // CRC16CCITT

  /** The entry of the CRC16CCITT lookup table that byte `x` selects. */
  lemma Crc16CcittEntry(x: bv32, e: bv32)
    requires x <= 0xFF && LittleForwardRounds(0x8408, 8, x) == e && e & 0xFFFF == e
    ensures LookupTable(0x1021, 16, false)[Index(x)] == e
  {
    LookupAt(0x1021, 16, false, x);
    MaskConstants();
    Mirror1021();
  }

  lemma Crc16CcittCheckPrefix1()
    ensures Next(Config(2, 16, false), LookupTable(0x1021, 16, false), CHECK[..1], 0x0) == 0x200A
  {
    Crc16CcittEntry(0x31, 0x200A);
    var t := LookupTable(0x1021, 16, false);
    assert CHECK[..0] == [];
    Little16Step(t, 0x0, 0x31, 0x200A, 0x200A);
    NextSnoc(Config(2, 16, false), t, CHECK, 0, 0x31, 0x0, 0x0, 0x200A);
  }

  lemma Crc16CcittCheckPrefix2()
    ensures Next(Config(2, 16, false), LookupTable(0x1021, 16, false), CHECK[..2], 0x0) == 0xBDEB
  {
    Crc16CcittEntry(0x38, 0xBDCB);
    var t := LookupTable(0x1021, 16, false);
    Crc16CcittCheckPrefix1();
    Little16Step(t, 0x200A, 0x32, 0xBDCB, 0xBDEB);
    NextSnoc(Config(2, 16, false), t, CHECK, 1, 0x32, 0x0, 0x200A, 0xBDEB);
  }

  lemma Crc16CcittCheckPrefix3()
    ensures Next(Config(2, 16, false), LookupTable(0x1021, 16, false), CHECK[..3], 0x0) == 0x5A78
  {
    Crc16CcittEntry(0xD8, 0x5AC5);
    var t := LookupTable(0x1021, 16, false);
    Crc16CcittCheckPrefix2();
    Little16Step(t, 0xBDEB, 0x33, 0x5AC5, 0x5A78);
    NextSnoc(Config(2, 16, false), t, CHECK, 2, 0x33, 0x0, 0xBDEB, 0x5A78);
  }

  lemma Crc16CcittCheckPrefix4()
    ensures Next(Config(2, 16, false), LookupTable(0x1021, 16, false), CHECK[..4], 0x0) == 0x8832
  {
    Crc16CcittEntry(0x4C, 0x8868);
    var t := LookupTable(0x1021, 16, false);
    Crc16CcittCheckPrefix3();
    Little16Step(t, 0x5A78, 0x34, 0x8868, 0x8832);
    NextSnoc(Config(2, 16, false), t, CHECK, 3, 0x34, 0x0, 0x5A78, 0x8832);
  }

  lemma Crc16CcittCheckPrefix5()
    ensures Next(Config(2, 16, false), LookupTable(0x1021, 16, false), CHECK[..5], 0x0) == 0x7437
  {
    Crc16CcittEntry(0x7, 0x74BF);
    var t := LookupTable(0x1021, 16, false);
    Crc16CcittCheckPrefix4();
    Little16Step(t, 0x8832, 0x35, 0x74BF, 0x7437);
    NextSnoc(Config(2, 16, false), t, CHECK, 4, 0x35, 0x0, 0x8832, 0x7437);
  }

  lemma Crc16CcittCheckPrefix6()
    ensures Next(Config(2, 16, false), LookupTable(0x1021, 16, false), CHECK[..6], 0x0) == 0x11FD
  {
    Crc16CcittEntry(0x1, 0x1189);
    var t := LookupTable(0x1021, 16, false);
    Crc16CcittCheckPrefix5();
    Little16Step(t, 0x7437, 0x36, 0x1189, 0x11FD);
    NextSnoc(Config(2, 16, false), t, CHECK, 5, 0x36, 0x0, 0x7437, 0x11FD);
  }

  lemma Crc16CcittCheckPrefix7()
    ensures Next(Config(2, 16, false), LookupTable(0x1021, 16, false), CHECK[..7], 0x0) == 0x6947
  {
    Crc16CcittEntry(0xCA, 0x6956);
    var t := LookupTable(0x1021, 16, false);
    Crc16CcittCheckPrefix6();
    Little16Step(t, 0x11FD, 0x37, 0x6956, 0x6947);
    NextSnoc(Config(2, 16, false), t, CHECK, 6, 0x37, 0x0, 0x11FD, 0x6947);
  }

  lemma Crc16CcittCheckPrefix8()
    ensures Next(Config(2, 16, false), LookupTable(0x1021, 16, false), CHECK[..8], 0x0) == 0x8B19
  {
    Crc16CcittEntry(0x7F, 0x8B70);
    var t := LookupTable(0x1021, 16, false);
    Crc16CcittCheckPrefix7();
    Little16Step(t, 0x6947, 0x38, 0x8B70, 0x8B19);
    NextSnoc(Config(2, 16, false), t, CHECK, 7, 0x38, 0x0, 0x6947, 0x8B19);
  }

  lemma Crc16CcittCheckPrefix9()
    ensures Next(Config(2, 16, false), LookupTable(0x1021, 16, false), CHECK[..9], 0x0) == 0x2189
  {
    Crc16CcittEntry(0x20, 0x2102);
    var t := LookupTable(0x1021, 16, false);
    Crc16CcittCheckPrefix8();
    Little16Step(t, 0x8B19, 0x39, 0x2102, 0x2189);
    NextSnoc(Config(2, 16, false), t, CHECK, 8, 0x39, 0x0, 0x8B19, 0x2189);
  }

  /** The digest of CRC16CCITT after `update(b"123456789")`. */
  lemma Crc16CcittCheckDigest(cfg: Config, t: seq<bv32>, value: bv32, consumed: nat)
    requires cfg == Config(2, 16, false) && t == LookupTable(0x1021, 16, false)
    requires value == Updated(cfg, t, CHECK, 0x0) && consumed == |CHECK|
    ensures DigestOf(cfg, t, value, consumed, false, 0x0) == 0x2189
  {
    Crc16CcittCheckPrefix9();
    assert CHECK[..9] == CHECK;
    MaskConstants();
  }

  /** `CRC16CCITT().update(b"123456789").digest()` (crcmanip/tests/test_crc.py:13-26). */
  method Crc16CcittCheck() returns (d: bv32)
    ensures d == 0x2189
  {
    var crc := NewCrc16Ccitt();
    var same := crc.Update(CHECK);
    d := same.Digest();
    Crc16CcittCheckDigest(same.Cfg(), same.lookupTable, same.value, same.consumed);
  }

  // CRC16XMODEM

  /** The entry of the CRC16XMODEM lookup table that byte `x` selects. */
  lemma Crc16XmodemEntry(x: bv32, s: bv32, r: bv32, e: bv32)
    requires x <= 0xFF && s == x << 8 && BigForwardRounds(0x1021, 0x8000, 8, s) == r && e == r & 0xFFFF
    ensures LookupTable(0x1021, 16, true)[Index(x)] == e
  {
    LookupAt(0x1021, 16, true, x);
    MaskConstants();
    SwapIsShiftUp(Config(2, 16, true), x);
  }

  lemma Crc16XmodemCheckPrefix1()
    ensures Next(Config(2, 16, true), LookupTable(0x1021, 16, true), CHECK[..1], 0x0) == 0x2672
  {
    Crc16XmodemEntry(0x31, 0x3100, 0x32_2672, 0x2672);
    var t := LookupTable(0x1021, 16, true);
    assert CHECK[..0] == [];
    Big16Step(t, 0x0, 0x31, 0x2672, 0x2672);
    NextSnoc(Config(2, 16, true), t, CHECK, 0, 0x31, 0x0, 0x0, 0x2672);
  }

  lemma Crc16XmodemCheckPrefix2()
    ensures Next(Config(2, 16, true), LookupTable(0x1021, 16, true), CHECK[..2], 0x0) == 0x20B5
  {
    Crc16XmodemEntry(0x14, 0x1400, 0x15_52B5, 0x52B5);
    var t := LookupTable(0x1021, 16, true);
    Crc16XmodemCheckPrefix1();
    Big16Step(t, 0x2672, 0x32, 0x52B5, 0x20B5);
    NextSnoc(Config(2, 16, true), t, CHECK, 1, 0x32, 0x0, 0x2672, 0x20B5);
  }

  lemma Crc16XmodemCheckPrefix3()
    ensures Next(Config(2, 16, true), LookupTable(0x1021, 16, true), CHECK[..3], 0x0) == 0x9752
  {
    Crc16XmodemEntry(0x13, 0x1300, 0x12_2252, 0x2252);
    var t := LookupTable(0x1021, 16, true);
    Crc16XmodemCheckPrefix2();
    Big16Step(t, 0x20B5, 0x33, 0x2252, 0x9752);
    NextSnoc(Config(2, 16, true), t, CHECK, 2, 0x33, 0x0, 0x20B5, 0x9752);
  }

  lemma Crc16XmodemCheckPrefix4()
    ensures Next(Config(2, 16, true), LookupTable(0x1021, 16, true), CHECK[..4], 0x0) == 0xD789
  {
    Crc16XmodemEntry(0xA3, 0xA300, 0xA9_8589, 0x8589);
    var t := LookupTable(0x1021, 16, true);
    Crc16XmodemCheckPrefix3();
    Big16Step(t, 0x9752, 0x34, 0x8589, 0xD789);
    NextSnoc(Config(2, 16, true), t, CHECK, 3, 0x34, 0x0, 0x9752, 0xD789);
  }

  lemma Crc16XmodemCheckPrefix5()
    ensures Next(Config(2, 16, true), LookupTable(0x1021, 16, true), CHECK[..5], 0x0) == 0x546C
  {
    Crc16XmodemEntry(0xE2, 0xE200, 0xEC_DD6C, 0xDD6C);
    var t := LookupTable(0x1021, 16, true);
    Crc16XmodemCheckPrefix4();
    Big16Step(t, 0xD789, 0x35, 0xDD6C, 0x546C);
    NextSnoc(Config(2, 16, true), t, CHECK, 4, 0x35, 0x0, 0xD789, 0x546C);
  }

  lemma Crc16XmodemCheckPrefix6()
    ensures Next(Config(2, 16, true), LookupTable(0x1021, 16, true), CHECK[..6], 0x0) == 0x20E4
  {
    Crc16XmodemEntry(0x62, 0x6200, 0x64_4CE4, 0x4CE4);
    var t := LookupTable(0x1021, 16, true);
    Crc16XmodemCheckPrefix5();
    Big16Step(t, 0x546C, 0x36, 0x4CE4, 0x20E4);
    NextSnoc(Config(2, 16, true), t, CHECK, 5, 0x36, 0x0, 0x546C, 0x20E4);
  }

  lemma Crc16XmodemCheckPrefix7()
    ensures Next(Config(2, 16, true), LookupTable(0x1021, 16, true), CHECK[..7], 0x0) == 0x86D6
  {
    Crc16XmodemEntry(0x17, 0x1700, 0x16_62D6, 0x62D6);
    var t := LookupTable(0x1021, 16, true);
    Crc16XmodemCheckPrefix6();
    Big16Step(t, 0x20E4, 0x37, 0x62D6, 0x86D6);
    NextSnoc(Config(2, 16, true), t, CHECK, 6, 0x37, 0x0, 0x20E4, 0x86D6);
  }

  lemma Crc16XmodemCheckPrefix8()
    ensures Next(Config(2, 16, true), LookupTable(0x1021, 16, true), CHECK[..8], 0x0) == 0x9015
  {
    Crc16XmodemEntry(0xBE, 0xBE00, 0xB5_4615, 0x4615);
    var t := LookupTable(0x1021, 16, true);
    Crc16XmodemCheckPrefix7();
    Big16Step(t, 0x86D6, 0x38, 0x4615, 0x9015);
    NextSnoc(Config(2, 16, true), t, CHECK, 7, 0x38, 0x0, 0x86D6, 0x9015);
  }

  lemma Crc16XmodemCheckPrefix9()
    ensures Next(Config(2, 16, true), LookupTable(0x1021, 16, true), CHECK[..9], 0x0) == 0x31C3
  {
    Crc16XmodemEntry(0xA9, 0xA900, 0xA3_24C3, 0x24C3);
    var t := LookupTable(0x1021, 16, true);
    Crc16XmodemCheckPrefix8();
    Big16Step(t, 0x9015, 0x39, 0x24C3, 0x31C3);
    NextSnoc(Config(2, 16, true), t, CHECK, 8, 0x39, 0x0, 0x9015, 0x31C3);
  }

  /** The digest of CRC16XMODEM after `update(b"123456789")`. */
  lemma Crc16XmodemCheckDigest(cfg: Config, t: seq<bv32>, value: bv32, consumed: nat)
    requires cfg == Config(2, 16, true) && t == LookupTable(0x1021, 16, true)
    requires value == Updated(cfg, t, CHECK, 0x0) && consumed == |CHECK|
    ensures DigestOf(cfg, t, value, consumed, false, 0x0) == 0x31C3
  {
    Crc16XmodemCheckPrefix9();
    assert CHECK[..9] == CHECK;
    MaskConstants();
  }

  /** `CRC16XMODEM().update(b"123456789").digest()` (crcmanip/tests/test_crc.py:13-26). */
  method Crc16XmodemCheck() returns (d: bv32)
    ensures d == 0x31C3
  {
    var crc := NewCrc16Xmodem();
    var same := crc.Update(CHECK);
    d := same.Digest();
    Crc16XmodemCheckDigest(same.Cfg(), same.lookupTable, same.value, same.consumed);
  }

  // CRC16IBM

  /** The entry of the CRC16IBM lookup table that byte `x` selects. */
  lemma Crc16IbmEntry(x: bv32, e: bv32)
    requires x <= 0xFF && LittleForwardRounds(0xA001, 8, x) == e && e & 0xFFFF == e
    ensures LookupTable(0x8005, 16, false)[Index(x)] == e
  {
    LookupAt(0x8005, 16, false, x);
    MaskConstants();
    Mirror8005();
  }

  lemma Crc16IbmCheckPrefix1()
    ensures Next(Config(2, 16, false), LookupTable(0x8005, 16, false), CHECK[..1], 0x0) == 0xD4C1
  {
    Crc16IbmEntry(0x31, 0xD4C1);
    var t := LookupTable(0x8005, 16, false);
    assert CHECK[..0] == [];
    Little16Step(t, 0x0, 0x31, 0xD4C1, 0xD4C1);
    NextSnoc(Config(2, 16, false), t, CHECK, 0, 0x31, 0x0, 0x0, 0xD4C1);
  }

  lemma Crc16IbmCheckPrefix2()
    ensures Next(Config(2, 16, false), LookupTable(0x8005, 16, false), CHECK[..2], 0x0) == 0x4594
  {
    Crc16IbmEntry(0xF3, 0x4540);
    var t := LookupTable(0x8005, 16, false);
    Crc16IbmCheckPrefix1();
    Little16Step(t, 0xD4C1, 0x32, 0x4540, 0x4594);
    NextSnoc(Config(2, 16, false), t, CHECK, 1, 0x32, 0x0, 0xD4C1, 0x4594);
  }

  lemma Crc16IbmCheckPrefix3()
    ensures Next(Config(2, 16, false), LookupTable(0x8005, 16, false), CHECK[..3], 0x0) == 0xBA04
  {
    Crc16IbmEntry(0xA7, 0xBA41);
    var t := LookupTable(0x8005, 16, false);
    Crc16IbmCheckPrefix2();
    Little16Step(t, 0x4594, 0x33, 0xBA41, 0xBA04);
    NextSnoc(Config(2, 16, false), t, CHECK, 2, 0x33, 0x0, 0x4594, 0xBA04);
  }

  lemma Crc16IbmCheckPrefix4()
    ensures Next(Config(2, 16, false), LookupTable(0x8005, 16, false), CHECK[..4], 0x0) == 0x14BA
  {
    Crc16IbmEntry(0x30, 0x1400);
    var t := LookupTable(0x8005, 16, false);
    Crc16IbmCheckPrefix3();
    Little16Step(t, 0xBA04, 0x34, 0x1400, 0x14BA);
    NextSnoc(Config(2, 16, false), t, CHECK, 3, 0x34, 0x0, 0xBA04, 0x14BA);
  }

  lemma Crc16IbmCheckPrefix5()
    ensures Next(Config(2, 16, false), LookupTable(0x8005, 16, false), CHECK[..5], 0x0) == 0xA455
  {
    Crc16IbmEntry(0x8F, 0xA441);
    var t := LookupTable(0x8005, 16, false);
    Crc16IbmCheckPrefix4();
    Little16Step(t, 0x14BA, 0x35, 0xA441, 0xA455);
    NextSnoc(Config(2, 16, false), t, CHECK, 4, 0x35, 0x0, 0x14BA, 0xA455);
  }

  lemma Crc16IbmCheckPrefix6()
    ensures Next(Config(2, 16, false), LookupTable(0x8005, 16, false), CHECK[..6], 0x0) == 0x29E4
  {
    Crc16IbmEntry(0x63, 0x2940);
    var t := LookupTable(0x8005, 16, false);
    Crc16IbmCheckPrefix5();
    Little16Step(t, 0xA455, 0x36, 0x2940, 0x29E4);
    NextSnoc(Config(2, 16, false), t, CHECK, 5, 0x36, 0x0, 0xA455, 0x29E4);
  }

  lemma Crc16IbmCheckPrefix7()
    ensures Next(Config(2, 16, false), LookupTable(0x8005, 16, false), CHECK[..7], 0x0) == 0x9D68
  {
    Crc16IbmEntry(0xD3, 0x9D41);
    var t := LookupTable(0x8005, 16, false);
    Crc16IbmCheckPrefix6();
    Little16Step(t, 0x29E4, 0x37, 0x9D41, 0x9D68);
    NextSnoc(Config(2, 16, false), t, CHECK, 6, 0x37, 0x0, 0x29E4, 0x9D68);
  }

  lemma Crc16IbmCheckPrefix8()
    ensures Next(Config(2, 16, false), LookupTable(0x8005, 16, false), CHECK[..8], 0x0) == 0x3C9D
  {
    Crc16IbmEntry(0x50, 0x3C00);
    var t := LookupTable(0x8005, 16, false);
    Crc16IbmCheckPrefix7();
    Little16Step(t, 0x9D68, 0x38, 0x3C00, 0x3C9D);
    NextSnoc(Config(2, 16, false), t, CHECK, 7, 0x38, 0x0, 0x9D68, 0x3C9D);
  }

  lemma Crc16IbmCheckPrefix9()
    ensures Next(Config(2, 16, false), LookupTable(0x8005, 16, false), CHECK[..9], 0x0) == 0xBB3D
  {
    Crc16IbmEntry(0xA4, 0xBB01);
    var t := LookupTable(0x8005, 16, false);
    Crc16IbmCheckPrefix8();
    Little16Step(t, 0x3C9D, 0x39, 0xBB01, 0xBB3D);
    NextSnoc(Config(2, 16, false), t, CHECK, 8, 0x39, 0x0, 0x3C9D, 0xBB3D);
  }

  /** The digest of CRC16IBM after `update(b"123456789")`. */
  lemma Crc16IbmCheckDigest(cfg: Config, t: seq<bv32>, value: bv32, consumed: nat)
    requires cfg == Config(2, 16, false) && t == LookupTable(0x8005, 16, false)
    requires value == Updated(cfg, t, CHECK, 0x0) && consumed == |CHECK|
    ensures DigestOf(cfg, t, value, consumed, false, 0x0) == 0xBB3D
  {
    Crc16IbmCheckPrefix9();
    assert CHECK[..9] == CHECK;
    MaskConstants();
  }

  /** `CRC16IBM().update(b"123456789").digest()` (crcmanip/tests/test_crc.py:13-26). */
  method Crc16IbmCheck() returns (d: bv32)
    ensures d == 0xBB3D
  {
    var crc := NewCrc16Ibm();
    var same := crc.Update(CHECK);
    d := same.Digest();
    Crc16IbmCheckDigest(same.Cfg(), same.lookupTable, same.value, same.consumed);
  }

  lemma Crc16IbmHelloPrefix1()
    ensures Next(Config(2, 16, false), LookupTable(0x8005, 16, false), HELLO[..1], 0x0) == 0xEE01
  {
    Crc16IbmEntry(0x68, 0xEE01);
    var t := LookupTable(0x8005, 16, false);
    assert HELLO[..0] == [];
    Little16Step(t, 0x0, 0x68, 0xEE01, 0xEE01);
    NextSnoc(Config(2, 16, false), t, HELLO, 0, 0x68, 0x0, 0x0, 0xEE01);
  }

  lemma Crc16IbmHelloPrefix2()
    ensures Next(Config(2, 16, false), LookupTable(0x8005, 16, false), HELLO[..2], 0x0) == 0xEBEF
  {
    Crc16IbmEntry(0x64, 0xEB01);
    var t := LookupTable(0x8005, 16, false);
    Crc16IbmHelloPrefix1();
    Little16Step(t, 0xEE01, 0x65, 0xEB01, 0xEBEF);
    NextSnoc(Config(2, 16, false), t, HELLO, 1, 0x65, 0x0, 0xEE01, 0xEBEF);
  }

  lemma Crc16IbmHelloPrefix3()
    ensures Next(Config(2, 16, false), LookupTable(0x8005, 16, false), HELLO[..3], 0x0) == 0xA1AA
  {
    Crc16IbmEntry(0x83, 0xA141);
    var t := LookupTable(0x8005, 16, false);
    Crc16IbmHelloPrefix2();
    Little16Step(t, 0xEBEF, 0x6C, 0xA141, 0xA1AA);
    NextSnoc(Config(2, 16, false), t, HELLO, 2, 0x6C, 0x0, 0xEBEF, 0xA1AA);
  }

  lemma Crc16IbmHelloPrefix4()
    ensures Next(Config(2, 16, false), LookupTable(0x8005, 16, false), HELLO[..4], 0x0) == 0x5221
  {
    Crc16IbmEntry(0xC6, 0x5280);
    var t := LookupTable(0x8005, 16, false);
    Crc16IbmHelloPrefix3();
    Little16Step(t, 0xA1AA, 0x6C, 0x5280, 0x5221);
    NextSnoc(Config(2, 16, false), t, HELLO, 3, 0x6C, 0x0, 0xA1AA, 0x5221);
  }

  lemma Crc16IbmHelloPrefix5()
    ensures Next(Config(2, 16, false), LookupTable(0x8005, 16, false), HELLO[..5], 0x0) == 0x34D2
  {
    Crc16IbmEntry(0x4E, 0x3480);
    var t := LookupTable(0x8005, 16, false);
    Crc16IbmHelloPrefix4();
    Little16Step(t, 0x5221, 0x6F, 0x3480, 0x34D2);
    NextSnoc(Config(2, 16, false), t, HELLO, 4, 0x6F, 0x0, 0x5221, 0x34D2);
  }

  lemma Crc16IbmHelloDigest(cfg: Config, t: seq<bv32>, value: bv32, consumed: nat)
    requires cfg == Config(2, 16, false) && t == LookupTable(0x8005, 16, false)
    requires value == Updated(cfg, t, HELLO, 0x0) && consumed == |HELLO|
    ensures DigestOf(cfg, t, value, consumed, false, 0x0) == 0x34D2
  {
    Crc16IbmHelloPrefix5();
    assert HELLO[..5] == HELLO;
    MaskConstants();
  }

  lemma Crc16IbmHelloHex()
    ensures HexFormat(0x34D2, 4) == "34D2"
  {
    assert HexDigits(0x3) == "3";
    HexDigitsSnoc(0x34, "3", '4');
    HexDigitsSnoc(0x34D, "34", 'D');
    HexDigitsSnoc(0x34D2, "34D", '2');
  }

  /** The line `calc -a CRC16IBM` prints for a file holding `hello`
      (crcmanip/tests/test_cli.py:20-27): `consume` over the whole file, then
      `hex_digest` (crcmanip/cli.py:45-49). */
  method Crc16IbmHello() returns (s: string)
    ensures s == "34D2"
  {
    var crc := NewCrc16Ibm();
    var handle := new Algorithm.Handle(HELLO);
    var _ := Algorithm.Consume(crc, handle, None, None, Algorithm.DEFAULT_CHUNK_SIZE);
    Algorithm.ConsumeWholeFile(crc.Cfg(), crc.lookupTable, HELLO, Algorithm.DEFAULT_CHUNK_SIZE, 0x0);
    s := crc.HexDigest();
    Crc16IbmHelloDigest(crc.Cfg(), crc.lookupTable, crc.value, crc.consumed);
    Crc16IbmHelloHex();
  }

}
