# crcmanip core in Dafny

This project models the computing core of crcmanip. crcmanip calculates CRC
checksums of files and can patch a file so that it gets a chosen checksum.
The core has four parts:

- **The native stepping functions** `crc_next` and `crc_prev` (`fastcrc.c`).
  - `crc_next` runs a CRC register forward over a buffer, one table lookup per byte.
  - `crc_prev` runs it backward over the same buffer, last byte first.
  - Both support big-endian (MSB-first) and little-endian (reflected) registers of one to four bytes.
- **The table builders** `compute_lookup_table` and `compute_reverse_lookup_table`, with their bit helpers `get_polynomial_reverse` and `swap_endian` (`crc.py`, `utils.py`).
- **The `BaseCRC` object**, which holds a running register and a byte count (`crc.py`).
  - `update` feeds bytes into the register.
  - `digest` optionally folds in the file size, then applies the final XOR and the width mask.
  - `hex_digest` formats the digest as upper-case hex digits with zero padding.
  - Five subclasses fix the parameters of CRC32, CRC32POSIX, CRC16CCITT, CRC16XMODEM and CRC16IBM.
- **The file driver** `consume` (`algorithm.py`). It normalises a byte range with `fix_start_end_pos`, then reads the range in chunks and feeds each chunk to `update`.

Modules:

| Module | File | Contents |
|---|---|---|
| `Errors` | `errors.dfy` | The two Python exceptions the core can raise, plus `Result` and `Option`. |
| `Bits` | `bits.dfy` | Register masks, bit reversal (`Mirror`) with `get_polynomial_reverse`, and byte reversal (`ByteSwap`) with `swap_endian`. |
| `FastCrc` | `fastcrc.dfy` | `crc_next` and `crc_prev`, their specification as folds over the buffer, the append laws, and the round trip `prev(data, next(data, seed)) == seed` for any consistent pair of tables. |
| `Rounds` | `rounds.dfy` | The single-bit rounds the table builders run, and the proof that eight reverse rounds undo eight forward rounds. |
| `Tables` | `tables.dfy` | The two table builders, as loops proved against entry functions. |
| `Consistency` | `consistency.dfy` | The proof that the tables crc.py builds for an odd polynomial are a consistent pair. Together with `FastCrc` this shows that `crc_prev` undoes `crc_next`. |
| `Crc` | `crc.dfy` | The `BaseCrc` class (`BaseCRC`) and the functions that specify `update`, `digest` and `hex_digest`. |
| `Standard` | `standard.dfy` | The five subclasses, and their check values derived by evaluating the model. |
| `Algorithm` | `algorithm.dfy` | `fix_start_end_pos` and `consume` over a seekable file handle. |

Python integers are unbounded, while the register here is a `bv32`. The model covers widths of at most 32 bits, the widths the `uint32_t` register of `fastcrc.c` can hold. Within them every value the core keeps is masked to `num_bits` bits, so the two agree wherever the source masks. "## Left out" names every member whose Python counterpart also accepts wider widths.

## Model

| member | source | states |
|---|---|---|
| FastCrc.CrcNext | crcmanip/fastcrc.c:32-50 | For a register of one to four whole bytes, the register after the loop is `Next`: one table step per byte in buffer order. Big-endian indexes by the top byte and shifts left; little-endian indexes by the low byte and shifts right. Every step is masked to the register. |
| FastCrc.CrcPrev | crcmanip/fastcrc.c:85-108 | For a register of one to four whole bytes, the register after the loop is `Prev`: one reverse-table step per byte, last byte first, every step masked. |
| FastCrc.Index | crcmanip/fastcrc.c:36-37 | Every table index the stepping functions compute is below 256. |
| FastCrc.NextFits | crcmanip/fastcrc.c:32-50 | On an empty buffer, `crc_next` returns the seed untouched, even when it is wider than the register. On a non-empty buffer, the result fits `num_bits`. |
| FastCrc.PrevFits | crcmanip/fastcrc.c:85-108 | The same two facts for `crc_prev`. |
| FastCrc.NextAppend | crcmanip/fastcrc.c:35-47 | Stepping over `a + b` is stepping over `a`, then over `b` from that register. |
| FastCrc.PrevAppend | crcmanip/fastcrc.c:88-106 | Stepping back over `a + b` is stepping back over `b`, then over `a`. |
| FastCrc.WordMaskValue | crcmanip/fastcrc.c:32 | The register mask for 1, 2, 3 and 4 bytes is 0xFF, 0xFFFF, 0xFFFFFF and 0xFFFFFFFF. At 32 bits the mask is the full word and does not overflow. |
| FastCrc.StepBack | crcmanip/fastcrc.c:88-106 | With a consistent table pair, one reverse step undoes one forward step on any register that fits. |
| FastCrc.EndiannessMatters | crcmanip/fastcrc.c:34-48 | The byte order changes the result. With the same table, the same all-ones seed and the byte 0, the big-endian and little-endian loops end in different registers. |
| FastCrc.RoundTrip | crcmanip/fastcrc.c:34-48 | With a consistent table pair, `crc_prev(data, crc_next(data, seed)) == seed` for every buffer and every seed that fits the register. |
| Bits.GetPolynomialReverse | crcmanip/utils.py:1-7 | For widths up to 32 bits, the loop returns `Mirror(polynomial, num_bits)`: the low `num_bits` bits of the polynomial in reverse order. |
| Bits.MirrorFits | crcmanip/utils.py:1-7 | The reversed polynomial fits `num_bits` bits. |
| Bits.MirrorBitIn | crcmanip/utils.py:3-6 | Bit `i` of the result is bit `num_bits - 1 - i` of the polynomial. |
| Bits.MirrorBitOut | crcmanip/utils.py:1-7 | No bit at or above `num_bits` is set. |
| Bits.MirrorLowBitsOnly | crcmanip/utils.py:3-6 | Polynomial bits at or above `num_bits` do not affect the result. |
| Bits.MirrorInvolution | crcmanip/utils.py:1-7 | Reversing a polynomial that fits `num_bits` twice gives it back. |
| Bits.MirrorTop | crcmanip/utils.py:1-7 | The reversed form of an odd polynomial has its top bit, bit `num_bits - 1`, set. |
| Bits.SwapEndian | crcmanip/utils.py:10-18 | For widths up to 32 bits: fails with an assertion error exactly when `num_bits` is not a multiple of 8. Otherwise it returns `ByteSwap` over `num_bits / 8` bytes. |
| Bits.ByteSwapReverses | crcmanip/utils.py:13-18 | Byte `i` of the result is byte `k - 1 - i` of the input. |
| Bits.ByteSwapFits | crcmanip/utils.py:13-18 | The result fits `8 * k` bits. |
| Bits.ByteSwapInvolution | crcmanip/utils.py:10-18 | Swapping a value of `k` bytes twice over `k` bytes gives it back. |
| Bits.SwapByte | crcmanip/utils.py:14-17 | Swapping a single byte over `k` bytes moves it to the top byte: it is shifted left by `8 * (k - 1)`. |
| Bits.LowBits | crcmanip/crc.py:97-99 | `(1 << num_bits) - 1` is the mask of the low `num_bits` bits, including at 32 bits. |
| Rounds.LittleRoundsUndo | crcmanip/crc.py:24-28 | For an odd polynomial (its reversed form has the top bit set), little-endian reverse rounds undo as many forward rounds on any value inside the register. |
| Rounds.BigRoundsUndo | crcmanip/crc.py:19-22 | Big-endian reverse rounds undo as many masked forward rounds when the polynomial is odd and fits the register. |
| Rounds.LittleRoundsLinear | crcmanip/crc.py:53-57 | Little-endian reverse rounds distribute over exclusive or. |
| Rounds.BigRoundsLinear | crcmanip/crc.py:46-51 | Big-endian reverse rounds distribute over exclusive or. |
| Tables.LookupTable | crcmanip/crc.py:7-31 | The lookup table has exactly 256 entries. |
| Tables.ReverseTable | crcmanip/crc.py:34-62 | The reverse table has exactly 256 entries. |
| Tables.ForwardRounds | crcmanip/crc.py:18-28 | The eight-pass inner loop computes eight forward rounds of the byte order's shape. |
| Tables.ReverseRounds | crcmanip/crc.py:45-57 | The eight-pass inner loop computes eight reverse rounds. |
| Tables.ForwardEntry | crcmanip/crc.py:14-29 | One outer pass yields entry `num` of the lookup table. It fails with an assertion error exactly when the order is big-endian and the width is not whole bytes. |
| Tables.ReverseEntryOf | crcmanip/crc.py:41-60 | One outer pass yields entry `num` of the reverse table. It fails with an assertion error exactly when the width is not whole bytes, in either byte order. |
| Tables.ComputeLookupTable | crcmanip/crc.py:7-31 | A width of zero or less raises `ValueError`, because the shift count is negative. A big-endian width that is not whole bytes raises an assertion error. Any other width up to 32 bits returns the 256-entry lookup table. |
| Tables.ComputeReverseLookupTable | crcmanip/crc.py:34-62 | A width of zero or less raises `ValueError`. Any other width that is not whole bytes raises an assertion error. Whole-byte widths up to 32 bits return the 256-entry reverse table. |
| Consistency.SwapIsShiftUp | crcmanip/crc.py:16-17 | For a byte, `swap_endian(num, num_bits)` is the byte shifted up to the top of the register. |
| Consistency.LookupTableFits | crcmanip/crc.py:29 | Every lookup entry fits the register. |
| Consistency.ReverseTableFits | crcmanip/crc.py:60 | Every reverse entry fits the register. |
| Consistency.LittleTablesConsistent | crcmanip/crc.py:15-60 | For an odd polynomial, the little-endian tables satisfy the relation `crc_prev` needs. |
| Consistency.BigTablesConsistent | crcmanip/crc.py:15-60 | For an odd polynomial that fits the register, the big-endian tables satisfy that relation. |
| Consistency.TablesConsistent | crcmanip/crc.py:7-62 | The two tables crc.py builds are a consistent pair, for every width of one to four bytes, in both byte orders. |
| Consistency.BuiltRoundTrip | crcmanip/crc.py:7-62 | With the tables crc.py builds, `crc_prev` undoes `crc_next` on every buffer and on every seed that fits the register. |
| Crc.BaseCrc.Create | crcmanip/crc.py:66-94 | A width that is not whole bytes fails the assertion. A width of zero or less raises `ValueError` from the table builder. Otherwise it returns a fresh valid object: both tables built, register set to `initial_xor`, count zero. |
| Crc.BaseCrc.Init | crcmanip/crc.py:75-94 | Stores the parameters and both tables, starts the register at `initial_xor` and the count at zero. |
| Crc.BaseCrc.Update | crcmanip/crc.py:96-101 | The register becomes `Updated`, the masked `crc_next` over the source. The count grows by the source length. The method returns the object itself. |
| Crc.Updated | crcmanip/crc.py:96-99 | The register after `update` always fits `num_bits`, even on empty input. |
| Crc.UpdateChunks | crcmanip/crc.py:96-101 | Two updates equal one update over the concatenation. |
| Crc.EmptyUpdate | crcmanip/crc.py:96-99 | An empty update only masks the register. It leaves the register unchanged exactly when the register already fits. |
| Crc.UpdatedFits | crcmanip/crc.py:96-99 | On a register that fits, the mask after `crc_next` changes nothing. |
| Crc.UpdateUndone | crcmanip/crc.py:96-101 | `crc_prev` with the reverse table takes the register `update` leaves back to the register before it. This holds for any odd polynomial, and a big-endian polynomial must also fit the register. |
| Crc.BaseCrc.Digest | crcmanip/crc.py:103-116 | Returns `DigestOf` of the current state and changes nothing. The result fits the register. |
| Crc.SizePatch | crcmanip/crc.py:106-111 | The loop produces the little-endian bytes of the count, with no trailing zero byte. |
| Crc.SizeBytesValue | crcmanip/crc.py:107-111 | The size patch read back as a little-endian number is the count. |
| Crc.SizeBytesMinimal | crcmanip/crc.py:107-111 | The size patch is empty exactly when the count is zero. Otherwise its last byte is non-zero. |
| Crc.DigestFoldsSize | crcmanip/crc.py:106-116 | With `use_file_size`, the digest equals the plain digest of the register after feeding the size patch. |
| Crc.DigestNothingConsumed | crcmanip/crc.py:106-112 | When nothing was consumed, `use_file_size` does not change the digest. |
| Crc.DigestFits | crcmanip/crc.py:114-115 | The digest fits `num_bits`. |
| Crc.BaseCrc.HexDigest | crcmanip/crc.py:118-119 | Returns exactly `2 * num_bytes` upper-case hex digits whose value is the digest. |
| Crc.HexFormatProps | crcmanip/crc.py:119 | Zero-padded `%X` formatting to width `w` of a value below `16^w` has length `w` and only hex digits, and parses back to the value. |
| Crc.HexDigitsProps | crcmanip/crc.py:119 | Unpadded `%X` of a value below `16^k` has one to `k` hex digits and parses back to the value. |
| Crc.RegisterBelow | crcmanip/crc.py:119 | A value that fits the register is below `16^(2 * num_bytes)`, so the padded width is never exceeded. |
| Standard.NewCrc32 | crcmanip/crc.py:125-132 | CRC32: 32 bits, polynomial 0x04C11DB7, little-endian, initial and final XOR 0xFFFFFFFF, no size patch. |
| Standard.NewCrc32Posix | crcmanip/crc.py:135-143 | CRC32POSIX: 32 bits, 0x04C11DB7, big-endian, initial XOR 0, final XOR 0xFFFFFFFF, with the size patch. |
| Standard.NewCrc16Ccitt | crcmanip/crc.py:146-148 | CRC16CCITT: 16 bits, 0x1021, little-endian, both XORs 0. |
| Standard.NewCrc16Xmodem | crcmanip/crc.py:151-153 | CRC16XMODEM: 16 bits, 0x1021, big-endian, both XORs 0. |
| Standard.NewCrc16Ibm | crcmanip/crc.py:156-158 | CRC16IBM: 16 bits, 0x8005, little-endian, both XORs 0. |
| Standard.StandardUndo | crcmanip/crc.py:125-158 | For every subclass, `crc_prev` with the reverse table undoes `update`. |
| Standard.Crc32Check | crcmanip/tests/test_crc.py:16 | `CRC32().update(b"123456789").digest()` is 0xCBF43926. |
| Standard.Crc32PosixCheck | crcmanip/tests/test_crc.py:17 | `CRC32POSIX().update(b"123456789").digest()` is 0x377A6011, size patch included. |
| Standard.Crc16CcittCheck | crcmanip/tests/test_crc.py:18 | `CRC16CCITT().update(b"123456789").digest()` is 0x2189. |
| Standard.Crc16XmodemCheck | crcmanip/tests/test_crc.py:19 | `CRC16XMODEM().update(b"123456789").digest()` is 0x31C3. |
| Standard.Crc16IbmCheck | crcmanip/tests/test_crc.py:20 | `CRC16IBM().update(b"123456789").digest()` is 0xBB3D. |
| Standard.Crc32Hello | crcmanip/tests/test_cli.py:10-17 | The `calc` path over a file holding `hello` gives `3610A686`. That path is `consume` with default bounds and chunk size, then `hex_digest` on CRC32. `Algorithm.ConsumeWholeFile` reduces `consume` to one `update`. |
| Standard.Crc16IbmHello | crcmanip/tests/test_cli.py:20-27 | The same `calc` path with CRC16IBM gives `34D2`. |
| Standard.Crc32OrderMatters | crcmanip/fastcrc.c:41-48 | The byte order within the buffer matters. CRC32 over `01 02` and over `02 01`, from the same register, ends in different registers (0x4933BD6D and 0xFB17BF14). |
| Algorithm.ReadAt | crcmanip/algorithm.py:43 | `read(n)` returns a contiguous run of the file at the cursor. Before the end of the file it is exactly `min(n, remaining)` bytes when `n >= 0`, and everything to the end of the file when `n < 0`. It is empty exactly at or past the end of the file, or when `n == 0`. |
| Algorithm.Handle.Read | crcmanip/algorithm.py:43 | Returns those bytes and moves the cursor past them. |
| Algorithm.Bounds | crcmanip/algorithm.py:9-25 | A missing start is 0 and a missing end is the file size. The pair is put in order. The call fails with an assertion error exactly when either bound is negative. |
| Algorithm.FixStartEndPos | crcmanip/algorithm.py:9-25 | Returns `Bounds` for the file's size and leaves the cursor where it was. |
| Algorithm.Consume | crcmanip/algorithm.py:28-46 | Bad bounds fail and leave the register, count and cursor alone. Otherwise the register is fed the chunks the loop reads, in order. The count grows by their total length. The cursor ends after the last chunk, or stays put for an empty range. |
| Algorithm.ChunksCoverSlice | crcmanip/algorithm.py:38-46 | For a positive chunk size, the chunks concatenate to exactly the bytes of the range, cut at the end of the file. No chunk crosses the end of the range. |
| Algorithm.ChunksShrink | crcmanip/algorithm.py:42-43 | For a positive chunk size, every chunk is non-empty and no longer than the starting chunk size. Every chunk is no longer than the one before it, because `chunk_size` only shrinks. |
| Algorithm.FeedIsUpdate | crcmanip/algorithm.py:44-46 | Feeding non-empty chunks one by one equals one `update` over their concatenation. |
| Algorithm.ConsumeIsOneUpdate | crcmanip/algorithm.py:35-46 | For any positive chunk size, `consume` leaves the register where one `update` of the range would. An empty range leaves it untouched. |
| Algorithm.ConsumeWholeFile | crcmanip/algorithm.py:9-46 | With both bounds left out, the range is the whole file. For any positive chunk size, the chunks feed the register exactly one `update` over the file and count every byte. An empty file leaves the register untouched. |
| Algorithm.ChunksOfZero | crcmanip/algorithm.py:42-45 | A chunk size of zero reads nothing: the first `read(0)` is empty and ends the loop. |
| Algorithm.ChunksOfNegative | crcmanip/algorithm.py:42-45 | A negative chunk size reads the rest of the file in one chunk, even past `end_pos`. |

## Left out

- The CPython extension glue in `fastcrc.c`: argument parsing, reading the object's attributes, and building the result object. The model takes the register, the tables and the configuration as plain parameters.
- Tables.ComputeLookupTable, Tables.ComputeReverseLookupTable, Bits.GetPolynomialReverse, Bits.SwapEndian: widths above 32 bits are outside the model. These members require `num_bits <= 32`, because they compute in 32-bit words.
  - The Python functions accept any width and return wider values, for example a 40-bit table for `num_bits = 40`, or `1 << 32` for `swap_endian(1, 40)`.
  - `fastcrc.c` keeps the register and every table entry in a `uint32_t` (lines 7, 23 and 29), so a CRC wider than 32 bits cannot be stepped there in any case.
- Crc.BaseCrc.Create: requires `num_bits <= 32`, for the same reason.
- Crc.BaseCrc.Create: takes the polynomial, `initial_xor` and `final_xor` as 32-bit words.
  - The Python builders work on unbounded integers, and their intermediate values can carry bits above 32 before the final mask.
  - The model keeps those intermediates in 32 bits.
  - Every table entry the source keeps is masked to `num_bits <= 32`, so the two agree.
- Crc.UpdateChunks: requires a non-empty first chunk or a register that fits. An unmasked `initial_xor` that is wider than the register is only masked by the first update, even an empty one.
- Consistency.TablesConsistent: requires an odd polynomial, and for big-endian a polynomial that fits the register.
  - The model proves the round trip only under these conditions. Every polynomial the five subclasses use meets them.
  - The same conditions carry over to `BuiltRoundTrip`, `UpdateUndone` and `StandardUndo`.
- The file handle is a byte sequence plus a cursor. Real I/O, short reads before the end of the file, and writes are not modelled.
- The tests also use `update_reverse`, `consume_reverse`, `compute_patch`, `apply_patch`, `compute_checksum` and `InvalidPositionError`. None of these is defined in `crc.py`, `algorithm.py` or `utils.py`, so they are not part of this model, and neither are the reverse-update check values of `test_crc.py`.
- `cli.py`, `__main__.py`, `build.py` and `setup.py` (argument handling, output and packaging) are not part of this model.
