/** The lookup tables of crcmanip/crc.py:7-62 and why they make `CrcPrev`
    undo `CrcNext`.

    `compute_lookup_table` runs every byte value through eight forward
    rounds; `compute_reverse_lookup_table` runs it through eight reverse
    rounds. The entry functions below say what one entry is, the two
    methods build the tables with the nested loops of crc.py, and
    `TablesConsistent` proves that the pair is what `FastCrc.RoundTrip`
    asks of a table pair, for every odd polynomial and every register of one
    to four bytes. */
module Tables {
  import opened Errors
  import opened Bits
  import opened Rounds
  import opened FastCrc

  /** Entry `num` of `compute_lookup_table` (crcmanip/crc.py:15-29). */
  function LookupEntry(polynomial: bv32, numBits: nat, bigEndian: bool, num: bv32): bv32
  {
    if bigEndian then
      Within(Mask(numBits), BigForwardRounds(polynomial, Top(numBits), 8, ByteSwap(num, numBits / 8)))
    else
      Within(Mask(numBits), LittleForwardRounds(Mirror(polynomial, numBits), 8, num))
  }

  /** Entry `num` of `compute_reverse_lookup_table` (crcmanip/crc.py:42-60). */
  function ReverseEntry(polynomial: bv32, numBits: nat, bigEndian: bool, num: bv32): bv32
  {
    if bigEndian then
      Within(Mask(numBits), Xor(BigReverseRounds(polynomial, Top(numBits), 8, num), ByteSwap(num, numBits / 8)))
    else
      Within(Mask(numBits), LittleReverseRounds(Mirror(polynomial, numBits), Top(numBits), 8, ByteSwap(num, numBits / 8)))
  }

  function LookupTable(polynomial: bv32, numBits: nat, bigEndian: bool): (table: seq<bv32>)
    ensures |table| == 256
  {
    seq(256, i requires 0 <= i < 256 => LookupEntry(polynomial, numBits, bigEndian, i as bv32))
  }

  function ReverseTable(polynomial: bv32, numBits: nat, bigEndian: bool): (table: seq<bv32>)
    ensures |table| == 256
  {
    seq(256, i requires 0 <= i < 256 => ReverseEntry(polynomial, numBits, bigEndian, i as bv32))
  }

  lemma LookupEntryIs(polynomial: bv32, numBits: nat, bigEndian: bool, num: bv32, q: bv32, top: bv32,
                      start: bv32, value: bv32, entry: bv32)
    requires q == Mirror(polynomial, numBits) && top == Top(numBits) && entry == value & Mask(numBits)
    requires bigEndian ==> start == ByteSwap(num, numBits / 8) && value == BigForwardRounds(polynomial, top, 8, start)
    requires !bigEndian ==> start == num && value == LittleForwardRounds(q, 8, start)
    ensures LookupEntry(polynomial, numBits, bigEndian, num) == entry
  {
  }

  lemma ReverseEntryIs(polynomial: bv32, numBits: nat, bigEndian: bool, num: bv32, q: bv32, top: bv32,
                       start: bv32, rounds: bv32, swap: bv32, value: bv32, entry: bv32)
    requires q == Mirror(polynomial, numBits) && top == Top(numBits) && entry == value & Mask(numBits)
    requires bigEndian ==> start == num && rounds == BigReverseRounds(polynomial, top, 8, start)
                           && swap == ByteSwap(num, numBits / 8) && value == Xor(rounds, swap)
    requires !bigEndian ==> start == ByteSwap(num, numBits / 8) && value == rounds
                            && rounds == LittleReverseRounds(q, top, 8, start)
    ensures ReverseEntry(polynomial, numBits, bigEndian, num) == entry
  {
  }

  /** The inner loop of `compute_lookup_table` (crcmanip/crc.py:20-28):
      eight forward rounds, one conditional expression each. */
  method ForwardRounds(polynomial: bv32, polynomialReverse: bv32, mask: bv32, bigEndian: bool, start: bv32)
    returns (value: bv32)
    ensures bigEndian ==> value == BigForwardRounds(polynomial, mask, 8, start)
    ensures !bigEndian ==> value == LittleForwardRounds(polynomialReverse, 8, start)
  {
    value := start;
    for bit := 0 to 8
      invariant bigEndian ==> value == BigForwardRounds(polynomial, mask, bit, start)
      invariant !bigEndian ==> value == LittleForwardRounds(polynomialReverse, bit, start)
    {
      if bigEndian {
        value := BigForward(polynomial, mask, value);
      } else {
        value := LittleForward(polynomialReverse, value);
      }
    }
  }

  /** The inner loop of `compute_reverse_lookup_table` (crcmanip/crc.py:47-55):
      eight reverse rounds. */
  method ReverseRounds(polynomial: bv32, polynomialReverse: bv32, mask: bv32, bigEndian: bool, start: bv32)
    returns (value: bv32)
    ensures bigEndian ==> value == BigReverseRounds(polynomial, mask, 8, start)
    ensures !bigEndian ==> value == LittleReverseRounds(polynomialReverse, mask, 8, start)
  {
    value := start;
    for bit := 0 to 8
      invariant bigEndian ==> value == BigReverseRounds(polynomial, mask, bit, start)
      invariant !bigEndian ==> value == LittleReverseRounds(polynomialReverse, mask, bit, start)
    {
      if bigEndian {
        value := BigReverse(polynomial, mask, value);
      } else {
        value := LittleReverse(polynomialReverse, mask, value);
      }
    }
  }

  /** One pass of the outer loop of `compute_lookup_table`
      (crcmanip/crc.py:16-29): entry `num`, or the failure of `swap_endian`. */
  method ForwardEntry(polynomial: bv32, polynomialReverse: bv32, mask: bv32, numBits: nat, bigEndian: bool, num: bv32)
    returns (r: Result<bv32>)
    requires 0 < numBits <= 32
    requires polynomialReverse == Mirror(polynomial, numBits) && mask == Top(numBits)
    ensures r.Err? <==> bigEndian && numBits % 8 != 0
    ensures r.Err? ==> r.error == AssertionError
    ensures r.Ok? ==> r.value == LookupEntry(polynomial, numBits, bigEndian, num)
  {
    var value := num;
    if bigEndian {
      var swapped := SwapEndian(value, numBits);
      if swapped.Err? {
        return Err(AssertionError);
      }
      value := swapped.value;
    }
    ghost var start := value;
    value := ForwardRounds(polynomial, polynomialReverse, mask, bigEndian, value);
    MaskShift(numBits);
    var entry := value & ((1 << numBits) - 1);
    LookupEntryIs(polynomial, numBits, bigEndian, num, polynomialReverse, mask, start, value, entry);
    return Ok(entry);
  }

  /** `compute_lookup_table` (crcmanip/crc.py:7-31). A width of zero or less
      fails on the negative shift count of `1 << (num_bits - 1)`; a
      big-endian width that is not whole bytes fails in `swap_endian`. */
  method ComputeLookupTable(polynomial: bv32, numBits: int, bigEndian: bool) returns (r: Result<seq<bv32>>)
    requires numBits <= 32
    ensures numBits <= 0 ==> r == Err(ValueError)
    ensures 0 < numBits && bigEndian && numBits % 8 != 0 ==> r == Err(AssertionError)
    ensures 0 < numBits && (!bigEndian || numBits % 8 == 0) ==> r == Ok(LookupTable(polynomial, numBits, bigEndian))
  {
    var polynomialReverse := GetPolynomialReverse(polynomial, if numBits < 0 then 0 else numBits);
    if numBits <= 0 {
      return Err(ValueError);
    }
    var mask: bv32 := 1 << (numBits - 1);
    TopShift(numBits);
    var table: seq<bv32> := seq(256, _ => 0);
    for num := 0 to 256
      invariant |table| == 256
      invariant forall i | 0 <= i < num :: table[i] == LookupEntry(polynomial, numBits, bigEndian, i as bv32)
      invariant 0 < num && bigEndian ==> numBits % 8 == 0
    {
      var entry := ForwardEntry(polynomial, polynomialReverse, mask, numBits, bigEndian, num as bv32);
      if entry.Err? {
        return Err(entry.error);
      }
      table := table[num := entry.value];
    }
    assert table == LookupTable(polynomial, numBits, bigEndian);
    return Ok(table);
  }

  /** One pass of the outer loop of `compute_reverse_lookup_table`
      (crcmanip/crc.py:43-60): entry `num`, or the failure of `swap_endian`. */
  method ReverseEntryOf(polynomial: bv32, polynomialReverse: bv32, mask: bv32, numBits: nat, bigEndian: bool, num: bv32)
    returns (r: Result<bv32>)
    requires 0 < numBits <= 32
    requires polynomialReverse == Mirror(polynomial, numBits) && mask == Top(numBits)
    ensures r.Err? <==> numBits % 8 != 0
    ensures r.Err? ==> r.error == AssertionError
    ensures r.Ok? ==> r.value == ReverseEntry(polynomial, numBits, bigEndian, num)
  {
    var value := num;
    if !bigEndian {
      var swapped := SwapEndian(value, numBits);
      if swapped.Err? {
        return Err(AssertionError);
      }
      value := swapped.value;
    }
    ghost var start := value;
    value := ReverseRounds(polynomial, polynomialReverse, mask, bigEndian, value);
    ghost var rounds := value;
    ghost var swap := 0;
    if bigEndian {
      var swapped := SwapEndian(num, numBits);
      if swapped.Err? {
        return Err(AssertionError);
      }
      swap := swapped.value;
      value := Xor(value, swapped.value);
    }
    MaskShift(numBits);
    var entry := value & ((1 << numBits) - 1);
    ReverseEntryIs(polynomial, numBits, bigEndian, num, polynomialReverse, mask, start, rounds, swap, value, entry);
    return Ok(entry);
  }

  /** `compute_reverse_lookup_table` (crcmanip/crc.py:34-62). Both byte
      orders call `swap_endian`, so every width that is not whole bytes
      fails. */
  method ComputeReverseLookupTable(polynomial: bv32, numBits: int, bigEndian: bool) returns (r: Result<seq<bv32>>)
    requires numBits <= 32
    ensures numBits <= 0 ==> r == Err(ValueError)
    ensures 0 < numBits && numBits % 8 != 0 ==> r == Err(AssertionError)
    ensures 0 < numBits && numBits % 8 == 0 ==> r == Ok(ReverseTable(polynomial, numBits, bigEndian))
  {
    var polynomialReverse := GetPolynomialReverse(polynomial, if numBits < 0 then 0 else numBits);
    if numBits <= 0 {
      return Err(ValueError);
    }
    var mask: bv32 := 1 << (numBits - 1);
    TopShift(numBits);
    var table: seq<bv32> := seq(256, _ => 0);
    for num := 0 to 256
      invariant |table| == 256
      invariant forall i | 0 <= i < num :: table[i] == ReverseEntry(polynomial, numBits, bigEndian, i as bv32)
      invariant 0 < num ==> numBits % 8 == 0
    {
      var entry := ReverseEntryOf(polynomial, polynomialReverse, mask, numBits, bigEndian, num as bv32);
      if entry.Err? {
        return Err(entry.error);
      }
      table := table[num := entry.value];
    }
    assert table == ReverseTable(polynomial, numBits, bigEndian);
    return Ok(table);
  }
}
