/** Range normalisation and chunked consumption (crcmanip/algorithm.py).

    The file handle is a byte sequence with a cursor: `tell`, `seek` and
    `read` are the three operations the module uses. `consume` reads the
    selected range in chunks and feeds each chunk to `BaseCrc.Update`;
    `Chunks` lists the chunks it reads, and the lemmas below show that for
    any positive chunk size they are the selected bytes, in order, and that
    feeding them one by one leaves the register one `update` over the whole
    range would leave. */
module Algorithm {
  import opened Errors
  import opened FastCrc
  import opened Crc

  /** `DEFAULT_CHUNK_SIZE` (crcmanip/algorithm.py:6). */
  const DEFAULT_CHUNK_SIZE: int := 1024 * 1024

  // ---------------------------------------------------------------------------
  // The file handle

  /** What `read(n)` returns at position `pos`: up to `n` bytes, everything
      up to the end of the file when `n` is negative, nothing at or beyond
      the end of the file. */
  function ReadAt(data: seq<bv8>, pos: nat, n: int): (chunk: seq<bv8>)
    ensures |chunk| > 0 ==> pos + |chunk| <= |data| && chunk == data[pos..pos + |chunk|]
    ensures n >= 0 ==> |chunk| <= n
    ensures |chunk| == 0 <==> pos >= |data| || n == 0
    ensures pos < |data| && n < 0 ==> chunk == data[pos..]
    ensures pos < |data| && 0 <= n ==> |chunk| == Min(n, |data| - pos)
  {
    if pos >= |data| then []
    else if n < 0 then data[pos..]
    else if pos + n <= |data| then data[pos..pos + n]
    else data[pos..]
  }

  /** A seekable binary file: its bytes and the position of the cursor. */
  class Handle {
    const data: seq<bv8>
    var pos: nat

    constructor (data: seq<bv8>)
      ensures this.data == data && pos == 0
    {
      this.data := data;
      pos := 0;
    }

    /** `tell()`. */
    method Tell() returns (p: nat)
      ensures p == pos
    {
      p := pos;
    }

    /** `seek(offset, io.SEEK_SET)`; the cursor may go past the end. */
    method SeekSet(offset: nat)
      modifies this
      ensures pos == offset
    {
      pos := offset;
    }

    /** `seek(0, io.SEEK_END)`. */
    method SeekEnd()
      modifies this
      ensures pos == |data|
    {
      pos := |data|;
    }

    /** `read(n)`: the bytes `ReadAt` gives; the cursor moves past them. */
    method Read(n: int) returns (chunk: seq<bv8>)
      modifies this
      ensures chunk == ReadAt(data, old(pos), n)
      ensures pos == old(pos) + |chunk|
    {
      chunk := ReadAt(data, pos, n);
      pos := pos + |chunk|;
    }
  }

  // ---------------------------------------------------------------------------
  // fix_start_end_pos

  /** The range `fix_start_end_pos` settles on for a file of `size` bytes:
      a missing start is 0, a missing end is the size, the bounds are put
      in order, and a negative bound fails the assertion. */
  function Bounds(start: Option<int>, end: Option<int>, size: nat): (r: Result<(int, int)>)
    ensures var s := if start.None? then 0 else start.value;
            var e := if end.None? then size else end.value;
            (r.Ok? <==> s >= 0 && e >= 0)
            && (r.Ok? ==> r.value.0 <= r.value.1 && {r.value.0, r.value.1} == {s, e})
            && (r.Err? ==> r.error == AssertionError)
  {
    var s := if start.None? then 0 else start.value;
    var e := if end.None? then size else end.value;
    var (lo, hi) := if s > e then (e, s) else (s, e);
    if lo < 0 then Err(AssertionError) else Ok((lo, hi))
  }

  /** `fix_start_end_pos` (crcmanip/algorithm.py:9-25). Looking up the size
      moves the cursor, which is put back. After the swap the start is the
      smaller bound, so only the first of the three assertions can fail. */
  method FixStartEndPos(start: Option<int>, end: Option<int>, handle: Handle) returns (r: Result<(int, int)>)
    modifies handle
    ensures r == Bounds(start, end, |handle.data|)
    ensures handle.pos == old(handle.pos)
  {
    var startPos := if start.None? then 0 else start.value;
    var endPos: int;
    if end.None? {
      var oldPos := handle.Tell();
      handle.SeekEnd();
      endPos := handle.Tell();
      handle.SeekSet(oldPos);
    } else {
      endPos := end.value;
    }
    if startPos > endPos {
      endPos, startPos := startPos, endPos;
    }
    if startPos < 0 {
      return Err(AssertionError);
    }
    assert endPos >= 0;
    assert startPos <= endPos;
    return Ok((startPos, endPos));
  }

  // ---------------------------------------------------------------------------
  // consume

  function Min(a: int, b: int): int
  {
    if a <= b then a else b
  }

  /** The chunks the loop of `consume` reads from position `pos` when the
      range ends at `end` and the last chunk size was `size`. */
  function Chunks(data: seq<bv8>, pos: nat, end: int, size: int): seq<seq<bv8>>
    decreases if pos <= |data| then |data| - pos else 0
  {
    if pos >= end then []
    else
      var next := Min(size, end - pos);
      var chunk := ReadAt(data, pos, next);
      if |chunk| == 0 then [] else [chunk] + Chunks(data, pos + |chunk|, end, next)
  }

  /** The bytes of a list of chunks, in order. */
  function Flatten(chunks: seq<seq<bv8>>): seq<bv8>
  {
    if |chunks| == 0 then [] else chunks[0] + Flatten(chunks[1..])
  }

  /** The register after `update` has been called on each chunk in turn. */
  function Feed(cfg: Config, table: seq<bv32>, chunks: seq<seq<bv8>>, value: bv32): bv32
    requires |table| == 256
  {
    if |chunks| == 0 then value else Feed(cfg, table, chunks[1..], Updated(cfg, table, chunks[0], value))
  }

  /** The bytes of the file between `start` and `end`, cut at its end. */
  function Slice(data: seq<bv8>, start: nat, end: int): seq<bv8>
  {
    if start >= |data| || end <= start then []
    else if end <= |data| then data[start..end]
    else data[start..]
  }

  lemma FlattenCons(chunk: seq<bv8>, rest: seq<seq<bv8>>)
    ensures Flatten([chunk] + rest) == chunk + Flatten(rest)
  {
    assert ([chunk] + rest)[1..] == rest;
  }

  /** For a positive chunk size, the chunks are the range of the file,
      whatever the size. */
  lemma {:induction false} ChunksCoverSlice(data: seq<bv8>, pos: nat, end: int, size: int)
    requires size > 0
    ensures Flatten(Chunks(data, pos, end, size)) == Slice(data, pos, end)
    decreases if pos <= |data| then |data| - pos else 0
  {
    if pos < end {
      var next := Min(size, end - pos);
      var chunk := ReadAt(data, pos, next);
      if |chunk| > 0 {
        assert Chunks(data, pos, end, size) == [chunk] + Chunks(data, pos + |chunk|, end, next);
        ChunksCoverSlice(data, pos + |chunk|, end, next);
        FlattenCons(chunk, Chunks(data, pos + |chunk|, end, next));
        SliceCons(data, pos, end, next, chunk);
      }
    }
  }

  /** A chunk read inside the range is the head of the range's bytes. */
  lemma SliceCons(data: seq<bv8>, pos: nat, end: int, n: int, chunk: seq<bv8>)
    requires pos < end && 0 < n <= end - pos
    requires chunk == ReadAt(data, pos, n) && |chunk| > 0
    ensures Slice(data, pos, end) == chunk + Slice(data, pos + |chunk|, end)
  {
  }

  /** Every chunk is non-empty and no longer than the chunk before it, nor
      than the size the loop started with. */
  lemma {:induction false} ChunksShrink(data: seq<bv8>, pos: nat, end: int, size: int)
    requires size > 0
    ensures forall i | 0 <= i < |Chunks(data, pos, end, size)| ::
              0 < |Chunks(data, pos, end, size)[i]| <= size
    ensures forall i | 0 < i < |Chunks(data, pos, end, size)| ::
              |Chunks(data, pos, end, size)[i]| <= |Chunks(data, pos, end, size)[i - 1]|
    decreases if pos <= |data| then |data| - pos else 0
  {
    var chunks := Chunks(data, pos, end, size);
    if pos < end {
      var next := Min(size, end - pos);
      var chunk := ReadAt(data, pos, next);
      if |chunk| > 0 {
        var rest := Chunks(data, pos + |chunk|, end, next);
        ChunksShrink(data, pos + |chunk|, end, next);
        assert chunks == [chunk] + rest;
        if |rest| > 0 {
          // The first chunk is cut short only by the end of the range or of
          // the file, and then nothing follows it.
          assert |chunk| == next;
        }
      }
    }
  }

  /** A chunk size of zero reads nothing. */
  lemma ChunksOfZero(data: seq<bv8>, pos: nat, end: int)
    ensures Chunks(data, pos, end, 0) == []
  {
  }

  /** A negative chunk size reads the rest of the file in one chunk,
      whatever the end of the range. */
  lemma ChunksOfNegative(data: seq<bv8>, pos: nat, end: int, size: int)
    requires size < 0 && pos < end
    ensures Flatten(Chunks(data, pos, end, size)) == if pos < |data| then data[pos..] else []
  {
    var chunk := ReadAt(data, pos, Min(size, end - pos));
    if |chunk| > 0 {
      assert Chunks(data, pos + |chunk|, end, Min(size, end - pos)) == [];
      FlattenCons(chunk, []);
    }
  }

  /** Feeding non-empty chunks one by one is one `update` over all of them. */
  lemma {:induction false} FeedIsUpdate(cfg: Config, table: seq<bv32>, chunks: seq<seq<bv8>>, value: bv32)
    requires |table| == 256 && |chunks| > 0
    requires forall i | 0 <= i < |chunks| :: |chunks[i]| > 0
    ensures Feed(cfg, table, chunks, value) == Updated(cfg, table, Flatten(chunks), value)
    decreases |chunks|
  {
    var rest := chunks[1..];
    var first := Updated(cfg, table, chunks[0], value);
    assert Feed(cfg, table, chunks, value) == Feed(cfg, table, rest, first);
    assert Flatten(chunks) == chunks[0] + Flatten(rest);
    if |rest| == 0 {
      assert Flatten(chunks) == chunks[0];
    } else {
      FeedIsUpdate(cfg, table, rest, first);
      UpdateChunks(cfg, table, chunks[0], Flatten(rest), value);
    }
  }

  /** Whatever positive chunk size `consume` uses, the register ends where a
      single `update` over the selected range leaves it, and untouched when
      the range is empty. */
  lemma ConsumeIsOneUpdate(cfg: Config, table: seq<bv32>, data: seq<bv8>, start: nat, end: int, size: int, value: bv32)
    requires |table| == 256 && size > 0
    ensures Feed(cfg, table, Chunks(data, start, end, size), value)
            == if |Slice(data, start, end)| == 0 then value else Updated(cfg, table, Slice(data, start, end), value)
  {
    var chunks := Chunks(data, start, end, size);
    ChunksCoverSlice(data, start, end, size);
    ChunksShrink(data, start, end, size);
    if |chunks| > 0 {
      FeedIsUpdate(cfg, table, chunks, value);
    }
  }

  /** With both bounds left out, as the `calc` command calls it, `consume`
      selects the whole file, and its chunks feed the register one `update`
      over every byte of the file and count every byte; an empty file leaves
      the register untouched. */
  lemma ConsumeWholeFile(cfg: Config, table: seq<bv32>, data: seq<bv8>, size: int, value: bv32)
    requires |table| == 256 && size > 0
    ensures Bounds(None, None, |data|) == Ok((0, |data|))
    ensures Feed(cfg, table, Chunks(data, 0, |data|, size), value)
            == if |data| == 0 then value else Updated(cfg, table, data, value)
    ensures |Flatten(Chunks(data, 0, |data|, size))| == |data|
  {
    ConsumeIsOneUpdate(cfg, table, data, 0, |data|, size, value);
    ChunksCoverSlice(data, 0, |data|, size);
    assert Slice(data, 0, |data|) == if |data| == 0 then [] else data[0..|data|];
    assert data[0..|data|] == data;
  }

  /** `consume` (crcmanip/algorithm.py:28-46): the range is settled, the
      cursor moves to its start, and chunks no longer than the last one
      and than what is left of the range are read and fed to `update`
      until the range or the file ends. */
  method Consume(crc: BaseCrc, handle: Handle, start: Option<int>, end: Option<int>, chunkSize: int)
    returns (r: Result<()>)
    requires crc.Valid()
    modifies crc, handle
    ensures var bounds := Bounds(start, end, |handle.data|);
            if bounds.Err? then
              r == Err(bounds.error) && crc.value == old(crc.value) && crc.consumed == old(crc.consumed)
              && handle.pos == old(handle.pos)
            else
              var chunks := Chunks(handle.data, bounds.value.0, bounds.value.1, chunkSize);
              r == Ok(())
              && crc.value == Feed(crc.Cfg(), crc.lookupTable, chunks, old(crc.value))
              && crc.consumed == old(crc.consumed) + |Flatten(chunks)|
              && handle.pos == if bounds.value.0 == bounds.value.1 then old(handle.pos)
                               else bounds.value.0 + |Flatten(chunks)|
  {
    var bounds := FixStartEndPos(start, end, handle);
    if bounds.Err? {
      return Err(bounds.error);
    }
    var startPos := bounds.value.0;
    var endPos := bounds.value.1;
    ghost var all := Chunks(handle.data, startPos, endPos, chunkSize);
    ghost var v0 := crc.value;
    ghost var c0 := crc.consumed;
    if startPos == endPos {
      assert all == [];
      return Ok(());
    }
    handle.SeekSet(startPos);
    var size := chunkSize;
    ghost var read: seq<seq<bv8>> := [];
    while true
      invariant crc.Valid()
      invariant read + Chunks(handle.data, handle.pos, endPos, size) == all
      invariant crc.value == Feed(crc.Cfg(), crc.lookupTable, read, v0)
      invariant crc.consumed == c0 + |Flatten(read)|
      invariant handle.pos == startPos + |Flatten(read)|
      decreases if handle.pos <= |handle.data| then |handle.data| - handle.pos else 0
    {
      var pos := handle.Tell();
      if pos >= endPos {
        assert Chunks(handle.data, pos, endPos, size) == [];
        assert read == all;
        break;
      }
      ghost var before := size;
      size := Min(size, endPos - pos);
      var chunk := handle.Read(size);
      if |chunk| == 0 {
        assert Chunks(handle.data, pos, endPos, before) == [];
        assert read == all;
        break;
      }
      var _ := crc.Update(chunk);
      FeedSnoc(crc.Cfg(), crc.lookupTable, read, chunk, v0);
      FlattenSnoc(read, chunk);
      ghost var earlier := read;
      read := read + [chunk];
      ChunksStep(handle.data, pos, endPos, before, size, chunk, earlier, read, handle.pos, all);
    }
    return Ok(());
  }

  /** One pass of the loop of `consume` keeps the chunks read so far and the
      chunks still to come adding up to the whole list. */
  lemma ChunksStep(data: seq<bv8>, pos: nat, end: int, before: int, size: int, chunk: seq<bv8>,
                   read: seq<seq<bv8>>, read': seq<seq<bv8>>, pos': nat, all: seq<seq<bv8>>)
    requires pos < end && size == Min(before, end - pos)
    requires chunk == ReadAt(data, pos, size) && |chunk| > 0
    requires read + Chunks(data, pos, end, before) == all
    requires read' == read + [chunk] && pos' == pos + |chunk|
    ensures read' + Chunks(data, pos', end, size) == all
  {
    var rest := Chunks(data, pos', end, size);
    assert Chunks(data, pos, end, before) == [chunk] + rest;
    assert read' + rest == read + ([chunk] + rest);
  }

  lemma {:induction false} FeedSnoc(cfg: Config, table: seq<bv32>, chunks: seq<seq<bv8>>, chunk: seq<bv8>, value: bv32)
    requires |table| == 256
    ensures Feed(cfg, table, chunks + [chunk], value) == Updated(cfg, table, chunk, Feed(cfg, table, chunks, value))
    decreases |chunks|
  {
    if |chunks| > 0 {
      assert (chunks + [chunk])[1..] == chunks[1..] + [chunk];
      FeedSnoc(cfg, table, chunks[1..], chunk, Updated(cfg, table, chunks[0], value));
    } else {
      assert (chunks + [chunk])[1..] == [];
    }
  }

  lemma {:induction false} FlattenSnoc(chunks: seq<seq<bv8>>, chunk: seq<bv8>)
    ensures Flatten(chunks + [chunk]) == Flatten(chunks) + chunk
    decreases |chunks|
  {
    if |chunks| > 0 {
      assert (chunks + [chunk])[1..] == chunks[1..] + [chunk];
      FlattenSnoc(chunks[1..], chunk);
    } else {
      assert (chunks + [chunk])[1..] == [];
    }
  }
}
