/**
  Variable-sized chunks one after the other in a byte buffer. The only structure is in the bytes: each
  chunk starts with its size in four bytes. The lemmas show that iterating over the bytes recovers the
  chunks that were allocated. Positions are offsets into the buffer.
 */
module ImChunkStreams {
  import opened IntBits

  newtype byte = n: int | 0 <= n < 256

  const HDR_SZ: int := 4
  const INT_LIMIT: int := 0x8000_0000

  // ----- the size header

  function Encode(n: int): (b: seq<byte>)
    requires 0 <= n < INT_LIMIT
    ensures |b| == 4
  {
    [(n % 256) as byte, (n / 0x100 % 256) as byte, (n / 0x1_0000 % 256) as byte, (n / 0x100_0000) as byte]
  }

  /** Four bytes read as a signed 32-bit number, least significant byte first. */
  function Decode(b: seq<byte>): (n: int)
    requires |b| == 4
    ensures -INT_LIMIT <= n < INT_LIMIT
  {
    var u := b[0] as int + 0x100 * (b[1] as int) + 0x1_0000 * (b[2] as int) + 0x100_0000 * (b[3] as int);
    if u < INT_LIMIT then u else u - 0x1_0000_0000
  }

  lemma DecodeEncode(n: int)
    requires 0 <= n < INT_LIMIT
    ensures Decode(Encode(n)) == n
  {
    assert n == n % 256 + 0x100 * (n / 0x100);
    assert n / 0x100 == n / 0x100 % 256 + 0x100 * (n / 0x1_0000);
    assert n / 0x1_0000 == n / 0x1_0000 % 256 + 0x100 * (n / 0x100_0000);
  }

  function Align4(n: nat): nat { MemAlign(n, 4) }

  lemma Align4IsLeast(n: nat)
    ensures Align4(n) % 4 == 0 && n <= Align4(n) < n + 4
    ensures n > HDR_SZ <==> Align4(n) > HDR_SZ
  {
    assert 4 == Pow2(2);
    MemAlignBounds(n, 4);
  }

  // ----- iteration over the bytes

  // What advancing a pointer leads to; `Fails` stands for a failing assertion of the source.
  datatype Next = At(p: int) | End | Fails

  function ChunkSize(buf: seq<byte>, p: int): int
    requires HDR_SZ <= p <= |buf|
  {
    Decode(buf[p - HDR_SZ..p])
  }

  function Begin(buf: seq<byte>): Next {
    if buf == [] then End else At(HDR_SZ)
  }

  function NextChunk(buf: seq<byte>, p: int): Next {
    if !(HDR_SZ <= p < |buf|) then Fails
    else
      var q := p + ChunkSize(buf, p);
      if q == |buf| + HDR_SZ then End
      else if q < |buf| then At(q) else Fails
  }

  datatype Visited = Visited(ps: seq<int>) | Failed

  /** All pointers that iteration visits from p on. */
  function VisitFrom(buf: seq<byte>, p: int): Visited
    decreases |buf| - p
  {
    match NextChunk(buf, p)
    case Fails => Failed
    case End => Visited([p])
    case At(q) =>
      if q <= p then Failed
      else match VisitFrom(buf, q)
        case Failed => Failed
        case Visited(ps) => Visited([p] + ps)
  }

  function VisitAll(buf: seq<byte>): Visited {
    match Begin(buf)
    case At(p) => VisitFrom(buf, p)
    case _ => Visited([])
  }

  // ----- chunks

  // Where a chunk's header is, and the size of the chunk with its header.
  datatype Chunk = Chunk(off: int, size: int)

  /** The chunks tile the buffer, in multiples of 4 bytes, and each header holds its chunk's size. */
  ghost predicate Tiles(buf: seq<byte>, chunks: seq<Chunk>) {
    && |buf| < INT_LIMIT
    && (chunks == [] <==> buf == [])
    && (forall i :: 0 <= i < |chunks| ==> 0 <= chunks[i].off && chunks[i].off + chunks[i].size <= |buf|)
    && (forall i :: 0 <= i < |chunks| ==> chunks[i].size >= HDR_SZ && chunks[i].size % 4 == 0)
    && (forall i :: 0 <= i < |chunks| ==> Decode(buf[chunks[i].off..chunks[i].off + HDR_SZ]) == chunks[i].size)
    && (chunks != [] ==> chunks[0].off == 0)
    && forall i :: 0 <= i < |chunks| ==> chunks[i].off + chunks[i].size == OffsetAt(buf, chunks, i + 1)
  }

  ghost function OffsetAt(buf: seq<byte>, chunks: seq<Chunk>, i: nat): int {
    if i < |chunks| then chunks[i].off else |buf|
  }

  /** Pointers to the contents of the chunks from i on. */
  ghost function Pointers(chunks: seq<Chunk>, i: nat): (ps: seq<int>)
    requires i <= |chunks|
    ensures |ps| == |chunks| - i
    ensures forall k :: 0 <= k < |ps| ==> ps[k] == chunks[i + k].off + HDR_SZ
  {
    seq(|chunks| - i, k requires 0 <= k < |chunks| - i => chunks[i + k].off + HDR_SZ)
  }

  ghost predicate LastHasContents(chunks: seq<Chunk>) {
    chunks != [] ==> chunks[|chunks| - 1].size > HDR_SZ
  }

  /** The next chunk starts where this one ends. */
  lemma NextOffset(buf: seq<byte>, chunks: seq<Chunk>, i: nat)
    requires Tiles(buf, chunks) && i < |chunks|
    ensures 0 <= chunks[i].off && HDR_SZ <= chunks[i].size
    ensures chunks[i].off + HDR_SZ <= |buf| && ChunkSize(buf, chunks[i].off + HDR_SZ) == chunks[i].size
    ensures chunks[i].off + chunks[i].size == OffsetAt(buf, chunks, i + 1)
  {
  }

  lemma NextOfChunk(buf: seq<byte>, chunks: seq<Chunk>, i: nat)
    requires Tiles(buf, chunks) && i < |chunks|
    ensures NextChunk(buf, chunks[i].off + HDR_SZ)
            == if !LastHasContents(chunks) && i + 2 >= |chunks| then Fails
               else if i + 1 < |chunks| then At(chunks[i + 1].off + HDR_SZ) else End
  {
  }

  lemma {:induction false} VisitFromChunk(buf: seq<byte>, chunks: seq<Chunk>, i: nat)
    requires Tiles(buf, chunks) && i < |chunks|
    ensures VisitFrom(buf, chunks[i].off + HDR_SZ)
            == if LastHasContents(chunks) then Visited(Pointers(chunks, i)) else Failed
    decreases |chunks| - i
  {
    hide Tiles, NextChunk;
    var p := chunks[i].off + HDR_SZ;
    NextOfChunk(buf, chunks, i);
    NextOffset(buf, chunks, i);
    if i + 1 < |chunks| {
      VisitFromChunk(buf, chunks, i + 1);
      assert Pointers(chunks, i) == [p] + Pointers(chunks, i + 1);
    } else {
      assert Pointers(chunks, i) == [p];
    }
  }

  /**
    Iterating visits exactly the allocated chunks, once each and in order, and then ends, if and only if
    the last chunk is not empty; an empty last chunk makes an assertion fail.
   */
  lemma VisitAllIff(buf: seq<byte>, chunks: seq<Chunk>)
    requires Tiles(buf, chunks)
    ensures VisitAll(buf) == if LastHasContents(chunks) then Visited(Pointers(chunks, 0)) else Failed
  {
    hide VisitFrom, Decode;
    if chunks != [] {
      VisitFromChunk(buf, chunks, 0);
    } else {
      assert Pointers(chunks, 0) == [];
    }
  }

  // ----- allocation

  /** The buffer after a chunk with `sz` bytes of contents; `fill` is what the new memory holds. */
  function Extended(buf: seq<byte>, sz: int, fill: nat -> byte): seq<byte>
    requires 0 <= sz && Align4(HDR_SZ + sz) < INT_LIMIT
  {
    Align4IsLeast(HDR_SZ + sz);
    buf + Encode(Align4(HDR_SZ + sz)) + seq(Align4(HDR_SZ + sz) - HDR_SZ, fill)
  }

  lemma ExtendedTiles(buf: seq<byte>, chunks: seq<Chunk>, sz: int, fill: nat -> byte)
    requires Tiles(buf, chunks) && 0 <= sz && |buf| + Align4(HDR_SZ + sz) < INT_LIMIT
    ensures Tiles(Extended(buf, sz, fill), chunks + [Chunk(|buf|, Align4(HDR_SZ + sz))])
  {
    hide Decode, Encode, Align4;
    Align4IsLeast(HDR_SZ + sz);
    var size := Align4(HDR_SZ + sz);
    DecodeEncode(size);
    var tail := Encode(size) + seq(size - HDR_SZ, fill);
    assert tail[..HDR_SZ] == Encode(size);
    assert Extended(buf, sz, fill) == buf + tail;
    AppendTiles(buf, chunks, tail);
  }

  /** Bytes that start with their own length are one more chunk. */
  lemma AppendTiles(buf: seq<byte>, chunks: seq<Chunk>, tail: seq<byte>)
    requires Tiles(buf, chunks) && HDR_SZ <= |tail| && |tail| % 4 == 0 && |buf| + |tail| < INT_LIMIT
    requires Decode(tail[..HDR_SZ]) == |tail|
    ensures Tiles(buf + tail, chunks + [Chunk(|buf|, |tail|)])
  {
    hide Decode;
    var buf', chunks' := buf + tail, chunks + [Chunk(|buf|, |tail|)];
    forall i | 0 <= i < |chunks'|
      ensures 0 <= chunks'[i].off && HDR_SZ <= chunks'[i].size && chunks'[i].size % 4 == 0
      ensures chunks'[i].off + chunks'[i].size <= |buf'|
      ensures Decode(buf'[chunks'[i].off..chunks'[i].off + HDR_SZ]) == chunks'[i].size
      ensures chunks'[i].off + chunks'[i].size == OffsetAt(buf', chunks', i + 1)
    {
      AppendKeepsHeader(buf, chunks, tail, i);
    }
  }

  lemma AppendKeepsHeader(buf: seq<byte>, chunks: seq<Chunk>, tail: seq<byte>, i: nat)
    requires Tiles(buf, chunks) && HDR_SZ <= |tail| && |tail| % 4 == 0
    requires Decode(tail[..HDR_SZ]) == |tail| && i <= |chunks|
    ensures var buf', chunks' := buf + tail, chunks + [Chunk(|buf|, |tail|)];
            && 0 <= chunks'[i].off && HDR_SZ <= chunks'[i].size && chunks'[i].size % 4 == 0
            && chunks'[i].off + chunks'[i].size <= |buf'|
            && Decode(buf'[chunks'[i].off..chunks'[i].off + HDR_SZ]) == chunks'[i].size
            && chunks'[i].off + chunks'[i].size == OffsetAt(buf', chunks', i + 1)
  {
    if i < |chunks| {
      ChunkInBuffer(buf, chunks, i);
    }
    hide Tiles, Decode;
    if i < |chunks| {
      SliceOfFirst(buf, tail, chunks[i].off, chunks[i].off + HDR_SZ);
    } else {
      SliceOfSecond(buf, tail, HDR_SZ);
    }
  }

  lemma SliceOfFirst(a: seq<byte>, b: seq<byte>, lo: int, hi: int)
    requires 0 <= lo <= hi <= |a|
    ensures (a + b)[lo..hi] == a[lo..hi]
  {
  }

  lemma SliceOfSecond(a: seq<byte>, b: seq<byte>, n: int)
    requires 0 <= n <= |b|
    ensures (a + b)[|a|..|a| + n] == b[..n]
  {
  }

  class ImChunkStream {
    var buf: seq<byte>
    ghost var chunks: seq<Chunk>

    ghost predicate Valid()
      reads this
    {
      Tiles(buf, chunks)
    }

    constructor ()
      ensures Valid() && chunks == []
    {
      buf, chunks := [], [];
    }

    method Clear()
      modifies this
      ensures Valid() && chunks == []
    {
      buf, chunks := [], [];
    }

    /**
      Appends a chunk with room for sz bytes and returns a pointer to its contents. The chunks before keep
      their offsets and contents.
     */
    method AllocChunk(sz: int, fill: nat -> byte) returns (p: int)
      requires Valid() && 0 <= sz && |buf| + Align4(HDR_SZ + sz) < INT_LIMIT
      modifies this
      ensures Valid() && old(buf) <= buf
      ensures chunks == old(chunks) + [Chunk(old(|buf|), Align4(HDR_SZ + sz))]
      ensures p == old(|buf|) + HDR_SZ && p + sz <= |buf|
    {
      var size := Align4(HDR_SZ + sz);
      var off := |buf|;
      Align4IsLeast(HDR_SZ + sz);
      ExtendedTiles(buf, chunks, sz, fill);
      assert buf + Encode(size) + seq(size - HDR_SZ, fill) == Extended(buf, sz, fill);
      buf := buf + Encode(size) + seq(size - HDR_SZ, fill);
      chunks := chunks + [Chunk(off, size)];
      p := off + HDR_SZ;
    }

    /** Writes one byte of a chunk's contents; no header changes. */
    method WriteContents(ghost i: nat, at: int, b: byte)
      requires Valid() && i < |chunks| && chunks[i].off + HDR_SZ <= at < chunks[i].off + chunks[i].size
      modifies `buf
      ensures Valid() && 0 <= at < |buf| && buf == old(buf)[at := b]
    {
      WriteKeepsTiles(buf, chunks, i, at, b);
      buf := buf[at := b];
    }
  }

  /** Later chunks start after the end of earlier ones. */
  lemma {:induction false} ChunksAreOrdered(buf: seq<byte>, chunks: seq<Chunk>, i: nat, j: nat)
    requires Tiles(buf, chunks) && i < j < |chunks|
    ensures chunks[i].off + chunks[i].size <= chunks[j].off
    decreases j
  {
    hide Tiles, Decode, ChunkSize;
    NextOffset(buf, chunks, j - 1);
    if i < j - 1 {
      ChunksAreOrdered(buf, chunks, i, j - 1);
    }
  }

  lemma WriteKeepsTiles(buf: seq<byte>, chunks: seq<Chunk>, i: nat, at: int, b: byte)
    requires Tiles(buf, chunks) && i < |chunks| && chunks[i].off + HDR_SZ <= at < chunks[i].off + chunks[i].size
    ensures 0 <= at < |buf| && Tiles(buf[at := b], chunks)
  {
    hide Decode;
    forall j | 0 <= j < |chunks|
      ensures 0 <= at < |buf| && Decode(buf[at := b][chunks[j].off..chunks[j].off + HDR_SZ]) == chunks[j].size
      ensures chunks[j].off + chunks[j].size == OffsetAt(buf[at := b], chunks, j + 1)
    {
      WriteKeepsHeader(buf, chunks, i, at, b, j);
    }
  }

  lemma WriteKeepsHeader(buf: seq<byte>, chunks: seq<Chunk>, i: nat, at: int, b: byte, j: nat)
    requires Tiles(buf, chunks) && i < |chunks| && chunks[i].off + HDR_SZ <= at < chunks[i].off + chunks[i].size
    requires j < |chunks|
    ensures 0 <= at < |buf| && 0 <= chunks[j].off <= chunks[j].off + HDR_SZ <= |buf|
    ensures Decode(buf[at := b][chunks[j].off..chunks[j].off + HDR_SZ]) == chunks[j].size
    ensures chunks[j].off + chunks[j].size == OffsetAt(buf[at := b], chunks, j + 1)
  {
    hide Tiles, Decode;
    ChunkInBuffer(buf, chunks, i);
    ChunkInBuffer(buf, chunks, j);
    if j < i {
      ChunksAreOrdered(buf, chunks, j, i);
    } else if i < j {
      ChunksAreOrdered(buf, chunks, i, j);
    }
    SliceElsewhere(buf, at, b, chunks[j].off, chunks[j].off + HDR_SZ);
  }

  lemma ChunkInBuffer(buf: seq<byte>, chunks: seq<Chunk>, i: nat)
    requires Tiles(buf, chunks) && i < |chunks|
    ensures 0 <= chunks[i].off && HDR_SZ <= chunks[i].size && chunks[i].size % 4 == 0
    ensures chunks[i].off + chunks[i].size <= |buf|
    ensures Decode(buf[chunks[i].off..chunks[i].off + HDR_SZ]) == chunks[i].size
    ensures chunks[i].off + chunks[i].size == OffsetAt(buf, chunks, i + 1)
  {
  }

  lemma SliceElsewhere(buf: seq<byte>, at: int, b: byte, lo: int, hi: int)
    requires 0 <= at < |buf| && 0 <= lo <= hi <= |buf| && (at < lo || hi <= at)
    ensures buf[at := b][lo..hi] == buf[lo..hi]
  {
  }
}
