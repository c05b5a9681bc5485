/**
 The xorb container: 8-byte chunk headers, the iterator over them, and the reconstruction of a file
 from its terms, once into a buffer and once into a writer.
 */
module Xorb {
  import opened Bytes
  import opened Options
  import opened ByteGrouping

  const HEADER_SIZE := 8
  const MAX_SIZE := 0x100_0000

  const COMPRESSION_NONE := 0
  const COMPRESSION_LZ4 := 1
  const COMPRESSION_GROUPING_LZ4 := 2

  datatype ChunkHeader = ChunkHeader(version: Byte, compressedSize: nat, compressionType: Byte, uncompressedSize: nat)

  datatype Chunk = Chunk(header: ChunkHeader, payload: seq<Byte>)

  function ParseChunkHeader(d: seq<Byte>): Option<ChunkHeader> {
    if |d| < HEADER_SIZE then None
    else Some(ChunkHeader(d[0], SizeOf(d[1], d[2], d[3]), d[4], SizeOf(d[5], d[6], d[7])))
  }

  /** A 3-byte little-endian size. */
  function SizeOf(low: nat, mid: nat, high: nat): nat {
    low + mid * 0x100 + high * 0x1_0000
  }

  /** The wire layout: version, 3-byte size, compression type, 3-byte size. */
  function Serialized(h: ChunkHeader): (d: seq<Byte>)
    ensures |d| == HEADER_SIZE
  {
    [h.version] + ToLittleEndian(h.compressedSize, 3) + [h.compressionType] + ToLittleEndian(h.uncompressedSize, 3)
  }

  method Serialize(h: ChunkHeader) returns (d: seq<Byte>)
    ensures d == Serialized(h)
  {
    var data := new Byte[HEADER_SIZE];
    data[0] := h.version;
    data[1] := h.compressedSize % 0x100;
    data[2] := h.compressedSize / 0x100 % 0x100;
    data[3] := h.compressedSize / 0x1_0000 % 0x100;
    data[4] := h.compressionType;
    data[5] := h.uncompressedSize % 0x100;
    data[6] := h.uncompressedSize / 0x100 % 0x100;
    data[7] := h.uncompressedSize / 0x1_0000 % 0x100;
    ThreeBytes(h.compressedSize);
    ThreeBytes(h.uncompressedSize);
    d := data[..];
  }

  lemma ThreeBytes(v: nat)
    ensures ToLittleEndian(v, 3) == [v % 0x100, v / 0x100 % 0x100, v / 0x1_0000 % 0x100]
  {
    assert ToLittleEndian(v / 0x1_0000, 1) == [v / 0x1_0000 % 0x100];
    assert v / 0x100 / 0x100 == v / 0x1_0000;
  }

  lemma SizeOfIsLittleEndian(s: seq<Byte>)
    requires |s| == 3
    ensures SizeOf(s[0], s[1], s[2]) == LittleEndian(s) < MAX_SIZE
  {
    var s1, s2 := s[1..], s[2..];
    assert s1[1..] == s2 && s2[1..] == [];
    assert LittleEndian(s) == s[0] + 0x100 * LittleEndian(s1);
    assert LittleEndian(s1) == s[1] + 0x100 * LittleEndian(s2) && LittleEndian(s2) == s[2];
    LittleEndianBound(s);
    Pow256Values();
  }

  lemma SizeOfThreeBytesIff(v: nat)
    ensures var s := ToLittleEndian(v, 3);
      SizeOf(s[0], s[1], s[2]) == v <==> v < MAX_SIZE
  {
    SizeOfIsLittleEndian(ToLittleEndian(v, 3));
    Pow256Values();
    if v < MAX_SIZE {
      DecodeEncode(v, 3);
    }
  }

  /** A written header is read back exactly when both sizes fit in three bytes. */
  lemma ParseOfSerializedIff(h: ChunkHeader)
    ensures ParseChunkHeader(Serialized(h)) == Some(h) <==> h.compressedSize < MAX_SIZE && h.uncompressedSize < MAX_SIZE
  {
    hide SizeOf;
    hide ToLittleEndian;
    SizeOfThreeBytesIff(h.compressedSize);
    SizeOfThreeBytesIff(h.uncompressedSize);
  }

  lemma SerializedOfParse(d: seq<Byte>)
    requires |d| >= HEADER_SIZE
    ensures Serialized(ParseChunkHeader(d).value) == d[..HEADER_SIZE]
    ensures ParseChunkHeader(d).value.compressedSize < MAX_SIZE
    ensures ParseChunkHeader(d).value.uncompressedSize < MAX_SIZE
  {
    hide SizeOf;
    hide ToLittleEndian;
    SizeOfIsLittleEndian(d[1..4]);
    EncodeDecode(d[1..4]);
    SizeOfIsLittleEndian(d[5..8]);
    EncodeDecode(d[5..8]);
  }

  // The iterator.

  datatype Item = End | Next(chunk: Chunk, next: nat) | Overrun

  function ItemAt(d: seq<Byte>, offset: nat): (i: Item)
    ensures i.Next? ==> offset + HEADER_SIZE <= i.next <= |d|
  {
    if offset + HEADER_SIZE > |d| then End else
    var header := ParseChunkHeader(d[offset..offset + HEADER_SIZE]).value;
    var start := offset + HEADER_SIZE;
    if start + header.compressedSize > |d| then Overrun
    else Next(Chunk(header, d[start..start + header.compressedSize]), start + header.compressedSize)
  }

  class XorbIterator {
    const data: seq<Byte>
    var offset: nat

    constructor (data: seq<Byte>)
      ensures this.data == data && offset == 0
    {
      this.data := data;
      offset := 0;
    }

    method HasNext() returns (more: bool)
      ensures more <==> ItemAt(data, offset) != End
    {
      more := offset + HEADER_SIZE <= |data|;
    }

    method Next() returns (item: Item)
      modifies this
      ensures item == ItemAt(data, old(offset))
      ensures offset == if item.Next? then item.next else old(offset)
    {
      if offset + HEADER_SIZE > |data| {
        return End;
      }
      var header := ParseChunkHeader(data[offset..offset + HEADER_SIZE]).value;
      var chunkStart := offset + HEADER_SIZE;
      var chunkEnd := chunkStart + header.compressedSize;
      if chunkEnd > |data| {
        return Overrun;
      }
      offset := chunkEnd;
      item := Item.Next(Chunk(header, data[chunkStart..chunkEnd]), chunkEnd);
    }
  }

  /** All chunks from an offset on, where the iteration stopped, and whether it stopped without an error. */
  datatype Walk = Walk(chunks: seq<Chunk>, end: nat, ok: bool)

  function Chunks(d: seq<Byte>, offset: nat): Walk
    requires offset <= |d|
    decreases |d| - offset
  {
    match ItemAt(d, offset)
    case End => Walk([], offset, true)
    case Overrun => Walk([], offset, false)
    case Next(chunk, next) =>
      var rest := Chunks(d, next);
      rest.(chunks := [chunk] + rest.chunks)
  }

  predicate WellFormed(c: Chunk) {
    |c.payload| == c.header.compressedSize < MAX_SIZE && c.header.uncompressedSize < MAX_SIZE
  }

  function Encode(cs: seq<Chunk>): seq<Byte> {
    if cs == [] then [] else Serialized(cs[0].header) + cs[0].payload + Encode(cs[1..])
  }

  /** A well-formed chunk in front of anything is the next item. */
  lemma ItemOfEncoding(d: seq<Byte>, before: seq<Byte>, c: Chunk, after: seq<Byte>)
    requires WellFormed(c) && d == before + (Serialized(c.header) + c.payload + after)
    ensures ItemAt(d, |before|) == Next(c, |before| + HEADER_SIZE + |c.payload|)
  {
    var start := |before| + HEADER_SIZE;
    assert d[|before|..start] == Serialized(c.header);
    ParseOfSerializedIff(c.header);
    assert d[start..start + |c.payload|] == c.payload;
  }

  lemma ChunksStep(d: seq<Byte>, offset: nat)
    requires offset <= |d| && ItemAt(d, offset).Next?
    ensures var rest := Chunks(d, ItemAt(d, offset).next);
      Chunks(d, offset) == Walk([ItemAt(d, offset).chunk] + rest.chunks, rest.end, rest.ok)
  {
  }

  lemma EncodeStep(cs: seq<Chunk>)
    requires cs != []
    ensures Encode(cs) == Serialized(cs[0].header) + cs[0].payload + Encode(cs[1..])
  {
  }

  lemma Regrouped(a: seq<Byte>, b: seq<Byte>, c: seq<Byte>, d: seq<Byte>)
    ensures a + ((b + c) + d) == (a + b) + (c + d) == a + (b + (c + d))
  {
  }

  /** Iterating over an encoding, followed by fewer than 8 bytes, yields its chunks and ends after them. */
  lemma {:induction false} ChunksOfEncoding(d: seq<Byte>, before: seq<Byte>, cs: seq<Chunk>, trailing: seq<Byte>)
    requires forall i | 0 <= i < |cs| :: WellFormed(cs[i])
    requires |trailing| < HEADER_SIZE && d == before + (Encode(cs) + trailing)
    ensures Chunks(d, |before|) == Walk(cs, |before| + |Encode(cs)|, true)
    decreases |cs|
  {
    if cs != [] {
      hide *;
      var c, rest := cs[0], Encode(cs[1..]);
      var chunk := Serialized(c.header) + c.payload;
      assert d == before + (chunk + (rest + trailing)) == (before + chunk) + (rest + trailing) by {
        EncodeStep(cs);
        Regrouped(before, chunk, rest, trailing);
      }
      assert ItemAt(d, |before|) == Next(c, |before + chunk|) by {
        ItemOfEncoding(d, before, c, rest + trailing);
      }
      ChunksOfEncoding(d, before + chunk, cs[1..], trailing);
      ChunksStep(d, |before|);
      assert |Encode(cs)| == |chunk| + |rest| by { EncodeStep(cs); }
      assert [c] + cs[1..] == cs;
    }
  }

  /** Conversely, whatever is iterated without an error is an encoding followed by fewer than 8 bytes. */
  lemma {:induction false} IteratedIsEncoding(d: seq<Byte>, offset: nat)
    requires offset <= |d| && Chunks(d, offset).ok
    ensures var w := Chunks(d, offset);
      && offset <= w.end <= |d| < w.end + HEADER_SIZE
      && d[offset..w.end] == Encode(w.chunks)
      && forall i | 0 <= i < |w.chunks| :: WellFormed(w.chunks[i])
    decreases |d| - offset
  {
    var item := ItemAt(d, offset);
    if item.Next? {
      ItemIsEncoding(d, offset);
      ChunksStep(d, offset);
      var w, rest := Chunks(d, offset), Chunks(d, item.next);
      hide *;
      IteratedIsEncoding(d, item.next);
      assert w.chunks[1..] == rest.chunks;
      EncodeStep(w.chunks);
      TwoSlices(d, offset, item.next, w.end);
    }
  }

  lemma TwoSlices(d: seq<Byte>, i: nat, j: nat, k: nat)
    requires i <= j <= k <= |d|
    ensures d[i..k] == d[i..j] + d[j..k]
  {
  }

  lemma ItemIsEncoding(d: seq<Byte>, offset: nat)
    requires ItemAt(d, offset).Next?
    ensures var i := ItemAt(d, offset);
      WellFormed(i.chunk) && d[offset..i.next] == Serialized(i.chunk.header) + i.chunk.payload
  {
    var start := offset + HEADER_SIZE;
    SerializedOfParse(d[offset..start]);
    hide Serialized;
    var i := ItemAt(d, offset);
    assert d[offset..i.next] == d[offset..start] + d[start..i.next];
  }

  // Decompression and reconstruction.

  datatype Error = BoundaryOverrun | BadLz4 | UnknownCompression | NoFetchInfo | FetchFailed | Panic | WriteFailed

  datatype Result<+T> = Ok(value: T) | Err(error: Error)

  /** The LZ4 frame decoder, which is not part of this model. */
  type Lz4 = seq<Byte> -> Option<seq<Byte>>

  function Decompressed(c: Chunk, lz4: Lz4): Result<seq<Byte>> {
    if c.header.compressionType == COMPRESSION_NONE then Ok(c.payload)
    else if c.header.compressionType == COMPRESSION_LZ4 || c.header.compressionType == COMPRESSION_GROUPING_LZ4 then
      var raw := lz4(c.payload);
      if raw == None then Err(BadLz4)
      else if c.header.compressionType == COMPRESSION_LZ4 then Ok(raw.value)
      else Ok(Undone(raw.value, c.header.uncompressedSize))
    else Err(UnknownCompression)
  }

  method Decompress(c: Chunk, lz4: Lz4) returns (r: Result<seq<Byte>>)
    ensures r == Decompressed(c, lz4)
  {
    if c.header.compressionType == COMPRESSION_NONE {
      return Ok(c.payload);
    } else if c.header.compressionType == COMPRESSION_LZ4 {
      var raw := lz4(c.payload);
      return if raw == None then Err(BadLz4) else Ok(raw.value);
    } else if c.header.compressionType == COMPRESSION_GROUPING_LZ4 {
      var raw := lz4(c.payload);
      if raw == None {
        return Err(BadLz4);
      }
      var undone := UndoByteGrouping4(raw.value, c.header.uncompressedSize);
      return Ok(undone);
    }
    r := Err(UnknownCompression);
  }

  /** Which chunks are refused: an unknown type, or a payload of the others that is no LZ4 frame. */
  lemma RefusedIff(c: Chunk, lz4: Lz4)
    ensures Decompressed(c, lz4) == Err(UnknownCompression) <==> c.header.compressionType > 2
    ensures Decompressed(c, lz4) == Err(BadLz4) <==> c.header.compressionType in {1, 2} && lz4(c.payload) == None
    ensures Decompressed(c, lz4).Ok? || Decompressed(c, lz4) in {Err(UnknownCompression), Err(BadLz4)}
  {
  }

  /** A grouped chunk decompresses to what was grouped, for a decoder that undoes `compress`. */
  lemma GroupedChunkDecompresses(data: seq<Byte>, compress: seq<Byte> -> seq<Byte>, lz4: Lz4)
    requires lz4(compress(Grouped(Padded(data)))) == Some(Grouped(Padded(data)))
    ensures var payload := compress(Grouped(Padded(data)));
      Decompressed(Chunk(ChunkHeader(0, |payload|, COMPRESSION_GROUPING_LZ4, |data|), payload), lz4) == Ok(data)
  {
    PadGroupUndo(data);
  }

  /** What a pass over the chunks produces before it stops, and the error it stops at, if any. */
  datatype Output = Output(bytes: seq<Byte>, error: Option<Error>)

  function After(done: seq<Byte>, rest: Output): Output {
    rest.(bytes := done + rest.bytes)
  }

  /** One pass: take a chunk, decompress it, emit it, go on. */
  function Stream(d: seq<Byte>, offset: nat, lz4: Lz4): Output
    requires offset <= |d|
    decreases |d| - offset
  {
    match ItemAt(d, offset)
    case End => Output([], None)
    case Overrun => Output([], Some(BoundaryOverrun))
    case Next(chunk, next) =>
      match Decompressed(chunk, lz4)
      case Err(e) => Output([], Some(e))
      case Ok(bytes) => After(bytes, Stream(d, next, lz4))
  }

  lemma StreamStep(d: seq<Byte>, offset: nat, lz4: Lz4)
    requires offset <= |d|
    ensures ItemAt(d, offset) == End ==> Stream(d, offset, lz4) == Output([], None)
    ensures ItemAt(d, offset) == Overrun ==> Stream(d, offset, lz4) == Output([], Some(BoundaryOverrun))
    ensures ItemAt(d, offset).Next? && Decompressed(ItemAt(d, offset).chunk, lz4).Err? ==>
      Stream(d, offset, lz4) == Output([], Some(Decompressed(ItemAt(d, offset).chunk, lz4).error))
    ensures ItemAt(d, offset).Next? && Decompressed(ItemAt(d, offset).chunk, lz4).Ok? ==>
      Stream(d, offset, lz4)
      == After(Decompressed(ItemAt(d, offset).chunk, lz4).value, Stream(d, ItemAt(d, offset).next, lz4))
  {
  }

  function Joined(cs: seq<Chunk>, lz4: Lz4): Result<seq<Byte>> {
    if cs == [] then Ok([]) else
    match Decompressed(cs[0], lz4)
    case Err(e) => Err(e)
    case Ok(bytes) =>
      match Joined(cs[1..], lz4)
      case Err(e) => Err(e)
      case Ok(more) => Ok(bytes + more)
  }

  /**
   Two passes agree with one: without an error the stream is all the chunks, decompressed and
   joined; with one it is the join of the chunks before the one that failed.
   */
  lemma {:induction false} StreamIsChunkAligned(d: seq<Byte>, offset: nat, lz4: Lz4) returns (n: nat)
    requires offset <= |d|
    ensures var w, out := Chunks(d, offset), Stream(d, offset, lz4);
      && n <= |w.chunks| && Joined(w.chunks[..n], lz4) == Ok(out.bytes)
      && (out.error == None <==> w.ok && n == |w.chunks|)
      && (n < |w.chunks| ==> Decompressed(w.chunks[n], lz4) == Err(out.error.value))
    decreases |d| - offset
  {
    var item := ItemAt(d, offset);
    n := 0;
    if item.Next? {
      var chunk, w := item.chunk, Chunks(d, offset);
      assert w.chunks[0] == chunk && w.chunks[1..] == Chunks(d, item.next).chunks;
      if Decompressed(chunk, lz4).Ok? {
        var m := StreamIsChunkAligned(d, item.next, lz4);
        n := m + 1;
        assert w.chunks[..n][1..] == w.chunks[1..][..m];
      }
    }
  }

  lemma AfterAfter(a: seq<Byte>, b: seq<Byte>, rest: Output)
    ensures After(a, After(b, rest)) == After(a + b, rest)
  {
    assert a + (b + rest.bytes) == (a + b) + rest.bytes;
  }

  lemma AfterEnd(done: seq<Byte>)
    ensures After(done, Output([], None)) == Output(done, None)
  {
  }

  lemma AfterNothing(rest: Output)
    ensures After([], rest) == rest
  {
    assert [] + rest.bytes == rest.bytes;
  }

  /** A range of the xorb; the slice expression panics when it does not fit, which is the error `Panic` here. */
  datatype Term = Term(hash: string, start: int, end: int)

  /** What was fetched, with the spare capacity behind it: a slice expression reaches into that as well. */
  datatype Buffer = Buffer(data: seq<Byte>, spare: seq<Byte>)

  function RangeStream(d: Buffer, t: Term, lz4: Lz4): Output {
    var memory := d.data + d.spare;
    if 0 <= t.start <= t.end <= |memory| then Stream(memory[t.start..t.end], 0, lz4)
    else Output([], Some(Panic))
  }

  lemma {:induction false} StreamNeverPanics(d: seq<Byte>, offset: nat, lz4: Lz4)
    requires offset <= |d|
    ensures Stream(d, offset, lz4).error != Some(Panic)
    decreases |d| - offset
  {
    StreamStep(d, offset, lz4);
    var item := ItemAt(d, offset);
    if item.Next? && Decompressed(item.chunk, lz4).Ok? {
      StreamNeverPanics(d, item.next, lz4);
    }
  }

  /**
   The result depends on bytes that were never fetched, whatever may lie there, if and only if the range
   ends beyond the fetched data: then it panics or reads the spare capacity, as there is any.
   */
  lemma FetchedOnlyIff(data: seq<Byte>, t: Term, lz4: Lz4)
    ensures (forall spare: seq<Byte> :: RangeStream(Buffer(data, spare), t, lz4) == RangeStream(Buffer(data, []), t, lz4))
       <==> !(0 <= t.start <= t.end && t.end > |data|)
  {
    hide Stream;
    assert data + [] == data;
    if 0 <= t.start <= t.end && t.end > |data| {
      var spare: seq<Byte> := seq(t.end, _ => 0);
      StreamNeverPanics((data + spare)[t.start..t.end], 0, lz4);
      assert RangeStream(Buffer(data, spare), t, lz4) != RangeStream(Buffer(data, []), t, lz4);
    } else {
      forall spare: seq<Byte>
        ensures RangeStream(Buffer(data, spare), t, lz4) == RangeStream(Buffer(data, []), t, lz4)
      {
        assert 0 <= t.start <= t.end ==> (data + spare)[t.start..t.end] == data[t.start..t.end];
      }
    }
  }

  /** Collects a whole range; on an error nothing is returned. */
  method ExtractChunks(d: Buffer, t: Term, lz4: Lz4) returns (r: Result<seq<Byte>>)
    ensures var out := RangeStream(d, t, lz4);
      r == if out.error == None then Ok(out.bytes) else Err(out.error.value)
  {
    var memory := d.data + d.spare;
    if !(0 <= t.start <= t.end <= |memory|) {
      return Err(Panic);
    }
    hide ItemAt;
    hide Decompressed;
    hide Stream;
    var rangeData := memory[t.start..t.end];
    var result: seq<Byte> := [];
    var iter := new XorbIterator(rangeData);
    AfterNothing(Stream(rangeData, 0, lz4));
    var more := iter.HasNext();
    while more
      invariant iter.offset <= |rangeData| && iter.data == rangeData
      invariant more <==> ItemAt(rangeData, iter.offset) != End
      invariant Stream(rangeData, 0, lz4) == After(result, Stream(rangeData, iter.offset, lz4))
      decreases |rangeData| - iter.offset, more
    {
      StreamStep(rangeData, iter.offset, lz4);
      var item := iter.Next();
      if item == Overrun {
        return Err(BoundaryOverrun);
      }
      var decompressed := Decompress(item.chunk, lz4);
      if decompressed.Err? {
        return Err(decompressed.error);
      }
      AfterAfter(result, decompressed.value, Stream(rangeData, iter.offset, lz4));
      result := result + decompressed.value;
      more := iter.HasNext();
    }
    StreamStep(rangeData, iter.offset, lz4);
    AfterEnd(result);
    r := Ok(result);
  }

  /** A writer that may fail, having taken part of what it was given. */
  class Writer {
    var written: seq<Byte>

    method Write(p: seq<Byte>) returns (ok: bool)
      modifies this
      ensures ok ==> written == old(written) + p
      ensures !ok ==> old(written) <= written <= old(written) + p
    {
      var n: nat :| true;
      if n < |p| {
        written := written + p[..n];
        return false;
      }
      written := written + p;
      ok := true;
    }
  }

  /** What was written for `out`: all of it, or an initial part if the writer itself failed. */
  predicate Delivered(before: seq<Byte>, after: seq<Byte>, out: Output, error: Option<Error>) {
    if error == Some(WriteFailed)
    then before <= after <= before + out.bytes
    else after == before + out.bytes && error == out.error
  }

  lemma DeliveredAfter(before: seq<Byte>, mid: seq<Byte>, after: seq<Byte>, done: seq<Byte>, out: Output,
      error: Option<Error>)
    requires mid == before + done && Delivered(mid, after, out, error)
    ensures Delivered(before, after, After(done, out), error)
  {
    assert before + (done + out.bytes) == mid + out.bytes;
  }

  /** One turn of the loop: the next chunk is taken, decompressed and written. */
  method CopyNext(iter: XorbIterator, lz4: Lz4, w: Writer) returns (error: Option<Error>, ghost bytes: seq<Byte>)
    requires iter.offset <= |iter.data| && ItemAt(iter.data, iter.offset) != End
    modifies iter, w
    ensures error == None ==>
      && old(iter.offset) < iter.offset <= |iter.data| && w.written == old(w.written) + bytes
      && Stream(iter.data, old(iter.offset), lz4) == After(bytes, Stream(iter.data, iter.offset, lz4))
    ensures error != None ==> Delivered(old(w.written), w.written, Stream(iter.data, old(iter.offset), lz4), error)
  {
    hide ItemAt;
    hide Decompressed;
    hide Stream;
    bytes := [];
    StreamStep(iter.data, iter.offset, lz4);
    var item := iter.Next();
    if item == Overrun {
      return Some(BoundaryOverrun), bytes;
    }
    var decompressed := Decompress(item.chunk, lz4);
    if decompressed.Err? {
      return Some(decompressed.error), bytes;
    }
    bytes := decompressed.value;
    var ok := w.Write(decompressed.value);
    if !ok {
      PrefixStays(old(w.written), w.written, Output(bytes, None), Stream(iter.data, iter.offset, lz4));
      return Some(WriteFailed), bytes;
    }
    error := None;
  }

  lemma DeliveredAll(before: seq<Byte>, done: seq<Byte>)
    ensures Delivered(before, before + done, After(done, Output([], None)), None)
  {
  }

  lemma DeliveredNothing(before: seq<Byte>, e: Error)
    requires e != WriteFailed
    ensures Delivered(before, before, Output([], Some(e)), Some(e))
  {
  }

  lemma Associative(a: seq<Byte>, b: seq<Byte>, c: seq<Byte>)
    ensures a + b + c == a + (b + c)
  {
  }

  method ExtractChunksToWriter(d: Buffer, t: Term, lz4: Lz4, w: Writer) returns (error: Option<Error>)
    modifies w
    ensures Delivered(old(w.written), w.written, RangeStream(d, t, lz4), error)
  {
    hide Delivered;
    ghost var before := w.written;
    var memory := d.data + d.spare;
    if !(0 <= t.start <= t.end <= |memory|) {
      DeliveredNothing(before, Panic);
      return Some(Panic);
    }
    error := CopyRange(memory[t.start..t.end], lz4, w);
  }

  method CopyRange(rangeData: seq<Byte>, lz4: Lz4, w: Writer) returns (error: Option<Error>)
    modifies w
    ensures Delivered(old(w.written), w.written, Stream(rangeData, 0, lz4), error)
  {
    hide *;
    ghost var before, done: seq<Byte> := w.written, [];
    var iter := new XorbIterator(rangeData);
    AfterNothing(Stream(rangeData, 0, lz4));
    assert before == before + done;
    var more := iter.HasNext();
    while more
      invariant iter.offset <= |rangeData| && iter.data == rangeData
      invariant more <==> ItemAt(rangeData, iter.offset) != End
      invariant w.written == before + done
      invariant Stream(rangeData, 0, lz4) == After(done, Stream(rangeData, iter.offset, lz4))
      decreases |rangeData| - iter.offset
    {
      ghost var mid, here := w.written, Stream(rangeData, iter.offset, lz4);
      ghost var bytes;
      error, bytes := CopyNext(iter, lz4, w);
      if error != None {
        DeliveredAfter(before, mid, w.written, done, here, error);
        return;
      }
      AfterAfter(done, bytes, Stream(rangeData, iter.offset, lz4));
      Associative(before, done, bytes);
      done := done + bytes;
      more := iter.HasNext();
    }
    StreamStep(rangeData, iter.offset, lz4);
    DeliveredAll(before, done);
    error := None;
  }

  /** The xorb a term names, as the network delivers it; only the first fetch info is used. */
  datatype Recon<!Info> = Recon(terms: seq<Term>, fetchInfo: map<string, seq<Info>>)

  function Fetched<Info>(recon: Recon<Info>, t: Term, fetch: Info -> Option<Buffer>): Result<Buffer> {
    if t.hash !in recon.fetchInfo || recon.fetchInfo[t.hash] == [] then Err(NoFetchInfo)
    else match fetch(recon.fetchInfo[t.hash][0])
         case None => Err(FetchFailed)
         case Some(d) => Ok(d)
  }

  function TermStream<Info>(recon: Recon<Info>, t: Term, fetch: Info -> Option<Buffer>, lz4: Lz4): Output {
    match Fetched(recon, t, fetch)
    case Err(e) => Output([], Some(e))
    case Ok(d) => RangeStream(d, t, lz4)
  }

  /** What each error of a term is for. */
  lemma TermErrorIff<Info>(recon: Recon<Info>, t: Term, fetch: Info -> Option<Buffer>, lz4: Lz4)
    ensures var e := TermStream(recon, t, fetch, lz4).error;
      var known := t.hash in recon.fetchInfo && recon.fetchInfo[t.hash] != [];
      && (e == Some(NoFetchInfo) <==> !known)
      && (e == Some(FetchFailed) <==> known && fetch(recon.fetchInfo[t.hash][0]) == None)
      && (e == Some(Panic) <==>
            && known && fetch(recon.fetchInfo[t.hash][0]).Some?
            && var d := fetch(recon.fetchInfo[t.hash][0]).value;
               !(0 <= t.start <= t.end <= |d.data| + |d.spare|))
  {
    var fetched := Fetched(recon, t, fetch);
    if fetched.Ok? {
      var memory := fetched.value.data + fetched.value.spare;
      if 0 <= t.start <= t.end <= |memory| {
        StreamErrors(memory[t.start..t.end], 0, lz4);
        hide Stream;
      }
    }
  }

  lemma {:induction false} StreamErrors(d: seq<Byte>, offset: nat, lz4: Lz4)
    requires offset <= |d|
    ensures Stream(d, offset, lz4).error in {None, Some(BoundaryOverrun), Some(BadLz4), Some(UnknownCompression)}
    decreases |d| - offset
  {
    StreamStep(d, offset, lz4);
    var item := ItemAt(d, offset);
    if item.Next? {
      RefusedIff(item.chunk, lz4);
      if Decompressed(item.chunk, lz4).Ok? {
        StreamErrors(d, item.next, lz4);
      }
    }
  }

  /** All terms in order, up to the first error. */
  function ReconStream<Info>(recon: Recon<Info>, i: nat, fetch: Info -> Option<Buffer>, lz4: Lz4): Output
    requires i <= |recon.terms|
    decreases |recon.terms| - i
  {
    if i == |recon.terms| then Output([], None) else
    var out := TermStream(recon, recon.terms[i], fetch, lz4);
    if out.error != None then out else After(out.bytes, ReconStream(recon, i + 1, fetch, lz4))
  }

  /** The chunks a term's range holds up to its end or to what is no chunk; none without the range. */
  function TermChunks<Info>(recon: Recon<Info>, t: Term, fetch: Info -> Option<Buffer>): Walk {
    match Fetched(recon, t, fetch)
    case Err(_) => Walk([], 0, false)
    case Ok(d) =>
      var memory := d.data + d.spare;
      if 0 <= t.start <= t.end <= |memory| then Chunks(memory[t.start..t.end], 0) else Walk([], 0, false)
  }

  /** The chunks of the terms from `i` up to `k`. */
  function ChunksUpTo<Info>(recon: Recon<Info>, i: nat, k: nat, fetch: Info -> Option<Buffer>): seq<Chunk>
    requires i <= k <= |recon.terms|
    decreases k - i
  {
    if i == k then [] else TermChunks(recon, recon.terms[i], fetch).chunks + ChunksUpTo(recon, i + 1, k, fetch)
  }

  /** Term `k` stops after `n` of its chunks: the next one does not decompress, or there is none and no end. */
  predicate StopsAt<Info>(recon: Recon<Info>, k: nat, n: nat, fetch: Info -> Option<Buffer>, lz4: Lz4, e: Error)
    requires k < |recon.terms|
  {
    var w := TermChunks(recon, recon.terms[k], fetch);
    && n <= |w.chunks| && (n == |w.chunks| ==> !w.ok)
    && (n < |w.chunks| ==> Decompressed(w.chunks[n], lz4) == Err(e))
  }

  lemma {:induction false} JoinedOfBoth(a: seq<Chunk>, b: seq<Chunk>, lz4: Lz4)
    requires Joined(a, lz4).Ok? && Joined(b, lz4).Ok?
    ensures Joined(a + b, lz4) == Ok(Joined(a, lz4).value + Joined(b, lz4).value)
  {
    hide Decompressed;
    if a == [] {
      assert a + b == b && [] + Joined(b, lz4).value == Joined(b, lz4).value;
    } else {
      JoinedOfBoth(a[1..], b, lz4);
      assert (a + b)[1..] == a[1..] + b;
      Associative(Decompressed(a[0], lz4).value, Joined(a[1..], lz4).value, Joined(b, lz4).value);
    }
  }

  lemma JoinedFront(a: seq<Chunk>, b: seq<Chunk>, c: seq<Chunk>, lz4: Lz4)
    requires Joined(a, lz4).Ok? && Joined(b + c, lz4).Ok?
    ensures Joined(a + b + c, lz4) == Ok(Joined(a, lz4).value + Joined(b + c, lz4).value)
  {
    JoinedOfBoth(a, b + c, lz4);
    assert a + b + c == a + (b + c);
  }

  lemma TermIsChunkAligned<Info>(recon: Recon<Info>, k: nat, fetch: Info -> Option<Buffer>, lz4: Lz4) returns (n: nat)
    requires k < |recon.terms|
    ensures var w, out := TermChunks(recon, recon.terms[k], fetch), TermStream(recon, recon.terms[k], fetch, lz4);
      && n <= |w.chunks| && Joined(w.chunks[..n], lz4) == Ok(out.bytes)
      && (out.error == None <==> w.ok && n == |w.chunks|)
      && (out.error.Some? ==> StopsAt(recon, k, n, fetch, lz4, out.error.value))
  {
    n := 0;
    assert TermChunks(recon, recon.terms[k], fetch).chunks[..0] == [];
    var t := recon.terms[k];
    var fetched := Fetched(recon, t, fetch);
    if fetched.Ok? {
      var memory := fetched.value.data + fetched.value.spare;
      if 0 <= t.start <= t.end <= |memory| {
        hide Decompressed;
        hide Stream;
        hide Chunks;
        n := StreamIsChunkAligned(memory[t.start..t.end], 0, lz4);
      }
    }
  }

  /** The bytes from term `i` on are the chunks up to term `k` and `n` chunks of that, where it stops. */
  predicate Aligned<Info>(recon: Recon<Info>, i: nat, k: nat, n: nat, fetch: Info -> Option<Buffer>, lz4: Lz4, out: Output)
    requires i <= k <= |recon.terms|
  {
    && (out.error == None <==> k == |recon.terms|)
    && (k < |recon.terms| ==> StopsAt(recon, k, n, fetch, lz4, out.error.value))
    && Joined(ChunksUpTo(recon, i, k, fetch) + Beginning(recon, k, n, fetch), lz4) == Ok(out.bytes)
    && forall j | i <= j < k :: TermChunks(recon, recon.terms[j], fetch).ok
  }

  function Beginning<Info>(recon: Recon<Info>, k: nat, n: nat, fetch: Info -> Option<Buffer>): seq<Chunk>
    requires k <= |recon.terms|
  {
    if k == |recon.terms| then [] else
    var chunks := TermChunks(recon, recon.terms[k], fetch).chunks;
    if n <= |chunks| then chunks[..n] else chunks
  }

  lemma AlignedStop<Info>(recon: Recon<Info>, i: nat, n: nat, fetch: Info -> Option<Buffer>, lz4: Lz4, out: Output)
    requires i < |recon.terms| && n <= |TermChunks(recon, recon.terms[i], fetch).chunks| && out.error.Some?
    requires Joined(TermChunks(recon, recon.terms[i], fetch).chunks[..n], lz4) == Ok(out.bytes)
    requires StopsAt(recon, i, n, fetch, lz4, out.error.value)
    ensures Aligned(recon, i, i, n, fetch, lz4, out)
  {
    hide TermChunks;
    hide Joined;
    hide StopsAt;
    assert [] + Beginning(recon, i, n, fetch) == TermChunks(recon, recon.terms[i], fetch).chunks[..n];
  }

  lemma AlignedFurther<Info>(recon: Recon<Info>, i: nat, k: nat, n: nat, fetch: Info -> Option<Buffer>, lz4: Lz4,
      bytes: seq<Byte>, rest: Output)
    requires i < k <= |recon.terms| && Aligned(recon, i + 1, k, n, fetch, lz4, rest)
    requires var w := TermChunks(recon, recon.terms[i], fetch); w.ok && Joined(w.chunks, lz4) == Ok(bytes)
    ensures Aligned(recon, i, k, n, fetch, lz4, After(bytes, rest))
  {
    hide TermChunks;
    hide Joined;
    hide StopsAt;
    hide Beginning;
    var chunks := TermChunks(recon, recon.terms[i], fetch).chunks;
    JoinedFront(chunks, ChunksUpTo(recon, i + 1, k, fetch), Beginning(recon, k, n, fetch), lz4);
  }

  /**
   Chunk alignment of a whole reconstruction: without an error its bytes are the chunks of all terms,
   decompressed and joined; with one they are those of the terms before the failing one, and of the
   chunks of that term before the error.
   */
  lemma {:induction false} ReconIsChunkAligned<Info>(
      recon: Recon<Info>, i: nat, fetch: Info -> Option<Buffer>, lz4: Lz4) returns (k: nat, n: nat)
    requires i <= |recon.terms|
    ensures i <= k <= |recon.terms| && Aligned(recon, i, k, n, fetch, lz4, ReconStream(recon, i, fetch, lz4))
    decreases |recon.terms| - i
  {
    k, n := i, 0;
    if i < |recon.terms| {
      var w, out := TermChunks(recon, recon.terms[i], fetch), TermStream(recon, recon.terms[i], fetch, lz4);
      n := TermIsChunkAligned(recon, i, fetch, lz4);
      hide TermChunks;
      hide TermStream;
      hide StopsAt;
      hide Aligned;
      hide Joined;
      if out.error == None {
        assert w.chunks[..n] == w.chunks;
        k, n := ReconIsChunkAligned(recon, i + 1, fetch, lz4);
        AlignedFurther(recon, i, k, n, fetch, lz4, out.bytes, ReconStream(recon, i + 1, fetch, lz4));
      } else {
        AlignedStop(recon, i, n, fetch, lz4, out);
      }
    }
  }

  method Reconstruct<Info>(recon: Recon<Info>, fetch: Info -> Option<Buffer>, lz4: Lz4)
    returns (r: Result<seq<Byte>>)
    ensures var out := ReconStream(recon, 0, fetch, lz4);
      r == if out.error == None then Ok(out.bytes) else Err(out.error.value)
  {
    hide RangeStream;
    var result: seq<Byte> := [];
    AfterNothing(ReconStream(recon, 0, fetch, lz4));
    var i: nat := 0;
    while i < |recon.terms|
      invariant i <= |recon.terms|
      invariant ReconStream(recon, 0, fetch, lz4) == After(result, ReconStream(recon, i, fetch, lz4))
    {
      var xorbData := Fetched(recon, recon.terms[i], fetch);
      if xorbData.Err? {
        return Err(xorbData.error);
      }
      var chunkData := ExtractChunks(xorbData.value, recon.terms[i], lz4);
      if chunkData.Err? {
        return Err(chunkData.error);
      }
      AfterAfter(result, chunkData.value, ReconStream(recon, i + 1, fetch, lz4));
      result := result + chunkData.value;
      i := i + 1;
    }
    AfterEnd(result);
    r := Ok(result);
  }

  /**
   Streaming reconstruction: on success exactly the bytes the batch form returns; on an error of the
   data, the chunks before it; on a failed write, some initial part of the stream.
   */
  method ReconstructToWriter<Info>(recon: Recon<Info>, fetch: Info -> Option<Buffer>, lz4: Lz4, w: Writer)
    returns (error: Option<Error>)
    modifies w
    ensures Delivered(old(w.written), w.written, ReconStream(recon, 0, fetch, lz4), error)
  {
    hide RangeStream;
    ghost var before, done: seq<Byte> := w.written, [];
    AfterNothing(ReconStream(recon, 0, fetch, lz4));
    var i: nat := 0;
    while i < |recon.terms|
      invariant i <= |recon.terms|
      invariant w.written == before + done
      invariant ReconStream(recon, 0, fetch, lz4) == After(done, ReconStream(recon, i, fetch, lz4))
    {
      var xorbData := Fetched(recon, recon.terms[i], fetch);
      if xorbData.Err? {
        return Some(xorbData.error);
      }
      ghost var mid := w.written;
      ghost var out := TermStream(recon, recon.terms[i], fetch, lz4);
      error := ExtractChunksToWriter(xorbData.value, recon.terms[i], lz4, w);
      if error != None {
        DeliveredAfter(before, mid, w.written, done, out, error);
        if out.error == None {
          PrefixStays(before, w.written, After(done, out), ReconStream(recon, i + 1, fetch, lz4));
          AfterAfter(done, out.bytes, ReconStream(recon, i + 1, fetch, lz4));
        }
        return;
      }
      AfterAfter(done, out.bytes, ReconStream(recon, i + 1, fetch, lz4));
      done := done + out.bytes;
      i := i + 1;
    }
    AfterEnd(done);
    error := None;
  }

  lemma PrefixStays(before: seq<Byte>, after: seq<Byte>, out: Output, rest: Output)
    requires before <= after <= before + out.bytes
    ensures before <= after <= before + (out.bytes + rest.bytes)
  {
    assert before + (out.bytes + rest.bytes) == (before + out.bytes) + rest.bytes;
  }

  // Files written as xorbs.

  /** How the data of a chunk is stored: as it is, as an LZ4 frame, or grouped by four bytes and then so. */
  datatype Storage = Plain | Framed | GroupedAndFramed

  datatype Piece = Piece(data: seq<Byte>, storage: Storage)

  type Compress = seq<Byte> -> seq<Byte>

  function Written(p: Piece, compress: Compress): Chunk {
    match p.storage
    case Plain => Chunk(ChunkHeader(0, |p.data|, 0, |p.data|), p.data)
    case Framed =>
      var frame := compress(p.data);
      Chunk(ChunkHeader(0, |frame|, 1, |p.data|), frame)
    case GroupedAndFramed =>
      var frame := compress(Grouped(Padded(p.data)));
      Chunk(ChunkHeader(0, |frame|, 2, |p.data|), frame)
  }

  /** The decoder undoes the encoder. */
  ghost predicate Undoes(lz4: Lz4, compress: Compress) {
    forall data: seq<Byte> :: lz4(compress(data)) == Some(data)
  }

  lemma WrittenDecompresses(p: Piece, compress: Compress, lz4: Lz4)
    requires Undoes(lz4, compress)
    ensures Decompressed(Written(p, compress), lz4) == Ok(p.data)
  {
    if p.storage == GroupedAndFramed {
      GroupedChunkDecompresses(p.data, compress, lz4);
    }
  }

  function AllWritten(ps: seq<Piece>, compress: Compress): seq<Chunk> {
    seq(|ps|, i requires 0 <= i < |ps| => Written(ps[i], compress))
  }

  function DataOf(ps: seq<Piece>): seq<Byte> {
    if ps == [] then [] else ps[0].data + DataOf(ps[1..])
  }

  /** Every piece fits the sizes of a chunk header. */
  predicate AllFit(ps: seq<Piece>, compress: Compress) {
    forall i | 0 <= i < |ps| :: WellFormed(Written(ps[i], compress))
  }

  lemma {:induction false} JoinedIsData(ps: seq<Piece>, compress: Compress, lz4: Lz4)
    requires Undoes(lz4, compress)
    ensures Joined(AllWritten(ps, compress), lz4) == Ok(DataOf(ps))
  {
    hide Decompressed;
    hide Written;
    hide Undoes;
    if ps != [] {
      WrittenDecompresses(ps[0], compress, lz4);
      JoinedIsData(ps[1..], compress, lz4);
      assert AllWritten(ps, compress)[1..] == AllWritten(ps[1..], compress);
    }
  }

  lemma {:induction false} EncodeOfBoth(a: seq<Chunk>, b: seq<Chunk>)
    ensures Encode(a + b) == Encode(a) + Encode(b)
  {
    hide Serialized;
    if a == [] {
      assert a + b == b;
    } else {
      EncodeOfBoth(a[1..], b);
      assert (a + b)[1..] == a[1..] + b;
      assert Encode(a + b) == (Serialized(a[0].header) + a[0].payload) + (Encode(a[1..]) + Encode(b));
    }
  }

  /** Where the chunks from one on up to another lie. */
  lemma SliceOfEncoding(cs: seq<Chunk>, first: nat, last: nat)
    requires first <= last <= |cs|
    ensures |Encode(cs[..first])| <= |Encode(cs[..last])| <= |Encode(cs)|
    ensures Encode(cs)[|Encode(cs[..first])|..|Encode(cs[..last])|] == Encode(cs[first..last])
  {
    hide Encode;
    EncodeOfBoth(cs[..first], cs[first..last]);
    EncodeOfBoth(cs[..last], cs[last..]);
    assert cs[..first] + cs[first..last] == cs[..last] && cs[..last] + cs[last..] == cs;
  }

  /** One pass over written pieces returns their data. */
  lemma StreamOfWritten(ps: seq<Piece>, compress: Compress, lz4: Lz4)
    requires Undoes(lz4, compress) && AllFit(ps, compress)
    ensures Stream(Encode(AllWritten(ps, compress)), 0, lz4) == Output(DataOf(ps), None)
  {
    var cs := AllWritten(ps, compress);
    var d := Encode(cs);
    assert [] + (d + []) == d;
    ChunksOfEncoding(d, [], cs, []);
    var n := StreamIsChunkAligned(d, 0, lz4);
    if n < |cs| {
      WrittenDecompresses(ps[n], compress, lz4);
    }
    assert cs[..|cs|] == cs;
    JoinedIsData(ps, compress, lz4);
  }

  /** Some pieces of a xorb, which a term names by the bytes they take. */
  datatype Span = Span(hash: string, first: nat, last: nat)

  type Xorbs = map<string, seq<Piece>>

  predicate InXorb(xorbs: Xorbs, span: Span) {
    span.hash in xorbs && span.first <= span.last <= |xorbs[span.hash]|
  }

  function TermOf(xorbs: Xorbs, span: Span, compress: Compress): Term
    requires InXorb(xorbs, span)
  {
    var cs := AllWritten(xorbs[span.hash], compress);
    Term(span.hash, |Encode(cs[..span.first])|, |Encode(cs[..span.last])|)
  }

  function SpanData(xorbs: Xorbs, span: Span): seq<Byte>
    requires InXorb(xorbs, span)
  {
    DataOf(xorbs[span.hash][span.first..span.last])
  }

  /** The data of the spans from `i` on. */
  function FileOf(xorbs: Xorbs, spans: seq<Span>, i: nat): seq<Byte>
    requires i <= |spans| && forall k | 0 <= k < |spans| :: InXorb(xorbs, spans[k])
    decreases |spans| - i
  {
    if i == |spans| then [] else SpanData(xorbs, spans[i]) + FileOf(xorbs, spans, i + 1)
  }

  /** A term's first fetch info delivers the whole xorb, whatever lies behind it in memory. */
  predicate Delivers<Info>(recon: Recon<Info>, fetch: Info -> Option<Buffer>, xorbs: Xorbs, span: Span, t: Term,
      compress: Compress)
  {
    && InXorb(xorbs, span) && AllFit(xorbs[span.hash], compress) && t == TermOf(xorbs, span, compress)
    && t.hash in recon.fetchInfo && recon.fetchInfo[t.hash] != []
    && match fetch(recon.fetchInfo[t.hash][0])
       case None => false
       case Some(d) => d.data == Encode(AllWritten(xorbs[span.hash], compress))
  }

  lemma TermOfSpan<Info>(recon: Recon<Info>, fetch: Info -> Option<Buffer>, xorbs: Xorbs, span: Span, t: Term,
      compress: Compress, lz4: Lz4)
    requires Undoes(lz4, compress) && Delivers(recon, fetch, xorbs, span, t, compress)
    ensures TermStream(recon, t, fetch, lz4) == Output(SpanData(xorbs, span), None)
  {
    var ps, d := xorbs[span.hash], Fetched(recon, t, fetch).value;
    var some := ps[span.first..span.last];
    RangeOfSpan(d, ps, span.first, span.last, t, compress, lz4);
    assert AllFit(some, compress);
    StreamOfWritten(some, compress, lz4);
    hide RangeStream;
    hide Stream;
    hide Encode;
    hide AllWritten;
    hide Undoes;
  }

  lemma RangeOfSpan(d: Buffer, ps: seq<Piece>, first: nat, last: nat, t: Term, compress: Compress, lz4: Lz4)
    requires first <= last <= |ps| && d.data == Encode(AllWritten(ps, compress))
    requires t.start == |Encode(AllWritten(ps, compress)[..first])| && t.end == |Encode(AllWritten(ps, compress)[..last])|
    ensures RangeStream(d, t, lz4) == Stream(Encode(AllWritten(ps[first..last], compress)), 0, lz4)
  {
    var cs := AllWritten(ps, compress);
    assert cs[first..last] == AllWritten(ps[first..last], compress);
    hide Stream;
    hide Encode;
    hide AllWritten;
    SliceOfEncoding(cs, first, last);
    assert (d.data + d.spare)[t.start..t.end] == d.data[t.start..t.end];
  }

  /** What was written as xorbs, by any of the three methods, is reconstructed from its terms. */
  lemma {:induction false} WrittenIsReconstructed<Info>(recon: Recon<Info>, i: nat, fetch: Info -> Option<Buffer>,
      xorbs: Xorbs, spans: seq<Span>, compress: Compress, lz4: Lz4)
    requires Undoes(lz4, compress) && |spans| == |recon.terms| && i <= |spans|
    requires forall k | 0 <= k < |spans| :: Delivers(recon, fetch, xorbs, spans[k], recon.terms[k], compress)
    ensures forall k | 0 <= k < |spans| :: InXorb(xorbs, spans[k])
    ensures ReconStream(recon, i, fetch, lz4) == Output(FileOf(xorbs, spans, i), None)
    decreases |spans| - i
  {
    if i < |spans| {
      TermOfSpan(recon, fetch, xorbs, spans[i], recon.terms[i], compress, lz4);
      WrittenIsReconstructed(recon, i + 1, fetch, xorbs, spans, compress, lz4);
      hide TermStream;
      hide Fetched;
      hide SpanData;
      hide Undoes;
    }
  }
}
