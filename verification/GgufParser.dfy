/**
 The streaming GGUF parser: a reader that only moves forward, and the functions that drain it.
 Each is proved to return what the grammar finds at the position it started from, and to report
 exactly the number of bytes by which it moved the reader.
 */
module GgufParser {
  import opened Bytes
  import opened Options
  import opened GgufGrammar

  /** A buffered reader over the bytes of a file. */
  class Reader {
    const data: seq<Byte>
    var pos: nat

    constructor (data: seq<Byte>)
      ensures this.data == data && pos == 0
    {
      this.data := data;
      pos := 0;
    }

    ghost predicate Valid()
      reads this
    {
      pos <= |data|
    }

    /** `io.ReadFull`: all `n` bytes, or an error once the input is exhausted. */
    method ReadFull(n: nat) returns (r: Parsed<seq<Byte>>)
      requires Valid()
      modifies this
      ensures Valid()
      ensures r == BytesAt(data, old(pos), n)
      ensures pos == if r.Ok? then r.next else |data|
    {
      r := BytesAt(data, pos, n);
      pos := if r.Ok? then r.next else |data|;
    }

    /** `binary.Read` of a little-endian unsigned integer. */
    method ReadUint(width: nat) returns (r: Parsed<nat>)
      requires Valid()
      modifies this
      ensures Valid()
      ensures r == UintAt(data, old(pos), width)
      ensures pos == if r.Ok? then r.next else |data|
    {
      var buf := ReadFull(width);
      match buf
      case Ok(bytes, next) => r := Ok(LittleEndian(bytes), next);
      case Err(e) => r := Err(e);
    }
  }

  /**
   What a Go parsing function returns: a value, the number of bytes it says it consumed, and an
   error. The count means nothing when there is an error.
   */
  datatype Read<+T> = Done(value: T, n: int) | Failed(error: Error)

  /** `r` is what the grammar finds at `p`, and its byte count is where the grammar ends. */
  predicate Matches<T(==)>(r: Read<T>, spec: Parsed<T>, p: nat) {
    match r
    case Done(v, n) => spec.Ok? && spec.value == v && spec.next == p + n
    case Failed(e) => spec == Err(e)
  }

  /** On success the reader has moved from `p` by exactly the number of bytes reported. */
  ghost predicate Moved<T>(r: Reader, p: nat, read: Read<T>)
    reads r
  {
    r.Valid() && (read.Done? ==> r.pos == p + read.n)
  }

  method ReadString(r: Reader) returns (s: Read<seq<Byte>>)
    requires r.Valid()
    modifies r
    ensures Moved(r, old(r.pos), s)
    ensures Matches(s, StringAt(r.data, old(r.pos)), old(r.pos))
  {
    var length := r.ReadUint(8);
    if length.Err? {
      return Failed(length.error);
    }
    if length.value > MAX_STRING {
      return Failed(StringTooLong);
    }
    var buf := r.ReadFull(length.value);
    if buf.Err? {
      return Failed(buf.error);
    }
    s := Done(buf.value, 8 + length.value);
  }

  method SkipMetadataValue(r: Reader, t: nat) returns (s: Read<()>)
    requires r.Valid()
    modifies r
    ensures Moved(r, old(r.pos), s)
    ensures Matches(s, SkipAt(r.data, old(r.pos), t), old(r.pos))
    decreases |r.data| - r.pos
  {
    if ScalarWidth(t) > 0 {
      var buf := r.ReadFull(ScalarWidth(t));
      return if buf.Ok? then Done((), ScalarWidth(t)) else Failed(buf.error);
    } else if t == STRING {
      var str := ReadString(r);
      return if str.Done? then Done((), str.n) else Failed(str.error);
    } else if t != ARRAY {
      return Failed(UnknownType);
    }
    var element := r.ReadUint(4);
    if element.Err? {
      return Failed(element.error);
    }
    var count := r.ReadUint(8);
    if count.Err? {
      return Failed(count.error);
    }
    if count.value > MAX_ARRAY {
      return Failed(ArrayTooLong);
    }
    var totalRead := 12;
    var i := 0;
    while i < count.value
      invariant i <= count.value
      invariant r.Valid() && totalRead >= 12 && r.pos == old(r.pos) + totalRead
      invariant SkipElementsAt(r.data, old(r.pos) + 12, element.value, count.value)
             == SkipElementsAt(r.data, r.pos, element.value, count.value - i)
    {
      var item := SkipMetadataValue(r, element.value);
      if item.Failed? {
        return Failed(item.error);
      }
      totalRead := totalRead + item.n;
      i := i + 1;
    }
    s := Done((), totalRead);
  }

  method ReadMetadataValue(r: Reader, t: nat) returns (v: Read<Option<nat>>)
    requires r.Valid()
    modifies r
    ensures Moved(r, old(r.pos), v)
    ensures Matches(v, ValueAt(r.data, old(r.pos), t), old(r.pos))
  {
    if t == UINT32 {
      var u := r.ReadUint(4);
      v := if u.Ok? then Done(Some(u.value), 4) else Failed(u.error);
    } else if t == UINT64 {
      var u := r.ReadUint(8);
      v := if u.Ok? then Done(Some(u.value), 8) else Failed(u.error);
    } else {
      var s := SkipMetadataValue(r, t);
      v := if s.Done? then Done(None, s.n) else Failed(s.error);
    }
  }

  /** One turn of the metadata loop: a key, a value type, and the value, kept only for the alignment key. */
  method ReadPair(r: Reader, alignment: nat) returns (a: Read<nat>)
    requires r.Valid()
    modifies r
    ensures Moved(r, old(r.pos), a)
    ensures Matches(a, PairAt(r.data, old(r.pos), alignment), old(r.pos))
  {
    var key := ReadString(r);
    if key.Failed? {
      return Failed(key.error);
    }
    var valueType := r.ReadUint(4);
    if valueType.Err? {
      return Failed(valueType.error);
    }
    if key.value == ALIGNMENT_KEY {
      var value := ReadMetadataValue(r, valueType.value);
      if value.Failed? {
        return Failed(value.error);
      }
      a := Done(if value.value.Some? then value.value.value else alignment, key.n + 4 + value.n);
    } else {
      var skipped := SkipMetadataValue(r, valueType.value);
      if skipped.Failed? {
        return Failed(skipped.error);
      }
      a := Done(alignment, key.n + 4 + skipped.n);
    }
  }

  lemma MetadataStep(d: seq<Byte>, p: nat, count: nat, alignment: nat)
    requires p <= |d|
    ensures count == 0 ==> MetadataAt(d, p, count, alignment) == Ok(alignment, p)
    ensures count > 0 && PairAt(d, p, alignment).Err? ==>
      MetadataAt(d, p, count, alignment) == Err(PairAt(d, p, alignment).error)
    ensures count > 0 && PairAt(d, p, alignment).Ok? ==>
      MetadataAt(d, p, count, alignment)
      == MetadataAt(d, PairAt(d, p, alignment).next, count - 1, PairAt(d, p, alignment).value)
  {
    hide PairAt;
  }

  method ParseMetadata(r: Reader, count: nat) returns (m: Read<nat>)
    requires r.Valid()
    modifies r
    ensures Moved(r, old(r.pos), m)
    ensures Matches(m, MetadataAt(r.data, old(r.pos), count, DEFAULT_ALIGNMENT), old(r.pos))
  {
    hide PairAt;
    hide MetadataAt;
    var alignment: nat := DEFAULT_ALIGNMENT;
    var bytesRead := 0;
    var i := 0;
    while i < count
      invariant i <= count
      invariant r.Valid() && r.pos == old(r.pos) + bytesRead
      invariant MetadataAt(r.data, old(r.pos), count, DEFAULT_ALIGNMENT)
             == MetadataAt(r.data, r.pos, count - i, alignment)
    {
      MetadataStep(r.data, r.pos, count - i, alignment);
      var pair := ReadPair(r, alignment);
      if pair.Failed? {
        return Failed(pair.error);
      }
      alignment := pair.value;
      bytesRead := bytesRead + pair.n;
      i := i + 1;
    }
    MetadataStep(r.data, r.pos, 0, alignment);
    m := Done(alignment, bytesRead);
  }

  method ReadDims(r: Reader, count: nat) returns (dims: Read<seq<nat>>)
    requires r.Valid()
    modifies r
    ensures Moved(r, old(r.pos), dims)
    ensures Matches(dims, DimsAt(r.data, old(r.pos), count, []), old(r.pos))
  {
    var table := new nat[count];
    var d := 0;
    assert table[..0] == [];
    while d < count
      invariant d <= count
      invariant r.Valid() && r.pos == old(r.pos) + 8 * d
      invariant DimsAt(r.data, old(r.pos), count, []) == DimsAt(r.data, r.pos, count - d, table[..d])
    {
      ghost var done := table[..d];
      var dim := r.ReadUint(8);
      if dim.Err? {
        return Failed(dim.error);
      }
      table[d] := dim.value;
      assert table[..d + 1] == done + [dim.value];
      d := d + 1;
    }
    assert table[..count] == table[..];
    dims := Done(table[..], 8 * count);
  }

  method ParseTensorInfo(r: Reader) returns (t: Read<TensorInfo>)
    requires r.Valid()
    modifies r
    ensures Moved(r, old(r.pos), t)
    ensures Matches(t, TensorAt(r.data, old(r.pos)), old(r.pos))
  {
    var name := ReadString(r);
    if name.Failed? {
      return Failed(name.error);
    }
    var nDims := r.ReadUint(4);
    if nDims.Err? {
      return Failed(nDims.error);
    }
    if nDims.value > MAX_DIMS {
      return Failed(TooManyDimensions);
    }
    var dims := ReadDims(r, nDims.value);
    if dims.Failed? {
      return Failed(dims.error);
    }
    var typeId := r.ReadUint(4);
    if typeId.Err? {
      return Failed(typeId.error);
    }
    var offset := r.ReadUint(8);
    if offset.Err? {
      return Failed(offset.error);
    }
    t := Done(TensorInfo(name.value, dims.value, typeId.value, offset.value),
              name.n + 4 + dims.n + 4 + 8);
  }

  lemma TensorsStep(d: seq<Byte>, p: nat, count: nat, done: seq<TensorInfo>)
    requires p <= |d|
    ensures count == 0 ==> TensorsAt(d, p, count, done) == Ok(done, p)
    ensures count > 0 && TensorAt(d, p).Err? ==> TensorsAt(d, p, count, done) == Err(TensorAt(d, p).error)
    ensures count > 0 && TensorAt(d, p).Ok? ==>
      TensorsAt(d, p, count, done) == TensorsAt(d, TensorAt(d, p).next, count - 1, done + [TensorAt(d, p).value])
  {
    hide TensorAt;
  }

  method ParseTensorInfos(r: Reader, count: nat) returns (ts: Read<seq<TensorInfo>>)
    requires r.Valid()
    modifies r
    ensures Moved(r, old(r.pos), ts)
    ensures Matches(ts, TensorsAt(r.data, old(r.pos), count, []), old(r.pos))
  {
    hide TensorAt;
    hide TensorsAt;
    var tensors := new TensorInfo[count];
    var bytesRead := 0;
    var i := 0;
    assert tensors[..0] == [];
    while i < count
      invariant i <= count
      invariant r.Valid() && r.pos == old(r.pos) + bytesRead
      invariant TensorsAt(r.data, old(r.pos), count, []) == TensorsAt(r.data, r.pos, count - i, tensors[..i])
    {
      ghost var done := tensors[..i];
      TensorsStep(r.data, r.pos, count - i, done);
      var t := ParseTensorInfo(r);
      if t.Failed? {
        return Failed(t.error);
      }
      tensors[i] := t.value;
      assert tensors[..i + 1] == done + [t.value];
      bytesRead := bytesRead + t.n;
      i := i + 1;
    }
    assert tensors[..count] == tensors[..];
    TensorsStep(r.data, r.pos, 0, tensors[..]);
    ts := Done(tensors[..], bytesRead);
  }

  method ReadFileHeader(r: Reader) returns (h: Parsed<Header>)
    requires r.Valid() && r.pos == 0
    modifies r
    ensures r.Valid() && (h.Ok? ==> r.pos == 24)
    ensures h == HeaderAt(r.data)
  {
    var magic := r.ReadFull(4);
    if magic.Err? {
      return Err(magic.error);
    }
    if magic.value != MAGIC {
      return Err(BadMagic);
    }
    var version := r.ReadUint(4);
    if version.Err? {
      return Err(version.error);
    }
    if version.value < 2 || version.value > 4 {
      return Err(BadVersion);
    }
    var tensorCount := r.ReadUint(8);
    if tensorCount.Err? {
      return Err(tensorCount.error);
    }
    var metadataCount := r.ReadUint(8);
    if metadataCount.Err? {
      return Err(metadataCount.error);
    }
    if tensorCount.value > MAX_COUNT {
      return Err(TooManyTensors);
    }
    if metadataCount.value > MAX_COUNT {
      return Err(TooManyMetadata);
    }
    h := Ok(Header(version.value, tensorCount.value, metadataCount.value), 24);
  }

  /** The parsing half of `validateGGUFHeader`: header, metadata and tensor table, with the byte total. */
  method ParseFile(d: seq<Byte>) returns (f: Read<Contents>)
    ensures Matches(f, FileAt(d), 0)
  {
    var r := new Reader(d);
    var header := ReadFileHeader(r);
    if header.Err? {
      return Failed(header.error);
    }
    var bytesRead := 24;
    var alignment := ParseMetadata(r, header.value.metadataCount);
    if alignment.Failed? {
      return Failed(alignment.error);
    }
    bytesRead := bytesRead + alignment.n;
    var tensors := ParseTensorInfos(r, header.value.tensorCount);
    if tensors.Failed? {
      return Failed(tensors.error);
    }
    bytesRead := bytesRead + tensors.n;
    f := Done(Contents(alignment.value, tensors.value), bytesRead);
  }
}
