/**
 The GGUF header as a grammar: what is stored at a position of a byte string. Every function
 returns the value and the position just after it, or the first error met from the left.
 */
module GgufGrammar {
  import opened Bytes
  import opened Options

  datatype Error =
    | Eof
    | BadMagic
    | BadVersion
    | TooManyTensors
    | TooManyMetadata
    | StringTooLong
    | ArrayTooLong
    | UnknownType
    | TooManyDimensions

  datatype Parsed<+T> = Ok(value: T, next: nat) | Err(error: Error) {
    predicate IsFailure() {
      Err?
    }

    function PropagateFailure<U>(): Parsed<U>
      requires Err?
    {
      Err(error)
    }

    function Extract(): (T, nat)
      requires Ok?
    {
      (value, next)
    }
  }

  const MAGIC: seq<Byte> := [0x47, 0x47, 0x55, 0x46]
  const MAX_STRING := 0x10_0000
  const MAX_ARRAY := 100_000_000
  const MAX_COUNT := 1_000_000
  const MAX_DIMS := 8
  const DEFAULT_ALIGNMENT := 32

  const UINT32 := 4
  const STRING := 8
  const ARRAY := 9
  const UINT64 := 10

  /** "general.alignment" */
  const ALIGNMENT_KEY: seq<Byte> :=
    [103, 101, 110, 101, 114, 97, 108, 46, 97, 108, 105, 103, 110, 109, 101, 110, 116]

  datatype Header = Header(version: nat, tensorCount: nat, metadataCount: nat)

  datatype TensorInfo = TensorInfo(name: seq<Byte>, dims: seq<nat>, typeId: nat, offset: nat)

  /** The bytes of a fixed-size scalar, or 0 for the types that are not one. */
  function ScalarWidth(t: nat): nat {
    if t == 0 || t == 1 || t == 7 then 1
    else if t == 2 || t == 3 then 2
    else if t == 4 || t == 5 || t == 6 then 4
    else if t == 10 || t == 11 || t == 12 then 8
    else 0
  }

  function BytesAt(d: seq<Byte>, p: nat, n: nat): (r: Parsed<seq<Byte>>)
    ensures r.Ok? ==> r.next == p + n <= |d|
  {
    if p + n <= |d| then Ok(d[p..p + n], p + n) else Err(Eof)
  }

  function UintAt(d: seq<Byte>, p: nat, width: nat): (r: Parsed<nat>)
    ensures r.Ok? ==> r.next == p + width <= |d|
  {
    if p + width <= |d| then Ok(LittleEndian(d[p..p + width]), p + width) else Err(Eof)
  }

  function StringAt(d: seq<Byte>, p: nat): (r: Parsed<seq<Byte>>)
    ensures r.Ok? ==> p + 8 <= r.next == p + 8 + |r.value| <= |d|
  {
    var (length, q) :- UintAt(d, p, 8);
    if length > MAX_STRING then Err(StringTooLong) else BytesAt(d, q, length)
  }

  /** A metadata value of type `t`; nested arrays recurse, and every value is at least one byte long. */
  function SkipAt(d: seq<Byte>, p: nat, t: nat): (r: Parsed<()>)
    requires p <= |d|
    ensures r.Ok? ==> p < r.next <= |d|
    decreases |d| - p, 0
  {
    if ScalarWidth(t) > 0 then
      if p + ScalarWidth(t) <= |d| then Ok((), p + ScalarWidth(t)) else Err(Eof)
    else if t == STRING then
      var (_, q) :- StringAt(d, p);
      Ok((), q)
    else if t == ARRAY then
      var (element, q) :- UintAt(d, p, 4);
      var (count, q') :- UintAt(d, q, 8);
      if count > MAX_ARRAY then Err(ArrayTooLong) else SkipElementsAt(d, q', element, count)
    else
      Err(UnknownType)
  }

  function SkipElementsAt(d: seq<Byte>, p: nat, element: nat, count: nat): (r: Parsed<()>)
    requires p <= |d|
    ensures r.Ok? ==> p <= r.next <= |d|
    decreases |d| - p, 1
  {
    if count == 0 then Ok((), p) else
    var (_, q) :- SkipAt(d, p, element);
    SkipElementsAt(d, q, element, count - 1)
  }

  /** A metadata value that is kept when it is a uint32 or a uint64. */
  function ValueAt(d: seq<Byte>, p: nat, t: nat): (r: Parsed<Option<nat>>)
    requires p <= |d|
    ensures r.Ok? ==> p < r.next <= |d|
  {
    if t == UINT32 || t == UINT64 then
      var (v, q) :- UintAt(d, p, ScalarWidth(t));
      Ok(Some(v), q)
    else
      var (_, q) :- SkipAt(d, p, t);
      Ok(None, q)
  }

  /** One key-value pair; the alignment in force after it is `alignment` unless the pair sets it. */
  function PairAt(d: seq<Byte>, p: nat, alignment: nat): (r: Parsed<nat>)
    ensures r.Ok? ==> p < r.next <= |d|
  {
    var (key, q) :- StringAt(d, p);
    var (t, q') :- UintAt(d, q, 4);
    if key == ALIGNMENT_KEY then
      var (v, q'') :- ValueAt(d, q', t);
      Ok(if v.Some? then v.value else alignment, q'')
    else
      var (_, q'') :- SkipAt(d, q', t);
      Ok(alignment, q'')
  }

  function MetadataAt(d: seq<Byte>, p: nat, count: nat, alignment: nat): (r: Parsed<nat>)
    requires p <= |d|
    ensures r.Ok? ==> p <= r.next <= |d|
    decreases count
  {
    if count == 0 then Ok(alignment, p) else
    var (a, q) :- PairAt(d, p, alignment);
    MetadataAt(d, q, count - 1, a)
  }

  /** The `count` dimensions still to come, after those in `done`. */
  function DimsAt(d: seq<Byte>, p: nat, count: nat, done: seq<nat>): (r: Parsed<seq<nat>>)
    requires p <= |d|
    ensures r.Ok? ==> r.next == p + 8 * count <= |d| && |r.value| == |done| + count
    decreases count
  {
    if count == 0 then Ok(done, p) else
    var (dim, q) :- UintAt(d, p, 8);
    DimsAt(d, q, count - 1, done + [dim])
  }

  function TensorAt(d: seq<Byte>, p: nat): (r: Parsed<TensorInfo>)
    ensures r.Ok? ==> p < r.next <= |d|
  {
    var (name, q) :- StringAt(d, p);
    var (nDims, q) :- UintAt(d, q, 4);
    if nDims > MAX_DIMS then Err(TooManyDimensions) else
    var (dims, q) :- DimsAt(d, q, nDims, []);
    var (typeId, q) :- UintAt(d, q, 4);
    var (offset, q) :- UintAt(d, q, 8);
    Ok(TensorInfo(name, dims, typeId, offset), q)
  }

  /** The `count` table entries still to come, after those in `done`. */
  function TensorsAt(d: seq<Byte>, p: nat, count: nat, done: seq<TensorInfo>): (r: Parsed<seq<TensorInfo>>)
    requires p <= |d|
    ensures r.Ok? ==> p <= r.next <= |d| && |r.value| == |done| + count
    decreases count
  {
    if count == 0 then Ok(done, p) else
    var (t, q) :- TensorAt(d, p);
    TensorsAt(d, q, count - 1, done + [t])
  }

  function HeaderAt(d: seq<Byte>): (r: Parsed<Header>)
    ensures r.Ok? ==> r.next == 24 <= |d|
  {
    var (magic, p) :- BytesAt(d, 0, 4);
    if magic != MAGIC then Err(BadMagic) else
    var (version, p) :- UintAt(d, p, 4);
    if version < 2 || version > 4 then Err(BadVersion) else
    var (tensorCount, p) :- UintAt(d, p, 8);
    var (metadataCount, p) :- UintAt(d, p, 8);
    if tensorCount > MAX_COUNT then Err(TooManyTensors) else
    if metadataCount > MAX_COUNT then Err(TooManyMetadata) else
    Ok(Header(version, tensorCount, metadataCount), p)
  }

  /** What the parser extracts: the alignment in force and the tensor table. */
  datatype Contents = Contents(alignment: nat, tensors: seq<TensorInfo>)

  function FileAt(d: seq<Byte>): (r: Parsed<Contents>)
    ensures r.Ok? ==> r.next <= |d|
  {
    var (header, p) :- HeaderAt(d);
    var (alignment, p) :- MetadataAt(d, p, header.metadataCount, DEFAULT_ALIGNMENT);
    var (tensors, p) :- TensorsAt(d, p, header.tensorCount, []);
    Ok(Contents(alignment, tensors), p)
  }
}
