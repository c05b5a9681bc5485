/**
 An independent writer for the GGUF header, and the two directions that connect it to the parser:
 every encoding is read back, and everything that is read is an encoding.
 */
module GgufEncoding {
  import opened Bytes
  import opened GgufGrammar
  import opened Options

  /** The thirteen types of metadata values; floats by their bits, a Boolean by whatever its byte is. */
  datatype Value =
    | Uint8(n: nat) | Int8(i: int) | Uint16(n: nat) | Int16(i: int) | Uint32(n: nat) | Int32(i: int)
    | Float32(bits: nat) | Boolean(byte: Byte)
    | Str(text: seq<Byte>)
    | Arr(element: nat, items: seq<Value>)
    | Uint64(n: nat) | Int64(i: int) | Float64(bits: nat)

  datatype Pair = Pair(key: seq<Byte>, value: Value)

  datatype File = File(version: nat, pairs: seq<Pair>, tensors: seq<TensorInfo>)

  /** A text in ASCII. */
  function Ascii(text: string): seq<Byte>
  {
    seq(|text|, i requires 0 <= i < |text| => text[i] as int % 256)
  }

  /** The number of a type, as the format has it. */
  function TypeOf(v: Value): nat {
    match v
    case Uint8(_) => 0
    case Int8(_) => 1
    case Uint16(_) => 2
    case Int16(_) => 3
    case Uint32(_) => 4
    case Int32(_) => 5
    case Float32(_) => 6
    case Boolean(_) => 7
    case Str(_) => 8
    case Arr(_, _) => 9
    case Uint64(_) => 10
    case Int64(_) => 11
    case Float64(_) => 12
  }

  /**
   Within the range of the type and the sanity limits: a megabyte a string, a hundred million items an
   array, all of the declared element type.
   */
  predicate WellFormed(v: Value) {
    match v
    case Uint8(n) => n < 256
    case Int8(i) => -128 <= i < 128
    case Uint16(n) => n < 65_536
    case Int16(i) => -32_768 <= i < 32_768
    case Uint32(n) => n < TWO_32
    case Int32(i) => -0x8000_0000 <= i < 0x8000_0000
    case Float32(bits) => bits < TWO_32
    case Boolean(_) => true
    case Str(text) => |text| <= 1024 * 1024
    case Arr(element, items) =>
      element < TWO_32 && |items| <= 100_000_000 && forall v | v in items :: WellFormed(v) && TypeOf(v) == element
    case Uint64(n) => n < TWO_64
    case Int64(i) => -TWO_63 <= i < TWO_63
    case Float64(bits) => bits < TWO_64
  }

  predicate WellFormedPair(pair: Pair) {
    |pair.key| <= 1024 * 1024 && WellFormed(pair.value)
  }

  predicate WellFormedTensor(t: TensorInfo) {
    && |t.name| <= 1024 * 1024 && |t.dims| <= 8
    && (forall i | 0 <= i < |t.dims| :: t.dims[i] < TWO_64)
    && t.typeId < TWO_32 && t.offset < TWO_64
  }

  predicate WellFormedFile(f: File) {
    && 2 <= f.version <= 4 && |f.pairs| <= 1_000_000 && |f.tensors| <= 1_000_000
    && (forall i | 0 <= i < |f.pairs| :: WellFormedPair(f.pairs[i]))
    && (forall i | 0 <= i < |f.tensors| :: WellFormedTensor(f.tensors[i]))
  }

  function EncodeString(s: seq<Byte>): seq<Byte> {
    ToLittleEndian(|s|, 8) + s
  }

  function Encode(v: Value): (e: seq<Byte>)
    decreases v, 1
  {
    match v
    case Uint8(n) => ToLittleEndian(n, 1)
    case Int8(i) => ToLittleEndian(i % 256, 1)
    case Uint16(n) => ToLittleEndian(n, 2)
    case Int16(i) => ToLittleEndian(i % 65_536, 2)
    case Uint32(n) => ToLittleEndian(n, 4)
    case Int32(i) => ToLittleEndian(i % TWO_32, 4)
    case Float32(bits) => ToLittleEndian(bits, 4)
    case Boolean(byte) => [byte]
    case Str(text) => EncodeString(text)
    case Arr(element, items) => ToLittleEndian(element, 4) + (ToLittleEndian(|items|, 8) + EncodeItems(items))
    case Uint64(n) => ToLittleEndian(n, 8)
    case Int64(i) => ToLittleEndian(i % TWO_64, 8)
    case Float64(bits) => ToLittleEndian(bits, 8)
  }

  function EncodeItems(items: seq<Value>): seq<Byte>
    decreases items, 0
  {
    if items == [] then [] else Encode(items[0]) + EncodeItems(items[1..])
  }

  function EncodePair(pair: Pair): seq<Byte> {
    EncodeString(pair.key) + (ToLittleEndian(TypeOf(pair.value), 4) + Encode(pair.value))
  }

  function EncodePairs(pairs: seq<Pair>): seq<Byte> {
    if pairs == [] then [] else EncodePair(pairs[0]) + EncodePairs(pairs[1..])
  }

  function EncodeDims(dims: seq<nat>): seq<Byte> {
    if dims == [] then [] else ToLittleEndian(dims[0], 8) + EncodeDims(dims[1..])
  }

  function EncodeTensor(t: TensorInfo): seq<Byte> {
    EncodeString(t.name) + (ToLittleEndian(|t.dims|, 4) + (EncodeDims(t.dims)
    + (ToLittleEndian(t.typeId, 4) + ToLittleEndian(t.offset, 8))))
  }

  function EncodeTensors(ts: seq<TensorInfo>): seq<Byte> {
    if ts == [] then [] else EncodeTensor(ts[0]) + EncodeTensors(ts[1..])
  }

  function EncodeHeader(f: File): (e: seq<Byte>)
    ensures |e| == 24
  {
    Ascii("GGUF") + (ToLittleEndian(f.version, 4) + (ToLittleEndian(|f.tensors|, 8) + ToLittleEndian(|f.pairs|, 8)))
  }

  function EncodeFile(f: File): seq<Byte> {
    EncodeHeader(f) + (EncodePairs(f.pairs) + EncodeTensors(f.tensors))
  }

  /** The alignment a pair sets: only a uint32 or uint64 under the alignment key counts. */
  function AlignmentAfterPair(pair: Pair, alignment: nat): nat {
    if pair.key != Ascii("general.alignment") then alignment else
    match pair.value
    case Uint32(n) => n
    case Uint64(n) => n
    case _ => alignment
  }

  /** The last alignment set by `pairs`, or `alignment` when none sets it. */
  function AlignmentAfter(pairs: seq<Pair>, alignment: nat): nat
    decreases |pairs|
  {
    if pairs == [] then alignment
    else AlignmentAfter(pairs[1..], AlignmentAfterPair(pairs[0], alignment))
  }

  /** `e` is what `d` holds at `p`. */
  predicate At(d: seq<Byte>, p: nat, e: seq<Byte>) {
    p + |e| <= |d| && d[p..p + |e|] == e
  }

  lemma AtSplit(d: seq<Byte>, p: nat, a: seq<Byte>, b: seq<Byte>)
    ensures At(d, p, a + b) <==> At(d, p, a) && At(d, p + |a|, b)
  {
    var ab := a + b;
    if At(d, p, ab) {
      assert a == ab[..|a|] && b == ab[|a|..];
    }
    if At(d, p, a) && At(d, p + |a|, b) {
      assert d[p..p + |ab|] == d[p..p + |a|] + d[p + |a|..p + |ab|];
    }
  }

  lemma UintIff(d: seq<Byte>, p: nat, w: nat, v: nat, q: nat)
    ensures UintAt(d, p, w) == Ok(v, q) <==> v < Pow256(w) && q == p + w && At(d, p, ToLittleEndian(v, w))
  {
    if p + w <= |d| {
      var s := d[p..p + w];
      LittleEndianBound(s);
      EncodeDecode(s);
      if v < Pow256(w) {
        DecodeEncode(v, w);
      }
    }
  }

  lemma StringIff(d: seq<Byte>, p: nat, s: seq<Byte>, q: nat)
    ensures StringAt(d, p) == Ok(s, q) <==> |s| <= 1024 * 1024 && q == p + 8 + |s| && At(d, p, EncodeString(s))
  {
    hide ToLittleEndian;
    Pow256Values();
    AtSplit(d, p, ToLittleEndian(|s|, 8), s);
    UintIff(d, p, 8, |s|, p + 8);
    if StringAt(d, p) == Ok(s, q) {
      var length := UintAt(d, p, 8);
      UintIff(d, p, 8, length.value, p + 8);
    }
  }

  /** A value's encoding is skipped exactly. */
  lemma {:induction false} SkipEncoded(d: seq<Byte>, p: nat, v: Value)
    requires WellFormed(v) && At(d, p, Encode(v))
    ensures SkipAt(d, p, TypeOf(v)) == Ok((), p + |Encode(v)|)
    decreases v, 1
  {
    match v
    case Str(text) =>
      StringIff(d, p, text, p + 8 + |text|);
    case Arr(element, items) =>
      Pow256Values();
      AtSplit(d, p, ToLittleEndian(element, 4), ToLittleEndian(|items|, 8) + EncodeItems(items));
      AtSplit(d, p + 4, ToLittleEndian(|items|, 8), EncodeItems(items));
      UintIff(d, p, 4, element, p + 4);
      UintIff(d, p + 4, 8, |items|, p + 12);
      SkipItemsEncoded(d, p + 12, element, items);
    case _ =>
  }

  lemma {:induction false} SkipItemsEncoded(d: seq<Byte>, p: nat, element: nat, items: seq<Value>)
    requires forall v | v in items :: WellFormed(v) && TypeOf(v) == element
    requires At(d, p, EncodeItems(items))
    ensures SkipElementsAt(d, p, element, |items|) == Ok((), p + |EncodeItems(items)|)
    decreases items, 0
  {
    if items != [] {
      AtSplit(d, p, Encode(items[0]), EncodeItems(items[1..]));
      SkipEncoded(d, p, items[0]);
      SkipItemsEncoded(d, p + |Encode(items[0])|, element, items[1..]);
    }
  }

  /** Every string of the right length is the encoding of a scalar. */
  lemma ScalarOf(t: nat, s: seq<Byte>) returns (v: Value)
    requires |s| == ScalarWidth(t) > 0
    ensures WellFormed(v) && TypeOf(v) == t && Encode(v) == s && !v.Str? && !v.Arr?
  {
    var n := LittleEndian(s);
    LittleEndianBound(s);
    EncodeDecode(s);
    Pow256Values();
    hide ToLittleEndian;
    hide LittleEndian;
    match t
    case 0 => v := Uint8(n);
    case 1 => v := Int8(if n < 128 then n else n - 256);
    case 2 => v := Uint16(n);
    case 3 => v := Int16(if n < 32_768 then n else n - 65_536);
    case 4 => v := Uint32(n);
    case 5 => v := Int32(if n < 0x8000_0000 then n else n - TWO_32);
    case 6 => v := Float32(n);
    case 7 => v := Boolean(s[0]);
    case 10 => v := Uint64(n);
    case 11 => v := Int64(if n < TWO_63 then n else n - TWO_64);
    case 12 => v := Float64(n);
  }

  /** Conversely, whatever is skipped as a value is the encoding of one. */
  lemma {:induction false} SkippedIsEncoding(d: seq<Byte>, p: nat, t: nat) returns (v: Value)
    requires p <= |d| && SkipAt(d, p, t).Ok?
    ensures WellFormed(v) && TypeOf(v) == t && At(d, p, Encode(v))
    decreases |d| - p, 0
  {
    if ScalarWidth(t) > 0 {
      v := ScalarOf(t, d[p..p + ScalarWidth(t)]);
    } else if t == STRING {
      var s := StringAt(d, p);
      StringIff(d, p, s.value, s.next);
      v := Str(s.value);
    } else {
      var element, count := UintAt(d, p, 4), UintAt(d, p + 4, 8);
      Pow256Values();
      UintIff(d, p, 4, element.value, p + 4);
      UintIff(d, p + 4, 8, count.value, p + 12);
      var items := SkippedItemsAreEncodings(d, p + 12, element.value, count.value);
      v := Arr(element.value, items);
      AtSplit(d, p + 4, ToLittleEndian(|items|, 8), EncodeItems(items));
      AtSplit(d, p, ToLittleEndian(element.value, 4), ToLittleEndian(|items|, 8) + EncodeItems(items));
    }
  }

  lemma {:induction false} SkippedItemsAreEncodings(d: seq<Byte>, p: nat, element: nat, count: nat)
    returns (items: seq<Value>)
    requires p <= |d| && SkipElementsAt(d, p, element, count).Ok?
    ensures |items| == count && forall v | v in items :: WellFormed(v) && TypeOf(v) == element
    ensures At(d, p, EncodeItems(items))
    decreases |d| - p, 1
  {
    if count == 0 {
      items := [];
    } else {
      var v := SkippedIsEncoding(d, p, element);
      SkipEncoded(d, p, v);
      var rest := SkippedItemsAreEncodings(d, p + |Encode(v)|, element, count - 1);
      items := [v] + rest;
      AtSplit(d, p, Encode(v), EncodeItems(rest));
    }
  }

  /** Reading a value for its content consumes exactly what skipping it does. */
  lemma ReadConsumesWhatSkipDoes(d: seq<Byte>, p: nat, t: nat)
    requires p <= |d|
    ensures ValueAt(d, p, t).Ok? <==> SkipAt(d, p, t).Ok?
    ensures ValueAt(d, p, t).Ok? ==> ValueAt(d, p, t).next == SkipAt(d, p, t).next
  {
  }

  /** The key and the magic bytes that the parser compares with are these texts. */
  lemma Names()
    ensures ALIGNMENT_KEY == Ascii("general.alignment") && MAGIC == Ascii("GGUF")
  {
  }

  /** A value is read as the number it is if it is an unsigned one of 32 or 64 bits. */
  lemma ValueEncoded(d: seq<Byte>, p: nat, v: Value)
    requires WellFormed(v) && At(d, p, Encode(v))
    ensures ValueAt(d, p, TypeOf(v))
         == Ok(match v case Uint32(n) => Some(n) case Uint64(n) => Some(n) case _ => None, p + |Encode(v)|)
  {
    Pow256Values();
    SkipEncoded(d, p, v);
    hide ToLittleEndian;
    hide LittleEndian;
    match v
    case Uint32(n) => UintIff(d, p, 4, n, p + 4);
    case Uint64(n) => UintIff(d, p, 8, n, p + 8);
    case _ =>
      hide SkipAt;
  }

  lemma PairEncoded(d: seq<Byte>, p: nat, pair: Pair, alignment: nat)
    requires WellFormedPair(pair) && At(d, p, EncodePair(pair))
    ensures PairAt(d, p, alignment) == Ok(AlignmentAfterPair(pair, alignment), p + |EncodePair(pair)|)
  {
    hide ToLittleEndian;
    hide StringAt;
    hide WellFormed;
    var Pair(key, v) := pair;
    var q := p + 8 + |key|;
    Pow256Values();
    AtSplit(d, p, EncodeString(key), ToLittleEndian(TypeOf(v), 4) + Encode(v));
    AtSplit(d, q, ToLittleEndian(TypeOf(v), 4), Encode(v));
    StringIff(d, p, key, q);
    UintIff(d, q, 4, TypeOf(v), q + 4);
    SkipEncoded(d, q + 4, v);
    ValueEncoded(d, q + 4, v);
    Names();
    hide SkipAt;
    hide ValueAt;
    hide Encode;
    hide Ascii;
  }

  lemma PairIsEncoding(d: seq<Byte>, p: nat, alignment: nat) returns (pair: Pair)
    requires PairAt(d, p, alignment).Ok?
    ensures WellFormedPair(pair) && At(d, p, EncodePair(pair))
  {
    hide ToLittleEndian;
    hide StringAt;
    hide WellFormed;
    var key := StringAt(d, p);
    StringIff(d, p, key.value, key.next);
    var t := UintAt(d, key.next, 4);
    UintIff(d, key.next, 4, t.value, t.next);
    var v := SkippedIsEncoding(d, t.next, t.value);
    pair := Pair(key.value, v);
    AtSplit(d, key.next, ToLittleEndian(t.value, 4), Encode(v));
    AtSplit(d, p, EncodeString(key.value), ToLittleEndian(t.value, 4) + Encode(v));
  }

  lemma {:induction false} PairsEncoded(d: seq<Byte>, p: nat, pairs: seq<Pair>, alignment: nat)
    requires forall i | 0 <= i < |pairs| :: WellFormedPair(pairs[i])
    requires At(d, p, EncodePairs(pairs))
    ensures MetadataAt(d, p, |pairs|, alignment)
         == Ok(AlignmentAfter(pairs, alignment), p + |EncodePairs(pairs)|)
    decreases |pairs|
  {
    hide PairAt;
    if pairs != [] {
      AtSplit(d, p, EncodePair(pairs[0]), EncodePairs(pairs[1..]));
      PairEncoded(d, p, pairs[0], alignment);
      PairsEncoded(d, p + |EncodePair(pairs[0])|, pairs[1..], AlignmentAfterPair(pairs[0], alignment));
    }
  }

  lemma {:induction false} PairsAreEncodings(d: seq<Byte>, p: nat, count: nat, alignment: nat)
    returns (pairs: seq<Pair>)
    requires p <= |d| && MetadataAt(d, p, count, alignment).Ok?
    ensures |pairs| == count && forall i | 0 <= i < |pairs| :: WellFormedPair(pairs[i])
    ensures At(d, p, EncodePairs(pairs))
    decreases count
  {
    hide PairAt;
    if count == 0 {
      pairs := [];
    } else {
      var pair := PairIsEncoding(d, p, alignment);
      PairEncoded(d, p, pair, alignment);
      var rest := PairsAreEncodings(d, p + |EncodePair(pair)|, count - 1, AlignmentAfterPair(pair, alignment));
      pairs := [pair] + rest;
      AtSplit(d, p, EncodePair(pair), EncodePairs(rest));
    }
  }

  lemma {:induction false} DimsEncoded(d: seq<Byte>, p: nat, dims: seq<nat>, done: seq<nat>)
    requires forall i | 0 <= i < |dims| :: dims[i] < TWO_64
    requires At(d, p, EncodeDims(dims))
    ensures DimsAt(d, p, |dims|, done) == Ok(done + dims, p + |EncodeDims(dims)|)
    decreases |dims|
  {
    if dims == [] {
      assert done + dims == done;
    } else {
      Pow256Values();
      AtSplit(d, p, ToLittleEndian(dims[0], 8), EncodeDims(dims[1..]));
      UintIff(d, p, 8, dims[0], p + 8);
      DimsEncoded(d, p + 8, dims[1..], done + [dims[0]]);
      assert done + [dims[0]] + dims[1..] == done + dims;
    }
  }

  lemma {:induction false} DimsAreEncodings(d: seq<Byte>, p: nat, count: nat, done: seq<nat>)
    returns (dims: seq<nat>)
    requires p <= |d| && DimsAt(d, p, count, done).Ok?
    ensures |dims| == count && forall i | 0 <= i < |dims| :: dims[i] < TWO_64
    ensures At(d, p, EncodeDims(dims))
    decreases count
  {
    if count == 0 {
      dims := [];
    } else {
      var dim := UintAt(d, p, 8);
      Pow256Values();
      UintIff(d, p, 8, dim.value, p + 8);
      var rest := DimsAreEncodings(d, p + 8, count - 1, done + [dim.value]);
      dims := [dim.value] + rest;
      AtSplit(d, p, ToLittleEndian(dim.value, 8), EncodeDims(rest));
    }
  }

  lemma TensorSplit(d: seq<Byte>, p: nat, t: TensorInfo)
    ensures var q := p + 8 + |t.name|;
      var q' := q + 4 + |EncodeDims(t.dims)|;
      At(d, p, EncodeTensor(t)) <==>
      (&& At(d, p, EncodeString(t.name)) && At(d, q, ToLittleEndian(|t.dims|, 4)) && At(d, q + 4, EncodeDims(t.dims))
       && At(d, q', ToLittleEndian(t.typeId, 4)) && At(d, q' + 4, ToLittleEndian(t.offset, 8)))
  {
    hide At;
    var q := p + 8 + |t.name|;
    var q' := q + 4 + |EncodeDims(t.dims)|;
    var tail := ToLittleEndian(t.typeId, 4) + ToLittleEndian(t.offset, 8);
    AtSplit(d, q', ToLittleEndian(t.typeId, 4), ToLittleEndian(t.offset, 8));
    AtSplit(d, q + 4, EncodeDims(t.dims), tail);
    AtSplit(d, q, ToLittleEndian(|t.dims|, 4), EncodeDims(t.dims) + tail);
    AtSplit(d, p, EncodeString(t.name), ToLittleEndian(|t.dims|, 4) + (EncodeDims(t.dims) + tail));
  }

  lemma TensorEncoded(d: seq<Byte>, p: nat, t: TensorInfo)
    requires WellFormedTensor(t) && At(d, p, EncodeTensor(t))
    ensures TensorAt(d, p) == Ok(t, p + |EncodeTensor(t)|)
  {
    hide StringAt;
    hide UintAt;
    hide DimsAt;
    hide At;
    var q := p + 8 + |t.name|;
    var q' := q + 4 + |EncodeDims(t.dims)|;
    Pow256Values();
    TensorSplit(d, p, t);
    StringIff(d, p, t.name, q);
    UintIff(d, q, 4, |t.dims|, q + 4);
    DimsEncoded(d, q + 4, t.dims, []);
    assert [] + t.dims == t.dims;
    UintIff(d, q', 4, t.typeId, q' + 4);
    UintIff(d, q' + 4, 8, t.offset, q' + 12);
  }

  lemma TensorIsEncoding(d: seq<Byte>, p: nat) returns (t: TensorInfo)
    requires TensorAt(d, p).Ok?
    ensures WellFormedTensor(t) && At(d, p, EncodeTensor(t))
  {
    hide StringAt;
    hide UintAt;
    hide DimsAt;
    hide At;
    Pow256Values();
    var name := StringAt(d, p);
    StringIff(d, p, name.value, name.next);
    var nDims := UintAt(d, name.next, 4);
    UintIff(d, name.next, 4, nDims.value, nDims.next);
    var dims := DimsAreEncodings(d, nDims.next, nDims.value, []);
    DimsEncoded(d, nDims.next, dims, []);
    var q' := nDims.next + |EncodeDims(dims)|;
    var typeId, offset := UintAt(d, q', 4), UintAt(d, q' + 4, 8);
    UintIff(d, q', 4, typeId.value, q' + 4);
    UintIff(d, q' + 4, 8, offset.value, q' + 12);
    t := TensorInfo(name.value, dims, typeId.value, offset.value);
    TensorSplit(d, p, t);
  }

  lemma {:induction false} TensorsEncoded(d: seq<Byte>, p: nat, ts: seq<TensorInfo>, done: seq<TensorInfo>)
    requires forall i | 0 <= i < |ts| :: WellFormedTensor(ts[i])
    requires At(d, p, EncodeTensors(ts))
    ensures TensorsAt(d, p, |ts|, done) == Ok(done + ts, p + |EncodeTensors(ts)|)
    decreases |ts|
  {
    hide TensorAt;
    hide EncodeTensor;
    hide WellFormedTensor;
    if ts == [] {
      assert done + ts == done;
    } else {
      AtSplit(d, p, EncodeTensor(ts[0]), EncodeTensors(ts[1..]));
      TensorEncoded(d, p, ts[0]);
      TensorsEncoded(d, p + |EncodeTensor(ts[0])|, ts[1..], done + [ts[0]]);
      assert done + [ts[0]] + ts[1..] == done + ts;
    }
  }

  lemma {:induction false} TensorsAreEncodings(d: seq<Byte>, p: nat, count: nat, done: seq<TensorInfo>)
    returns (ts: seq<TensorInfo>)
    requires p <= |d| && TensorsAt(d, p, count, done).Ok?
    ensures |ts| == count && forall i | 0 <= i < |ts| :: WellFormedTensor(ts[i])
    ensures At(d, p, EncodeTensors(ts))
    decreases count
  {
    hide TensorAt;
    hide EncodeTensor;
    hide WellFormedTensor;
    if count == 0 {
      ts := [];
    } else {
      var t := TensorIsEncoding(d, p);
      TensorEncoded(d, p, t);
      var rest := TensorsAreEncodings(d, p + |EncodeTensor(t)|, count - 1, done + [t]);
      ts := [t] + rest;
      AtSplit(d, p, EncodeTensor(t), EncodeTensors(rest));
    }
  }

  lemma HeaderSplit(d: seq<Byte>, f: File)
    ensures At(d, 0, EncodeHeader(f)) <==>
      (&& At(d, 0, Ascii("GGUF")) && At(d, 4, ToLittleEndian(f.version, 4))
       && At(d, 8, ToLittleEndian(|f.tensors|, 8)) && At(d, 16, ToLittleEndian(|f.pairs|, 8)))
  {
    var counts := ToLittleEndian(|f.tensors|, 8) + ToLittleEndian(|f.pairs|, 8);
    AtSplit(d, 8, ToLittleEndian(|f.tensors|, 8), ToLittleEndian(|f.pairs|, 8));
    AtSplit(d, 4, ToLittleEndian(f.version, 4), counts);
    AtSplit(d, 0, Ascii("GGUF"), ToLittleEndian(f.version, 4) + counts);
  }

  lemma HeaderIff(d: seq<Byte>, f: File)
    requires 2 <= f.version <= 4 && |f.pairs| <= 1_000_000 && |f.tensors| <= 1_000_000
    ensures HeaderAt(d) == Ok(Header(f.version, |f.tensors|, |f.pairs|), 24) <==> At(d, 0, EncodeHeader(f))
  {
    Names();
    Pow256Values();
    HeaderSplit(d, f);
    hide Ascii;
    UintIff(d, 4, 4, f.version, 8);
    UintIff(d, 8, 8, |f.tensors|, 16);
    UintIff(d, 16, 8, |f.pairs|, 24);
  }

  lemma FileSplit(d: seq<Byte>, f: File)
    ensures At(d, 0, EncodeFile(f)) <==>
      (&& At(d, 0, EncodeHeader(f)) && At(d, 24, EncodePairs(f.pairs))
       && At(d, 24 + |EncodePairs(f.pairs)|, EncodeTensors(f.tensors)))
  {
    AtSplit(d, 24, EncodePairs(f.pairs), EncodeTensors(f.tensors));
    AtSplit(d, 0, EncodeHeader(f), EncodePairs(f.pairs) + EncodeTensors(f.tensors));
  }

  /**
   Round trip: a written header, whatever follows it, is read back as the same tensors, the last
   alignment it sets (32 if none), and a header size equal to the encoded length.
   */
  lemma ParseOfEncoding(f: File, rest: seq<Byte>)
    requires WellFormedFile(f)
    ensures FileAt(EncodeFile(f) + rest)
         == Ok(Contents(AlignmentAfter(f.pairs, 32), f.tensors), |EncodeFile(f)|)
  {
    hide HeaderAt;
    hide MetadataAt;
    hide TensorsAt;
    hide EncodeHeader;
    hide EncodePairs;
    hide EncodeTensors;
    hide WellFormedPair;
    hide WellFormedTensor;
    hide AlignmentAfter;
    var d := EncodeFile(f) + rest;
    assert At(d, 0, EncodeFile(f));
    FileSplit(d, f);
    HeaderIff(d, f);
    PairsEncoded(d, 24, f.pairs, DEFAULT_ALIGNMENT);
    TensorsEncoded(d, 24 + |EncodePairs(f.pairs)|, f.tensors, []);
    assert [] + f.tensors == f.tensors;
  }

  /** Which header is refused for what: the magic first, then the version, then the counts, tensors before metadata. */
  lemma HeaderRefusedIff(d: seq<Byte>)
    ensures HeaderAt(d) == Err(BadMagic) <==> |d| >= 4 && d[..4] != Ascii("GGUF")
    ensures HeaderAt(d) == Err(BadVersion)
       <==> |d| >= 8 && d[..4] == Ascii("GGUF") && !(2 <= LittleEndian(d[4..8]) <= 4)
    ensures |d| >= 24 && d[..4] == Ascii("GGUF") && 2 <= LittleEndian(d[4..8]) <= 4 ==>
      && (HeaderAt(d) == Err(TooManyTensors) <==> LittleEndian(d[8..16]) > 1_000_000)
      && (HeaderAt(d) == Err(TooManyMetadata)
          <==> LittleEndian(d[8..16]) <= 1_000_000 && LittleEndian(d[16..24]) > 1_000_000)
    ensures |d| < 24 ==> HeaderAt(d).Err? && HeaderAt(d).error in {Eof, BadMagic, BadVersion}
  {
    Names();
    hide Ascii;
    hide LittleEndian;
  }

  /** The 24 bytes of an empty file, written out. */
  lemma SmallestFile()
    ensures FileAt([0x47, 0x47, 0x55, 0x46, 3, 0, 0, 0, 0, 0, 0, 0, 0, 0, 0, 0, 0, 0, 0, 0, 0, 0, 0, 0])
         == Ok(Contents(32, []), 24)
  {
    var d: seq<Byte> :=
      [0x47, 0x47, 0x55, 0x46, 3, 0, 0, 0, 0, 0, 0, 0, 0, 0, 0, 0, 0, 0, 0, 0, 0, 0, 0, 0];
    assert d + [] == d;
    SmallestIsEncoded(d);
    hide EncodeFile;
    ParseOfEncoding(File(3, [], []), []);
    hide *;
  }

  lemma SmallestIsEncoded(d: seq<Byte>)
    requires d == [0x47, 0x47, 0x55, 0x46, 3, 0, 0, 0] + seq(16, _ => 0)
    ensures EncodeFile(File(3, [], [])) == d
  {
    assert ToLittleEndian(0, 4) == [0, 0, 0, 0];
    assert ToLittleEndian(0, 8) == [0, 0, 0, 0] + ToLittleEndian(0, 4);
    assert ToLittleEndian(3, 4) == [3] + ToLittleEndian(0, 3);
    hide ToLittleEndian;
    assert Ascii("GGUF") == [0x47, 0x47, 0x55, 0x46];
  }

  /** The two tables after the header, as they were parsed. */
  lemma TablesAreEncodings(d: seq<Byte>, h: Header) returns (pairs: seq<Pair>, ts: seq<TensorInfo>)
    requires |d| >= 24 && FileAt(d).Ok? && HeaderAt(d) == Ok(h, 24)
    ensures |pairs| == h.metadataCount && (forall i | 0 <= i < |pairs| :: WellFormedPair(pairs[i]))
    ensures |ts| == h.tensorCount && (forall i | 0 <= i < |ts| :: WellFormedTensor(ts[i]))
    ensures At(d, 24, EncodePairs(pairs)) && At(d, 24 + |EncodePairs(pairs)|, EncodeTensors(ts))
  {
    hide HeaderAt;
    hide MetadataAt;
    hide TensorsAt;
    pairs := PairsAreEncodings(d, 24, h.metadataCount, DEFAULT_ALIGNMENT);
    PairsEncoded(d, 24, pairs, DEFAULT_ALIGNMENT);
    ts := TensorsAreEncodings(d, 24 + |EncodePairs(pairs)|, h.tensorCount, []);
  }

  lemma HeaderOf(d: seq<Byte>) returns (h: Header)
    requires FileAt(d).Ok?
    ensures |d| >= 24 && HeaderAt(d) == Ok(h, 24)
    ensures 2 <= h.version <= 4 && h.metadataCount <= 1_000_000 && h.tensorCount <= 1_000_000
  {
    hide MetadataAt;
    hide TensorsAt;
    h := HeaderAt(d).value;
  }

  lemma ParsedIsEncoding(d: seq<Byte>) returns (f: File)
    requires FileAt(d).Ok?
    ensures WellFormedFile(f) && EncodeFile(f) <= d
  {
    var h := HeaderOf(d);
    hide *;
    var pairs, ts := TablesAreEncodings(d, h);
    f := File(h.version, pairs, ts);
    AllWellFormed(f);
    HeaderIff(d, f);
    FileSplit(d, f);
    AtStart(d, EncodeFile(f));
  }

  lemma AllWellFormed(f: File)
    requires 2 <= f.version <= 4 && |f.pairs| <= 1_000_000 && |f.tensors| <= 1_000_000
    requires forall i | 0 <= i < |f.pairs| :: WellFormedPair(f.pairs[i])
    requires forall i | 0 <= i < |f.tensors| :: WellFormedTensor(f.tensors[i])
    ensures WellFormedFile(f)
  {
  }

  lemma AtStart(d: seq<Byte>, e: seq<Byte>)
    ensures At(d, 0, e) <==> e <= d
  {
  }

  /** The parser accepts exactly the inputs that begin with a well-formed header. */
  lemma AcceptsExactlyEncodings(d: seq<Byte>)
    ensures FileAt(d).Ok? <==> exists f: File :: WellFormedFile(f) && EncodeFile(f) <= d
  {
    hide FileAt;
    if FileAt(d).Ok? {
      var f := ParsedIsEncoding(d);
    }
    forall f: File | WellFormedFile(f) && EncodeFile(f) <= d
      ensures FileAt(d).Ok?
    {
      ParseOfEncoding(f, d[|EncodeFile(f)|..]);
      assert d == EncodeFile(f) + d[|EncodeFile(f)|..];
    }
  }
}
