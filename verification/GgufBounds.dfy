/**
 Tensor data sizes and the bounds check, once in the uint64/int64 arithmetic of the code and once
 in exact arithmetic, with the precise condition under which the two agree.
 */
module GgufBounds {
  import opened Bytes
  import opened Options
  import opened GgufGrammar
  import GgufParser
  import E = GgufEncoding

  datatype Quant = Quant(blockSize: nat, bytesPerBlock: nat)

  function QuantOf(typeId: nat): (q: Option<Quant>)
    ensures q.Some? ==> q.value.blockSize in {1, 32, 256} && 1 <= q.value.bytesPerBlock <= 210
  {
    match typeId
    case 0 => Some(Quant(1, 4))
    case 1 => Some(Quant(1, 2))
    case 2 => Some(Quant(32, 18))
    case 3 => Some(Quant(32, 20))
    case 6 => Some(Quant(32, 22))
    case 7 => Some(Quant(32, 24))
    case 8 => Some(Quant(32, 34))
    case 9 => Some(Quant(32, 40))
    case 10 => Some(Quant(256, 84))
    case 11 => Some(Quant(256, 110))
    case 12 => Some(Quant(256, 144))
    case 13 => Some(Quant(256, 176))
    case 14 => Some(Quant(256, 210))
    case 16 => Some(Quant(256, 66))
    case 17 => Some(Quant(256, 74))
    case 18 => Some(Quant(256, 98))
    case 19 => Some(Quant(256, 56))
    case 20 => Some(Quant(32, 18))
    case 21 => Some(Quant(256, 110))
    case 22 => Some(Quant(256, 82))
    case 23 => Some(Quant(256, 136))
    case 24 => Some(Quant(1, 1))
    case 25 => Some(Quant(1, 2))
    case 26 => Some(Quant(1, 4))
    case 27 => Some(Quant(1, 8))
    case 28 => Some(Quant(1, 8))
    case 29 => Some(Quant(256, 56))
    case 30 => Some(Quant(1, 2))
    case _ => None
  }

  /** The bits of a weight in a type's blocks, and the bytes of a block that are not weights. */
  function LayoutOf(typeId: nat): (nat, nat) {
    match typeId
    case 0 => (32, 0)  // F32
    case 1 => (16, 0)  // F16
    case 2 => (4, 2)   // Q4_0: a half-precision scale
    case 3 => (4, 4)   // Q4_1: scale and minimum
    case 6 => (5, 2)   // Q5_0
    case 7 => (5, 4)   // Q5_1
    case 8 => (8, 2)   // Q8_0
    case 9 => (8, 8)   // Q8_1: two single-precision numbers
    case 10 => (2, 20) // Q2_K: 16 packed scales and minima, two half-precision numbers
    case 11 => (3, 14) // Q3_K: 12 bytes of scales, one number
    case 12 => (4, 16) // Q4_K: 12 bytes of scales, two numbers
    case 13 => (5, 16) // Q5_K
    case 14 => (6, 18) // Q6_K: 16 scales, one number
    case 16 => (2, 2)  // IQ2_XXS
    case 17 => (2, 10) // IQ2_XS
    case 18 => (3, 2)  // IQ3_XXS
    case 19 => (1, 24) // IQ1_S
    case 20 => (4, 2)  // IQ4_NL
    case 21 => (3, 14) // IQ3_S
    case 22 => (2, 18) // IQ2_S
    case 23 => (4, 8)  // IQ4_XS
    case 24 => (8, 0)  // I8
    case 25 => (16, 0) // I16
    case 26 => (32, 0) // I32
    case 27 => (64, 0) // I64
    case 28 => (64, 0) // F64
    case 29 => (1, 24) // IQ1_M
    case 30 => (16, 0) // BF16
    case _ => (0, 0)
  }

  /** A known type's block holds its weights and the rest; types without a rest are not blocked. */
  lemma QuantIsLayout(typeId: nat)
    ensures QuantOf(typeId).Some? <==> LayoutOf(typeId).0 > 0
    ensures QuantOf(typeId).Some? ==>
      var (bits, rest), q := LayoutOf(typeId), QuantOf(typeId).value;
      && 8 * q.bytesPerBlock == bits * q.blockSize + 8 * rest
      && q.blockSize == if rest == 0 then 1 else if typeId < 10 || typeId == 20 then 32 else 256
  {
  }

  // Machine arithmetic.

  function MachineElements(dims: seq<nat>, acc: nat): nat
    decreases |dims|
  {
    if dims == [] then acc else MachineElements(dims[1..], U64(acc * dims[0]))
  }

  function MachineSize(dims: seq<nat>, q: Quant): nat
    requires q.blockSize > 0
  {
    if 0 in dims then 0
    else U64(U64(MachineElements(dims, 1) + q.blockSize - 1) / q.blockSize * q.bytesPerBlock)
  }

  function MachineStart(headerSize: int, alignment: nat): int {
    if alignment > 0 && U64(headerSize) % alignment != 0
    then I64(headerSize + I64(alignment - U64(headerSize) % alignment))
    else headerSize
  }

  function MachineEnd(start: int, t: TensorInfo, q: Quant): int
    requires q.blockSize > 0
  {
    I64(I64(start + I64(t.offset)) + I64(MachineSize(t.dims, q)))
  }

  /** The bounds check the code applies to one tensor: unknown types always pass. */
  predicate MachineFits(start: int, t: TensorInfo, fileSize: int) {
    QuantOf(t.typeId).Some? ==> MachineEnd(start, t, QuantOf(t.typeId).value) <= fileSize
  }

  method ComputeTensorDataSize(t: TensorInfo) returns (size: nat, known: bool)
    ensures known == QuantOf(t.typeId).Some?
    ensures size == if known then MachineSize(t.dims, QuantOf(t.typeId).value) else 0
  {
    var qinfo := QuantOf(t.typeId);
    if qinfo == None {
      return 0, false;
    }
    var q := qinfo.value;
    var numElements: nat := 1;
    var i := 0;
    while i < |t.dims|
      invariant i <= |t.dims| && 0 !in t.dims[..i]
      invariant MachineElements(t.dims, 1) == MachineElements(t.dims[i..], numElements)
    {
      var d := t.dims[i];
      if d == 0 {
        return 0, true;
      }
      numElements := U64(numElements * d);
      assert t.dims[i..][1..] == t.dims[i + 1..];
      i := i + 1;
    }
    assert t.dims[..i] == t.dims;
    var numBlocks := U64(numElements + q.blockSize - 1) / q.blockSize;
    size, known := U64(numBlocks * q.bytesPerBlock), true;
  }

  /** Reports the first tensor whose data ends beyond the file, if there is one. */
  method ValidateTensorBounds(tensors: seq<TensorInfo>, headerSize: int, alignment: nat, fileSize: int)
    returns (bad: Option<nat>)
    ensures var start := MachineStart(headerSize, alignment);
      match bad
      case None => forall i | 0 <= i < |tensors| :: MachineFits(start, tensors[i], fileSize)
      case Some(b) =>
        && b < |tensors| && !MachineFits(start, tensors[b], fileSize)
        && forall i | 0 <= i < b :: MachineFits(start, tensors[i], fileSize)
  {
    hide I64;
    hide U64;
    hide MachineSize;
    var tensorDataStart := headerSize;
    if alignment > 0 {
      var remainder := U64(tensorDataStart) % alignment;
      if remainder != 0 {
        tensorDataStart := I64(tensorDataStart + I64(alignment - remainder));
      }
    }
    hide MachineStart;
    var k := 0;
    while k < |tensors|
      invariant k <= |tensors|
      invariant forall i | 0 <= i < k :: MachineFits(tensorDataStart, tensors[i], fileSize)
    {
      var t := tensors[k];
      var dataSize, known := ComputeTensorDataSize(t);
      if known {
        var endOffset := I64(I64(tensorDataStart + I64(t.offset)) + I64(dataSize));
        if endOffset > fileSize {
          return Some(k);
        }
      }
      k := k + 1;
    }
    bad := None;
  }

  // Exact arithmetic.

  function Elements(dims: seq<nat>): nat {
    if dims == [] then 1 else dims[0] * Elements(dims[1..])
  }

  function Blocks(dims: seq<nat>, q: Quant): nat
    requires q.blockSize > 0
  {
    (Elements(dims) + q.blockSize - 1) / q.blockSize
  }

  function ExactSize(dims: seq<nat>, q: Quant): nat
    requires q.blockSize > 0
  {
    Blocks(dims, q) * q.bytesPerBlock
  }

  function ExactEnd(start: int, t: TensorInfo, q: Quant): int
    requires q.blockSize > 0
  {
    start + t.offset + ExactSize(t.dims, q)
  }

  ghost predicate LeastMultipleFrom(x: int, alignment: nat, low: int)
    requires alignment > 0
  {
    && low <= x && x % alignment == 0
    && forall y :: low <= y && y % alignment == 0 ==> x <= y
  }

  lemma U64Unique(a: int, r: nat, k: int)
    requires a == r + k * TWO_64 && r < TWO_64
    ensures U64(a) == r
  {
  }

  lemma U64Mul(a: nat, b: nat)
    ensures U64(U64(a) * b) == U64(a * b)
  {
    var k, j := a / TWO_64, (U64(a) * b) / TWO_64;
    calc {
      a * b;
      (k * TWO_64 + U64(a)) * b;
      k * b * TWO_64 + U64(a) * b;
      (k * b + j) * TWO_64 + U64(U64(a) * b);
    }
    U64Unique(a * b, U64(U64(a) * b), k * b + j);
  }

  lemma {:induction false} MachineElementsWrap(dims: seq<nat>, acc: nat)
    requires acc < TWO_64
    ensures MachineElements(dims, acc) == U64(acc * Elements(dims))
    decreases |dims|
  {
    hide U64;
    if dims != [] {
      var rest := Elements(dims[1..]);
      MachineElementsWrap(dims[1..], U64(acc * dims[0]));
      U64Mul(acc * dims[0], rest);
      MulAssociative(acc, dims[0], rest);
    } else {
      U64Unique(acc, acc, 0);
    }
  }

  lemma MulAssociative(a: nat, b: nat, c: nat)
    ensures a * b * c == a * (b * c)
  {
  }

  lemma {:induction false} ElementsZero(dims: seq<nat>)
    ensures 0 in dims <==> Elements(dims) == 0
  {
    if dims != [] {
      ElementsZero(dims[1..]);
      assert dims == [dims[0]] + dims[1..];
      if dims[0] > 0 && Elements(dims[1..]) > 0 {
        assert dims[0] * Elements(dims[1..]) > 0;
      }
    }
  }

  /** The element count, rounded up to whole blocks, stays below 2^64. */
  predicate CountFits(t: TensorInfo, q: Quant) {
    Elements(t.dims) + q.blockSize - 1 < TWO_64
  }

  /** With a count that fits, the machine size is the exact size reduced modulo 2^64. */
  lemma SizeWrap(t: TensorInfo, q: Quant)
    requires q.blockSize > 0 && CountFits(t, q)
    ensures MachineSize(t.dims, q) == U64(ExactSize(t.dims, q))
  {
    hide U64;
    hide Elements;
    hide MachineElements;
    var n := Elements(t.dims);
    ElementsZero(t.dims);
    MachineElementsWrap(t.dims, 1);
    U64Unique(n, n, 0);
    var count := n + q.blockSize - 1;
    U64Unique(count, count, 0);
    if n == 0 {
      assert count / q.blockSize == 0;
      U64Unique(0, 0, 0);
    }
  }

  lemma I64Add(a: int, b: int)
    ensures I64(a + I64(b)) == I64(a + b)
  {
  }

  lemma I64AddU64(a: int, b: int)
    ensures I64(a + U64(b)) == I64(a + b)
  {
  }

  lemma U64Add(a: int, b: int)
    ensures U64(U64(a) + b) == U64(a + b)
  {
  }

  lemma I64Exact(a: nat)
    ensures I64(a) == a <==> a < TWO_63
  {
  }

  /** The machine end is the start, the offset and the machine size, reduced once. */
  lemma EndWrap(start: nat, t: TensorInfo, q: Quant)
    requires q.blockSize > 0
    ensures MachineEnd(start, t, q) == I64(start + t.offset + MachineSize(t.dims, q))
  {
    hide I64;
    hide MachineSize;
    var size := MachineSize(t.dims, q);
    I64Add(start, t.offset);
    I64Add(I64(start + t.offset), size);
    I64Add(size, start + t.offset);
  }

  /** Then the machine end is the exact end reduced to int64, so the two agree iff the end is below 2^63. */
  lemma EndExactIff(start: nat, t: TensorInfo, q: Quant)
    requires q.blockSize > 0 && CountFits(t, q)
    ensures MachineEnd(start, t, q) == ExactEnd(start, t, q) <==> ExactEnd(start, t, q) < TWO_63
  {
    hide I64;
    hide U64;
    hide ExactSize;
    hide MachineSize;
    SizeWrap(t, q);
    EndWrap(start, t, q);
    I64AddU64(start + t.offset, ExactSize(t.dims, q));
    I64Exact(ExactEnd(start, t, q));
  }

  lemma BlocksWrap(x: nat, blockSize: nat)
    requires blockSize in {1, 32, 256} && x >= TWO_64
    ensures U64(x) / blockSize < x / blockSize
  {
    var k := x / TWO_64;
    assert x == U64(x) + k * TWO_64 && k >= 1;
  }

  /** A count that does not fit loses whole blocks, so the machine end falls short of the exact one. */
  lemma CountOverflowFallsShort(start: nat, t: TensorInfo, q: Quant)
    requires QuantOf(t.typeId) == Some(q)
    requires !CountFits(t, q) && ExactEnd(start, t, q) < TWO_63
    ensures MachineEnd(start, t, q) < ExactEnd(start, t, q)
  {
    MachineSizeFallsShort(t.dims, q);
    hide I64;
    hide ExactSize;
    hide MachineSize;
    EndWrap(start, t, q);
    I64Exact(start + t.offset + MachineSize(t.dims, q));
  }

  lemma MachineSizeFallsShort(dims: seq<nat>, q: Quant)
    requires q.blockSize in {1, 32, 256} && q.bytesPerBlock > 0
    requires Elements(dims) + q.blockSize - 1 >= TWO_64 && ExactSize(dims, q) < TWO_63
    ensures MachineSize(dims, q) < ExactSize(dims, q)
  {
    hide U64;
    hide MachineElements;
    var n := Elements(dims);
    var x := n + q.blockSize - 1;
    ElementsZero(dims);
    MachineElementsWrap(dims, 1);
    U64Add(n, q.blockSize - 1);
    BlocksWrap(x, q.blockSize);
    var blocks := U64(x) / q.blockSize;
    MulLess(blocks, Blocks(dims, q), q.bytesPerBlock);
    U64Unique(blocks * q.bytesPerBlock, blocks * q.bytesPerBlock, 0);
  }

  lemma MulLess(a: nat, b: nat, c: nat)
    requires a < b && c > 0
    ensures a * c < b * c
  {
  }

  /**
   When the check can be trusted: for one tensor of a known type, the code and exact arithmetic give
   the same verdict on every possible file size if and only if the element count fits in 64 bits and
   the data ends below 2^63.
   */
  lemma VerdictExactIff(start: nat, t: TensorInfo, q: Quant)
    requires QuantOf(t.typeId) == Some(q)
    ensures (forall size :: 0 <= size < TWO_63 ==>
               (MachineFits(start, t, size) <==> ExactEnd(start, t, q) <= size))
       <==> CountFits(t, q) && ExactEnd(start, t, q) < TWO_63
  {
    var machine, exact := MachineEnd(start, t, q), ExactEnd(start, t, q);
    if exact >= TWO_63 {
      assert MachineFits(start, t, TWO_63 - 1) && !(exact <= TWO_63 - 1);
    } else if CountFits(t, q) {
      EndExactIff(start, t, q);
    } else {
      CountOverflowFallsShort(start, t, q);
      var size := if machine < 0 then 0 else machine;
      assert exact > 0 by {
        assert Elements(t.dims) > 0;
        assert Blocks(t.dims, q) > 0 && ExactSize(t.dims, q) > 0;
      }
      assert MachineFits(start, t, size) && !(exact <= size);
    }
  }

  function RoundUp(x: nat, a: nat): nat
    requires a > 0
  {
    if x % a == 0 then x else x + a - x % a
  }

  /** The machine start is the rounded header size, wrapped. */
  lemma MachineStartRoundsUp(headerSize: nat, alignment: nat)
    requires headerSize < TWO_63 && alignment > 0
    ensures MachineStart(headerSize, alignment) == I64(RoundUp(headerSize, alignment))
  {
    hide U64;
    hide I64;
    U64Unique(headerSize, headerSize, 0);
    I64Exact(headerSize);
    DivMod(headerSize, alignment);
    I64Add(headerSize, alignment - headerSize % alignment);
  }

  lemma RoundUpLeast(x: nat, a: nat)
    requires a > 0
    ensures LeastMultipleFrom(RoundUp(x, a), a, x)
  {
    var k := x / a;
    DivMod(x, a);
    if x % a == 0 {
      LeastMultiple(k, a, x);
    } else {
      MulSucc(k, a);
      LeastMultiple(k + 1, a, x);
    }
  }

  /**
   The data start is the least multiple of the alignment not below the header size, if and only if that
   multiple is an int64.
   */
  lemma StartIsLeastMultiple(headerSize: nat, alignment: nat)
    requires headerSize < TWO_63
    ensures alignment == 0 ==> MachineStart(headerSize, alignment) == headerSize
    ensures alignment > 0 ==>
      (LeastMultipleFrom(MachineStart(headerSize, alignment), alignment, headerSize)
       <==> RoundUp(headerSize, alignment) < TWO_63)
  {
    if alignment > 0 {
      MachineStartRoundsUp(headerSize, alignment);
      RoundUpLeast(headerSize, alignment);
      I64Exact(RoundUp(headerSize, alignment));
      hide MachineStart;
      hide RoundUp;
      hide I64;
    }
  }

  lemma MulSucc(k: nat, a: nat)
    ensures (k + 1) * a == k * a + a
  {
  }

  lemma DivMod(x: nat, a: nat)
    requires a > 0
    ensures x == (x / a) * a + x % a && 0 <= x % a < a
  {
  }

  lemma LeastMultiple(k: nat, a: nat, low: nat)
    requires a > 0 && low <= k * a < low + a
    ensures LeastMultipleFrom(k * a, a, low)
  {
    MultipleMod(k, a);
    assert (k - 1) * a == k * a - a;
    forall y | low <= y && y % a == 0
      ensures k * a <= y
    {
      DivMod(y, a);
      MulMono(y / a, k - 1, a);
      MulMono(k, y / a, a);
    }
  }

  lemma MulMono(a: int, b: int, c: nat)
    ensures a <= b ==> a * c <= b * c
  {
  }

  lemma {:induction false} MultipleMod(k: nat, a: nat)
    requires a > 0
    ensures (k * a) % a == 0
  {
    if k > 0 {
      MultipleMod(k - 1, a);
      AddMod((k - 1) * a, a);
      assert (k - 1) * a + a == k * a;
    }
  }

  lemma AddMod(x: nat, a: nat)
    requires a > 0
    ensures (x + a) % a == x % a
  {
    var k, r := (x + a) / a - 1 - x / a, x % a - (x + a) % a;
    assert k * a == r;
    MulMono(1, if k > 0 then k else -k, a);
  }

  /** Every tensor of a known type is small enough for the machine arithmetic to be exact. */
  ghost predicate Sound(tensors: seq<TensorInfo>, start: int) {
    forall i | 0 <= i < |tensors| && QuantOf(tensors[i].typeId).Some? ::
      var q := QuantOf(tensors[i].typeId).value;
      CountFits(tensors[i], q) && ExactEnd(start, tensors[i], q) < TWO_63
  }

  /** Every tensor of a known type really ends within the file. */
  ghost predicate WithinFile(tensors: seq<TensorInfo>, start: int, fileSize: int) {
    forall i | 0 <= i < |tensors| && QuantOf(tensors[i].typeId).Some? ::
      ExactEnd(start, tensors[i], QuantOf(tensors[i].typeId).value) <= fileSize
  }

  datatype Verdict = Valid | Malformed(error: Error) | OutOfBounds(tensor: nat)

  /** `validateGGUFHeader`: parse, then check the bounds against the size the manifest promises. */
  method ValidateHeader(d: seq<Byte>, fileSize: int) returns (v: Verdict)
    ensures match FileAt(d)
      case Err(e) => v == Malformed(e)
      case Ok(Contents(alignment, tensors), headerSize) =>
        var start := MachineStart(headerSize, alignment);
        if start >= 0 && Sound(tensors, start)
        then v == Valid <==> WithinFile(tensors, start, fileSize)
        else v == Valid <==> forall i | 0 <= i < |tensors| :: MachineFits(start, tensors[i], fileSize)
  {
    hide FileAt;
    var f := GgufParser.ParseFile(d);
    if f.Failed? {
      return Malformed(f.error);
    }
    var bad := ValidateTensorBounds(f.value.tensors, f.n, f.value.alignment, fileSize);
    SoundVerdict(f.value.tensors, MachineStart(f.n, f.value.alignment), fileSize);
    v := if bad == None then Valid else OutOfBounds(bad.value);
  }

  /**
   For tables within the machine's range, acceptance means exactly that every known tensor ends
   within the file; so it is monotone in the file size, and cutting below any end is rejected.
   */
  lemma SoundVerdict(tensors: seq<TensorInfo>, start: int, fileSize: int)
    ensures start >= 0 && Sound(tensors, start) ==>
      ((forall i | 0 <= i < |tensors| :: MachineFits(start, tensors[i], fileSize))
       <==> WithinFile(tensors, start, fileSize))
  {
    if start >= 0 && Sound(tensors, start) {
      forall i | 0 <= i < |tensors|
        ensures MachineFits(start, tensors[i], fileSize)
           <==> (QuantOf(tensors[i].typeId).Some? ==>
                   ExactEnd(start, tensors[i], QuantOf(tensors[i].typeId).value) <= fileSize)
      {
        if QuantOf(tensors[i].typeId).Some? {
          EndExactIff(start, tensors[i], QuantOf(tensors[i].typeId).value);
        }
      }
    }
  }

  /** What the header check accepts: a well-formed header whose tensors all end within `size`. */
  ghost predicate HeaderValid(d: seq<Byte>, size: int) {
    match FileAt(d)
    case Err(_) => false
    case Ok(Contents(alignment, tensors), headerSize) =>
      forall i | 0 <= i < |tensors| :: MachineFits(MachineStart(headerSize, alignment), tensors[i], size)
  }

  lemma VerdictIsHeaderValid(d: seq<Byte>, size: int, v: Verdict)
    requires match FileAt(d)
      case Err(e) => v == Malformed(e)
      case Ok(Contents(alignment, tensors), headerSize) =>
        var start := MachineStart(headerSize, alignment);
        if start >= 0 && Sound(tensors, start)
        then v == Valid <==> WithinFile(tensors, start, size)
        else v == Valid <==> forall i | 0 <= i < |tensors| :: MachineFits(start, tensors[i], size)
    ensures v == Valid <==> HeaderValid(d, size)
  {
    hide FileAt;
    hide MachineStart;
    hide MachineFits;
    hide Sound;
    hide WithinFile;
    match FileAt(d) {
      case Err(_) =>
      case Ok(Contents(alignment, tensors), headerSize) =>
        SoundVerdict(tensors, MachineStart(headerSize, alignment), size);
    }
  }

  /** A file of one two-dimensional F32 tensor of 2^66 bytes; its bytes end where the tensor data would start. */
  const OVERFLOWING := TensorInfo([], [TWO_32, TWO_32], 0, 0)

  const OVERFLOWING_FILE := E.File(3, [], [OVERFLOWING])

  lemma OverflowingSize()
    ensures |E.EncodeTensor(OVERFLOWING)| == 40
    ensures |E.EncodeFile(OVERFLOWING_FILE)| == 64
  {
    var dims := OVERFLOWING.dims;
    assert dims[1..] == [TWO_32] && dims[1..][1..] == [];
    assert |E.EncodeDims(dims[1..])| == 8;
    assert [OVERFLOWING][1..] == [] && E.EncodeTensors([OVERFLOWING]) == E.EncodeTensor(OVERFLOWING) + [];
  }

  lemma OverflowingEnd(size: int)
    requires size >= 64
    ensures MachineFits(64, OVERFLOWING, size) && ExactEnd(64, OVERFLOWING, Quant(1, 4)) == 64 + TWO_64 * 4
  {
    var dims := OVERFLOWING.dims;
    assert dims[1..] == [TWO_32] && dims[1..][1..] == [];
    assert Elements(dims[1..]) == TWO_32 * Elements([]) == TWO_32;
    assert Elements(dims) == TWO_64;
    MachineElementsWrap(dims, 1);
    assert MachineElements(dims, 1) == 0;
  }

  /** The 64 bytes of this file pass the check, for its own size. */
  lemma OverflowIsAccepted()
    ensures var d := E.EncodeFile(OVERFLOWING_FILE);
      && |d| == 64 && HeaderValid(d, 64)
      && FileAt(d) == Ok(Contents(DEFAULT_ALIGNMENT, [OVERFLOWING]), 64)
      && ExactEnd(MachineStart(64, DEFAULT_ALIGNMENT), OVERFLOWING, Quant(1, 4)) == 64 + TWO_64 * 4
  {
    var d := E.EncodeFile(OVERFLOWING_FILE);
    OverflowingSize();
    OverflowingEnd(64);
    assert MachineStart(64, DEFAULT_ALIGNMENT) == 64;
    E.ParseOfEncoding(OVERFLOWING_FILE, []);
    assert d + [] == d;
    hide *;
    HeaderOfOne(d, OVERFLOWING);
  }

  lemma HeaderOfOne(d: seq<Byte>, t: TensorInfo)
    requires FileAt(d) == Ok(Contents(DEFAULT_ALIGNMENT, [t]), 64)
    requires MachineStart(64, DEFAULT_ALIGNMENT) == 64 && MachineFits(64, t, 64)
    ensures HeaderValid(d, 64)
  {
    hide FileAt;
    hide MachineFits;
    hide MachineStart;
  }
}
