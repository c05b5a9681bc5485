/** The split of a file into inclusive byte ranges, and the names of the part files. */
module Chunks {
  import opened Bytes

  const DEFAULT_CHUNK_SIZE := 0x4000_0000

  datatype ChunkRange = ChunkRange(index: nat, start: int, end: int)

  /** A size held in an int64. */
  type Size = n: int | 0 <= n < TWO_63

  function ChunkSize(configured: int): (c: int)
    ensures c > 0
  {
    if configured <= 0 then DEFAULT_CHUNK_SIZE else configured
  }

  /** Division of Go: towards zero. */
  function Truncated(a: int, b: int): int
    requires b > 0
  {
    if a >= 0 then a / b else -(-a / b)
  }

  /** The ceiling division of the code, which wraps when its dividend leaves int64. */
  function Count(fileSize: Size, c: int): (n: nat)
    requires 0 < c < TWO_63
    ensures n >= 1
  {
    var q := Truncated(I64(fileSize + c - 1), c);
    if q <= 0 then 1 else q
  }

  function RangeAt(fileSize: Size, c: int, i: nat): ChunkRange {
    ChunkRange(i, i * c, if i * c + c - 1 >= fileSize then fileSize - 1 else i * c + c - 1)
  }

  function Plan(fileSize: Size, c: int): seq<ChunkRange>
    requires 0 < c < TWO_63
  {
    seq(Count(fileSize, c), i requires 0 <= i => RangeAt(fileSize, c, i))
  }

  /** Either the ceiling division does not overflow, or the one chunk it then yields is the whole file. */
  predicate Fits(fileSize: Size, c: int) {
    fileSize + c - 1 < TWO_63 || fileSize <= c
  }

  method ComputeChunks(fileSize: Size, configured: int) returns (chunks: array<ChunkRange>)
    requires configured < TWO_63
    ensures fresh(chunks) && chunks[..] == Plan(fileSize, ChunkSize(configured))
  {
    var chunkSize := configured;
    if chunkSize <= 0 {
      chunkSize := DEFAULT_CHUNK_SIZE;
    }
    var count := Truncated(I64(fileSize + chunkSize - 1), chunkSize);
    if count <= 0 {
      count := 1;
    }
    assert count == Count(fileSize, chunkSize);
    hide Count;
    hide I64;
    hide Truncated;
    chunks := new ChunkRange[count];
    var i := 0;
    while i < count
      invariant 0 <= i <= count
      invariant forall k | 0 <= k < i :: chunks[k] == RangeAt(fileSize, chunkSize, k)
    {
      StartsInFile(fileSize, chunkSize, i);
      I64Exact(i);
      I64Exact(i * chunkSize);
      I64Exact(i * chunkSize + chunkSize - 1);
      var start := I64(I64(i) * chunkSize);
      var end := I64(start + chunkSize - 1);
      if end >= fileSize {
        end := fileSize - 1;
      }
      chunks[i] := ChunkRange(i, start, end);
      i := i + 1;
    }
  }

  lemma I64Exact(x: int)
    requires -TWO_63 <= x < TWO_63
    ensures I64(x) == x
  {
  }

  lemma I64Wrapped(x: int)
    requires TWO_63 <= x < TWO_64
    ensures I64(x) == x - TWO_64
  {
  }

  lemma DivBounds(a: nat, c: nat)
    requires c > 0
    ensures a / c * c <= a < a / c * c + c
  {
  }

  lemma Scaled(i: nat, j: nat, c: nat)
    requires i <= j
    ensures i * c <= j * c
  {
  }

  lemma CountOf(fileSize: Size, c: int)
    requires 0 < c < TWO_63
    ensures Count(fileSize, c)
      == if fileSize + c - 1 >= TWO_63 || (fileSize + c - 1) / c == 0 then 1 else (fileSize + c - 1) / c
  {
    hide I64;
    if fileSize + c - 1 < TWO_63 {
      I64Exact(fileSize + c - 1);
    } else {
      I64Wrapped(fileSize + c - 1);
      NotPositive(fileSize + c - 1 - TWO_64, c);
    }
  }

  lemma NotPositive(a: int, b: int)
    requires a < 0 < b
    ensures Truncated(a, b) <= 0
  {
  }

  lemma Ceiling(n: nat, c: int, q: nat)
    requires c > 0 && q * c <= n + c - 1 < q * c + c
    ensures if n == 0 then q == 0 else q > 0 && (q - 1) * c < n <= q * c
  {
    assert (q - 1) * c == q * c - c;
    if q > 0 {
      Scaled(1, q, c);
    }
  }

  /** Without overflow the count is the ceiling; with it, one chunk remains. */
  lemma CountBounds(fileSize: Size, c: int)
    requires 0 < c < TWO_63
    ensures fileSize + c - 1 >= TWO_63 ==> Count(fileSize, c) == 1
    ensures fileSize + c - 1 < TWO_63 && fileSize > 0 ==>
      (Count(fileSize, c) - 1) * c < fileSize <= Count(fileSize, c) * c
    ensures fileSize == 0 ==> Count(fileSize, c) == 1
  {
    CountOf(fileSize, c);
    hide *;
    DivBounds(fileSize + c - 1, c);
    Ceiling(fileSize, c, (fileSize + c - 1) / c);
  }

  /** Nothing but the count can wrap: every chunk but an empty file's starts inside the file. */
  lemma StartsInFile(fileSize: Size, c: int, i: nat)
    requires 0 < c < TWO_63 && i < Count(fileSize, c)
    ensures i <= i * c < TWO_63 && i * c + c - 1 < TWO_63
    ensures i > 0 ==> i * c < fileSize
    ensures fileSize + c - 1 < TWO_63 && fileSize > 0 ==> i * c < fileSize
    ensures i < Count(fileSize, c) - 1 ==> i * c + c < fileSize
  {
    hide *;
    CountBounds(fileSize, c);
    Scaled(i, Count(fileSize, c) - 1, c);
    Scaled(1, c, i);
    if i < Count(fileSize, c) - 1 {
      Scaled(i + 1, Count(fileSize, c) - 1, c);
      assert (i + 1) * c == i * c + c;
    }
  }

  // What a plan is for, without reference to how it is computed.

  /** Non-empty ranges, in order, without a gap or an overlap, from the first byte to the last. */
  predicate Tiles(plan: seq<ChunkRange>, fileSize: nat) {
    && plan != [] && plan[0].start == 0 && plan[|plan| - 1].end == fileSize - 1
    && (forall i | 0 <= i < |plan| - 1 :: plan[i + 1].start == plan[i].end + 1)
    && (fileSize == 0 ==> |plan| == 1)
    && (fileSize > 0 ==> forall i | 0 <= i < |plan| :: plan[i].start <= plan[i].end)
  }

  predicate Inside(r: ChunkRange, offset: int) {
    r.start <= offset <= r.end
  }

  lemma PlanTilesIff(fileSize: Size, c: int)
    requires 0 < c < TWO_63
    ensures Tiles(Plan(fileSize, c), fileSize) <==> Fits(fileSize, c)
    ensures !Fits(fileSize, c) ==> Plan(fileSize, c) == [ChunkRange(0, 0, c - 1)]
    ensures forall i | 0 <= i < |Plan(fileSize, c)| ::
      var r := Plan(fileSize, c)[i];
      r.index == i && r.end - r.start + 1 <= c && (i < |Plan(fileSize, c)| - 1 ==> r.end - r.start + 1 == c)
  {
    var plan := Plan(fileSize, c);
    hide I64;
    hide Count;
    CountBounds(fileSize, c);
    forall i: nat | i < |plan|
      ensures i * c + c < fileSize || i == |plan| - 1
      ensures Fits(fileSize, c) && fileSize > 0 ==> plan[i].start <= plan[i].end
      ensures i < |plan| - 1 ==> plan[i + 1].start == plan[i].start + c
    {
      StartsInFile(fileSize, c, i);
      assert (i + 1) * c == i * c + c;
    }
    var last := |plan| - 1;
    StartsInFile(fileSize, c, last);
    assert (last + 1) * c == last * c + c;
  }

  lemma {:induction false} Ordered(plan: seq<ChunkRange>, fileSize: nat, i: nat, j: nat)
    requires Tiles(plan, fileSize) && fileSize > 0 && i < j < |plan|
    ensures plan[i].end < plan[j].start
    decreases j - i
  {
    if i + 1 < j {
      Ordered(plan, fileSize, i, j - 1);
    }
    assert plan[j - 1 + 1].start == plan[j - 1].end + 1;
  }

  /** Every byte of the file is in exactly one range. */
  lemma EachByteOnce(plan: seq<ChunkRange>, fileSize: nat, offset: nat) returns (i: nat)
    requires Tiles(plan, fileSize) && offset < fileSize
    ensures i < |plan| && Inside(plan[i], offset)
    ensures forall j | 0 <= j < |plan| && j != i :: !Inside(plan[j], offset)
  {
    i := 0;
    while offset > plan[i].end
      invariant i < |plan| && plan[i].start <= offset
      decreases |plan| - i
    {
      assert plan[i + 1].start == plan[i].end + 1;
      i := i + 1;
    }
    forall j | 0 <= j < |plan| && j != i
      ensures !Inside(plan[j], offset)
    {
      if j < i {
        Ordered(plan, fileSize, j, i);
      } else {
        Ordered(plan, fileSize, i, j);
      }
    }
  }

  /** The bytes of a range: what a correct part file holds. */
  function Slice(data: seq<Byte>, r: ChunkRange): seq<Byte> {
    if 0 <= r.start <= r.end + 1 <= |data| then data[r.start..r.end + 1] else []
  }

  function Joined(data: seq<Byte>, plan: seq<ChunkRange>): seq<Byte> {
    if plan == [] then [] else Joined(data, plan[..|plan| - 1]) + Slice(data, plan[|plan| - 1])
  }

  lemma TileBounds(plan: seq<ChunkRange>, fileSize: nat, n: nat)
    requires Tiles(plan, fileSize) && n < |plan|
    ensures -1 <= plan[n].end < fileSize && plan[n].start <= plan[n].end + 1
    ensures plan[n].start == if n == 0 then 0 else plan[n - 1].end + 1
  {
    if n < |plan| - 1 {
      Ordered(plan, fileSize, n, |plan| - 1);
    }
    if n > 0 {
      assert plan[n - 1 + 1].start == plan[n - 1].end + 1;
      Ordered(plan, fileSize, 0, n);
    }
  }

  lemma JoinedStep(data: seq<Byte>, plan: seq<ChunkRange>, n: nat)
    requires n < |plan|
    ensures Joined(data, plan[..n + 1]) == Joined(data, plan[..n]) + Slice(data, plan[n])
  {
    assert plan[..n + 1][..n] == plan[..n];
  }

  lemma {:induction false} JoinedPrefix(data: seq<Byte>, plan: seq<ChunkRange>, n: nat)
    requires Tiles(plan, |data|) && n < |plan|
    ensures -1 <= plan[n].end < |data| && Joined(data, plan[..n + 1]) == data[..plan[n].end + 1]
    decreases n
  {
    hide Tiles;
    hide Joined;
    TileBounds(plan, |data|, n);
    JoinedStep(data, plan, n);
    if n > 0 {
      JoinedPrefix(data, plan, n - 1);
      assert plan[..n - 1 + 1] == plan[..n];
    } else {
      assert plan[..0] == [];
      JoinedNothing(data);
    }
  }

  lemma JoinedNothing(data: seq<Byte>)
    ensures Joined(data, []) == []
  {
  }

  /** Joining the parts of a tiling in order yields the file. */
  lemma JoinedOfTiles(data: seq<Byte>, plan: seq<ChunkRange>)
    requires Tiles(plan, |data|)
    ensures Joined(data, plan) == data
  {
    JoinedPrefix(data, plan, |plan| - 1);
    assert plan[..|plan| - 1 + 1] == plan;
    hide Joined;
  }

  /** Joining the parts of the computed plan yields the file exactly when the count does not overflow. */
  lemma PlanAssemblesIff(data: seq<Byte>, c: int)
    requires |data| < TWO_63 && 0 < c < TWO_63
    ensures Joined(data, Plan(|data|, c)) == data <==> Fits(|data|, c)
    ensures !Fits(|data|, c) ==> c < |data| && Joined(data, Plan(|data|, c)) == data[..c]
  {
    PlanTilesIff(|data|, c);
    if Fits(|data|, c) {
      hide *;
      JoinedOfTiles(data, Plan(|data|, c));
    } else {
      assert c < |data|;
      hide Plan;
      hide Count;
      hide Joined;
      var plan := Plan(|data|, c);
      JoinedNothing(data);
      assert plan[..0] == [] && plan[..0 + 1] == plan;
      JoinedStep(data, plan, 0);
      assert Slice(data, plan[0]) == data[..c];
    }
  }

  // Part names.

  function Digits(n: nat): (s: string)
    ensures |s| >= 1
  {
    var last := ['0' + (n % 10) as char];
    if n < 10 then last else Digits(n / 10) + last
  }

  /** Two digits at least, as "%02d" prints them. */
  function Padded(n: nat): (s: string)
    ensures |s| >= 2
  {
    if n < 10 then "0" + Digits(n) else Digits(n)
  }

  function PartPath(localPath: string, index: nat): string {
    localPath + ".part-" + Padded(index)
  }

  function TempPath(localPath: string): string {
    localPath + ".part"
  }

  function Value(s: string): int {
    if s == [] then 0 else 10 * Value(s[..|s| - 1]) + (s[|s| - 1] as int - '0' as int)
  }

  lemma {:induction false} ValueOfDigits(n: nat)
    ensures Value(Digits(n)) == n
  {
    var s := Digits(n);
    assert s[|s| - 1] as int - '0' as int == n % 10;
    if n >= 10 {
      ValueOfDigits(n / 10);
      assert s[..|s| - 1] == Digits(n / 10);
    } else {
      assert s[..|s| - 1] == [];
    }
  }

  lemma ValueOfPadded(n: nat)
    ensures Value(Padded(n)) == n
  {
    ValueOfDigits(n);
    if n < 10 {
      var s := Padded(n);
      assert s[..1] == "0" && s[..1][..0] == [] && s[1] == Digits(n)[0] && Digits(n)[..0] == [];
    }
  }

  /** No two parts share a file, and no part is the destination or the assembly file. */
  lemma PathsAreDistinct(localPath: string, i: nat, j: nat)
    ensures PartPath(localPath, i) == PartPath(localPath, j) <==> i == j
    ensures PartPath(localPath, i) != localPath && PartPath(localPath, i) != TempPath(localPath)
    ensures TempPath(localPath) != localPath
  {
    ValueOfPadded(i);
    ValueOfPadded(j);
    var prefix := localPath + ".part-";
    assert PartPath(localPath, i)[|prefix|..] == Padded(i) && PartPath(localPath, j)[|prefix|..] == Padded(j);
  }
}
