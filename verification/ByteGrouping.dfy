/**
 Four-way byte grouping: the first bytes of all 4-byte words, then their second bytes, and so on,
 and the de-interleaving loops that undo it.
 */
module ByteGrouping {
  import opened Bytes

  /** Byte `k` of the original, which is byte k%4 of word k/4, is stored here among `g` words. */
  function Stored(k: nat, g: nat): nat {
    k / 4 + (k % 4) * g
  }

  /** And the position that is stored at `p`. */
  function Origin(p: nat, g: nat): nat
    requires g > 0
  {
    (p % g) * 4 + p / g
  }

  lemma DivModOf(i: nat, j: nat, g: nat)
    requires i < g && j < 4
    ensures (i + j * g) / g == j && (i + j * g) % g == i
  {
    assert j == 0 || j == 1 || j == 2 || j == 3;
  }

  lemma SplitByGroups(p: nat, g: nat)
    requires p < 4 * g
    ensures p == p % g + (p / g) * g && p / g < 4 && p % g < g
  {
    var j := p / g;
    if j >= 4 {
      assert (p / g) * g >= 4 * g by { MulAtLeast(j, g); }
    }
  }

  lemma MulAtLeast(j: nat, g: nat)
    requires j >= 4
    ensures j * g >= 4 * g
  {
  }

  /** The index map is a bijection of the positions below 4*g, with the two functions as its directions. */
  lemma IndexBijection(k: nat, g: nat)
    requires k < 4 * g
    ensures Stored(k, g) < 4 * g && Origin(Stored(k, g), g) == k
    ensures Origin(k, g) < 4 * g && Stored(Origin(k, g), g) == k
  {
    StoredThenOrigin(k, g);
    OriginThenStored(k, g);
  }

  lemma StoredThenOrigin(k: nat, g: nat)
    requires k < 4 * g
    ensures Stored(k, g) < 4 * g && Origin(Stored(k, g), g) == k
  {
    DivModOf(k / 4, k % 4, g);
    assert (k % 4) * g <= 3 * g;
  }

  lemma OriginThenStored(p: nat, g: nat)
    requires p < 4 * g
    ensures Origin(p, g) < 4 * g && Stored(Origin(p, g), g) == p
  {
    SplitByGroups(p, g);
    var i, j := p % g, p / g;
    assert (i * 4 + j) / 4 == i && (i * 4 + j) % 4 == j;
  }

  lemma StoredAt(i: nat, j: nat, g: nat)
    requires i < g && j < 4
    ensures Stored(4 * i + j, g) == i + j * g < 4 * g
  {
    assert (4 * i + j) / 4 == i && (4 * i + j) % 4 == j;
    assert j == 0 || j == 1 || j == 2 || j == 3;
  }

  function Grouped(d: seq<Byte>): (r: seq<Byte>)
    requires |d| % 4 == 0
    ensures |r| == |d|
  {
    var g := |d| / 4;
    seq(|d|, p requires 0 <= p < |d| => IndexBijection(p, g); d[Origin(p, g)])
  }

  function Ungrouped(d: seq<Byte>): (r: seq<Byte>)
    requires |d| % 4 == 0
    ensures |r| == |d|
  {
    var g := |d| / 4;
    seq(|d|, k requires 0 <= k < |d| => IndexBijection(k, g); d[Stored(k, g)])
  }

  lemma UngroupedOfGrouped(d: seq<Byte>)
    requires |d| % 4 == 0
    ensures Ungrouped(Grouped(d)) == d
  {
    forall k | 0 <= k < |d|
      ensures Ungrouped(Grouped(d))[k] == d[k]
    {
      IndexBijection(k, |d| / 4);
    }
  }

  lemma GroupedOfUngrouped(d: seq<Byte>)
    requires |d| % 4 == 0
    ensures Grouped(Ungrouped(d)) == d
  {
    forall k | 0 <= k < |d|
      ensures Grouped(Ungrouped(d))[k] == d[k]
    {
      IndexBijection(k, |d| / 4);
    }
  }

  /** The layout: the first bytes of all words, then their second bytes, and so on. */
  lemma GroupedAt(d: seq<Byte>, i: nat, j: nat)
    requires |d| % 4 == 0 && i < |d| / 4 && j < 4
    ensures j * (|d| / 4) + i < |d| && 4 * i + j < |d|
    ensures Grouped(d)[j * (|d| / 4) + i] == d[4 * i + j]
    ensures Ungrouped(d)[4 * i + j] == d[j * (|d| / 4) + i]
  {
    var g := |d| / 4;
    StoredAt(i, j, g);
    DivModOf(i, j, g);
  }

  /** Zero padding up to a multiple of four. */
  function Padded(d: seq<Byte>): (r: seq<Byte>)
    ensures |r| % 4 == 0 && d <= r
  {
    if |d| % 4 == 0 then d else d + seq(4 - |d| % 4, _ => 0)
  }

  /** Where the code reads tail byte `j`: a multiple of the word count, not the end of the data. */
  function TailSource(j: nat, g: nat): nat {
    (j + 1) * g
  }

  /** What the code computes when the length is not a multiple of four: complete words, then the tail. */
  function UngroupedPartial(d: seq<Byte>, expected: int): (r: seq<Byte>)
    requires |d| % 4 != 0
    ensures |r| == if expected > 0 then expected else |d|
  {
    var g := |d| / 4;
    seq(if expected > 0 then expected else |d|, k requires k >= 0 =>
      if k < 4 * g then IndexBijection(k, g); d[Stored(k, g)]
      else if k < |d| then TailInRange(k - 4 * g, g); d[TailSource(k - 4 * g, g)]
      else 0)
  }

  lemma TailInRange(j: nat, g: nat)
    requires j < 3
    ensures TailSource(j, g) <= 3 * g
    ensures TailSource(j, g) == g + j * g
  {
    assert j == 0 || j == 1 || j == 2;
  }

  function Undone(d: seq<Byte>, expected: int): seq<Byte> {
    if d == [] then []
    else if |d| % 4 != 0 then UngroupedPartial(d, expected)
    else if 0 < expected < |d| then Ungrouped(d)[..expected]
    else Ungrouped(d)
  }

  /** One row of the nested loops: the four bytes of word `i`. */
  method FillWord(result: array<Byte>, d: seq<Byte>, g: nat, i: nat, limit: nat)
    requires i < g && 4 * g <= |d| && limit <= result.Length
    modifies result
    ensures forall k | 0 <= k < result.Length && !(4 * i <= k < 4 * i + 4 && k < limit) :: result[k] == old(result[k])
    ensures forall k | 4 * i <= k < 4 * i + 4 && k < limit :: Stored(k, g) < |d| && result[k] == d[Stored(k, g)]
  {
    hide Stored;
    var j: nat := 0;
    while j < 4
      invariant j <= 4
      invariant forall k | 0 <= k < result.Length && !(4 * i <= k < 4 * i + j && k < limit) :: result[k] == old(result[k])
      invariant forall k | 4 * i <= k < 4 * i + j && k < limit :: Stored(k, g) < |d| && result[k] == d[Stored(k, g)]
    {
      StoredAt(i, j, g);
      var srcIdx, dstIdx := i + j * g, 4 * i + j;
      if srcIdx < |d| && dstIdx < limit {
        result[dstIdx] := d[srcIdx];
      }
      j := j + 1;
    }
  }

  method UndoByteGrouping4(d: seq<Byte>, expected: int) returns (r: seq<Byte>)
    ensures r == Undone(d, expected)
  {
    if |d| == 0 {
      return [];
    }
    var n := |d|;
    if n % 4 != 0 {
      r := UndoByteGrouping4Partial(d, expected);
      return;
    }
    var numGroups := n / 4;
    hide Stored;
    var result := new Byte[n];
    var i: nat := 0;
    while i < numGroups
      invariant i <= numGroups
      invariant forall k | 0 <= k < 4 * i :: Stored(k, numGroups) < n && result[k] == d[Stored(k, numGroups)]
    {
      FillWord(result, d, numGroups, i, n);
      i := i + 1;
    }
    assert result[..] == Ungrouped(d);
    r := result[..];
    if expected > 0 && |r| > expected {
      r := r[..expected];
    }
  }

  method UndoByteGrouping4Partial(d: seq<Byte>, expected: int) returns (r: seq<Byte>)
    requires |d| % 4 != 0
    ensures r == UngroupedPartial(d, expected)
  {
    var n := |d|;
    var completeGroups, remainder := n / 4, n % 4;
    var originalSize := if expected > 0 then expected else n;
    hide Stored;
    hide TailSource;
    var result := new Byte[originalSize](_ => 0);
    var i: nat := 0;
    while i < completeGroups
      invariant i <= completeGroups
      invariant forall k | 4 * i <= k < originalSize :: result[k] == 0
      invariant forall k | 0 <= k < 4 * i && k < originalSize ::
        Stored(k, completeGroups) < n && result[k] == d[Stored(k, completeGroups)]
    {
      FillWord(result, d, completeGroups, i, originalSize);
      i := i + 1;
    }
    var remainderStart := completeGroups * 4;
    var j: nat := 0;
    while j < remainder
      invariant j <= remainder
      invariant forall k | remainderStart + j <= k < originalSize :: result[k] == 0
      invariant forall k | 0 <= k < remainderStart && k < originalSize ::
        Stored(k, completeGroups) < n && result[k] == d[Stored(k, completeGroups)]
      invariant forall t: nat | t < j && remainderStart + t < originalSize ::
        TailSource(t, completeGroups) < n && result[remainderStart + t] == d[TailSource(t, completeGroups)]
    {
      TailInRange(j, completeGroups);
      var srcIdx, dstIdx := completeGroups + j * completeGroups, remainderStart + j;
      assert srcIdx == TailSource(j, completeGroups) < n;
      if srcIdx < n && dstIdx < originalSize {
        result[dstIdx] := d[srcIdx];
      }
      j := j + 1;
    }
    forall k | remainderStart <= k < n && k < originalSize
      ensures TailSource(k - remainderStart, completeGroups) < n
      ensures result[k] == d[TailSource(k - remainderStart, completeGroups)]
    {
      assert result[remainderStart + (k - remainderStart)] == result[k];
    }
    assert result[..] == UngroupedPartial(d, expected);
    r := result[..];
  }

  /** Any data at all survives padding, grouping, and undoing with its own length as the expected size. */
  lemma PadGroupUndo(d: seq<Byte>)
    ensures Undone(Grouped(Padded(d)), |d|) == d
  {
    UngroupedOfGrouped(Padded(d));
  }

  /**
   Unpadded data, its complete words grouped and 1 to 3 tail bytes after them, survives exactly when
   each tail byte happens to equal the grouped byte that the code reads in its place.
   */
  lemma PartialUndoIff(words: seq<Byte>, tail: seq<Byte>)
    requires |words| % 4 == 0 && 1 <= |tail| <= 3
    ensures var g, d := |words| / 4, Grouped(words) + tail;
      Undone(d, |d|) == words + tail
      <==> forall j: nat | j < |tail| :: TailSource(j, g) < |d| && d[TailSource(j, g)] == tail[j]
  {
    hide Stored;
    hide TailSource;
    var g, d := |words| / 4, Grouped(words) + tail;
    assert |d| / 4 == g && |d| % 4 == |tail|;
    var r, whole := UngroupedPartial(d, |d|), words + tail;
    forall k | 0 <= k < 4 * g
      ensures r[k] == whole[k]
    {
      IndexBijection(k, g);
    }
    forall j: nat | j < |tail|
      ensures TailSource(j, g) < |d| && r[4 * g + j] == d[TailSource(j, g)] && whole[4 * g + j] == tail[j]
    {
      TailInRange(j, g);
    }
    if forall j: nat | j < |tail| :: d[TailSource(j, g)] == tail[j] {
      forall k | 4 * g <= k < |d|
        ensures r[k] == whole[k]
      {
        var j := k - 4 * g;
        assert r[4 * g + j] == d[TailSource(j, g)];
      }
      assert r == whole;
    }
  }
}
