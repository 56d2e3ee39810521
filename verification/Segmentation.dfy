/** How a download cuts a file into segments (upload_download/download.c). */
module Segmentation {
  import opened Float32

  /** data_len: the tracker's piece length. */
  const DATA_LEN: nat := 2048

  /** Sizes above this do not fit the int arithmetic of the segment loop. */
  const INT_LIMIT: nat := 0x8000_0000

  datatype Segment = Segment(init: int, length: int) {
    function End(): int { init + length }

    predicate Covers(pos: int) { init <= pos < End() }
  }

  /** The segments lie end to end from 0 to size and none is empty. */
  ghost predicate Tiles(plan: seq<Segment>, size: nat) {
    && (forall i :: 0 <= i < |plan| ==> plan[i].length > 0 && 0 <= plan[i].init && plan[i].End() <= size)
    && (|plan| == 0 ==> size == 0)
    && (|plan| > 0 ==> plan[0].init == 0 && plan[|plan| - 1].End() == size)
    && (forall i :: 0 < i < |plan| ==> plan[i].init == plan[i - 1].End())
  }

  /** Tiles do not overlap. */
  lemma {:induction false} TilesOrdered(plan: seq<Segment>, size: nat, i: nat, j: nat)
    requires Tiles(plan, size) && i < j < |plan|
    ensures plan[i].End() <= plan[j].init
    decreases j
  {
    if i < j - 1 {
      TilesOrdered(plan, size, i, j - 1);
    }
  }

  /** Tiles leave no gap: every position belongs to exactly one segment. */
  lemma {:induction false} TilesCover(plan: seq<Segment>, size: nat, pos: nat)
    requires Tiles(plan, size) && pos < size
    ensures exists i :: 0 <= i < |plan| && plan[i].Covers(pos)
    ensures forall i, j | 0 <= i < |plan| && 0 <= j < |plan| && plan[i].Covers(pos) && plan[j].Covers(pos) :: i == j
  {
    var k := |plan| - 1;
    while plan[k].init > pos
      invariant 0 <= k < |plan| && pos < plan[k].End()
    {
      k := k - 1;
    }
    forall i, j | 0 <= i < j < |plan|
      ensures plan[i].End() <= plan[j].init
    {
      TilesOrdered(plan, size, i, j);
    }
  }

  function CeilDiv(n: nat, d: nat): nat
    requires d > 0
  {
    (n + d - 1) / d
  }

  /** ceil((float)size / (float)data_len). Dividing by a power of two is exact in binary32,
      so the only rounding is that of the size. */
  function NumSegs(size: nat): nat {
    CeilDiv(Round(size), DATA_LEN)
  }

  function SegmentAt(size: nat, i: nat): Segment {
    Segment(i * DATA_LEN, if i < NumSegs(size) - 1 then DATA_LEN else size - i * DATA_LEN)
  }

  function Plan(size: nat): (plan: seq<Segment>)
    ensures |plan| == NumSegs(size)
  {
    seq(NumSegs(size), i requires 0 <= i => SegmentAt(size, i))
  }

  lemma MultipleRepresentable(k: nat)
    requires k <= 0x10_0000
    ensures Representable(k * DATA_LEN)
  {
    assert Pow2(11) == DATA_LEN by { assert Pow2(7) == 128; Pow2Sum(4, 7); }
    assert k * DATA_LEN == k * Pow2(11);
  }

  /** Where the last segment starts, and by how much it may exceed the piece length. */
  lemma LastSegment(size: nat)
    requires 0 < size < INT_LIMIT
    ensures 0 < NumSegs(size) <= 0x10_0000
    ensures (NumSegs(size) - 1) * DATA_LEN < size <= NumSegs(size) * DATA_LEN + 64
    ensures size <= SIGNIFICAND ==> size <= NumSegs(size) * DATA_LEN
  {
    RoundError(size);
    var r, c := Round(size), NumSegs(size);
    assert Representable(1) by { assert 1 == 1 * Pow2(0); }
    RoundKeepsOrder(size, 1);
    MultipleRepresentable(0x10_0000);
    RoundKeepsOrder(size, INT_LIMIT);
    assert (c - 1) * DATA_LEN < r <= c * DATA_LEN;
    if size <= (c - 1) * DATA_LEN {
      MultipleRepresentable(c - 1);
      RoundKeepsOrder(size, (c - 1) * DATA_LEN);
    }
  }

  /** The segments tile the file; each carries at most 64 bytes more than a piece, and none
      does for files of up to 2^24 bytes. */
  lemma PlanTiles(size: nat)
    requires 0 < size < INT_LIMIT
    ensures Tiles(Plan(size), size)
    ensures forall i :: 0 <= i < |Plan(size)| ==> Plan(size)[i].length <= DATA_LEN + 64
    ensures size <= SIGNIFICAND ==> forall i :: 0 <= i < |Plan(size)| ==> Plan(size)[i].length <= DATA_LEN
  {
    LastSegment(size);
    var plan := Plan(size);
    forall i | 0 <= i < |plan|
      ensures plan[i] == SegmentAt(size, i) && 0 < plan[i].length <= DATA_LEN + 64 && plan[i].End() <= size
    {
    }
  }

  /** The plan has fewer segments than the exact ceiling precisely when rounding drops the
      size onto a multiple of the piece length; it never has more. */
  lemma PlanIsExactCeilingIff(size: nat)
    requires 0 < size < INT_LIMIT
    ensures NumSegs(size) == CeilDiv(size, DATA_LEN) || NumSegs(size) == CeilDiv(size, DATA_LEN) - 1
    ensures NumSegs(size) == CeilDiv(size, DATA_LEN) <==> !(Round(size) < size && Round(size) % DATA_LEN == 0)
    ensures NumSegs(size) == CeilDiv(size, DATA_LEN) <==>
              forall i :: 0 <= i < |Plan(size)| ==> Plan(size)[i].length <= DATA_LEN
  {
    LastSegment(size);
    RoundAtBoundary(size, CeilDiv(size, DATA_LEN));
    CeilingCases(size, Round(size));
    var c, plan := NumSegs(size), Plan(size);
    assert plan[c - 1] == SegmentAt(size, c - 1);
    assert forall i :: 0 <= i < c - 1 ==> plan[i] == SegmentAt(size, i);
  }

  lemma CeilingCases(n: nat, r: nat)
    requires n > 0 && r > 0
    requires var d := CeilDiv(n, DATA_LEN); (d - 1) * DATA_LEN <= r <= d * DATA_LEN
    ensures var c, d := CeilDiv(r, DATA_LEN), CeilDiv(n, DATA_LEN);
      && (c == d || c == d - 1)
      && (c == d <==> !(r < n && r % DATA_LEN == 0))
      && (c == d <==> n <= c * DATA_LEN)
  {
  }

  lemma RoundAtBoundary(size: nat, d: nat)
    requires 0 < size < INT_LIMIT && d == CeilDiv(size, DATA_LEN)
    ensures (d - 1) * DATA_LEN <= Round(size) <= d * DATA_LEN
  {
    MultipleRepresentable(d);
    MultipleRepresentable(d - 1);
    RoundKeepsOrder(size, d * DATA_LEN);
    RoundKeepsOrder(size, (d - 1) * DATA_LEN);
  }

  /** A file whose last segment is one byte longer than the piece length. */
  lemma LongLastSegment()
    ensures Plan(SIGNIFICAND + 1)[|Plan(SIGNIFICAND + 1)| - 1].length == DATA_LEN + 1
  {
    var n := SIGNIFICAND + 1;
    assert Exponent(n / 2) == 0;
    assert Exponent(n) == 1;
    assert Pow2(1) == 2;
    assert Round(n) == SIGNIFICAND;
    assert NumSegs(n) == 8192;
  }

  /** The loop of download() that fills the sequence table; int arithmetic does not overflow. */
  method ComputeSegments(size: nat) returns (initSeg: array<int>, length: array<int>)
    requires 0 < size < INT_LIMIT
    ensures initSeg.Length == length.Length == NumSegs(size)
    ensures forall i :: 0 <= i < initSeg.Length ==> Segment(initSeg[i], length[i]) == Plan(size)[i]
    ensures forall i :: 0 <= i < initSeg.Length ==> 0 <= initSeg[i] < INT_LIMIT && 0 < length[i] < INT_LIMIT
  {
    PlanTiles(size);
    LastSegment(size);
    var segNum := NumSegs(size);
    initSeg := new int[segNum];
    length := new int[segNum];
    for i := 0 to segNum
      invariant forall k :: 0 <= k < i ==> Segment(initSeg[k], length[k]) == Plan(size)[k]
    {
      initSeg[i] := i * DATA_LEN;
      var segLength: int;
      if i < segNum - 1 {
        segLength := DATA_LEN;
      } else {
        segLength := size - i * DATA_LEN;
      }
      length[i] := segLength;
    }
    forall i | 0 <= i < segNum
      ensures Segment(initSeg[i], length[i]) == Plan(size)[i]
      ensures 0 <= initSeg[i] < INT_LIMIT && 0 < length[i] < INT_LIMIT
    {
    }
  }
}
