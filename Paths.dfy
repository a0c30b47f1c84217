/**
 * The path record Path_t of src/structurePth.c, which the assembly fills while it chains
 * patterns between two atoms. It has one column per pattern of the path plus two for the
 * starting atom and its neighbour; sizeMax is the index of the last column. Each column holds a
 * fixed number of candidate positions, an orientation, a position number, a pattern number and
 * the index of its last position.
 */
module Paths {
  import opened Constants
  import opened Points
  import opened LinkedLists

  /** Positions kept per column: NUMBER_POSITION_AX1E3, but at least 2. */
  const PositionsPerColumn: nat := if NUMBER_POSITION_AX1E3 < 2 then 2 else NUMBER_POSITION_AX1E3 as nat

  /** Number of indices i < n whose pattern number is that of an aromatic ring. */
  function RingCount(patternNum: seq<int>, n: nat): (r: nat)
    requires n <= |patternNum|
    ensures r <= n
    ensures r == 0 <==> forall i :: 0 <= i < n ==> patternNum[i] != CYCLE_PATTERN
  {
    if n == 0 then 0
    else RingCount(patternNum, n - 1) + (if patternNum[n - 1] == CYCLE_PATTERN then 1 else 0)
  }

  class Path {
    const patterns: array<seq<Point>>
    const orientations: array<int>
    const positionNum: array<int>
    const patternNum: array<int>
    const maxPositions: array<int>
    var idStart: int
    var idEnd: int
    var sizeMax: int
    var size: int

    /** Every column array has sizeMax + 1 entries. */
    ghost predicate Valid()
      reads this
    {
      sizeMax + 1 >= 0 &&
      patterns.Length == orientations.Length == positionNum.Length == patternNum.Length ==
      maxPositions.Length == sizeMax + 1
    }

    /** PTH_init: size + 2 columns, all positions blank, orientations and last-position
        indices -1, position and pattern numbers 0, the two ends taken from the pair, sizeMax
        the last column index and no pattern yet. The source calls PT_init without its argument,
        so the blank position is left as a parameter. */
    constructor Init(size: int, pair: Ends, blank: Point)
      requires size + 2 >= 0
      ensures Valid() && sizeMax == size + 1 && this.size == 0
      ensures idStart == pair.start && idEnd == pair.end
      ensures fresh(patterns) && fresh(orientations) && fresh(positionNum) && fresh(patternNum)
      ensures fresh(maxPositions)
      ensures forall i :: 0 <= i < size + 2 ==>
        patterns[i] == seq(PositionsPerColumn, _ => blank) && orientations[i] == -1 &&
        positionNum[i] == 0 && patternNum[i] == 0 && maxPositions[i] == -1
      ensures RingCount(patternNum[..], sizeMax + 1) == 0
    {
      var n := size + 2;
      var cols := new seq<Point>[n];
      var o := new int[n];
      var pn := new int[n];
      var pt := new int[n];
      var mp := new int[n];
      for i := 0 to n
        invariant forall k :: 0 <= k < i ==>
          cols[k] == seq(PositionsPerColumn, _ => blank) && o[k] == -1 && pn[k] == 0 &&
          pt[k] == 0 && mp[k] == -1
      {
        var col: seq<Point> := [];
        for j := 0 to PositionsPerColumn
          invariant col == seq(j, _ => blank)
        {
          col := col + [blank];
        }
        cols[i] := col;
        o[i] := -1;
        pn[i] := 0;
        pt[i] := 0;
        mp[i] := -1;
      }
      patterns, orientations, positionNum, patternNum, maxPositions := cols, o, pn, pt, mp;
      idStart := pair.start;
      idEnd := pair.end;
      sizeMax := n - 1;
      this.size := 0;
    }

    /** PTH_countAroRings: the number of columns 0 .. sizeMax holding an aromatic ring. */
    method CountAroRings() returns (counter: nat)
      requires Valid()
      ensures counter == RingCount(patternNum[..], sizeMax + 1)
      ensures counter <= sizeMax + 1
    {
      counter := 0;
      var i := 0;
      while i <= sizeMax
        invariant 0 <= i <= sizeMax + 1 && counter == RingCount(patternNum[..], i)
      {
        if patternNum[i] == CYCLE_PATTERN {
          counter := counter + 1;
        }
        i := i + 1;
      }
    }
  }
}
