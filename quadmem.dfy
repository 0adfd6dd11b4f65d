/**
 * The dense locator (impl/ContentsComparatorQuadMemImpl.java) and its context
 * (impl/ContentsComparatorQuadMemImplContext.java): the full run-length table is built once,
 * and each query scans the sub-rectangle of it.
 */
module QuadMem {
  import opened Ranges
  import opened Overlaps
  import opened Contents
  import opened Runs

  class QuadMemContext {
    /** `int[|A|+1][|B|+1]`. */
    const buffer: array2<int>
    /** The contents the table was built from. */
    ghost const left: seq<Token>
    ghost const right: seq<Token>

    /** Every cell, row 0 and column 0 included, holds the table recurrence's value. */
    ghost predicate Valid()
      reads this, buffer
    {
      && buffer.Length0 == |left| + 1 && buffer.Length1 == |right| + 1
      && forall i, j :: 0 <= i <= |left| && 0 <= j <= |right| ==> buffer[i, j] == RunEndingAt(left, right, i, j)
    }

    /** `createContext()` followed by `initialize(a, b)`: a zeroed table, then filled. */
    constructor Initialize(a: Content, b: Content)
      ensures Valid() && fresh(buffer) && left == a.items && right == b.items
    {
      left := a.items;
      right := b.items;
      buffer := new int[|a.items| + 1, |b.items| + 1]((i, j) => 0);
      new;
      CalculateSubstringsLength(a, b);
    }

    /** Fills rows 1.. and columns 1.. in row-major order, so the diagonal neighbour is final when read. */
    method CalculateSubstringsLength(a: Content, b: Content)
      requires left == a.items && right == b.items
      requires buffer.Length0 == |left| + 1 && buffer.Length1 == |right| + 1
      requires forall i, j :: 0 <= i < buffer.Length0 && 0 <= j < buffer.Length1 ==> buffer[i, j] == 0
      modifies buffer
      ensures Valid()
    {
      var i := 1;
      while i <= |a.items|
        invariant 1 <= i <= |left| + 1
        invariant forall x, y :: 0 <= x < i && 0 <= y <= |right| ==> buffer[x, y] == RunEndingAt(left, right, x, y)
        invariant forall x, y :: i <= x <= |left| && 0 <= y <= |right| ==> buffer[x, y] == 0
      {
        var j := 1;
        while j <= |b.items|
          invariant 1 <= j <= |right| + 1
          invariant forall x, y :: 0 <= x < i && 0 <= y <= |right| ==> buffer[x, y] == RunEndingAt(left, right, x, y)
          invariant forall y :: 0 <= y < j ==> buffer[i, y] == RunEndingAt(left, right, i, y)
          invariant forall y :: j <= y <= |right| ==> buffer[i, y] == 0
          invariant forall x, y :: i < x <= |left| && 0 <= y <= |right| ==> buffer[x, y] == 0
        {
          if a.items[i - 1] == b.items[j - 1] {
            if i == 1 || j == 1 {
              buffer[i, j] := 1;
            } else {
              buffer[i, j] := buffer[i - 1, j - 1] + 1;
            }
          }
          j := j + 1;
        }
        i := i + 1;
      }
    }
  }

  /**
   * `findBiggestOverlap`: scans the query rectangle of the table row by row, clips each cell
   * to the ranges and keeps the first strictly longest; `res` is only written on improvement.
   */
  method FindBiggestOverlap(a: Content, rangeA: IntRange, b: Content, rangeB: IntRange,
                                   res: Overlap, context: QuadMemContext)
    requires context.Valid() && context.left == a.items && context.right == b.items
    requires rangeA.Valid() && rangeB.Valid()
    requires InBounds(a.items, rangeA.Value()) && InBounds(b.items, rangeB.Value())
    requires res.Valid() && res.a != rangeA && res.a != rangeB && res.b != rangeA && res.b != rangeB
    modifies res.a, res.b
    ensures res.Valid()
    ensures res.Value() == TableScan(a.items, b.items, rangeA.Value(), rangeB.Value(),
                                     rangeA.end, Scan(0, old(res.Value()))).found
  {
    ghost var A, B, ra, rb := a.items, b.items, rangeA.Value(), rangeB.Value();
    ghost var init := Scan(0, res.Value());
    var maxLen := 0;
    var i := rangeA.begin + 1;
    while i <= rangeA.end
      invariant ra.begin + 1 <= i <= ra.end + 1
      invariant res.Valid()
      invariant Scan(maxLen, res.Value()) == TableScan(A, B, ra, rb, i - 1, init)
    {
      var maxLenA := i - rangeA.begin;
      var j := rangeB.begin + 1;
      while j <= rangeB.end
        invariant rb.begin + 1 <= j <= rb.end + 1
        invariant res.Valid()
        invariant Scan(maxLen, res.Value()) == RowScan(A, B, ra, rb, i, j - 1, TableScan(A, B, ra, rb, i - 1, init))
      {
        var maxLenB := j - rangeB.begin;
        var adjLen := Min(Min(maxLenA, maxLenB), context.buffer[i, j]);
        ClippedRunIsClippedCell(A, B, ra, rb, i, j);
        if adjLen > maxLen {
          maxLen := adjLen;
          var _ := res.a.Initialize(i - adjLen, i);
          var _ := res.b.Initialize(j - adjLen, j);
        }
        j := j + 1;
      }
      i := i + 1;
    }
  }
}
