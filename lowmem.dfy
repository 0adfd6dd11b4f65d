/**
 * The low-memory locator (impl/ContentsComparatorLowMemImpl.java) and its context
 * (impl/ContentsComparatorLowMemImplContext.java): no table is kept; each query recomputes the
 * clipped run lengths of its rectangle in two rows that take turns.
 */
module LowMem {
  import opened Ranges
  import opened Overlaps
  import opened Contents
  import opened Runs

  class LowMemContext {
    /** `int[2][|B|]`: row `activeBufferIndex` holds the previous row, the other one is written. */
    const buffer: array<array<int>>
    var activeBufferIndex: int
    /** The two row objects, which a search writes. */
    ghost const rows: set<array<int>>

    ghost predicate Valid()
      reads this, buffer
    {
      buffer.Length == 2 && buffer[0] != buffer[1] && buffer[0].Length == buffer[1].Length
      && rows == {buffer[0], buffer[1]} && 0 <= activeBufferIndex <= 1
    }

    /** The length of both rows. */
    function Width(): nat
      reads this, buffer
      requires Valid()
    {
      buffer[0].Length
    }

    /** `createContext()` followed by `initialize(a, b)`: exactly two distinct rows of length `|B|`. */
    constructor Initialize(a: Content, b: Content)
      ensures Valid() && fresh(buffer) && fresh(buffer[0]) && fresh(buffer[1])
      ensures Width() == |b.items| && activeBufferIndex == 0
    {
      var first := new int[|b.items|];
      var second := new int[|b.items|];
      buffer := new array<int>[2][first, second];
      rows := {first, second};
      activeBufferIndex := 0;
    }

    function OtherBufferIndex(): (k: int)
      reads this, buffer
      requires Valid()
      ensures 0 <= k <= 1 && k != activeBufferIndex
    {
      (activeBufferIndex + 1) % 2
    }

    /** `getActiveBuffer()`: the row read while the next one is computed. */
    function GetActiveBuffer(): (row: array<int>)
      reads this, buffer
      requires Valid()
      ensures row in {buffer[0], buffer[1]} && row.Length == Width()
    {
      buffer[activeBufferIndex]
    }

    /** `getInactiveBuffer()`: the row being written; never the active one. */
    function GetInactiveBuffer(): (row: array<int>)
      reads this, buffer
      requires Valid()
      ensures row in {buffer[0], buffer[1]} && row.Length == Width() && row != GetActiveBuffer()
    {
      buffer[OtherBufferIndex()]
    }

    /** The two rows change roles; neither row is touched. */
    method SwapBuffers()
      requires Valid()
      modifies this
      ensures Valid()
      ensures GetActiveBuffer() == old(GetInactiveBuffer()) && GetInactiveBuffer() == old(GetActiveBuffer())
    {
      activeBufferIndex := OtherBufferIndex();
    }
  }

  /** Columns `0 .. n - 1` of `row` hold the clipped runs of rectangle row `I`. */
  ghost predicate RowHolds<T>(row: array<int>, A: seq<T>, B: seq<T>, ra: Interval, rb: Interval, I: int, n: int)
    reads row
    requires InBounds(A, ra) && InBounds(B, rb)
  {
    ra.begin < I <= ra.end && 0 <= n <= rb.Length() && n <= row.Length
    && forall k :: 0 <= k < n ==> row[k] == ClippedRun(A, B, ra, rb, I, rb.begin + k + 1)
  }

  /**
   * `findBiggestOverlap`: for local row `i` and column `j`, `cost` is the clipped run ending at
   * `(rangeA.begin + i, rangeB.begin + j)`; it is written to column `j` of the inactive row and
   * read back from column `j - 1` of the active row one row later. The scan order and the
   * strict-`>` replacement are those of the dense locator.
   */
  method FindBiggestOverlap(a: Content, rangeA: IntRange, b: Content, rangeB: IntRange,
                            res: Overlap, context: LowMemContext)
    requires context.Valid() && context.Width() == |b.items|
    requires rangeA.Valid() && rangeB.Valid()
    requires InBounds(a.items, rangeA.Value()) && InBounds(b.items, rangeB.Value())
    requires res.Valid() && res.a != rangeA && res.a != rangeB && res.b != rangeA && res.b != rangeB
    modifies res.a, res.b, context, context.buffer[0], context.buffer[1]
    ensures res.Valid() && context.Valid()
    ensures res.Value() == TableScan(a.items, b.items, rangeA.Value(), rangeB.Value(),
                                     rangeA.end, Scan(0, old(res.Value()))).found
  {
    ghost var A, B, ra, rb := a.items, b.items, rangeA.Value(), rangeB.Value();
    ghost var init := Scan(0, res.Value());
    var maxLen := 0;
    var i := 0;
    while i < rangeA.length
      invariant 0 <= i <= ra.Length()
      invariant context.Valid() && context.Width() == |B| && res.Valid()
      invariant Scan(maxLen, res.Value()) == TableScan(A, B, ra, rb, ra.begin + i, init)
      invariant i > 0 ==> RowHolds(context.GetActiveBuffer(), A, B, ra, rb, ra.begin + i, rb.Length())
    {
      maxLen := ScanRow(a, rangeA, b, rangeB, res, context, i, maxLen, ra, rb);
      context.SwapBuffers();
      i := i + 1;
    }
  }

  /**
   * The inner loop of `findBiggestOverlap` for local row `i`: fills the inactive row from the
   * active one and folds each cell into the running maximum `maxLen` and `res`. The ghost
   * parameters name the two token sequences and ranges.
   */
  method ScanRow(a: Content, rangeA: IntRange, b: Content, rangeB: IntRange,
                 res: Overlap, context: LowMemContext, i: int, maxLen: nat,
                 ghost ra: Interval, ghost rb: Interval) returns (newMaxLen: nat)
    requires context.Valid() && context.Width() == |b.items|
    requires rangeA.Valid() && rangeB.Valid() && rangeA.Value() == ra && rangeB.Value() == rb
    requires InBounds(a.items, ra) && InBounds(b.items, rb) && 0 <= i < ra.Length()
    requires res.Valid() && res.a != rangeA && res.a != rangeB && res.b != rangeA && res.b != rangeB
    requires i > 0 ==> RowHolds(context.GetActiveBuffer(), a.items, b.items, ra, rb, ra.begin + i, rb.Length())
    modifies res.a, res.b, context.GetInactiveBuffer()
    ensures res.Valid()
    ensures RowHolds(context.GetInactiveBuffer(), a.items, b.items, ra, rb, ra.begin + i + 1, rb.Length())
    ensures Scan(newMaxLen, res.Value()) == RowScan(a.items, b.items, ra, rb, ra.begin + i + 1, rb.end,
                                                    old(Scan(maxLen, res.Value())))
  {
    ghost var before := Scan(maxLen, res.Value());
    newMaxLen := maxLen;
    var j := 0;
    while j < rangeB.length
      invariant 0 <= j <= rb.Length()
      invariant res.Valid()
      invariant RowHolds(context.GetInactiveBuffer(), a.items, b.items, ra, rb, ra.begin + i + 1, j)
      invariant Scan(newMaxLen, res.Value()) == RowScan(a.items, b.items, ra, rb, ra.begin + i + 1, rb.begin + j, before)
    {
      newMaxLen := ScanCell(a, rangeA, b, rangeB, res, context, i, j, newMaxLen, ra, rb);
      j := j + 1;
    }
  }

  /**
   * One pass of the inner loop body: the cost of cell `(i, j)` from the token comparison and
   * the active row, stored in column `j` of the inactive row, and the strict-`>` update.
   */
  method ScanCell(a: Content, rangeA: IntRange, b: Content, rangeB: IntRange,
                  res: Overlap, context: LowMemContext, i: int, j: int, maxLen: nat,
                  ghost ra: Interval, ghost rb: Interval) returns (newMaxLen: nat)
    requires context.Valid() && context.Width() == |b.items|
    requires rangeA.Valid() && rangeB.Valid() && rangeA.Value() == ra && rangeB.Value() == rb
    requires InBounds(a.items, ra) && InBounds(b.items, rb) && 0 <= i < ra.Length() && 0 <= j < rb.Length()
    requires res.Valid() && res.a != rangeA && res.a != rangeB && res.b != rangeA && res.b != rangeB
    requires i > 0 ==> RowHolds(context.GetActiveBuffer(), a.items, b.items, ra, rb, ra.begin + i, rb.Length())
    requires RowHolds(context.GetInactiveBuffer(), a.items, b.items, ra, rb, ra.begin + i + 1, j)
    modifies res.a, res.b, context.GetInactiveBuffer()
    ensures res.Valid()
    ensures RowHolds(context.GetInactiveBuffer(), a.items, b.items, ra, rb, ra.begin + i + 1, j + 1)
    ensures Scan(newMaxLen, res.Value()) == Step(a.items, b.items, ra, rb, old(Scan(maxLen, res.Value())),
                                                 ra.begin + i + 1, rb.begin + j + 1)
  {
    ghost var A, B := a.items, b.items;
    ghost var inactive := context.GetInactiveBuffer();
    var cost := 0;
    var indA := rangeA.begin + i;
    var indB := rangeB.begin + j;
    if a.items[indA] != b.items[indB] {
      cost := 0;
    } else if i == 0 || j == 0 {
      cost := 1;
    } else {
      cost := context.GetActiveBuffer()[j - 1] + 1;
    }
    assert cost == ClippedRun(A, B, ra, rb, indA + 1, indB + 1);
    label BeforeWrite:
    context.GetInactiveBuffer()[j] := cost;
    assert RowHolds(inactive, A, B, ra, rb, ra.begin + i + 1, j + 1) by {
      forall k | 0 <= k < j + 1
        ensures inactive[k] == ClippedRun(A, B, ra, rb, ra.begin + i + 1, rb.begin + k + 1)
      {
        if k < j {
          assert inactive[k] == old@BeforeWrite(inactive[k]);
        }
      }
    }
    newMaxLen := maxLen;
    if cost > newMaxLen {
      newMaxLen := cost;
      var _ := res.a.Initialize(indA - newMaxLen + 1, indA + 1);
      var _ := res.b.Initialize(indB - newMaxLen + 1, indB + 1);
      assert res.Value() == Cell(indA + 1, indB + 1, cost);
    }
  }
}
