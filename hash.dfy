/**
 * The sparse locator (impl/ContentsComparatorHashImpl.java) and its context
 * (impl/ContentsComparatorHashImplContext.java): every row of the table is a
 * `LinkedHashMap<Integer, Integer>` holding only the non-zero cells, in ascending column order.
 */
module Hash {
  import opened Wrappers
  import opened Ranges
  import opened Overlaps
  import opened Contents
  import opened Runs

  /** One map entry of a row: column `key` holds the run length `value`. */
  datatype Entry = Entry(key: int, value: int)

  /** A `LinkedHashMap<Integer, Integer>`: its entries in insertion order. */
  type Row = seq<Entry>

  /** `get(key)`: the value stored under `key`, `None` standing for `null`. */
  function Get(row: Row, key: int): Option<int>
  {
    if |row| == 0 then None
    else if row[0].key == key then Some(row[0].value)
    else Get(row[1..], key)
  }

  /** A lookup in a row with one more entry: an earlier entry wins, else the new one, else `null`. */
  lemma {:induction false} GetAppend(row: Row, x: Entry, k: int)
    ensures Get(row + [x], k) == if Get(row, k).Some? then Get(row, k) else if x.key == k then Some(x.value) else None
  {
    if |row| > 0 {
      assert (row + [x])[1..] == row[1..] + [x];
      GetAppend(row[1..], x, k);
    }
  }

  /**
   * `put(key, value)`: a present key keeps its place and gets the new value; an absent key is
   * appended, which is what gives a `LinkedHashMap` its insertion order.
   */
  function Put(row: Row, key: int, value: int): (r: Row)
    ensures Get(r, key) == Some(value)
    ensures Get(row, key).None? ==> r == row + [Entry(key, value)]
  {
    if |row| == 0 then [Entry(key, value)]
    else if row[0].key == key then [Entry(key, value)] + row[1..]
    else
      var r := [row[0]] + Put(row[1..], key, value);
      assert r[1..] == Put(row[1..], key, value);
      assert row == [row[0]] + row[1..];
      r
  }

  /** `put` leaves the value of every other key as it was. */
  lemma {:induction false} PutKeepsOtherKeys(row: Row, key: int, value: int, k: int)
    requires k != key
    ensures Get(Put(row, key, value), k) == Get(row, k)
  {
    if |row| > 0 && row[0].key != key {
      PutKeepsOtherKeys(row[1..], key, value, k);
    }
  }

  /**
   * Row `i` of the sparse table after columns `1 .. n` of the construction: an entry
   * `(j, runEndingAt(i, j))` for every `j` whose tokens match, in ascending `j`; row 0 stays empty.
   */
  function RowEntries<T(==)>(A: seq<T>, B: seq<T>, i: nat, n: nat): Row
    requires i <= |A| && n <= |B|
  {
    if i == 0 || n == 0 then []
    else RowEntries(A, B, i, n - 1) + (if A[i-1] == B[n-1] then [Entry(n, RunEndingAt(A, B, i, n))] else [])
  }

  /** Every entry of a row is a matching column up to `n` holding its positive table cell. */
  lemma {:induction false} RowEntriesAreCells<T>(A: seq<T>, B: seq<T>, i: nat, n: nat)
    requires i <= |A| && n <= |B|
    ensures forall e :: 0 <= e < |RowEntries(A, B, i, n)| ==>
      var x := RowEntries(A, B, i, n)[e];
      1 <= x.key <= n && A[i-1] == B[x.key - 1] && x.value == RunEndingAt(A, B, i, x.key) >= 1
  {
    if i != 0 && n != 0 {
      RowEntriesAreCells(A, B, i, n - 1);
      if A[i-1] == B[n-1] {
        RunEndingAtPositive(A, B, i, n);
      }
    }
  }

  /** The keys of a row strictly ascend, as the construction visits the columns in order. */
  lemma {:induction false} RowEntriesAscending<T>(A: seq<T>, B: seq<T>, i: nat, n: nat)
    requires i <= |A| && n <= |B|
    ensures forall e1, e2 :: 0 <= e1 < e2 < |RowEntries(A, B, i, n)| ==>
      RowEntries(A, B, i, n)[e1].key < RowEntries(A, B, i, n)[e2].key
  {
    if i != 0 && n != 0 {
      RowEntriesAscending(A, B, i, n - 1);
      RowEntriesAreCells(A, B, i, n - 1);
    }
  }

  /** Looking a column up in a finished row yields its table cell, or `null` where the cell is 0. */
  lemma {:induction false} GetRowEntries<T>(A: seq<T>, B: seq<T>, i: nat, n: nat, k: int)
    requires i <= |A| && n <= |B|
    ensures Get(RowEntries(A, B, i, n), k) ==
      if 1 <= i && 1 <= k <= n && A[i-1] == B[k-1] then Some(RunEndingAt(A, B, i, k)) else None
  {
    if i != 0 && n != 0 {
      GetRowEntries(A, B, i, n - 1, k);
      if A[i-1] == B[n-1] {
        var x := Entry(n, RunEndingAt(A, B, i, n));
        assert RowEntries(A, B, i, n) == RowEntries(A, B, i, n - 1) + [x];
        GetAppend(RowEntries(A, B, i, n - 1), x, k);
      } else {
        assert RowEntries(A, B, i, n) == RowEntries(A, B, i, n - 1);
      }
    }
  }

  /**
   * The diagonal neighbour read by the construction: the entry of row `i - 1` at column `j - 1`,
   * or 0 when there is none, plus one is the table cell at `(i, j)` of a matching pair.
   */
  lemma DiagonalLookup<T>(A: seq<T>, B: seq<T>, i: nat, j: nat)
    requires 1 < i <= |A| && 1 < j <= |B| && A[i-1] == B[j-1]
    ensures var v := Get(RowEntries(A, B, i - 1, |B|), j - 1);
      (if v.None? then 0 else v.value) + 1 == RunEndingAt(A, B, i, j)
  {
    GetRowEntries(A, B, i - 1, |B|, j - 1);
  }

  /** Putting the cell of a matching column `j` into the row built up to `j - 1` gives the row built up to `j`. */
  lemma PutExtendsRow<T>(A: seq<T>, B: seq<T>, i: nat, j: nat)
    requires 1 <= i <= |A| && 1 <= j <= |B| && A[i-1] == B[j-1]
    ensures Put(RowEntries(A, B, i, j - 1), j, RunEndingAt(A, B, i, j)) == RowEntries(A, B, i, j)
  {
    GetRowEntries(A, B, i, j - 1, j);
  }

  class HashContext {
    /** `ArrayList<LinkedHashMap<Integer, Integer>>`: one row per position of `A`, plus row 0. */
    var buffer: seq<Row>
    ghost const left: seq<Token>
    ghost const right: seq<Token>

    ghost predicate Valid()
      reads this
    {
      |buffer| == |left| + 1
      && forall i :: 0 <= i < |buffer| ==> buffer[i] == RowEntries(left, right, i, |right|)
    }

    /** `createContext()` followed by `initialize(a, b)`: `|A| + 1` empty rows, then the sparse table. */
    constructor Initialize(a: Content, b: Content)
      ensures Valid() && left == a.items && right == b.items
    {
      left := a.items;
      right := b.items;
      buffer := seq(|a.items| + 1, i => []);
      new;
      CalculateSubstringsLength(a, b);
    }

    /**
     * `calculateSubstringsLength`: for every matching pair, `put(j, 1)` on row or column 1 and
     * otherwise `put(j, v + 1)` where `v` is the diagonal neighbour, or 0 when it is absent.
     */
    method CalculateSubstringsLength(a: Content, b: Content)
      requires left == a.items && right == b.items
      requires |buffer| == |left| + 1 && forall i :: 0 <= i < |buffer| ==> buffer[i] == []
      modifies this
      ensures Valid()
    {
      var i := 1;
      while i <= |a.items|
        invariant 1 <= i <= |a.items| + 1 && |buffer| == |left| + 1
        invariant forall x :: 0 <= x < i ==> buffer[x] == RowEntries(left, right, x, |right|)
        invariant forall x :: i <= x < |buffer| ==> buffer[x] == []
      {
        FillRow(a, b, i);
        i := i + 1;
      }
    }

    /**
     * The inner loop of the construction for row `i`: every column `j` where the tokens agree
     * gets the length of the run ending there, read from the diagonal neighbour in row `i - 1`.
     */
    method FillRow(a: Content, b: Content, i: int)
      requires left == a.items && right == b.items
      requires 1 <= i < |buffer| == |left| + 1
      requires buffer[i - 1] == RowEntries(left, right, i - 1, |right|) && buffer[i] == []
      modifies this
      ensures buffer == old(buffer)[i := RowEntries(left, right, i, |right|)]
    {
      var j := 1;
      while j <= |b.items|
        invariant 1 <= j <= |b.items| + 1 && |buffer| == |old(buffer)|
        invariant buffer[i] == RowEntries(left, right, i, j - 1)
        invariant forall x :: 0 <= x < |buffer| && x != i ==> buffer[x] == old(buffer)[x]
      {
        if a.items[i - 1] == b.items[j - 1] {
          var row := buffer[i];
          if i == 1 || j == 1 {
            PutExtendsRow(left, right, i, j);
            buffer := buffer[i := Put(row, j, 1)];
          } else {
            var rowBef := buffer[i - 1];
            var v := Get(rowBef, j - 1);
            if v.None? {
              v := Some(0);
            }
            DiagonalLookup(left, right, i, j);
            PutExtendsRow(left, right, i, j);
            buffer := buffer[i := Put(row, j, v.value + 1)];
          }
        }
        j := j + 1;
      }
    }
  }

  /** The column of the rectangle up to which a row of `n` columns reaches. */
  function Clamp(n: int, rb: Interval): int
  {
    Max(rb.begin, Min(n, rb.end))
  }

  /**
   * One pass of the entry loop: entries left of the rectangle are skipped, entries right of it
   * end the loop (they change nothing), others are clipped and replace the best on a strictly
   * longer run.
   */
  function EntryStep(acc: Scan, x: Entry, i: int, maxLenA: int, rb: Interval): Scan
  {
    if x.key < rb.begin + 1 || x.key > rb.end then acc
    else
      var adjLen := Min(Min(maxLenA, x.key - rb.begin), x.value);
      if adjLen > acc.maxLen then Scan(adjLen, Cell(i, x.key, adjLen)) else acc
  }

  /** The entry loop over a whole row, in the row's order. */
  function EntryScan(row: Row, i: int, maxLenA: int, rb: Interval, acc: Scan): Scan
    decreases |row|
  {
    if |row| == 0 then acc
    else EntryStep(EntryScan(row[..|row| - 1], i, maxLenA, rb, acc), row[|row| - 1], i, maxLenA, rb)
  }

  /** Once an entry lies right of the rectangle, so do all later ones: stopping there changes nothing. */
  lemma {:induction false} EntryScanIgnoresTail(row: Row, e: int, i: int, maxLenA: int, rb: Interval, acc: Scan)
    requires 0 <= e < |row| && row[e].key > rb.end
    requires forall e1, e2 :: 0 <= e1 < e2 < |row| ==> row[e1].key < row[e2].key
    ensures EntryScan(row, i, maxLenA, rb, acc) == EntryScan(row[..e], i, maxLenA, rb, acc)
    decreases |row|
  {
    if |row| - 1 > e {
      var prefix := row[..|row| - 1];
      assert prefix[..e] == row[..e];
      EntryScanIgnoresTail(prefix, e, i, maxLenA, rb, acc);
    } else {
      assert row[..|row| - 1] == row[..e];
    }
  }

  /** The entry loop over a row built up to column `n`: one more entry when column `n` matches. */
  lemma EntryScanNextColumn<T>(A: seq<T>, B: seq<T>, i: nat, n: nat, maxLenA: int, rb: Interval, acc: Scan)
    requires 0 < i <= |A| && 0 < n <= |B|
    ensures EntryScan(RowEntries(A, B, i, n), i, maxLenA, rb, acc)
      == if A[i-1] == B[n-1] then EntryStep(EntryScan(RowEntries(A, B, i, n - 1), i, maxLenA, rb, acc), Entry(n, RunEndingAt(A, B, i, n)), i, maxLenA, rb)
         else EntryScan(RowEntries(A, B, i, n - 1), i, maxLenA, rb, acc)
  {
    var prefix := RowEntries(A, B, i, n - 1);
    var row := RowEntries(A, B, i, n);
    if A[i-1] == B[n-1] {
      assert row == prefix + [Entry(n, RunEndingAt(A, B, i, n))];
      assert row[..|row| - 1] == prefix;
    } else {
      assert row == prefix;
    }
  }

  /** On a matching column the entry step and the scan step agree, inside the rectangle and outside it. */
  lemma EntryStepIsStep<T>(A: seq<T>, B: seq<T>, ra: Interval, rb: Interval, i: int, n: nat, prev: Scan)
    requires InBounds(A, ra) && InBounds(B, rb) && ra.begin < i <= ra.end && 0 < n <= |B| && A[i-1] == B[n-1]
    ensures EntryStep(prev, Entry(n, RunEndingAt(A, B, i, n)), i, i - ra.begin, rb)
      == if rb.begin < n <= rb.end then Step(A, B, ra, rb, prev, i, n) else prev
  {
    if rb.begin < n <= rb.end {
      ClippedRunIsClippedCell(A, B, ra, rb, i, n);
    }
  }

  /** Row scans up to neighbouring columns: one more step inside the rectangle, none outside. */
  lemma RowScanNextColumn<T>(A: seq<T>, B: seq<T>, ra: Interval, rb: Interval, i: int, n: nat, acc: Scan)
    requires InBounds(A, ra) && InBounds(B, rb) && ra.begin < i <= ra.end && 0 < n <= |B|
    ensures RowScan(A, B, ra, rb, i, Clamp(n, rb), acc)
      == if rb.begin < n <= rb.end then Step(A, B, ra, rb, RowScan(A, B, ra, rb, i, Clamp(n - 1, rb), acc), i, n)
         else RowScan(A, B, ra, rb, i, Clamp(n - 1, rb), acc)
  {
  }

  /**
   * Folding the entries of row `i` gives the same result as scanning every cell of that row of
   * the rectangle: the cells that have no entry hold 0 and never replace the best run.
   */
  lemma {:induction false} EntryScanIsRowScan<T>(A: seq<T>, B: seq<T>, ra: Interval, rb: Interval, i: int, n: nat, acc: Scan)
    requires InBounds(A, ra) && InBounds(B, rb) && ra.begin < i <= ra.end && n <= |B|
    ensures EntryScan(RowEntries(A, B, i, n), i, i - ra.begin, rb, acc) == RowScan(A, B, ra, rb, i, Clamp(n, rb), acc)
  {
    if n > 0 {
      EntryScanIsRowScan(A, B, ra, rb, i, n - 1, acc);
      RowScanNextColumn(A, B, ra, rb, i, n, acc);
      EntryScanNextColumn(A, B, i, n, i - ra.begin, rb, acc);
      if A[i-1] == B[n-1] {
        EntryStepIsStep(A, B, ra, rb, i, n, RowScan(A, B, ra, rb, i, Clamp(n - 1, rb), acc));
      } else if rb.begin < n <= rb.end {
        assert ClippedRun(A, B, ra, rb, i, n) == 0;
      }
    }
  }

  /**
   * The inner loop of `findBiggestOverlap` over the entries of one row: it leaves in `res` and
   * the returned length exactly what folding `EntryStep` over the row gives.
   */
  method ScanEntries(row: Row, i: int, maxLenA: int, rangeB: IntRange, res: Overlap, maxLen: nat,
                     ghost rb: Interval) returns (newMaxLen: nat)
    requires rangeB.Valid() && rb == rangeB.Value()
    requires forall e1, e2 :: 0 <= e1 < e2 < |row| ==> row[e1].key < row[e2].key
    requires res.Valid() && res.a != rangeB && res.b != rangeB
    modifies res.a, res.b
    ensures res.Valid()
    ensures Scan(newMaxLen, res.Value()) == EntryScan(row, i, maxLenA, rb, old(Scan(maxLen, res.Value())))
  {
    ghost var before := Scan(maxLen, res.Value());
    newMaxLen := maxLen;
    var e := 0;
    while e < |row|
      invariant 0 <= e <= |row|
      invariant res.Valid()
      invariant Scan(newMaxLen, res.Value()) == EntryScan(row[..e], i, maxLenA, rb, before)
    {
      assert row[..e + 1][..e] == row[..e];
      var key := row[e].key;
      if key < rangeB.begin + 1 {
        // continue: the column lies left of the rectangle
      } else if key > rangeB.end {
        EntryScanIgnoresTail(row, e, i, maxLenA, rb, before);
        return;
      } else {
        var j := key;
        var maxLenB := j - rangeB.begin;
        var adjLen := Min(Min(maxLenA, maxLenB), row[e].value);
        if adjLen > newMaxLen {
          newMaxLen := adjLen;
          var _ := res.a.Initialize(i - adjLen, i);
          var _ := res.b.Initialize(j - adjLen, j);
        }
      }
      e := e + 1;
    }
    assert row[..|row|] == row;
  }

  /**
   * `findBiggestOverlap`: walks the rows `rangeA.begin + 1 .. rangeA.end` of the sparse table
   * and, in each, the entries in their order, skipping columns left of `rangeB` and stopping at
   * the first column right of it; each entry is clipped to the rectangle.
   */
  method FindBiggestOverlap(a: Content, rangeA: IntRange, b: Content, rangeB: IntRange,
                            res: Overlap, context: HashContext)
    requires context.Valid() && context.left == a.items && context.right == b.items
    requires rangeA.Valid() && rangeB.Valid()
    requires InBounds(a.items, rangeA.Value()) && InBounds(b.items, rangeB.Value())
    requires res.Valid() && res.a != rangeA && res.a != rangeB && res.b != rangeA && res.b != rangeB
    modifies res.a, res.b
    ensures res.Valid()
    ensures res.Value() == TableScan(a.items, b.items, rangeA.Value(), rangeB.Value(),
                                     rangeA.end, Scan(0, old(res.Value()))).found
  {
    ghost var A, B, ra, rb := a.items, b.items, rangeA.Value(), rangeB.Value();
    ghost var init := Scan(0, res.Value());
    var maxLen := 0;
    var i := rangeA.begin + 1;
    while i <= rangeA.end
      invariant ra.begin + 1 <= i <= ra.end + 1
      invariant res.Valid()
      invariant Scan(maxLen, res.Value()) == TableScan(A, B, ra, rb, i - 1, init)
    {
      var row := context.buffer[i];
      var maxLenA := i - rangeA.begin;
      ghost var before := Scan(maxLen, res.Value());
      assert row == RowEntries(A, B, i, |B|);
      RowEntriesAscending(A, B, i, |B|);
      maxLen := ScanEntries(row, i, maxLenA, rangeB, res, maxLen, rb);
      EntryScanIsRowScan(A, B, ra, rb, i, |B|, before);
      i := i + 1;
    }
  }
}
